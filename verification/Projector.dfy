/** The asset projector: the entries in force, folded over the starting snapshot into rosters, picks, charges and
    the market's book. One step reads the ledger only up to its own entry. */
module Projector {
  import opened Assets
  import opened Records
  import opened Replay
  import opened Market
  import opened Teams

  /** What the projector asks of the league's rules, which are resolved elsewhere from a ledger prefix. */
  datatype Rules = Rules(season: seq<Record> -> Option<int>, sides: seq<Record> -> Option<map<string, string>>)

  /** The native league's state; before the starting snapshot is recorded it holds no assets. */
  datatype Native = Native(seeded: bool, league: League)

  const NO_ASSETS := Snapshot(0, [], [], [], [], [], map[])
  const UNSEEDED := Native(false, League(NO_ASSETS, EMPTY_BOOK))

  // ----- the starting snapshot

  /** The checks a starting snapshot meets: listed holders, one copy a side, charges named once. */
  predicate ValidSeed(s: Snapshot) {
    && (forall i, j :: 0 <= i < j < |s.players| && s.players[i].id == s.players[j].id ==>
          s.SideOf(s.players[i].franchise) != s.SideOf(s.players[j].franchise))
    && (forall i, j :: 0 <= i < j < |s.franchises| ==> s.franchises[i].id != s.franchises[j].id)
    && (forall i, j :: 0 <= i < j < |s.adjustments| ==> s.adjustments[i].id != s.adjustments[j].id)
    && (forall k :: 0 <= k < |s.players| ==> s.Lists(s.players[k].franchise))
    && (forall k :: 0 <= k < |s.picks| ==> s.Lists(s.picks[k].owner))
    && (forall k :: 0 <= k < |s.adjustments| ==> s.Lists(s.adjustments[k].franchise))
  }

  /** The starting snapshot among the first n entries, on the sides the whole ledger gives. */
  function SeedIn(rules: Rules, records: seq<Record>, n: nat): Result<Native>
    requires n <= |records|
  {
    if n == 0 then Ok(UNSEEDED)
    else
      var before :- SeedIn(rules, records, n - 1);
      var r := records[n - 1];
      if !r.command.NativeSeed? then Ok(before)
      else if before.seeded || r.args.native.None? then
        Refused("the league has an invalid starting snapshot history")
      else
        var sides := rules.sides(records);
        if sides.None? then Refused("the league's sides cannot be read")
        else
          var seed := r.args.native.value.(sides := sides.value);
          if !ValidSeed(seed) then Refused("read starting snapshot")
          else Ok(Native(true, League(seed, EMPTY_BOOK)))
  }

  function Seed(rules: Rules, records: seq<Record>): Result<Native> {
    if records == [] then Refused("this app league has not been created") else SeedIn(rules, records, |records|)
  }

  // ----- drafts

  function SignStartup(s: Snapshot, season: int, player: string, franchise: string, round: int, slot: int,
                       terms: Terms): Snapshot {
    s.(players := s.players + [NativePlayer(player, "", franchise, Active, terms.salary, season + terms.years - 1, UFA,
                                            StartupDraft(round, slot, season), 0, "", "")])
  }

  function SignRookie(s: Snapshot, season: int, player: string, franchise: string, round: int, slot: int,
                      terms: Terms): Snapshot {
    var status := if terms.rfaAfter then RFA else UFA;
    s.(players := s.players + [NativePlayer(player, "", franchise, Active, terms.salary, season + terms.years - 1,
                                            status, RookieDraft(round, slot, season), round, "", "")])
  }

  /** The picks with every one that passes the test rewritten. */
  function Rewritten(picks: seq<NativePick>, test: NativePick -> bool, rewrite: NativePick -> NativePick): (out: seq<NativePick>)
    ensures |out| == |picks|
    ensures forall k :: 0 <= k < |out| ==> out[k] == if test(picks[k]) then rewrite(picks[k]) else picks[k]
  {
    seq(|picks|, k requires 0 <= k < |picks| => if test(picks[k]) then rewrite(picks[k]) else picks[k])
  }

  function MarkPick(s: Snapshot, season: int, round: int, original: string, slot: int, player: string): Snapshot {
    s.(picks := Rewritten(s.picks,
                          (p: NativePick) => p.season == season && p.round == round && p.original == original,
                          (p: NativePick) => p.(slot := slot, player := player)))
  }

  function ApplyPick(s: Snapshot, r: Record): Snapshot
    requires r.command.DraftPick?
  {
    var d := r.args.draft.value;
    var p := d.pick.value;
    if d.startup then SignStartup(s, d.season, p.player, p.franchise, p.round, p.slot, p.terms)
    else
      MarkPick(SignRookie(s, d.season, p.player, p.franchise, p.round, p.slot, p.terms), d.season, p.round, p.original,
               p.slot, p.player)
  }

  function ApplyTray(s: Snapshot, r: Record): Snapshot
    requires r.command.DraftAssign? || r.command.DraftInsert?
  {
    var d := r.args.draft.value;
    if r.args.draftOutcome.None? || r.args.draftOutcome.value.terms.None? then s
    else
      var o, act := r.args.draftOutcome.value, d.act.value;
      var terms := o.terms.value;
      if d.startup then SignStartup(s, d.season, act.player, o.franchise, act.round, o.slot, terms)
      else
        var signed := SignRookie(s, d.season, act.player, o.franchise, act.round, o.slot, terms);
        if r.command.DraftAssign? && act.extra == 0 then
          MarkPick(signed, d.season, act.round, act.original, o.slot, act.player)
        else signed
  }

  function ApplyChange(s: Snapshot, r: Record): Snapshot
    requires r.command.DraftChange?
  {
    var d := r.args.draft.value;
    var act := d.act.value;
    var i := s.PlayerOn(d.side, act.replaced);
    s.(players := if i >= 0 then s.players[i := s.players[i].(id := act.player)] else s.players,
       picks := Rewritten(s.picks,
                          (p: NativePick) => p.player == act.replaced && s.SideOf(p.owner) == d.side,
                          (p: NativePick) => p.(player := act.player)))
  }

  function ApplyClose(s: Snapshot, r: Record): Snapshot {
    if r.args.draftOutcome.None? then s
    else s.(pool := s.pool + r.args.draftOutcome.value.pool, picks := s.picks + r.args.draftOutcome.value.issued)
  }

  function ApplyDraft(s: Snapshot, r: Record): Snapshot {
    if r.command.DraftPick? then ApplyPick(s, r)
    else if r.command.DraftAssign? || r.command.DraftInsert? then ApplyTray(s, r)
    else if r.command.DraftChange? then ApplyChange(s, r)
    else if r.command.DraftArchive? then ApplyClose(s, r)
    else s
  }

  // ----- overrides, rollover and the O-Line close

  function ApplyOverride(s: Snapshot, r: Record, v: Override, season: int): Result<Snapshot> {
    if r.command.CapAdjust? then
      if !s.Lists(v.franchise) then Refused("choose a franchise in this app league")
      else
        Ok(s.(adjustments := s.adjustments + [NativeCharge(r.entry, v.franchise, v.amount, v.season,
                                                           "Commissioner salary adjustment: " + r.reason)]))
    else
      var side :- s.TargetSide(v.franchise);
      var i := s.PlayerOn(side, v.player);
      if i < 0 then Refused("choose a player on this app league's recorded roster")
      else
        var p := s.players[i];
        if v.franchise != "" && p.franchise != v.franchise then
          Refused("choose a player on that franchise's recorded roster")
        else
          if r.command.ContractEdit? then
            if season + v.years - 1 > 9999 then Refused("the contract ends beyond the supported calendar")
            else Ok(s.(players := s.players[i := p.(salary := v.salary, expirationYear := season + v.years - 1)]))
          else if r.command.CapRelief? then
            Ok(s.(adjustments := s.adjustments + [NativeCharge(r.entry, p.franchise, -v.amount, season,
                                                               "Salary relief for player " + p.id + ": " + r.reason)]))
          else Ok(s)
  }

  function ApplyRollover(n: Native, r: Record): Result<Native> {
    if r.plan.None? || !r.before then Refused("the rollover entry has no recorded plan")
    else if !n.seeded then Ok(n)
    else if n.league.assets.season != r.plan.value.closes then
      Refused("the rollover does not follow the league's recorded assets")
    else Ok(n.(league := n.league.(assets := r.plan.value.after)))
  }

  function SignUnits(s: Snapshot, placed: seq<NativePlayer>): Result<Snapshot>
    decreases |placed|
  {
    if placed == [] then Ok(s)
    else if s.OnSide(s.SideOf(placed[0].franchise), placed[0].id) then
      Refused("an assigned O-Line unit already belongs to a roster")
    else SignUnits(s.(players := s.players + [placed[0]]), placed[1..])
  }

  function ProjectOLine(n: Native, o: Option<OLineOutcome>): Result<Native> {
    if !n.seeded then Refused("record starting assets before closing the O-Line auction")
    else if o.None? then Refused("the O-Line close has no recorded assignments")
    else
      var assets :- SignUnits(n.league.assets, o.value.placed);
      Ok(n.(league := League(assets, n.league.book.(oline := o))))
  }

  // ----- corrections

  function CorrectionWords(r: Record): string {
    "Commissioner correction: " + r.reason
  }

  function CorrectPickOwner(s: Snapshot, r: Record): Result<Snapshot>
    requires r.args.correction.Some?
  {
    var c := r.args.correction.value;
    if !s.Lists(c.owner) then Refused("choose an owner in this app league")
    else
      var i := IndexFunc(s.picks, (p: NativePick) =>
                 p.season == c.pickSeason && p.round == c.pickRound && p.original == c.pickOriginal);
      if i < 0 then Refused("choose a recorded draft pick")
      else if s.picks[i].player != "" || s.picks[i].skipped then
        Refused("reverse the recorded selection before changing its owner")
      else if s.picks[i].owner == c.owner then Refused("this franchise already owns the pick")
      else Ok(s.(picks := s.picks[i := s.picks[i].(owner := c.owner, correction := CorrectionWords(r))]))
  }

  function RemovePlayer(s: Snapshot, i: int, franchise: string): Result<Snapshot>
    requires i < |s.players|
  {
    if i < 0 || s.players[i].franchise != franchise then Refused("this player is not on that franchise's roster")
    else Ok(s.(players := Without(s.players, i)))
  }

  function CorrectProvenanceAt(s: Snapshot, i: int, r: Record): Result<Snapshot>
    requires i < |s.players| && r.args.correction.Some?
  {
    var c := r.args.correction.value;
    if i < 0 || (c.franchise != "" && s.players[i].franchise != c.franchise) then Refused("choose a recorded roster player")
    else Ok(s.(players := s.players[i := s.players[i].(acquiredVia := c.via, correction := CorrectionWords(r))]))
  }

  /** A player added back by a correction takes the contract the ledger last held for the side's copy. */
  function AddPlayer(s: Snapshot, r: Record, held: Result<Option<NativePlayer>>): Result<Snapshot>
    requires r.args.correction.Some?
  {
    var last :- held;
    if last.None? then Refused("record this player's contract before adding him; a correction cannot invent one")
    else
      var p := last.value.(franchise := r.args.correction.value.franchise, status := Active,
                           correction := CorrectionWords(r));
      Ok(s.(players := s.players + [p]))
  }

  predicate AssetCorrection(command: Command) {
    command.CorrectRoster? || command.CorrectProvenance? || command.CorrectPick?
  }

  /** A roster correction at i; only an added player looks back, at the ledger before i. */
  function CorrectRosterOf(rules: Rules, records: seq<Record>, i: nat, s: Snapshot, side: string): Result<Snapshot>
    requires i < |records| && records[i].command.CorrectRoster?
    decreases i, 2, 1
  {
    var r := records[i];
    var c := r.args.correction.value;
    var at := s.PlayerOn(side, c.player);
    if !s.Lists(c.franchise) then Refused("choose a franchise in this app league")
    else if c.action == "remove" then RemovePlayer(s, at, c.franchise)
    else if at >= 0 then Refused("remove the player from his current roster before adding him elsewhere")
    else AddPlayer(s, r, LastHeld(rules, records[..i], side, c.player))
  }

  function ApplyCorrection(rules: Rules, records: seq<Record>, i: nat, s: Snapshot): Result<Snapshot>
    requires i < |records| && AssetCorrection(records[i].command)
    decreases i, 3, 0
  {
    var r := records[i];
    if r.command.CorrectPick? then CorrectPickOwner(s, r)
    else
      var side :- s.TargetSide(r.args.correction.value.franchise);
      if r.command.CorrectProvenance? then
        CorrectProvenanceAt(s, s.PlayerOn(side, r.args.correction.value.player), r)
      else CorrectRosterOf(rules, records, i, s, side)
  }

  /** The last contract the projection showed for the copy, if it ever showed one. */
  function LastHeld(rules: Rules, records: seq<Record>, side: string, id: string): Result<Option<NativePlayer>>
    decreases |records|, 2, 0
  {
    var seed :- Seed(rules, records);
    var (_, last) :- Watch(rules, records, Full(records).active, |records|, seed, side, id);
    Ok(last)
  }

  function HeldNow(n: Native, side: string, id: string, last: Option<NativePlayer>): Option<NativePlayer> {
    if !n.seeded then last
    else
      var i := n.league.assets.PlayerOn(side, id);
      if i >= 0 then Some(n.league.assets.players[i]) else last
  }

  /** The state after the first n entries in force, paired with the copy's last contract seen up to there. */
  function Watch(rules: Rules, records: seq<Record>, active: Active, n: nat, seed: Native, side: string, id: string)
    : Result<(Native, Option<NativePlayer>)>
    requires n <= |records|
    decreases |records|, 1, n
  {
    if n == 0 then Ok((seed, HeldNow(seed, side, id, None)))
    else
      var (before, last) :- Watch(rules, records, active, n - 1, seed, side, id);
      if !On(active, records[n - 1].entry) then Ok((before, last))
      else
        var after :- ProjectEntry(rules, records, n - 1, before);
        Ok((after, HeldNow(after, side, id, last)))
  }

  // ----- the step and the fold

  predicate BidCommand(command: Command) {
    command.BidPlace? || command.BidRaise? || command.BidWithdraw? || command.BidsProcess? || command.BidsOverride?
  }

  predicate WaiverCommand(command: Command) {
    || command.RosterCut? || command.RosterReserve? || command.WaiverClaim? || command.WaiverOrderSet?
    || command.WaiverOrderAuto? || command.WaiverProcess? || command.WaiverOverride?
  }

  predicate DraftAsset(command: Command) {
    || command.DraftPick? || command.DraftAssign? || command.DraftInsert? || command.DraftChange?
    || command.DraftArchive?
  }

  predicate OverrideCommand(command: Command) {
    command.ContractEdit? || command.CapAdjust? || command.CapRelief? || command.ReserveException?
  }

  function WithLeague(n: Native, league: Result<League>): Result<Native> {
    var changed :- league;
    Ok(n.(league := changed))
  }

  function WithAssets(n: Native, assets: Result<Snapshot>): Result<Native> {
    var changed :- assets;
    Ok(n.(league := n.league.(assets := changed)))
  }

  predicate MarketCommand(command: Command) {
    command.TradeOffer? || command.TradeAct? || WaiverCommand(command) || BidCommand(command) || command.OLineAuctionClose?
  }

  /** A market entry, applied to rosters and book. */
  function ProjectMarket(n: Native, r: Record): Result<Native>
    requires MarketCommand(r.command)
  {
    var command := r.command;
    if command.OLineAuctionClose? then ProjectOLine(n, r.args.oline)
    else if !n.seeded then Refused("record starting assets before changing the market")
    else if WaiverCommand(command) then WithLeague(n, ProjectWaiver(n.league, r))
    else if BidCommand(command) then WithLeague(n, ProjectBid(n.league, r))
    else WithLeague(n, ProjectTrade(n.league, r))
  }

  function ApplyTeams(n: Native, r: Record): Result<Native> {
    if TeamCount(r).Some? && n.seeded && TeamCount(r).value >= 0 then
      WithAssets(n, ResizeNative(n.league.assets, TeamCount(r).value))
    else Ok(n)
  }

  /** An entry of neither market nor correction, with the season's rules as they then stood. */
  function ProjectPlain(n: Native, r: Record, season: Option<int>): Result<Native> {
    var command := r.command;
    if command.RulesSet? then ApplyTeams(n, r)
    else if command.CorrectTransaction? || command.RuleException? then
      if !n.seeded then Refused("record the starting assets before correcting them") else Ok(n)
    else if command.SeasonRollover? then ApplyRollover(n, r)
    else if DraftAsset(command) then
      if !n.seeded then Refused("record starting assets before drafting")
      else Ok(n.(league := n.league.(assets := ApplyDraft(n.league.assets, r))))
    else if OverrideCommand(command) then
      if !n.seeded then Refused("a native correction has no starting assets")
      else if season.None? then Refused("the season's rules cannot be read")
      else WithAssets(n, ApplyOverride(n.league.assets, r, r.args.change.value, season.value))
    else Ok(n)
  }

  /** One entry in force, applied to the state. */
  function ProjectEntry(rules: Rules, records: seq<Record>, i: nat, n: Native): Result<Native>
    requires i < |records|
    decreases i, 4, 0
  {
    var r := records[i];
    if MarketCommand(r.command) then ProjectMarket(n, r)
    else if AssetCorrection(r.command) then
      if !n.seeded then Refused("record the starting assets before correcting them")
      else WithAssets(n, ApplyCorrection(rules, records, i, n.league.assets))
    else ProjectPlain(n, r, rules.season(records[..i + 1]))
  }

  /** The entries in [lo, hi) that are in force, applied in order. */
  function Fold(rules: Rules, records: seq<Record>, active: Active, lo: nat, hi: nat, start: Native): Result<Native>
    requires lo <= hi <= |records|
    decreases hi
  {
    if lo == hi then Ok(start)
    else
      var before :- Fold(rules, records, active, lo, hi - 1, start);
      if !On(active, records[hi - 1].entry) then Ok(before) else ProjectEntry(rules, records, hi - 1, before)
  }

  /** The native league as the ledger stands. */
  function Project(rules: Rules, records: seq<Record>): Result<Native> {
    var seed :- Seed(rules, records);
    Fold(rules, records, Full(records).active, 0, |records|, seed)
  }
}
