/** What drafts, overrides, corrections and rollovers leave behind, told by the fields their records carry. */
module RosterEffects {
  import opened Assets
  import opened Lists
  import opened Records
  import opened Market
  import opened MarketLaws
  import opened Teams
  import opened Projector

  // ----- drafts

  /** The contract of a rookie taken at a pick: the slot's terms from the draft's season on, a restricted free agent
      after it where the terms say so, with the round remembered. */
  predicate RookieSigns(p: NativePlayer, season: int, player: string, franchise: string, round: int, slot: int, terms: Terms) {
    && p.id == player && p.franchise == franchise && p.name == "" && p.status == Active
    && p.salary == terms.salary && p.expirationYear == season + terms.years - 1
    && (p.contractStatus == RFA <==> terms.rfaAfter) && (p.contractStatus == UFA <==> !terms.rfaAfter)
    && p.rookieRound == round && p.note == RookieDraft(round, slot, season) && p.acquiredVia == "" && p.correction == ""
  }

  /** In a startup draft no free agent is restricted, and no rookie round is remembered. */
  predicate StartupSigns(p: NativePlayer, season: int, player: string, franchise: string, round: int, slot: int, terms: Terms) {
    && p.id == player && p.franchise == franchise && p.name == "" && p.status == Active
    && p.salary == terms.salary && p.expirationYear == season + terms.years - 1 && p.contractStatus == UFA
    && p.rookieRound == 0 && p.note == StartupDraft(round, slot, season) && p.acquiredVia == "" && p.correction == ""
  }

  /** The picks are as before, but for those of the season, round and original owner, which are used at the slot on the
      player. */
  ghost predicate PickUsed(before: seq<NativePick>, after: seq<NativePick>, season: int, round: int, original: string,
                           slot: int, player: string) {
    |after| == |before| && forall k :: 0 <= k < |before| ==>
      after[k] == if before[k].season == season && before[k].round == round && before[k].original == original
                  then before[k].(slot := slot, player := player) else before[k]
  }

  lemma PlayerIsDrafted(s: Snapshot, r: Record)
    requires r.command.DraftPick?
    ensures var d, t := r.args.draft.value, ApplyDraft(s, r);
            var p, n := d.pick.value, |s.players|;
            && |t.players| == n + 1 && t.players[..n] == s.players
            && (d.startup ==>
                  && StartupSigns(t.players[n], d.season, p.player, p.franchise, p.round, p.slot, p.terms)
                  && t == s.(players := t.players))
            && (!d.startup ==>
                  && RookieSigns(t.players[n], d.season, p.player, p.franchise, p.round, p.slot, p.terms)
                  && t == s.(players := t.players, picks := t.picks)
                  && PickUsed(s.picks, t.picks, d.season, p.round, p.original, p.slot, p.player))
  {
  }

  /** A tray assignment or insertion signs as a pick does, at the recorded slot, for the recorded franchise. It uses a
      pick only where it fills a scheduled one of a rookie draft; without recorded terms it does nothing. */
  lemma PlayerIsAssigned(s: Snapshot, r: Record)
    requires r.command.DraftAssign? || r.command.DraftInsert?
    ensures var d, t := r.args.draft.value, ApplyDraft(s, r);
            var o, act, n := r.args.draftOutcome, d.act.value, |s.players|;
            if o.None? || o.value.terms.None? then t == s
            else
              && |t.players| == n + 1 && t.players[..n] == s.players
              && (d.startup ==>
                    && StartupSigns(t.players[n], d.season, act.player, o.value.franchise, act.round, o.value.slot,
                                    o.value.terms.value)
                    && t == s.(players := t.players))
              && (!d.startup ==>
                    && RookieSigns(t.players[n], d.season, act.player, o.value.franchise, act.round, o.value.slot,
                                   o.value.terms.value)
                    && t == s.(players := t.players, picks := t.picks)
                    && if r.command.DraftAssign? && act.extra == 0
                       then PickUsed(s.picks, t.picks, d.season, act.round, act.original, o.value.slot, act.player)
                       else t.picks == s.picks)
  {
  }

  /** A change puts the new rookie in the old one's contract, and on the side's picks that were used on him. */
  lemma PlayerIsChanged(s: Snapshot, r: Record)
    requires r.command.DraftChange?
    ensures var d, t := r.args.draft.value, ApplyDraft(s, r);
            var act, i := d.act.value, s.PlayerOn(d.side, d.act.value.replaced);
            && t == s.(players := t.players, picks := t.picks) && |t.players| == |s.players| && |t.picks| == |s.picks|
            && (forall k :: 0 <= k < |s.players| ==>
                  t.players[k] == if k == i then s.players[k].(id := act.player) else s.players[k])
            && (forall k :: 0 <= k < |s.picks| ==>
                  t.picks[k] == if s.picks[k].player == act.replaced && s.SideOf(s.picks[k].owner) == d.side
                                then s.picks[k].(player := act.player) else s.picks[k])
  {
  }

  /** A close appends what its outcome lists: rookies to the pool, picks to the picks. */
  lemma DraftIsClosed(s: Snapshot, r: Record)
    requires r.command.DraftArchive?
    ensures var t, o := ApplyDraft(s, r), r.args.draftOutcome;
            if o.None? then t == s
            else
              && t.pool == s.pool + o.value.pool && t.picks == s.picks + o.value.issued
              && t == s.(pool := t.pool, picks := t.picks)
  {
  }

  // ----- overrides

  /** One more charge. */
  predicate Charged(s: Snapshot, t: Snapshot, id: string, franchise: string, amount: int, season: int, description: string) {
    var n := |s.adjustments|;
    && t == s.(adjustments := t.adjustments) && |t.adjustments| == n + 1 && t.adjustments[..n] == s.adjustments
    && t.adjustments[n].id == id && t.adjustments[n].franchise == franchise && t.adjustments[n].amount == amount
    && t.adjustments[n].season == season && t.adjustments[n].description == description
  }

  lemma CapIsAdjusted(s: Snapshot, r: Record, v: Override, season: int)
    requires r.command.CapAdjust?
    ensures ApplyOverride(s, r, v, season).Ok? <==> exists k :: 0 <= k < |s.franchises| && s.franchises[k].id == v.franchise
    ensures ApplyOverride(s, r, v, season).Ok? ==>
      Charged(s, ApplyOverride(s, r, v, season).value, r.entry, v.franchise, v.amount, v.season,
              "Commissioner salary adjustment: " + r.reason)
  {
  }

  /** Where an override of a player finds him: on the franchise's side or, where it names none, in a league of one side. */
  predicate OverrideFinds(s: Snapshot, v: Override, i: int) {
    && (v.franchise == "" ==> s.sides == map[])
    && i == s.PlayerOn(if v.franchise == "" then "" else s.SideOf(v.franchise), v.player)
    && 0 <= i < |s.players| && (v.franchise != "" ==> s.players[i].franchise == v.franchise)
  }

  function FoundAt(s: Snapshot, v: Override): int {
    s.PlayerOn(if v.franchise == "" then "" else s.SideOf(v.franchise), v.player)
  }

  /** A contract edit sets the salary, and the last year from the season's on; nothing beyond year 9999. */
  lemma ContractIsEdited(s: Snapshot, r: Record, v: Override, season: int)
    requires r.command.ContractEdit?
    ensures ApplyOverride(s, r, v, season).Ok? <==> OverrideFinds(s, v, FoundAt(s, v)) && season + v.years - 1 <= 9999
    ensures ApplyOverride(s, r, v, season).Ok? ==>
      var t, i := ApplyOverride(s, r, v, season).value, FoundAt(s, v);
      && t == s.(players := t.players) && |t.players| == |s.players|
      && t.players[i].salary == v.salary && t.players[i].expirationYear == season + v.years - 1
      && t.players[i] == s.players[i].(salary := t.players[i].salary, expirationYear := t.players[i].expirationYear)
      && (forall k :: 0 <= k < |s.players| && k != i ==> t.players[k] == s.players[k])
  {
  }

  /** Cap relief takes its amount off: the charge to the player's franchise is negative, in the season's year. */
  lemma CapIsRelieved(s: Snapshot, r: Record, v: Override, season: int)
    requires r.command.CapRelief?
    ensures ApplyOverride(s, r, v, season).Ok? <==> OverrideFinds(s, v, FoundAt(s, v))
    ensures ApplyOverride(s, r, v, season).Ok? ==>
      var i := FoundAt(s, v);
      Charged(s, ApplyOverride(s, r, v, season).value, r.entry, s.players[i].franchise, 0 - v.amount, season,
              "Salary relief for player " + s.players[i].id + ": " + r.reason)
  {
  }

  /** A reserve exception checks its player and changes nothing. */
  lemma ReserveIsExcepted(s: Snapshot, r: Record, v: Override, season: int)
    requires r.command.ReserveException?
    ensures ApplyOverride(s, r, v, season).Ok? <==> OverrideFinds(s, v, FoundAt(s, v))
    ensures ApplyOverride(s, r, v, season).Ok? ==> ApplyOverride(s, r, v, season).value == s
  {
  }

  // ----- corrections

  predicate FirstPick(picks: seq<NativePick>, c: Correction, i: nat) {
    && i < |picks| && picks[i].season == c.pickSeason && picks[i].round == c.pickRound && picks[i].original == c.pickOriginal
    && forall k :: 0 <= k < i ==>
         !(picks[k].season == c.pickSeason && picks[k].round == c.pickRound && picks[k].original == c.pickOriginal)
  }

  ghost predicate OwnerCorrectable(s: Snapshot, c: Correction, i: nat) {
    && FirstPick(s.picks, c, i) && s.picks[i].player == "" && !s.picks[i].skipped && s.picks[i].owner != c.owner
    && exists k :: 0 <= k < |s.franchises| && s.franchises[k].id == c.owner
  }

  /** The first pick the correction names changes hands, if it is unused, another's, and the new owner is a franchise. */
  lemma PickIsCorrected(s: Snapshot, r: Record)
    requires r.args.correction.Some?
    ensures CorrectPickOwner(s, r).Ok? <==> exists i: nat :: OwnerCorrectable(s, r.args.correction.value, i)
    ensures forall i: nat :: CorrectPickOwner(s, r).Ok? && FirstPick(s.picks, r.args.correction.value, i) ==>
      var t := CorrectPickOwner(s, r).value;
      && t == s.(picks := t.picks) && |t.picks| == |s.picks|
      && t.picks[i].owner == r.args.correction.value.owner && t.picks[i].correction == "Commissioner correction: " + r.reason
      && t.picks[i] == s.picks[i].(owner := t.picks[i].owner, correction := t.picks[i].correction)
      && (forall k :: 0 <= k < |s.picks| && k != i ==> t.picks[k] == s.picks[k])
  {
    var c := r.args.correction.value;
    var i := IndexFunc(s.picks, (p: NativePick) =>
               p.season == c.pickSeason && p.round == c.pickRound && p.original == c.pickOriginal);
    if CorrectPickOwner(s, r).Ok? {
      assert OwnerCorrectable(s, c, i);
    }
    if j: nat :| OwnerCorrectable(s, c, j) {
      assert j == i;
    }
  }

  /** A provenance correction rewrites how the side's copy came, and says so; the franchise, if named, must hold it. */
  lemma ProvenanceIsCorrected(s: Snapshot, i: int, r: Record)
    requires i < |s.players| && r.args.correction.Some?
    ensures var c := r.args.correction.value;
            CorrectProvenanceAt(s, i, r).Ok? <==> i >= 0 && (c.franchise == "" || s.players[i].franchise == c.franchise)
    ensures CorrectProvenanceAt(s, i, r).Ok? ==>
      var t := CorrectProvenanceAt(s, i, r).value;
      && t == s.(players := t.players) && |t.players| == |s.players|
      && t.players[i].acquiredVia == r.args.correction.value.via
      && t.players[i].correction == "Commissioner correction: " + r.reason
      && t.players[i] == s.players[i].(acquiredVia := t.players[i].acquiredVia, correction := t.players[i].correction)
      && (forall k :: 0 <= k < |s.players| && k != i ==> t.players[k] == s.players[k])
  {
  }

  ghost predicate Listed(s: Snapshot, franchise: string) {
    exists k :: 0 <= k < |s.franchises| && s.franchises[k].id == franchise
  }

  /** A removal takes the side's copy off the franchise that holds it. */
  lemma PlayerIsRemoved(rules: Rules, records: seq<Record>, i: nat, s: Snapshot, side: string)
    requires i < |records| && records[i].command.CorrectRoster? && records[i].args.correction.value.action == "remove"
    ensures var c, at := records[i].args.correction.value, s.PlayerOn(side, records[i].args.correction.value.player);
            var out := CorrectRosterOf(rules, records, i, s, side);
            && (out.Ok? <==> Listed(s, c.franchise) && at >= 0 && s.players[at].franchise == c.franchise)
            && (out.Ok? ==> out.value == s.(players := s.players[..at] + s.players[at + 1..]))
  {
  }

  /** A player is added to a franchise while nobody on the side holds him. He comes back under the contract the ledger
      last held for the side, active, and marked. */
  lemma PlayerIsAdded(rules: Rules, records: seq<Record>, i: nat, s: Snapshot, side: string)
    requires i < |records| && records[i].command.CorrectRoster? && records[i].args.correction.value.action != "remove"
    ensures var c := records[i].args.correction.value;
            var held, out := LastHeld(rules, records[..i], side, c.player), CorrectRosterOf(rules, records, i, s, side);
            && (out.Ok? <==> Listed(s, c.franchise) && !s.OnSide(side, c.player) && held.Ok? && held.value.Some?)
            && (out.Ok? ==>
                  && out.value == s.(players := out.value.players) && |out.value.players| == |s.players| + 1
                  && out.value.players[..|s.players|] == s.players
                  && AddedBack(out.value.players[|s.players|], held.value.value, c.franchise, records[i].reason))
  {
  }

  predicate AddedBack(p: NativePlayer, held: NativePlayer, franchise: string, reason: string) {
    && p.id == held.id && p.name == held.name && p.salary == held.salary && p.expirationYear == held.expirationYear
    && p.contractStatus == held.contractStatus && p.note == held.note && p.rookieRound == held.rookieRound
    && p.acquiredVia == held.acquiredVia
    && p.franchise == franchise && p.status == Active && p.correction == "Commissioner correction: " + reason
  }

  // ----- rollovers, and how each command is taken

  /** A rollover with its plan replaces the assets by the plan's, if they are of the season it closes. */
  lemma SeasonRollsOver(n: Native, r: Record)
    ensures ApplyRollover(n, r).Ok? <==>
      r.plan.Some? && r.before && (n.seeded ==> n.league.assets.season == r.plan.value.closes)
    ensures ApplyRollover(n, r).Ok? ==>
      ApplyRollover(n, r).value ==
      Native(n.seeded, League(if n.seeded then r.plan.value.after else n.league.assets, n.league.book))
  {
  }

  predicate BidEntry(c: Command) {
    c.BidPlace? || c.BidRaise? || c.BidWithdraw? || c.BidsProcess? || c.BidsOverride?
  }

  predicate WaiverEntry(c: Command) {
    || c.RosterCut? || c.RosterReserve? || c.WaiverClaim? || c.WaiverOrderSet? || c.WaiverOrderAuto?
    || c.WaiverProcess? || c.WaiverOverride?
  }

  /** How the projector sorts the commands, told by what they are. */
  lemma CommandsSorted(c: Command)
    ensures BidEntry(c) ==> MarketCommand(c) && BidCommand(c) && !WaiverCommand(c) && !c.OLineAuctionClose?
    ensures WaiverEntry(c) ==> MarketCommand(c) && WaiverCommand(c) && !c.OLineAuctionClose?
    ensures c.TradeOffer? || c.TradeAct? ==> MarketCommand(c) && !BidCommand(c) && !WaiverCommand(c) && !c.OLineAuctionClose?
    ensures c.CorrectRoster? || c.CorrectProvenance? || c.CorrectPick? ==> AssetCorrection(c) && !MarketCommand(c)
  {
  }

  /** Which operation takes which market command; before a starting snapshot all are refused. */
  lemma BidIsTaken(rules: Rules, records: seq<Record>, i: nat, n: Native)
    requires i < |records| && BidEntry(records[i].command)
    ensures ProjectEntry(rules, records, i, n) == OnSeeded(n, ProjectBid(n.league, records[i]))
  {
    CommandsSorted(records[i].command);
  }

  lemma WaiverIsTaken(rules: Rules, records: seq<Record>, i: nat, n: Native)
    requires i < |records| && WaiverEntry(records[i].command)
    ensures ProjectEntry(rules, records, i, n) == OnSeeded(n, ProjectWaiver(n.league, records[i]))
  {
    CommandsSorted(records[i].command);
  }

  lemma TradeIsTaken(rules: Rules, records: seq<Record>, i: nat, n: Native)
    requires i < |records| && (records[i].command.TradeOffer? || records[i].command.TradeAct?)
    ensures ProjectEntry(rules, records, i, n) == OnSeeded(n, ProjectTrade(n.league, records[i]))
  {
    CommandsSorted(records[i].command);
  }

  lemma AuctionCloseIsTaken(rules: Rules, records: seq<Record>, i: nat, n: Native)
    requires i < |records| && records[i].command.OLineAuctionClose?
    ensures ProjectEntry(rules, records, i, n) == ProjectOLine(n, records[i].args.oline)
  {
  }

  function OnSeeded(n: Native, league: Result<League>): Result<Native> {
    if !n.seeded then Refused("record starting assets before changing the market")
    else if league.Refused? then Refused(league.words)
    else Ok(Native(true, league.value))
  }

  /** The closed auction's assignments become the book's, and each placed unit joins the rosters in their order. */
  lemma AuctionIsClosed(n: Native, o: Option<OLineOutcome>)
    requires ProjectOLine(n, o).Ok?
    ensures n.seeded && o.Some?
    ensures var after := ProjectOLine(n, o).value;
            && after.seeded && after.league.book == n.league.book.(oline := o)
            && after.league.assets == n.league.assets.(players := n.league.assets.players + o.value.placed)
  {
    UnitsAreAppended(n.league.assets, o.value.placed);
  }

  lemma {:induction false} UnitsAreAppended(s: Snapshot, placed: seq<NativePlayer>)
    requires SignUnits(s, placed).Ok?
    ensures SignUnits(s, placed).value == s.(players := s.players + placed)
    decreases |placed|
  {
    if placed == [] {
      assert s.players + [] == s.players;
    } else {
      UnitsAreAppended(s.(players := s.players + [placed[0]]), placed[1..]);
      assert s.players + [placed[0]] + placed[1..] == s.players + placed;
    }
  }

  /** Accepted of a seeded league alone, with these assets if they are. */
  predicate OnlySeeded(n: Native, out: Result<Native>, assets: Result<Snapshot>) {
    && (out.Ok? <==> n.seeded && assets.Ok?)
    && (out.Ok? ==> out.value == n.(league := n.league.(assets := assets.value)))
  }

  /** Corrections of a roster, of how a player came and of a pick's owner change the assets, and read the ledger. */
  lemma CorrectionIsTaken(rules: Rules, records: seq<Record>, i: nat, n: Native)
    requires i < |records|
    requires var c := records[i].command; c.CorrectRoster? || c.CorrectProvenance? || c.CorrectPick?
    ensures OnlySeeded(n, ProjectEntry(rules, records, i, n), ApplyCorrection(rules, records, i, n.league.assets))
  {
    CommandsSorted(records[i].command);
  }

  predicate OtherEntry(c: Command) {
    && !(c.TradeOffer? || c.TradeAct? || c.OLineAuctionClose?) && !BidEntry(c) && !WaiverEntry(c)
    && !(c.CorrectRoster? || c.CorrectProvenance? || c.CorrectPick?)
  }

  /** Any other entry sees the rules of the season as they stood with it recorded. */
  lemma OtherIsTaken(rules: Rules, records: seq<Record>, i: nat, n: Native)
    requires i < |records| && OtherEntry(records[i].command)
    ensures ProjectEntry(rules, records, i, n) == ProjectPlain(n, records[i], rules.season(records[..i + 1]))
  {
  }

  /** Rollovers, Teams changes, and corrections that only a replay or a check reads. */
  lemma SetupIsTaken(n: Native, r: Record, season: Option<int>)
    ensures var out, s := ProjectPlain(n, r, season), n.league.assets;
            && (r.command.SeasonRollover? ==> out == ApplyRollover(n, r))
            && (r.command.RulesSet? ==>
                  if n.seeded && r.args.field == "league.teams" && r.args.effective == "now"
                     && r.args.value.Some? && r.args.value.value >= 0
                  then OnlySeeded(n, out, ResizeNative(s, r.args.value.value)) else out == Ok(n))
            && (r.command.CorrectTransaction? || r.command.RuleException? ==> OnlySeeded(n, out, Ok(s)))
  {
  }

  lemma DraftIsTaken(n: Native, r: Record, season: Option<int>)
    requires var c := r.command;
             c.DraftPick? || c.DraftAssign? || c.DraftInsert? || c.DraftChange? || c.DraftArchive?
    ensures OnlySeeded(n, ProjectPlain(n, r, season), Ok(ApplyDraft(n.league.assets, r)))
  {
    PlainSorted(r.command);
  }

  lemma PlainSorted(c: Command)
    ensures c.DraftPick? || c.DraftAssign? || c.DraftInsert? || c.DraftChange? || c.DraftArchive? ==> DraftAsset(c)
    ensures c.ContractEdit? || c.CapAdjust? || c.CapRelief? || c.ReserveException? ==> OverrideCommand(c) && !DraftAsset(c)
  {
  }

  /** Overrides are applied under the season's rules, and refused where these cannot be read. */
  lemma OverrideIsTaken(n: Native, r: Record, season: Option<int>)
    requires var c := r.command; c.ContractEdit? || c.CapAdjust? || c.CapRelief? || c.ReserveException?
    ensures if season.None? then ProjectPlain(n, r, season).Refused?
            else OnlySeeded(n, ProjectPlain(n, r, season),
                            ApplyOverride(n.league.assets, r, r.args.change.value, season.value))
  {
    PlainSorted(r.command);
  }

  /** The commands that some operation takes, other than the market's and the corrections of assets. */
  predicate TakenPlainly(c: Command) {
    || c.RulesSet? || c.SeasonRollover? || c.CorrectTransaction? || c.RuleException?
    || c.DraftPick? || c.DraftAssign? || c.DraftInsert? || c.DraftChange? || c.DraftArchive?
    || c.ContractEdit? || c.CapAdjust? || c.CapRelief? || c.ReserveException?
  }

  /** No other command touches the league. */
  lemma NothingElseIsTaken(n: Native, r: Record, season: Option<int>)
    requires !TakenPlainly(r.command)
    ensures ProjectPlain(n, r, season) == Ok(n)
  {
  }

  /** A correction of a player is about the side it names: the franchise's or, where it names none, the league's one. */
  lemma CorrectionsFindTheSide(rules: Rules, records: seq<Record>, i: nat, s: Snapshot)
    requires i < |records| && AssetCorrection(records[i].command)
    ensures var r, out := records[i], ApplyCorrection(rules, records, i, s);
            var c := r.args.correction.value;
            var side := if c.franchise == "" then "" else s.SideOf(c.franchise);
            && (r.command.CorrectPick? ==> out == CorrectPickOwner(s, r))
            && (!r.command.CorrectPick? && c.franchise == "" && s.sides != map[] ==> out.Refused?)
            && (r.command.CorrectProvenance? && (c.franchise != "" || s.sides == map[]) ==>
                  out == CorrectProvenanceAt(s, s.PlayerOn(side, c.player), r))
            && (r.command.CorrectRoster? && (c.franchise != "" || s.sides == map[]) ==>
                  out == CorrectRosterOf(rules, records, i, s, side))
  {
  }

  /** The starting snapshot: at most one, on the sides the whole ledger gives, with nothing in the book. */
  lemma {:induction false} SeedIsRecorded(rules: Rules, records: seq<Record>, n: nat)
    requires n <= |records| && SeedIn(rules, records, n).Ok?
    ensures var seed := SeedIn(rules, records, n).value;
            && (seed.seeded <==> exists i :: 0 <= i < n && records[i].command.NativeSeed?)
            && (forall i :: 0 <= i < n && records[i].command.NativeSeed? ==>
                  && records[i].args.native.Some? && rules.sides(records).Some?
                  && seed.league.assets == records[i].args.native.value.(sides := rules.sides(records).value))
            && (forall i, j :: 0 <= i < j < n && records[i].command.NativeSeed? ==> !records[j].command.NativeSeed?)
            && seed.league.book == EMPTY_BOOK
  {
    if n > 0 {
      SeedIsRecorded(rules, records, n - 1);
    }
  }

  function ChargeIds(charges: seq<NativeCharge>): (ids: seq<string>)
    ensures |ids| == |charges| && forall k :: 0 <= k < |ids| ==> ids[k] == charges[k].id
  {
    seq(|charges|, k requires 0 <= k < |charges| => charges[k].id)
  }

  /** Every player, pick and charge is a listed franchise's. */
  ghost predicate HoldersListed(s: Snapshot) {
    && (forall p <- s.players :: s.Lists(p.franchise))
    && (forall p <- s.picks :: s.Lists(p.owner))
    && (forall c <- s.adjustments :: s.Lists(c.franchise))
  }

  /** A starting snapshot is valid if a side has one copy of a player at most, no franchise and no charge is listed
      twice, and every holding is a listed franchise's. */
  lemma SeedIsSound(s: Snapshot)
    ensures ValidSeed(s) <==>
      OneCopy(s) && NoneTwice(IdsOf(s.franchises)) && NoneTwice(ChargeIds(s.adjustments)) && HoldersListed(s)
  {
    FranchisesListedOnce(s.franchises);
    ChargesListedOnce(s.adjustments);
  }

  lemma FranchisesListedOnce(fs: seq<NativeFranchise>)
    ensures NoneTwice(IdsOf(fs)) <==> forall i, j :: 0 <= i < j < |fs| ==> fs[i].id != fs[j].id
  {
    if NoneTwice(IdsOf(fs)) {
      forall i, j | 0 <= i < j < |fs| ensures fs[i].id != fs[j].id { assert IdsOf(fs)[i] != IdsOf(fs)[j]; }
    }
  }

  lemma ChargesListedOnce(charges: seq<NativeCharge>)
    ensures NoneTwice(ChargeIds(charges)) <==> forall i, j :: 0 <= i < j < |charges| ==> charges[i].id != charges[j].id
  {
    if NoneTwice(ChargeIds(charges)) {
      forall i, j | 0 <= i < j < |charges| ensures charges[i].id != charges[j].id {
        assert ChargeIds(charges)[i] != ChargeIds(charges)[j];
      }
    }
  }

  /** A ledger of any entries has a reading of its start unless a second snapshot, one without a body or sides, or an
      unsound one is recorded; an empty ledger has none. */
  lemma {:induction false} SeedIsAccepted(rules: Rules, records: seq<Record>, n: nat)
    requires n <= |records|
    ensures SeedIn(rules, records, n).Ok? <==>
      && (forall i, j :: 0 <= i < j < n && records[i].command.NativeSeed? ==> !records[j].command.NativeSeed?)
      && (forall i :: 0 <= i < n && records[i].command.NativeSeed? ==> SeedReadable(rules, records, records[i]))
    ensures Seed(rules, records).Ok? <==> records != [] && SeedIn(rules, records, |records|).Ok?
    ensures Seed(rules, records).Ok? ==> Seed(rules, records) == SeedIn(rules, records, |records|)
  {
    if n > 0 {
      SeedIsAccepted(rules, records, n - 1);
      if SeedIn(rules, records, n - 1).Ok? {
        SeedIsRecorded(rules, records, n - 1);
      }
    }
  }

  predicate SeedReadable(rules: Rules, records: seq<Record>, r: Record) {
    && r.args.native.Some? && rules.sides(records).Some?
    && ValidSeed(r.args.native.value.(sides := rules.sides(records).value))
  }
}
