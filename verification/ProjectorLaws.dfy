/** What every projection keeps, whatever the ledger: one copy of a player a side, a sound bid book and claims from
    the side that cut the player. */
module ProjectorLaws {
  import opened Assets
  import opened Records
  import opened Replay
  import opened Market
  import opened MarketLaws
  import opened Projector

  /** What the ledger already checked before it took the entry: a drafted player is on no roster of the side, a
      claim and a trade stay on one side, and a rollover carries the same sides and one copy a side. */
  ghost predicate Guarded(n: Native, r: Record) {
    var s := n.league.assets;
    && (r.command.WaiverClaim? ==> ClaimOnSide(n.league, r))
    && (r.command.TradeOffer? || r.command.TradeAct? ==> TradeOnSide(n.league, r))
    && (r.command.DraftPick? ==>
          var p := r.args.draft.value.pick.value;
          !s.OnSide(s.SideOf(p.franchise), p.player))
    && (r.command.DraftAssign? || r.command.DraftInsert? ==> TraySigns(s, r))
    && (r.command.DraftChange? ==>
          var d := r.args.draft.value;
          s.OnSide(d.side, d.act.value.replaced) ==> !s.OnSide(d.side, d.act.value.player))
    && (r.command.SeasonRollover? && r.plan.Some? ==>
          OneCopy(r.plan.value.after) && r.plan.value.after.sides == s.sides)
  }

  ghost predicate TraySigns(s: Snapshot, r: Record)
    requires r.command.DraftAssign? || r.command.DraftInsert?
  {
    r.args.draftOutcome.Some? && r.args.draftOutcome.value.terms.Some? ==>
      !s.OnSide(s.SideOf(r.args.draftOutcome.value.franchise), r.args.draft.value.act.value.player)
  }

  /** Changing assets without moving a side keeps the book's laws. */
  lemma NewAssetsKeep(l: League, s: Snapshot)
    requires Kept(l) && OneCopy(s) && s.sides == l.assets.sides
    ensures Kept(l.(assets := s))
  {
    SoundOn(l.assets, s, l.book.auctions, l.book.windows);
  }

  lemma SamePlayersKeepOneCopy(s: Snapshot, t: Snapshot)
    requires OneCopy(s) && t.players == s.players && t.sides == s.sides
    ensures OneCopy(t)
  {
  }

  // ----- drafts

  lemma SigningKeepsOneCopy(s: Snapshot, t: Snapshot, p: NativePlayer)
    requires OneCopy(s) && !s.OnSide(s.SideOf(p.franchise), p.id)
    requires t.players == s.players + [p] && t.sides == s.sides
    ensures OneCopy(t)
  {
    AddKeepsOneCopy(s, p);
    SamePlayersKeepOneCopy(s.(players := s.players + [p]), t);
  }

  lemma ChangeKeepsOneCopy(s: Snapshot, t: Snapshot, i: nat, id: string)
    requires OneCopy(s) && i < |s.players| && t.sides == s.sides
    requires t.players == s.players[i := s.players[i].(id := id)]
    requires !s.OnSide(s.SideOf(s.players[i].franchise), id)
    ensures OneCopy(t)
  {
    forall k | 0 <= k < |s.players| && s.players[k].id == id
      ensures s.SideOf(s.players[k].franchise) != s.SideOf(s.players[i].franchise)
    {
    }
  }

  lemma DraftKeepsOneCopy(n: Native, r: Record)
    requires OneCopy(n.league.assets) && Guarded(n, r) && DraftAsset(r.command)
    ensures var after := ApplyDraft(n.league.assets, r);
            OneCopy(after) && after.sides == n.league.assets.sides
  {
    var s := n.league.assets;
    var after := ApplyDraft(s, r);
    match r.command
    case DraftPick => SigningKeepsOneCopy(s, after, after.players[|s.players|]);
    case DraftAssign => TrayKeepsOneCopy(s, r);
    case DraftInsert => TrayKeepsOneCopy(s, r);
    case DraftChange =>
      var d := r.args.draft.value;
      var i := s.PlayerOn(d.side, d.act.value.replaced);
      if i >= 0 {
        ChangeKeepsOneCopy(s, after, i, d.act.value.player);
      } else {
        SamePlayersKeepOneCopy(s, after);
      }
    case DraftArchive => SamePlayersKeepOneCopy(s, after);
  }

  lemma TrayKeepsOneCopy(s: Snapshot, r: Record)
    requires r.command.DraftAssign? || r.command.DraftInsert?
    requires OneCopy(s) && TraySigns(s, r)
    ensures OneCopy(ApplyTray(s, r)) && ApplyTray(s, r).sides == s.sides
  {
    var after := ApplyTray(s, r);
    if r.args.draftOutcome.Some? && r.args.draftOutcome.value.terms.Some? {
      SigningKeepsOneCopy(s, after, after.players[|s.players|]);
    }
  }

  // ----- the O-Line close, overrides and the rollover

  lemma {:induction false} UnitsKeepOneCopy(s: Snapshot, placed: seq<NativePlayer>)
    requires OneCopy(s) && SignUnits(s, placed).Ok?
    ensures var after := SignUnits(s, placed).value;
            OneCopy(after) && after == s.(players := s.players + placed)
    decreases |placed|
  {
    if placed != [] {
      AddKeepsOneCopy(s, placed[0]);
      UnitsKeepOneCopy(s.(players := s.players + [placed[0]]), placed[1..]);
      assert s.players + [placed[0]] + placed[1..] == s.players + placed;
    } else {
      assert s.players + placed == s.players;
    }
  }

  lemma OverrideKeepsOneCopy(s: Snapshot, r: Record, v: Override, season: int)
    requires OneCopy(s) && ApplyOverride(s, r, v, season).Ok?
    ensures var after := ApplyOverride(s, r, v, season).value;
            OneCopy(after) && after.sides == s.sides
  {
    var after := ApplyOverride(s, r, v, season).value;
    if r.command.ContractEdit? {
      var i := s.PlayerOn(s.TargetSide(v.franchise).value, v.player);
      RewriteKeepsOneCopy(s, i, after.players[i]);
    } else {
      SamePlayersKeepOneCopy(s, after);
    }
  }

  // ----- corrections

  lemma {:induction false} WatchSeesTheCopy(rules: Rules, records: seq<Record>, active: Active, n: nat, seed: Native,
                                            side: string, id: string)
    requires n <= |records| && Watch(rules, records, active, n, seed, side, id).Ok?
    ensures var (_, last) := Watch(rules, records, active, n, seed, side, id).value;
            last.Some? ==> last.value.id == id
  {
    if n > 0 { WatchSeesTheCopy(rules, records, active, n - 1, seed, side, id); }
  }

  lemma TargetSideIs(s: Snapshot, franchise: string)
    requires s.TargetSide(franchise).Ok?
    ensures s.TargetSide(franchise).value == s.SideOf(franchise)
  {
    if franchise == "" { assert s.sides == map[]; }
  }

  lemma AddedBackKeepsOneCopy(s: Snapshot, r: Record, held: Result<Option<NativePlayer>>)
    requires r.args.correction.Some? && OneCopy(s) && AddPlayer(s, r, held).Ok?
    requires held.Ok? && held.value.Some? ==> held.value.value.id == r.args.correction.value.player
    requires !s.OnSide(s.SideOf(r.args.correction.value.franchise), r.args.correction.value.player)
    ensures OneCopy(AddPlayer(s, r, held).value) && AddPlayer(s, r, held).value.sides == s.sides
  {
    AddKeepsOneCopy(s, AddPlayer(s, r, held).value.players[|s.players|]);
  }

  lemma ProvenanceKeepsOneCopy(s: Snapshot, at: int, r: Record)
    requires at < |s.players| && r.args.correction.Some? && OneCopy(s) && CorrectProvenanceAt(s, at, r).Ok?
    ensures OneCopy(CorrectProvenanceAt(s, at, r).value) && CorrectProvenanceAt(s, at, r).value.sides == s.sides
  {
    RewriteKeepsOneCopy(s, at, CorrectProvenanceAt(s, at, r).value.players[at]);
  }

  lemma RosterKeepsOneCopy(rules: Rules, records: seq<Record>, i: nat, s: Snapshot, side: string)
    requires i < |records| && records[i].command.CorrectRoster? && OneCopy(s)
    requires side == s.SideOf(records[i].args.correction.value.franchise)
    requires CorrectRosterOf(rules, records, i, s, side).Ok?
    ensures var after := CorrectRosterOf(rules, records, i, s, side).value;
            OneCopy(after) && after.sides == s.sides
  {
    var c := records[i].args.correction.value;
    if c.action == "remove" {
      DropKeepsOneCopy(s, s.PlayerOn(side, c.player));
    } else {
      var held := LastHeld(rules, records[..i], side, c.player);
      LastHeldIsTheCopy(rules, records[..i], side, c.player);
      AddedBackKeepsOneCopy(s, records[i], held);
    }
  }

  lemma CorrectionKeepsOneCopy(rules: Rules, records: seq<Record>, i: nat, s: Snapshot)
    requires i < |records| && AssetCorrection(records[i].command)
    requires OneCopy(s) && ApplyCorrection(rules, records, i, s).Ok?
    ensures var after := ApplyCorrection(rules, records, i, s).value;
            OneCopy(after) && after.sides == s.sides
  {
    var r := records[i];
    if r.command.CorrectPick? {
      SamePlayersKeepOneCopy(s, CorrectPickOwner(s, r).value);
    } else {
      TargetSideIs(s, r.args.correction.value.franchise);
      var side := s.SideOf(r.args.correction.value.franchise);
      if r.command.CorrectProvenance? {
        ProvenanceKeepsOneCopy(s, s.PlayerOn(side, r.args.correction.value.player), r);
      } else {
        RosterKeepsOneCopy(rules, records, i, s, side);
      }
    }
  }

  lemma LastHeldIsTheCopy(rules: Rules, records: seq<Record>, side: string, id: string)
    requires LastHeld(rules, records, side, id).Ok?
    ensures LastHeld(rules, records, side, id).value.Some? ==> LastHeld(rules, records, side, id).value.value.id == id
  {
    WatchSeesTheCopy(rules, records, Full(records).active, |records|, Seed(rules, records).value, side, id);
  }

  // ----- the step and every run

  ghost predicate KeptNative(n: Native) {
    Kept(n.league)
  }

  /** What an entry leaves of the assets keeps the laws, as long as the book is the one before it. */
  lemma SameBookKeeps(n: Native, after: Native)
    requires KeptNative(n) && after.league.book == n.league.book
    requires OneCopy(after.league.assets) && after.league.assets.sides == n.league.assets.sides
    ensures KeptNative(after)
  {
    NewAssetsKeep(n.league, after.league.assets);
  }

  lemma PlainKeeps(n: Native, r: Record, season: Option<int>)
    requires KeptNative(n) && Guarded(n, r) && ProjectPlain(n, r, season).Ok?
    ensures KeptNative(ProjectPlain(n, r, season).value)
    ensures ProjectPlain(n, r, season).value.league.assets.sides == n.league.assets.sides
  {
    var after := ProjectPlain(n, r, season).value;
    if r.command.RulesSet? {
      SamePlayersKeepOneCopy(n.league.assets, after.league.assets);
    } else if DraftAsset(r.command) {
      DraftKeepsOneCopy(n, r);
    } else if OverrideCommand(r.command) {
      OverrideKeepsOneCopy(n.league.assets, r, r.args.change.value, season.value);
    }
    SameBookKeeps(n, after);
  }

  lemma MarketKeeps(n: Native, r: Record)
    requires MarketCommand(r.command) && KeptNative(n) && Guarded(n, r) && ProjectMarket(n, r).Ok?
    ensures KeptNative(ProjectMarket(n, r).value)
    ensures ProjectMarket(n, r).value.league.assets.sides == n.league.assets.sides
  {
    if r.command.OLineAuctionClose? {
      UnitsKeepOneCopy(n.league.assets, r.args.oline.value.placed);
      NewAssetsKeep(n.league, ProjectMarket(n, r).value.league.assets);
    } else if WaiverCommand(r.command) {
      WaiverKeeps(n.league, r);
    } else if BidCommand(r.command) {
      BidKeeps(n.league, r);
    } else {
      TradeKeeps(n.league, r);
    }
  }

  /** One entry keeps the laws, and moves no franchise to another side. */
  lemma StepKeeps(rules: Rules, records: seq<Record>, i: nat, n: Native)
    requires i < |records| && KeptNative(n) && Guarded(n, records[i])
    requires ProjectEntry(rules, records, i, n).Ok?
    ensures KeptNative(ProjectEntry(rules, records, i, n).value)
    ensures ProjectEntry(rules, records, i, n).value.league.assets.sides == n.league.assets.sides
  {
    if MarketCommand(records[i].command) {
      MarketKeeps(n, records[i]);
    } else if AssetCorrection(records[i].command) {
      CorrectionKeepsOneCopy(rules, records, i, n.league.assets);
      SameBookKeeps(n, ProjectEntry(rules, records, i, n).value);
    } else {
      PlainKeeps(n, records[i], rules.season(records[..i + 1]));
    }
  }

  /** Every entry in force met its checks against the state it was applied to. */
  ghost predicate GuardedRun(rules: Rules, records: seq<Record>, active: Active, n: nat, start: Native)
    requires n <= |records|
  {
    n > 0 ==>
      && GuardedRun(rules, records, active, n - 1, start)
      && (On(active, records[n - 1].entry) && Fold(rules, records, active, 0, n - 1, start).Ok? ==>
            Guarded(Fold(rules, records, active, 0, n - 1, start).value, records[n - 1]))
  }

  lemma {:induction false} FoldKeeps(rules: Rules, records: seq<Record>, active: Active, n: nat, start: Native)
    requires n <= |records| && KeptNative(start) && GuardedRun(rules, records, active, n, start)
    requires Fold(rules, records, active, 0, n, start).Ok?
    ensures KeptNative(Fold(rules, records, active, 0, n, start).value)
    ensures Fold(rules, records, active, 0, n, start).value.league.assets.sides == start.league.assets.sides
  {
    if n > 0 {
      FoldKeeps(rules, records, active, n - 1, start);
      if On(active, records[n - 1].entry) {
        StepKeeps(rules, records, n - 1, Fold(rules, records, active, 0, n - 1, start).value);
      }
    }
  }

  lemma {:induction false} SeedKeeps(rules: Rules, records: seq<Record>, n: nat)
    requires n <= |records| && SeedIn(rules, records, n).Ok?
    ensures KeptNative(SeedIn(rules, records, n).value)
  {
    if n > 0 { SeedKeeps(rules, records, n - 1); }
  }

  /** Whatever the ledger holds, the projected league has one copy of each player a side; at most one undecided
      auction of a copy, and that the newest; at most one live bid of a franchise in an auction; every bid, every
      bid winner and every claim from the side whose copy was at stake. */
  lemma EveryProjectionIsKept(rules: Rules, records: seq<Record>)
    requires Project(rules, records).Ok?
    requires GuardedRun(rules, records, Full(records).active, |records|, Seed(rules, records).value)
    ensures var n := Project(rules, records).value;
            && OneCopy(n.league.assets)
            && BookSound(n.league.assets, n.league.book.auctions)
            && ClaimsSound(n.league.assets, n.league.book.windows)
  {
    SeedKeeps(rules, records, |records|);
    FoldKeeps(rules, records, Full(records).active, |records|, Seed(rules, records).value);
  }
}
