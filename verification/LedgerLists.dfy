/** The list of franchises, which every reader of a ledger shares: the projected league's franchises are the league's own
    list. */
module LedgerLists {
  import opened Assets
  import opened Records
  import opened Replay
  import opened Market
  import opened Teams
  import opened Projector

  /** A rollover's plan starts from the league's assets: it keeps the franchises. */
  ghost predicate PlanKeepsFranchises(n: Native, r: Record) {
    r.command.SeasonRollover? && r.plan.Some? ==> r.plan.value.after.franchises == n.league.assets.franchises
  }

  /** Where a projected entry can come from: it was in force and the state it met was projected. */
  ghost predicate PlansKeepFranchises(rules: Rules, records: seq<Record>, active: Active, n: nat, start: Native)
    requires n <= |records|
  {
    n > 0 ==>
      && PlansKeepFranchises(rules, records, active, n - 1, start)
      && (On(active, records[n - 1].entry) && Fold(rules, records, active, 0, n - 1, start).Ok? ==>
            PlanKeepsFranchises(Fold(rules, records, active, 0, n - 1, start).value, records[n - 1]))
  }

  lemma MoveKeepsFranchises(s: Snapshot, a: TradeAsset, back: bool)
    requires MoveOne(s, a, back).Ok?
    ensures MoveOne(s, a, back).value.franchises == s.franchises
  {
  }

  lemma {:induction false} MovesKeepFranchises(s: Snapshot, assets: seq<TradeAsset>, back: bool)
    requires MoveAssets(s, assets, back).Ok?
    ensures MoveAssets(s, assets, back).value.franchises == s.franchises
    decreases |assets|
  {
    if assets != [] {
      MoveKeepsFranchises(s, assets[0], back);
      MovesKeepFranchises(MoveOne(s, assets[0], back).value, assets[1..], back);
    }
  }

  lemma {:induction false} UnitsKeepFranchises(s: Snapshot, placed: seq<NativePlayer>)
    requires SignUnits(s, placed).Ok?
    ensures SignUnits(s, placed).value.franchises == s.franchises && SignUnits(s, placed).value.picks == s.picks
    decreases |placed|
  {
    if placed != [] {
      UnitsKeepFranchises(s.(players := s.players + [placed[0]]), placed[1..]);
    }
  }

  lemma TradeKeepsFranchises(l: League, r: Record)
    requires ProjectTrade(l, r).Ok?
    ensures ProjectTrade(l, r).value.assets.franchises == l.assets.franchises
  {
    var t := r.args.tradeOutcome.value;
    var before := !r.command.TradeOffer? && l.book.trades[TradeAt(l.book.trades, t.id)].status == APPROVED;
    if before != (t.status == APPROVED) {
      MovesKeepFranchises(l.assets, t.assets, before);
    }
  }

  lemma WindowKeepsLists(l: League, r: Record, o: WaiverOutcome)
    requires r.args.waiver.Some? && AwardWaiver(l, r, o).Ok?
    ensures AwardWaiver(l, r, o).value.assets.franchises == l.assets.franchises
    ensures AwardWaiver(l, r, o).value.assets.picks == l.assets.picks
  {
  }

  lemma CutKeepsLists(l: League, r: Record, args: WaiverArgs, o: WaiverOutcome)
    requires CutPlayer(l, r, args, o).Ok?
    ensures CutPlayer(l, r, args, o).value.assets.franchises == l.assets.franchises
    ensures CutPlayer(l, r, args, o).value.assets.picks == l.assets.picks
  {
  }

  lemma ReserveKeepsLists(s: Snapshot, args: WaiverArgs, o: WaiverOutcome)
    requires ReservePlayer(s, args, o).Ok?
    ensures ReservePlayer(s, args, o).value.franchises == s.franchises
    ensures ReservePlayer(s, args, o).value.picks == s.picks
  {
  }

  lemma WaiverKeepsLists(l: League, r: Record)
    requires ProjectWaiver(l, r).Ok?
    ensures ProjectWaiver(l, r).value.assets.franchises == l.assets.franchises
    ensures ProjectWaiver(l, r).value.assets.picks == l.assets.picks
  {
    if r.command.WaiverProcess? || r.command.WaiverOverride? {
      WindowKeepsLists(l, r, r.args.waiverOutcome.value);
    } else if r.command.RosterCut? {
      CutKeepsLists(l, r, r.args.waiver.value, r.args.waiverOutcome.value);
    } else if r.command.RosterReserve? {
      ReserveKeepsLists(l.assets, r.args.waiver.value, r.args.waiverOutcome.value);
    }
  }

  lemma AwardKeepsLists(l: League, r: Record)
    requires r.args.bid.Some? && r.args.bidOutcome.Some? && AwardBid(l, r).Ok?
    ensures AwardBid(l, r).value.assets.franchises == l.assets.franchises
    ensures AwardBid(l, r).value.assets.picks == l.assets.picks
  {
    var a := l.book.auctions[AwardedAuction(l.book.auctions, r).value];
    WinnerKeepsLists(l.assets, a, r.args.bidOutcome.value);
  }

  lemma WinnerKeepsLists(s: Snapshot, a: BidAuction, o: BidOutcome)
    requires ReplaceBidWinner(s, a, o).Ok?
    ensures ReplaceBidWinner(s, a, o).value.franchises == s.franchises
    ensures ReplaceBidWinner(s, a, o).value.picks == s.picks
  {
  }

  lemma BidKeepsLists(l: League, r: Record)
    requires ProjectBid(l, r).Ok?
    ensures ProjectBid(l, r).value.assets.franchises == l.assets.franchises
    ensures ProjectBid(l, r).value.assets.picks == l.assets.picks
  {
    if r.command.BidsProcess? || r.command.BidsOverride? {
      AwardKeepsLists(l, r);
    }
  }

  lemma MarketKeepsFranchises(n: Native, r: Record)
    requires MarketCommand(r.command) && ProjectMarket(n, r).Ok?
    ensures ProjectMarket(n, r).value.league.assets.franchises == n.league.assets.franchises
    ensures ProjectMarket(n, r).value.seeded == n.seeded
  {
    if r.command.OLineAuctionClose? {
      UnitsKeepFranchises(n.league.assets, r.args.oline.value.placed);
    } else if WaiverCommand(r.command) {
      WaiverKeepsLists(n.league, r);
    } else if BidCommand(r.command) {
      BidKeepsLists(n.league, r);
    } else {
      TradeKeepsFranchises(n.league, r);
    }
  }

  lemma RosterKeepsLists(rules: Rules, records: seq<Record>, i: nat, s: Snapshot, side: string)
    requires i < |records| && records[i].command.CorrectRoster? && CorrectRosterOf(rules, records, i, s, side).Ok?
    ensures CorrectRosterOf(rules, records, i, s, side).value.franchises == s.franchises
    ensures CorrectRosterOf(rules, records, i, s, side).value.picks == s.picks
  {
  }

  lemma CorrectionKeepsFranchises(rules: Rules, records: seq<Record>, i: nat, s: Snapshot)
    requires i < |records| && AssetCorrection(records[i].command) && ApplyCorrection(rules, records, i, s).Ok?
    ensures ApplyCorrection(rules, records, i, s).value.franchises == s.franchises
  {
    if records[i].command.CorrectRoster? {
      RosterKeepsLists(rules, records, i, s, s.TargetSide(records[i].args.correction.value.franchise).value);
    }
  }

  lemma DraftKeepsFranchises(s: Snapshot, r: Record)
    ensures ApplyDraft(s, r).franchises == s.franchises
  {
  }

  lemma OverrideKeepsLists(s: Snapshot, r: Record, v: Override, season: int)
    requires ApplyOverride(s, r, v, season).Ok?
    ensures ApplyOverride(s, r, v, season).value.franchises == s.franchises
    ensures ApplyOverride(s, r, v, season).value.picks == s.picks
  {
  }

  predicate ResizesTeams(r: Record) {
    TeamCount(r).Some? && TeamCount(r).value >= 0
  }

  lemma PlainKeepsFranchises(n: Native, r: Record, season: Option<int>)
    requires n.seeded && PlanKeepsFranchises(n, r) && ProjectPlain(n, r, season).Ok?
    ensures var after := ProjectPlain(n, r, season).value;
            && after.seeded
            && (!ResizesTeams(r) ==> after.league.assets.franchises == n.league.assets.franchises)
            && (ResizesTeams(r) ==> ResizeNative(n.league.assets, TeamCount(r).value) == Ok(after.league.assets))
  {
    if DraftAsset(r.command) {
      DraftKeepsFranchises(n.league.assets, r);
    } else if OverrideCommand(r.command) {
      OverrideKeepsLists(n.league.assets, r, r.args.change.value, season.value);
    }
  }

  /** No entry but a Teams change in force touches the franchises. */
  lemma EntryKeepsFranchises(rules: Rules, records: seq<Record>, i: nat, n: Native)
    requires i < |records| && n.seeded && PlanKeepsFranchises(n, records[i]) && ProjectEntry(rules, records, i, n).Ok?
    ensures var after := ProjectEntry(rules, records, i, n).value;
            && after.seeded
            && (!ResizesTeams(records[i]) ==> after.league.assets.franchises == n.league.assets.franchises)
            && (ResizesTeams(records[i]) ==>
                  ResizeNative(n.league.assets, TeamCount(records[i]).value) == Ok(after.league.assets))
  {
    var r, s := records[i], n.league.assets;
    if MarketCommand(r.command) {
      MarketKeepsFranchises(n, r);
    } else if AssetCorrection(r.command) {
      CorrectionKeepsFranchises(rules, records, i, s);
    } else {
      PlainKeepsFranchises(n, r, rules.season(records[..i + 1]));
    }
  }

  /** The count the first n entries leave, from the starting snapshot's own. */
  function CountFrom(records: seq<Record>, active: Active, n: nat, start: nat): nat
    requires n <= |records|
  {
    if n == 0 then start
    else if ResizesTeams(records[n - 1]) && On(active, records[n - 1].entry) then TeamCount(records[n - 1]).value
    else CountFrom(records, active, n - 1, start)
  }

  lemma {:induction false} FoldKeepsFranchises(rules: Rules, records: seq<Record>, active: Active, n: nat, start: Native,
                                               count: nat)
    requires n <= |records| && start.seeded && IdsOf(start.league.assets.franchises) == FranchiseIds(count)
    requires PlansKeepFranchises(rules, records, active, n, start) && Fold(rules, records, active, 0, n, start).Ok?
    ensures var after := Fold(rules, records, active, 0, n, start).value;
            && after.seeded
            && IdsOf(after.league.assets.franchises) == FranchiseIds(CountFrom(records, active, n, count))
  {
    if n > 0 {
      FoldKeepsFranchises(rules, records, active, n - 1, start, count);
      var before := Fold(rules, records, active, 0, n - 1, start).value;
      if On(active, records[n - 1].entry) {
        EntryKeepsFranchises(rules, records, n - 1, before);
        if ResizesTeams(records[n - 1]) {
          ResizedIds(before.league.assets, CountFrom(records, active, n - 1, count), TeamCount(records[n - 1]).value);
        }
      }
    }
  }

  /** Some Teams change after the creation is in force. */
  ghost predicate Resizes(records: seq<Record>, active: Active, n: nat)
    requires n <= |records|
  {
    exists i :: 1 <= i < n && ResizesTeams(records[i]) && On(active, records[i].entry)
  }

  lemma {:induction false} CountsAgree(records: seq<Record>, active: Active, n: nat, created: nat, start: nat)
    requires 1 <= n <= |records| && !ResizesTeams(records[0])
    requires forall i :: 0 <= i < |records| && TeamCount(records[i]).Some? ==> TeamCount(records[i]).value >= 0
    ensures CountFrom(records, active, n, start) == CountInForce(records, active, n, created) <==>
      Resizes(records, active, n) || start == created
    ensures !Resizes(records, active, n) ==>
      CountFrom(records, active, n, start) == start && CountInForce(records, active, n, created) == created
    ensures Resizes(records, active, n) ==>
      CountFrom(records, active, n, start) == CountInForce(records, active, n, created)
  {
    if n > 1 {
      CountsAgree(records, active, n - 1, created, start);
    } else {
      assert CountFrom(records, active, 0, start) == start;
    }
  }

  lemma CountsShow(one: nat, two: nat)
    requires FranchiseIds(one) == FranchiseIds(two)
    ensures one == two
  {
    assert |FranchiseIds(one)| == one && |FranchiseIds(two)| == two;
  }

  /** When the ledger projects, the assets name the same franchises in the same order as the league's list exactly when
      a Teams change is in force or the starting snapshot had as many franchises as the league was created with. */
  lemma FranchisesInStepIff(rules: Rules, records: seq<Record>, count: nat)
    requires Project(rules, records).Ok? && Seed(rules, records).value.seeded
    requires IdsOf(Seed(rules, records).value.league.assets.franchises) == FranchiseIds(count)
    requires PlansKeepFranchises(rules, records, Full(records).active, |records|, Seed(rules, records).value)
    requires records[0].command.Create? && records[0].args.franchises == FranchiseIds(|records[0].args.franchises|)
    requires forall i :: 0 <= i < |records| && TeamCount(records[i]).Some? ==> TeamCount(records[i]).value >= 0
    ensures
      IdsOf(Project(rules, records).value.league.assets.franchises) == ListInForce(records, Full(records).active, |records|)
      <==> Resizes(records, Full(records).active, |records|) || count == |records[0].args.franchises|
  {
    var active, created := Full(records).active, |records[0].args.franchises|;
    FoldKeepsFranchises(rules, records, active, |records|, Seed(rules, records).value, count);
    ListIsNumbered(records, active, |records|);
    CountsAgree(records, active, |records|, created, count);
    var one, two := CountFrom(records, active, |records|, count), CountInForce(records, active, |records|, created);
    if FranchiseIds(one) == FranchiseIds(two) {
      CountsShow(one, two);
    }
  }
}
