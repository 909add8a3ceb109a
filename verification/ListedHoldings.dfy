/** Every holding belongs to a team of the league. No entry leaves a player, a pick or a charge with a franchise the
    assets do not list, however the league grew or shrank before it. */
module ListedHoldings {
  import opened Assets
  import opened Records
  import opened Replay
  import opened Market
  import opened Teams
  import opened Projector
  import opened LedgerLists

  /** What was checked before the entry was recorded: whoever it hands something to is a team of the league. */
  ghost predicate GivesToTeams(s: Snapshot, r: Record) {
    && (r.args.tradeOutcome.Some? ==> TradesAmong(s, r.args.tradeOutcome.value.assets))
    && (r.args.bidOutcome.Some? ==> WinnerListed(s, r.args.bidOutcome.value.winner))
    && (r.args.waiverOutcome.Some? ==> WinnerListed(s, r.args.waiverOutcome.value.winner))
    && (r.args.oline.Some? ==> UnitsListed(s, r.args.oline.value.placed))
    && (DraftAsset(r.command) ==> DraftsAmong(s, r))
    && (r.RecordedRollover() ==> NamesListed(r.plan.value.after))
  }

  ghost predicate TradesAmong(s: Snapshot, assets: seq<TradeAsset>) {
    forall k :: 0 <= k < |assets| ==> s.Lists(assets[k].sender) && s.Lists(assets[k].receiver)
  }

  predicate WinnerListed(s: Snapshot, winner: string) {
    winner != "" ==> s.Lists(winner)
  }

  ghost predicate UnitsListed(s: Snapshot, placed: seq<NativePlayer>) {
    forall k :: 0 <= k < |placed| ==> s.Lists(placed[k].franchise)
  }

  ghost predicate DraftsAmong(s: Snapshot, r: Record)
    requires DraftAsset(r.command)
  {
    && (r.command.DraftPick? ==> s.Lists(r.args.draft.value.pick.value.franchise))
    && (r.args.draftOutcome.Some? ==>
          var o := r.args.draftOutcome.value;
          && ((r.command.DraftAssign? || r.command.DraftInsert?) && o.terms.Some? ==> s.Lists(o.franchise))
          && (forall k :: 0 <= k < |o.issued| ==> s.Lists(o.issued[k].owner) && s.Lists(o.issued[k].original)))
  }

  /** Every player, pick and charge of the second snapshot names a team of the first. */
  ghost predicate NamesTeamsOf(s: Snapshot, t: Snapshot) {
    && (forall k :: 0 <= k < |t.players| ==> s.Lists(t.players[k].franchise))
    && (forall k :: 0 <= k < |t.picks| ==>
          s.Lists(t.picks[k].owner) && (t.picks[k].original != "" ==> s.Lists(t.picks[k].original)))
    && (forall k :: 0 <= k < |t.adjustments| ==> s.Lists(t.adjustments[k].franchise))
  }

  lemma SameTeams(s: Snapshot, t: Snapshot)
    requires t.franchises == s.franchises
    ensures NamesListed(t) <==> NamesTeamsOf(s, t)
    ensures forall id :: t.Lists(id) <==> s.Lists(id)
  {
  }

  // ----- the market

  lemma PlayerHandedNames(s: Snapshot, i: nat, p: NativePlayer)
    requires NamesListed(s) && i < |s.players| && s.Lists(p.franchise)
    ensures NamesListed(s.(players := s.players[i := p]))
  {
    SameTeams(s, s.(players := s.players[i := p]));
  }

  lemma PickHandedNames(s: Snapshot, i: nat, owner: string)
    requires NamesListed(s) && i < |s.picks| && s.Lists(owner)
    ensures NamesListed(s.(picks := s.picks[i := s.picks[i].(owner := owner)]))
  {
    SameTeams(s, s.(picks := s.picks[i := s.picks[i].(owner := owner)]));
  }

  lemma MoveNames(s: Snapshot, a: TradeAsset, back: bool)
    requires NamesListed(s) && s.Lists(a.sender) && s.Lists(a.receiver) && MoveOne(s, a, back).Ok?
    ensures NamesListed(MoveOne(s, a, back).value)
  {
    var source, target := if back then a.receiver else a.sender, if back then a.sender else a.receiver;
    if a.player != "" {
      var i := s.PlayerOf(source, a.player);
      PlayerHandedNames(s, i, s.players[i].(franchise := target));
    } else {
      PickHandedNames(s, PickAt(s.picks, a, source), target);
    }
  }

  lemma {:induction false} MovesName(s: Snapshot, assets: seq<TradeAsset>, back: bool)
    requires NamesListed(s) && TradesAmong(s, assets) && MoveAssets(s, assets, back).Ok?
    ensures NamesListed(MoveAssets(s, assets, back).value)
    decreases |assets|
  {
    if assets != [] {
      var next := MoveOne(s, assets[0], back).value;
      MoveNames(s, assets[0], back);
      MoveKeepsFranchises(s, assets[0], back);
      SameTeams(s, next);
      MovesName(next, assets[1..], back);
    }
  }

  lemma TradeNames(l: League, r: Record)
    requires NamesListed(l.assets) && ProjectTrade(l, r).Ok?
    requires r.args.tradeOutcome.Some? ==> TradesAmong(l.assets, r.args.tradeOutcome.value.assets)
    ensures NamesListed(ProjectTrade(l, r).value.assets)
  {
    var t := r.args.tradeOutcome.value;
    var before := !r.command.TradeOffer? && l.book.trades[TradeAt(l.book.trades, t.id)].status == APPROVED;
    if before != (t.status == APPROVED) {
      MovesName(l.assets, t.assets, before);
    }
  }

  lemma UnawardNames(s: Snapshot, winner: string, player: string)
    requires NamesListed(s) && Unaward(s, winner, player).Ok?
    ensures NamesListed(Unaward(s, winner, player).value)
    ensures Unaward(s, winner, player).value.franchises == s.franchises
  {
    SameTeams(s, Unaward(s, winner, player).value);
  }

  lemma SignedNames(s: Snapshot, p: NativePlayer)
    requires NamesListed(s) && s.Lists(p.franchise)
    ensures NamesListed(s.(players := s.players + [p]))
  {
    SameTeams(s, s.(players := s.players + [p]));
  }

  lemma BidNames(l: League, r: Record)
    requires NamesListed(l.assets) && ProjectBid(l, r).Ok?
    requires r.args.bidOutcome.Some? ==> WinnerListed(l.assets, r.args.bidOutcome.value.winner)
    ensures NamesListed(ProjectBid(l, r).value.assets)
  {
    if r.command.BidsProcess? || r.command.BidsOverride? {
      var a := l.book.auctions[AwardedAuction(l.book.auctions, r).value];
      WinnerNames(l.assets, a, r.args.bidOutcome.value);
    }
  }

  lemma WinnerNames(s: Snapshot, a: BidAuction, o: BidOutcome)
    requires NamesListed(s) && WinnerListed(s, o.winner) && ReplaceBidWinner(s, a, o).Ok?
    ensures NamesListed(ReplaceBidWinner(s, a, o).value)
  {
    var bare := Unaward(s, a.winner, a.player).value;
    UnawardNames(s, a.winner, a.player);
    SameTeams(s, bare);
    if o.winner != "" {
      SignedNames(bare, SignedBid(bare, a, a.bids[a.BidAt(o.winningBid)], o.season));
    }
  }

  lemma ClaimNames(s: Snapshot, w: WaiverWindow, winner: string, amount: int)
    requires NamesListed(s) && WinnerListed(s, winner) && ReplaceWaiverWinner(s, w, winner).Ok?
    ensures var after := ReplaceWaiverWinner(s, w, winner).value;
            NamesListed(after.(adjustments := Recharged(after.adjustments, w.id, amount)))
  {
    var bare := Unaward(s, w.winner, w.player.id).value;
    UnawardNames(s, w.winner, w.player.id);
    SameTeams(s, bare);
    if winner != "" {
      SignedNames(bare, Claimed(w, winner));
    }
    var after := ReplaceWaiverWinner(s, w, winner).value;
    SameTeams(after, after.(adjustments := Recharged(after.adjustments, w.id, amount)));
  }

  lemma CutNames(l: League, r: Record, args: WaiverArgs, o: WaiverOutcome)
    requires NamesListed(l.assets) && CutPlayer(l, r, args, o).Ok?
    ensures NamesListed(CutPlayer(l, r, args, o).value.assets)
  {
    var s := l.assets;
    assert s.Lists(s.players[s.PlayerOf(args.franchise, args.player)].franchise);
    SameTeams(s, CutPlayer(l, r, args, o).value.assets);
  }

  lemma ReserveNames(s: Snapshot, args: WaiverArgs, o: WaiverOutcome)
    requires NamesListed(s) && ReservePlayer(s, args, o).Ok?
    ensures NamesListed(ReservePlayer(s, args, o).value)
  {
    SameTeams(s, ReservePlayer(s, args, o).value);
  }

  lemma WaiverNames(l: League, r: Record)
    requires NamesListed(l.assets) && ProjectWaiver(l, r).Ok?
    requires r.args.waiverOutcome.Some? ==> WinnerListed(l.assets, r.args.waiverOutcome.value.winner)
    ensures NamesListed(ProjectWaiver(l, r).value.assets)
  {
    if r.command.WaiverProcess? || r.command.WaiverOverride? {
      var w, o := l.book.windows[AwardedWindow(l.book.windows, r).value], r.args.waiverOutcome.value;
      ClaimNames(l.assets, w, o.winner, DeadAmount(w, o));
    } else if r.command.RosterCut? {
      CutNames(l, r, r.args.waiver.value, r.args.waiverOutcome.value);
    } else if r.command.RosterReserve? {
      ReserveNames(l.assets, r.args.waiver.value, r.args.waiverOutcome.value);
    }
  }

  lemma {:induction false} UnitsName(s: Snapshot, placed: seq<NativePlayer>)
    requires NamesListed(s) && UnitsListed(s, placed) && SignUnits(s, placed).Ok?
    ensures NamesListed(SignUnits(s, placed).value)
    decreases |placed|
  {
    if placed != [] {
      var next := s.(players := s.players + [placed[0]]);
      SignedNames(s, placed[0]);
      SameTeams(s, next);
      UnitsName(next, placed[1..]);
    }
  }

  lemma MarketNames(n: Native, r: Record)
    requires MarketCommand(r.command) && ProjectMarket(n, r).Ok?
    requires NamesListed(n.league.assets) && GivesToTeams(n.league.assets, r)
    ensures NamesListed(ProjectMarket(n, r).value.league.assets)
  {
    if r.command.OLineAuctionClose? {
      UnitsName(n.league.assets, r.args.oline.value.placed);
    } else if WaiverCommand(r.command) {
      WaiverNames(n.league, r);
    } else if BidCommand(r.command) {
      BidNames(n.league, r);
    } else {
      TradeNames(n.league, r);
    }
  }

  // ----- drafts, corrections and overrides

  lemma PickNames(s: Snapshot, r: Record)
    requires r.command.DraftPick? && NamesListed(s) && DraftsAmong(s, r)
    ensures NamesListed(ApplyPick(s, r))
  {
    SameTeams(s, ApplyPick(s, r));
  }

  lemma TrayNames(s: Snapshot, r: Record)
    requires (r.command.DraftAssign? || r.command.DraftInsert?) && NamesListed(s) && DraftsAmong(s, r)
    ensures NamesListed(ApplyTray(s, r))
  {
    SameTeams(s, ApplyTray(s, r));
  }

  lemma ChangeNames(s: Snapshot, r: Record)
    requires r.command.DraftChange? && NamesListed(s)
    ensures NamesListed(ApplyChange(s, r))
  {
    SameTeams(s, ApplyChange(s, r));
  }

  lemma CloseNames(s: Snapshot, r: Record)
    requires r.command.DraftArchive? && NamesListed(s) && DraftsAmong(s, r)
    ensures NamesListed(ApplyClose(s, r))
  {
    SameTeams(s, ApplyClose(s, r));
  }

  lemma DraftNames(s: Snapshot, r: Record)
    requires DraftAsset(r.command) && NamesListed(s) && DraftsAmong(s, r)
    ensures NamesListed(ApplyDraft(s, r))
  {
    if r.command.DraftPick? {
      PickNames(s, r);
    } else if r.command.DraftChange? {
      ChangeNames(s, r);
    } else if r.command.DraftArchive? {
      CloseNames(s, r);
    } else {
      TrayNames(s, r);
    }
  }

  lemma RosterNames(rules: Rules, records: seq<Record>, i: nat, s: Snapshot, side: string)
    requires i < |records| && records[i].command.CorrectRoster? && NamesListed(s)
    requires CorrectRosterOf(rules, records, i, s, side).Ok?
    ensures NamesListed(CorrectRosterOf(rules, records, i, s, side).value)
  {
    var c := records[i].args.correction.value;
    var at := s.PlayerOn(side, c.player);
    if c.action == "remove" {
      RemovalNames(s, at);
    } else {
      AdditionNames(s, records[i], LastHeld(rules, records[..i], side, c.player));
    }
  }

  lemma RemovalNames(s: Snapshot, i: nat)
    requires NamesListed(s) && i < |s.players|
    ensures NamesListed(s.(players := Without(s.players, i)))
  {
    SameTeams(s, s.(players := Without(s.players, i)));
  }

  lemma AdditionNames(s: Snapshot, r: Record, held: Result<Option<NativePlayer>>)
    requires r.args.correction.Some? && NamesListed(s) && s.Lists(r.args.correction.value.franchise)
    requires AddPlayer(s, r, held).Ok?
    ensures NamesListed(AddPlayer(s, r, held).value)
  {
    SignedNames(s, held.value.value.(franchise := r.args.correction.value.franchise, status := Active,
                                     correction := CorrectionWords(r)));
  }

  lemma PickOwnerNames(s: Snapshot, r: Record)
    requires r.args.correction.Some? && NamesListed(s) && CorrectPickOwner(s, r).Ok?
    ensures NamesListed(CorrectPickOwner(s, r).value)
  {
    SameTeams(s, CorrectPickOwner(s, r).value);
  }

  lemma ProvenanceNames(s: Snapshot, at: int, r: Record)
    requires at < |s.players| && r.args.correction.Some? && NamesListed(s) && CorrectProvenanceAt(s, at, r).Ok?
    ensures NamesListed(CorrectProvenanceAt(s, at, r).value)
  {
    SameTeams(s, CorrectProvenanceAt(s, at, r).value);
  }

  lemma CorrectionNames(rules: Rules, records: seq<Record>, i: nat, s: Snapshot)
    requires i < |records| && AssetCorrection(records[i].command) && NamesListed(s)
    requires ApplyCorrection(rules, records, i, s).Ok?
    ensures NamesListed(ApplyCorrection(rules, records, i, s).value)
  {
    var r := records[i];
    if r.command.CorrectPick? {
      PickOwnerNames(s, r);
    } else {
      var side := s.TargetSide(r.args.correction.value.franchise).value;
      if r.command.CorrectProvenance? {
        ProvenanceNames(s, s.PlayerOn(side, r.args.correction.value.player), r);
      } else {
        RosterNames(rules, records, i, s, side);
      }
    }
  }

  lemma OverrideNames(s: Snapshot, r: Record, v: Override, season: int)
    requires NamesListed(s) && ApplyOverride(s, r, v, season).Ok?
    ensures NamesListed(ApplyOverride(s, r, v, season).value)
  {
    var after := ApplyOverride(s, r, v, season).value;
    if r.command.CapAdjust? || r.command.CapRelief? {
      ChargedNames(s, after.adjustments[|s.adjustments|]);
    } else if r.command.ContractEdit? {
      SameTeams(s, after);
    }
  }

  lemma ChargedNames(s: Snapshot, charge: NativeCharge)
    requires NamesListed(s) && s.Lists(charge.franchise)
    ensures NamesListed(s.(adjustments := s.adjustments + [charge]))
  {
    SameTeams(s, s.(adjustments := s.adjustments + [charge]));
  }

  lemma PlainNames(n: Native, r: Record, season: Option<int>)
    requires n.seeded && ProjectPlain(n, r, season).Ok?
    requires NamesListed(n.league.assets) && GivesToTeams(n.league.assets, r)
    ensures NamesListed(ProjectPlain(n, r, season).value.league.assets)
  {
    if ResizesTeams(r) {
      ResizeKeepsNames(n.league.assets, TeamCount(r).value);
    } else if DraftAsset(r.command) {
      DraftNames(n.league.assets, r);
    } else if OverrideCommand(r.command) {
      OverrideNames(n.league.assets, r, r.args.change.value, season.value);
    }
  }

  /** One entry in force leaves every holding with a team of the league. */
  lemma EntryNames(rules: Rules, records: seq<Record>, i: nat, n: Native)
    requires i < |records| && n.seeded && ProjectEntry(rules, records, i, n).Ok?
    requires NamesListed(n.league.assets) && GivesToTeams(n.league.assets, records[i])
    ensures ProjectEntry(rules, records, i, n).value.seeded
    ensures NamesListed(ProjectEntry(rules, records, i, n).value.league.assets)
  {
    var r := records[i];
    if MarketCommand(r.command) {
      MarketNames(n, r);
    } else if AssetCorrection(r.command) {
      CorrectionNames(rules, records, i, n.league.assets);
    } else {
      PlainNames(n, r, rules.season(records[..i + 1]));
    }
  }

  ghost predicate AllGiveToTeams(rules: Rules, records: seq<Record>, active: Active, n: nat, start: Native)
    requires n <= |records|
  {
    n > 0 ==>
      && AllGiveToTeams(rules, records, active, n - 1, start)
      && (On(active, records[n - 1].entry) && Fold(rules, records, active, 0, n - 1, start).Ok? ==>
            GivesToTeams(Fold(rules, records, active, 0, n - 1, start).value.league.assets, records[n - 1]))
  }

  lemma {:induction false} FoldNames(rules: Rules, records: seq<Record>, active: Active, n: nat, start: Native)
    requires n <= |records| && start.seeded && NamesListed(start.league.assets)
    requires AllGiveToTeams(rules, records, active, n, start) && Fold(rules, records, active, 0, n, start).Ok?
    ensures Fold(rules, records, active, 0, n, start).value.seeded
    ensures NamesListed(Fold(rules, records, active, 0, n, start).value.league.assets)
  {
    if n > 0 {
      FoldNames(rules, records, active, n - 1, start);
      if On(active, records[n - 1].entry) {
        EntryNames(rules, records, n - 1, Fold(rules, records, active, 0, n - 1, start).value);
      }
    }
  }

  /** When a ledger projects, every player, pick and charge is a team's: nothing the league holds names a franchise
      outside its list, whatever Teams changes, trades, drafts, awards and corrections are in force. */
  lemma EveryHoldingIsListed(rules: Rules, records: seq<Record>)
    requires Project(rules, records).Ok? && Seed(rules, records).value.seeded
    requires NamesListed(Seed(rules, records).value.league.assets)
    requires AllGiveToTeams(rules, records, Full(records).active, |records|, Seed(rules, records).value)
    ensures NamesListed(Project(rules, records).value.league.assets)
  {
    FoldNames(rules, records, Full(records).active, |records|, Seed(rules, records).value);
  }
}
