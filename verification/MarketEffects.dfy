/** What each market entry leaves behind, told by the fields its record carries: the bid or claim it adds, the contract
    and the charge it moves, and all that it does not touch. */
module MarketEffects {
  import opened Assets
  import opened Records
  import opened Market
  import opened BidContracts
  import CorrectedWaivers

  // ----- bids

  /** Only the auctions of the book may differ. */
  predicate SameButAuctions(l: League, after: League) {
    after == l.(book := l.book.(auctions := after.book.auctions))
  }

  /** A new bid, as its entry recorded it, still standing. */
  predicate FreshBid(r: Record, a: BidAuction, b: BidRecord) {
    RecordsBid(r, a, b) && !b.replaced && !b.withdrawn
  }

  /** A placed bid stands last in the newest auction of its side's copy, or opens one where that auction is decided or
      there is none. The copy is on no roster of the side, and the franchise had no standing bid there. */
  lemma BidIsPlaced(l: League, r: Record)
    requires r.command.BidPlace? && ProjectBid(l, r).Ok?
    ensures r.args.bid.Some? && SameButAuctions(l, ProjectBid(l, r).value)
    ensures var side := l.assets.SideOf(r.args.bid.value.franchise);
            var before, after := l.book.auctions, ProjectBid(l, r).value.book.auctions;
            var i := Market.Latest(before, side, r.args.bid.value.player);
            && !l.assets.OnSide(side, r.args.bid.value.player)
            && if i >= 0 && !before[i].decided then
                 && |after| == |before| && after[i].bids != []
                 && after[i] == before[i].(bids := before[i].bids + [after[i].bids[|after[i].bids| - 1]])
                 && FreshBid(r, after[i], after[i].bids[|after[i].bids| - 1])
                 && (forall k :: 0 <= k < |before[i].bids| ==>
                       before[i].bids[k].franchise != r.args.bid.value.franchise
                       || before[i].bids[k].replaced || before[i].bids[k].withdrawn)
                 && (forall k :: 0 <= k < |before| && k != i ==> after[k] == before[k])
               else
                 && |after| == |before| + 1 && after[..|before|] == before
                 && var a := after[|before|];
                 && a.player == r.args.bid.value.player && a.side == side && |a.bids| == 1 && FreshBid(r, a, a.bids[0])
                 && !a.decided && a.winner == "" && a.winningBid == "" && a.tied == [] && a.results == []
                 && a.season == 0 && a.decidedAt == 0
  {
  }

  /** A raise marks the standing bid it names replaced, and stands last in its place. */
  lemma BidIsRaised(l: League, r: Record)
    requires r.command.BidRaise? && ProjectBid(l, r).Ok?
    ensures r.args.bid.Some? && SameButAuctions(l, ProjectBid(l, r).value)
    ensures var i := AuctionOf(l.book.auctions, r.args.bid.value.bid);
            i >= 0 && RaisedAt(l.book.auctions, ProjectBid(l, r).value.book.auctions, i, r)
  {
  }

  ghost predicate RaisedAt(before: seq<BidAuction>, after: seq<BidAuction>, i: nat, r: Record)
    requires i < |before| && r.args.bid.Some?
  {
    var j, n := before[i].BidAt(r.args.bid.value.bid), |before[i].bids|;
    && |after| == |before| && !before[i].decided && j >= 0 && |after[i].bids| == n + 1
    && before[i].bids[j].franchise == r.args.bid.value.franchise
    && !before[i].bids[j].replaced && !before[i].bids[j].withdrawn
    && after[i] == before[i].(bids := after[i].bids)
    && after[i].bids[j] == before[i].bids[j].(replaced := true)
    && FreshBid(r, after[i], after[i].bids[n])
    && (forall k :: 0 <= k < n && k != j ==> after[i].bids[k] == before[i].bids[k])
    && (forall k :: 0 <= k < |before| && k != i ==> after[k] == before[k])
  }

  /** A withdrawal marks the standing bid it names withdrawn, and nothing else. */
  lemma BidIsWithdrawn(l: League, r: Record)
    requires r.command.BidWithdraw? && ProjectBid(l, r).Ok?
    ensures r.args.bid.Some? && SameButAuctions(l, ProjectBid(l, r).value)
    ensures var i := AuctionOf(l.book.auctions, r.args.bid.value.bid);
            i >= 0 && WithdrawnAt(l.book.auctions, ProjectBid(l, r).value.book.auctions, i, r)
  {
  }

  ghost predicate WithdrawnAt(before: seq<BidAuction>, after: seq<BidAuction>, i: nat, r: Record)
    requires i < |before| && r.args.bid.Some?
  {
    var j := before[i].BidAt(r.args.bid.value.bid);
    && |after| == |before| && !before[i].decided && j >= 0 && |after[i].bids| == |before[i].bids|
    && !before[i].bids[j].replaced && !before[i].bids[j].withdrawn
    && after[i] == before[i].(bids := after[i].bids)
    && after[i].bids[j] == before[i].bids[j].(withdrawn := true)
    && (forall k :: 0 <= k < |before[i].bids| && k != j ==> after[i].bids[k] == before[i].bids[k])
    && (forall k :: 0 <= k < |before| && k != i ==> after[k] == before[k])
  }

  /** A decision for nobody only takes the earlier winner's contract, if there was one, off his roster. */
  lemma NobodyWins(l: League, r: Record)
    requires AwardsBid(r) && ProjectBid(l, r).Ok? && r.args.bidOutcome.value.winner == ""
    ensures AwardedAuction(l.book.auctions, r).Ok?
    ensures var a, s, t := l.book.auctions[AwardedAuction(l.book.auctions, r).value], l.assets, ProjectBid(l, r).value.assets;
            && t == s.(players := t.players)
            && if a.winner == "" then t.players == s.players
               else
                 && s.PlayerOf(a.winner, a.player) >= 0
                 && t.players == Without(s.players, s.PlayerOf(a.winner, a.player))
  {
  }

  // ----- waivers

  predicate TakesWaiver(l: League, r: Record) {
    r.args.waiver.Some? && r.args.waiverOutcome.Some? && ProjectWaiver(l, r).Ok?
  }

  /** A cut takes exactly the recorded contract off the franchise's roster. It leaves one charge of the recorded dead
      money, under the entry's own id, and one open window for the player. */
  lemma PlayerIsCut(l: League, r: Record)
    requires r.command.RosterCut? && ProjectWaiver(l, r).Ok?
    ensures TakesWaiver(l, r)
    ensures var s, t, args, o := l.assets, ProjectWaiver(l, r).value.assets, r.args.waiver.value, r.args.waiverOutcome.value;
            var i, n := s.PlayerOf(args.franchise, args.player), |s.adjustments|;
            && i >= 0 && o.player == Some(s.players[i])
            && t == s.(players := s.players[..i] + s.players[i + 1..], adjustments := t.adjustments)
            && |t.adjustments| == n + 1 && t.adjustments[..n] == s.adjustments
            && CutCharge(r, t.adjustments[n])
    ensures var before, after, args := l.book, ProjectWaiver(l, r).value.book, r.args.waiver.value;
            var n := |before.windows|;
            && after == before.(windows := after.windows)
            && |after.windows| == n + 1 && after.windows[..n] == before.windows
            && CutWindow(l.assets.SideOf(args.franchise), r, after.windows[n])
  {
  }

  predicate CutCharge(r: Record, c: NativeCharge) {
    && r.args.waiver.Some? && r.args.waiverOutcome.Some? && r.args.waiverOutcome.value.player.Some?
    && var args, o := r.args.waiver.value, r.args.waiverOutcome.value;
    && c.id == r.entry && c.franchise == args.franchise && c.amount == o.dead && c.season == o.season
    && c.description ==
         "Dead money for released player " + if o.player.value.name == "" then args.player else o.player.value.name
  }

  predicate CutWindow(side: string, r: Record, w: WaiverWindow) {
    && r.args.waiverOutcome.Some? && r.args.waiverOutcome.value.player.Some?
    && var o := r.args.waiverOutcome.value;
    && w.id == r.entry && w.side == side && w.player == o.player.value && w.cutAt == r.at && w.season == o.season
    && w.dead == o.dead && w.claims == [] && !w.processed && w.winner == "" && w.closedAt == 0 && w.results == []
    && w.priorOrder == []
  }

  /** A claim joins the open window it names. */
  lemma PlayerIsClaimed(l: League, r: Record)
    requires r.command.WaiverClaim? && ProjectWaiver(l, r).Ok?
    ensures r.args.waiver.Some? && ProjectWaiver(l, r).value.assets == l.assets
    ensures var before, after := l.book, ProjectWaiver(l, r).value.book;
            var i := WindowAt(before.windows, r.args.waiver.value.window);
            && i >= 0 && !before.windows[i].processed
            && after == before.(windows := after.windows) && |after.windows| == |before.windows|
            && after.windows[i] == before.windows[i].(claims := before.windows[i].claims +
                 [BookClaim(r.entry, r.args.waiver.value.franchise, r.principal)])
            && (forall k :: 0 <= k < |before.windows| && k != i ==> after.windows[k] == before.windows[k])
  {
  }

  /** A reserve move puts the recorded player on injured reserve, on the taxi squad or back among the active, and
      changes nothing else about him or anyone. */
  lemma PlayerIsMoved(l: League, r: Record)
    requires r.command.RosterReserve? && ProjectWaiver(l, r).Ok?
    ensures TakesWaiver(l, r) && ProjectWaiver(l, r).value.book == l.book
    ensures var s, t, args, o := l.assets, ProjectWaiver(l, r).value.assets, r.args.waiver.value, r.args.waiverOutcome.value;
            var i := s.PlayerOn(s.SideOf(args.franchise), args.player);
            && i >= 0 && o.player == Some(s.players[i]) && s.players[i].franchise == args.franchise
            && t == s.(players := t.players) && |t.players| == |s.players|
            && t.players[i] == s.players[i].(status := t.players[i].status)
            && (t.players[i].status == IR <==> args.bucket == "ir")
            && (t.players[i].status == Taxi <==> args.bucket == "taxi")
            && (forall k :: 0 <= k < |s.players| && k != i ==> t.players[k] == s.players[k])
  {
  }

  /** Setting the waiver order replaces the order, its season, its source and the base order. */
  lemma OrderIsSet(l: League, r: Record)
    requires (r.command.WaiverOrderSet? || r.command.WaiverOrderAuto?) && ProjectWaiver(l, r).Ok?
    ensures TakesWaiver(l, r) && ProjectWaiver(l, r).value.assets == l.assets
    ensures var before, after, o := l.book, ProjectWaiver(l, r).value.book, r.args.waiverOutcome.value;
            && after.order == o.order && after.baseOrder == o.order && after.orderSeason == o.season
            && after.source == o.source
            && after == before.(order := after.order, baseOrder := after.baseOrder, orderSeason := after.orderSeason,
                                source := after.source)
  {
  }

  predicate AwardsWaiver(r: Record) {
    (r.command.WaiverProcess? || r.command.WaiverOverride?) && r.args.waiver.Some? && r.args.waiverOutcome.Some?
  }

  /** A waiver winner takes over the contract that was cut, whole but for the franchise and the status; the claimant's
      claim is one of the window's, and the side had no copy left. */
  lemma ClaimantTakesOver(l: League, r: Record)
    requires AwardsWaiver(r) && ProjectWaiver(l, r).Ok? && r.args.waiverOutcome.value.winner != ""
    ensures AwardedWindow(l.book.windows, r).Ok?
    ensures var w, o := l.book.windows[AwardedWindow(l.book.windows, r).value], r.args.waiverOutcome.value;
            var players := ProjectWaiver(l, r).value.assets.players;
            && (exists k :: 0 <= k < |w.claims| && w.claims[k].franchise == o.winner)
            && players != []
            && players[|players| - 1].franchise == o.winner && players[|players| - 1].status == Active
            && players[|players| - 1] == w.player.(franchise := o.winner, status := Active)
  {
  }

  /** What a waiver decision writes to its window and to the order, and to nothing else of the book. */
  lemma WindowIsDecided(l: League, r: Record)
    requires AwardsWaiver(r) && ProjectWaiver(l, r).Ok?
    ensures AwardedWindow(l.book.windows, r).Ok?
    ensures var i, o := AwardedWindow(l.book.windows, r).value, r.args.waiverOutcome.value;
            var before, after := l.book, ProjectWaiver(l, r).value.book;
            && |after.windows| == |before.windows|
            && DecidedWindow(before.windows[i], after.windows[i], o)
            && (forall k :: 0 <= k < |before.windows| && k != i ==> after.windows[k] == before.windows[k])
            && after.order == o.order && after.orderSeason == o.season && after.source == o.source
            && after.baseOrder == (if before.baseOrder == [] then o.priorOrder else before.baseOrder)
            && after.oline == before.oline && after.auctions == before.auctions && after.trades == before.trades
  {
  }

  lemma DecisionRecharges(l: League, r: Record)
    requires AwardsWaiver(r) && ProjectWaiver(l, r).Ok?
    ensures AwardedWindow(l.book.windows, r).Ok?
    ensures var w, o := l.book.windows[AwardedWindow(l.book.windows, r).value], r.args.waiverOutcome.value;
            var s, t := l.assets, ProjectWaiver(l, r).value.assets;
            t == s.(players := t.players, adjustments := Recharged(s.adjustments, w.id, DeadAmount(w, o)))
  {
  }

  /** The cut's charge follows the decision: the recorded dead money, or nothing while a winner clears it. */
  lemma ChargeIsDecided(l: League, r: Record)
    requires AwardsWaiver(r) && ProjectWaiver(l, r).Ok?
    ensures AwardedWindow(l.book.windows, r).Ok?
    ensures var w, o := l.book.windows[AwardedWindow(l.book.windows, r).value], r.args.waiverOutcome.value;
            var s, t := l.assets, ProjectWaiver(l, r).value.assets;
            && t == s.(players := t.players, adjustments := t.adjustments) && |t.adjustments| == |s.adjustments|
            && forall k :: 0 <= k < |s.adjustments| ==>
                 t.adjustments[k] == if s.adjustments[k].id != w.id then s.adjustments[k]
                                     else s.adjustments[k].(amount := if o.winner == "" || !o.clearsDead then w.dead else 0)
  {
    DecisionRecharges(l, r);
  }

  predicate DecidedWindow(w: WaiverWindow, after: WaiverWindow, o: WaiverOutcome) {
    && after.processed && after.winner == o.winner && after.closedAt == o.closeAt && after.results == o.results
    && after.priorOrder == o.priorOrder
    && after.id == w.id && after.side == w.side && after.player == w.player && after.cutAt == w.cutAt
    && after.season == w.season && after.dead == w.dead && after.claims == w.claims
  }

  // ----- trades

  /** A trade entry writes its outcome to the book: an offer as a new trade under the entry's id, an act over the trade
      it names, whose state it must have been recorded from. */
  lemma TradeIsWritten(l: League, r: Record)
    requires (r.command.TradeOffer? || r.command.TradeAct?) && ProjectTrade(l, r).Ok?
    ensures r.args.tradeOutcome.Some?
    ensures var before, after, t := l.book, ProjectTrade(l, r).value.book, r.args.tradeOutcome.value;
            && after == before.(trades := after.trades)
            && if r.command.TradeOffer? then
                 after.trades == before.trades + [TradeState(r.entry, t.parties, t.assets, t.status, t.previous)]
               else
                 var i := TradeAt(before.trades, t.id);
                 && i >= 0 && t.previous == Some(before.trades[i]) && |after.trades| == |before.trades|
                 && after.trades[i] == t
                 && (forall k :: 0 <= k < |before.trades| && k != i ==> after.trades[k] == before.trades[k])
  {
  }

  /** A pick moves only while it is an ordinary one nobody has used: no player, no slot, not skipped, not compensatory. */
  lemma OnlyUnusedPicksMove(s: Snapshot, a: TradeAsset, back: bool)
    requires a.player == ""
    ensures var i := PickAt(s.picks, a, if back then a.receiver else a.sender);
            MoveOne(s, a, back).Ok? <==>
              i >= 0 && s.picks[i].player == "" && s.picks[i].slot == 0 && !s.picks[i].skipped && !s.picks[i].compensatory
  {
  }

  // ----- what is accepted

  /** A bid is taken while nobody on the side holds the player and the franchise has no standing bid in the auction it
      would join. */
  lemma PlacingAccepted(l: League, r: Record)
    requires r.command.BidPlace? && r.args.bid.Some? && r.args.bidOutcome.Some?
    ensures var side, player := l.assets.SideOf(r.args.bid.value.franchise), r.args.bid.value.player;
            var i := Market.Latest(l.book.auctions, side, player);
            ProjectBid(l, r).Ok? <==>
              && (forall k :: 0 <= k < |l.assets.players| ==>
                    l.assets.players[k].id != player || l.assets.SideOf(l.assets.players[k].franchise) != side)
              && (i >= 0 && !l.book.auctions[i].decided ==> NoStandingBid(l.book.auctions[i], r.args.bid.value.franchise))
  {
  }

  ghost predicate NoStandingBid(a: BidAuction, franchise: string) {
    forall k :: 0 <= k < |a.bids| ==> a.bids[k].franchise != franchise || a.bids[k].replaced || a.bids[k].withdrawn
  }

  /** The first auction that lists the bid is undecided and the bid stands there. */
  predicate BidStands(auctions: seq<BidAuction>, bid: string) {
    var i := AuctionOf(auctions, bid);
    i >= 0 && !auctions[i].decided &&
    var b := auctions[i].bids[auctions[i].BidAt(bid)];
    !b.replaced && !b.withdrawn
  }

  /** A raise is taken for a standing bid of the franchise's own, a withdrawal for any standing bid. */
  lemma AnswerAccepted(l: League, r: Record)
    requires (r.command.BidRaise? || r.command.BidWithdraw?) && r.args.bid.Some? && r.args.bidOutcome.Some?
    ensures var auctions, bid := l.book.auctions, r.args.bid.value.bid;
            ProjectBid(l, r).Ok? <==>
              && BidStands(auctions, bid)
              && (r.command.BidRaise? ==>
                    var a := auctions[AuctionOf(auctions, bid)];
                    a.bids[a.BidAt(bid)].franchise == r.args.bid.value.franchise)
  {
  }

  /** The roster without an earlier winner's contract for the player. */
  function WithoutWinner(s: Snapshot, winner: string, player: string): seq<NativePlayer> {
    var i := s.PlayerOf(winner, player);
    if winner == "" || i < 0 then s.players else s.players[..i] + s.players[i + 1..]
  }

  ghost predicate FreeOf(s: Snapshot, players: seq<NativePlayer>, side: string, player: string) {
    forall k :: 0 <= k < |players| ==> players[k].id != player || s.SideOf(players[k].franchise) != side
  }

  predicate WinnerStillHolds(s: Snapshot, winner: string, player: string) {
    winner == "" || s.PlayerOf(winner, player) >= 0
  }

  ghost predicate BidAwardable(s: Snapshot, a: BidAuction, o: BidOutcome) {
    && WinnerStillHolds(s, a.winner, a.player)
    && (o.winner != "" ==>
          && FreeOf(s, WithoutWinner(s, a.winner, a.player), a.side, a.player)
          && a.BidAt(o.winningBid) >= 0 && a.bids[a.BidAt(o.winningBid)].franchise == o.winner)
  }

  lemma BidAwardableIff(s: Snapshot, a: BidAuction, o: BidOutcome)
    ensures ReplaceBidWinner(s, a, o).Ok? <==> BidAwardable(s, a, o)
  {
    if WinnerStillHolds(s, a.winner, a.player) {
      FreeMeans(s, Unaward(s, a.winner, a.player).value, a.side, a.player);
    }
  }

  /** A decision is taken while the earlier winner, if any, still holds the player. If it names a winner, nobody else on
      the side may hold him, and the winning bid is one of the winner's in the auction. */
  lemma AwardAccepted(l: League, r: Record, i: nat)
    requires AwardsBid(r) && AwardedAuction(l.book.auctions, r) == Ok(i)
    ensures ProjectBid(l, r).Ok? <==> BidAwardable(l.assets, l.book.auctions[i], r.args.bidOutcome.value)
  {
    BidAwardableIff(l.assets, l.book.auctions[i], r.args.bidOutcome.value);
  }

  lemma FreeMeans(s: Snapshot, t: Snapshot, side: string, player: string)
    requires t.sides == s.sides
    ensures !t.OnSide(side, player) <==> FreeOf(s, t.players, side, player)
  {
    assert forall id :: t.SideOf(id) == s.SideOf(id);
    if t.OnSide(side, player) {
      assert t.players[t.PlayerOn(side, player)].id == player;
    }
  }

  /** A cut is taken of exactly the contract recorded, and a reserve move of the player recorded while he is with the
      franchise. */
  lemma RosterMoveAccepted(l: League, r: Record)
    requires (r.command.RosterCut? || r.command.RosterReserve?) && r.args.waiver.Some? && r.args.waiverOutcome.Some?
    ensures var s, args, player := l.assets, r.args.waiver.value, r.args.waiverOutcome.value.player;
            var i := if r.command.RosterCut? then s.PlayerOf(args.franchise, args.player)
                     else s.PlayerOn(s.SideOf(args.franchise), args.player);
            ProjectWaiver(l, r).Ok? <==>
              player.Some? && i >= 0 && player.value == s.players[i] && s.players[i].franchise == args.franchise
  {
  }

  /** A claim is taken in an open window; setting the order always is. */
  lemma WaiverEntryAccepted(l: League, r: Record)
    requires r.args.waiver.Some?
    ensures r.command.WaiverClaim? ==>
      (ProjectWaiver(l, r).Ok? <==>
         var i := WindowAt(l.book.windows, r.args.waiver.value.window);
         i >= 0 && !l.book.windows[i].processed)
    ensures (r.command.WaiverOrderSet? || r.command.WaiverOrderAuto?) && r.args.waiverOutcome.Some? ==> ProjectWaiver(l, r).Ok?
  {
  }

  predicate ListsClaim(w: WaiverWindow, claim: string) {
    exists k :: 0 <= k < |w.claims| && w.claims[k].id == claim
  }

  /** A window is found by its id, and by any claim in it, as the first that fits. */
  lemma WindowsFit(windows: seq<WaiverWindow>, id: string, claim: string)
    ensures var i := WindowAt(windows, id);
            && (i >= 0 ==> windows[i].id == id)
            && forall k :: 0 <= k < (if i < 0 then |windows| else i) ==> windows[k].id != id
    ensures var i := ClaimWindow(windows, claim);
            && (i >= 0 ==> ListsClaim(windows[i], claim))
            && forall k :: 0 <= k < (if i < 0 then |windows| else i) ==> !ListsClaim(windows[k], claim)
  {
  }

  /** A window is decided by its id while it is open; a decision is corrected by a claim of its window. Either way the
      first window that fits is the one. */
  lemma WindowsAreFound(windows: seq<WaiverWindow>, r: Record)
    requires r.args.waiver.Some?
    ensures var i, id, claim := AwardedWindow(windows, r), r.args.waiver.value.window, r.args.waiver.value.claim;
            && (r.command.WaiverProcess? ==>
                  (i.Ok? <==> WindowAt(windows, id) >= 0 && !windows[WindowAt(windows, id)].processed)
                  && (i.Ok? ==> i.value == WindowAt(windows, id)))
            && (r.command.WaiverOverride? ==>
                  (i.Ok? <==> ClaimWindow(windows, claim) >= 0 && windows[ClaimWindow(windows, claim)].processed)
                  && (i.Ok? ==> i.value == ClaimWindow(windows, claim)))
  {
  }

  ghost predicate WaiverAwardable(s: Snapshot, w: WaiverWindow, winner: string) {
    && WinnerStillHolds(s, w.winner, w.player.id)
    && FreeOf(s, WithoutWinner(s, w.winner, w.player.id), w.side, w.player.id)
    && (winner != "" ==> exists k :: 0 <= k < |w.claims| && w.claims[k].franchise == winner)
  }

  lemma WaiverAwardableIff(s: Snapshot, w: WaiverWindow, winner: string)
    ensures ReplaceWaiverWinner(s, w, winner).Ok? <==> WaiverAwardable(s, w, winner)
  {
    if WinnerStillHolds(s, w.winner, w.player.id) {
      FreeMeans(s, Unaward(s, w.winner, w.player.id).value, w.side, w.player.id);
    }
  }

  lemma DecisionReplaces(l: League, r: Record, i: nat)
    requires AwardsWaiver(r) && AwardedWindow(l.book.windows, r) == Ok(i)
    ensures i < |l.book.windows|
    ensures ProjectWaiver(l, r).Ok? <==>
      ReplaceWaiverWinner(l.assets, l.book.windows[i], r.args.waiverOutcome.value.winner).Ok?
  {
    CorrectedWaivers.ProjectIsAward(l, r);
    CorrectedWaivers.WindowAwardIs(l, i, r, r.args.waiverOutcome.value);
  }

  /** A waiver decision is taken while the earlier winner, if any, still holds the player, nobody else on the side does,
      and a winner it names has a claim in the window. */
  lemma ClaimAwardAccepted(l: League, r: Record, i: nat)
    requires AwardsWaiver(r) && AwardedWindow(l.book.windows, r) == Ok(i)
    ensures i < |l.book.windows|
    ensures ProjectWaiver(l, r).Ok? <==> WaiverAwardable(l.assets, l.book.windows[i], r.args.waiverOutcome.value.winner)
  {
    DecisionReplaces(l, r, i);
    WaiverAwardableIff(l.assets, l.book.windows[i], r.args.waiverOutcome.value.winner);
  }

  /** The player of a franchise, the copy of a side and the lot of a side's pool are each the first that fits. */
  lemma PlayersAreFound(s: Snapshot, franchise: string, side: string, player: string)
    ensures var i := s.PlayerOf(franchise, player);
            && (i >= 0 ==> i < |s.players| && s.players[i].id == player && s.players[i].franchise == franchise)
            && forall k :: 0 <= k < (if i < 0 then |s.players| else i) ==>
                 s.players[k].id != player || s.players[k].franchise != franchise
    ensures var i := s.PlayerOn(side, player);
            && (i >= 0 ==> i < |s.players| && s.players[i].id == player && s.SideOf(s.players[i].franchise) == side)
            && forall k :: 0 <= k < (if i < 0 then |s.players| else i) ==>
                 s.players[k].id != player || s.SideOf(s.players[k].franchise) != side
    ensures var i := s.PoolOn(side, player);
            && (i >= 0 ==> i < |s.pool| && s.pool[i].player == player && s.pool[i].side == side)
            && forall k :: 0 <= k < (if i < 0 then |s.pool| else i) ==> s.pool[k].player != player || s.pool[k].side != side
  {
  }

  /** A player moves from the one franchise to the other where the first holds him, and only there. */
  lemma PlayerMoves(s: Snapshot, a: TradeAsset, back: bool)
    requires a.player != ""
    ensures var source, target := if back then a.receiver else a.sender, if back then a.sender else a.receiver;
            var i := s.PlayerOf(source, a.player);
            && (MoveOne(s, a, back).Ok? <==> i >= 0)
            && (i >= 0 ==>
                  MoveOne(s, a, back).value == s.(players := s.players[i := s.players[i].(franchise := target)]))
  {
  }

  /** A trade entry is taken as a new offer or over the state it was recorded from, while every asset it has to move can
      be moved: forward where it becomes approved, back where it stops being. */
  lemma TradeAccepted(l: League, r: Record)
    requires (r.command.TradeOffer? || r.command.TradeAct?) && r.args.tradeOutcome.Some?
    ensures var trades, t := l.book.trades, r.args.tradeOutcome.value;
            var i := TradeAt(trades, t.id);
            var was := r.command.TradeAct? && i >= 0 && trades[i].status == "approved";
            && (ProjectTrade(l, r).Ok? <==>
                  && (if r.command.TradeOffer? then i < 0 else i >= 0 && t.previous == Some(trades[i]))
                  && (was != (t.status == "approved") ==> MoveAssets(l.assets, t.assets, was).Ok?))
            && (ProjectTrade(l, r).Ok? ==>
                  ProjectTrade(l, r).value.assets ==
                  if was == (t.status == "approved") then l.assets else MoveAssets(l.assets, t.assets, was).value)
  {
  }

  /** A trade is listed where its id is, and nowhere if no trade has it. */
  lemma TradesAreFound(trades: seq<TradeState>, id: string)
    ensures TradeAt(trades, id) >= 0 <==> exists k :: 0 <= k < |trades| && trades[k].id == id
  {
  }
}
