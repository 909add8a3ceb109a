/** What every market entry keeps: one copy of a player a side, and a bid book whose auctions agree with the sides
    and with each other. */
module MarketLaws {
  import opened Assets
  import opened Records
  import opened Market

  /** No two roster entries are the same side's copy of one player. */
  ghost predicate OneCopy(s: Snapshot) {
    forall i, j :: 0 <= i < j < |s.players| && s.players[i].id == s.players[j].id ==>
      s.SideOf(s.players[i].franchise) != s.SideOf(s.players[j].franchise)
  }

  /** The auction's bids come from its own side, at most one of a franchise's is live, and its winner, if any, is a
      decided one from that side. */
  ghost predicate AuctionSound(s: Snapshot, a: BidAuction) {
    && (forall k :: 0 <= k < |a.bids| ==> s.SideOf(a.bids[k].franchise) == a.side)
    && (forall k, m :: 0 <= k < m < |a.bids| && a.bids[k].Live() && a.bids[m].Live() ==>
          a.bids[k].franchise != a.bids[m].franchise)
    && (a.winner != "" ==> a.decided && s.SideOf(a.winner) == a.side)
  }

  predicate SameLot(a: BidAuction, b: BidAuction) {
    a.player == b.player && a.side == b.side
  }

  /** No later auction is of the same lot as an undecided one. */
  ghost predicate BookSound(s: Snapshot, auctions: seq<BidAuction>) {
    && (forall i :: 0 <= i < |auctions| ==> AuctionSound(s, auctions[i]))
    && (forall i, j :: 0 <= i < j < |auctions| && SameLot(auctions[i], auctions[j]) ==> auctions[i].decided)
  }

  ghost predicate ClaimsSound(s: Snapshot, windows: seq<WaiverWindow>) {
    forall i, k :: 0 <= i < |windows| && 0 <= k < |windows[i].claims| ==>
      s.SideOf(windows[i].claims[k].franchise) == windows[i].side
  }

  ghost predicate Kept(l: League) {
    OneCopy(l.assets) && BookSound(l.assets, l.book.auctions) && ClaimsSound(l.assets, l.book.windows)
  }

  // ----- rosters

  lemma DropKeepsOneCopy(s: Snapshot, i: nat)
    requires OneCopy(s) && i < |s.players|
    ensures OneCopy(s.(players := Without(s.players, i)))
  {
  }

  lemma AddKeepsOneCopy(s: Snapshot, p: NativePlayer)
    requires OneCopy(s) && !s.OnSide(s.SideOf(p.franchise), p.id)
    ensures OneCopy(s.(players := s.players + [p]))
  {
    var after := s.(players := s.players + [p]);
    forall i | 0 <= i < |s.players| && s.players[i].id == p.id
      ensures s.SideOf(s.players[i].franchise) != s.SideOf(p.franchise)
    {
    }
  }

  /** A roster entry rewritten without changing whose copy it is. */
  lemma RewriteKeepsOneCopy(s: Snapshot, i: nat, p: NativePlayer)
    requires OneCopy(s) && i < |s.players|
    requires p.id == s.players[i].id && s.SideOf(p.franchise) == s.SideOf(s.players[i].franchise)
    ensures OneCopy(s.(players := s.players[i := p]))
  {
  }

  lemma UnawardKeepsOneCopy(s: Snapshot, winner: string, player: string)
    requires OneCopy(s) && Unaward(s, winner, player).Ok?
    ensures var bare := Unaward(s, winner, player).value;
            OneCopy(bare) && bare == s.(players := bare.players)
  {
    if winner != "" { DropKeepsOneCopy(s, s.PlayerOf(winner, player)); }
  }

  // ----- bids

  lemma BookUpdate(s: Snapshot, auctions: seq<BidAuction>, i: nat, a: BidAuction)
    requires BookSound(s, auctions) && i < |auctions| && AuctionSound(s, a)
    requires a.player == auctions[i].player && a.side == auctions[i].side && (auctions[i].decided ==> a.decided)
    ensures BookSound(s, auctions[i := a])
  {
  }

  lemma PlaceKeepsBook(s: Snapshot, auctions: seq<BidAuction>, r: Record)
    requires r.args.bid.Some? && r.args.bidOutcome.Some?
    requires BookSound(s, auctions) && PlaceBid(s, auctions, r).Ok?
    ensures BookSound(s, PlaceBid(s, auctions, r).value)
  {
    var args := r.args.bid.value;
    var side := s.SideOf(args.franchise);
    var i := Open(auctions, side, args.player);
    if i < 0 {
      var started := BidAuction(args.player, side, [NewBid(r)], false, "", "", [], [], 0, 0);
      assert AuctionSound(s, started);
      NoneOpen(s, auctions, side, args.player);
    } else {
      var a := auctions[i].(bids := auctions[i].bids + [NewBid(r)]);
      assert AuctionSound(s, a);
      BookUpdate(s, auctions, i, a);
    }
  }

  /** With none open, every auction of the copy is decided. */
  lemma NoneOpen(s: Snapshot, auctions: seq<BidAuction>, side: string, player: string)
    requires BookSound(s, auctions) && Open(auctions, side, player) < 0
    ensures forall k :: 0 <= k < |auctions| && auctions[k].player == player && auctions[k].side == side ==>
      auctions[k].decided
  {
    var newest := Latest(auctions, side, player);
    forall k | 0 <= k < |auctions| && auctions[k].player == player && auctions[k].side == side
      ensures auctions[k].decided
    {
      assert k <= newest;
    }
  }

  lemma RaiseKeepsBook(s: Snapshot, auctions: seq<BidAuction>, r: Record)
    requires r.args.bid.Some? && r.args.bidOutcome.Some?
    requires BookSound(s, auctions) && RaiseBid(auctions, r).Ok?
    ensures BookSound(s, RaiseBid(auctions, r).value)
  {
    var (i, j) := StandingBid(auctions, r.args.bid.value.bid).value;
    var a := auctions[i];
    var raised := a.(bids := a.bids[j := a.bids[j].(replaced := true)] + [NewBid(r)]);
    forall k | 0 <= k < |a.bids| && raised.bids[k].Live() ensures raised.bids[k].franchise != NewBid(r).franchise {
      assert a.bids[k].Live() && k != j && a.bids[j].Live();
    }
    BookUpdate(s, auctions, i, raised);
  }

  lemma WithdrawKeepsBook(s: Snapshot, auctions: seq<BidAuction>, bid: string)
    requires BookSound(s, auctions) && WithdrawBid(auctions, bid).Ok?
    ensures BookSound(s, WithdrawBid(auctions, bid).value)
  {
    var (i, j) := StandingBid(auctions, bid).value;
    var a := auctions[i];
    BookUpdate(s, auctions, i, a.(bids := a.bids[j := a.bids[j].(withdrawn := true)]));
  }

  /** A winner joins the side whose copy was sold, so an award keeps one copy a side. */
  lemma ReplaceBidKeepsOneCopy(s: Snapshot, a: BidAuction, o: BidOutcome)
    requires OneCopy(s) && AuctionSound(s, a) && ReplaceBidWinner(s, a, o).Ok?
    ensures var after := ReplaceBidWinner(s, a, o).value;
            OneCopy(after) && after == s.(players := after.players)
    ensures o.winner != "" ==> s.SideOf(o.winner) == a.side
  {
    UnawardKeepsOneCopy(s, a.winner, a.player);
    if o.winner != "" {
      var bare := Unaward(s, a.winner, a.player).value;
      AddKeepsOneCopy(bare, SignedBid(bare, a, a.bids[a.BidAt(o.winningBid)], o.season));
    }
  }

  lemma SoundOn(one: Snapshot, two: Snapshot, auctions: seq<BidAuction>, windows: seq<WaiverWindow>)
    requires one.sides == two.sides
    ensures BookSound(one, auctions) ==> BookSound(two, auctions)
    ensures ClaimsSound(one, windows) ==> ClaimsSound(two, windows)
  {
    forall i | 0 <= i < |auctions| ensures AuctionSound(one, auctions[i]) ==> AuctionSound(two, auctions[i]) {
    }
  }

  lemma AwardBidKeeps(l: League, r: Record)
    requires r.args.bid.Some? && r.args.bidOutcome.Some? && Kept(l) && AwardBid(l, r).Ok?
    ensures Kept(AwardBid(l, r).value) && AwardBid(l, r).value.assets.sides == l.assets.sides
  {
    var i := AwardedAuction(l.book.auctions, r).value;
    var a, o := l.book.auctions[i], r.args.bidOutcome.value;
    ReplaceBidKeepsOneCopy(l.assets, a, o);
    BookUpdate(l.assets, l.book.auctions, i, Decided(a, o, r.at));
    SoundOn(l.assets, AwardBid(l, r).value.assets, AwardBid(l, r).value.book.auctions, l.book.windows);
  }

  lemma BidKeeps(l: League, r: Record)
    requires Kept(l) && ProjectBid(l, r).Ok?
    ensures Kept(ProjectBid(l, r).value) && ProjectBid(l, r).value.assets.sides == l.assets.sides
  {
    if r.command.BidPlace? {
      PlaceKeepsBook(l.assets, l.book.auctions, r);
    } else if r.command.BidRaise? {
      RaiseKeepsBook(l.assets, l.book.auctions, r);
    } else if r.command.BidWithdraw? {
      WithdrawKeepsBook(l.assets, l.book.auctions, r.args.bid.value.bid);
    } else if r.command.BidsProcess? || r.command.BidsOverride? {
      AwardBidKeeps(l, r);
    }
  }

  // ----- waivers

  /** A claim comes from the side that cut the player: the check a claim meets before it is recorded. */
  ghost predicate ClaimOnSide(l: League, r: Record) {
    r.command.WaiverClaim? && r.args.waiver.Some? ==>
      var i := WindowAt(l.book.windows, r.args.waiver.value.window);
      i >= 0 ==> l.assets.SideOf(r.args.waiver.value.franchise) == l.book.windows[i].side
  }

  lemma ClaimKeepsOneCopy(bare: Snapshot, w: WaiverWindow, winner: string)
    requires OneCopy(bare) && !bare.OnSide(w.side, w.player.id) && bare.SideOf(winner) == w.side
    ensures OneCopy(bare.(players := bare.players + [Claimed(w, winner)]))
  {
    AddKeepsOneCopy(bare, Claimed(w, winner));
  }

  lemma ReplaceWaiverKeepsOneCopy(s: Snapshot, w: WaiverWindow, winner: string)
    requires OneCopy(s) && ReplaceWaiverWinner(s, w, winner).Ok?
    requires forall k :: 0 <= k < |w.claims| ==> s.SideOf(w.claims[k].franchise) == w.side
    ensures var after := ReplaceWaiverWinner(s, w, winner).value;
            OneCopy(after) && after == s.(players := after.players)
  {
    UnawardKeepsOneCopy(s, w.winner, w.player.id);
    if winner != "" {
      ClaimKeepsOneCopy(Unaward(s, w.winner, w.player.id).value, w, winner);
    }
  }

  lemma AwardWaiverKeeps(l: League, r: Record, o: WaiverOutcome)
    requires r.args.waiver.Some? && Kept(l) && AwardWaiver(l, r, o).Ok?
    ensures Kept(AwardWaiver(l, r, o).value) && AwardWaiver(l, r, o).value.assets.sides == l.assets.sides
  {
    var i := AwardedWindow(l.book.windows, r).value;
    ReplaceWaiverKeepsOneCopy(l.assets, l.book.windows[i], o.winner);
    var after := AwardWaiver(l, r, o).value;
    SoundOn(l.assets, after.assets, l.book.auctions, after.book.windows);
  }

  lemma CutKeeps(l: League, r: Record, args: WaiverArgs, o: WaiverOutcome)
    requires Kept(l) && CutPlayer(l, r, args, o).Ok?
    ensures Kept(CutPlayer(l, r, args, o).value) && CutPlayer(l, r, args, o).value.assets.sides == l.assets.sides
  {
    var after := CutPlayer(l, r, args, o).value;
    DropKeepsOneCopy(l.assets, l.assets.PlayerOf(args.franchise, args.player));
    SoundOn(l.assets, after.assets, after.book.auctions, after.book.windows);
  }

  lemma ReserveKeepsOneCopy(s: Snapshot, args: WaiverArgs, o: WaiverOutcome)
    requires OneCopy(s) && ReservePlayer(s, args, o).Ok?
    ensures OneCopy(ReservePlayer(s, args, o).value) && ReservePlayer(s, args, o).value.sides == s.sides
  {
    var i := s.PlayerOn(s.SideOf(args.franchise), args.player);
    RewriteKeepsOneCopy(s, i, ReservePlayer(s, args, o).value.players[i]);
  }

  lemma ClaimKeeps(l: League, r: Record, args: WaiverArgs)
    requires Kept(l) && ClaimPlayer(l.book, r, args).Ok?
    requires l.assets.SideOf(args.franchise) == l.book.windows[WindowAt(l.book.windows, args.window)].side
    ensures Kept(l.(book := ClaimPlayer(l.book, r, args).value))
  {
  }

  /** A claim, a reserve move or a new waiver order. */
  lemma LesserWaiverKeeps(l: League, r: Record)
    requires Kept(l) && ClaimOnSide(l, r) && ProjectWaiver(l, r).Ok?
    requires !r.command.WaiverProcess? && !r.command.WaiverOverride? && !r.command.RosterCut?
    ensures Kept(ProjectWaiver(l, r).value) && ProjectWaiver(l, r).value.assets.sides == l.assets.sides
  {
    if r.command.WaiverClaim? {
      ClaimKeeps(l, r, r.args.waiver.value);
    } else if r.command.RosterReserve? {
      ReserveKeepsOneCopy(l.assets, r.args.waiver.value, r.args.waiverOutcome.value);
      SoundOn(l.assets, ProjectWaiver(l, r).value.assets, l.book.auctions, l.book.windows);
    }
  }

  lemma WaiverKeeps(l: League, r: Record)
    requires Kept(l) && ClaimOnSide(l, r) && ProjectWaiver(l, r).Ok?
    ensures Kept(ProjectWaiver(l, r).value) && ProjectWaiver(l, r).value.assets.sides == l.assets.sides
  {
    if r.command.WaiverProcess? || r.command.WaiverOverride? {
      AwardWaiverKeeps(l, r, r.args.waiverOutcome.value);
    } else if r.command.RosterCut? {
      CutKeeps(l, r, r.args.waiver.value, r.args.waiverOutcome.value);
    } else {
      LesserWaiverKeeps(l, r);
    }
  }

  // ----- trades

  /** Both ends of every traded player are on one side: the check an offer meets before it is recorded. */
  ghost predicate AssetsOnSide(s: Snapshot, assets: seq<TradeAsset>) {
    forall k :: 0 <= k < |assets| && assets[k].player != "" ==>
      s.SideOf(assets[k].sender) == s.SideOf(assets[k].receiver)
  }

  ghost predicate TradeOnSide(l: League, r: Record) {
    r.args.tradeOutcome.Some? ==> AssetsOnSide(l.assets, r.args.tradeOutcome.value.assets)
  }

  lemma {:induction false} MoveKeepsOneCopy(s: Snapshot, assets: seq<TradeAsset>, reverse: bool)
    requires OneCopy(s) && AssetsOnSide(s, assets) && MoveAssets(s, assets, reverse).Ok?
    ensures var after := MoveAssets(s, assets, reverse).value;
            OneCopy(after) && after == s.(players := after.players, picks := after.picks)
    decreases |assets|
  {
    if assets != [] {
      var a, next := assets[0], MoveOne(s, assets[0], reverse).value;
      if a.player != "" {
        var i := s.PlayerOf(if reverse then a.receiver else a.sender, a.player);
        RewriteKeepsOneCopy(s, i, next.players[i]);
      }
      assert next.sides == s.sides;
      MoveKeepsOneCopy(next, assets[1..], reverse);
    }
  }

  lemma TradeKeeps(l: League, r: Record)
    requires Kept(l) && TradeOnSide(l, r) && ProjectTrade(l, r).Ok?
    ensures Kept(ProjectTrade(l, r).value) && ProjectTrade(l, r).value.assets.sides == l.assets.sides
  {
    var outcome, after := r.args.tradeOutcome.value, ProjectTrade(l, r).value;
    var i := TradeAt(l.book.trades, outcome.id);
    var before := !r.command.TradeOffer? && l.book.trades[i].status == APPROVED;
    if before != (outcome.status == APPROVED) { MoveKeepsOneCopy(l.assets, outcome.assets, before); }
    SoundOn(l.assets, after.assets, l.book.auctions, l.book.windows);
  }
}
