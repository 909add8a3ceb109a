/** The market's book changed in place, and the projection's fold over the ledger run on live state. */
module MarketState {
  import opened Assets
  import opened Records
  import opened Market
  import opened LeagueState

  class Board {
    var oline: Option<OLineOutcome>
    var windows: seq<WaiverWindow>
    var baseOrder: seq<string>
    var order: seq<string>
    var orderSeason: int
    var source: string
    var auctions: seq<BidAuction>
    var trades: seq<TradeState>

    function View(): MarketBook
      reads this
    {
      MarketBook(oline, windows, baseOrder, order, orderSeason, source, auctions, trades)
    }

    constructor ()
      ensures View() == EMPTY_BOOK
    {
      oline, windows, baseOrder, order, orderSeason := None, [], [], [], 0;
      source, auctions, trades := "", [], [];
    }

    /** Looks for the lot from the last auction back. */
    method FindOpen(side: string, player: string) returns (i: int)
      ensures i == Open(auctions, side, player)
    {
      assert auctions[..|auctions|] == auctions;
      i := |auctions| - 1;
      while i >= 0
        invariant -1 <= i < |auctions|
        invariant Latest(auctions[..i + 1], side, player) == Latest(auctions, side, player)
      {
        if auctions[i].player == player && auctions[i].side == side {
          return if auctions[i].decided then -1 else i;
        }
        assert auctions[..i + 1][..i] == auctions[..i];
        i := i - 1;
      }
    }

    method PlaceBidInPlace(h: Holdings, r: Record) returns (answer: Answer)
      requires r.args.bid.Some? && r.args.bidOutcome.Some?
      modifies this`auctions
      ensures answer.Accepted? <==> PlaceBid(h.View(), old(auctions), r).Ok?
      ensures answer.Accepted? ==> PlaceBid(h.View(), old(auctions), r) == Ok(auctions)
    {
      var args := r.args.bid.value;
      var side := h.View().SideOf(args.franchise);
      if h.View().OnSide(side, args.player) {
        return Because(NOT_FREE);
      }
      var i := FindOpen(side, args.player);
      if i < 0 {
        auctions := auctions + [BidAuction(args.player, side, [NewBid(r)], false, "", "", [], [], 0, 0)];
        return Accepted;
      }
      if auctions[i].ActiveFor(args.franchise) >= 0 {
        return Because("this franchise already has a bid on this player");
      }
      auctions := auctions[i := auctions[i].(bids := auctions[i].bids + [NewBid(r)])];
      return Accepted;
    }

    method RaiseBidInPlace(r: Record) returns (answer: Answer)
      requires r.args.bid.Some? && r.args.bidOutcome.Some?
      modifies this`auctions
      ensures answer.Accepted? <==> RaiseBid(old(auctions), r).Ok?
      ensures answer.Accepted? ==> RaiseBid(old(auctions), r) == Ok(auctions)
    {
      var standing := StandingBid(auctions, r.args.bid.value.bid);
      if standing.Refused? {
        return Because(standing.words);
      }
      var (i, j) := standing.value;
      var a := auctions[i];
      if a.bids[j].franchise != r.args.bid.value.franchise {
        return Because(LATER_BIDS);
      }
      var bids := a.bids[j := a.bids[j].(replaced := true)];
      auctions := auctions[i := a.(bids := bids + [NewBid(r)])];
      return Accepted;
    }

    method WithdrawBidInPlace(bid: string) returns (answer: Answer)
      modifies this`auctions
      ensures answer.Accepted? <==> WithdrawBid(old(auctions), bid).Ok?
      ensures answer.Accepted? ==> WithdrawBid(old(auctions), bid) == Ok(auctions)
    {
      var standing := StandingBid(auctions, bid);
      if standing.Refused? {
        return Because(standing.words);
      }
      var (i, j) := standing.value;
      auctions := auctions[i := auctions[i].(bids := auctions[i].bids[j := auctions[i].bids[j].(withdrawn := true)])];
      return Accepted;
    }

    /** The auction and the rosters take one award together: the replaced winner's contract goes, the new winner's
        is signed. */
    method AwardBidInPlace(h: Holdings, r: Record) returns (answer: Answer)
      requires r.args.bid.Some? && r.args.bidOutcome.Some?
      modifies this`auctions, h`players
      ensures answer.Accepted? <==> AwardBid(old(League(h.View(), View())), r).Ok?
      ensures answer.Accepted? ==> AwardBid(old(League(h.View(), View())), r) == Ok(League(h.View(), View()))
    {
      var which := AwardedAuction(auctions, r);
      if which.Refused? {
        return Because(which.words);
      }
      var a, o := auctions[which.value], r.args.bidOutcome.value;
      answer := h.ReplaceWinnerOfBids(a, o);
      if answer.Accepted? {
        auctions := auctions[which.value := Decided(a, o, r.at)];
      }
    }

    method ProjectBidInPlace(h: Holdings, r: Record) returns (answer: Answer)
      modifies this`auctions, h`players
      ensures answer.Accepted? <==> ProjectBid(old(League(h.View(), View())), r).Ok?
      ensures answer.Accepted? ==> ProjectBid(old(League(h.View(), View())), r) == Ok(League(h.View(), View()))
    {
      if r.args.bid.None? || r.args.bidOutcome.None? {
        return Because(NO_DETAILS);
      }
      match r.command {
        case BidPlace => answer := PlaceBidInPlace(h, r);
        case BidRaise => answer := RaiseBidInPlace(r);
        case BidWithdraw => answer := WithdrawBidInPlace(r.args.bid.value.bid);
        case BidsProcess => answer := AwardBidInPlace(h, r);
        case BidsOverride => answer := AwardBidInPlace(h, r);
        case _ => return Accepted;
      }
    }

    method CutInPlace(h: Holdings, r: Record, args: WaiverArgs, o: WaiverOutcome) returns (answer: Answer)
      modifies this`windows, h`players, h`adjustments
      ensures answer.Accepted? <==> CutPlayer(old(League(h.View(), View())), r, args, o).Ok?
      ensures answer.Accepted? ==>
        CutPlayer(old(League(h.View(), View())), r, args, o) == Ok(League(h.View(), View()))
    {
      if o.player.None? {
        return Because("a cut has no recorded contract");
      }
      var i := h.View().PlayerOf(args.franchise, args.player);
      if i < 0 || h.players[i] != o.player.value {
        return Because("a later cut depends on the earlier roster change; reverse it first");
      }
      h.players := h.players[..i] + h.players[i + 1..];
      var name := if o.player.value.name != "" then o.player.value.name else args.player;
      h.adjustments := h.adjustments + [NativeCharge(r.entry, args.franchise, o.dead, o.season,
                                                     "Dead money for released player " + name)];
      windows := windows + [WaiverWindow(r.entry, h.View().SideOf(args.franchise), o.player.value, r.at, o.season, o.dead,
                                         [], false, "", 0, [], [])];
      return Accepted;
    }

    method AwardWaiverInPlace(h: Holdings, r: Record, o: WaiverOutcome) returns (answer: Answer)
      requires r.args.waiver.Some?
      modifies this, h`players, h`adjustments
      ensures answer.Accepted? <==> AwardWaiver(old(League(h.View(), View())), r, o).Ok?
      ensures answer.Accepted? ==>
        AwardWaiver(old(League(h.View(), View())), r, o) == Ok(League(h.View(), View()))
    {
      var which := AwardedWindow(windows, r);
      if which.Refused? {
        return Because(which.words);
      }
      var w := windows[which.value];
      answer := h.ReplaceWinnerOfWaiver(w, o.winner);
      if answer.Because? {
        return;
      }
      h.Recharge(w.id, DeadAmount(w, o));
      windows := windows[which.value := Processed(w, o)];
      if baseOrder == [] {
        baseOrder := o.priorOrder;
      }
      order, orderSeason, source := o.order, o.season, o.source;
    }

    method ClaimInPlace(r: Record, args: WaiverArgs) returns (answer: Answer)
      modifies this`windows
      ensures answer.Accepted? <==> ClaimPlayer(old(View()), r, args).Ok?
      ensures answer.Accepted? ==> ClaimPlayer(old(View()), r, args) == Ok(View())
    {
      var i := WindowAt(windows, args.window);
      if i < 0 {
        return Because("choose a recorded waiver window");
      }
      var w := windows[i];
      if w.processed {
        return Because("reverse the waiver award before reversing its claims");
      }
      windows := windows[i := w.(claims := w.claims + [BookClaim(r.entry, args.franchise, r.principal)])];
      return Accepted;
    }

    method ReserveInPlace(h: Holdings, args: WaiverArgs, o: WaiverOutcome) returns (answer: Answer)
      modifies h`players
      ensures answer.Accepted? <==> ReservePlayer(old(h.View()), args, o).Ok?
      ensures answer.Accepted? ==> ReservePlayer(old(h.View()), args, o) == Ok(h.View())
    {
      if o.player.None? {
        return Because("a reserve move has no recorded player");
      }
      var i := h.View().PlayerOn(h.View().SideOf(args.franchise), args.player);
      if i < 0 {
        return Because("the reserve player is no longer on this roster");
      }
      if h.players[i] != o.player.value || h.players[i].franchise != args.franchise {
        return Because("reverse the later roster changes first");
      }
      h.players := h.players[i := h.players[i].(status := ReserveStatus(args.bucket))];
      return Accepted;
    }

    method ProjectWaiverInPlace(h: Holdings, r: Record) returns (answer: Answer)
      modifies this, h`players, h`adjustments
      ensures answer.Accepted? <==> ProjectWaiver(old(League(h.View(), View())), r).Ok?
      ensures answer.Accepted? ==> ProjectWaiver(old(League(h.View(), View())), r) == Ok(League(h.View(), View()))
    {
      if r.args.waiver.None? {
        return Because("a waiver change has no details");
      }
      if !r.command.WaiverClaim? && r.args.waiverOutcome.None? {
        return Because("a waiver change has no recorded decision");
      }
      var args := r.args.waiver.value;
      match r.command {
        case WaiverClaim =>
          answer := ClaimInPlace(r, args);
        case RosterReserve =>
          answer := ReserveInPlace(h, args, r.args.waiverOutcome.value);
        case RosterCut => answer := CutInPlace(h, r, args, r.args.waiverOutcome.value);
        case WaiverOrderSet => SetOrder(r.args.waiverOutcome.value); return Accepted;
        case WaiverOrderAuto => SetOrder(r.args.waiverOutcome.value); return Accepted;
        case WaiverProcess => answer := AwardWaiverInPlace(h, r, r.args.waiverOutcome.value);
        case WaiverOverride => answer := AwardWaiverInPlace(h, r, r.args.waiverOutcome.value);
        case _ => return Accepted;
      }
    }

    method SetOrder(o: WaiverOutcome)
      modifies this
      ensures View() ==
        old(View()).(order := o.order, orderSeason := o.season, source := o.source, baseOrder := o.order)
    {
      order, orderSeason, source, baseOrder := o.order, o.season, o.source, o.order;
    }

    method ProjectTradeInPlace(h: Holdings, r: Record) returns (answer: Answer)
      modifies this`trades, h`players, h`picks
      ensures answer.Accepted? <==> ProjectTrade(old(League(h.View(), View())), r).Ok?
      ensures answer.Accepted? ==> ProjectTrade(old(League(h.View(), View())), r) == Ok(League(h.View(), View()))
    {
      if r.args.tradeOutcome.None? {
        return Because("a trade action has no recorded outcome");
      }
      var t := r.args.tradeOutcome.value;
      var i := TradeAt(trades, t.id);
      var before := false;
      if r.command.TradeOffer? {
        if i >= 0 {
          return Because("this trade was already offered");
        }
        t := t.(id := r.entry);
      } else {
        if i < 0 {
          return Because("reverse the later trade actions first");
        }
        if t.previous != Some(trades[i]) {
          return Because("undo the later trade actions first");
        }
        before := trades[i].status == APPROVED;
      }
      if before != (t.status == APPROVED) {
        answer := h.MoveTradeAssets(t.assets, before);
        if answer.Because? {
          return;
        }
      }
      trades := if i < 0 then trades + [t] else trades[i := t];
      return Accepted;
    }
  }
}
