/** The market's book and what each market entry does to it and to the rosters: free-agent bids, waivers and
    trades. Every outcome was fixed when the entry was recorded; here it is only applied. */
module Market {
  import opened Assets
  import opened Records

  datatype BidRecord = BidRecord(id: string, franchise: string, principal: string, salary: int, years: int,
                                 points: int, placedAt: int, replaced: bool, withdrawn: bool)
  {
    predicate Live() {
      !replaced && !withdrawn
    }
  }

  datatype BidAuction = BidAuction(player: string, side: string, bids: seq<BidRecord>, decided: bool,
                                   winner: string, winningBid: string, tied: seq<string>,
                                   results: seq<Fared>, season: int, decidedAt: int)
  {
    /** Where the franchise's first standing bid is listed, or -1. */
    function ActiveFor(franchise: string): int {
      IndexFunc(bids, (b: BidRecord) => b.franchise == franchise && b.Live())
    }

    function BidAt(id: string): int {
      IndexFunc(bids, (b: BidRecord) => b.id == id)
    }
  }

  datatype BookClaim = BookClaim(id: string, franchise: string, principal: string)

  datatype WaiverWindow = WaiverWindow(id: string, side: string, player: NativePlayer, cutAt: int, season: int,
                                       dead: int, claims: seq<BookClaim>, processed: bool, winner: string,
                                       closedAt: int, results: seq<Fared>, priorOrder: seq<string>)

  datatype MarketBook = MarketBook(oline: Option<OLineOutcome>, windows: seq<WaiverWindow>, baseOrder: seq<string>,
                                   order: seq<string>, orderSeason: int, source: string,
                                   auctions: seq<BidAuction>, trades: seq<TradeState>)

  const EMPTY_BOOK := MarketBook(None, [], [], [], 0, "", [], [])

  /** Rosters and book together, as the ledger's market entries change them. */
  datatype League = League(assets: Snapshot, book: MarketBook)

  // ----- the bid book

  /** The highest index at which the side auctions the player, or -1. */
  function Latest(auctions: seq<BidAuction>, side: string, player: string): (i: int)
    ensures -1 <= i < |auctions|
    ensures i >= 0 ==> auctions[i].player == player && auctions[i].side == side
    ensures forall k :: i < k < |auctions| ==> !(auctions[k].player == player && auctions[k].side == side)
  {
    var n := |auctions| - 1;
    if n < 0 then -1
    else if auctions[n].player == player && auctions[n].side == side then n
    else Latest(auctions[..n], side, player)
  }

  /** That index if the auction there is undecided, or -1. */
  function Open(auctions: seq<BidAuction>, side: string, player: string): (i: int)
    ensures -1 <= i < |auctions|
    ensures i >= 0 ==> auctions[i].player == player && auctions[i].side == side && !auctions[i].decided
    ensures i >= 0 <==> exists k :: 0 <= k < |auctions| && Newest(auctions, k, side, player) && !auctions[k].decided
  {
    var i := Latest(auctions, side, player);
    if i < 0 || auctions[i].decided then -1 else i
  }

  /** Auction k is of the side's copy and none after it is. */
  ghost predicate Newest(auctions: seq<BidAuction>, k: nat, side: string, player: string)
    requires k < |auctions|
  {
    && auctions[k].player == player && auctions[k].side == side
    && forall m :: k < m < |auctions| ==> !(auctions[m].player == player && auctions[m].side == side)
  }

  /** The auction that holds the bid; -1 for none. */
  function AuctionOf(auctions: seq<BidAuction>, bid: string): (i: int)
    ensures -1 <= i < |auctions|
    ensures i >= 0 ==> auctions[i].BidAt(bid) >= 0
  {
    IndexFunc(auctions, (a: BidAuction) => a.BidAt(bid) >= 0)
  }

  const NO_DETAILS := "a bid change has no recorded details"
  const NOT_FREE := "this player already belongs to a roster"
  const LATER_BIDS := "reverse the later bid changes before reversing this one"
  const LATER_ROSTER := "a later roster change depends on this award; reverse it first"

  function NewBid(r: Record): BidRecord
    requires r.args.bid.Some? && r.args.bidOutcome.Some?
  {
    var args := r.args.bid.value;
    BidRecord(r.entry, args.franchise, r.principal, args.salary, args.years, r.args.bidOutcome.value.points, r.at,
              false, false)
  }

  function PlaceBid(s: Snapshot, auctions: seq<BidAuction>, r: Record): Result<seq<BidAuction>>
    requires r.args.bid.Some? && r.args.bidOutcome.Some?
  {
    var args := r.args.bid.value;
    var side := s.SideOf(args.franchise);
    if s.OnSide(side, args.player) then Refused(NOT_FREE)
    else
      var i := Open(auctions, side, args.player);
      if i < 0 then
        Ok(auctions + [BidAuction(args.player, side, [NewBid(r)], false, "", "", [], [], 0, 0)])
      else if auctions[i].ActiveFor(args.franchise) >= 0 then
        Refused("this franchise already has a bid on this player")
      else Ok(auctions[i := auctions[i].(bids := auctions[i].bids + [NewBid(r)])])
  }

  /** Auction i is the first that lists the bid. */
  ghost predicate FirstHolds(auctions: seq<BidAuction>, i: nat, bid: string)
    requires i < |auctions|
  {
    auctions[i].BidAt(bid) >= 0 && forall k :: 0 <= k < i ==> auctions[k].BidAt(bid) < 0
  }

  /** Where a live bid of an undecided auction stands: its auction and its place in it. */
  function StandingBid(auctions: seq<BidAuction>, bid: string): (r: Result<(nat, nat)>)
    ensures r.Ok? ==> r.value.0 < |auctions| && r.value.1 < |auctions[r.value.0].bids|
    ensures r.Ok? ==> !auctions[r.value.0].decided && auctions[r.value.0].bids[r.value.1].Live()
    ensures r.Ok? ==> auctions[r.value.0].bids[r.value.1].id == bid
    ensures r.Refused? ==> forall i :: 0 <= i < |auctions| && FirstHolds(auctions, i, bid) ==>
      auctions[i].decided || !auctions[i].bids[auctions[i].BidAt(bid)].Live()
  {
    var i := AuctionOf(auctions, bid);
    if i < 0 then Refused("choose a recorded bid")
    else
      var j := auctions[i].BidAt(bid);
      if auctions[i].decided || !auctions[i].bids[j].Live() then Refused(LATER_BIDS) else Ok((i, j))
  }

  function RaiseBid(auctions: seq<BidAuction>, r: Record): Result<seq<BidAuction>>
    requires r.args.bid.Some? && r.args.bidOutcome.Some?
  {
    var (i, j) :- StandingBid(auctions, r.args.bid.value.bid);
    var a := auctions[i];
    if a.bids[j].franchise != r.args.bid.value.franchise then Refused(LATER_BIDS)
    else Ok(auctions[i := a.(bids := a.bids[j := a.bids[j].(replaced := true)] + [NewBid(r)])])
  }

  function WithdrawBid(auctions: seq<BidAuction>, bid: string): Result<seq<BidAuction>> {
    var (i, j) :- StandingBid(auctions, bid);
    var a := auctions[i];
    Ok(auctions[i := a.(bids := a.bids[j := a.bids[j].(withdrawn := true)])])
  }

  /** The roster without an earlier award's winner of the player. */
  function Unaward(s: Snapshot, winner: string, player: string): Result<Snapshot> {
    if winner == "" then Ok(s)
    else
      var i := s.PlayerOf(winner, player);
      if i < 0 then Refused(LATER_ROSTER) else Ok(s.(players := Without(s.players, i)))
  }

  /** The contract a winning bid signs. */
  function SignedBid(s: Snapshot, a: BidAuction, bid: BidRecord, season: int): NativePlayer {
    var lot := s.PoolOn(a.side, a.player);
    NativePlayer(a.player, if lot >= 0 then s.pool[lot].name else "", bid.franchise, Active, bid.salary,
                 season + bid.years - 1, UFA, WonBid(bid.salary, bid.years), 0, "", "")
  }

  function ReplaceBidWinner(s: Snapshot, a: BidAuction, o: BidOutcome): Result<Snapshot> {
    var bare :- Unaward(s, a.winner, a.player);
    if o.winner == "" then Ok(bare)
    else if bare.OnSide(a.side, a.player) then Refused(NOT_FREE)
    else
      var won := a.BidAt(o.winningBid);
      if won < 0 || a.bids[won].franchise != o.winner then
        Refused("the winning bid is not a recorded bid of the winner")
      else Ok(bare.(players := bare.players + [SignedBid(bare, a, a.bids[won], o.season)]))
  }

  function Decided(a: BidAuction, o: BidOutcome, at: int): BidAuction {
    a.(decided := true, winner := o.winner, winningBid := o.winningBid, tied := o.tied, results := o.results,
       season := o.season, decidedAt := at)
  }

  /** Which auction a decision or a correction of one is about. */
  function AwardedAuction(auctions: seq<BidAuction>, r: Record): (i: Result<nat>)
    requires r.args.bid.Some?
    ensures i.Ok? ==> i.value < |auctions|
    ensures i.Ok? ==> i.value == Latest(auctions, auctions[i.value].side, auctions[i.value].player)
    ensures i.Ok? ==> auctions[i.value].decided == !r.command.BidsProcess?
    ensures i.Ok? && r.command.BidsProcess? ==>
      auctions[i.value].side == r.args.bid.value.side && auctions[i.value].player == r.args.bid.value.player
    ensures i.Refused? && r.command.BidsProcess? ==> forall k :: 0 <= k < |auctions| ==>
      !(Newest(auctions, k, r.args.bid.value.side, r.args.bid.value.player) && !auctions[k].decided)
    ensures i.Ok? && !r.command.BidsProcess? ==> FirstHolds(auctions, i.value, r.args.bid.value.bid)
    ensures i.Refused? && !r.command.BidsProcess? ==> forall k :: 0 <= k < |auctions| ==>
      !(FirstHolds(auctions, k, r.args.bid.value.bid) && auctions[k].decided
        && Newest(auctions, k, auctions[k].side, auctions[k].player))
  {
    var args := r.args.bid.value;
    if r.command.BidsProcess? then
      var i := Open(auctions, args.side, args.player);
      if i < 0 then Refused("this player has no bids waiting for a decision") else Ok(i as nat)
    else
      var i := AuctionOf(auctions, args.bid);
      if i < 0 then Refused("choose a recorded bid")
      else if !auctions[i].decided || Latest(auctions, auctions[i].side, auctions[i].player) != i then
        Refused("correct only the newest decision on a player")
      else Ok(i as nat)
  }

  function AwardBid(l: League, r: Record): Result<League>
    requires r.args.bid.Some? && r.args.bidOutcome.Some?
  {
    var i :- AwardedAuction(l.book.auctions, r);
    var a, o := l.book.auctions[i], r.args.bidOutcome.value;
    var assets :- ReplaceBidWinner(l.assets, a, o);
    Ok(League(assets, l.book.(auctions := l.book.auctions[i := Decided(a, o, r.at)])))
  }

  function ProjectBid(l: League, r: Record): Result<League> {
    if r.args.bid.None? || r.args.bidOutcome.None? then Refused(NO_DETAILS)
    else
      var command := r.command;
      if command.BidPlace? then
        var auctions :- PlaceBid(l.assets, l.book.auctions, r);
        Ok(l.(book := l.book.(auctions := auctions)))
      else if command.BidRaise? then
        var auctions :- RaiseBid(l.book.auctions, r);
        Ok(l.(book := l.book.(auctions := auctions)))
      else if command.BidWithdraw? then
        var auctions :- WithdrawBid(l.book.auctions, r.args.bid.value.bid);
        Ok(l.(book := l.book.(auctions := auctions)))
      else if command.BidsProcess? || command.BidsOverride? then AwardBid(l, r)
      else Ok(l)
  }

  // ----- waivers

  function WindowAt(windows: seq<WaiverWindow>, id: string): (i: int)
    ensures -1 <= i < |windows|
  {
    IndexFunc(windows, (w: WaiverWindow) => w.id == id)
  }

  /** The first window that lists the claim, or -1. */
  function ClaimWindow(windows: seq<WaiverWindow>, claim: string): (i: int)
    ensures -1 <= i < |windows|
  {
    IndexFunc(windows, (w: WaiverWindow) => IndexFunc(w.claims, (c: BookClaim) => c.id == claim) >= 0)
  }

  predicate Claims(w: WaiverWindow, franchise: string) {
    exists k :: 0 <= k < |w.claims| && w.claims[k].franchise == franchise
  }

  function CutPlayer(l: League, r: Record, args: WaiverArgs, o: WaiverOutcome): Result<League> {
    if o.player.None? then Refused("a cut has no recorded contract")
    else
      var s := l.assets;
      var i := s.PlayerOf(args.franchise, args.player);
      if i < 0 || s.players[i] != o.player.value then
        Refused("a later cut depends on the earlier roster change; reverse it first")
      else
        var name := if o.player.value.name != "" then o.player.value.name else args.player;
        var charge := NativeCharge(r.entry, args.franchise, o.dead, o.season,
                                   "Dead money for released player " + name);
        var w := WaiverWindow(r.entry, s.SideOf(args.franchise), o.player.value, r.at, o.season, o.dead, [], false, "",
                              0, [], []);
        Ok(League(s.(players := Without(s.players, i), adjustments := s.adjustments + [charge]),
                  l.book.(windows := l.book.windows + [w])))
  }

  function ReserveStatus(bucket: string): Status {
    if bucket == "ir" then IR else if bucket == "taxi" then Taxi else Active
  }

  function ReservePlayer(s: Snapshot, args: WaiverArgs, o: WaiverOutcome): Result<Snapshot> {
    if o.player.None? then Refused("a reserve move has no recorded player")
    else
      var i := s.PlayerOn(s.SideOf(args.franchise), args.player);
      if i < 0 then Refused("the reserve player is no longer on this roster")
      else if s.players[i] != o.player.value || s.players[i].franchise != args.franchise then
        Refused("reverse the later roster changes first")
      else Ok(s.(players := s.players[i := s.players[i].(status := ReserveStatus(args.bucket))]))
  }

  function ClaimPlayer(book: MarketBook, r: Record, args: WaiverArgs): Result<MarketBook> {
    var i := WindowAt(book.windows, args.window);
    if i < 0 then Refused("choose a recorded waiver window")
    else
      var w := book.windows[i];
      if w.processed then Refused("reverse the waiver award before reversing its claims")
      else
        Ok(book.(windows := book.windows[i := w.(claims := w.claims + [BookClaim(r.entry, args.franchise, r.principal)])]))
  }

  /** The contract a waiver winner takes over. */
  function Claimed(w: WaiverWindow, winner: string): NativePlayer {
    w.player.(franchise := winner, status := Active)
  }

  function ReplaceWaiverWinner(s: Snapshot, w: WaiverWindow, winner: string): Result<Snapshot> {
    var bare :- Unaward(s, w.winner, w.player.id);
    if bare.OnSide(w.side, w.player.id) then Refused(NOT_FREE)
    else if winner == "" then Ok(bare)
    else if !Claims(w, winner) then Refused("reverse the award before reversing its winning claim")
    else Ok(bare.(players := bare.players + [Claimed(w, winner)]))
  }

  /** The cut's charge under a decision: the recorded dead money, or nothing where a claim clears it. */
  function DeadAmount(w: WaiverWindow, o: WaiverOutcome): int {
    if o.winner != "" && o.clearsDead then 0 else w.dead
  }

  function Recharged(charges: seq<NativeCharge>, id: string, amount: int): (out: seq<NativeCharge>)
    ensures |out| == |charges|
    ensures forall k :: 0 <= k < |out| ==>
      out[k] == if charges[k].id == id then charges[k].(amount := amount) else charges[k]
  {
    seq(|charges|, k requires 0 <= k < |charges| =>
      if charges[k].id == id then charges[k].(amount := amount) else charges[k])
  }

  function Processed(w: WaiverWindow, o: WaiverOutcome): WaiverWindow {
    w.(processed := true, winner := o.winner, closedAt := o.closeAt, results := o.results,
       priorOrder := o.priorOrder)
  }

  function AwardedWindow(windows: seq<WaiverWindow>, r: Record): (i: Result<nat>)
    requires r.args.waiver.Some?
    ensures i.Ok? ==> i.value < |windows|
    ensures i.Ok? && r.command.WaiverProcess? ==> !windows[i.value].processed
    ensures i.Ok? && r.command.WaiverOverride? ==> windows[i.value].processed
  {
    var i := if r.command.WaiverOverride? then ClaimWindow(windows, r.args.waiver.value.claim)
             else WindowAt(windows, r.args.waiver.value.window);
    if i < 0 then Refused("choose a recorded waiver window or claim")
    else if r.command.WaiverProcess? && windows[i].processed then Refused("this waiver window was already processed")
    else if r.command.WaiverOverride? && !windows[i].processed then
      Refused("process the waiver window before correcting its award")
    else Ok(i as nat)
  }

  function AwardWaiver(l: League, r: Record, o: WaiverOutcome): Result<League>
    requires r.args.waiver.Some?
  {
    var i :- AwardedWindow(l.book.windows, r);
    var w := l.book.windows[i];
    var assets :- ReplaceWaiverWinner(l.assets, w, o.winner);
    var charged := assets.(adjustments := Recharged(assets.adjustments, w.id, DeadAmount(w, o)));
    Ok(League(charged,
              l.book.(windows := l.book.windows[i := Processed(w, o)],
                      baseOrder := if l.book.baseOrder == [] then o.priorOrder else l.book.baseOrder,
                      order := o.order, orderSeason := o.season, source := o.source)))
  }

  function ProjectWaiver(l: League, r: Record): Result<League> {
    if r.args.waiver.None? then Refused("a waiver change has no details")
    else if !r.command.WaiverClaim? && r.args.waiverOutcome.None? then
      Refused("a waiver change has no recorded decision")
    else
      var args := r.args.waiver.value;
      var command := r.command;
      if command.WaiverClaim? then
        var book :- ClaimPlayer(l.book, r, args);
        Ok(l.(book := book))
      else
        var o := r.args.waiverOutcome.value;
        if command.RosterReserve? then
          var assets :- ReservePlayer(l.assets, args, o);
          Ok(l.(assets := assets))
        else if command.RosterCut? then CutPlayer(l, r, args, o)
        else if command.WaiverOrderSet? || command.WaiverOrderAuto? then
          Ok(l.(book := l.book.(order := o.order, orderSeason := o.season, source := o.source, baseOrder := o.order)))
        else if command.WaiverProcess? || command.WaiverOverride? then AwardWaiver(l, r, o)
        else Ok(l)
  }

  // ----- trades

  const APPROVED := "approved"

  function PickAt(picks: seq<NativePick>, a: TradeAsset, owner: string): (i: int)
    ensures -1 <= i < |picks|
    ensures i >= 0 ==> picks[i].season == a.season && picks[i].round == a.round && picks[i].original == a.original &&
                       picks[i].owner == owner
  {
    IndexFunc(picks, (p: NativePick) =>
      p.season == a.season && p.round == a.round && p.original == a.original && p.owner == owner)
  }

  predicate Unspent(p: NativePick) {
    p.player == "" && !p.skipped && p.slot == 0 && !p.compensatory
  }

  function MoveOne(s: Snapshot, a: TradeAsset, reverse: bool): Result<Snapshot> {
    var from := if reverse then a.receiver else a.sender;
    var target := if reverse then a.sender else a.receiver;
    if a.player != "" then
      var i := s.PlayerOf(from, a.player);
      if i < 0 then Refused("a traded player no longer belongs to the sending team; undo the later asset change first")
      else Ok(s.(players := s.players[i := s.players[i].(franchise := target)]))
    else
      var i := PickAt(s.picks, a, from);
      if i < 0 || !Unspent(s.picks[i]) then
        Refused("a traded pick is no longer available; undo the later pick change first")
      else Ok(s.(picks := s.picks[i := s.picks[i].(owner := target)]))
  }

  function MoveAssets(s: Snapshot, assets: seq<TradeAsset>, reverse: bool): Result<Snapshot>
    decreases |assets|
  {
    if assets == [] then Ok(s)
    else
      var next :- MoveOne(s, assets[0], reverse);
      MoveAssets(next, assets[1..], reverse)
  }

  function TradeAt(trades: seq<TradeState>, id: string): (i: int)
    ensures -1 <= i < |trades|
    ensures i >= 0 ==> trades[i].id == id
  {
    IndexFunc(trades, (t: TradeState) => t.id == id)
  }

  function ProjectTrade(l: League, r: Record): Result<League> {
    if r.args.tradeOutcome.None? then Refused("a trade action has no recorded outcome")
    else
      var outcome := r.args.tradeOutcome.value;
      var i := TradeAt(l.book.trades, outcome.id);
      if r.command.TradeOffer? then
        if i >= 0 then Refused("this trade was already offered")
        else SettleTrade(l, |l.book.trades|, outcome.(id := r.entry), false)
      else if i < 0 then Refused("reverse the later trade actions first")
      else if outcome.previous != Some(l.book.trades[i]) then Refused("undo the later trade actions first")
      else SettleTrade(l, i, outcome, l.book.trades[i].status == APPROVED)
  }

  /** Records the trade's new state, and moves its assets when it becomes or stops being approved. */
  function SettleTrade(l: League, i: nat, t: TradeState, before: bool): Result<League>
    requires i <= |l.book.trades|
  {
    var trades := if i == |l.book.trades| then l.book.trades + [t] else l.book.trades[i := t];
    if before == (t.status == APPROVED) then Ok(l.(book := l.book.(trades := trades)))
    else
      var assets :- MoveAssets(l.assets, t.assets, before);
      Ok(League(assets, l.book.(trades := trades)))
  }
}
