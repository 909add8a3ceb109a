/** What a winning bid signs. Every bid of the book carries the terms of the entry that placed or raised it, and the winner's
    roster entry carries those of his bid. */
module BidContracts {
  import opened Assets
  import opened Records
  import opened Replay
  import opened Market
  import opened Projector

  // ----- the bids of the book

  /** The entry recorded the bid: its terms, its franchise and whoever sent it, and the player if it opened the bidding. */
  predicate RecordsBid(r: Record, a: BidAuction, b: BidRecord) {
    && (r.command.BidPlace? || r.command.BidRaise?) && r.args.bid.Some? && r.args.bidOutcome.Some?
    && var args := r.args.bid.value;
    && b.id == r.entry && b.franchise == args.franchise && b.principal == r.principal && b.placedAt == r.at
    && b.salary == args.salary && b.years == args.years && b.points == r.args.bidOutcome.value.points
    && (r.command.BidPlace? ==> a.player == args.player)
  }

  ghost predicate RecordedBefore(records: seq<Record>, active: Active, n: nat, a: BidAuction, b: BidRecord)
    requires n <= |records|
  {
    exists k :: 0 <= k < n && On(active, records[k].entry) && RecordsBid(records[k], a, b)
  }

  ghost predicate BidsOf(records: seq<Record>, active: Active, n: nat, a: BidAuction)
    requires n <= |records|
  {
    forall j :: 0 <= j < |a.bids| ==> RecordedBefore(records, active, n, a, a.bids[j])
  }

  /** Every bid of the book was recorded by an entry in force among the first n. */
  ghost predicate BidsRecorded(records: seq<Record>, active: Active, n: nat, auctions: seq<BidAuction>)
    requires n <= |records|
  {
    forall i :: 0 <= i < |auctions| ==> BidsOf(records, active, n, auctions[i])
  }

  lemma RecordedLater(records: seq<Record>, active: Active, n: nat, auctions: seq<BidAuction>)
    requires n < |records| && BidsRecorded(records, active, n, auctions)
    ensures BidsRecorded(records, active, n + 1, auctions)
  {
    forall i | 0 <= i < |auctions| ensures BidsOf(records, active, n + 1, auctions[i]) {
      forall j | 0 <= j < |auctions[i].bids| ensures RecordedBefore(records, active, n + 1, auctions[i], auctions[i].bids[j]) {
        assert BidsOf(records, active, n, auctions[i]);
        assert RecordedBefore(records, active, n, auctions[i], auctions[i].bids[j]);
      }
    }
  }

  /** Changing an auction but for its recorded bids, and perhaps adding one that is recorded. */
  lemma AuctionStays(records: seq<Record>, active: Active, n: nat, a: BidAuction, b: BidAuction)
    requires n <= |records| && BidsOf(records, active, n, a) && b.player == a.player && |a.bids| <= |b.bids|
    requires forall j :: 0 <= j < |a.bids| ==>
      b.bids[j] == a.bids[j].(replaced := b.bids[j].replaced, withdrawn := b.bids[j].withdrawn)
    requires forall j :: |a.bids| <= j < |b.bids| ==> RecordedBefore(records, active, n, b, b.bids[j])
    ensures BidsOf(records, active, n, b)
  {
    forall j | 0 <= j < |b.bids| ensures RecordedBefore(records, active, n, b, b.bids[j]) {
      if j < |a.bids| {
        assert RecordedBefore(records, active, n, a, a.bids[j]);
        var k :| 0 <= k < n && On(active, records[k].entry) && RecordsBid(records[k], a, a.bids[j]);
        assert RecordsBid(records[k], b, b.bids[j]);
      }
    }
  }

  lemma OneAuctionStays(records: seq<Record>, active: Active, n: nat, auctions: seq<BidAuction>, i: nat, b: BidAuction)
    requires n <= |records| && i < |auctions| && BidsRecorded(records, active, n, auctions) && BidsOf(records, active, n, b)
    ensures BidsRecorded(records, active, n, auctions[i := b])
  {
  }

  lemma PlacingRecords(records: seq<Record>, active: Active, n: nat, l: League)
    requires n < |records| && records[n].command.BidPlace? && On(active, records[n].entry)
    requires BidsRecorded(records, active, n + 1, l.book.auctions) && ProjectBid(l, records[n]).Ok?
    ensures BidsRecorded(records, active, n + 1, ProjectBid(l, records[n]).value.book.auctions)
  {
    var r := records[n];
    var side := l.assets.SideOf(r.args.bid.value.franchise);
    var i := Open(l.book.auctions, side, r.args.bid.value.player);
    var after := ProjectBid(l, r).value.book.auctions;
    if i >= 0 {
      assert RecordsBid(r, after[i], after[i].bids[|after[i].bids| - 1]);
      AuctionStays(records, active, n + 1, l.book.auctions[i], after[i]);
      OneAuctionStays(records, active, n + 1, l.book.auctions, i, after[i]);
    } else {
      var a := after[|l.book.auctions|];
      assert RecordsBid(r, a, a.bids[0]);
    }
  }

  lemma RaisingRecords(records: seq<Record>, active: Active, n: nat, l: League)
    requires n < |records| && records[n].command.BidRaise? && On(active, records[n].entry)
    requires BidsRecorded(records, active, n + 1, l.book.auctions) && ProjectBid(l, records[n]).Ok?
    ensures BidsRecorded(records, active, n + 1, ProjectBid(l, records[n]).value.book.auctions)
  {
    var r := records[n];
    var i := StandingBid(l.book.auctions, r.args.bid.value.bid).value.0;
    var after := ProjectBid(l, r).value.book.auctions;
    assert RecordsBid(r, after[i], after[i].bids[|after[i].bids| - 1]);
    AuctionStays(records, active, n + 1, l.book.auctions[i], after[i]);
    OneAuctionStays(records, active, n + 1, l.book.auctions, i, after[i]);
  }

  lemma OtherBidRecords(records: seq<Record>, active: Active, n: nat, l: League)
    requires n < |records| && !records[n].command.BidPlace? && !records[n].command.BidRaise?
    requires BidsRecorded(records, active, n + 1, l.book.auctions) && ProjectBid(l, records[n]).Ok?
    ensures BidsRecorded(records, active, n + 1, ProjectBid(l, records[n]).value.book.auctions)
  {
    var r, auctions := records[n], l.book.auctions;
    var after := ProjectBid(l, r).value.book.auctions;
    if r.command.BidWithdraw? {
      var i := StandingBid(auctions, r.args.bid.value.bid).value.0;
      AuctionStays(records, active, n + 1, auctions[i], after[i]);
      OneAuctionStays(records, active, n + 1, auctions, i, after[i]);
    } else if r.command.BidsProcess? || r.command.BidsOverride? {
      var i := AwardedAuction(auctions, r).value;
      AuctionStays(records, active, n + 1, auctions[i], after[i]);
      OneAuctionStays(records, active, n + 1, auctions, i, after[i]);
    }
  }

  lemma TradesLeaveAuctions(l: League, r: Record)
    requires ProjectTrade(l, r).Ok?
    ensures ProjectTrade(l, r).value.book.auctions == l.book.auctions
  {
  }

  lemma WaiversLeaveAuctions(l: League, r: Record)
    requires ProjectWaiver(l, r).Ok?
    ensures ProjectWaiver(l, r).value.book.auctions == l.book.auctions
  {
  }

  lemma OthersLeaveAuctions(rules: Rules, records: seq<Record>, n: nat, before: Native)
    requires n < |records| && !BidCommand(records[n].command) && ProjectEntry(rules, records, n, before).Ok?
    ensures ProjectEntry(rules, records, n, before).value.league.book.auctions == before.league.book.auctions
  {
    var r := records[n];
    if MarketCommand(r.command) {
      if WaiverCommand(r.command) {
        WaiversLeaveAuctions(before.league, r);
      } else if !r.command.OLineAuctionClose? {
        TradesLeaveAuctions(before.league, r);
      }
    }
  }

  lemma EntryRecords(rules: Rules, records: seq<Record>, active: Active, n: nat, before: Native)
    requires n < |records| && On(active, records[n].entry) && ProjectEntry(rules, records, n, before).Ok?
    requires BidsRecorded(records, active, n, before.league.book.auctions)
    ensures BidsRecorded(records, active, n + 1, ProjectEntry(rules, records, n, before).value.league.book.auctions)
  {
    RecordedLater(records, active, n, before.league.book.auctions);
    var command := records[n].command;
    if !BidCommand(command) {
      OthersLeaveAuctions(rules, records, n, before);
    } else if command.BidPlace? {
      PlacingRecords(records, active, n, before.league);
    } else if command.BidRaise? {
      RaisingRecords(records, active, n, before.league);
    } else {
      OtherBidRecords(records, active, n, before.league);
    }
  }

  /** Over every projection each bid of the book carries the terms of the entry in force that placed or raised it. */
  lemma {:induction false} EveryBidIsRecorded(rules: Rules, records: seq<Record>, active: Active, n: nat, seed: Native)
    requires n <= |records| && seed.league.book.auctions == [] && Fold(rules, records, active, 0, n, seed).Ok?
    ensures BidsRecorded(records, active, n, Fold(rules, records, active, 0, n, seed).value.league.book.auctions)
  {
    if n > 0 {
      EveryBidIsRecorded(rules, records, active, n - 1, seed);
      var before := Fold(rules, records, active, 0, n - 1, seed).value;
      if On(active, records[n - 1].entry) {
        EntryRecords(rules, records, active, n - 1, before);
      } else {
        RecordedLater(records, active, n - 1, before.league.book.auctions);
      }
    }
  }

  // ----- the contract

  /** The roster entry a bid's terms make for the franchise that won the player. */
  predicate Signs(s: Snapshot, p: NativePlayer, a: BidAuction, winner: string, salary: int, years: int, season: int) {
    && p.id == a.player && p.franchise == winner
    && p.salary == salary && p.expirationYear == season + years - 1
    && p.status == Active && p.contractStatus == UFA && p.note == WonBid(salary, years)
    && p.rookieRound == 0 && p.acquiredVia == "" && p.correction == ""
    && var lot := s.PoolOn(a.side, a.player);
    && p.name == if lot < 0 then "" else s.pool[lot].name
  }

  predicate AwardsBid(r: Record) {
    (r.command.BidsProcess? || r.command.BidsOverride?) && r.args.bid.Some? && r.args.bidOutcome.Some?
  }

  /** The winner's bid is listed at j in the auction at i, and the last roster entry is under its terms. */
  predicate WonWith(l: League, r: Record, i: nat, j: nat, after: Snapshot)
    requires AwardsBid(r) && i < |l.book.auctions| && j < |l.book.auctions[i].bids|
  {
    var o, a := r.args.bidOutcome.value, l.book.auctions[i];
    var b := a.bids[j];
    && b.id == o.winningBid && b.franchise == o.winner && after.players != []
    && Signs(l.assets, after.players[|after.players| - 1], a, o.winner, b.salary, b.years, o.season)
  }

  /** An accepted decision for a winner: his bid is one of the auction's, the side had no copy left, and the roster gains
      one entry, under the terms of the bid. */
  lemma WinnerSigns(l: League, r: Record)
    requires AwardsBid(r) && ProjectBid(l, r).Ok? && r.args.bidOutcome.value.winner != ""
    ensures AwardedAuction(l.book.auctions, r).Ok?
    ensures var i := AwardedAuction(l.book.auctions, r).value;
            var j := l.book.auctions[i].BidAt(r.args.bidOutcome.value.winningBid);
            j >= 0 && WonWith(l, r, i, j, ProjectBid(l, r).value.assets)
  {
  }

  /** What a decision writes to its auction, and to no other. */
  lemma DecisionIsWritten(l: League, r: Record)
    requires AwardsBid(r) && ProjectBid(l, r).Ok?
    ensures AwardedAuction(l.book.auctions, r).Ok?
    ensures var i, o := AwardedAuction(l.book.auctions, r).value, r.args.bidOutcome.value;
            var before, after := l.book.auctions, ProjectBid(l, r).value.book.auctions;
            && |after| == |before|
            && after[i].player == before[i].player && after[i].side == before[i].side && after[i].bids == before[i].bids
            && after[i].decided && after[i].winner == o.winner && after[i].winningBid == o.winningBid
            && after[i].tied == o.tied && after[i].results == o.results && after[i].season == o.season
            && after[i].decidedAt == r.at
            && (forall k :: 0 <= k < |before| && k != i ==> after[k] == before[k])
            && ProjectBid(l, r).value.book == l.book.(auctions := after)
  {
  }

  /** The entry at k placed or raised the winning bid, and the contract signed is of its salary and years. */
  ghost predicate SignsTheBidOf(records: seq<Record>, k: nat, before: League, r: Record, after: Snapshot)
    requires k < |records| && AwardsBid(r)
  {
    var i, o := AwardedAuction(before.book.auctions, r), r.args.bidOutcome.value;
    && (records[k].command.BidPlace? || records[k].command.BidRaise?) && records[k].args.bid.Some?
    && records[k].args.bid.value.franchise == o.winner
    && i.Ok? && after.players != []
    && Signs(before.assets, after.players[|after.players| - 1], before.book.auctions[i.value], o.winner,
             records[k].args.bid.value.salary, records[k].args.bid.value.years, o.season)
  }

  lemma WinnerSignsRecorded(records: seq<Record>, active: Active, n: nat, l: League, k: nat)
    requires Distinct(records) && n < |records| && AwardsBid(records[n]) && ProjectBid(l, records[n]).Ok?
    requires BidsRecorded(records, active, n, l.book.auctions) && records[n].args.bidOutcome.value.winner != ""
    requires k < |records| && records[k].entry == records[n].args.bidOutcome.value.winningBid
    ensures k < n && SignsTheBidOf(records, k, l, records[n], ProjectBid(l, records[n]).value.assets)
  {
    var r := records[n];
    WinnerSigns(l, r);
    var i := AwardedAuction(l.book.auctions, r).value;
    var j := l.book.auctions[i].BidAt(r.args.bidOutcome.value.winningBid);
    BidIsTheEntry(records, active, n, l.book.auctions[i], j, k);
    SignedAsRecorded(records, k, l, r, i, j, ProjectBid(l, r).value.assets);
  }

  lemma SignedAsRecorded(records: seq<Record>, k: nat, l: League, r: Record, i: nat, j: nat, after: Snapshot)
    requires k < |records| && AwardsBid(r) && AwardedAuction(l.book.auctions, r) == Ok(i)
    requires j < |l.book.auctions[i].bids| && WonWith(l, r, i, j, after)
    requires RecordsBid(records[k], l.book.auctions[i], l.book.auctions[i].bids[j])
    ensures SignsTheBidOf(records, k, l, r, after)
  {
  }

  lemma BidIsTheEntry(records: seq<Record>, active: Active, n: nat, a: BidAuction, j: nat, k: nat)
    requires Distinct(records) && n <= |records| && BidsOf(records, active, n, a) && j < |a.bids|
    requires k < |records| && records[k].entry == a.bids[j].id
    ensures k < n && RecordsBid(records[k], a, a.bids[j])
  {
    assert RecordedBefore(records, active, n, a, a.bids[j]);
    var m :| 0 <= m < n && On(active, records[m].entry) && RecordsBid(records[m], a, a.bids[j]);
    assert m == k;
  }

  /** Whoever wins a player by a decision in force signs for the salary and the years that the entry he placed or raised
      his bid with recorded. */
  lemma WinnerSignsHisBid(rules: Rules, records: seq<Record>, active: Active, n: nat, seed: Native, k: nat)
    requires Distinct(records) && n < |records| && On(active, records[n].entry) && AwardsBid(records[n])
    requires seed.league.book.auctions == [] && Fold(rules, records, active, 0, n + 1, seed).Ok?
    requires records[n].args.bidOutcome.value.winner != ""
    requires k < |records| && records[k].entry == records[n].args.bidOutcome.value.winningBid
    ensures var before, after := Fold(rules, records, active, 0, n, seed), Fold(rules, records, active, 0, n + 1, seed).value;
            before.Ok? && k < n && SignsTheBidOf(records, k, before.value.league, records[n], after.league.assets)
  {
    var before := Fold(rules, records, active, 0, n, seed).value;
    EveryBidIsRecorded(rules, records, active, n, seed);
    AwardIsProjected(rules, records, n, before);
    WinnerSignsRecorded(records, active, n, before.league, k);
  }

  lemma AwardIsProjected(rules: Rules, records: seq<Record>, n: nat, before: Native)
    requires n < |records| && AwardsBid(records[n]) && ProjectEntry(rules, records, n, before).Ok?
    ensures ProjectBid(before.league, records[n]).Ok?
    ensures ProjectEntry(rules, records, n, before).value.league == ProjectBid(before.league, records[n]).value
  {
  }
}
