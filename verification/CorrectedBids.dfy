/** Correcting a bid award. After any chain of an auction's decision and corrections, with anything at all happening to
    the rest of the league in between, the league is as if the last of them had been the decision. */
module CorrectedBids {
  import opened Assets
  import opened Records
  import opened Market
  import opened Awards
  import opened Chains

  predicate BidDecision(r: Record) {
    (r.command.BidsProcess? || r.command.BidsOverride?) && r.args.bid.Some? && r.args.bidOutcome.Some?
  }

  /** The rest of the league as given, with the auction at i and the copy it is about as they were. */
  function BesideAuction(l: League, rest: League, i: nat): League
    requires i < |l.book.auctions| && i < |rest.book.auctions|
  {
    var a := l.book.auctions[i];
    League(Beside(l.assets, rest.assets, a.side, a.player),
           rest.book.(auctions := rest.book.auctions[i := a]))
  }

  function Take(l: League, i: nat, turn: Turn): Result<League> {
    match turn
    case Decide(r) => ProjectBid(l, r)
    case Between(rest) =>
      if i < |l.book.auctions| && i < |rest.book.auctions| then Ok(BesideAuction(l, rest, i)) else Refused("no such auction")
  }

  /** A decision is about the auction at i; a change in between leaves sides, the copy and its newest auction alone. */
  ghost predicate About(l: League, i: nat, turn: Turn) {
    match turn
    case Decide(r) => BidDecision(r) && AwardedAuction(l.book.auctions, r) == Ok(i)
    case Between(rest) =>
      && i < |l.book.auctions| && i < |rest.book.auctions|
      && var a := l.book.auctions[i];
      && Elsewhere(l.assets, rest.assets, a.side, a.player)
      && Latest(rest.book.auctions[i := a], a.side, a.player) == i
  }

  /** The same outcome recorded as the auction's first decision. */
  function AsFirst(r: Record, side: string, player: string): Record {
    if !BidDecision(r) then r
    else r.(command := BidsProcess, args := r.args.(bid := Some(r.args.bid.value.(side := side, player := player))))
  }

  // ----- a decision by the contract it signs

  /** The outcome names a recorded bid of its winner. */
  predicate NamesABid(a: BidAuction, o: BidOutcome) {
    o.winner != "" ==> a.BidAt(o.winningBid) >= 0 && a.bids[a.BidAt(o.winningBid)].franchise == o.winner
  }

  function BidContract(s: Snapshot, a: BidAuction, o: BidOutcome): Option<NativePlayer> {
    if o.winner == "" || !NamesABid(a, o) then None
    else Some(SignedBid(s, a, a.bids[a.BidAt(o.winningBid)], o.season))
  }

  lemma BidDecisionIs(s: Snapshot, a: BidAuction, o: BidOutcome)
    ensures ReplaceBidWinner(s, a, o).Ok? <==>
      Replace(s, a.winner, a.side, a.player, BidContract(s, a, o)).Ok? && NamesABid(a, o)
    ensures ReplaceBidWinner(s, a, o).Ok? ==>
      ReplaceBidWinner(s, a, o) == Replace(s, a.winner, a.side, a.player, BidContract(s, a, o))
  {
  }

  ghost predicate BiddersOnSide(s: Snapshot, a: BidAuction) {
    forall k :: 0 <= k < |a.bids| ==> s.SideOf(a.bids[k].franchise) == a.side
  }

  lemma ContractFits(s: Snapshot, a: BidAuction, o: BidOutcome)
    requires BiddersOnSide(s, a)
    ensures Fits(s, a.side, a.player, BidContract(s, a, o))
    ensures NamesABid(a, o) ==> WinnerOf(BidContract(s, a, o)) == o.winner
  {
  }

  // ----- the run beside the undecided one

  predicate SameBids(a: BidAuction, b: BidAuction) {
    a.player == b.player && a.side == b.side && a.bids == b.bids
  }

  lemma {:induction false} LatestByLot(one: seq<BidAuction>, two: seq<BidAuction>, side: string, player: string)
    requires |one| == |two|
    requires forall k :: 0 <= k < |one| ==> one[k].player == two[k].player && one[k].side == two[k].side
    ensures Latest(one, side, player) == Latest(two, side, player)
  {
    if one != [] {
      LatestByLot(one[..|one| - 1], two[..|two| - 1], side, player);
    }
  }

  /** The books of the two runs, apart from their rosters. */
  ghost predicate BooksBehind(book: MarketBook, quiet: MarketBook, i: nat, side: string, player: string) {
    && i < |book.auctions| && i < |quiet.auctions|
    && var a, b := book.auctions[i], quiet.auctions[i];
    && a.side == side && a.player == player && SameBids(a, b)
    && book == quiet.(auctions := quiet.auctions[i := a])
    && b == a.(decided := false, winner := "", winningBid := b.winningBid, tied := b.tied, results := b.results,
               season := b.season, decidedAt := b.decidedAt)
    && Latest(quiet.auctions, side, player) == i
  }

  /** What stays true of the two runs until the last decision. */
  ghost predicate BidBehind(l: League, quiet: League, i: nat, side: string, player: string) {
    && BooksBehind(l.book, quiet.book, i, side, player)
    && Behind(l.assets, quiet.assets, l.book.auctions[i].winner, side, player)
    && l.assets.adjustments == quiet.assets.adjustments
    && BiddersOnSide(l.assets, l.book.auctions[i])
  }

  lemma AwardIs(l: League, i: nat, r: Record)
    requires About(l, i, Decide(r))
    ensures i < |l.book.auctions|
    ensures var a, o := l.book.auctions[i], r.args.bidOutcome.value;
            var assets := ReplaceBidWinner(l.assets, a, o);
            && (ProjectBid(l, r).Ok? <==> assets.Ok?)
            && (assets.Ok? ==>
                  ProjectBid(l, r) ==
                  Ok(League(assets.value, l.book.(auctions := l.book.auctions[i := Decided(a, o, r.at)]))))
  {
  }

  /** What a decision does to the rosters, beside the undecided run. */
  lemma ContractStaysBehind(l: League, quiet: League, i: nat, side: string, player: string, o: BidOutcome)
    requires BidBehind(l, quiet, i, side, player) && ReplaceBidWinner(l.assets, l.book.auctions[i], o).Ok?
    ensures Behind(ReplaceBidWinner(l.assets, l.book.auctions[i], o).value, quiet.assets, o.winner, side, player)
    ensures ReplaceBidWinner(l.assets, l.book.auctions[i], o).value.adjustments == l.assets.adjustments
  {
    var a := l.book.auctions[i];
    BidDecisionIs(l.assets, a, o);
    ContractFits(l.assets, a, o);
    StillBehind(l.assets, quiet.assets, a.winner, side, player, BidContract(l.assets, a, o));
  }

  lemma SidesStay(s: Snapshot, t: Snapshot, a: BidAuction)
    requires t.sides == s.sides && BiddersOnSide(s, a)
    ensures BiddersOnSide(t, a)
  {
    assert forall id :: t.SideOf(id) == s.SideOf(id);
  }

  lemma DecidedBook(book: MarketBook, quiet: MarketBook, i: nat, side: string, player: string, o: BidOutcome, at: int)
    requires BooksBehind(book, quiet, i, side, player)
    ensures BooksBehind(book.(auctions := book.auctions[i := Decided(book.auctions[i], o, at)]), quiet, i, side, player)
  {
    var now := Decided(book.auctions[i], o, at);
    assert book.auctions[i := now] == quiet.auctions[i := now];
  }

  lemma DecisionStaysBehind(l: League, quiet: League, i: nat, side: string, player: string, r: Record)
    requires BidBehind(l, quiet, i, side, player) && About(l, i, Decide(r)) && ProjectBid(l, r).Ok?
    ensures BidBehind(ProjectBid(l, r).value, quiet, i, side, player)
  {
    var a, o := l.book.auctions[i], r.args.bidOutcome.value;
    AwardIs(l, i, r);
    ContractStaysBehind(l, quiet, i, side, player, o);
    var assets := ReplaceBidWinner(l.assets, a, o).value;
    SidesStay(l.assets, assets, Decided(a, o, r.at));
    DecidedBook(l.book, quiet.book, i, side, player, o, r.at);
  }

  lemma LatestBeside(auctions: seq<BidAuction>, i: nat, a: BidAuction, b: BidAuction)
    requires i < |auctions| && SameBids(a, b)
    ensures Latest(auctions[i := a], a.side, a.player) == Latest(auctions[i := b], a.side, a.player)
    ensures auctions[i := a] == auctions[i := b][i := a]
  {
    LatestByLot(auctions[i := a], auctions[i := b], a.side, a.player);
  }

  lemma BetweenStaysBehind(l: League, quiet: League, i: nat, side: string, player: string, rest: League)
    requires BidBehind(l, quiet, i, side, player) && About(l, i, Between(rest))
    ensures i < |rest.book.auctions|
    ensures BidBehind(BesideAuction(l, rest, i), BesideAuction(quiet, rest, i), i, side, player)
  {
    var a, b := l.book.auctions[i], quiet.book.auctions[i];
    BesideStaysBehind(l.assets, quiet.assets, a.winner, side, player, rest.assets, rest.assets);
    LatestBeside(rest.book.auctions, i, a, b);
    SidesStay(l.assets, BesideAuction(l, rest, i).assets, a);
  }

  /** The two leagues are the same but for where the copy stands in the list of players. */
  ghost predicate SameLeague(l: League, alone: League, side: string, player: string) {
    Level(l.assets, alone.assets, side, player) && l.assets.adjustments == alone.assets.adjustments && l.book == alone.book
  }

  lemma ContractAlone(l: League, quiet: League, i: nat, side: string, player: string, o: BidOutcome)
    requires BidBehind(l, quiet, i, side, player) && ReplaceBidWinner(l.assets, l.book.auctions[i], o).Ok?
    ensures ReplaceBidWinner(quiet.assets, quiet.book.auctions[i], o).Ok?
    ensures var one, two := ReplaceBidWinner(l.assets, l.book.auctions[i], o).value,
                            ReplaceBidWinner(quiet.assets, quiet.book.auctions[i], o).value;
            Level(one, two, side, player) && one.adjustments == two.adjustments
  {
    var a, b := l.book.auctions[i], quiet.book.auctions[i];
    BidDecisionIs(l.assets, a, o);
    ContractFits(l.assets, a, o);
    DecidesAlone(l.assets, quiet.assets, a.winner, side, player, BidContract(l.assets, a, o));
    SameContract(l.assets, quiet.assets, a, b, o);
    BidDecisionIs(quiet.assets, b, o);
  }

  lemma SameContract(s: Snapshot, t: Snapshot, a: BidAuction, b: BidAuction, o: BidOutcome)
    requires s.pool == t.pool && SameBids(a, b)
    ensures BidContract(s, a, o) == BidContract(t, b, o) && NamesABid(a, o) == NamesABid(b, o)
  {
  }

  lemma DecisionAlone(l: League, quiet: League, i: nat, side: string, player: string, r: Record)
    requires BidBehind(l, quiet, i, side, player) && About(l, i, Decide(r)) && ProjectBid(l, r).Ok?
    ensures ProjectBid(quiet, AsFirst(r, side, player)).Ok?
    ensures SameLeague(ProjectBid(l, r).value, ProjectBid(quiet, AsFirst(r, side, player)).value, side, player)
  {
    var a, b, o, first := l.book.auctions[i], quiet.book.auctions[i], r.args.bidOutcome.value, AsFirst(r, side, player);
    AwardIs(l, i, r);
    assert AwardedAuction(quiet.book.auctions, first) == Ok(i);
    AwardIs(quiet, i, first);
    ContractAlone(l, quiet, i, side, player, o);
    assert Decided(a, o, r.at) == Decided(b, o, r.at);
    assert l.book.auctions[i := Decided(a, o, r.at)] == quiet.book.auctions[i := Decided(a, o, r.at)];
  }

  // ----- every chain

  ghost predicate Starts(l: League, i: nat) {
    && i < |l.book.auctions|
    && var a := l.book.auctions[i];
    && !a.decided && a.winner == "" && BiddersOnSide(l.assets, a)
    && Latest(l.book.auctions, a.side, a.player) == i
  }

  lemma StartsBehind(l: League, i: nat)
    requires Starts(l, i)
    ensures BidBehind(l, l, i, l.book.auctions[i].side, l.book.auctions[i].player)
  {
    assert l.book.auctions[i := l.book.auctions[i]] == l.book.auctions;
  }

  function Takes(i: nat): Taking {
    (l: League, turn: Turn) => Take(l, i, turn)
  }

  ghost function Fitting(i: nat): (League, Turn) -> bool {
    (l: League, turn: Turn) => About(l, i, turn)
  }

  ghost function Related(i: nat, side: string, player: string): (League, League) -> bool {
    (l: League, quiet: League) => BidBehind(l, quiet, i, side, player)
  }

  /** The same league, about the auction at i. */
  ghost predicate SameAbout(l: League, alone: League, i: nat, side: string, player: string) {
    && SameLeague(l, alone, side, player)
    && i < |l.book.auctions| && l.book.auctions[i].side == side && l.book.auctions[i].player == player
  }

  ghost function Same(i: nat, side: string, player: string): (League, League) -> bool {
    (l: League, alone: League) => SameAbout(l, alone, i, side, player)
  }

  function First(side: string, player: string): Record -> Record {
    (r: Record) => AsFirst(r, side, player)
  }

  lemma TurnKeeps(i: nat, side: string, player: string, l: League, quiet: League, turn: Turn)
    ensures Kept(Takes(i), Fitting(i), Related(i, side, player), l, quiet, turn)
  {
    if BidBehind(l, quiet, i, side, player) && About(l, i, turn) && Take(l, i, turn).Ok? {
      if turn.Decide? {
        DecisionStaysBehind(l, quiet, i, side, player, turn.r);
      } else {
        BetweenStaysBehind(l, quiet, i, side, player, turn.rest);
      }
    }
  }

  lemma KeepsRelated(i: nat, side: string, player: string)
    ensures Keeps(Takes(i), Fitting(i), Related(i, side, player))
  {
    forall l, quiet, turn ensures Kept(Takes(i), Fitting(i), Related(i, side, player), l, quiet, turn) {
      TurnKeeps(i, side, player, l, quiet, turn);
    }
  }

  lemma DecisionSettles(i: nat, side: string, player: string, l: League, quiet: League, r: Record)
    ensures Settled(Takes(i), Fitting(i), Related(i, side, player), Same(i, side, player), First(side, player), l, quiet, r)
  {
    if BidBehind(l, quiet, i, side, player) && About(l, i, Decide(r)) && ProjectBid(l, r).Ok? {
      DecisionAlone(l, quiet, i, side, player, r);
      AwardIs(l, i, r);
    }
  }

  lemma SettlesSame(i: nat, side: string, player: string)
    ensures Settles(Takes(i), Fitting(i), Related(i, side, player), Same(i, side, player), First(side, player))
  {
    forall l, quiet, r
      ensures Settled(Takes(i), Fitting(i), Related(i, side, player), Same(i, side, player), First(side, player), l, quiet, r)
    {
      DecisionSettles(i, side, player, l, quiet, r);
    }
  }

  lemma BetweenStays(i: nat, side: string, player: string, l: League, alone: League, rest: League)
    ensures Stayed(Takes(i), Fitting(i), Same(i, side, player), l, alone, rest)
  {
    if SameAbout(l, alone, i, side, player) && About(l, i, Between(rest)) {
      BesideStaysLevel(l.assets, alone.assets, side, player, rest.assets);
    }
  }

  lemma StaysSame(i: nat, side: string, player: string)
    ensures Stays(Takes(i), Fitting(i), Same(i, side, player))
  {
    forall l, alone, rest ensures Stayed(Takes(i), Fitting(i), Same(i, side, player), l, alone, rest) {
      BetweenStays(i, side, player, l, alone, rest);
    }
  }

  /** Any accepted chain of an auction's decision and corrections leaves the whole league, rosters taken as a multiset,
      as the last outcome recorded as the first decision would have. */
  lemma CorrectedBidStands(l: League, i: nat, turns: seq<Turn>)
    requires Starts(l, i) && AllFit(Takes(i), Fitting(i), l, turns) && Run(Takes(i), l, turns).Ok?
    ensures var a := l.book.auctions[i];
            var alone := Run(Takes(i), l, LastAlone(turns, First(a.side, a.player)));
            && alone.Ok?
            && var chain := Run(Takes(i), l, turns).value;
            && multiset(chain.assets.players) == multiset(alone.value.assets.players)
            && chain == alone.value.(assets := alone.value.assets.(players := chain.assets.players))
  {
    var side, player := l.book.auctions[i].side, l.book.auctions[i].player;
    StartsBehind(l, i);
    KeepsRelated(i, side, player);
    SettlesSame(i, side, player);
    StaysSame(i, side, player);
    LastDecisionStands(Takes(i), Fitting(i), Related(i, side, player), Same(i, side, player), First(side, player), l, turns);
    LevelHolds(Run(Takes(i), l, turns).value.assets,
               Run(Takes(i), l, LastAlone(turns, First(side, player))).value.assets, side, player);
  }

  // ----- entries about other lots

  /** Any entry that leaves the auction and the copy alone is a change in between, but for the copy's place in the list. */
  lemma EntryIsBetween(l: League, after: League, i: nat)
    requires i < |l.book.auctions| && i < |after.book.auctions| && after.book.auctions[i] == l.book.auctions[i]
    requires after.assets.sides == l.assets.sides
    requires var a := l.book.auctions[i];
             && Latest(after.book.auctions, a.side, a.player) == i
             && Copies(l.assets, after.assets.players, a.side, a.player, true) ==
                  Copies(l.assets, l.assets.players, a.side, a.player, true)
    ensures var a := l.book.auctions[i];
            var turn := Between(after.(assets := Others(after.assets, a.side, a.player)));
            About(l, i, turn) && Take(l, i, turn).Ok? && SameLeague(after, Take(l, i, turn).value, a.side, a.player)
  {
    var a := l.book.auctions[i];
    ChangeIsBeside(l.assets, after.assets, a.side, a.player);
    assert after.book.auctions[i := a] == after.book.auctions;
  }

  /** A bid placed on another lot than the given one, or raised or withdrawn in another auction than the one at i. */
  predicate BidElsewhere(l: League, i: nat, side: string, player: string, r: Record) {
    && r.args.bid.Some? && r.args.bidOutcome.Some?
    && (r.command.BidPlace? || r.command.BidRaise? || r.command.BidWithdraw?)
    && if r.command.BidPlace? then l.assets.SideOf(r.args.bid.value.franchise) != side || r.args.bid.value.player != player
       else AuctionOf(l.book.auctions, r.args.bid.value.bid) != i
  }

  lemma AuctionByBids(one: seq<BidAuction>, two: seq<BidAuction>, bid: string)
    requires |one| == |two| && forall k :: 0 <= k < |one| ==> one[k].bids == two[k].bids
    ensures AuctionOf(one, bid) == AuctionOf(two, bid)
  {
    assert forall k :: 0 <= k < |one| ==> one[k].BidAt(bid) == two[k].BidAt(bid);
  }

  /** What a bid entry makes of the auctions: one of them changes, or one more opens. */
  function Put(auctions: seq<BidAuction>, j: int, b: BidAuction): seq<BidAuction>
    requires j < |auctions|
  {
    if j < 0 then auctions + [b] else auctions[j := b]
  }

  lemma LatestPut(auctions: seq<BidAuction>, side: string, player: string, j: int, b: BidAuction)
    requires j < |auctions|
    requires if j >= 0 then b.side == auctions[j].side && b.player == auctions[j].player
             else b.side != side || b.player != player
    ensures Latest(Put(auctions, j, b), side, player) == Latest(auctions, side, player)
  {
    if j >= 0 {
      LatestByLot(auctions, Put(auctions, j, b), side, player);
    } else {
      assert (auctions + [b])[..|auctions|] == auctions;
    }
  }

  /** The two books after the same change to an auction other than the one at i, or after one more of another lot. */
  lemma BooksStayBehind(l: League, quiet: League, i: nat, side: string, player: string, j: int, b: BidAuction)
    requires BidBehind(l, quiet, i, side, player) && j != i && j < |l.book.auctions|
    requires if j >= 0 then b.side == l.book.auctions[j].side && b.player == l.book.auctions[j].player
             else b.side != side || b.player != player
    ensures BidBehind(l.(book := l.book.(auctions := Put(l.book.auctions, j, b))),
                      quiet.(book := quiet.book.(auctions := Put(quiet.book.auctions, j, b))), i, side, player)
  {
    var one, two := Put(l.book.auctions, j, b), Put(quiet.book.auctions, j, b);
    LatestPut(quiet.book.auctions, side, player, j, b);
    assert one[i] == l.book.auctions[i] && two[i] == quiet.book.auctions[i];
    assert one == two[i := l.book.auctions[i]];
  }

  function Joined(auctions: seq<BidAuction>, j: int, side: string, r: Record): BidAuction
    requires j < |auctions| && r.args.bid.Some? && r.args.bidOutcome.Some?
  {
    if j < 0 then BidAuction(r.args.bid.value.player, side, [NewBid(r)], false, "", "", [], [], 0, 0)
    else auctions[j].(bids := auctions[j].bids + [NewBid(r)])
  }

  lemma PlaceIs(s: Snapshot, auctions: seq<BidAuction>, r: Record)
    requires r.args.bid.Some? && r.args.bidOutcome.Some?
    ensures var side := s.SideOf(r.args.bid.value.franchise);
            var j := Open(auctions, side, r.args.bid.value.player);
            && (PlaceBid(s, auctions, r).Ok? <==>
                  !s.OnSide(side, r.args.bid.value.player) && (j >= 0 ==> auctions[j].ActiveFor(r.args.bid.value.franchise) < 0))
            && (PlaceBid(s, auctions, r).Ok? ==>
                  PlaceBid(s, auctions, r).value == Put(auctions, j, Joined(auctions, j, side, r)))
  {
  }

  /** Both runs have another lot on the same rosters and in the same open auction. */
  lemma LotAlike(l: League, quiet: League, i: nat, side: string, player: string, otherSide: string, other: string)
    requires BidBehind(l, quiet, i, side, player) && (otherSide != side || other != player)
    ensures l.assets.OnSide(otherSide, other) == quiet.assets.OnSide(otherSide, other)
    ensures var j := Open(l.book.auctions, otherSide, other);
            j == Open(quiet.book.auctions, otherSide, other) && j != i
              && (j >= 0 ==> l.book.auctions[j] == quiet.book.auctions[j])
  {
    OnSideAlike(l.assets, quiet.assets, side, player, otherSide, other);
    LatestByLot(l.book.auctions, quiet.book.auctions, otherSide, other);
  }

  lemma PlacedAlike(l: League, quiet: League, i: nat, side: string, player: string, r: Record)
    requires BidBehind(l, quiet, i, side, player) && BidElsewhere(l, i, side, player, r) && r.command.BidPlace?
    ensures PlaceBid(l.assets, l.book.auctions, r).Ok? <==> PlaceBid(quiet.assets, quiet.book.auctions, r).Ok?
    ensures PlaceBid(l.assets, l.book.auctions, r).Ok? ==>
      BidBehind(l.(book := l.book.(auctions := PlaceBid(l.assets, l.book.auctions, r).value)),
                quiet.(book := quiet.book.(auctions := PlaceBid(quiet.assets, quiet.book.auctions, r).value)), i, side, player)
  {
    var args := r.args.bid.value;
    var other := l.assets.SideOf(args.franchise);
    LotAlike(l, quiet, i, side, player, other, args.player);
    PlaceIs(l.assets, l.book.auctions, r);
    PlaceIs(quiet.assets, quiet.book.auctions, r);
    var j := Open(l.book.auctions, other, args.player);
    BooksStayBehind(l, quiet, i, side, player, j, Joined(l.book.auctions, j, other, r));
  }

  /** A raise replaces the standing bid of its auction and is listed last. */
  function Raised(a: BidAuction, r: Record): BidAuction
    requires r.args.bid.Some? && r.args.bidOutcome.Some? && a.BidAt(r.args.bid.value.bid) >= 0
  {
    var k := a.BidAt(r.args.bid.value.bid);
    a.(bids := a.bids[k := a.bids[k].(replaced := true)] + [NewBid(r)])
  }

  predicate CanRaise(a: BidAuction, r: Record)
    requires r.args.bid.Some? && a.BidAt(r.args.bid.value.bid) >= 0
  {
    var b := a.bids[a.BidAt(r.args.bid.value.bid)];
    !a.decided && b.Live() && b.franchise == r.args.bid.value.franchise
  }

  lemma RaiseIs(auctions: seq<BidAuction>, r: Record)
    requires r.args.bid.Some? && r.args.bidOutcome.Some?
    ensures var j := AuctionOf(auctions, r.args.bid.value.bid);
            && (RaiseBid(auctions, r).Ok? <==> j >= 0 && CanRaise(auctions[j], r))
            && (RaiseBid(auctions, r).Ok? ==> RaiseBid(auctions, r).value == Put(auctions, j, Raised(auctions[j], r)))
  {
  }

  lemma RaisedAlike(l: League, quiet: League, i: nat, side: string, player: string, r: Record)
    requires BidBehind(l, quiet, i, side, player) && BidElsewhere(l, i, side, player, r) && r.command.BidRaise?
    ensures RaiseBid(l.book.auctions, r).Ok? <==> RaiseBid(quiet.book.auctions, r).Ok?
    ensures RaiseBid(l.book.auctions, r).Ok? ==>
      BidBehind(l.(book := l.book.(auctions := RaiseBid(l.book.auctions, r).value)),
                quiet.(book := quiet.book.(auctions := RaiseBid(quiet.book.auctions, r).value)), i, side, player)
  {
    var j := AuctionOf(l.book.auctions, r.args.bid.value.bid);
    AuctionByBids(l.book.auctions, quiet.book.auctions, r.args.bid.value.bid);
    RaiseIs(l.book.auctions, r);
    RaiseIs(quiet.book.auctions, r);
    if j >= 0 {
      BooksStayBehind(l, quiet, i, side, player, j, Raised(l.book.auctions[j], r));
    }
  }

  function Withdrawn(a: BidAuction, bid: string): BidAuction
    requires a.BidAt(bid) >= 0
  {
    a.(bids := a.bids[a.BidAt(bid) := a.bids[a.BidAt(bid)].(withdrawn := true)])
  }

  lemma WithdrawIs(auctions: seq<BidAuction>, bid: string)
    ensures var j := AuctionOf(auctions, bid);
            && (WithdrawBid(auctions, bid).Ok? <==>
                  j >= 0 && !auctions[j].decided && auctions[j].bids[auctions[j].BidAt(bid)].Live())
            && (WithdrawBid(auctions, bid).Ok? ==>
                  WithdrawBid(auctions, bid).value == Put(auctions, j, Withdrawn(auctions[j], bid)))
  {
  }

  lemma WithdrawnAlike(l: League, quiet: League, i: nat, side: string, player: string, bid: string)
    requires BidBehind(l, quiet, i, side, player) && AuctionOf(l.book.auctions, bid) != i
    ensures WithdrawBid(l.book.auctions, bid).Ok? <==> WithdrawBid(quiet.book.auctions, bid).Ok?
    ensures WithdrawBid(l.book.auctions, bid).Ok? ==>
      BidBehind(l.(book := l.book.(auctions := WithdrawBid(l.book.auctions, bid).value)),
                quiet.(book := quiet.book.(auctions := WithdrawBid(quiet.book.auctions, bid).value)), i, side, player)
  {
    var j := AuctionOf(l.book.auctions, bid);
    AuctionByBids(l.book.auctions, quiet.book.auctions, bid);
    WithdrawIs(l.book.auctions, bid);
    WithdrawIs(quiet.book.auctions, bid);
    if j >= 0 {
      BooksStayBehind(l, quiet, i, side, player, j, Withdrawn(l.book.auctions[j], bid));
    }
  }

  /** What a bid entry other than an award does: it changes the auctions or is refused. */
  function BidBook(l: League, r: Record): Result<seq<BidAuction>>
    requires r.args.bid.Some? && r.args.bidOutcome.Some?
    requires r.command.BidPlace? || r.command.BidRaise? || r.command.BidWithdraw?
  {
    if r.command.BidPlace? then PlaceBid(l.assets, l.book.auctions, r)
    else if r.command.BidRaise? then RaiseBid(l.book.auctions, r)
    else WithdrawBid(l.book.auctions, r.args.bid.value.bid)
  }

  lemma ProjectsTheBook(l: League, r: Record)
    requires r.args.bid.Some? && r.args.bidOutcome.Some?
    requires r.command.BidPlace? || r.command.BidRaise? || r.command.BidWithdraw?
    ensures ProjectBid(l, r).Ok? <==> BidBook(l, r).Ok?
    ensures BidBook(l, r).Ok? ==> ProjectBid(l, r).value == l.(book := l.book.(auctions := BidBook(l, r).value))
  {
  }

  /** A bid elsewhere is accepted of both runs or of neither, and leaves the one behind the other. */
  lemma BidsElsewhereAlike(l: League, quiet: League, i: nat, side: string, player: string, r: Record)
    requires BidBehind(l, quiet, i, side, player) && BidElsewhere(l, i, side, player, r)
    ensures ProjectBid(l, r).Ok? <==> ProjectBid(quiet, r).Ok?
    ensures ProjectBid(l, r).Ok? ==> BidBehind(ProjectBid(l, r).value, ProjectBid(quiet, r).value, i, side, player)
  {
    ProjectsTheBook(l, r);
    ProjectsTheBook(quiet, r);
    if r.command.BidPlace? {
      PlacedAlike(l, quiet, i, side, player, r);
    } else if r.command.BidRaise? {
      RaisedAlike(l, quiet, i, side, player, r);
    } else {
      WithdrawnAlike(l, quiet, i, side, player, r.args.bid.value.bid);
    }
  }
}
