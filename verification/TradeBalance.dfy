/** What every run of trades conserves. Taking trades back out of order can leave the standing ones impossible to repeat,
    but never unbalances a holding. */
module TradeBalance {
  import opened Assets
  import opened Records
  import opened Market
  import opened Trades
  import opened StandingTrades

  predicate SameKey(a: TradeAsset, b: TradeAsset) {
    a.player == b.player && (a.player == "" ==> a.season == b.season && a.round == b.round && a.original == b.original)
  }

  function One(b: bool): int {
    if b then 1 else 0
  }

  /** How many of the listed players are the asset's player with the franchise. */
  function CountPlayers(players: seq<NativePlayer>, a: TradeAsset, franchise: string): int {
    if players == [] then 0
    else
      CountPlayers(players[..|players| - 1], a, franchise) + One(IsOf(players[|players| - 1], franchise, a.player))
  }

  function CountPicks(picks: seq<NativePick>, a: TradeAsset, franchise: string): int {
    if picks == [] then 0
    else
      CountPicks(picks[..|picks| - 1], a, franchise)
      + One(SamePick(picks[|picks| - 1], a) && picks[|picks| - 1].owner == franchise)
  }

  /** How many of the asset the franchise has. */
  function Holds(s: Snapshot, a: TradeAsset, franchise: string): int {
    if a.player != "" then CountPlayers(s.players, a, franchise) else CountPicks(s.picks, a, franchise)
  }

  /** What the listed moves bring the franchise of the asset, less what they take from it. */
  function Gains(assets: seq<TradeAsset>, a: TradeAsset, franchise: string): int {
    if assets == [] then 0
    else
      var b := assets[|assets| - 1];
      Gains(assets[..|assets| - 1], a, franchise)
      + if SameKey(a, b) then One(b.receiver == franchise) - One(b.sender == franchise) else 0
  }

  lemma {:induction false} GainsJoin(one: seq<TradeAsset>, two: seq<TradeAsset>, a: TradeAsset, franchise: string)
    ensures Gains(one + two, a, franchise) == Gains(one, a, franchise) + Gains(two, a, franchise)
  {
    if two == [] {
      assert one + two == one;
    } else {
      assert (one + two)[..|one + two| - 1] == one + two[..|two| - 1];
      GainsJoin(one, two[..|two| - 1], a, franchise);
    }
  }

  lemma {:induction false} PlayersRecounted(players: seq<NativePlayer>, i: nat, p: NativePlayer, a: TradeAsset, franchise: string)
    requires i < |players|
    ensures CountPlayers(players[i := p], a, franchise) ==
      CountPlayers(players, a, franchise) - One(IsOf(players[i], franchise, a.player)) + One(IsOf(p, franchise, a.player))
  {
    var n := |players| - 1;
    if i == n {
      assert players[i := p][..n] == players[..n];
    } else {
      assert players[i := p][..n] == players[..n][i := p];
      PlayersRecounted(players[..n], i, p, a, franchise);
    }
  }

  lemma {:induction false} PicksRecounted(picks: seq<NativePick>, i: nat, p: NativePick, a: TradeAsset, franchise: string)
    requires i < |picks|
    ensures CountPicks(picks[i := p], a, franchise) ==
      CountPicks(picks, a, franchise) - One(SamePick(picks[i], a) && picks[i].owner == franchise)
      + One(SamePick(p, a) && p.owner == franchise)
  {
    var n := |picks| - 1;
    if i == n {
      assert picks[i := p][..n] == picks[..n];
    } else {
      assert picks[i := p][..n] == picks[..n][i := p];
      PicksRecounted(picks[..n], i, p, a, franchise);
    }
  }

  function Signed(back: bool, gain: int): int {
    if back then -gain else gain
  }

  lemma MoveCounts(s: Snapshot, b: TradeAsset, back: bool, a: TradeAsset, franchise: string)
    requires MoveOne(s, b, back).Ok?
    ensures Holds(MoveOne(s, b, back).value, a, franchise) ==
      Holds(s, a, franchise) + Signed(back, Gains([b], a, franchise))
  {
    var next := MoveOne(s, b, back).value;
    assert [b][..0] == [];
    assert Gains([], a, franchise) == 0;
    if b.player != "" {
      var i := s.PlayerOf(From(b, back), b.player);
      PlayersRecounted(s.players, i, next.players[i], a, franchise);
    } else {
      var i := PickAt(s.picks, b, From(b, back));
      PicksRecounted(s.picks, i, next.picks[i], a, franchise);
    }
  }

  lemma {:induction false} MovesCount(s: Snapshot, assets: seq<TradeAsset>, back: bool, a: TradeAsset, franchise: string)
    requires MoveAssets(s, assets, back).Ok?
    ensures Holds(MoveAssets(s, assets, back).value, a, franchise) ==
      Holds(s, a, franchise) + Signed(back, Gains(assets, a, franchise))
    decreases |assets|
  {
    if assets != [] {
      MoveCounts(s, assets[0], back, a, franchise);
      MovesCount(MoveOne(s, assets[0], back).value, assets[1..], back, a, franchise);
      assert assets == [assets[0]] + assets[1..];
      GainsJoin([assets[0]], assets[1..], a, franchise);
    }
  }

  lemma JoiningGains(standing: seq<TradeState>, t: TradeState, a: TradeAsset, franchise: string)
    ensures Gains(AssetsOf(standing + [t]), a, franchise) ==
      Gains(AssetsOf(standing), a, franchise) + Gains(t.assets, a, franchise)
  {
    AssetsJoin(standing, [t]);
    AssetsOfOne(t);
    GainsJoin(AssetsOf(standing), t.assets, a, franchise);
  }

  lemma LeavingGains(standing: seq<TradeState>, p: nat, a: TradeAsset, franchise: string)
    requires p < |standing|
    ensures Gains(AssetsOf(Without(standing, p)), a, franchise) ==
      Gains(AssetsOf(standing), a, franchise) - Gains(standing[p].assets, a, franchise)
  {
    var front, back := AssetsOf(standing[..p]), AssetsOf(standing[p + 1..]);
    AssetsAround(standing, p);
    GainsJoin(front, standing[p].assets + back, a, franchise);
    GainsJoin(standing[p].assets, back, a, franchise);
    GainsJoin(front, back, a, franchise);
  }

  /** Over every accepted run, whatever trades share and in whatever order they are taken back, each franchise has of
      each asset what it started with and what the standing trades bring it, less what they take. */
  lemma {:induction false} HoldingsBalance(l: League, records: seq<Record>, a: TradeAsset, franchise: string)
    requires l.book.trades == [] && Distinct(records) && TradeEntries(records) && RunTrades(l, records).Ok?
    ensures Holds(RunTrades(l, records).value.assets, a, franchise) ==
      Holds(l.assets, a, franchise) + Gains(AssetsOf(Standing(l, records)), a, franchise)
  {
    if records != [] {
      var init, r := records[..|records| - 1], records[|records| - 1];
      var before, standing := RunTrades(l, init).value, Standing(l, init);
      HoldingsBalance(l, init, a, franchise);
      StandingIsApproved(l, init);
      OfferIsFirst(l, records);
      assert TradeEntry(r);
      EntryKeepsList(before, r, standing);
      EntryBalances(before, r, standing, a, franchise);
    }
  }

  lemma EntryBalances(before: League, r: Record, standing: seq<TradeState>, a: TradeAsset, franchise: string)
    requires ProjectTrade(before, r).Ok? && r.args.tradeOutcome.Some?
    requires Moved(before.book.trades, r) < 0 ==>
      var p := TradeAt(standing, TradeId(r));
      && p >= 0 && r.args.tradeOutcome.value.assets == standing[p].assets
    ensures Holds(ProjectTrade(before, r).value.assets, a, franchise) - Holds(before.assets, a, franchise) ==
      Gains(AssetsOf(StandingNext(standing, before.book.trades, r)), a, franchise)
      - Gains(AssetsOf(standing), a, franchise)
  {
    var moved, assets := Moved(before.book.trades, r), r.args.tradeOutcome.value.assets;
    MovedIsTheMove(before, r);
    if moved > 0 {
      JoiningGains(standing, SettledBy(r), a, franchise);
      MovesCount(before.assets, assets, false, a, franchise);
    } else if moved < 0 {
      LeavingGains(standing, TradeAt(standing, TradeId(r)), a, franchise);
      MovesCount(before.assets, assets, true, a, franchise);
    }
  }
}
