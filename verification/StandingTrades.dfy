/** Several trades at once. The trades that stand, in order of approval, move the starting rosters and picks to
    the present ones for as long as no trade is taken back under a later one of the same asset, and no longer. */
module StandingTrades {
  import opened Assets
  import opened Lists
  import opened Records
  import opened Market
  import opened MarketLaws
  import opened Trades

  lemma {:induction false} MovesJoin(s: Snapshot, one: seq<TradeAsset>, two: seq<TradeAsset>, back: bool)
    ensures MoveAssets(s, one + two, back) ==
      if MoveAssets(s, one, back).Ok? then MoveAssets(MoveAssets(s, one, back).value, two, back)
      else MoveAssets(s, one, back)
    decreases |one|
  {
    if one == [] {
      assert one + two == two;
    } else {
      assert (one + two)[0] == one[0] && (one + two)[1..] == one[1..] + two;
      if MoveOne(s, one[0], back).Ok? {
        MovesJoin(MoveOne(s, one[0], back).value, one[1..], two, back);
      }
    }
  }

  ghost predicate AllDifferFrom(s: Snapshot, one: seq<TradeAsset>, two: seq<TradeAsset>) {
    forall i, j :: 0 <= i < |one| && 0 <= j < |two| ==> Differ(s, one[i], two[j])
  }

  /** A move that is possible after moves of other assets was possible before them, and they after it. */
  lemma {:induction false} MoveSlidesBack(s: Snapshot, assets: seq<TradeAsset>, a: TradeAsset)
    requires forall k :: 0 <= k < |assets| ==> Differ(s, assets[k], a)
    requires MoveAssets(s, assets, false).Ok? && MoveOne(MoveAssets(s, assets, false).value, a, false).Ok?
    ensures MoveOne(s, a, false).Ok?
    ensures MoveAssets(MoveOne(s, a, false).value, assets, false) ==
      MoveOne(MoveAssets(s, assets, false).value, a, false)
    decreases |assets|
  {
    if assets != [] {
      var next := MoveOne(s, assets[0], false).value;
      MoveKeepsSides(s, assets[0], false);
      SidesTell(s, next);
      MoveSlidesBack(next, assets[1..], a);
      MovesCommute(s, assets[0], a, false, false);
    }
  }

  /** A trade approved last moves its assets as if it had been approved before the others. */
  lemma {:induction false} BlockSlidesBack(s: Snapshot, first: seq<TradeAsset>, later: seq<TradeAsset>)
    requires AllDifferFrom(s, first, later)
    requires MoveAssets(s, first + later, false).Ok?
    ensures MoveAssets(s, later + first, false) == MoveAssets(s, first + later, false)
    decreases |later|
  {
    MovesJoin(s, first, later, false);
    MovesJoin(s, later, first, false);
    if later == [] {
      assert first + later == first && later + first == first;
    } else {
      var a := later[0];
      MoveSlidesBack(s, first, a);
      var next := MoveOne(s, a, false).value;
      MoveKeepsSides(s, a, false);
      SidesTell(s, next);
      MovesJoin(next, first, later[1..], false);
      BlockSlidesBack(next, first, later[1..]);
      MovesJoin(next, later[1..], first, false);
    }
  }

  // ----- who has an asset

  predicate With(s: Snapshot, a: TradeAsset, franchise: string) {
    if a.player != "" then s.PlayerOf(franchise, a.player) >= 0 else PickAt(s.picks, a, franchise) >= 0
  }

  predicate EndOf(a: TradeAsset, franchise: string) {
    franchise == a.sender || franchise == a.receiver
  }

  lemma MoveHands(s: Snapshot, a: TradeAsset)
    requires MoveOne(s, a, false).Ok?
    ensures With(s, a, a.sender) && With(MoveOne(s, a, false).value, a, a.receiver)
  {
    var next := MoveOne(s, a, false).value;
    if a.player != "" {
      assert IsOf(next.players[s.PlayerOf(a.sender, a.player)], a.receiver, a.player);
    } else {
      assert SamePick(next.picks[PickAt(s.picks, a, a.sender)], a);
    }
  }

  /** Moving another asset does not change who has this one. */
  lemma MoveElsewhere(s: Snapshot, b: TradeAsset, a: TradeAsset, franchise: string)
    requires Differ(s, a, b) && EndOf(a, franchise) && MoveOne(s, b, false).Ok?
    ensures With(MoveOne(s, b, false).value, a, franchise) == With(s, a, franchise)
  {
    var next := MoveOne(s, b, false).value;
    if a.player != "" && b.player != "" {
      var i := s.PlayerOf(b.sender, b.player);
      PlayerElsewhere(s, i, next.players[i], franchise, a.player);
    } else if a.player == "" && b.player == "" {
      var i := PickAt(s.picks, b, b.sender);
      PickElsewhere(s.picks, i, next.picks[i], a, franchise);
    } else if a.player != "" {
      SamePlayers(s, next, franchise, a.player);
    }
  }

  lemma {:induction false} StaysWith(s: Snapshot, assets: seq<TradeAsset>, a: TradeAsset, franchise: string)
    requires forall k :: 0 <= k < |assets| ==> Differ(s, a, assets[k])
    requires EndOf(a, franchise) && MoveAssets(s, assets, false).Ok?
    ensures With(MoveAssets(s, assets, false).value, a, franchise) == With(s, a, franchise)
    decreases |assets|
  {
    if assets != [] {
      var next := MoveOne(s, assets[0], false).value;
      MoveElsewhere(s, assets[0], a, franchise);
      MoveKeepsSides(s, assets[0], false);
      SidesTell(s, next);
      StaysWith(next, assets[1..], a, franchise);
    }
  }

  lemma AtCut(s: Snapshot, assets: seq<TradeAsset>, i: nat)
    requires i < |assets| && MoveAssets(s, assets, false).Ok?
    ensures MoveAssets(s, assets[..i], false).Ok? && MoveOne(MoveAssets(s, assets[..i], false).value, assets[i], false).Ok?
    ensures MoveAssets(s, assets, false) ==
      MoveAssets(MoveOne(MoveAssets(s, assets[..i], false).value, assets[i], false).value, assets[i + 1..], false)
  {
    CutAt(assets, i);
    MovesJoin(s, assets[..i], [assets[i]] + assets[i + 1..], false);
    assert ([assets[i]] + assets[i + 1..])[1..] == assets[i + 1..];
  }

  /** The first move of an asset finds it where the whole run of moves started. */
  lemma FirstMove(s: Snapshot, assets: seq<TradeAsset>, i: nat)
    requires i < |assets| && MoveAssets(s, assets, false).Ok?
    requires forall k :: 0 <= k < i ==> Differ(s, assets[i], assets[k])
    ensures With(s, assets[i], assets[i].sender)
  {
    AtCut(s, assets, i);
    MoveHands(MoveAssets(s, assets[..i], false).value, assets[i]);
    StaysWith(s, assets[..i], assets[i], assets[i].sender);
  }

  /** The last move of an asset leaves it where the whole run of moves ends. */
  lemma LastMove(s: Snapshot, assets: seq<TradeAsset>, i: nat)
    requires i < |assets| && MoveAssets(s, assets, false).Ok?
    requires forall k :: i < k < |assets| ==> Differ(s, assets[i], assets[k])
    ensures With(MoveAssets(s, assets, false).value, assets[i], assets[i].receiver)
  {
    AtCut(s, assets, i);
    var before := MoveAssets(s, assets[..i], false).value;
    var next := MoveOne(before, assets[i], false).value;
    MovesChangeOwnersOnly(s, assets[..i], false);
    MoveKeepsSides(before, assets[i], false);
    SidesTell(s, next);
    MoveHands(before, assets[i]);
    StaysWith(next, assets[i + 1..], assets[i], assets[i].receiver);
  }

  /** A side has one copy of a player and a pick is one pick, so it is with one franchise. */
  lemma OneHolder(s: Snapshot, a: TradeAsset, b: TradeAsset, f: string, g: string)
    requires OneCopy(s) && PicksUnique(s, [a]) && AssetsOnSide(s, [a]) && AssetsOnSide(s, [b]) && !Differ(s, a, b)
    requires EndOf(a, f) && EndOf(b, g) && With(s, a, f) && With(s, b, g)
    ensures f == g
  {
    assert [a][0] == a && [b][0] == b;
    if a.player != "" {
      var i, j := s.PlayerOf(f, a.player), s.PlayerOf(g, b.player);
      assert s.SideOf(f) == s.SideOf(g);
    } else {
      var i, j := PickAt(s.picks, a, f), PickAt(s.picks, b, g);
      assert SamePick(s.picks[i], a) && SamePick(s.picks[j], a);
    }
  }

  lemma DifferAlike(s: Snapshot, a: TradeAsset, b: TradeAsset, c: TradeAsset)
    requires AssetsOnSide(s, [a]) && AssetsOnSide(s, [b])
    requires !Differ(s, a, b) && Differ(s, a, c)
    ensures Differ(s, b, c)
  {
    assert [a][0] == a && [b][0] == b;
  }

  // ----- taking a trade back

  ghost predicate NoneToSelf(assets: seq<TradeAsset>) {
    forall k :: 0 <= k < |assets| ==> assets[k].sender != assets[k].receiver
  }

  /** What an offer's assets are held to before it is recorded. */
  ghost predicate Fair(s: Snapshot, assets: seq<TradeAsset>) {
    Reversible(s, assets) && NoneToSelf(assets)
  }

  lemma OwnersOnlyUnique(s: Snapshot, t: Snapshot, assets: seq<TradeAsset>)
    requires OwnersOnly(s, t) && PicksUnique(s, assets)
    ensures PicksUnique(t, assets)
  {
    forall k, i, j | 0 <= k < |assets| && assets[k].player == "" && 0 <= i < j < |t.picks|
      ensures !(SamePick(t.picks[i], assets[k]) && SamePick(t.picks[j], assets[k]))
    {
      assert t.picks[i] == s.picks[i].(owner := t.picks[i].owner) && t.picks[j] == s.picks[j].(owner := t.picks[j].owner);
    }
  }

  /** Moves of other trades leave a trade's own moves reversible. */
  lemma StaysReversible(s: Snapshot, moved: seq<TradeAsset>, assets: seq<TradeAsset>)
    requires Reversible(s, assets) && AssetsOnSide(s, moved) && MoveAssets(s, moved, false).Ok?
    ensures Reversible(MoveAssets(s, moved, false).value, assets)
    ensures MoveAssets(s, moved, false).value.sides == s.sides
  {
    var t := MoveAssets(s, moved, false).value;
    MoveKeepsOneCopy(s, moved, false);
    MovesChangeOwnersOnly(s, moved, false);
    OwnersOnlyUnique(s, t, assets);
    SidesTell(s, t);
  }

  /** The first of the later assets that is one of the trade's own, if there is any. */
  function FirstShared(s: Snapshot, assets: seq<TradeAsset>, later: seq<TradeAsset>): (j: int)
    ensures -1 <= j < |later|
    ensures j >= 0 ==> exists i :: 0 <= i < |assets| && !Differ(s, assets[i], later[j])
    ensures j >= 0 ==> forall i, k :: 0 <= i < |assets| && 0 <= k < j ==> Differ(s, assets[i], later[k])
    ensures j < 0 ==> AllDifferFrom(s, assets, later)
  {
    IndexFunc(later, (b: TradeAsset) => exists i :: 0 <= i < |assets| && !Differ(s, assets[i], b))
  }

  /** Later trades of one of the trade's assets cannot be made with it and without it. */
  lemma SharedMovesOnce(s: Snapshot, assets: seq<TradeAsset>, later: seq<TradeAsset>)
    requires Fair(s, assets) && AssetsOnSide(s, later)
    requires MoveAssets(s, assets, false).Ok? && MoveAssets(MoveAssets(s, assets, false).value, later, false).Ok?
    requires MoveAssets(s, later, false).Ok?
    ensures AllDifferFrom(s, assets, later)
  {
    var j := FirstShared(s, assets, later);
    if j >= 0 {
      var i :| 0 <= i < |assets| && !Differ(s, assets[i], later[j]);
      SharedMove(s, assets, later, i, j);
    }
  }

  lemma SharedMove(s: Snapshot, assets: seq<TradeAsset>, later: seq<TradeAsset>, i: nat, j: nat)
    requires Fair(s, assets) && AssetsOnSide(s, later) && i < |assets| && j < |later|
    requires MoveAssets(s, assets, false).Ok? && MoveAssets(MoveAssets(s, assets, false).value, later, false).Ok?
    requires !Differ(s, assets[i], later[j]) && forall k :: 0 <= k < j ==> Differ(s, assets[i], later[k])
    ensures MoveAssets(s, later, false).Refused?
  {
    var a, b, t := assets[i], later[j], MoveAssets(s, assets, false).value;
    StaysReversible(s, assets, assets);
    SidesTell(s, t);
    AlikeFromAll(s, assets, later, i, j);
    FirstMove(t, later, j);
    LastMove(s, assets, i);
    OneHolder(t, a, b, a.receiver, b.sender);
    if MoveAssets(s, later, false).Ok? {
      FirstMove(s, later, j);
      FirstMove(s, assets, i);
      OneHolder(s, a, b, a.sender, b.sender);
    }
  }

  lemma AlikeFromAll(s: Snapshot, assets: seq<TradeAsset>, later: seq<TradeAsset>, i: nat, j: nat)
    requires Reversible(s, assets) && AssetsOnSide(s, later) && i < |assets| && j < |later|
    requires !Differ(s, assets[i], later[j]) && forall k :: 0 <= k < j ==> Differ(s, assets[i], later[k])
    ensures AssetsOnSide(s, [assets[i]]) && AssetsOnSide(s, [later[j]]) && PicksUnique(s, [assets[i]])
    ensures forall k :: 0 <= k < j ==> Differ(s, later[j], later[k])
    ensures forall k :: 0 <= k < |assets| && k != i ==> Differ(s, assets[i], assets[k])
  {
    forall k | 0 <= k < j ensures Differ(s, later[j], later[k]) {
      DifferAlike(s, assets[i], later[j], later[k]);
    }
    forall k | 0 <= k < |assets| && k != i ensures Differ(s, assets[i], assets[k]) {
      assert Differ(s, assets[if i < k then i else k], assets[if i < k then k else i]);
    }
  }

  /** Where no later trade moves one of its assets, taking a trade back leaves what the others alone move. */
  lemma TakesBack(s: Snapshot, front: seq<TradeAsset>, assets: seq<TradeAsset>, back: seq<TradeAsset>)
    requires AllDifferFrom(s, assets, back) && MoveAssets(s, front + (assets + back), false).Ok?
    requires Reversible(s, assets) && AssetsOnSide(s, front) && AssetsOnSide(s, back)
    ensures MoveAssets(MoveAssets(s, front + (assets + back), false).value, assets, true) == MoveAssets(s, front + back, false)
    ensures MoveAssets(s, front + back, false).Ok?
  {
    MovesJoin(s, front, assets + back, false);
    var m := MoveAssets(s, front, false).value;
    StaysReversible(s, front, assets);
    SidesTell(s, m);
    BlockSlidesBack(m, assets, back);
    MovesJoin(m, back, assets, false);
    MovesJoin(s, front, back, false);
    assert AssetsOnSide(s, front + back);
    StaysReversible(s, front + back, assets);
    ForwardThenBack(MoveAssets(s, front + back, false).value, assets);
  }

  /** The trades that remain can be made without the one taken back exactly when no trade approved after it moves one of
      its assets; then taking it back leaves what they move. */
  lemma TakesBackIff(s: Snapshot, front: seq<TradeAsset>, assets: seq<TradeAsset>, back: seq<TradeAsset>)
    requires MoveAssets(s, front + (assets + back), false).Ok?
    requires Fair(s, assets) && AssetsOnSide(s, front) && AssetsOnSide(s, back)
    ensures MoveAssets(s, front + back, false).Ok? <==> AllDifferFrom(s, assets, back)
    ensures AllDifferFrom(s, assets, back) ==>
      MoveAssets(MoveAssets(s, front + (assets + back), false).value, assets, true) == MoveAssets(s, front + back, false)
  {
    if AllDifferFrom(s, assets, back) {
      TakesBack(s, front, assets, back);
    } else if MoveAssets(s, front + back, false).Ok? {
      MovesJoin(s, front, back, false);
      MovesJoin(s, front, assets + back, false);
      var m := MoveAssets(s, front, false).value;
      MovesJoin(m, assets, back, false);
      StaysReversible(s, front, assets);
      SidesTell(s, m);
      SharedMovesOnce(m, assets, back);
    }
  }

  // ----- runs of trade entries

  /** The trades in the list, one after the other. */
  function AssetsOf(trades: seq<TradeState>): seq<TradeAsset> {
    if trades == [] then [] else AssetsOf(trades[..|trades| - 1]) + trades[|trades| - 1].assets
  }

  lemma {:induction false} AssetsJoin(one: seq<TradeState>, two: seq<TradeState>)
    ensures AssetsOf(one + two) == AssetsOf(one) + AssetsOf(two)
  {
    if two == [] {
      assert one + two == one;
    } else {
      assert (one + two)[..|one + two| - 1] == one + two[..|two| - 1];
      AssetsJoin(one, two[..|two| - 1]);
    }
  }

  lemma AssetsAround(trades: seq<TradeState>, p: nat)
    requires p < |trades|
    ensures AssetsOf(trades) == AssetsOf(trades[..p]) + (trades[p].assets + AssetsOf(trades[p + 1..]))
    ensures AssetsOf(Without(trades, p)) == AssetsOf(trades[..p]) + AssetsOf(trades[p + 1..])
  {
    var front, back := trades[..p], trades[p + 1..];
    CutAt(trades, p);
    AssetsJoin(front, [trades[p]] + back);
    AssetsJoin([trades[p]], back);
    AssetsOfOne(trades[p]);
    AssetsJoin(front, back);
    assert Without(trades, p) == front + back;
  }

  lemma AssetsOfOne(t: TradeState)
    ensures AssetsOf([t]) == t.assets
  {
    assert [t][..0] == [];
    assert AssetsOf([]) == [];
  }

  /** The list of standing trades after one more entry: an approval joins at the end, a trade taken back leaves. */
  function StandingNext(standing: seq<TradeState>, trades: seq<TradeState>, r: Record): seq<TradeState> {
    var moved, p := Moved(trades, r), TradeAt(standing, TradeId(r));
    if moved > 0 then standing + [r.args.tradeOutcome.value.(id := TradeId(r))]
    else if moved < 0 && p >= 0 then Without(standing, p)
    else standing
  }

  /** The trades that stand approved after a run, in order of approval. */
  function Standing(l: League, records: seq<Record>): seq<TradeState>
    requires RunTrades(l, records).Ok?
  {
    if records == [] then []
    else
      var init := records[..|records| - 1];
      StandingNext(Standing(l, init), RunTrades(l, init).value.book.trades, records[|records| - 1])
  }

  /** An act carries on the trade it answers: no act changes the assets a trade was offered with. */
  predicate CarriesAssets(r: Record) {
    r.command.TradeAct? && r.args.tradeOutcome.Some? && r.args.tradeOutcome.value.previous.Some? ==>
      r.args.tradeOutcome.value.assets == r.args.tradeOutcome.value.previous.value.assets
  }

  predicate TradeEntry(r: Record) {
    (r.command.TradeOffer? || r.command.TradeAct?) && CarriesAssets(r)
  }

  ghost predicate TradeEntries(records: seq<Record>) {
    forall k :: 0 <= k < |records| ==> TradeEntry(records[k])
  }

  /** The list holds each approved trade of the book once, with the book's assets, and no other. */
  ghost predicate ListsApproved(standing: seq<TradeState>, trades: seq<TradeState>) {
    && (forall j, k :: 0 <= j < k < |standing| ==> standing[j].id != standing[k].id)
    && (forall id :: TradeAt(standing, id) >= 0 <==> StandsApproved(trades, id))
    && (forall k :: 0 <= k < |standing| ==> BookHas(trades, standing[k]))
  }

  ghost predicate BookHas(trades: seq<TradeState>, t: TradeState) {
    StandsApproved(trades, t.id) && t.assets == trades[TradeAt(trades, t.id)].assets
  }

  lemma TradeAtMiss(standing: seq<TradeState>, id: string)
    requires TradeAt(standing, id) < 0
    ensures forall k :: 0 <= k < |standing| ==> standing[k].id != id
  {
  }

  lemma TradeAtHit(standing: seq<TradeState>, id: string, k: nat)
    requires k < |standing| && standing[k].id == id
    ensures TradeAt(standing, id) >= 0
  {
  }

  /** The book after one trade is settled at i. */
  function Settled(trades: seq<TradeState>, i: nat, t: TradeState): seq<TradeState>
    requires i <= |trades|
  {
    if i == |trades| then trades + [t] else trades[i := t]
  }

  predicate SettlesAt(trades: seq<TradeState>, i: nat, t: TradeState) {
    i <= |trades| && if i == |trades| then TradeAt(trades, t.id) < 0 else TradeAt(trades, t.id) == i
  }

  /** Trades other than the settled one are listed as before. */
  lemma OthersStay(trades: seq<TradeState>, i: nat, t: TradeState, other: TradeState)
    requires SettlesAt(trades, i, t) && other.id != t.id && BookHas(trades, other)
    ensures BookHas(Settled(trades, i, t), other)
  {
    SettledAt(trades, i, t, other.id);
  }

  lemma SettledHas(trades: seq<TradeState>, i: nat, t: TradeState)
    requires SettlesAt(trades, i, t) && t.status == APPROVED
    ensures BookHas(Settled(trades, i, t), t)
  {
    SettledAt(trades, i, t, t.id);
  }

  lemma ApprovalJoins(standing: seq<TradeState>, trades: seq<TradeState>, i: nat, t: TradeState)
    requires ListsApproved(standing, trades) && SettlesAt(trades, i, t)
    requires t.status == APPROVED && !StandsApproved(trades, t.id)
    ensures ListsApproved(standing + [t], Settled(trades, i, t))
  {
    var more, after := standing + [t], Settled(trades, i, t);
    TradeAtMiss(standing, t.id);
    forall id ensures TradeAt(more, id) >= 0 <==> StandsApproved(after, id) {
      TradeAtSettled(trades, i, t, id);
      if TradeAt(standing, id) >= 0 { TradeAtHit(more, id, TradeAt(standing, id)); }
      if id == t.id { TradeAtHit(more, id, |standing|); }
    }
    forall k | 0 <= k < |more| ensures BookHas(after, more[k]) {
      if k < |standing| { OthersStay(trades, i, t, standing[k]); } else { SettledHas(trades, i, t); }
    }
  }

  lemma LeavingKeepsOrder(standing: seq<TradeState>, p: nat)
    requires p < |standing| && forall i, j :: 0 <= i < j < |standing| ==> standing[i].id != standing[j].id
    ensures forall k :: 0 <= k < |standing| - 1 ==>
      Without(standing, p)[k] == standing[if k < p then k else k + 1] && Without(standing, p)[k].id != standing[p].id
    ensures forall i, j :: 0 <= i < j < |standing| - 1 ==> Without(standing, p)[i].id != Without(standing, p)[j].id
    ensures forall id :: TradeAt(Without(standing, p), id) >= 0 <==> TradeAt(standing, id) >= 0 && id != standing[p].id
  {
    var rest := Without(standing, p);
    forall id ensures TradeAt(rest, id) >= 0 <==> TradeAt(standing, id) >= 0 && id != standing[p].id {
      var x, y := TradeAt(rest, id), TradeAt(standing, id);
      if x >= 0 { TradeAtHit(standing, id, if x < p then x else x + 1); }
      if y >= 0 && id != standing[p].id { TradeAtHit(rest, id, if y < p then y else y - 1); }
    }
  }

  lemma TakenBackLeaves(standing: seq<TradeState>, trades: seq<TradeState>, i: nat, t: TradeState)
    requires ListsApproved(standing, trades) && SettlesAt(trades, i, t)
    requires t.status != APPROVED && StandsApproved(trades, t.id)
    ensures TradeAt(standing, t.id) >= 0
    ensures ListsApproved(Without(standing, TradeAt(standing, t.id)), Settled(trades, i, t))
  {
    var p, after := TradeAt(standing, t.id), Settled(trades, i, t);
    assert p >= 0;
    var rest := Without(standing, p);
    LeavingKeepsOrder(standing, p);
    forall id ensures TradeAt(rest, id) >= 0 <==> StandsApproved(after, id) {
      TradeAtSettled(trades, i, t, id);
    }
    forall k | 0 <= k < |rest| ensures BookHas(after, rest[k]) {
      OthersStay(trades, i, t, standing[if k < p then k else k + 1]);
    }
  }

  lemma SameStatusKeeps(standing: seq<TradeState>, trades: seq<TradeState>, i: nat, t: TradeState)
    requires ListsApproved(standing, trades) && SettlesAt(trades, i, t)
    requires StandsApproved(trades, t.id) == (t.status == APPROVED)
    requires i < |trades| ==> t.assets == trades[i].assets
    ensures ListsApproved(standing, Settled(trades, i, t))
  {
    var after := Settled(trades, i, t);
    forall id ensures TradeAt(standing, id) >= 0 <==> StandsApproved(after, id) {
      TradeAtSettled(trades, i, t, id);
    }
    forall k | 0 <= k < |standing| ensures BookHas(after, standing[k]) {
      SettledAt(trades, i, t, standing[k].id);
    }
  }

  /** The trade an accepted entry settles, and where. */
  function SettledBy(r: Record): TradeState
    requires r.args.tradeOutcome.Some?
  {
    r.args.tradeOutcome.value.(id := TradeId(r))
  }

  lemma EntrySettles(l: League, r: Record)
    requires TradeEntry(r) && ProjectTrade(l, r).Ok? && (r.command.TradeOffer? ==> TradeAt(l.book.trades, r.entry) < 0)
    ensures r.args.tradeOutcome.Some?
    ensures var trades, t := l.book.trades, SettledBy(r);
            var i := if r.command.TradeOffer? then |trades| else TradeAt(trades, t.id);
            && SettlesAt(trades, i, t)
            && ProjectTrade(l, r).value.book.trades == Settled(trades, i, t)
            && (i < |trades| ==> t.assets == trades[i].assets)
            && Moved(trades, r) == (if t.status == APPROVED then 1 else 0) - (if StandsApproved(trades, t.id) then 1 else 0)
  {
  }

  lemma EntryKeepsList(l: League, r: Record, standing: seq<TradeState>)
    requires TradeEntry(r) && ProjectTrade(l, r).Ok? && (r.command.TradeOffer? ==> TradeAt(l.book.trades, r.entry) < 0)
    requires ListsApproved(standing, l.book.trades)
    ensures ListsApproved(StandingNext(standing, l.book.trades, r), ProjectTrade(l, r).value.book.trades)
    ensures Moved(l.book.trades, r) < 0 ==>
      var p := TradeAt(standing, TradeId(r));
      && p >= 0 && r.args.tradeOutcome.value.assets == standing[p].assets
  {
    EntrySettles(l, r);
    var trades, t := l.book.trades, SettledBy(r);
    var i := if r.command.TradeOffer? then |trades| else TradeAt(trades, t.id);
    if Moved(trades, r) > 0 {
      ApprovalJoins(standing, trades, i, t);
    } else if Moved(trades, r) < 0 {
      TakenBackLeaves(standing, trades, i, t);
      assert BookHas(trades, standing[TradeAt(standing, t.id)]);
    } else {
      SameStatusKeeps(standing, trades, i, t);
    }
  }

  /** Over any accepted run the list of standing trades holds exactly the trades of the book that stand approved. */
  lemma {:induction false} StandingIsApproved(l: League, records: seq<Record>)
    requires l.book.trades == [] && Distinct(records) && TradeEntries(records) && RunTrades(l, records).Ok?
    ensures ListsApproved(Standing(l, records), RunTrades(l, records).value.book.trades)
  {
    if records != [] {
      var init, r := records[..|records| - 1], records[|records| - 1];
      StandingIsApproved(l, init);
      OfferIsFirst(l, records);
      assert TradeEntry(r);
      EntryKeepsList(RunTrades(l, init).value, r, Standing(l, init));
    }
  }

  // ----- the standing trades move the league

  /** The rosters and picks are the starting ones moved by the standing trades in the order of approval. */
  ghost predicate StandsMoved(l: League, records: seq<Record>)
    requires RunTrades(l, records).Ok?
  {
    MoveAssets(l.assets, AssetsOf(Standing(l, records)), false) == Ok(RunTrades(l, records).value.assets)
  }

  /** If the entry takes a trade back, no trade approved after that one and still standing moves an asset of it. */
  ghost predicate TakesBackOnTop(s: Snapshot, standing: seq<TradeState>, trades: seq<TradeState>, r: Record) {
    var p := TradeAt(standing, TradeId(r));
    Moved(trades, r) < 0 && p >= 0 ==>
      forall q :: p < q < |standing| ==> AllDifferFrom(s, standing[p].assets, standing[q].assets)
  }

  /** The entries' assets are what an offer's are held to. */
  ghost predicate FairEntries(s: Snapshot, records: seq<Record>) {
    forall k :: 0 <= k < |records| && records[k].args.tradeOutcome.Some? ==>
      Fair(s, records[k].args.tradeOutcome.value.assets)
  }

  ghost predicate FairList(s: Snapshot, standing: seq<TradeState>) {
    forall k :: 0 <= k < |standing| ==> Fair(s, standing[k].assets)
  }

  lemma {:induction false} StandingIsFair(l: League, records: seq<Record>)
    requires FairEntries(l.assets, records) && RunTrades(l, records).Ok?
    ensures FairList(l.assets, Standing(l, records))
  {
    if records != [] {
      StandingIsFair(l, records[..|records| - 1]);
    }
  }

  lemma {:induction false} FairOnSide(s: Snapshot, standing: seq<TradeState>)
    requires FairList(s, standing)
    ensures AssetsOnSide(s, AssetsOf(standing))
  {
    if standing != [] {
      FairOnSide(s, standing[..|standing| - 1]);
      assert Reversible(s, standing[|standing| - 1].assets);
    }
  }

  lemma {:induction false} DifferFromEach(s: Snapshot, assets: seq<TradeAsset>, later: seq<TradeState>)
    ensures AllDifferFrom(s, assets, AssetsOf(later)) <==>
      forall q :: 0 <= q < |later| ==> AllDifferFrom(s, assets, later[q].assets)
  {
    if later != [] {
      var n := |later| - 1;
      DifferFromEach(s, assets, later[..n]);
      DifferFromJoin(s, assets, AssetsOf(later[..n]), later[n].assets);
      assert forall q :: 0 <= q < n ==> later[..n][q] == later[q];
    }
  }

  lemma DifferFromJoin(s: Snapshot, assets: seq<TradeAsset>, one: seq<TradeAsset>, two: seq<TradeAsset>)
    ensures AllDifferFrom(s, assets, one + two) <==> AllDifferFrom(s, assets, one) && AllDifferFrom(s, assets, two)
  {
    if AllDifferFrom(s, assets, one + two) {
      assert forall j :: 0 <= j < |one| ==> (one + two)[j] == one[j];
      assert forall j :: 0 <= j < |two| ==> (one + two)[|one| + j] == two[j];
    }
  }

  /** One accepted entry, after a run whose standing trades move the league: they still do exactly when the entry takes
      back no trade from under a later one. */
  lemma EntryMovesIff(l: League, records: seq<Record>)
    requires records != [] && l.book.trades == [] && Distinct(records) && TradeEntries(records)
    requires FairEntries(l.assets, records) && RunTrades(l, records).Ok?
    requires StandsMoved(l, records[..|records| - 1])
    ensures var init, r := records[..|records| - 1], records[|records| - 1];
            StandsMoved(l, records) <==>
              TakesBackOnTop(l.assets, Standing(l, init), RunTrades(l, init).value.book.trades, r)
  {
    var init, r := records[..|records| - 1], records[|records| - 1];
    var before, standing := RunTrades(l, init).value, Standing(l, init);
    StandingIsApproved(l, init);
    StandingIsFair(l, init);
    OfferIsFirst(l, records);
    assert TradeEntry(r);
    EntryKeepsList(before, r, standing);
    MovedIsTheMove(before, r);
    if Moved(before.book.trades, r) > 0 {
      var t := SettledBy(r);
      AssetsJoin(standing, [t]);
      AssetsOfOne(t);
      MovesJoin(l.assets, AssetsOf(standing), t.assets, false);
    } else if Moved(before.book.trades, r) < 0 {
      TakenBackIff(l.assets, before.assets, standing, TradeAt(standing, TradeId(r)));
    }
  }

  lemma TakenBackIff(s: Snapshot, now: Snapshot, standing: seq<TradeState>, p: nat)
    requires p < |standing| && FairList(s, standing)
    requires MoveAssets(s, AssetsOf(standing), false) == Ok(now) && MoveAssets(now, standing[p].assets, true).Ok?
    ensures MoveAssets(s, AssetsOf(Without(standing, p)), false) == MoveAssets(now, standing[p].assets, true) <==>
      forall q :: p < q < |standing| ==> AllDifferFrom(s, standing[p].assets, standing[q].assets)
  {
    var assets, later := standing[p].assets, standing[p + 1..];
    AssetsAround(standing, p);
    FairOnSide(s, standing[..p]);
    FairOnSide(s, later);
    TakesBackIff(s, AssetsOf(standing[..p]), assets, AssetsOf(later));
    DifferFromEach(s, assets, later);
    assert forall q :: p < q < |standing| ==> standing[q] == later[q - p - 1];
  }

  /** The standing trades move the league to what it is, after the run and after every entry of it. */
  ghost predicate AlwaysMoved(l: League, records: seq<Record>)
    requires RunTrades(l, records).Ok?
  {
    StandsMoved(l, records) && (records != [] ==> AlwaysMoved(l, records[..|records| - 1]))
  }

  /** No entry of the run takes a trade back from under a later one. */
  ghost predicate AlwaysOnTop(l: League, records: seq<Record>)
    requires RunTrades(l, records).Ok?
  {
    records != [] ==>
      var init := records[..|records| - 1];
      && AlwaysOnTop(l, init)
      && TakesBackOnTop(l.assets, Standing(l, init), RunTrades(l, init).value.book.trades, records[|records| - 1])
  }

  /** Over any accepted run of trade entries, of any number of trades, the assets keep following the trades that stand if
      and only if no trade is ever taken back while one approved after it, of an asset of its own, stands. */
  lemma {:induction false} AssetsFollowApprovalIff(l: League, records: seq<Record>)
    requires l.book.trades == [] && Distinct(records) && TradeEntries(records)
    requires FairEntries(l.assets, records) && RunTrades(l, records).Ok?
    ensures AlwaysMoved(l, records) <==> AlwaysOnTop(l, records)
  {
    if records != [] {
      var init := records[..|records| - 1];
      AssetsFollowApprovalIff(l, init);
      if StandsMoved(l, init) {
        EntryMovesIff(l, records);
      } else {
        assert !AlwaysMoved(l, init);
      }
    }
  }
}
