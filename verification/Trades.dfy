/** Moving a trade's assets: forward then back restores the league exactly, only owners ever change, and over any
    run of trade actions an asset has moved once net if its trade stands approved and not at all otherwise. */
module Trades {
  import opened Assets
  import opened Records
  import opened Market
  import opened MarketLaws
  import opened Compensation

  /** Neither franchise of the one is on a side of the other's. */
  predicate SidesApart(s: Snapshot, a: TradeAsset, b: TradeAsset) {
    && s.SideOf(a.sender) != s.SideOf(b.sender) && s.SideOf(a.sender) != s.SideOf(b.receiver)
    && s.SideOf(a.receiver) != s.SideOf(b.sender) && s.SideOf(a.receiver) != s.SideOf(b.receiver)
  }

  /** Two assets are not the same side's copy of a player and not the same pick. */
  predicate Differ(s: Snapshot, a: TradeAsset, b: TradeAsset) {
    if a.player != "" || b.player != "" then a.player != b.player || SidesApart(s, a, b)
    else a.season != b.season || a.round != b.round || a.original != b.original
  }

  ghost predicate AllDiffer(s: Snapshot, assets: seq<TradeAsset>) {
    forall i, j :: 0 <= i < j < |assets| ==> Differ(s, assets[i], assets[j])
  }

  /** Each traded pick's season, round and original owner name one pick. */
  ghost predicate PicksUnique(s: Snapshot, assets: seq<TradeAsset>) {
    forall k, i, j :: 0 <= k < |assets| && assets[k].player == "" && 0 <= i < j < |s.picks| ==>
      !(SamePick(s.picks[i], assets[k]) && SamePick(s.picks[j], assets[k]))
  }

  predicate SamePick(p: NativePick, a: TradeAsset) {
    p.season == a.season && p.round == a.round && p.original == a.original
  }

  /** What makes one asset's move reversible. */
  ghost predicate Movable(s: Snapshot, a: TradeAsset) {
    && OneCopy(s)
    && (a.player != "" ==> s.SideOf(a.sender) == s.SideOf(a.receiver))
    && PicksUnique(s, [a])
  }

  /** Moving one asset back undoes moving it. */
  lemma MoveBack(s: Snapshot, a: TradeAsset)
    requires Movable(s, a) && MoveOne(s, a, false).Ok?
    ensures MoveOne(MoveOne(s, a, false).value, a, true) == Ok(s)
  {
    var there := MoveOne(s, a, false).value;
    if a.player != "" {
      var i := s.PlayerOf(a.sender, a.player);
      var j := there.PlayerOf(a.receiver, a.player);
      assert there.players[i].id == a.player && there.players[i].franchise == a.receiver;
      assert j >= 0 && j <= i;
      assert there.players[i := there.players[i].(franchise := a.sender)] == s.players;
    } else {
      assert [a][0] == a;
      var i := PickAt(s.picks, a, a.sender);
      var j := PickAt(there.picks, a, a.receiver);
      assert SamePick(there.picks[i], a) && there.picks[i].owner == a.receiver;
      assert j >= 0 && j <= i;
      if j < i { assert SamePick(s.picks[j], a) && SamePick(s.picks[i], a); }
      assert there.picks[i := there.picks[i].(owner := a.sender)] == s.picks;
    }
  }

  predicate IsOf(p: NativePlayer, franchise: string, id: string) {
    p.id == id && p.franchise == franchise
  }

  lemma PlayerElsewhere(s: Snapshot, i: nat, p: NativePlayer, franchise: string, id: string)
    requires i < |s.players| && !IsOf(s.players[i], franchise, id) && !IsOf(p, franchise, id)
    ensures s.(players := s.players[i := p]).PlayerOf(franchise, id) == s.PlayerOf(franchise, id)
  {
    var t := s.(players := s.players[i := p]);
    var x, y := s.PlayerOf(franchise, id), t.PlayerOf(franchise, id);
    if x >= 0 { assert t.players[x] == s.players[x]; }
    if y >= 0 { assert t.players[y] == s.players[y]; }
  }

  lemma SamePlayers(s: Snapshot, t: Snapshot, franchise: string, id: string)
    requires s.players == t.players
    ensures s.PlayerOf(franchise, id) == t.PlayerOf(franchise, id)
  {
  }

  lemma PickElsewhere(picks: seq<NativePick>, i: nat, p: NativePick, a: TradeAsset, owner: string)
    requires i < |picks| && !SamePick(picks[i], a) && !SamePick(p, a)
    ensures PickAt(picks[i := p], a, owner) == PickAt(picks, a, owner)
  {
    var t := picks[i := p];
    var x, y := PickAt(picks, a, owner), PickAt(t, a, owner);
    if x >= 0 { assert t[x] == picks[x]; }
    if y >= 0 { assert t[y] == picks[y]; }
  }

  function From(a: TradeAsset, back: bool): string {
    if back then a.receiver else a.sender
  }

  lemma PlayerMovesCommute(s: Snapshot, a: TradeAsset, b: TradeAsset, backA: bool, backB: bool)
    requires a.player != "" && b.player != "" && Differ(s, a, b) && MoveOne(s, a, backA).Ok?
    ensures MoveOne(MoveOne(s, a, backA).value, b, backB).Ok? <==> MoveOne(s, b, backB).Ok?
    ensures MoveOne(s, b, backB).Ok? ==>
      MoveOne(MoveOne(s, b, backB).value, a, backA) == MoveOne(MoveOne(s, a, backA).value, b, backB)
  {
    var i, j := s.PlayerOf(From(a, backA), a.player), s.PlayerOf(From(b, backB), b.player);
    var there := MoveOne(s, a, backA).value;
    PlayerElsewhere(s, i, there.players[i], From(b, backB), b.player);
    if j >= 0 {
      var other := MoveOne(s, b, backB).value;
      PlayerElsewhere(s, j, other.players[j], From(a, backA), a.player);
      assert s.players[i := there.players[i]][j := other.players[j]] == s.players[j := other.players[j]][i := there.players[i]];
    }
  }

  lemma PickMovesCommute(s: Snapshot, a: TradeAsset, b: TradeAsset, backA: bool, backB: bool)
    requires a.player == "" && b.player == "" && Differ(s, a, b) && MoveOne(s, a, backA).Ok?
    ensures MoveOne(MoveOne(s, a, backA).value, b, backB).Ok? <==> MoveOne(s, b, backB).Ok?
    ensures MoveOne(s, b, backB).Ok? ==>
      MoveOne(MoveOne(s, b, backB).value, a, backA) == MoveOne(MoveOne(s, a, backA).value, b, backB)
  {
    var i, j := PickAt(s.picks, a, From(a, backA)), PickAt(s.picks, b, From(b, backB));
    var there := MoveOne(s, a, backA).value;
    PickElsewhere(s.picks, i, there.picks[i], b, From(b, backB));
    if j >= 0 && Unspent(s.picks[j]) {
      var other := MoveOne(s, b, backB).value;
      PickElsewhere(s.picks, j, other.picks[j], a, From(a, backA));
      assert s.picks[i := there.picks[i]][j := other.picks[j]] == s.picks[j := other.picks[j]][i := there.picks[i]];
    }
  }

  lemma PlayerPastPick(s: Snapshot, a: TradeAsset, b: TradeAsset, backA: bool, backB: bool)
    requires a.player != "" && b.player == "" && MoveOne(s, a, backA).Ok?
    ensures MoveOne(MoveOne(s, a, backA).value, b, backB).Ok? <==> MoveOne(s, b, backB).Ok?
    ensures MoveOne(s, b, backB).Ok? ==>
      MoveOne(MoveOne(s, b, backB).value, a, backA) == MoveOne(MoveOne(s, a, backA).value, b, backB)
  {
    if MoveOne(s, b, backB).Ok? {
      SamePlayers(s, MoveOne(s, b, backB).value, From(a, backA), a.player);
    }
  }

  lemma PickPastPlayer(s: Snapshot, a: TradeAsset, b: TradeAsset, backA: bool, backB: bool)
    requires a.player == "" && b.player != "" && MoveOne(s, a, backA).Ok?
    ensures MoveOne(MoveOne(s, a, backA).value, b, backB).Ok? <==> MoveOne(s, b, backB).Ok?
    ensures MoveOne(s, b, backB).Ok? ==>
      MoveOne(MoveOne(s, b, backB).value, a, backA) == MoveOne(MoveOne(s, a, backA).value, b, backB)
  {
    SamePlayers(s, MoveOne(s, a, backA).value, From(b, backB), b.player);
  }

  /** Moves of different assets do not see each other. */
  lemma MovesCommute(s: Snapshot, a: TradeAsset, b: TradeAsset, backA: bool, backB: bool)
    requires Differ(s, a, b) && MoveOne(s, a, backA).Ok?
    ensures MoveOne(MoveOne(s, a, backA).value, b, backB).Ok? <==> MoveOne(s, b, backB).Ok?
    ensures MoveOne(s, b, backB).Ok? ==>
      MoveOne(MoveOne(s, b, backB).value, a, backA) == MoveOne(MoveOne(s, a, backA).value, b, backB)
  {
    if a.player != "" && b.player != "" {
      PlayerMovesCommute(s, a, b, backA, backB);
    } else if a.player == "" && b.player == "" {
      PickMovesCommute(s, a, b, backA, backB);
    } else if a.player != "" {
      PlayerPastPick(s, a, b, backA, backB);
    } else {
      PickPastPlayer(s, a, b, backA, backB);
    }
  }

  lemma MoveKeepsSides(s: Snapshot, a: TradeAsset, back: bool)
    requires MoveOne(s, a, back).Ok?
    ensures MoveOne(s, a, back).value.sides == s.sides
  {
  }

  /** Which assets differ is up to the sides alone. */
  lemma SidesTell(s: Snapshot, t: Snapshot)
    requires t.sides == s.sides
    ensures forall id :: t.SideOf(id) == s.SideOf(id)
    ensures forall a, b :: Differ(t, a, b) <==> Differ(s, a, b)
  {
  }

  /** A move slides past a list of moves of other assets. */
  lemma {:induction false} MoveSlides(s: Snapshot, a: TradeAsset, backA: bool, assets: seq<TradeAsset>, back: bool)
    requires forall k :: 0 <= k < |assets| ==> Differ(s, a, assets[k])
    requires MoveOne(s, a, backA).Ok?
    ensures MoveAssets(MoveOne(s, a, backA).value, assets, back).Ok? <==> MoveAssets(s, assets, back).Ok?
    ensures MoveAssets(s, assets, back).Ok? ==>
      MoveOne(MoveAssets(s, assets, back).value, a, backA) == MoveAssets(MoveOne(s, a, backA).value, assets, back)
    decreases |assets|
  {
    if assets != [] {
      MovesCommute(s, a, assets[0], backA, back);
      if MoveOne(s, assets[0], back).Ok? {
        var next := MoveOne(s, assets[0], back).value;
        MoveKeepsSides(s, assets[0], back);
        SidesTell(s, next);
        MoveSlides(next, a, backA, assets[1..], back);
      }
    }
  }

  /** Only players' franchises and picks' owners change. */
  ghost predicate OwnersOnly(s: Snapshot, t: Snapshot) {
    && t == s.(players := t.players, picks := t.picks)
    && |t.players| == |s.players| && |t.picks| == |s.picks|
    && (forall k :: 0 <= k < |s.players| ==> t.players[k] == s.players[k].(franchise := t.players[k].franchise))
    && (forall k :: 0 <= k < |s.picks| ==> t.picks[k] == s.picks[k].(owner := t.picks[k].owner))
  }

  lemma OwnersOnlyChain(s: Snapshot, t: Snapshot, u: Snapshot)
    requires OwnersOnly(s, t) && OwnersOnly(t, u)
    ensures OwnersOnly(s, u)
  {
    forall k | 0 <= k < |s.players| ensures u.players[k] == s.players[k].(franchise := u.players[k].franchise) {
      assert t.players[k] == s.players[k].(franchise := t.players[k].franchise);
    }
    forall k | 0 <= k < |s.picks| ensures u.picks[k] == s.picks[k].(owner := u.picks[k].owner) {
      assert t.picks[k] == s.picks[k].(owner := t.picks[k].owner);
    }
  }

  lemma MoveOneOwnersOnly(s: Snapshot, a: TradeAsset, back: bool)
    requires MoveOne(s, a, back).Ok?
    ensures OwnersOnly(s, MoveOne(s, a, back).value)
  {
    var t := MoveOne(s, a, back).value;
    if a.player != "" {
      var i := s.PlayerOf(From(a, back), a.player);
      forall k | 0 <= k < |s.players| ensures t.players[k] == s.players[k].(franchise := t.players[k].franchise) {
        if k != i { assert t.players[k] == s.players[k]; }
      }
      assert t.picks == s.picks;
    } else {
      var i := PickAt(s.picks, a, From(a, back));
      forall k | 0 <= k < |s.picks| ensures t.picks[k] == s.picks[k].(owner := t.picks[k].owner) {
        if k != i { assert t.picks[k] == s.picks[k]; }
      }
      assert t.players == s.players;
    }
  }

  lemma {:induction false} MovesChangeOwnersOnly(s: Snapshot, assets: seq<TradeAsset>, back: bool)
    requires MoveAssets(s, assets, back).Ok?
    ensures OwnersOnly(s, MoveAssets(s, assets, back).value)
    decreases |assets|
  {
    if assets != [] {
      var next := MoveOne(s, assets[0], back).value;
      MoveOneOwnersOnly(s, assets[0], back);
      MovesChangeOwnersOnly(next, assets[1..], back);
      OwnersOnlyChain(s, next, MoveAssets(s, assets, back).value);
    }
  }

  /** What a trade's assets must be for its moves to invert: different assets, picks named once, one side. */
  ghost predicate Reversible(s: Snapshot, assets: seq<TradeAsset>) {
    OneCopy(s) && AllDiffer(s, assets) && PicksUnique(s, assets) && AssetsOnSide(s, assets)
  }

  lemma ReversibleRest(s: Snapshot, assets: seq<TradeAsset>)
    requires Reversible(s, assets) && assets != []
    ensures Movable(s, assets[0]) && Reversible(s, assets[1..])
    ensures forall k :: 0 <= k < |assets| - 1 ==> Differ(s, assets[0], assets[1..][k])
  {
    var rest := assets[1..];
    forall k | 0 <= k < |rest| ensures Differ(s, assets[0], rest[k]) && rest[k] == assets[k + 1] {
    }
    forall i, j | 0 <= i < j < |rest| ensures Differ(s, rest[i], rest[j]) {
      assert Differ(s, assets[i + 1], assets[j + 1]);
    }
  }

  /** Moving a trade's assets and then moving them back, in the same list order, never fails and restores the
      league exactly. */
  lemma {:induction false} ForwardThenBack(s: Snapshot, assets: seq<TradeAsset>)
    requires Reversible(s, assets) && MoveAssets(s, assets, false).Ok?
    ensures MoveAssets(MoveAssets(s, assets, false).value, assets, true) == Ok(s)
    decreases |assets|
  {
    if assets != [] {
      var a, rest := assets[0], assets[1..];
      var next := MoveOne(s, a, false).value;
      ReversibleRest(s, assets);
      MoveBack(s, a);
      MoveSlides(next, a, true, rest, false);
      ForwardThenBack(s, rest);
    }
  }

  // ----- runs of trade actions

  function RunTrades(l: League, records: seq<Record>): Result<League> {
    if records == [] then Ok(l)
    else
      var before :- RunTrades(l, records[..|records| - 1]);
      ProjectTrade(before, records[|records| - 1])
  }

  /** The trade a trade entry is about. */
  function TradeId(r: Record): string {
    if r.command.TradeOffer? || r.args.tradeOutcome.None? then r.entry else r.args.tradeOutcome.value.id
  }

  predicate StandsApproved(trades: seq<TradeState>, id: string) {
    var i := TradeAt(trades, id);
    i >= 0 && trades[i].status == APPROVED
  }

  /** How the entry moves its trade's assets: 1 forward, -1 back, 0 not at all. */
  function Moved(trades: seq<TradeState>, r: Record): int {
    if r.args.tradeOutcome.None? then 0
    else
      var after := if r.args.tradeOutcome.value.status == APPROVED then 1 else 0;
      var before := if !r.command.TradeOffer? && StandsApproved(trades, r.args.tradeOutcome.value.id) then 1 else 0;
      after - before
  }

  /** What the count counts: a move of the trade's assets forward, back, or none. */
  lemma MovedIsTheMove(l: League, r: Record)
    requires ProjectTrade(l, r).Ok?
    ensures r.args.tradeOutcome.Some?
    ensures var before, after := l.assets, ProjectTrade(l, r).value.assets;
            var assets, moved := r.args.tradeOutcome.value.assets, Moved(l.book.trades, r);
            && (moved == 0 ==> after == before)
            && (moved > 0 ==> MoveAssets(before, assets, false) == Ok(after))
            && (moved < 0 ==> MoveAssets(before, assets, true) == Ok(after))
  {
  }

  function NetMoves(l: League, records: seq<Record>, id: string): int {
    if records == [] then 0
    else
      var init, r := records[..|records| - 1], records[|records| - 1];
      NetMoves(l, init, id) +
      if TradeId(r) == id && RunTrades(l, init).Ok? then Moved(RunTrades(l, init).value.book.trades, r) else 0
  }

  lemma TradeAtIs(trades: seq<TradeState>, id: string, i: nat)
    requires i < |trades| && trades[i].id == id && forall k :: 0 <= k < i ==> trades[k].id != id
    ensures TradeAt(trades, id) == i
  {
  }

  /** What settling one trade does to the book, seen from any id. */
  lemma SettledAt(trades: seq<TradeState>, i: nat, t: TradeState, id: string)
    requires i <= |trades|
    requires if i == |trades| then TradeAt(trades, t.id) < 0 else TradeAt(trades, t.id) == i
    ensures var after := if i == |trades| then trades + [t] else trades[i := t];
            && (t.id == id ==> TradeAt(after, id) == i)
            && (t.id != id ==> TradeAt(after, id) == TradeAt(trades, id))
            && (t.id != id && TradeAt(trades, id) >= 0 ==> after[TradeAt(trades, id)] == trades[TradeAt(trades, id)])
  {
    var after := if i == |trades| then trades + [t] else trades[i := t];
    var x := TradeAt(trades, id);
    if t.id == id {
      TradeAtIs(after, id, i);
    } else if x >= 0 {
      TradeAtIs(after, id, x);
    } else {
      assert forall k :: 0 <= k < |after| ==> after[k].id != id;
    }
  }

  lemma TradeAtSettled(trades: seq<TradeState>, i: nat, t: TradeState, id: string)
    requires i <= |trades|
    requires if i == |trades| then TradeAt(trades, t.id) < 0 else TradeAt(trades, t.id) == i
    ensures var after := if i == |trades| then trades + [t] else trades[i := t];
            StandsApproved(after, id) == if t.id == id then t.status == APPROVED else StandsApproved(trades, id)
  {
    SettledAt(trades, i, t, id);
  }

  /** A trade action adds no trade but an offer's own. */
  lemma OnlyOffersAdd(l: League, r: Record, id: string)
    requires ProjectTrade(l, r).Ok? && r.entry != id && TradeAt(ProjectTrade(l, r).value.book.trades, id) >= 0
    ensures TradeAt(l.book.trades, id) >= 0
  {
    var before, after := l.book.trades, ProjectTrade(l, r).value.book.trades;
    var x := TradeAt(after, id);
    assert x < |before| && before[x].id == id;
  }

  lemma {:induction false} TradeIdsAreOffers(l: League, records: seq<Record>, id: string)
    requires l.book.trades == [] && RunTrades(l, records).Ok?
    requires TradeAt(RunTrades(l, records).value.book.trades, id) >= 0
    ensures id in Entries(records)
  {
    var init, r := records[..|records| - 1], records[|records| - 1];
    if r.entry != id {
      OnlyOffersAdd(RunTrades(l, init).value, r, id);
      TradeIdsAreOffers(l, init, id);
      var k :| 0 <= k < |init| && init[k].entry == id;
      assert records[k].entry == id;
    }
  }

  /** Over any accepted run of trade actions, each trade's assets have moved once net if it stands approved and
      not at all otherwise. */
  lemma {:induction false} NetMovesFollowApproval(l: League, records: seq<Record>, id: string)
    requires l.book.trades == [] && Distinct(records) && RunTrades(l, records).Ok?
    ensures NetMoves(l, records, id) == if StandsApproved(RunTrades(l, records).value.book.trades, id) then 1 else 0
  {
    if records != [] {
      var init, r := records[..|records| - 1], records[|records| - 1];
      NetMovesFollowApproval(l, init, id);
      var trades, outcome := RunTrades(l, init).value.book.trades, r.args.tradeOutcome.value;
      if r.command.TradeOffer? {
        OfferIsFirst(l, records);
        TradeAtSettled(trades, |trades|, outcome.(id := r.entry), id);
        if r.entry == id { assert !StandsApproved(trades, id); }
      } else {
        TradeAtSettled(trades, TradeAt(trades, outcome.id), outcome, id);
      }
    }
  }

  /** The entry that offers a trade is the only one whose id it can be. */
  lemma OfferIsFirst(l: League, records: seq<Record>)
    requires l.book.trades == [] && Distinct(records) && RunTrades(l, records).Ok? && records != []
    ensures var init, r := records[..|records| - 1], records[|records| - 1];
            r.command.TradeOffer? ==> TradeAt(RunTrades(l, init).value.book.trades, r.entry) < 0
  {
    var init, r := records[..|records| - 1], records[|records| - 1];
    assert records == init + [r];
    FreshAtEnd(init, r);
    if TradeAt(RunTrades(l, init).value.book.trades, r.entry) >= 0 { TradeIdsAreOffers(l, init, r.entry); }
  }
}
