/** The close of the starting O-Line auction: one leftover unit for each franchise without one, at the minimum
    contract, kept reserved until the franchise has room. */
module OLine {
  import opened Assets
  import opened Lists
  import opened Text
  import opened Ordering
  import opened Market

  const LINE_CARD_BLOCK := 990000
  const LINE_CARDS := 32

  /** Whether an id is an O-Line unit's: 990001 to 990032, written as a number is. */
  predicate Card(id: string) {
    var n := Atoi(id);
    n.Some? && LINE_CARD_BLOCK < n.value <= LINE_CARD_BLOCK + LINE_CARDS && Digits(n.value) == id
  }

  function UnitsHeld(players: seq<NativePlayer>, franchise: string): nat {
    if players == [] then 0
    else
      UnitsHeld(players[..|players| - 1], franchise)
      + if players[|players| - 1].franchise == franchise && Card(players[|players| - 1].id) then 1 else 0
  }

  /** Where the franchise's units stand in the list. */
  ghost function UnitsAt(players: seq<NativePlayer>, franchise: string): set<int> {
    set k | 0 <= k < |players| && players[k].franchise == franchise && Card(players[k].id)
  }

  lemma {:induction false} UnitsAreCounted(players: seq<NativePlayer>, franchise: string)
    ensures UnitsHeld(players, franchise) == |UnitsAt(players, franchise)|
  {
    if players != [] {
      UnitsAreCounted(players[..|players| - 1], franchise);
      LastUnitCounts(players, franchise);
    }
  }

  lemma LastUnitCounts(players: seq<NativePlayer>, franchise: string)
    requires players != []
    ensures var n, before := |players| - 1, UnitsAt(players[..|players| - 1], franchise);
            && n !in before
            && UnitsAt(players, franchise) ==
                 if players[n].franchise == franchise && Card(players[n].id) then before + {n} else before
  {
  }

  method CountUnits(s: Snapshot, franchise: string) returns (count: nat)
    ensures count == UnitsHeld(s.players, franchise)
    ensures count == |UnitsAt(s.players, franchise)|
  {
    count := 0;
    for k := 0 to |s.players|
      invariant count == UnitsHeld(s.players[..k], franchise)
    {
      assert s.players[..k + 1][..k] == s.players[..k];
      if s.players[k].franchise == franchise && Card(s.players[k].id) {
        count := count + 1;
      }
    }
    assert s.players[..|s.players|] == s.players;
    UnitsAreCounted(s.players, franchise);
  }

  // ----- the minimum contract

  ghost predicate MinimumKnown(rows: Option<seq<Option<int>>>) {
    rows.Some? && rows.value != [] && forall k :: 0 <= k < |rows.value| ==> rows.value[k].Some? && rows.value[k].value > 0
  }

  /** The least minimum salary, once every row of the table is ruled. */
  method Minimum(rows: Option<seq<Option<int>>>) returns (least: Result<int>)
    ensures least.Ok? <==> MinimumKnown(rows)
    ensures least.Ok? ==> Some(least.value) in rows.value
    ensures least.Ok? ==> forall k :: 0 <= k < |rows.value| ==> 0 < least.value <= rows.value[k].value
  {
    if rows.None? {
      return Refused("the minimum contract salary needs a ruling");
    }
    var minimum := 0;
    for k := 0 to |rows.value|
      invariant forall i :: 0 <= i < k ==> rows.value[i].Some? && rows.value[i].value > 0
      invariant if k == 0 then minimum == 0 else minimum > 0 && Some(minimum) in rows.value[..k]
      invariant forall i :: 0 <= i < k ==> minimum <= rows.value[i].value
    {
      if rows.value[k].None? || rows.value[k].value <= 0 {
        return Refused("the minimum contract salary needs a ruling");
      }
      if minimum == 0 || rows.value[k].value < minimum {
        minimum := rows.value[k].value;
      }
    }
    if minimum == 0 {
      return Refused("the minimum contract salary needs a ruling");
    }
    return Ok(minimum);
  }

  // ----- reservations

  /** The text that marks a side's unit as reserved. */
  function Mark(side: string, unit: string): string {
    side + ":" + unit
  }

  lemma CardsHaveNoColon(unit: string)
    requires Card(unit)
    ensures ':' !in unit
  {
    DigitsReadBack(Atoi(unit).value);
  }

  lemma LastColon(side: string, unit: string)
    requires Card(unit)
    ensures Mark(side, unit)[|side|] == ':'
    ensures forall k :: |side| < k < |Mark(side, unit)| ==> Mark(side, unit)[k] != ':'
  {
    CardsHaveNoColon(unit);
    forall k | |side| < k < |Mark(side, unit)| ensures Mark(side, unit)[k] != ':' {
      assert Mark(side, unit)[k] == unit[k - |side| - 1];
    }
  }

  /** One side's mark for a unit is no other side's and no other unit's. */
  lemma MarksAreDistinct(side: string, unit: string, side': string, unit': string)
    requires Card(unit) && Card(unit') && Mark(side, unit) == Mark(side', unit')
    ensures side == side' && unit == unit'
  {
    var mark := Mark(side, unit);
    LastColon(side, unit);
    LastColon(side', unit');
    assert |side| == |side'|;
    assert mark[..|side|] == side && mark[..|side'|] == side';
    assert mark[|side| + 1..] == unit && mark[|side'| + 1..] == unit';
  }

  predicate FreeUnit(s: Snapshot, side: string, lot: PoolEntry) {
    Card(lot.player) && lot.side == side && !s.OnSide(side, lot.player)
  }

  /** The units of the side's pool that no roster of the side holds. */
  ghost function FreeUnits(s: Snapshot, side: string): set<string> {
    set k | 0 <= k < |s.pool| && FreeUnit(s, side, s.pool[k]) :: s.pool[k].player
  }

  /** The side's franchises that hold no unit. */
  ghost function Unitless(s: Snapshot, fs: seq<NativeFranchise>, side: string): set<string> {
    set k | 0 <= k < |fs| && s.SideOf(fs[k].id) == side && UnitsHeld(s.players, fs[k].id) == 0 :: fs[k].id
  }

  function Reserved(l: PoolEntry, franchise: string, salary: int, season: int): NativePlayer {
    NativePlayer(l.player, l.name, franchise, Active, salary, season, UFA, MinimumAfterAuction, 0, "", "")
  }

  ghost function UnitsOf(s: Snapshot, pending: seq<NativePlayer>, side: string): set<string> {
    set k | 0 <= k < |pending| && s.SideOf(pending[k].franchise) == side :: pending[k].id
  }

  ghost function TeamsOf(s: Snapshot, pending: seq<NativePlayer>, side: string): set<string> {
    set k | 0 <= k < |pending| && s.SideOf(pending[k].franchise) == side :: pending[k].franchise
  }

  /** No side's unit is listed twice. */
  ghost predicate UnitsOnce(s: Snapshot, pending: seq<NativePlayer>) {
    forall i, j :: 0 <= i < j < |pending| ==>
      pending[i].id != pending[j].id || s.SideOf(pending[i].franchise) != s.SideOf(pending[j].franchise)
  }

  ghost predicate TeamsOnce(pending: seq<NativePlayer>) {
    forall i, j :: 0 <= i < j < |pending| ==> pending[i].franchise != pending[j].franchise
  }

  lemma LastUnit(s: Snapshot, pending: seq<NativePlayer>, side: string)
    requires pending != [] && UnitsOnce(s, pending)
    ensures var p, before := pending[|pending| - 1], pending[..|pending| - 1];
            if s.SideOf(p.franchise) != side then UnitsOf(s, pending, side) == UnitsOf(s, before, side)
            else p.id !in UnitsOf(s, before, side) && UnitsOf(s, pending, side) == UnitsOf(s, before, side) + {p.id}
  {
  }

  lemma LastTeam(s: Snapshot, pending: seq<NativePlayer>, side: string)
    requires pending != [] && TeamsOnce(pending)
    ensures var p, before := pending[|pending| - 1], pending[..|pending| - 1];
            if s.SideOf(p.franchise) != side then TeamsOf(s, pending, side) == TeamsOf(s, before, side)
            else
              && p.franchise !in TeamsOf(s, before, side)
              && TeamsOf(s, pending, side) == TeamsOf(s, before, side) + {p.franchise}
  {
  }

  /** One unit a team and one team a unit: as many units as teams on each side. */
  lemma {:induction false} AsManyUnitsAsTeams(s: Snapshot, pending: seq<NativePlayer>, side: string)
    requires UnitsOnce(s, pending) && TeamsOnce(pending)
    ensures |UnitsOf(s, pending, side)| == |TeamsOf(s, pending, side)|
  {
    if pending == [] {
      assert UnitsOf(s, pending, side) == {} && TeamsOf(s, pending, side) == {};
    } else {
      LastUnit(s, pending, side);
      LastTeam(s, pending, side);
      AsManyUnitsAsTeams(s, pending[..|pending| - 1], side);
    }
  }

  // ----- the first close

  function ByName(): (PoolEntry, PoolEntry) -> bool {
    (a: PoolEntry, b: PoolEntry) => LotLe(a, b)
  }

  /** By name, and by id where names are equal. */
  predicate LotLe(a: PoolEntry, b: PoolEntry) {
    if a.name == b.name then TextLe(a.player, b.player) else TextLe(a.name, b.name)
  }

  function ById(): (NativeFranchise, NativeFranchise) -> bool {
    (a: NativeFranchise, b: NativeFranchise) => TextLe(a.id, b.id)
  }

  function FranchiseId(): NativeFranchise -> string {
    (f: NativeFranchise) => f.id
  }

  lemma LotsAreOrdered()
    ensures Orders(ByName())
  {
    forall x, y ensures ByName()(x, y) || ByName()(y, x) {
      TextLeTotal(x.name, y.name);
      TextLeTotal(x.player, y.player);
    }
    forall x, y, z | ByName()(x, y) && ByName()(y, z) ensures ByName()(x, z) {
      if x.name == y.name && y.name == z.name {
        TextLeChains(x.player, y.player, z.player);
      } else if x.name != y.name && y.name != z.name {
        TextLeChains(x.name, y.name, z.name);
        if x.name == z.name {
          TextLeSettles(x.name, y.name);
        }
      }
    }
  }

  lemma FranchisesAreOrdered()
    ensures Orders(ById())
  {
    forall x, y ensures ById()(x, y) || ById()(y, x) {
      TextLeTotal(x.id, y.id);
    }
    forall x, y, z | ById()(x, y) && ById()(y, z) ensures ById()(x, z) {
      TextLeChains(x.id, y.id, z.id);
    }
  }

  predicate Unsettled(a: BidAuction) {
    Card(a.player) && !a.decided && exists k :: 0 <= k < |a.bids| && a.bids[k].Live()
  }

  ghost predicate Settled(auctions: seq<BidAuction>) {
    forall k :: 0 <= k < |auctions| ==> !Unsettled(auctions[k])
  }

  ghost predicate NoneHoldsTwo(s: Snapshot) {
    forall k :: 0 <= k < |s.franchises| ==> UnitsHeld(s.players, s.franchises[k].id) <= 1
  }

  /** Every side has a free unit for each of its franchises without one. */
  ghost predicate EnoughUnits(s: Snapshot) {
    forall side :: |Unitless(s, s.franchises, side)| <= |FreeUnits(s, side)|
  }

  /** What one reservation is: a minimum contract on the first free unit of the franchise's own side, by name, that
      no earlier reservation took. */
  ghost predicate Reserves(s: Snapshot, earlier: seq<NativePlayer>, p: NativePlayer, salary: int, season: int) {
    var side := s.SideOf(p.franchise);
    && UnitsHeld(s.players, p.franchise) == 0
    && exists l <- s.pool ::
         && FreeUnit(s, side, l) && l.player !in UnitsOf(s, earlier, side)
         && p == Reserved(l, p.franchise, salary, season)
         && forall other <- s.pool ::
              FreeUnit(s, side, other) && other.player !in UnitsOf(s, earlier, side) ==> LotLe(l, other)
  }

  ghost predicate EachReserves(s: Snapshot, pending: seq<NativePlayer>, salary: int, season: int) {
    forall k :: 0 <= k < |pending| ==> Reserves(s, pending[..k], pending[k], salary, season)
  }

  /** Franchises of the list that hold no unit, in the list's order. */
  ghost function UnitlessIds(s: Snapshot, fs: seq<NativeFranchise>): seq<string> {
    if fs == [] then []
    else
      var f := fs[|fs| - 1];
      UnitlessIds(s, fs[..|fs| - 1]) + if UnitsHeld(s.players, f.id) == 0 then [f.id] else []
  }

  ghost function TeamList(pending: seq<NativePlayer>): seq<string> {
    seq(|pending|, k requires 0 <= k < |pending| => pending[k].franchise)
  }

  lemma {:induction false} UnitlessIdsHold(s: Snapshot, fs: seq<NativeFranchise>, id: string)
    ensures id in UnitlessIds(s, fs) <==>
      exists k :: 0 <= k < |fs| && fs[k].id == id && UnitsHeld(s.players, fs[k].id) == 0
  {
    if fs != [] {
      var n := |fs| - 1;
      UnitlessIdsHold(s, fs[..n], id);
      if k :| 0 <= k < |fs| && fs[k].id == id && UnitsHeld(s.players, fs[k].id) == 0 {
        assert k < n ==> fs[..n][k] == fs[k];
      }
    }
  }

  lemma UnitlessListed(s: Snapshot, fs: seq<NativeFranchise>, pending: seq<NativePlayer>, side: string)
    requires TeamList(pending) == UnitlessIds(s, fs)
    ensures TeamsOf(s, pending, side) == Unitless(s, fs, side)
  {
    forall id ensures id in TeamsOf(s, pending, side) <==> id in Unitless(s, fs, side) {
      UnitlessIdsHold(s, fs, id);
      if id in TeamList(pending) {
        var k :| 0 <= k < |pending| && TeamList(pending)[k] == id;
        assert pending[k].franchise == id;
      }
      if k :| 0 <= k < |pending| && pending[k].franchise == id {
        assert TeamList(pending)[k] == id;
      }
    }
  }

  lemma {:induction false} UnitlessIdsOnce(s: Snapshot, fs: seq<NativeFranchise>)
    requires KeyedOnce(fs, FranchiseId())
    ensures forall i, j :: 0 <= i < j < |UnitlessIds(s, fs)| ==> UnitlessIds(s, fs)[i] != UnitlessIds(s, fs)[j]
  {
    if fs != [] {
      var n := |fs| - 1;
      UnitlessIdsOnce(s, fs[..n]);
      forall k | 0 <= k < n ensures fs[..n][k].id != fs[n].id {
        assert FranchiseId()(fs[k]) != FranchiseId()(fs[n]);
      }
      UnitlessIdsHold(s, fs[..n], fs[n].id);
      assert fs[n].id !in UnitlessIds(s, fs[..n]);
    }
  }

  lemma {:induction false} UnitlessIdsAscend(s: Snapshot, fs: seq<NativeFranchise>)
    requires Ascending(fs, ById())
    ensures Ascending(UnitlessIds(s, fs), TextLe)
  {
    if fs != [] {
      var n := |fs| - 1;
      UnitlessIdsAscend(s, fs[..n]);
      forall id | id in UnitlessIds(s, fs[..n]) ensures TextLe(id, fs[n].id) {
        UnitlessIdsHold(s, fs[..n], id);
        var k :| 0 <= k < n && fs[..n][k].id == id;
        assert ById()(fs[k], fs[n]);
      }
    }
  }

  lemma SortedUnitless(s: Snapshot, side: string)
    ensures Unitless(s, Sort(s.franchises, ById()), side) == Unitless(s, s.franchises, side)
  {
    var fs := Sort(s.franchises, ById());
    forall id ensures id in Unitless(s, fs, side) <==> id in Unitless(s, s.franchises, side) {
      if k :| 0 <= k < |fs| && fs[k].id == id {
        SortHolds(s.franchises, ById(), fs[k]);
      }
      if k :| 0 <= k < |s.franchises| && s.franchises[k].id == id {
        SortHolds(s.franchises, ById(), s.franchises[k]);
      }
    }
  }

  ghost predicate IsMinimum(rows: Option<seq<Option<int>>>, salary: int) {
    && MinimumKnown(rows)
    && Some(salary) in rows.value
    && forall k :: 0 <= k < |rows.value| ==> salary <= rows.value[k].value
  }

  /** The marks kept are those of the units reserved so far. */
  ghost predicate MarksMatch(s: Snapshot, pending: seq<NativePlayer>, marks: set<string>) {
    forall side, unit {:trigger Mark(side, unit)} ::
      Card(unit) ==> (Mark(side, unit) in marks <==> unit in UnitsOf(s, pending, side))
  }

  ghost predicate AllCards(pending: seq<NativePlayer>) {
    forall k :: 0 <= k < |pending| ==> Card(pending[k].id)
  }

  lemma UnitsOfMore(s: Snapshot, pending: seq<NativePlayer>, p: NativePlayer, side: string, unit: string)
    ensures unit in UnitsOf(s, pending + [p], side) <==>
      unit in UnitsOf(s, pending, side) || (unit == p.id && side == s.SideOf(p.franchise))
  {
    var more := pending + [p];
    if k :| 0 <= k < |pending| && pending[k].id == unit && s.SideOf(pending[k].franchise) == side {
      assert more[k] == pending[k];
    }
    assert more[|pending|] == p;
  }

  lemma MarkMore(s: Snapshot, pending: seq<NativePlayer>, marks: set<string>, p: NativePlayer)
    requires MarksMatch(s, pending, marks) && Card(p.id)
    ensures MarksMatch(s, pending + [p], marks + {Mark(s.SideOf(p.franchise), p.id)})
  {
    forall side, unit | Card(unit)
      ensures Mark(side, unit) in marks + {Mark(s.SideOf(p.franchise), p.id)} <==> unit in UnitsOf(s, pending + [p], side)
    {
      UnitsOfMore(s, pending, p, side, unit);
      if Mark(side, unit) == Mark(s.SideOf(p.franchise), p.id) {
        MarksAreDistinct(side, unit, s.SideOf(p.franchise), p.id);
      }
    }
  }

  lemma OnceMore(s: Snapshot, pending: seq<NativePlayer>, p: NativePlayer)
    requires UnitsOnce(s, pending) && p.id !in UnitsOf(s, pending, s.SideOf(p.franchise))
    ensures UnitsOnce(s, pending + [p])
  {
  }

  lemma ReservesMore(s: Snapshot, pending: seq<NativePlayer>, p: NativePlayer, salary: int, season: int)
    requires EachReserves(s, pending, salary, season) && Reserves(s, pending, p, salary, season)
    ensures EachReserves(s, pending + [p], salary, season)
  {
    forall k | 0 <= k < |pending| + 1
      ensures Reserves(s, (pending + [p])[..k], (pending + [p])[k], salary, season)
    {
      assert (pending + [p])[..k] == pending[..k];
      assert k == |pending| ==> pending[..k] == pending;
    }
  }

  /** Whether a lot can still be reserved on its side. */
  predicate Reservable(s: Snapshot, side: string, marks: set<string>, l: PoolEntry) {
    Card(l.player) && l.side == side && Mark(side, l.player) !in marks && !s.OnSide(side, l.player)
  }

  /** No lot left to reserve comes before the first one found. */
  lemma FirstLotLeads(s: Snapshot, pending: seq<NativePlayer>, marks: set<string>, side: string, i: nat, other: PoolEntry)
    requires MarksMatch(s, pending, marks)
    requires var lots := Sort(s.pool, ByName());
             i < |lots| && forall k :: 0 <= k < i ==> !Reservable(s, side, marks, lots[k])
    requires other in s.pool && FreeUnit(s, side, other) && other.player !in UnitsOf(s, pending, side)
    ensures LotLe(Sort(s.pool, ByName())[i], other)
  {
    var lots := Sort(s.pool, ByName());
    LotsAreOrdered();
    SortAscends(s.pool, ByName());
    SortHolds(s.pool, ByName(), other);
    var k :| 0 <= k < |lots| && lots[k] == other;
    assert Mark(side, other.player) !in marks;
    assert Reservable(s, side, marks, lots[k]);
    assert k >= i && (k > i ==> ByName()(lots[i], lots[k]));
    TextLeTotal(other.player, other.player);
  }

  /** The first lot left by name is what the franchise's reservation is. */
  lemma FirstLotReserves(s: Snapshot, pending: seq<NativePlayer>, marks: set<string>, id: string, i: nat, salary: int,
                         season: int)
    requires MarksMatch(s, pending, marks) && UnitsHeld(s.players, id) == 0
    requires var lots := Sort(s.pool, ByName());
             && i < |lots| && Reservable(s, s.SideOf(id), marks, lots[i])
             && forall k :: 0 <= k < i ==> !Reservable(s, s.SideOf(id), marks, lots[k])
    ensures Reserves(s, pending, Reserved(Sort(s.pool, ByName())[i], id, salary, season), salary, season)
  {
    var side, l := s.SideOf(id), Sort(s.pool, ByName())[i];
    SortHolds(s.pool, ByName(), l);
    assert Mark(side, l.player) !in marks;
    forall other <- s.pool | FreeUnit(s, side, other) && other.player !in UnitsOf(s, pending, side)
      ensures LotLe(l, other)
    {
      FirstLotLeads(s, pending, marks, side, i, other);
    }
    assert l in s.pool && FreeUnit(s, side, l) && l.player !in UnitsOf(s, pending, side);
  }

  /** With no lot left to reserve, the side has fewer free units than franchises without one. */
  lemma Shortage(s: Snapshot, pending: seq<NativePlayer>, marks: set<string>, fs: seq<NativeFranchise>, k: nat)
    requires MarksMatch(s, pending, marks) && UnitsOnce(s, pending)
    requires KeyedOnce(s.franchises, FranchiseId()) && fs == Sort(s.franchises, ById()) && k < |fs|
    requires TeamList(pending) == UnitlessIds(s, fs[..k]) && UnitsHeld(s.players, fs[k].id) == 0
    requires forall l <- s.pool :: !Reservable(s, s.SideOf(fs[k].id), marks, l)
    ensures !EnoughUnits(s)
  {
    var side := s.SideOf(fs[k].id);
    forall unit | unit in FreeUnits(s, side) ensures unit in UnitsOf(s, pending, side) {
      var j :| 0 <= j < |s.pool| && FreeUnit(s, side, s.pool[j]) && s.pool[j].player == unit;
      assert !Reservable(s, side, marks, s.pool[j]);
      assert Mark(side, unit) in marks;
    }
    SubsetCount(FreeUnits(s, side), UnitsOf(s, pending, side));
    SortKeepsKeys(s.franchises, ById(), FranchiseId());
    TeamsListedOnce(s, pending, fs, k);
    AsManyUnitsAsTeams(s, pending, side);
    UnitlessListed(s, fs[..k], pending, side);
    OneMoreUnitless(s, fs, k);
    SortedUnitless(s, side);
  }

  lemma TeamsListedOnce(s: Snapshot, pending: seq<NativePlayer>, fs: seq<NativeFranchise>, k: nat)
    requires KeyedOnce(fs, FranchiseId()) && k <= |fs| && TeamList(pending) == UnitlessIds(s, fs[..k])
    ensures TeamsOnce(pending)
  {
    UnitlessIdsOnce(s, fs[..k]);
    forall i, j | 0 <= i < j < |pending| ensures pending[i].franchise != pending[j].franchise {
      assert TeamList(pending)[i] != TeamList(pending)[j];
    }
  }

  lemma OneMoreUnitless(s: Snapshot, fs: seq<NativeFranchise>, k: nat)
    requires KeyedOnce(fs, FranchiseId()) && k < |fs| && UnitsHeld(s.players, fs[k].id) == 0
    ensures var side := s.SideOf(fs[k].id); |Unitless(s, fs[..k], side)| < |Unitless(s, fs, side)|
  {
    var side := s.SideOf(fs[k].id);
    var before, all := Unitless(s, fs[..k], side), Unitless(s, fs, side);
    forall j | 0 <= j < k ensures fs[..k][j].id != fs[k].id {
      assert FranchiseId()(fs[j]) != FranchiseId()(fs[k]);
    }
    assert fs[k].id !in before && fs[k].id in all;
    assert before <= all by {
      forall id | id in before ensures id in all {
        var j :| 0 <= j < k && fs[..k][j].id == id;
        assert fs[j] == fs[..k][j];
      }
    }
    SubsetCount(before, all);
  }

  /** Reservations for all of a side's unit-less franchises show that it had enough units. */
  lemma ReservedIsEnough(s: Snapshot, pending: seq<NativePlayer>, salary: int, season: int)
    requires EachReserves(s, pending, salary, season) && UnitsOnce(s, pending)
    requires KeyedOnce(s.franchises, FranchiseId())
    requires TeamList(pending) == UnitlessIds(s, Sort(s.franchises, ById()))
    ensures EnoughUnits(s)
  {
    var fs := Sort(s.franchises, ById());
    SortKeepsKeys(s.franchises, ById(), FranchiseId());
    assert fs[..|fs|] == fs;
    TeamsListedOnce(s, pending, fs, |fs|);
    forall side ensures |Unitless(s, s.franchises, side)| <= |FreeUnits(s, side)| {
      UnitlessListed(s, fs, pending, side);
      SortedUnitless(s, side);
      AsManyUnitsAsTeams(s, pending, side);
      forall unit | unit in UnitsOf(s, pending, side) ensures unit in FreeUnits(s, side) {
        var k :| 0 <= k < |pending| && pending[k].id == unit && s.SideOf(pending[k].franchise) == side;
        assert Reserves(s, pending[..k], pending[k], salary, season);
      }
      SubsetCount(UnitsOf(s, pending, side), FreeUnits(s, side));
    }
  }

  /** How far the first close has come after k franchises. */
  ghost predicate SoFar(s: Snapshot, k: nat, pending: seq<NativePlayer>, marks: set<string>, salary: int, season: int) {
    var fs := Sort(s.franchises, ById());
    && k <= |fs|
    && TeamList(pending) == UnitlessIds(s, fs[..k])
    && UnitsOnce(s, pending) && AllCards(pending) && MarksMatch(s, pending, marks)
    && EachReserves(s, pending, salary, season)
    && forall i :: 0 <= i < k ==> UnitsHeld(s.players, fs[i].id) <= 1
  }

  lemma SkipsOne(s: Snapshot, k: nat, pending: seq<NativePlayer>, marks: set<string>, salary: int, season: int)
    requires SoFar(s, k, pending, marks, salary, season) && k < |s.franchises|
    requires UnitsHeld(s.players, Sort(s.franchises, ById())[k].id) == 1
    ensures SoFar(s, k + 1, pending, marks, salary, season)
  {
    ListsNoMore(s, Sort(s.franchises, ById()), k);
  }

  lemma ListsNoMore(s: Snapshot, fs: seq<NativeFranchise>, k: nat)
    requires k < |fs| && UnitsHeld(s.players, fs[k].id) != 0
    ensures UnitlessIds(s, fs[..k + 1]) == UnitlessIds(s, fs[..k])
  {
    assert fs[..k + 1][..k] == fs[..k];
  }

  lemma UnmarkedIsNew(s: Snapshot, pending: seq<NativePlayer>, marks: set<string>, p: NativePlayer)
    requires UnitsOnce(s, pending) && AllCards(pending) && MarksMatch(s, pending, marks)
    requires Card(p.id) && Mark(s.SideOf(p.franchise), p.id) !in marks
    ensures UnitsOnce(s, pending + [p]) && AllCards(pending + [p])
    ensures MarksMatch(s, pending + [p], marks + {Mark(s.SideOf(p.franchise), p.id)})
  {
    OnceMore(s, pending, p);
    MarkMore(s, pending, marks, p);
  }

  lemma ListsOneMore(s: Snapshot, fs: seq<NativeFranchise>, k: nat, pending: seq<NativePlayer>, p: NativePlayer)
    requires k < |fs| && TeamList(pending) == UnitlessIds(s, fs[..k])
    requires p.franchise == fs[k].id && UnitsHeld(s.players, fs[k].id) == 0
    ensures TeamList(pending + [p]) == UnitlessIds(s, fs[..k + 1])
  {
    assert fs[..k + 1][..k] == fs[..k];
    assert TeamList(pending + [p]) == TeamList(pending) + [p.franchise];
  }

  lemma ReservesOne(s: Snapshot, k: nat, pending: seq<NativePlayer>, marks: set<string>, salary: int, season: int,
                    i: nat)
    requires SoFar(s, k, pending, marks, salary, season) && k < |s.franchises|
    requires UnitsHeld(s.players, Sort(s.franchises, ById())[k].id) == 0
    requires var lots, side := Sort(s.pool, ByName()), s.SideOf(Sort(s.franchises, ById())[k].id);
             && i < |lots| && Reservable(s, side, marks, lots[i])
             && forall j :: 0 <= j < i ==> !Reservable(s, side, marks, lots[j])
    ensures var p := Reserved(Sort(s.pool, ByName())[i], Sort(s.franchises, ById())[k].id, salary, season);
            SoFar(s, k + 1, pending + [p], marks + {Mark(s.SideOf(p.franchise), p.id)}, salary, season)
  {
    var fs := Sort(s.franchises, ById());
    var p := Reserved(Sort(s.pool, ByName())[i], fs[k].id, salary, season);
    FirstLotReserves(s, pending, marks, p.franchise, i, salary, season);
    ReservesMore(s, pending, p, salary, season);
    UnmarkedIsNew(s, pending, marks, p);
    ListsOneMore(s, fs, k, pending, p);
  }

  lemma LotsRunOut(s: Snapshot, k: nat, pending: seq<NativePlayer>, marks: set<string>, salary: int, season: int)
    requires KeyedOnce(s.franchises, FranchiseId())
    requires SoFar(s, k, pending, marks, salary, season) && k < |s.franchises|
    requires UnitsHeld(s.players, Sort(s.franchises, ById())[k].id) == 0
    requires forall l <- Sort(s.pool, ByName()) :: !Reservable(s, s.SideOf(Sort(s.franchises, ById())[k].id), marks, l)
    ensures !EnoughUnits(s)
  {
    forall l <- s.pool ensures !Reservable(s, s.SideOf(Sort(s.franchises, ById())[k].id), marks, l) {
      SortHolds(s.pool, ByName(), l);
    }
    Shortage(s, pending, marks, Sort(s.franchises, ById()), k);
  }

  /** Each reservation is of its side's first free unit left by name, at the minimum contract. */
  ghost predicate AtMinimum(s: Snapshot, first: seq<NativePlayer>, rows: Option<seq<Option<int>>>, season: int) {
    exists salary :: IsMinimum(rows, salary) && EachReserves(s, first, salary, season)
  }

  lemma AllReserved(s: Snapshot, pending: seq<NativePlayer>, marks: set<string>, rows: Option<seq<Option<int>>>,
                    salary: int, season: int)
    requires KeyedOnce(s.franchises, FranchiseId()) && IsMinimum(rows, salary)
    requires SoFar(s, |s.franchises|, pending, marks, salary, season)
    ensures TeamList(pending) == UnitlessIds(s, Sort(s.franchises, ById())) && Ascending(TeamList(pending), TextLe)
    ensures NoneHoldsTwo(s) && EnoughUnits(s) && AtMinimum(s, pending, rows, season)
    ensures UnitsOnce(s, pending) && AllCards(pending)
  {
    var fs := Sort(s.franchises, ById());
    FranchisesAreOrdered();
    SortAscends(s.franchises, ById());
    UnitlessIdsAscend(s, fs);
    assert fs[..|fs|] == fs;
    forall k | 0 <= k < |s.franchises| ensures UnitsHeld(s.players, s.franchises[k].id) <= 1 {
      SortHolds(s.franchises, ById(), s.franchises[k]);
    }
    ReservedIsEnough(s, pending, salary, season);
  }

  lemma HoldsTwo(s: Snapshot, k: nat)
    requires k < |s.franchises| && UnitsHeld(s.players, Sort(s.franchises, ById())[k].id) > 1
    ensures !NoneHoldsTwo(s)
  {
    SortHolds(s.franchises, ById(), Sort(s.franchises, ById())[k]);
  }

  /** A reservation, field by field: the least salary of the table for the one season, on a unit the side's pool lists. */
  ghost predicate MinimumContract(s: Snapshot, rows: Option<seq<Option<int>>>, season: int, p: NativePlayer) {
    && rows.Some? && Some(p.salary) in rows.value
    && (forall k :: 0 <= k < |rows.value| ==> rows.value[k].Some? && p.salary <= rows.value[k].value)
    && p.expirationYear == season && p.status == Active && p.contractStatus == UFA && p.note == MinimumAfterAuction
    && p.rookieRound == 0 && p.acquiredVia == "" && p.correction == ""
    && exists l <- s.pool :: l.player == p.id && l.name == p.name && l.side == s.SideOf(p.franchise)
  }

  lemma ReservationsAreMinimum(s: Snapshot, first: seq<NativePlayer>, rows: Option<seq<Option<int>>>, season: int)
    requires AtMinimum(s, first, rows, season)
    ensures forall p <- first :: MinimumContract(s, rows, season, p)
  {
    var salary :| IsMinimum(rows, salary) && EachReserves(s, first, salary, season);
    forall p <- first ensures MinimumContract(s, rows, season, p) {
      var k :| 0 <= k < |first| && first[k] == p;
      assert Reserves(s, first[..k], first[k], salary, season);
    }
  }

  /** The units are the ids 990001 to 990032 and no other. */
  lemma CardsAreTheUnits(id: string)
    ensures Card(id) <==> exists n: nat :: 990001 <= n <= 990032 && id == Digits(n)
  {
    if n: nat :| 990001 <= n <= 990032 && id == Digits(n) {
      DigitsReadBack(n);
    }
  }

  method CheckSettled(auctions: seq<BidAuction>) returns (settled: bool)
    ensures settled <==> Settled(auctions)
    ensures settled <==> forall k, j :: 0 <= k < |auctions| && 0 <= j < |auctions[k].bids| ==>
      || !Card(auctions[k].player) || auctions[k].decided
      || auctions[k].bids[j].replaced || auctions[k].bids[j].withdrawn
  {
    for k := 0 to |auctions|
      invariant forall i :: 0 <= i < k ==> !Unsettled(auctions[i])
    {
      if Unsettled(auctions[k]) {
        return false;
      }
    }
    return true;
  }

  function FirstLot(s: Snapshot, side: string, marks: set<string>, lots: seq<PoolEntry>): (i: int)
    ensures -1 <= i < |lots|
    ensures i >= 0 ==> Reservable(s, side, marks, lots[i]) && forall k :: 0 <= k < i ==> !Reservable(s, side, marks, lots[k])
    ensures i < 0 ==> forall l <- lots :: !Reservable(s, side, marks, l)
  {
    IndexFunc(lots, (l: PoolEntry) => Reservable(s, side, marks, l))
  }

  /** What one franchise adds to the reservations and the marks: nothing if it holds a unit. */
  method ReserveFor(s: Snapshot, k: nat, franchise: string, lots: seq<PoolEntry>, pending: seq<NativePlayer>,
                    reserved: set<string>, salary: int, season: int)
    returns (next: Result<(seq<NativePlayer>, set<string>)>)
    requires KeyedOnce(s.franchises, FranchiseId()) && lots == Sort(s.pool, ByName())
    requires SoFar(s, k, pending, reserved, salary, season)
    requires k < |s.franchises| && franchise == Sort(s.franchises, ById())[k].id
    ensures next.Ok? ==> SoFar(s, k + 1, next.value.0, next.value.1, salary, season)
    ensures next.Refused? ==> !NoneHoldsTwo(s) || !EnoughUnits(s)
  {
    var held := CountUnits(s, franchise);
    if held > 1 {
      HoldsTwo(s, k);
      return Refused("a franchise holds more than one O-Line unit; correct its roster first");
    }
    if held == 1 {
      SkipsOne(s, k, pending, reserved, salary, season);
      return Ok((pending, reserved));
    }
    var side := s.SideOf(franchise);
    var lot := FirstLot(s, side, reserved, lots);
    if lot < 0 {
      LotsRunOut(s, k, pending, reserved, salary, season);
      return Refused("not enough leftover O-Line units for a franchise");
    }
    var p := Reserved(lots[lot], franchise, salary, season);
    ReservesOne(s, k, pending, reserved, salary, season, lot);
    return Ok((pending + [p], reserved + {Mark(side, p.id)}));
  }

  /** The first close reserves a unit for every franchise without one, or refuses. It refuses for shortage exactly
      where some side has more such franchises than free units. */
  method InitialAssignments(s: Snapshot, auctions: seq<BidAuction>, rows: Option<seq<Option<int>>>, season: int)
    returns (out: Result<seq<NativePlayer>>)
    requires KeyedOnce(s.franchises, FranchiseId())
    ensures out.Ok? <==> Settled(auctions) && MinimumKnown(rows) && NoneHoldsTwo(s) && EnoughUnits(s)
    ensures out.Ok? ==> Ascending(TeamList(out.value), TextLe)
    ensures out.Ok? ==> TeamList(out.value) == UnitlessIds(s, Sort(s.franchises, ById()))
    ensures out.Ok? ==> UnitsOnce(s, out.value) && AllCards(out.value)
    ensures out.Ok? ==> AtMinimum(s, out.value, rows, season)
    ensures out.Ok? ==> forall p <- out.value :: MinimumContract(s, rows, season, p)
  {
    var settled := CheckSettled(auctions);
    if !settled {
      return Refused("decide the standing O-Line bids before closing the auction; settle any ties first");
    }
    var salary :- Minimum(rows);
    var franchises := Sort(s.franchises, ById());
    var lots := Sort(s.pool, ByName());
    var reserved: set<string> := {};
    var pending: seq<NativePlayer> := [];
    for k := 0 to |franchises|
      invariant SoFar(s, k, pending, reserved, salary, season)
    {
      var next :- ReserveFor(s, k, franchises[k].id, lots, pending, reserved, salary, season);
      pending, reserved := next.0, next.1;
    }
    AllReserved(s, pending, reserved, rows, salary, season);
    ReservationsAreMinimum(s, pending, rows, season);
    return Ok(pending);
  }
}
