/** Closing the O-Line auction again and again: every close hands out the reservations that have room and keeps the
    rest, until none is left. */
module OLineCloses {
  import opened Assets
  import opened Lists
  import opened Records
  import opened Ordering
  import opened Market
  import opened Projector
  import opened OLine

  /** The cap and roster limits, resolved elsewhere: whether the franchise can take the contract. */
  type Limits = (Snapshot, NativePlayer) -> bool

  /** Whether a reservation can be handed out now. It would be the franchise's only unit, and nobody's else. */
  predicate Room(s: Snapshot, fits: Limits, p: NativePlayer) {
    && !s.OnSide(s.SideOf(p.franchise), p.id)
    && UnitsHeld(s.players, p.franchise) + (if Card(p.id) then 1 else 0) == 1
    && fits(s, p)
  }

  function RoomIs(s: Snapshot, fits: Limits, room: bool): NativePlayer -> bool {
    (p: NativePlayer) => Room(s, fits, p) == room
  }

  function WithRoom(s: Snapshot, fits: Limits, pending: seq<NativePlayer>, room: bool): seq<NativePlayer> {
    Filter(pending, RoomIs(s, fits, room))
  }

  /** One close of a list of reservations: those with room and those without, each in the list's order. */
  function Split(s: Snapshot, fits: Limits, pending: seq<NativePlayer>): OLineOutcome {
    OLineOutcome(WithRoom(s, fits, pending, true), WithRoom(s, fits, pending, false))
  }

  /** What the first close of an auction reserves. */
  ghost predicate FirstReservations(s: Snapshot, first: seq<NativePlayer>) {
    && TeamList(first) == UnitlessIds(s, Sort(s.franchises, ById()))
    && UnitsOnce(s, first) && AllCards(first)
  }

  method SplitByRoom(s: Snapshot, fits: Limits, reservations: seq<NativePlayer>) returns (outcome: OLineOutcome)
    ensures outcome == Split(s, fits, reservations)
  {
    var placed, pending := [], [];
    for k := 0 to |reservations|
      invariant OLineOutcome(placed, pending) == Split(s, fits, reservations[..k])
    {
      assert reservations[..k + 1][..k] == reservations[..k];
      if !Room(s, fits, reservations[k]) {
        pending := pending + [reservations[k]];
        continue;
      }
      placed := placed + [reservations[k]];
    }
    assert reservations[..|reservations|] == reservations;
    return OLineOutcome(placed, pending);
  }

  lemma {:induction false} FilterFrom<T>(list: seq<T>, test: T -> bool)
    ensures forall x <- Filter(list, test) :: x in list && test(x)
  {
    if list != [] {
      FilterFrom(list[..|list| - 1], test);
    }
  }

  lemma {:induction false} FilterHas<T>(list: seq<T>, test: T -> bool, x: T)
    ensures x in Filter(list, test) <==> x in list && test(x)
  {
    if list != [] {
      FilterHas(list[..|list| - 1], test, x);
      assert list == list[..|list| - 1] + [list[|list| - 1]];
    }
  }

  /** A unit is handed out if nobody on the franchise's side holds it, the franchise holds none, and the contract fits;
      otherwise it stays reserved. */
  lemma HandedOutIff(s: Snapshot, fits: Limits, pending: seq<NativePlayer>, p: NativePlayer)
    requires p in pending && Card(p.id)
    ensures var o := Split(s, fits, pending);
            && (p in o.placed <==>
                  && (forall k :: 0 <= k < |s.players| ==>
                        s.players[k].id != p.id || s.SideOf(s.players[k].franchise) != s.SideOf(p.franchise))
                  && UnitsAt(s.players, p.franchise) == {} && fits(s, p))
            && (p in o.pending <==> p !in o.placed)
  {
    FilterHas(pending, RoomIs(s, fits, true), p);
    FilterHas(pending, RoomIs(s, fits, false), p);
    UnitsAreCounted(s.players, p.franchise);
  }

  /** Whoever has room and whoever has not, each keeps the minimum contract that was reserved. */
  lemma OutcomeIsMinimum(s: Snapshot, fits: Limits, first: seq<NativePlayer>, rows: Option<seq<Option<int>>>, season: int)
    requires forall p <- first :: MinimumContract(s, rows, season, p)
    ensures AllMinimum(s, Split(s, fits, first), rows, season)
  {
    FilterFrom(first, RoomIs(s, fits, true));
    FilterFrom(first, RoomIs(s, fits, false));
  }

  ghost predicate AllMinimum(s: Snapshot, o: OLineOutcome, rows: Option<seq<Option<int>>>, season: int) {
    forall p <- o.placed + o.pending :: MinimumContract(s, rows, season, p)
  }

  /** A close of the auction: the outstanding reservations, new at the first close, split by who has room. */
  method PrepareClose(n: Native, on: bool, fits: Limits, rows: Option<seq<Option<int>>>, season: int)
    returns (out: Result<OLineOutcome>)
    requires KeyedOnce(n.league.assets.franchises, FranchiseId())
    ensures !n.seeded || !on ==> out.Refused?
    ensures n.seeded && on && n.league.book.oline.Some? ==>
      var pending := n.league.book.oline.value.pending;
      out.Ok? == (pending != []) && (out.Ok? ==> out.value == Split(n.league.assets, fits, pending))
    ensures n.seeded && on && n.league.book.oline.None? ==>
      var s := n.league.assets;
      && (out.Ok? <==> Settled(n.league.book.auctions) && MinimumKnown(rows) && NoneHoldsTwo(s) && EnoughUnits(s))
      && (out.Ok? ==>
            exists first :: FirstReservations(s, first) && AtMinimum(s, first, rows, season) && out.value == Split(s, fits, first))
    ensures n.seeded && on && n.league.book.oline.None? && out.Ok? ==> AllMinimum(n.league.assets, out.value, rows, season)
  {
    if !n.seeded {
      return Refused("record starting assets before closing the O-Line auction");
    }
    if !on {
      return Refused("this league does not use O-Line units");
    }
    var s := n.league.assets;
    var reservations;
    if n.league.book.oline.Some? {
      reservations := n.league.book.oline.value.pending;
      if reservations == [] {
        return Refused("the O-Line auction is already closed and every unit is assigned");
      }
    } else {
      reservations :- InitialAssignments(s, n.league.book.auctions, rows, season);
      OutcomeIsMinimum(s, fits, reservations, rows, season);
    }
    var outcome := SplitByRoom(s, fits, reservations);
    return Ok(outcome);
  }

  // ----- reservations as a multiset

  /** No unit of a side and no franchise appears twice, and every reservation is of a unit. */
  ghost predicate Apart(s: Snapshot, ms: multiset<NativePlayer>) {
    && (forall p :: p in ms ==> ms[p] == 1 && Card(p.id))
    && (forall p, q :: p in ms && q in ms && p != q ==>
          p.franchise != q.franchise && (p.id != q.id || s.SideOf(p.franchise) != s.SideOf(q.franchise)))
  }

  lemma ListIsApart(s: Snapshot, list: seq<NativePlayer>)
    requires UnitsOnce(s, list) && TeamsOnce(list) && AllCards(list)
    ensures Apart(s, multiset(list))
  {
    forall p | p in multiset(list) ensures multiset(list)[p] == 1 && Card(p.id) {
      assert p in list;
      var i :| 0 <= i < |list| && list[i] == p;
      forall j | 0 <= j < |list| && j != i ensures list[j] != list[i] {
        assert if i < j then list[i].franchise != list[j].franchise else list[j].franchise != list[i].franchise;
      }
      CountsOnce(list, i);
    }
    forall p, q | p in multiset(list) && q in multiset(list) && p != q
      ensures p.franchise != q.franchise && (p.id != q.id || s.SideOf(p.franchise) != s.SideOf(q.franchise))
    {
      assert p in list && q in list;
      var i :| 0 <= i < |list| && list[i] == p;
      var j :| 0 <= j < |list| && list[j] == q;
      assert if i < j then list[i].franchise != list[j].franchise else list[j].franchise != list[i].franchise;
    }
  }

  lemma ApartAsList(s: Snapshot, list: seq<NativePlayer>)
    requires Apart(s, multiset(list))
    ensures UnitsOnce(s, list) && TeamsOnce(list) && AllCards(list)
  {
    forall i | 0 <= i < |list| ensures Card(list[i].id) {
      assert list[i] in multiset(list);
    }
    forall i, j | 0 <= i < j < |list|
      ensures list[i].franchise != list[j].franchise
      ensures list[i].id != list[j].id || s.SideOf(list[i].franchise) != s.SideOf(list[j].franchise)
    {
      assert list[i] in multiset(list) && list[j] in multiset(list);
      if list[i] == list[j] {
        CountsTwice(list, i, j);
      }
    }
  }

  lemma ApartInPart(s: Snapshot, part: multiset<NativePlayer>, rest: multiset<NativePlayer>)
    requires Apart(s, part + rest)
    ensures Apart(s, part)
  {
    assert forall p :: p in part ==> p in part + rest && part[p] <= (part + rest)[p];
  }

  /** Nothing reserved is lost or doubled, and exactly what has room is handed out. */
  lemma SplitConserves(s: Snapshot, fits: Limits, pending: seq<NativePlayer>)
    ensures var o := Split(s, fits, pending); multiset(pending) == multiset(o.placed) + multiset(o.pending)
    ensures forall p <- Split(s, fits, pending).placed :: Room(s, fits, p)
    ensures forall p <- Split(s, fits, pending).pending :: !Room(s, fits, p)
  {
    FilterParts(pending, RoomIs(s, fits, true), RoomIs(s, fits, false));
    FilterPasses(pending, RoomIs(s, fits, true));
    FilterPasses(pending, RoomIs(s, fits, false));
  }

  // ----- signing what was placed

  lemma {:induction false} UnitsHeldAppends(a: seq<NativePlayer>, b: seq<NativePlayer>, franchise: string)
    ensures UnitsHeld(a + b, franchise) == UnitsHeld(a, franchise) + UnitsHeld(b, franchise)
  {
    if b == [] {
      assert a + b == a;
    } else {
      var n := |b| - 1;
      assert (a + b)[..|a + b| - 1] == a + b[..n];
      UnitsHeldAppends(a, b[..n], franchise);
    }
  }

  ghost predicate NoneFor(list: seq<NativePlayer>, franchise: string) {
    forall k :: 0 <= k < |list| ==> list[k].franchise != franchise
  }

  lemma {:induction false} HeldByNoneOf(list: seq<NativePlayer>, franchise: string)
    requires NoneFor(list, franchise)
    ensures UnitsHeld(list, franchise) == 0
  {
    if list != [] {
      HeldByNoneOf(list[..|list| - 1], franchise);
    }
  }

  lemma HeldByItself(p: NativePlayer)
    requires Card(p.id)
    ensures UnitsHeld([p], p.franchise) == 1
  {
    assert [p][..0] == [];
  }

  lemma HeldAround(before: seq<NativePlayer>, p: NativePlayer, rest: seq<NativePlayer>, franchise: string)
    requires NoneFor(before, franchise) && NoneFor(rest, franchise)
    ensures UnitsHeld(before + ([p] + rest), franchise) == UnitsHeld([p], franchise)
  {
    UnitsHeldAppends(before, [p] + rest, franchise);
    UnitsHeldAppends([p], rest, franchise);
    HeldByNoneOf(before, franchise);
    HeldByNoneOf(rest, franchise);
  }

  lemma HeldByOneOf(list: seq<NativePlayer>, p: NativePlayer, i: nat)
    requires i < |list| && list[i] == p && TeamsOnce(list) && Card(p.id)
    ensures UnitsHeld(list, p.franchise) == 1
  {
    var before, rest := list[..i], list[i + 1..];
    CutAt(list, i);
    OthersElsewhere(list, i);
    HeldAround(before, p, rest, p.franchise);
    HeldByItself(p);
  }

  lemma OthersElsewhere(list: seq<NativePlayer>, i: nat)
    requires i < |list| && TeamsOnce(list)
    ensures NoneFor(list[..i], list[i].franchise) && NoneFor(list[i + 1..], list[i].franchise)
  {
  }

  ghost predicate AllFree(s: Snapshot, list: seq<NativePlayer>) {
    forall k :: 0 <= k < |list| ==> !s.OnSide(s.SideOf(list[k].franchise), list[k].id)
  }

  lemma StillFree(s: Snapshot, list: seq<NativePlayer>)
    requires list != [] && AllFree(s, list) && UnitsOnce(s, list)
    ensures AllFree(s.(players := s.players + [list[0]]), list[1..])
  {
    var after := s.(players := s.players + [list[0]]);
    forall k | 0 <= k < |list[1..]| ensures !after.OnSide(after.SideOf(list[1..][k].franchise), list[1..][k].id) {
      var p := list[k + 1];
      assert !s.OnSide(s.SideOf(p.franchise), p.id);
      assert list[0].id != p.id || s.SideOf(list[0].franchise) != s.SideOf(p.franchise);
      assert forall side :: after.SideOf(side) == s.SideOf(side);
    }
  }

  lemma {:induction false} UnitsSign(s: Snapshot, list: seq<NativePlayer>)
    requires AllFree(s, list) && UnitsOnce(s, list)
    ensures SignUnits(s, list) == Ok(s.(players := s.players + list))
    decreases |list|
  {
    if list == [] {
      assert s.players + list == s.players;
    } else {
      var after := s.(players := s.players + [list[0]]);
      StillFree(s, list);
      assert forall id :: after.SideOf(id) == s.SideOf(id);
      UnitsSign(after, list[1..]);
      assert s.players + [list[0]] + list[1..] == s.players + list;
    }
  }

  // ----- every run of closes

  /** Between two closes the league changes as it likes, short of undoing a close. */
  datatype Step = Close(fits: Limits) | Between(after: Native)

  /** The league and everything its closes have handed out. */
  datatype Tally = Tally(league: Native, placed: seq<NativePlayer>)

  predicate Outstanding(n: Native) {
    n.seeded && n.league.book.oline.Some?
  }

  function CloseNow(n: Native, fits: Limits, reservations: seq<NativePlayer>): Result<Native> {
    ProjectOLine(n, Some(Split(n.league.assets, fits, reservations)))
  }

  function Advance(t: Tally, step: Step): Result<Tally>
    requires Outstanding(t.league)
  {
    match step
    case Between(after) => Ok(t.(league := after))
    case Close(fits) =>
      var pending := t.league.league.book.oline.value.pending;
      if pending == [] then Refused("the O-Line auction is already closed and every unit is assigned")
      else
        var after :- CloseNow(t.league, fits, pending);
        Ok(Tally(after, t.placed + after.league.book.oline.value.placed))
  }

  ghost predicate Possible(n: Native, step: Step) {
    step.Between? ==>
      Outstanding(step.after) && step.after.league.assets.sides == n.league.assets.sides
      && step.after.league.book.oline == n.league.book.oline
  }

  /** Everything first reserved is either handed out, once, or still pending. */
  ghost predicate Conserved(first: multiset<NativePlayer>, t: Tally) {
    && Outstanding(t.league)
    && Apart(t.league.league.assets, first)
    && first == multiset(t.placed) + multiset(t.league.league.book.oline.value.pending)
  }

  lemma ServesOne(s: Snapshot, fits: Limits, placed: seq<NativePlayer>)
    requires TeamsOnce(placed) && AllCards(placed) && forall p <- placed :: Room(s, fits, p)
    ensures forall p <- placed :: UnitsHeld(s.players + placed, p.franchise) == 1
  {
    forall p | p in placed ensures UnitsHeld(s.players + placed, p.franchise) == 1 {
      var i :| 0 <= i < |placed| && placed[i] == p;
      UnitsHeldAppends(s.players, placed, p.franchise);
      HeldByOneOf(placed, p, i);
      assert Room(s, fits, p);
    }
  }

  lemma SplitIsApart(s: Snapshot, fits: Limits, reservations: seq<NativePlayer>)
    requires Apart(s, multiset(reservations))
    ensures var placed := WithRoom(s, fits, reservations, true);
            && UnitsOnce(s, placed) && TeamsOnce(placed) && AllCards(placed)
            && AllFree(s, placed) && forall p <- placed :: Room(s, fits, p)
  {
    var o := Split(s, fits, reservations);
    SplitConserves(s, fits, reservations);
    ApartInPart(s, multiset(o.placed), multiset(o.pending));
    ApartAsList(s, o.placed);
    forall k | 0 <= k < |o.placed| ensures !s.OnSide(s.SideOf(o.placed[k].franchise), o.placed[k].id) {
      assert Room(s, fits, o.placed[k]);
    }
  }

  function Served(n: Native, o: OLineOutcome): Native {
    n.(league := League(n.league.assets.(players := n.league.assets.players + o.placed),
                        n.league.book.(oline := Some(o))))
  }

  /** A close of outstanding reservations is never refused when it is applied, and gives each franchise it serves its
      one unit. */
  lemma CloseServes(n: Native, fits: Limits, reservations: seq<NativePlayer>)
    requires n.seeded && Apart(n.league.assets, multiset(reservations))
    ensures CloseNow(n, fits, reservations) == Ok(Served(n, Split(n.league.assets, fits, reservations)))
    ensures forall p <- WithRoom(n.league.assets, fits, reservations, true) ::
              UnitsHeld(n.league.assets.players + WithRoom(n.league.assets, fits, reservations, true), p.franchise) == 1
  {
    var placed := WithRoom(n.league.assets, fits, reservations, true);
    SplitIsApart(n.league.assets, fits, reservations);
    UnitsSign(n.league.assets, placed);
    ServesOne(n.league.assets, fits, placed);
  }

  lemma ApartOnSides(s: Snapshot, s': Snapshot, ms: multiset<NativePlayer>)
    requires Apart(s, ms) && s'.sides == s.sides
    ensures Apart(s', ms)
  {
    assert forall id :: s'.SideOf(id) == s.SideOf(id);
  }

  lemma CloseConserves(first: multiset<NativePlayer>, t: Tally, fits: Limits)
    requires Conserved(first, t) && t.league.league.book.oline.value.pending != []
    ensures Advance(t, Close(fits)).Ok? && Conserved(first, Advance(t, Close(fits)).value)
  {
    var s, pending := t.league.league.assets, t.league.league.book.oline.value.pending;
    var o := Split(s, fits, pending);
    PendingIsApart(first, t);
    CloseServes(t.league, fits, pending);
    SplitConserves(s, fits, pending);
    ApartOnSides(s, Served(t.league, o).league.assets, first);
    assert Advance(t, Close(fits)) == Ok(Tally(Served(t.league, o), t.placed + o.placed));
    assert multiset(t.placed + o.placed) == multiset(t.placed) + multiset(o.placed);
  }

  lemma PendingIsApart(first: multiset<NativePlayer>, t: Tally)
    requires Conserved(first, t)
    ensures Apart(t.league.league.assets, multiset(t.league.league.book.oline.value.pending))
  {
    var pending := multiset(t.league.league.book.oline.value.pending);
    assert first == pending + multiset(t.placed);
    ApartInPart(t.league.league.assets, pending, multiset(t.placed));
  }

  lemma AdvanceConserves(first: multiset<NativePlayer>, t: Tally, step: Step)
    requires Conserved(first, t) && Possible(t.league, step)
    ensures Advance(t, step).Refused? <==> step.Close? && t.league.league.book.oline.value.pending == []
    ensures Advance(t, step).Ok? ==> Conserved(first, Advance(t, step).value)
  {
    if step.Between? {
      ApartOnSides(t.league.league.assets, step.after.league.assets, first);
    } else if t.league.league.book.oline.value.pending != [] {
      CloseConserves(first, t, step.fits);
    }
  }

  /** A run of closes and other changes; a refused step records nothing. */
  function Run(t: Tally, steps: seq<Step>): Tally
    requires Outstanding(t.league)
    decreases |steps|
  {
    if steps == [] then t
    else
      var next := Advance(t, steps[0]);
      if next.Ok? && Outstanding(next.value.league) then Run(next.value, steps[1..]) else Run(t, steps[1..])
  }

  ghost predicate RunPossible(t: Tally, steps: seq<Step>)
    requires Outstanding(t.league)
    decreases |steps|
  {
    steps == [] ||
    (&& Possible(t.league, steps[0])
     && var next := Advance(t, steps[0]);
        if next.Ok? && Outstanding(next.value.league) then RunPossible(next.value, steps[1..])
        else RunPossible(t, steps[1..]))
  }

  lemma {:induction false} RunConserves(first: multiset<NativePlayer>, t: Tally, steps: seq<Step>)
    requires Conserved(first, t) && RunPossible(t, steps)
    ensures Conserved(first, Run(t, steps))
    decreases |steps|
  {
    if steps != [] {
      AdvanceConserves(first, t, steps[0]);
      var next := Advance(t, steps[0]);
      RunConserves(first, if next.Ok? then next.value else t, steps[1..]);
    }
  }

  /** After the first close and any number of retries, what it reserved is exactly what has been handed out, no unit
      of a side twice and no franchise twice, together with what is still pending. */
  lemma EveryRunConserves(n: Native, fits: Limits, first: seq<NativePlayer>, steps: seq<Step>)
    requires n.seeded && KeyedOnce(n.league.assets.franchises, FranchiseId())
    requires FirstReservations(n.league.assets, first)
    requires CloseNow(n, fits, first).Ok? ==>
      var after := CloseNow(n, fits, first).value;
      Outstanding(after) && RunPossible(Tally(after, after.league.book.oline.value.placed), steps)
    ensures CloseNow(n, fits, first).Ok?
    ensures var after := CloseNow(n, fits, first).value;
            var end := Run(Tally(after, after.league.book.oline.value.placed), steps);
            && Outstanding(end.league)
            && multiset(first) == multiset(end.placed) + multiset(end.league.league.book.oline.value.pending)
            && TeamsOnce(end.placed) && UnitsOnce(end.league.league.assets, end.placed)
  {
    var s, fs := n.league.assets, Sort(n.league.assets.franchises, ById());
    SortKeepsKeys(s.franchises, ById(), FranchiseId());
    assert fs[..|fs|] == fs;
    TeamsListedOnce(s, first, fs, |fs|);
    ListIsApart(s, first);
    CloseServes(n, fits, first);
    SplitConserves(s, fits, first);
    var after := CloseNow(n, fits, first).value;
    ApartOnSides(s, after.league.assets, multiset(first));
    var start := Tally(after, after.league.book.oline.value.placed);
    RunConserves(multiset(first), start, steps);
    var end := Run(start, steps);
    ApartInPart(end.league.league.assets, multiset(end.placed),
                multiset(end.league.league.book.oline.value.pending));
    ApartAsList(end.league.league.assets, end.placed);
  }
}
