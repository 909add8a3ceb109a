/** Replacing an award's winner, as the rosters see it. A run of decisions on one side's copy of a player is followed
    beside the same run without them; the last decision made there alone gives the same rosters. */
module Awards {
  import opened Assets
  import opened Lists
  import opened Market

  // ----- one side's copy of a player, and everyone else

  predicate Mine(s: Snapshot, side: string, id: string, p: NativePlayer) {
    p.id == id && s.SideOf(p.franchise) == side
  }

  /** The roster entries that pass, or fail, the test of being the given copy. */
  function Copies(s: Snapshot, players: seq<NativePlayer>, side: string, id: string, mine: bool): seq<NativePlayer> {
    if players == [] then []
    else
      var last := players[|players| - 1];
      Copies(s, players[..|players| - 1], side, id, mine) +
      if Mine(s, side, id, last) == mine then [last] else []
  }

  lemma {:induction false} CopiesSplit(s: Snapshot, one: seq<NativePlayer>, two: seq<NativePlayer>, side: string,
                                       id: string, mine: bool)
    ensures Copies(s, one + two, side, id, mine) == Copies(s, one, side, id, mine) + Copies(s, two, side, id, mine)
  {
    if two == [] {
      assert one + two == one;
    } else {
      assert (one + two)[..|one + two| - 1] == one + two[..|two| - 1];
      CopiesSplit(s, one, two[..|two| - 1], side, id, mine);
    }
  }

  lemma {:induction false} CopiesPartition(s: Snapshot, players: seq<NativePlayer>, side: string, id: string)
    ensures multiset(players) ==
      multiset(Copies(s, players, side, id, true)) + multiset(Copies(s, players, side, id, false))
  {
    if players != [] {
      var init, last := players[..|players| - 1], players[|players| - 1];
      CopiesPartition(s, init, side, id);
      assert players == init + [last];
      var other := !Mine(s, side, id, last);
      assert Copies(s, players, side, id, other) == Copies(s, init, side, id, other);
    }
  }

  lemma {:induction false} NoCopies(s: Snapshot, players: seq<NativePlayer>, side: string, id: string)
    ensures Copies(s, players, side, id, true) == [] <==>
      forall k :: 0 <= k < |players| ==> !Mine(s, side, id, players[k])
  {
    if players != [] {
      var init := players[..|players| - 1];
      NoCopies(s, init, side, id);
      assert forall k :: 0 <= k < |init| ==> init[k] == players[k];
    }
  }

  lemma Splits(s: Snapshot, one: seq<NativePlayer>, two: seq<NativePlayer>, side: string, id: string)
    ensures forall mine: bool ::
      Copies(s, one + two, side, id, mine) == Copies(s, one, side, id, mine) + Copies(s, two, side, id, mine)
  {
    CopiesSplit(s, one, two, side, id, true);
    CopiesSplit(s, one, two, side, id, false);
  }

  lemma OneOf(s: Snapshot, p: NativePlayer, side: string, id: string)
    ensures forall mine: bool :: Copies(s, [p], side, id, mine) == if Mine(s, side, id, p) == mine then [p] else []
  {
    assert [p][..0] == [];
  }

  lemma CopiesAround(s: Snapshot, front: seq<NativePlayer>, p: NativePlayer, back: seq<NativePlayer>, side: string,
                     id: string, mine: bool)
    ensures Copies(s, front + [p] + back, side, id, mine) ==
      Copies(s, front, side, id, mine) + (if Mine(s, side, id, p) == mine then [p] else []) + Copies(s, back, side, id, mine)
    ensures Copies(s, front + back, side, id, mine) == Copies(s, front, side, id, mine) + Copies(s, back, side, id, mine)
  {
    CopiesSplit(s, front + [p], back, side, id, mine);
    CopiesSplit(s, front, [p], side, id, mine);
    CopiesSplit(s, front, back, side, id, mine);
    OneOf(s, p, side, id);
  }

  lemma OnlyItself(front: seq<NativePlayer>, p: NativePlayer, back: seq<NativePlayer>)
    requires |front + [p] + back| == 1
    ensures front == [] && back == []
  {
  }

  lemma DropAround(s: Snapshot, front: seq<NativePlayer>, p: NativePlayer, back: seq<NativePlayer>, side: string,
                   id: string)
    requires Mine(s, side, id, p) && |Copies(s, front + [p] + back, side, id, true)| == 1
    ensures Copies(s, front + back, side, id, true) == []
    ensures Copies(s, front + back, side, id, false) == Copies(s, front + [p] + back, side, id, false)
  {
    CopiesAround(s, front, p, back, side, id, true);
    OnlyItself(Copies(s, front, side, id, true), p, Copies(s, back, side, id, true));
    CopiesAround(s, front, p, back, side, id, false);
  }

  /** Taking the side's only copy off its roster leaves none, and everyone else in order. */
  lemma DropTheCopy(s: Snapshot, i: nat, side: string, id: string)
    requires i < |s.players| && Mine(s, side, id, s.players[i])
    requires |Copies(s, s.players, side, id, true)| == 1
    ensures Copies(s, Without(s.players, i), side, id, true) == []
    ensures Copies(s, Without(s.players, i), side, id, false) == Copies(s, s.players, side, id, false)
  {
    CutAt(s.players, i);
    DropAround(s, s.players[..i], s.players[i], s.players[i + 1..], side, id);
  }

  // ----- replacing a winner

  /** An award as the rosters see it: the earlier winner, if any, leaves and the next, if any, signs. */
  function Replace(s: Snapshot, winner: string, side: string, id: string, next: Option<NativePlayer>): Result<Snapshot> {
    var bare :- Unaward(s, winner, id);
    if next.None? then Ok(bare)
    else if bare.OnSide(side, id) then Refused(NOT_FREE)
    else Ok(bare.(players := bare.players + [next.value]))
  }

  function WinnerOf(next: Option<NativePlayer>): string {
    if next.Some? then next.value.franchise else ""
  }

  /** The next contract is for this copy. */
  predicate Fits(s: Snapshot, side: string, id: string, next: Option<NativePlayer>) {
    next.Some? ==> Mine(s, side, id, next.value) && next.value.franchise != ""
  }

  /** The recorded winner is the franchise that holds the side's only copy. */
  ghost predicate Stands(s: Snapshot, winner: string, side: string, id: string) {
    winner != "" ==>
      var mine := Copies(s, s.players, side, id, true);
      |mine| == 1 && mine[0].franchise == winner && s.SideOf(winner) == side
  }

  lemma UnawardTheCopy(s: Snapshot, winner: string, side: string, id: string)
    requires Stands(s, winner, side, id) && Unaward(s, winner, id).Ok?
    ensures var bare := Unaward(s, winner, id).value;
            && bare == s.(players := bare.players)
            && Copies(bare, bare.players, side, id, false) == Copies(s, s.players, side, id, false)
            && Copies(bare, bare.players, side, id, true) ==
                 if winner == "" then Copies(s, s.players, side, id, true) else []
  {
    if winner != "" {
      var i := s.PlayerOf(winner, id);
      DropTheCopy(s, i, side, id);
      SameSides(s, Unaward(s, winner, id).value, Without(s.players, i), side, id);
    }
  }

  lemma {:induction false} SameSides(one: Snapshot, two: Snapshot, players: seq<NativePlayer>, side: string, id: string)
    requires one.sides == two.sides
    ensures forall mine: bool :: Copies(one, players, side, id, mine) == Copies(two, players, side, id, mine)
  {
    if players != [] { SameSides(one, two, players[..|players| - 1], side, id); }
  }

  /** What one decision leaves: everyone else as they were, in order, and the copy the decision names. */
  lemma ReplaceDecides(s: Snapshot, winner: string, side: string, id: string, next: Option<NativePlayer>)
    requires Stands(s, winner, side, id) && Fits(s, side, id, next) && Replace(s, winner, side, id, next).Ok?
    ensures var after := Replace(s, winner, side, id, next).value;
            && after == s.(players := after.players)
            && Copies(after, after.players, side, id, false) == Copies(s, s.players, side, id, false)
            && Copies(after, after.players, side, id, true) ==
                 (if next.Some? then [next.value] else if winner != "" then [] else Copies(s, s.players, side, id, true))
            && (next.Some? && winner == "" ==> Copies(s, s.players, side, id, true) == [])
            && Stands(after, WinnerOf(next), side, id)
  {
    UnawardTheCopy(s, winner, side, id);
    if next.Some? {
      SignsTheCopy(Unaward(s, winner, id).value, side, id, next.value);
    }
  }

  lemma SignsTheCopy(bare: Snapshot, side: string, id: string, p: NativePlayer)
    requires !bare.OnSide(side, id) && Mine(bare, side, id, p)
    ensures var after := bare.(players := bare.players + [p]);
            && Copies(bare, bare.players, side, id, true) == []
            && Copies(after, after.players, side, id, false) == Copies(bare, bare.players, side, id, false)
            && Copies(after, after.players, side, id, true) == [p]
  {
    var after := bare.(players := bare.players + [p]);
    NoCopies(bare, bare.players, side, id);
    Splits(bare, bare.players, [p], side, id);
    OneOf(bare, p, side, id);
    SameSides(bare, after, after.players, side, id);
  }

  lemma {:induction false} OthersAre(s: Snapshot, others: seq<NativePlayer>, side: string, id: string)
    requires Copies(s, others, side, id, true) == []
    ensures Copies(s, others, side, id, false) == others
  {
    if others != [] { OthersAre(s, others[..|others| - 1], side, id); }
  }

  lemma {:induction false} CopiesOfCopies(s: Snapshot, players: seq<NativePlayer>, side: string, id: string)
    ensures var mine := Copies(s, players, side, id, true);
            Copies(s, mine, side, id, true) == mine && Copies(s, mine, side, id, false) == []
  {
    if players != [] {
      var init, last := players[..|players| - 1], players[|players| - 1];
      CopiesOfCopies(s, init, side, id);
      assert Copies(s, init, side, id, true) + [] == Copies(s, init, side, id, true);
      if Mine(s, side, id, last) {
        Splits(s, Copies(s, init, side, id, true), [last], side, id);
        OneOf(s, last, side, id);
      }
    }
  }

  // ----- a run beside the same run without its decisions

  /** Everyone else is alike and in the same order; the copy is with the recorded winner or, where there is none, where
      the undecided run has it. */
  ghost predicate Behind(s: Snapshot, quiet: Snapshot, winner: string, side: string, id: string) {
    && s == quiet.(players := s.players, adjustments := s.adjustments)
    && Copies(s, s.players, side, id, false) == Copies(s, quiet.players, side, id, false)
    && Stands(s, winner, side, id)
    && Copies(s, quiet.players, side, id, true) == if winner == "" then Copies(s, s.players, side, id, true) else []
  }

  /** The same rosters, up to where the copy stands in the list. */
  ghost predicate Level(s: Snapshot, alone: Snapshot, side: string, id: string) {
    && s == alone.(players := s.players, adjustments := s.adjustments)
    && forall mine: bool :: Copies(s, s.players, side, id, mine) == Copies(s, alone.players, side, id, mine)
  }

  lemma StillBehind(s: Snapshot, quiet: Snapshot, winner: string, side: string, id: string, next: Option<NativePlayer>)
    requires Behind(s, quiet, winner, side, id) && Fits(s, side, id, next) && Replace(s, winner, side, id, next).Ok?
    ensures Behind(Replace(s, winner, side, id, next).value, quiet, WinnerOf(next), side, id)
  {
    var after := Replace(s, winner, side, id, next).value;
    ReplaceDecides(s, winner, side, id, next);
    SameSides(s, after, after.players, side, id);
    SameSides(s, after, quiet.players, side, id);
  }

  lemma QuietIsFree(s: Snapshot, quiet: Snapshot, winner: string, side: string, id: string, next: Option<NativePlayer>)
    requires Behind(s, quiet, winner, side, id) && Fits(s, side, id, next) && Replace(s, winner, side, id, next).Ok?
    requires next.Some?
    ensures Copies(s, quiet.players, side, id, true) == [] && !quiet.OnSide(side, id)
  {
    ReplaceDecides(s, winner, side, id, next);
    NoneIsFree(s, quiet, side, id);
  }

  lemma NoneIsFree(s: Snapshot, quiet: Snapshot, side: string, id: string)
    requires quiet.sides == s.sides && Copies(s, quiet.players, side, id, true) == []
    ensures !quiet.OnSide(side, id)
  {
    NoCopies(s, quiet.players, side, id);
    assert forall p :: Mine(quiet, side, id, p) == Mine(s, side, id, p);
  }

  /** The decision made now is accepted of the undecided run too, and leaves the same rosters there. */
  lemma DecidesAlone(s: Snapshot, quiet: Snapshot, winner: string, side: string, id: string, next: Option<NativePlayer>)
    requires Behind(s, quiet, winner, side, id) && Fits(s, side, id, next) && Replace(s, winner, side, id, next).Ok?
    ensures Replace(quiet, "", side, id, next).Ok?
    ensures Level(Replace(s, winner, side, id, next).value, Replace(quiet, "", side, id, next).value, side, id)
  {
    var after := Replace(s, winner, side, id, next).value;
    ReplaceDecides(s, winner, side, id, next);
    SameSides(s, after, after.players, side, id);
    if next.Some? {
      QuietIsFree(s, quiet, winner, side, id, next);
      SignsTheCopy(quiet, side, id, next.value);
      var alone := Replace(quiet, "", side, id, next).value;
      SameSides(quiet, alone, alone.players, side, id);
      SameSides(s, quiet, quiet.players, side, id);
      SameSides(after, alone, alone.players, side, id);
    } else {
      SameSides(s, after, quiet.players, side, id);
    }
  }

  /** Anything at all happens to the league except to the copy. */
  function Beside(s: Snapshot, rest: Snapshot, side: string, id: string): Snapshot {
    rest.(players := rest.players + Copies(s, s.players, side, id, true))
  }

  ghost predicate Elsewhere(s: Snapshot, rest: Snapshot, side: string, id: string) {
    rest.sides == s.sides && Copies(s, rest.players, side, id, true) == []
  }

  lemma BesideHolds(s: Snapshot, rest: Snapshot, side: string, id: string)
    requires Elsewhere(s, rest, side, id)
    ensures var after := Beside(s, rest, side, id);
            && Copies(s, after.players, side, id, false) == rest.players
            && Copies(s, after.players, side, id, true) == Copies(s, s.players, side, id, true)
  {
    var mine := Copies(s, s.players, side, id, true);
    OthersAre(s, rest.players, side, id);
    CopiesOfCopies(s, s.players, side, id);
    Splits(s, rest.players, mine, side, id);
    assert rest.players + [] == rest.players && [] + mine == mine;
  }

  lemma BesideStaysBehind(s: Snapshot, quiet: Snapshot, winner: string, side: string, id: string, one: Snapshot,
                          two: Snapshot)
    requires Behind(s, quiet, winner, side, id) && Elsewhere(s, one, side, id)
    requires one == two.(adjustments := one.adjustments)
    ensures Behind(Beside(s, one, side, id), Beside(quiet, two, side, id), winner, side, id)
  {
    var after := Beside(s, one, side, id);
    BesideHolds(s, one, side, id);
    SameSides(s, quiet, two.players, side, id);
    SameSides(s, quiet, quiet.players, side, id);
    BesideHolds(quiet, two, side, id);
    SameSides(s, quiet, Beside(quiet, two, side, id).players, side, id);
    SameSides(s, after, after.players, side, id);
    SameSides(s, after, Beside(quiet, two, side, id).players, side, id);
  }

  lemma BesideStaysLevel(s: Snapshot, alone: Snapshot, side: string, id: string, rest: Snapshot)
    requires Level(s, alone, side, id) && Elsewhere(s, rest, side, id)
    ensures Level(Beside(s, rest, side, id), Beside(alone, rest, side, id), side, id)
  {
    SameSides(s, alone, alone.players, side, id);
  }

  /** Everyone but the copy, as the rest of a league. */
  function Others(t: Snapshot, side: string, id: string): Snapshot {
    t.(players := Copies(t, t.players, side, id, false))
  }

  lemma {:induction false} OthersHaveNone(s: Snapshot, players: seq<NativePlayer>, side: string, id: string)
    ensures Copies(s, Copies(s, players, side, id, false), side, id, true) == []
  {
    if players != [] {
      var init, last := players[..|players| - 1], players[|players| - 1];
      var before := Copies(s, init, side, id, false);
      OthersHaveNone(s, init, side, id);
      if !Mine(s, side, id, last) {
        Splits(s, before, [last], side, id);
        OneOf(s, last, side, id);
      } else {
        assert before + [] == before;
      }
    }
  }

  /** Any change that leaves the copy alone is, but for where the copy stands in the list, a change of the rest. */
  lemma ChangeIsBeside(s: Snapshot, t: Snapshot, side: string, id: string)
    requires t.sides == s.sides && Copies(s, t.players, side, id, true) == Copies(s, s.players, side, id, true)
    ensures Elsewhere(s, Others(t, side, id), side, id)
    ensures Level(t, Beside(s, Others(t, side, id), side, id), side, id)
  {
    var rest := Others(t, side, id);
    OthersHaveNone(t, t.players, side, id);
    SameSides(s, t, rest.players, side, id);
    SameSides(s, t, t.players, side, id);
    BesideHolds(s, rest, side, id);
    SameSides(s, t, Beside(s, rest, side, id).players, side, id);
  }

  lemma {:induction false} OthersListed(s: Snapshot, players: seq<NativePlayer>, side: string, id: string, p: NativePlayer)
    ensures p in Copies(s, players, side, id, false) <==> p in players && !Mine(s, side, id, p)
  {
    if players != [] {
      OthersListed(s, players[..|players| - 1], side, id, p);
      assert players == players[..|players| - 1] + [players[|players| - 1]];
    }
  }

  /** Another lot is on a roster of both runs or of neither. */
  lemma OnSideAlike(s: Snapshot, quiet: Snapshot, side: string, id: string, otherSide: string, other: string)
    requires quiet.sides == s.sides && (otherSide != side || other != id)
    requires Copies(s, s.players, side, id, false) == Copies(s, quiet.players, side, id, false)
    ensures s.OnSide(otherSide, other) == quiet.OnSide(otherSide, other)
  {
    OnSideListed(s, s.players, side, id, otherSide, other);
    OnSideListed(s, quiet.players, side, id, otherSide, other);
    OnSideMeans(s, otherSide, other);
    OnSideMeans(quiet, otherSide, other);
    assert forall p :: Mine(quiet, otherSide, other, p) == Mine(s, otherSide, other, p);
  }

  lemma OnSideMeans(s: Snapshot, side: string, id: string)
    ensures s.OnSide(side, id) <==> exists p :: p in s.players && Mine(s, side, id, p)
  {
    if s.OnSide(side, id) {
      assert Mine(s, side, id, s.players[s.PlayerOn(side, id)]);
    }
    if p :| p in s.players && Mine(s, side, id, p) {
      var k :| 0 <= k < |s.players| && s.players[k] == p;
      assert s.players[k].id == id && s.SideOf(s.players[k].franchise) == side;
    }
  }

  lemma OnSideListed(s: Snapshot, players: seq<NativePlayer>, side: string, id: string, otherSide: string, other: string)
    requires otherSide != side || other != id
    ensures (exists p :: p in players && Mine(s, otherSide, other, p)) <==>
      exists p :: p in Copies(s, players, side, id, false) && Mine(s, otherSide, other, p)
  {
    forall p ensures p in Copies(s, players, side, id, false) <==> p in players && !Mine(s, side, id, p) {
      OthersListed(s, players, side, id, p);
    }
  }

  /** Level rosters hold the same contracts. */
  lemma LevelHolds(s: Snapshot, alone: Snapshot, side: string, id: string)
    requires Level(s, alone, side, id)
    ensures multiset(s.players) == multiset(alone.players)
  {
    CopiesPartition(s, s.players, side, id);
    CopiesPartition(s, alone.players, side, id);
  }
}
