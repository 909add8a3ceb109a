/** Chains of decisions and corrections, with anything at all happening in between. If a run stays related to the same run
    without its decisions, and the last decision made there leaves the same league, then so does the whole chain. */
module Chains {
  import opened Assets
  import opened Records
  import opened Market

  /** An entry that makes or corrects a decision, or everything else in the league changing. */
  datatype Turn = Decide(r: Record) | Between(rest: League)

  type Taking = (League, Turn) -> Result<League>

  function Run(take: Taking, l: League, turns: seq<Turn>): Result<League> {
    if turns == [] then Ok(l)
    else
      var before :- Run(take, l, turns[..|turns| - 1]);
      take(before, turns[|turns| - 1])
  }

  /** Every turn fits the state it is taken in. */
  ghost predicate AllFit(take: Taking, fit: (League, Turn) -> bool, l: League, turns: seq<Turn>) {
    turns != [] ==>
      && AllFit(take, fit, l, turns[..|turns| - 1])
      && (Run(take, l, turns[..|turns| - 1]).Ok? ==>
            fit(Run(take, l, turns[..|turns| - 1]).value, turns[|turns| - 1]))
  }

  /** The turns without their decisions. */
  function Undecided(turns: seq<Turn>): seq<Turn> {
    if turns == [] then []
    else
      var init, turn := Undecided(turns[..|turns| - 1]), turns[|turns| - 1];
      if turn.Decide? then init else init + [turn]
  }

  /** The same turns with the last decision alone, recorded as a first one. */
  function LastAlone(turns: seq<Turn>, first: Record -> Record): seq<Turn> {
    if turns == [] then []
    else
      var init, turn := turns[..|turns| - 1], turns[|turns| - 1];
      if turn.Decide? then Undecided(init) + [Decide(first(turn.r))] else LastAlone(init, first) + [turn]
  }

  /** A turn keeps the two runs related: a decision of the one, or a change in between of both. */
  ghost predicate Kept(take: Taking, fit: (League, Turn) -> bool, related: (League, League) -> bool, l: League,
                       quiet: League, turn: Turn) {
    related(l, quiet) && fit(l, turn) && take(l, turn).Ok? ==>
      if turn.Decide? then related(take(l, turn).value, quiet)
      else take(quiet, turn).Ok? && related(take(l, turn).value, take(quiet, turn).value)
  }

  ghost predicate Keeps(take: Taking, fit: (League, Turn) -> bool, related: (League, League) -> bool) {
    forall l, quiet, turn :: Kept(take, fit, related, l, quiet, turn)
  }

  /** A decision, made as a first one in the undecided run, is accepted there and leaves the same league. */
  ghost predicate Settled(take: Taking, fit: (League, Turn) -> bool, related: (League, League) -> bool,
                          same: (League, League) -> bool, first: Record -> Record, l: League, quiet: League, r: Record) {
    related(l, quiet) && fit(l, Decide(r)) && take(l, Decide(r)).Ok? ==>
      take(quiet, Decide(first(r))).Ok? && same(take(l, Decide(r)).value, take(quiet, Decide(first(r))).value)
  }

  ghost predicate Settles(take: Taking, fit: (League, Turn) -> bool, related: (League, League) -> bool,
                          same: (League, League) -> bool, first: Record -> Record) {
    forall l, quiet, r :: Settled(take, fit, related, same, first, l, quiet, r)
  }

  /** The same league stays the same under a change in between. */
  ghost predicate Stayed(take: Taking, fit: (League, Turn) -> bool, same: (League, League) -> bool, l: League,
                         alone: League, rest: League) {
    same(l, alone) && fit(l, Between(rest)) && take(l, Between(rest)).Ok? ==>
      take(alone, Between(rest)).Ok? && same(take(l, Between(rest)).value, take(alone, Between(rest)).value)
  }

  ghost predicate Stays(take: Taking, fit: (League, Turn) -> bool, same: (League, League) -> bool) {
    forall l, alone, rest :: Stayed(take, fit, same, l, alone, rest)
  }

  lemma RunMore(take: Taking, l: League, turns: seq<Turn>, turn: Turn)
    requires Run(take, l, turns).Ok?
    ensures Run(take, l, turns + [turn]) == take(Run(take, l, turns).value, turn)
  {
    assert (turns + [turn])[..|turns|] == turns;
  }

  lemma {:induction false} UndecidedRuns(take: Taking, fit: (League, Turn) -> bool, related: (League, League) -> bool,
                                         l: League, turns: seq<Turn>)
    requires Keeps(take, fit, related) && related(l, l) && AllFit(take, fit, l, turns) && Run(take, l, turns).Ok?
    ensures Run(take, l, Undecided(turns)).Ok?
    ensures related(Run(take, l, turns).value, Run(take, l, Undecided(turns)).value)
  {
    if turns != [] {
      var init, turn := turns[..|turns| - 1], turns[|turns| - 1];
      UndecidedRuns(take, fit, related, l, init);
      assert Kept(take, fit, related, Run(take, l, init).value, Run(take, l, Undecided(init)).value, turn);
      if turn.Between? {
        RunMore(take, l, Undecided(init), turn);
      }
    }
  }

  /** What every fitting turn meets, every turn of an accepted chain meets. */
  lemma {:induction false} FittingTurns(take: Taking, fit: (League, Turn) -> bool, l: League, turns: seq<Turn>,
                                        test: Turn -> bool)
    requires AllFit(take, fit, l, turns) && Run(take, l, turns).Ok?
    requires forall s, turn :: fit(s, turn) ==> test(turn)
    ensures forall k :: 0 <= k < |turns| ==> test(turns[k])
  {
    if turns != [] {
      var init, turn := turns[..|turns| - 1], turns[|turns| - 1];
      FittingTurns(take, fit, l, init, test);
      assert fit(Run(take, l, init).value, turn);
      assert forall k :: 0 <= k < |init| ==> turns[k] == init[k];
    }
  }

  /** Any accepted chain leaves the league that the last decision, made first and alone, leaves. */
  lemma {:induction false} LastDecisionStands(take: Taking, fit: (League, Turn) -> bool,
                                              related: (League, League) -> bool, same: (League, League) -> bool,
                                              first: Record -> Record, l: League, turns: seq<Turn>)
    requires Keeps(take, fit, related) && Settles(take, fit, related, same, first) && Stays(take, fit, same)
    requires related(l, l) && same(l, l) && AllFit(take, fit, l, turns) && Run(take, l, turns).Ok?
    ensures Run(take, l, LastAlone(turns, first)).Ok?
    ensures same(Run(take, l, turns).value, Run(take, l, LastAlone(turns, first)).value)
  {
    if turns != [] {
      var init, turn := turns[..|turns| - 1], turns[|turns| - 1];
      if turn.Decide? {
        UndecidedRuns(take, fit, related, l, init);
        assert Settled(take, fit, related, same, first, Run(take, l, init).value, Run(take, l, Undecided(init)).value,
                       turn.r);
        RunMore(take, l, Undecided(init), Decide(first(turn.r)));
      } else {
        LastDecisionStands(take, fit, related, same, first, l, init);
        assert Stayed(take, fit, same, Run(take, l, init).value, Run(take, l, LastAlone(init, first)).value, turn.rest);
        RunMore(take, l, LastAlone(init, first), turn);
      }
    }
  }
}
