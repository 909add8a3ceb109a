/** The contract a player added back takes: the roster entry of the latest projected state that still had him. */
module LastContracts {
  import opened Assets
  import opened Records
  import opened Replay
  import opened Projector

  /** After the first n entries the projected league has the side's copy on a roster. */
  ghost predicate HasCopy(rules: Rules, records: seq<Record>, side: string, id: string, n: nat)
    requires n <= |records| && Seed(rules, records).Ok?
  {
    var state := Fold(rules, records, Full(records).active, 0, n, Seed(rules, records).value);
    state.Ok? && state.value.seeded && state.value.league.assets.PlayerOn(side, id) >= 0
  }

  /** The roster entry it has. */
  ghost function CopyAt(rules: Rules, records: seq<Record>, side: string, id: string, n: nat): NativePlayer
    requires n <= |records| && Seed(rules, records).Ok? && HasCopy(rules, records, side, id, n)
  {
    var s := Fold(rules, records, Full(records).active, 0, n, Seed(rules, records).value).value.league.assets;
    s.players[s.PlayerOn(side, id)]
  }

  /** The state after n entries has the copy and no later state does. */
  ghost predicate LatestCopy(rules: Rules, records: seq<Record>, side: string, id: string, n: nat)
    requires n <= |records| && Seed(rules, records).Ok?
  {
    HasCopy(rules, records, side, id, n) && forall k :: n < k <= |records| ==> !HasCopy(rules, records, side, id, k)
  }

  /** The latest of the first n states that has the copy, if any. */
  ghost function Latest(rules: Rules, records: seq<Record>, side: string, id: string, n: nat): (k: int)
    requires n <= |records| && Seed(rules, records).Ok?
    ensures -1 <= k <= n
    ensures k >= 0 ==> HasCopy(rules, records, side, id, k)
    ensures forall j :: k < j <= n ==> !HasCopy(rules, records, side, id, j)
  {
    if HasCopy(rules, records, side, id, n) then n
    else if n == 0 then -1
    else Latest(rules, records, side, id, n - 1)
  }

  /** Past an entry out of force the state keeps the copy as it has it. */
  lemma SkippedKeeps(rules: Rules, records: seq<Record>, side: string, id: string, n: nat)
    requires n < |records| && Seed(rules, records).Ok? && !On(Full(records).active, records[n].entry)
    ensures HasCopy(rules, records, side, id, n + 1) == HasCopy(rules, records, side, id, n)
    ensures HasCopy(rules, records, side, id, n) ==>
      CopyAt(rules, records, side, id, n + 1) == CopyAt(rules, records, side, id, n)
  {
  }

  /** The pass over the first n entries ends in the projected state with the latest copy. */
  ghost predicate Watched(rules: Rules, records: seq<Record>, side: string, id: string, n: nat)
    requires n <= |records| && Seed(rules, records).Ok?
  {
    var seed, active := Seed(rules, records).value, Full(records).active;
    var state, seen, k := Fold(rules, records, active, 0, n, seed), Watch(rules, records, active, n, seed, side, id),
                          Latest(rules, records, side, id, n);
    && (seen.Ok? <==> state.Ok?)
    && (seen.Ok? ==>
          && seen.value.0 == state.value
          && (seen.value.1.Some? <==> k >= 0)
          && (k >= 0 ==> seen.value.1 == Some(CopyAt(rules, records, side, id, k))))
  }

  lemma WatchedAtStart(rules: Rules, records: seq<Record>, side: string, id: string)
    requires Seed(rules, records).Ok?
    ensures Watched(rules, records, side, id, 0)
  {
  }

  lemma WatchedNext(rules: Rules, records: seq<Record>, side: string, id: string, n: nat)
    requires n < |records| && Seed(rules, records).Ok? && Watched(rules, records, side, id, n)
    ensures Watched(rules, records, side, id, n + 1)
  {
    if !On(Full(records).active, records[n].entry) {
      SkippedKeeps(rules, records, side, id, n);
    }
  }

  lemma {:induction false} PassIsWatched(rules: Rules, records: seq<Record>, side: string, id: string, n: nat)
    requires n <= |records| && Seed(rules, records).Ok?
    ensures Watched(rules, records, side, id, n)
  {
    if n == 0 {
      WatchedAtStart(rules, records, side, id);
    } else {
      PassIsWatched(rules, records, side, id, n - 1);
      WatchedNext(rules, records, side, id, n - 1);
    }
  }

  /** Where the ledger projects, the contract found is the roster entry of the latest state that has the copy, and none
      is found exactly where no state ever had it. */
  lemma LastHeldIsTheLatest(rules: Rules, records: seq<Record>, side: string, id: string)
    ensures LastHeld(rules, records, side, id).Ok? <==>
      Seed(rules, records).Ok? &&
      Fold(rules, records, Full(records).active, 0, |records|, Seed(rules, records).value).Ok?
    ensures LastHeld(rules, records, side, id).Ok? ==>
      var last := LastHeld(rules, records, side, id).value;
      && (last.None? <==> forall n :: 0 <= n <= |records| ==> !HasCopy(rules, records, side, id, n))
      && (forall n :: 0 <= n <= |records| && LatestCopy(rules, records, side, id, n) ==>
            last == Some(CopyAt(rules, records, side, id, n)))
  {
    if Seed(rules, records).Ok? {
      PassIsWatched(rules, records, side, id, |records|);
    }
  }
}
