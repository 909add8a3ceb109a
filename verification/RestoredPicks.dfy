/** Restoring a closed draft. Before the restore is recorded its effect on the picks can be told from the closes it covers. */
module RestoredPicks {
  import opened Records
  import opened Replay
  import opened DraftRestores
  import opened Projector
  import opened IssuedPicks
  import opened LedgerPicks
  import opened PicksSetAside

  /** What the restore recorded at n may not do: cover a close that issued a pick which a close it leaves in force wants
      and no close it leaves in force issued. */
  ghost predicate CoversNoneWanted(records: seq<Record>, active: Active, n: nat, m: nat, start: seq<PickKey>, closed: Closed)
    requires n < |records| && m <= n && (m > 0 ==> records[m - 1].RecordedRollover())
  {
    forall i, j :: m <= i < n && m <= j < n && LeftInForce(records, active, n, i) && CoveredClose(records, active, n, j) ==>
      NoneNeeded(records, active, n, m, start, closed, i, j)
  }

  predicate CoveredClose(records: seq<Record>, active: Active, n: nat, j: nat)
    requires n < |records| && j < |records|
  {
    InForceClose(records, active, j) && Covers(records, n, j)
  }

  predicate LeftInForce(records: seq<Record>, active: Active, n: nat, i: nat)
    requires n < |records| && i < |records|
  {
    InForceClose(records, active, i) && !Covers(records, n, i)
  }

  ghost predicate NoneNeeded(records: seq<Record>, active: Active, n: nat, m: nat, start: seq<PickKey>, closed: Closed,
                             i: nat, j: nat)
    requires n < |records| && m <= n && (m > 0 ==> records[m - 1].RecordedRollover()) && j < |records|
  {
    forall c :: WantedAt(closed, i, c) && c in KeysOf(IssuedBy(records[j])) ==>
      c in KeysFrom(records, m, start) || IssuedByLeft(records, active, n, m, c)
  }

  ghost predicate IssuedByLeft(records: seq<Record>, active: Active, n: nat, m: nat, c: PickKey)
    requires n < |records|
  {
    exists k :: m <= k < n && LeftInForce(records, active, n, k) && c in KeysOf(IssuedBy(records[k]))
  }

  /** Rollovers are no live draft entries, so a restore covers none. */
  lemma {:induction false} SinceRestore(records: seq<Record>, was: Active, now: Active, n: nat, k: nat)
    requires k <= n < |records| && SetsAside(records, was, now, n)
    ensures Since(records, now, k) == Since(records, was, k)
  {
    if k > 0 {
      SinceRestore(records, was, now, n, k - 1);
    }
  }

  lemma {:induction false} SinceFront(records: seq<Record>, active: Active, n: nat, k: nat)
    requires k <= n <= |records|
    ensures Since(records[..n], active, k) == Since(records, active, k)
  {
    if k > 0 {
      SinceFront(records, active, n, k - 1);
    }
  }

  /** The picks that closes in force among the first n entries want are among those these entries leave. */
  ghost predicate WantedLeft(records: seq<Record>, active: Active, n: nat, m: nat, start: seq<PickKey>, closed: Closed)
    requires n <= |records|
  {
    forall i, c :: m <= i < n && InForceClose(records, active, i) && WantedAt(closed, i, c) ==>
      c in KeysAfter(records, active, n, start)
  }

  /** The entry at n sets aside what it covers of the entries before it. */
  ghost predicate SetsAside(records: seq<Record>, was: Active, now: Active, n: nat)
    requires n < |records|
  {
    forall i :: 0 <= i < n ==> (On(now, records[i].entry) <==> On(was, records[i].entry) && !Covers(records, n, i))
  }

  lemma LeftIs(records: seq<Record>, was: Active, now: Active, n: nat, m: nat, start: seq<PickKey>, c: PickKey)
    requires n < |records| && m == Since(records, now, n) && SetsAside(records, was, now, n)
    ensures forall k :: 0 <= k < n ==> (InForceClose(records, now, k) <==> LeftInForce(records, was, n, k))
    ensures c in KeysAfter(records, now, n, start) <==> c in KeysFrom(records, m, start) || IssuedByLeft(records, was, n, m, c)
  {
    KeysAfterAre(records, now, n, start);
    assert IssuedIn(records, now, m, n, c) <==> IssuedByLeft(records, was, n, m, c);
  }

  lemma NeededIsLeft(records: seq<Record>, was: Active, now: Active, n: nat, m: nat, start: seq<PickKey>, closed: Closed,
                     i: nat, c: PickKey)
    requires n < |records| && m == Since(records, was, n) == Since(records, now, n) && SetsAside(records, was, now, n)
    requires CoversNoneWanted(records, was, n, m, start, closed)
    requires m <= i < n && InForceClose(records, now, i) && WantedAt(closed, i, c) && c in KeysAfter(records, was, n, start)
    ensures c in KeysAfter(records, now, n, start)
  {
    LeftIs(records, was, now, n, m, start, c);
    KeysAfterAre(records, was, n, start);
    if c !in KeysFrom(records, m, start) {
      var j :| m <= j < n && InForceClose(records, was, j) && c in KeysOf(IssuedBy(records[j]));
      if CoveredClose(records, was, n, j) {
        assert NoneNeeded(records, was, n, m, start, closed, i, j);
      }
    }
  }

  /** The condition on the restore, told over the entries it leaves. */
  lemma LeftIff(records: seq<Record>, was: Active, now: Active, n: nat, m: nat, start: seq<PickKey>, closed: Closed)
    requires n < |records| && m == Since(records, was, n) == Since(records, now, n) && SetsAside(records, was, now, n)
    requires WantedLeft(records, was, n, m, start, closed)
    ensures WantedLeft(records, now, n, m, start, closed) <==> CoversNoneWanted(records, was, n, m, start, closed)
  {
    if CoversNoneWanted(records, was, n, m, start, closed) {
      forall i, c | m <= i < n && InForceClose(records, now, i) && WantedAt(closed, i, c)
        ensures c in KeysAfter(records, now, n, start)
      {
        NeededIsLeft(records, was, now, n, m, start, closed, i, c);
      }
    }
    if WantedLeft(records, now, n, m, start, closed) {
      forall i, j | m <= i < n && m <= j < n && LeftInForce(records, was, n, i) && CoveredClose(records, was, n, j)
        ensures NoneNeeded(records, was, n, m, start, closed, i, j)
      {
        forall c | WantedAt(closed, i, c) && c in KeysOf(IssuedBy(records[j]))
          ensures c in KeysFrom(records, m, start) || IssuedByLeft(records, was, n, m, c)
        {
          LeftIs(records, was, now, n, m, start, c);
        }
      }
    }
  }

  lemma FrontStatus(records: seq<Record>, restore: Record, start: seq<PickKey>)
    requires restore.command.DraftRevert? && Distinct(records + [restore]) && Linked(records + [restore])
    ensures var more, n := records + [restore], |records|;
            && SetsAside(more, Full(records).active, Full(more).active, n)
            && Since(more, Full(records).active, n) == Since(records, Full(records).active, n)
            && Since(more, Full(more).active, n) == Since(more, Full(records).active, n)
            && Since(more, Full(more).active, n + 1) == Since(more, Full(more).active, n)
            && KeysAfter(more, Full(records).active, n, start) == KeysAfter(records, Full(records).active, n, start)
            && KeysAfter(more, Full(more).active, n + 1, start) == KeysAfter(more, Full(more).active, n, start)
  {
    var more, n := records + [restore], |records|;
    assert more[..n] == records;
    RestoreSetsAside(records, restore);
    SinceFront(more, Full(records).active, n, n);
    SinceRestore(more, Full(records).active, Full(more).active, n, n);
    KeysAfterFront(more, Full(records).active, n, n, start);
  }

  lemma StartStays(rules: Rules, records: seq<Record>, r: Record)
    requires Seed(rules, records).Ok? && Seed(rules, records).value.seeded && Seed(rules, records + [r]).Ok?
    ensures Seed(rules, records + [r]).value.seeded && StartKeys(rules, records + [r]) == StartKeys(rules, records)
  {
    assert (records + [r])[..|records|] == records;
    SeedOfPrefix(rules, records + [r], |records|);
  }

  lemma WantedLeftIs(records: seq<Record>, restore: Record, active: Active, m: nat, start: seq<PickKey>, closed: Closed)
    requires restore.command.DraftRevert?
    ensures WantedHeld(records, active, m, KeysAfter(records + [restore], active, |records|, start), closed) <==>
      WantedLeft(records + [restore], active, |records|, m, start, closed)
    ensures WantedHeld(records + [restore], active, m, KeysAfter(records + [restore], active, |records|, start), closed) <==>
      WantedLeft(records + [restore], active, |records|, m, start, closed)
  {
    var more, n := records + [restore], |records|;
    assert forall i :: 0 <= i < n ==> (InForceClose(more, active, i) <==> InForceClose(records, active, i));
    assert !InForceClose(more, active, n);
  }

  /** While every wanted pick is held, one more restore leaves it so exactly when it covers no close that issued a pick
      which a close it leaves in force wants and none of these issued. */
  lemma RestoreKeepsWantedIff(rules: Rules, records: seq<Record>, restore: Record, closed: Closed)
    requires restore.command.DraftRevert? && Distinct(records + [restore]) && Linked(records + [restore])
    requires Project(rules, records).Ok? && Seed(rules, records).value.seeded && Project(rules, records + [restore]).Ok?
    requires WantedHeld(records, Full(records).active, Since(records, Full(records).active, |records|),
                        KeysOf(Project(rules, records).value.league.assets.picks), closed)
    ensures var more, m := records + [restore], Since(records, Full(records).active, |records|);
            && Since(more, Full(more).active, |more|) == m
            && (WantedHeld(more, Full(more).active, m, KeysOf(Project(rules, more).value.league.assets.picks), closed) <==>
                  CoversNoneWanted(more, Full(records).active, |records|, m, StartKeys(rules, records), closed))
  {
    var more, m, start := records + [restore], Since(records, Full(records).active, |records|), StartKeys(rules, records);
    StartStays(rules, records, restore);
    ProjectedKeys(rules, records);
    ProjectedKeys(rules, more);
    FrontStatus(records, restore, start);
    WantedLeftIs(records, restore, Full(records).active, m, start, closed);
    WantedLeftIs(records, restore, Full(more).active, m, start, closed);
    LeftIff(more, Full(records).active, Full(more).active, |records|, m, start, closed);
  }
}
