/** What closes set aside do to the picks. A pick a close in force wanted goes missing exactly with the close that issued it,
    and comes twice exactly when such a close comes back under one recorded meanwhile. */
module PicksSetAside {
  import opened Assets
  import opened Lists
  import opened Records
  import opened Replay
  import opened Projector
  import opened IssuedPicks
  import opened LedgerPicks

  /** The place after the last rollover in force among the first n entries; the start where there is none. */
  function Since(records: seq<Record>, active: Active, n: nat): (m: nat)
    requires n <= |records|
    ensures m <= n
    ensures m > 0 ==> records[m - 1].RecordedRollover() && On(active, records[m - 1].entry)
    ensures forall k :: m <= k < n && On(active, records[k].entry) ==> !records[k].RecordedRollover()
  {
    if n == 0 then 0
    else if records[n - 1].RecordedRollover() && On(active, records[n - 1].entry) then n
    else Since(records, active, n - 1)
  }

  /** The picks there were at that place. */
  function KeysFrom(records: seq<Record>, m: nat, start: seq<PickKey>): seq<PickKey>
    requires m <= |records| && (m > 0 ==> records[m - 1].RecordedRollover())
  {
    if m == 0 then start else KeysOf(records[m - 1].plan.value.after.picks)
  }

  /** A close in force, recorded in [m, n), issued the pick. */
  ghost predicate IssuedIn(records: seq<Record>, active: Active, m: nat, n: nat, c: PickKey)
    requires n <= |records|
  {
    exists k :: m <= k < n && InForceClose(records, active, k) && c in KeysOf(IssuedBy(records[k]))
  }

  lemma {:induction false} KeysAfterAre(records: seq<Record>, active: Active, n: nat, start: seq<PickKey>)
    requires n <= |records|
    ensures var m := Since(records, active, n);
            forall c :: c in KeysAfter(records, active, n, start) <==>
              c in KeysFrom(records, m, start) || IssuedIn(records, active, m, n, c)
  {
    if n > 0 {
      KeysAfterAre(records, active, n - 1, start);
      var m := Since(records, active, n);
      forall c ensures c in KeysAfter(records, active, n, start) <==>
        c in KeysFrom(records, m, start) || IssuedIn(records, active, m, n, c)
      {
        if m < n { IssuedInMore(records, active, m, n, c); }
      }
    }
  }

  lemma IssuedInMore(records: seq<Record>, active: Active, m: nat, n: nat, c: PickKey)
    requires m < n <= |records|
    ensures IssuedIn(records, active, m, n, c) <==>
      IssuedIn(records, active, m, n - 1, c) || (InForceClose(records, active, n - 1) && c in KeysOf(IssuedBy(records[n - 1])))
  {
  }

  /** The close at j was in force when the entry at i was recorded and is not now. */
  predicate SetAsideSince(records: seq<Record>, active: Active, j: nat, i: nat)
    requires j < i <= |records|
  {
    records[j].command.DraftArchive? && On(ActiveAt(records, i), records[j].entry) && !On(active, records[j].entry)
  }

  /** The close at j is in force now and was not when the entry at i was recorded. */
  predicate BackSince(records: seq<Record>, active: Active, j: nat, i: nat)
    requires j < i <= |records|
  {
    InForceClose(records, active, j) && !On(ActiveAt(records, i), records[j].entry)
  }

  ghost predicate WantedAt(closed: Closed, i: nat, c: PickKey) {
    closed.at(i).Some? && Wanted(closed.at(i).value.season, closed.at(i).value.rounds, closed.at(i).value.franchises, c)
  }

  /** Each close in force after place m was recorded with the same rollover last in force. */
  ghost predicate SameStart(records: seq<Record>, active: Active, m: nat) {
    forall i :: m <= i < |records| && InForceClose(records, active, i) ==> Since(records, ActiveAt(records, i), i) == m
  }

  /** No pick a close in force wanted was issued by a close set aside since, but where another in force supplies it. */
  ghost predicate NothingPulled(records: seq<Record>, active: Active, m: nat, start: seq<PickKey>, closed: Closed)
    requires m <= |records| && (m > 0 ==> records[m - 1].RecordedRollover())
  {
    forall i, j, c :: m <= j < i < |records| && InForceClose(records, active, i) && SetAsideSince(records, active, j, i) ==>
      (WantedAt(closed, i, c) && c in KeysOf(IssuedBy(records[j])) ==>
         c in KeysFrom(records, m, start) || IssuedIn(records, active, m, |records|, c))
  }

  ghost predicate WantedHeld(records: seq<Record>, active: Active, m: nat, keys: seq<PickKey>, closed: Closed) {
    forall i, c :: m <= i < |records| && InForceClose(records, active, i) && WantedAt(closed, i, c) ==> c in keys
  }

  /** The close at i issued what it wanted of what it did not find, once each. */
  ghost predicate IssuedMissing(records: seq<Record>, start: seq<PickKey>, closed: Closed, i: nat)
    requires i < |records|
  {
    var out := KeysOf(IssuedBy(records[i]));
    && (forall c :: c in out <==> WantedAt(closed, i, c) && c !in KeysAfter(records, ActiveAt(records, i), i, start))
    && NoneTwice(out)
  }

  ghost predicate AllIssuedMissing(records: seq<Record>, start: seq<PickKey>, closed: Closed) {
    forall i :: 0 <= i < |records| && records[i].command.DraftArchive? ==> IssuedMissing(records, start, closed, i)
  }

  lemma FixedIssuedMissing(rules: Rules, records: seq<Record>, closed: Closed)
    requires Project(rules, records).Ok? && AllFixed(rules, records, closed)
    ensures AllIssuedMissing(records, StartKeys(rules, records), closed)
  {
    forall i | 0 <= i < |records| && records[i].command.DraftArchive?
      ensures IssuedMissing(records, StartKeys(rules, records), closed, i)
    {
      IssuedAt(rules, records, closed, i);
    }
  }

  /** A pick a close in force wanted is supplied by an entry in force, or was issued by a close set aside since. */
  lemma WantedIsHeld(records: seq<Record>, active: Active, start: seq<PickKey>, closed: Closed, i: nat, c: PickKey)
    requires AllIssuedMissing(records, start, closed)
    requires i < |records| && InForceClose(records, active, i) && WantedAt(closed, i, c)
    requires var m := Since(records, active, |records|);
             m <= i && Since(records, ActiveAt(records, i), i) == m && NothingPulled(records, active, m, start, closed)
    ensures var m := Since(records, active, |records|);
            c in KeysFrom(records, m, start) || IssuedIn(records, active, m, |records|, c)
  {
    var m := Since(records, active, |records|);
    KeysAfterAre(records, ActiveAt(records, i), i, start);
    assert IssuedMissing(records, start, closed, i);
    if c in KeysAfter(records, ActiveAt(records, i), i, start) && c !in KeysFrom(records, m, start) {
      var j :| m <= j < i && InForceClose(records, ActiveAt(records, i), j) && c in KeysOf(IssuedBy(records[j]));
      if !On(active, records[j].entry) {
        assert SetAsideSince(records, active, j, i);
      }
    }
  }

  lemma KeysWantedIff(records: seq<Record>, active: Active, start: seq<PickKey>, closed: Closed)
    requires AllIssuedMissing(records, start, closed) && SameStart(records, active, Since(records, active, |records|))
    ensures var m := Since(records, active, |records|);
            WantedHeld(records, active, m, KeysAfter(records, active, |records|, start), closed) <==>
              NothingPulled(records, active, m, start, closed)
  {
    var m, keys := Since(records, active, |records|), KeysAfter(records, active, |records|, start);
    KeysAfterAre(records, active, |records|, start);
    if NothingPulled(records, active, m, start, closed) {
      forall i, c | m <= i < |records| && InForceClose(records, active, i) && WantedAt(closed, i, c) ensures c in keys {
        WantedIsHeld(records, active, start, closed, i, c);
      }
    }
  }

  /** Every pick wanted by a close since the last rollover in force is held if and only if no such pick was issued by a
      close that has been set aside since and by none that is in force. */
  lemma WantedHeldIff(rules: Rules, records: seq<Record>, closed: Closed)
    requires Project(rules, records).Ok? && Seed(rules, records).value.seeded && AllFixed(rules, records, closed)
    requires SameStart(records, Full(records).active, Since(records, Full(records).active, |records|))
    ensures var active, start := Full(records).active, StartKeys(rules, records);
            var m := Since(records, active, |records|);
            WantedHeld(records, active, m, KeysOf(Project(rules, records).value.league.assets.picks), closed) <==>
              NothingPulled(records, active, m, start, closed)
  {
    ProjectedKeys(rules, records);
    FixedIssuedMissing(rules, records, closed);
    KeysWantedIff(records, Full(records).active, StartKeys(rules, records), closed);
  }

  /** No earlier close that was aside when the close at k was recorded, and is back, issued a pick that it issued. */
  ghost predicate NothingBackUnder(records: seq<Record>, active: Active, m: nat, k: nat)
    requires k < |records|
  {
    forall j, c :: m <= j < k && BackSince(records, active, j, k) ==>
      !(c in KeysOf(IssuedBy(records[j])) && c in KeysOf(IssuedBy(records[k])))
  }

  /** No two closes in force issued one pick, the earlier of them set aside when the later was recorded and back since. */
  ghost predicate NothingBackTwice(records: seq<Record>, active: Active, m: nat, n: nat)
    requires n <= |records|
  {
    forall k :: m <= k < n && InForceClose(records, active, k) ==> NothingBackUnder(records, active, m, k)
  }

  lemma {:induction false} SinceStays(records: seq<Record>, active: Active, k: nat, n: nat)
    requires k <= n <= |records| && Since(records, active, n) <= k
    ensures Since(records, active, k) == Since(records, active, n)
    decreases n
  {
    if k < n {
      SinceStays(records, active, k, n - 1);
    }
  }

  /** A pick that a close issued, though an earlier entry in force now holds it too, was held by nobody then: that entry
      had been set aside. */
  lemma TwiceIsBack(records: seq<Record>, active: Active, start: seq<PickKey>, closed: Closed, k: nat, c: PickKey)
    requires AllIssuedMissing(records, start, closed) && k < |records| && InForceClose(records, active, k)
    requires Since(records, ActiveAt(records, k), k) == Since(records, active, k)
    requires c in KeysOf(IssuedBy(records[k])) && c in KeysAfter(records, active, k, start)
    ensures !NothingBackUnder(records, active, Since(records, active, k), k)
  {
    var m := Since(records, active, k);
    KeysAfterAre(records, active, k, start);
    KeysAfterAre(records, ActiveAt(records, k), k, start);
    assert IssuedMissing(records, start, closed, k);
    var j :| m <= j < k && InForceClose(records, active, j) && c in KeysOf(IssuedBy(records[j]));
    assert !IssuedIn(records, ActiveAt(records, k), m, k, c);
    assert BackSince(records, active, j, k);
  }

  /** A close in force adds no key twice exactly when none of its picks was issued by an earlier close that was aside
      then and is back. */
  lemma CloseOnceIff(records: seq<Record>, active: Active, start: seq<PickKey>, closed: Closed, k: nat)
    requires AllIssuedMissing(records, start, closed) && k < |records| && InForceClose(records, active, k)
    requires Since(records, ActiveAt(records, k), k) == Since(records, active, k)
    ensures var before := KeysAfter(records, active, k, start);
            NoneTwice(before + KeysOf(IssuedBy(records[k]))) <==>
              NoneTwice(before) && NothingBackUnder(records, active, Since(records, active, k), k)
  {
    var m, before, out := Since(records, active, k), KeysAfter(records, active, k, start), KeysOf(IssuedBy(records[k]));
    assert IssuedMissing(records, start, closed, k);
    OnceJoined(before, out);
    if c :| c in before && c in out {
      TwiceIsBack(records, active, start, closed, k, c);
    }
    KeysAfterAre(records, active, k, start);
    forall j, c | m <= j < k && BackSince(records, active, j, k) && c in KeysOf(IssuedBy(records[j])) ensures c in before {
      assert IssuedIn(records, active, m, k, c);
    }
  }

  /** After n entries no key is there twice exactly when none was at place m and nothing came back under a later issue. */
  ghost predicate OnceWhen(records: seq<Record>, active: Active, start: seq<PickKey>, m: nat, n: nat)
    requires m <= |records| && n <= |records| && (m > 0 ==> records[m - 1].RecordedRollover())
  {
    NoneTwice(KeysAfter(records, active, n, start)) <==>
      NoneTwice(KeysFrom(records, m, start)) && NothingBackTwice(records, active, m, n)
  }

  lemma OnceNext(records: seq<Record>, active: Active, start: seq<PickKey>, closed: Closed, m: nat, k: nat)
    requires AllIssuedMissing(records, start, closed) && k < |records| && Since(records, active, k) == m
    requires !(On(active, records[k].entry) && records[k].RecordedRollover())
    requires InForceClose(records, active, k) ==> Since(records, ActiveAt(records, k), k) == m
    requires OnceWhen(records, active, start, m, k)
    ensures OnceWhen(records, active, start, m, k + 1)
  {
    if InForceClose(records, active, k) {
      CloseOnceIff(records, active, start, closed, k);
    }
  }

  lemma OnceFirst(records: seq<Record>, active: Active, start: seq<PickKey>)
    ensures OnceWhen(records, active, start, Since(records, active, |records|), Since(records, active, |records|))
  {
    var m := Since(records, active, |records|);
    assert KeysAfter(records, active, m, start) == KeysFrom(records, m, start);
  }

  lemma {:induction false} OnceAfterIff(records: seq<Record>, active: Active, start: seq<PickKey>, closed: Closed, n: nat)
    requires AllIssuedMissing(records, start, closed) && SameStart(records, active, Since(records, active, |records|))
    requires Since(records, active, |records|) <= n <= |records|
    ensures OnceWhen(records, active, start, Since(records, active, |records|), n)
  {
    var m := Since(records, active, |records|);
    if n > m {
      OnceAfterIff(records, active, start, closed, n - 1);
      SinceStays(records, active, n - 1, |records|);
      OnceNext(records, active, start, closed, m, n - 1);
    } else {
      OnceFirst(records, active, start);
    }
  }

  /** No pick is held twice if and only if there was none twice to begin with and no close that came back into force
      issued what a close recorded meanwhile issued again. */
  lemma PicksOnceIff(rules: Rules, records: seq<Record>, closed: Closed)
    requires Project(rules, records).Ok? && Seed(rules, records).value.seeded && AllFixed(rules, records, closed)
    requires SameStart(records, Full(records).active, Since(records, Full(records).active, |records|))
    ensures var active, start := Full(records).active, StartKeys(rules, records);
            var m := Since(records, active, |records|);
            KeysOnce(Project(rules, records).value.league.assets.picks) <==>
              NoneTwice(KeysFrom(records, m, start)) && NothingBackTwice(records, active, m, |records|)
  {
    ProjectedKeys(rules, records);
    HeldByKeys(Project(rules, records).value.league.assets.picks);
    FixedIssuedMissing(rules, records, closed);
    OnceAfterIff(records, Full(records).active, StartKeys(rules, records), closed, |records|);
  }

  lemma RolloverFound(rules: Rules, records: seq<Record>, closed: Closed, i: nat)
    requires i < |records| && AllFixed(rules, records, closed) && records[i].RecordedRollover()
    ensures Project(rules, records[..i]).Ok?
    ensures records[i].plan.value.after.picks == Project(rules, records[..i]).value.league.assets.picks
  {
    assert FixedAt(rules, records, i, closed.at(i));
  }

  lemma BaseIsHeld(records: seq<Record>, active: Active, start: seq<PickKey>, picks: seq<NativePick>, c: PickKey)
    requires KeysOf(picks) == KeysAfter(records, active, |records|, start) && Since(records, active, |records|) > 0
    ensures Held(records[Since(records, active, |records|) - 1].plan.value.after.picks, c) ==> Held(picks, c)
  {
    KeysAfterAre(records, active, |records|, start);
    HeldByKeys(picks);
    HeldByKeys(records[Since(records, active, |records|) - 1].plan.value.after.picks);
  }

  /** Whatever is set aside later, what the last rollover in force found is held. */
  lemma RolloverCarries(rules: Rules, records: seq<Record>, closed: Closed, i: nat, c: PickKey)
    requires Project(rules, records).Ok? && Seed(rules, records).value.seeded && AllFixed(rules, records, closed)
    requires Since(records, Full(records).active, |records|) == i + 1
    requires Project(rules, records[..i]).Ok? && Held(Project(rules, records[..i]).value.league.assets.picks, c)
    ensures Held(Project(rules, records).value.league.assets.picks, c)
  {
    RolloverFound(rules, records, closed, i);
    ProjectedKeys(rules, records);
    BaseIsHeld(records, Full(records).active, StartKeys(rules, records),
               Project(rules, records).value.league.assets.picks, c);
  }
}
