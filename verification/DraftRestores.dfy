/** Draft restores. A restore in force switches off its own draft's later live entries down to the place it names,
    so what counts of a draft behaves as a stack that each restore pops. */
module DraftRestores {
  import opened Assets
  import opened Records
  import opened Replay
  import opened Compensation

  // ----- what the restore pass leaves

  /** The entry at i is a live change to the draft. */
  predicate LiveOf(records: seq<Record>, key: DraftKey, i: nat)
    requires i < |records|
  {
    Live(records[i].command) && records[i].OfDraft(key)
  }

  /** Where the restore at j puts its draft back to, when it names an earlier entry. */
  function Checkpoint(records: seq<Record>, j: nat): Option<nat>
    requires j < |records| && records[j].command.DraftRevert?
  {
    var place := PlaceOf(records, records[j].args.draft.value.act.value.restoreTo);
    if place.None? || place.value >= j then None else place
  }

  /** A restore at j, if in force, sets the entry at i aside. */
  predicate Covers(records: seq<Record>, j: nat, i: nat)
    requires i < |records| && j < |records|
  {
    && records[j].command.DraftRevert?
    && Checkpoint(records, j).Some?
    && Checkpoint(records, j).value < i < j
    && LiveOf(records, records[j].args.draft.value.Key(), i)
  }

  ghost predicate CoveredBy(records: seq<Record>, n: nat, base: Active, i: nat)
    requires i < |records| && n <= |records|
  {
    exists j :: i < j < n && Covers(records, j, i) && On(base, records[j].entry)
  }

  lemma {:induction false} ClearedMeans(records: seq<Record>, lo: nat, hi: nat, key: DraftKey, active: Active, i: nat)
    requires Distinct(records) && lo <= hi <= |records| && i < |records|
    ensures On(Cleared(records, lo, hi, key, active), records[i].entry) <==>
      On(active, records[i].entry) && !(lo <= i < hi && LiveOf(records, key, i))
  {
    if lo < hi { ClearedMeans(records, lo, hi - 1, key, active, i); }
  }

  lemma RestoredMeans(records: seq<Record>, j: nat, active: Active, i: nat)
    requires Distinct(records) && j < |records| && i < |records|
    ensures On(Restored(records, j, active), records[i].entry) <==>
      On(active, records[i].entry) && !(Covers(records, j, i) && On(active, records[j].entry))
  {
    if records[j].command.DraftRevert? && Checkpoint(records, j).Some? {
      ClearedMeans(records, Checkpoint(records, j).value + 1, j, records[j].args.draft.value.Key(), active, i);
    }
  }

  /** A restore takes effect when it is reached, so what decides it is its own base status: an entry ends set
      aside exactly when some later restore in force on the walk back covers it. */
  lemma {:induction false} SetAsideMeans(records: seq<Record>, n: nat, base: Active, i: nat)
    requires Distinct(records) && n <= |records| && i < |records|
    ensures On(SetAside(records, n, base), records[i].entry) <==>
      On(base, records[i].entry) && !CoveredBy(records, n, base, i)
  {
    if n > 0 {
      var before := SetAside(records, n - 1, base);
      SetAsideMeans(records, n - 1, base, i);
      SetAsideMeans(records, n - 1, base, n - 1);
      RestoredMeans(records, n - 1, before, i);
      assert On(before, records[n - 1].entry) == On(base, records[n - 1].entry);
    }
  }

  // ----- restores beside a tail

  lemma {:induction false} PlaceInDistinct(records: seq<Record>, i: nat)
    requires Distinct(records) && i < |records|
    ensures PlaceOf(records, records[i].entry) == Some(i)
  {
    var place := PlaceOf(records, records[i].entry);
    assert place.Some?;
  }

  lemma PlaceBeside(front: seq<Record>, tail: seq<Record>, entry: string)
    requires Distinct(front + tail)
    ensures PlaceOf(front, entry).Some? ==> PlaceOf(front + tail, entry) == PlaceOf(front, entry)
    ensures PlaceOf(front, entry).None? && PlaceOf(front + tail, entry).Some? ==>
      PlaceOf(front + tail, entry).value >= |front|
  {
    if PlaceOf(front, entry).Some? {
      var i := PlaceOf(front, entry).value;
      assert (front + tail)[i] == front[i];
      PlaceInDistinct(front + tail, i);
    }
  }

  lemma {:induction false} ClearedBeside(front: seq<Record>, tail: seq<Record>, lo: nat, hi: nat, key: DraftKey,
                                         inner: Active, outer: Active)
    requires lo <= hi <= |front| && Entries(front) <= inner.Keys && inner.Keys !! outer.Keys
    ensures Cleared(front, lo, hi, key, inner).Keys == inner.Keys
    ensures Cleared(front + tail, lo, hi, key, outer + inner) == outer + Cleared(front, lo, hi, key, inner)
  {
    if lo < hi {
      assert (front + tail)[hi - 1] == front[hi - 1];
      assert front[hi - 1].entry in Entries(front);
      ClearedBeside(front, tail, lo, hi - 1, key, inner, outer);
    }
  }

  /** One restore of the front acts the same with the tail's keys beside it. */
  lemma RestoredBeside(front: seq<Record>, tail: seq<Record>, j: nat, inner: Active, outer: Active)
    requires Distinct(front + tail) && j < |front|
    requires Entries(front) <= inner.Keys && inner.Keys !! outer.Keys
    ensures Restored(front, j, inner).Keys == inner.Keys
    ensures Restored(front + tail, j, outer + inner) == outer + Restored(front, j, inner)
  {
    var r := front[j];
    assert (front + tail)[j] == r;
    assert r.entry in Entries(front);
    assert On(outer + inner, r.entry) == On(inner, r.entry);
    if r.command.DraftRevert? {
      var place := PlaceOf(front, r.args.draft.value.act.value.restoreTo);
      PlaceBeside(front, tail, r.args.draft.value.act.value.restoreTo);
      if place.Some? && place.value < j {
        ClearedBeside(front, tail, place.value + 1, j, r.args.draft.value.Key(), inner, outer);
      }
    }
  }

  lemma {:induction false} SetAsideBeside(front: seq<Record>, tail: seq<Record>, n: nat, inner: Active, outer: Active)
    requires Distinct(front + tail) && n <= |front|
    requires Entries(front) <= inner.Keys && inner.Keys !! outer.Keys
    ensures SetAside(front, n, inner).Keys == inner.Keys
    ensures SetAside(front + tail, n, outer + inner) == outer + SetAside(front, n, inner)
  {
    if n > 0 {
      SetAsideBeside(front, tail, n - 1, inner, outer);
      RestoredBeside(front, tail, n - 1, SetAside(front, n - 1, inner), outer);
    }
  }

  lemma {:induction false} TailWithoutRestores(front: seq<Record>, tail: seq<Record>, n: nat, active: Active)
    requires n <= |tail| && forall i :: 0 <= i < |tail| ==> !tail[i].command.DraftRevert?
    ensures SetAside(front + tail, |front| + n, active) == SetAside(front + tail, |front|, active)
  {
    if n > 0 {
      assert (front + tail)[|front| + n - 1] == tail[n - 1];
      TailWithoutRestores(front, tail, n - 1, active);
    }
  }

  // ----- undoing an undo

  lemma BaseAfterUndoRedo(records: seq<Record>, undo: Record, redo: Record)
    requires undo.command.Revert? && redo.command.Revert? && redo.Target() == undo.entry
    requires Linked(records) && Linked(records + [undo])
    requires undo.entry !in Entries(records) && redo.entry !in Entries(records + [undo])
    ensures Base(records + [undo] + [redo]) == map[redo.entry := true] + (map[undo.entry := false] + Base(records))
  {
    var once := records + [undo];
    EntriesGrow(records, undo);
    BaseAfterReversal(once, redo);
    UndoneFromStart(records, undo);
    UndoneBeside(records, undo);
  }

  /** With the reversal switched off, the walk over the ledger it ends starts from the earlier entries alone. */
  lemma UndoneFromStart(records: seq<Record>, undo: Record)
    requires undo.command.Revert? && undo.entry !in Entries(records)
    ensures AllActive(records + [undo])[undo.entry := false] == map[undo.entry := false] + AllActive(records)
    ensures WalkBack(records + [undo], map[undo.entry := false] + AllActive(records)) ==
      WalkBack(records, map[undo.entry := false] + AllActive(records))
  {
    var once := records + [undo];
    assert once[..|records|] == records && once[|records|] == undo;
    AllActiveIs(records);
    assert !On(map[undo.entry := false] + AllActive(records), undo.entry);
  }

  lemma UndoneBeside(records: seq<Record>, undo: Record)
    requires Linked(records) && undo.entry !in Entries(records)
    ensures WalkBack(records, map[undo.entry := false] + AllActive(records)) ==
      map[undo.entry := false] + WalkBack(records, AllActive(records))
  {
    AllActiveIs(records);
    WalkBackStaysLinked(records, AllActive(records));
    WalkBackBeside(records, AllActive(records), map[undo.entry := false]);
  }

  lemma UndoRedoLinks(records: seq<Record>, undo: Record, redo: Record)
    requires undo.command.Revert? && redo.command.Revert?
    requires Distinct(records + [undo] + [redo]) && Linked(records + [undo] + [redo])
    ensures Linked(records) && Linked(records + [undo])
    ensures undo.entry !in Entries(records) && redo.entry !in Entries(records + [undo])
    ensures redo.entry !in Entries(records)
  {
    UndoLinks(records + [undo], redo);
    UndoLinks(records, undo);
    EntriesGrow(records, undo);
  }

  lemma BaseKeys(records: seq<Record>)
    requires Linked(records)
    ensures Base(records).Keys == Entries(records)
  {
    AllActiveIs(records);
    WalkBackStaysLinked(records, AllActive(records));
  }

  /** The walk over a ledger that a reversal and its own reversal end is the earlier walk beside those two entries. */
  lemma BaseOfBoth(records: seq<Record>, undo: Record, redo: Record)
    requires undo.command.Revert? && redo.command.Revert? && redo.Target() == undo.entry
    requires Linked(records) && Linked(records + [undo])
    requires undo.entry !in Entries(records) && redo.entry !in Entries(records + [undo])
    ensures Base(records + [undo, redo]) == map[redo.entry := true, undo.entry := false] + Base(records)
  {
    BaseAfterUndoRedo(records, undo, redo);
    assert records + [undo] + [redo] == records + [undo, redo];
    assert map[redo.entry := true] + (map[undo.entry := false] + Base(records)) ==
      map[redo.entry := true, undo.entry := false] + Base(records);
  }

  /** In a ledger of distinct, linked entries, reversing a reversal just recorded leaves every earlier one as it was. */
  lemma UndoOfUndo(records: seq<Record>, undo: Record, redo: Record)
    requires undo.command.Revert? && redo.command.Revert? && redo.Target() == undo.entry
    requires Distinct(records + [undo] + [redo]) && Linked(records + [undo] + [redo])
    ensures Full(records + [undo] + [redo]).active ==
      map[redo.entry := true, undo.entry := false] + Full(records).active
  {
    UndoRedoLinks(records, undo, redo);
    BaseOfBoth(records, undo, redo);
    BaseKeys(records);
    assert records + [undo] + [redo] == records + [undo, redo];
    TailBeside(records, [undo, redo], map[redo.entry := true, undo.entry := false]);
  }

  /** A tail of no restores that only adds its own keys to the walk leaves the front's replay as it was. */
  lemma TailBeside(records: seq<Record>, tail: seq<Record>, outer: Active)
    requires Distinct(records + tail) && Entries(records) <= Base(records).Keys && Base(records).Keys !! outer.Keys
    requires Base(records + tail) == outer + Base(records)
    requires forall i :: 0 <= i < |tail| ==> !tail[i].command.DraftRevert?
    ensures Full(records + tail).active == outer + Full(records).active
  {
    SetAsideBeside(records, tail, |records|, Base(records), outer);
    TailWithoutRestores(records, tail, |tail|, Base(records + tail));
  }

  // ----- each draft is a stack

  /** The draft's live entries in force, by place in the ledger, oldest first. */
  function InForce(records: seq<Record>, active: Active, key: DraftKey, n: nat): seq<nat>
    requires n <= |records|
  {
    if n == 0 then []
    else
      InForce(records, active, key, n - 1) +
      if LiveOf(records, key, n - 1) && On(active, records[n - 1].entry) then [n - 1] else []
  }

  function View(records: seq<Record>, key: DraftKey): seq<nat> {
    InForce(records, Full(records).active, key, |records|)
  }

  /** The stack cut back to the places at or before c. */
  function CutBack(stack: seq<nat>, c: nat): seq<nat> {
    if stack == [] || stack[|stack| - 1] <= c then stack else CutBack(stack[..|stack| - 1], c)
  }

  ghost predicate AscendsBelow(s: seq<nat>, n: nat) {
    (forall k :: 0 <= k < |s| ==> s[k] < n) && (forall k, m :: 0 <= k < m < |s| ==> s[k] < s[m])
  }

  /** Cutting back pops exactly the places after c. */
  lemma {:induction false} CutBackPops(stack: seq<nat>, n: nat, c: nat)
    requires AscendsBelow(stack, n)
    ensures CutBack(stack, c) <= stack
    ensures forall k :: 0 <= k < |stack| ==> (k < |CutBack(stack, c)| <==> stack[k] <= c)
  {
    if stack != [] && stack[|stack| - 1] > c { CutBackPops(stack[..|stack| - 1], n, c); }
  }

  lemma {:induction false} InForceAscends(records: seq<Record>, active: Active, key: DraftKey, n: nat)
    requires n <= |records|
    ensures AscendsBelow(InForce(records, active, key, n), n)
  {
    if n > 0 {
      InForceAscends(records, active, key, n - 1);
      var s, t := InForce(records, active, key, n - 1), InForce(records, active, key, n);
      assert t == s || t == s + [n - 1];
    }
  }

  /** Cutting one reading's stack at c gives the other's, if they agree up to c and the other holds nothing of the
      draft later. */
  lemma CutPastTop(stack: seq<nat>, top: nat, c: nat)
    requires top > c
    ensures CutBack(stack + [top], c) == CutBack(stack, c)
  {
    assert (stack + [top])[..|stack|] == stack;
  }

  lemma {:induction false} InForceCut(records: seq<Record>, one: Active, two: Active, key: DraftKey, n: nat, c: nat)
    requires n <= |records|
    requires forall i :: 0 <= i < n && LiveOf(records, key, i) ==>
      (On(two, records[i].entry) <==> On(one, records[i].entry) && i <= c)
    ensures InForce(records, two, key, n) == CutBack(InForce(records, one, key, n), c)
  {
    if n > 0 {
      InForceCut(records, one, two, key, n - 1, c);
      InForceAscends(records, one, key, n - 1);
      var s := InForce(records, one, key, n - 1);
      assert InForce(records, one, key, n) == s || InForce(records, one, key, n) == s + [n - 1];
      if n - 1 > c {
        CutPastTop(s, n - 1, c);
      } else {
        CutAtTop(s, c);
      }
    }
  }

  lemma {:induction false} CutAtTop(stack: seq<nat>, c: nat)
    requires forall k :: 0 <= k < |stack| ==> stack[k] <= c
    ensures CutBack(stack, c) == stack
  {
  }

  lemma {:induction false} InForceSame(records: seq<Record>, more: seq<Record>, one: Active, two: Active, key: DraftKey, n: nat)
    requires n <= |records| <= |more| && more[..|records|] == records
    requires forall i :: 0 <= i < n && LiveOf(records, key, i) ==> (On(one, records[i].entry) <==> On(two, records[i].entry))
    ensures InForce(records, one, key, n) == InForce(more, two, key, n)
  {
    if n > 0 {
      assert more[n - 1] == records[n - 1];
      InForceSame(records, more, one, two, key, n - 1);
    }
  }

  // ----- appending one entry

  lemma BaseAfterPlain(records: seq<Record>, r: Record)
    requires !Compensates(r) && Linked(records) && r.entry !in Entries(records)
    ensures Base(records + [r]) == map[r.entry := true] + Base(records)
    ensures Base(records).Keys == Entries(records)
  {
    var more, all := records + [r], AllActive(records);
    assert more[..|records|] == records && more[|records|] == r;
    AllActiveIs(records);
    assert all[r.entry := true] == map[r.entry := true] + all;
    WalkBackStaysLinked(records, all);
    WalkBackBeside(records, all, map[r.entry := true]);
  }

  /** Appending an entry that compensates nothing leaves the earlier entries to the restore pass alone. */
  lemma AfterPlain(records: seq<Record>, r: Record)
    requires !Compensates(r) && Distinct(records + [r]) && Linked(records + [r])
    ensures Full(records + [r]).active ==
      Restored(records + [r], |records|, map[r.entry := true] + Full(records).active)
    ensures r.entry !in Full(records).active
  {
    var more := records + [r];
    assert more[..|records|] == records;
    LinkedInit(more);
    FreshAtEnd(records, r);
    AllActiveIs(records);
    BaseAfterPlain(records, r);
    SetAsideBeside(records, [r], |records|, Base(records), map[r.entry := true]);
  }

  /** One entry's effect on a draft's stack: a change pushes itself; a restore pops to its checkpoint first. */
  function Stepped(before: seq<nat>, records: seq<Record>, n: nat, key: DraftKey): seq<nat>
    requires n < |records|
  {
    if !LiveOf(records, key, n) then before
    else if records[n].command.DraftRevert? && Checkpoint(records, n).Some?
    then CutBack(before, Checkpoint(records, n).value) + [n]
    else before + [n]
  }

  /** The newest entry n is in force and every earlier live one reads as before unless n covers it. */
  ghost predicate OnlyCovers(records: seq<Record>, n: nat, was: Active, now: Active, key: DraftKey)
    requires n < |records|
  {
    && (LiveOf(records, key, n) ==> On(now, records[n].entry))
    && forall i :: 0 <= i < n && LiveOf(records, key, i) ==>
         (On(now, records[i].entry) <==> On(was, records[i].entry) && !Covers(records, n, i))
  }

  lemma StepsTheView(records: seq<Record>, n: nat, was: Active, now: Active, key: DraftKey)
    requires n + 1 == |records| && OnlyCovers(records, n, was, now, key)
    ensures InForce(records, now, key, n + 1) == Stepped(InForce(records[..n], was, key, n), records, n, key)
  {
    InForceSame(records[..n], records, was, was, key, n);
    if LiveOf(records, key, n) && records[n].command.DraftRevert? && Checkpoint(records, n).Some? {
      InForceCut(records, was, now, key, n, Checkpoint(records, n).value);
    } else {
      InForceSame(records, records, was, now, key, n);
    }
  }

  /** A restore appended to the ledger sets aside what it covers and changes no other status. */
  lemma RestoreSetsAside(records: seq<Record>, restore: Record)
    requires restore.command.DraftRevert?
    requires Distinct(records + [restore]) && Linked(records + [restore])
    ensures var more, n := records + [restore], |records|;
            && On(Full(more).active, restore.entry)
            && forall i :: 0 <= i < n ==>
                 (On(Full(more).active, records[i].entry) <==> On(Full(records).active, records[i].entry) && !Covers(more, n, i))
  {
    var more, n := records + [restore], |records|;
    FreshAtEnd(records, restore);
    AfterPlain(records, restore);
    var before := Full(records).active;
    var was := map[restore.entry := true] + before;
    forall i | 0 <= i <= n
      ensures On(Full(more).active, more[i].entry) <==> On(was, more[i].entry) && !Covers(more, n, i)
    {
      RestoredMeans(more, n, was, i);
    }
    forall i | 0 <= i < n ensures more[i] == records[i] && On(was, records[i].entry) == On(before, records[i].entry) {
      assert records[i].entry in Entries(records);
    }
  }

  /** The commands a restore sets aside, one by one. */
  predicate SetAsideByRestores(command: Command) {
    || command.DraftPick? || command.DraftSkip? || command.DraftAssign? || command.DraftInsert?
    || command.DraftChange? || command.DraftTimer? || command.DraftRevert? || command.DraftArchive?
  }

  /** The two entries are of one draft: the same season, startup or not, on the same side. */
  predicate OneDraft(r: Record, other: Record) {
    && r.args.draft.Some? && other.args.draft.Some?
    && r.args.draft.value.season == other.args.draft.value.season
    && r.args.draft.value.startup == other.args.draft.value.startup
    && r.args.draft.value.side == other.args.draft.value.side
  }

  /** An appended restore to the entry at c turns off every later entry of its own draft that is a pick, a skip, a tray
      change, a timer change, a restore or a close. Every other entry keeps its status; a restore to no earlier entry
      turns none off. */
  lemma RestoreTurnsOff(records: seq<Record>, restore: Record, i: nat)
    requires restore.command.DraftRevert? && i < |records|
    requires Distinct(records + [restore]) && Linked(records + [restore])
    ensures var more, to := records + [restore], restore.args.draft.value.act.value.restoreTo;
            && (forall c :: 0 <= c < |records| && records[c].entry == to ==>
                  (On(Full(more).active, records[i].entry) <==>
                     && On(Full(records).active, records[i].entry)
                     && !(c < i && OneDraft(records[i], restore) && SetAsideByRestores(records[i].command))))
            && ((forall c :: 0 <= c < |records| ==> records[c].entry != to) ==>
                  (On(Full(more).active, records[i].entry) <==> On(Full(records).active, records[i].entry)))
  {
    var more, n, to := records + [restore], |records|, restore.args.draft.value.act.value.restoreTo;
    RestoreSetsAside(records, restore);
    forall c | 0 <= c < n && records[c].entry == to ensures Checkpoint(more, n) == Some(c) {
      assert more[c] == records[c];
      PlaceInDistinct(more, c);
    }
    if forall c :: 0 <= c < n ==> records[c].entry != to {
      assert Checkpoint(more, n) == None;
    }
  }

  lemma RestoreOnlyCovers(records: seq<Record>, restore: Record, key: DraftKey)
    requires restore.command.DraftRevert?
    requires Distinct(records + [restore]) && Linked(records + [restore])
    ensures OnlyCovers(records + [restore], |records|, Full(records).active, Full(records + [restore]).active, key)
  {
    RestoreSetsAside(records, restore);
  }

  /** Where entries are distinct and compensations linked, a restore cuts its draft's stack back to the checkpoint and pushes itself; a restore that
      names no earlier entry only pushes itself. Every other draft reads as before. */
  lemma RestoreCutsItsStack(records: seq<Record>, restore: Record, key: DraftKey)
    requires restore.command.DraftRevert?
    requires Distinct(records + [restore]) && Linked(records + [restore])
    ensures var more := records + [restore];
            View(more, key) ==
              if !restore.OfDraft(key) then View(records, key)
              else if Checkpoint(more, |records|).None? then View(records, key) + [|records|]
              else CutBack(View(records, key), Checkpoint(more, |records|).value) + [|records|]
  {
    var more := records + [restore];
    RestoreOnlyCovers(records, restore, key);
    assert more[..|records|] == records;
    StepsTheView(more, |records|, Full(records).active, Full(more).active, key);
  }

  // ----- every run is a stack

  /** The draft's whole history run through a stack machine. */
  function Stack(records: seq<Record>, key: DraftKey): seq<nat> {
    if records == [] then [] else Stepped(Stack(records[..|records| - 1], key), records, |records| - 1, key)
  }

  /** No reversal or correction is aimed at a live entry of the draft. */
  ghost predicate NoneAimedAt(records: seq<Record>, key: DraftKey) {
    forall i, k :: 0 <= i < |records| && 0 <= k < |records| && LiveOf(records, key, i) && Compensates(records[k]) ==>
      records[k].Target() != records[i].entry
  }

  lemma {:induction false} WalkBackLeaves(records: seq<Record>, active: Active, entry: string)
    requires forall k :: 0 <= k < |records| && Compensates(records[k]) ==> records[k].Target() != entry
    ensures On(WalkBack(records, active), entry) == On(active, entry)
  {
    if records != [] {
      WalkBackLeaves(records[..|records| - 1], Compensate(records[|records| - 1], active), entry);
    }
  }

  /** No restore among the first n entries reaches behind i. */
  ghost predicate Uncovered(records: seq<Record>, n: nat, i: nat)
    requires i < |records| && n <= |records|
  {
    forall j :: i < j < n ==> !Covers(records, j, i)
  }

  /** With none aimed at, a live entry of the draft counts exactly when no later restore of it reaches behind. */
  lemma LiveCounts(records: seq<Record>, key: DraftKey, i: nat)
    requires Distinct(records) && NoneAimedAt(records, key) && i < |records| && LiveOf(records, key, i)
    ensures On(Full(records).active, records[i].entry) <==> Uncovered(records, |records|, i)
  {
    SetAsideMeans(records, |records|, Base(records), i);
    forall j | 0 <= j < |records| && LiveOf(records, key, j) ensures On(Base(records), records[j].entry) {
      AllActiveIs(records);
      assert records[j].entry in Entries(records);
      WalkBackLeaves(records, AllActive(records), records[j].entry);
    }
  }

  lemma CoversInFront(records: seq<Record>, n: nat, j: nat, i: nat)
    requires Distinct(records) && j < n <= |records| && i < n
    ensures Covers(records[..n], j, i) == Covers(records, j, i)
  {
    assert records == records[..n] + records[n..];
    if records[j].command.DraftRevert? {
      PlaceBeside(records[..n], records[n..], records[j].args.draft.value.act.value.restoreTo);
    }
  }

  /** The first n entries on their own: a live one counts when none of the first n reaches behind it. */
  lemma LiveCountsInFront(records: seq<Record>, key: DraftKey, n: nat, i: nat)
    requires Distinct(records) && NoneAimedAt(records, key) && i < n <= |records| && LiveOf(records, key, i)
    ensures On(Full(records[..n]).active, records[i].entry) <==> Uncovered(records, n, i)
  {
    var front := records[..n];
    assert NoneAimedAt(front, key);
    LiveCounts(front, key, i);
    forall j | i < j < n ensures Covers(front, j, i) == Covers(records, j, i) {
      CoversInFront(records, n, j, i);
    }
  }

  lemma NewestOnlyCovers(records: seq<Record>, key: DraftKey, n: nat)
    requires Distinct(records) && NoneAimedAt(records, key) && n + 1 == |records|
    ensures OnlyCovers(records, n, Full(records[..n]).active, Full(records).active, key)
  {
    forall i | 0 <= i < n && LiveOf(records, key, i)
      ensures On(Full(records).active, records[i].entry) <==>
        On(Full(records[..n]).active, records[i].entry) && !Covers(records, n, i)
    {
      LiveCountsInFront(records, key, n, i);
      LiveCounts(records, key, i);
    }
    if LiveOf(records, key, n) {
      LiveCounts(records, key, n);
    }
  }

  /** Over every run of picks, tray moves, closes and nested restores, the entries in force are the stack's. */
  lemma {:induction false} EveryRunIsAStack(records: seq<Record>, key: DraftKey)
    requires Distinct(records) && NoneAimedAt(records, key)
    ensures View(records, key) == Stack(records, key)
  {
    if records != [] {
      var n := |records| - 1;
      EveryRunIsAStack(records[..n], key);
      NewestOnlyCovers(records, key, n);
      StepsTheView(records, n, Full(records[..n]).active, Full(records).active, key);
    }
  }

  // ----- restoring to a change still in force

  /** Which place a restore may name: a draft command in force, of the draft itself or of the setup that its sides
      have in common. */
  function CheckpointOf(records: seq<Record>, key: DraftKey, entry: string): Result<nat> {
    var at := PlaceOf(records, entry);
    if at.None? then Refused("choose a point in this draft's history to restore it to")
    else
      var r := records[at.value];
      var shared := key.(side := "");
      var matches := r.OfDraft(key) || (!key.startup && !Live(r.command) && r.OfDraft(shared));
      if !DraftCommand(r.command) || !matches || StandingRule(r.command) || !On(Full(records).active, entry)
      then Refused("choose a point in this draft's history that is still part of it")
      else Ok(at.value)
  }

  /** The commands that set a draft up and belong to one season's draft, one by one. */
  predicate SetsUp(command: Command) {
    command.DraftOrderAuto? || command.DraftOrderSet? || command.DraftStart? || command.DraftStartupOpen?
  }

  predicate OfKey(r: Record, season: int, startup: bool, side: string) {
    && r.args.draft.Some? && r.args.draft.value.season == season && r.args.draft.value.startup == startup
    && r.args.draft.value.side == side
  }

  /** A restore may name an entry in force that ran or set up the draft; for a draft of one side that is no startup, also
      an entry that set up the drafts of all sides. */
  lemma CheckpointAccepted(records: seq<Record>, key: DraftKey, entry: string)
    requires Distinct(records)
    ensures CheckpointOf(records, key, entry).Ok? <==> exists c: nat :: Restorable(records, key, entry, c)
    ensures forall c: nat :: CheckpointOf(records, key, entry) == Ok(c) ==> Restorable(records, key, entry, c)
  {
    if c: nat :| Restorable(records, key, entry, c) {
      PlaceInDistinct(records, c);
    }
    if CheckpointOf(records, key, entry).Ok? {
      assert Restorable(records, key, entry, CheckpointOf(records, key, entry).value);
    }
  }

  predicate Restorable(records: seq<Record>, key: DraftKey, entry: string, c: nat) {
    && c < |records| && records[c].entry == entry && On(Full(records).active, entry)
    && var r := records[c];
    || (OfKey(r, key.season, key.startup, key.side) && (SetAsideByRestores(r.command) || SetsUp(r.command)))
    || (!key.startup && OfKey(r, key.season, key.startup, "") && SetsUp(r.command))
  }

  /** Nothing recorded after c reaches behind c while c is in force. */
  lemma NothingReachesBehind(records: seq<Record>, key: DraftKey, c: nat, i: nat)
    requires Distinct(records) && NoneAimedAt(records, key) && i <= c < |records|
    requires LiveOf(records, key, c) && On(Full(records).active, records[c].entry) && LiveOf(records, key, i)
    ensures On(Full(records).active, records[i].entry) <==> On(Full(records[..c + 1]).active, records[i].entry)
  {
    LiveCounts(records, key, c);
    LiveCounts(records, key, i);
    LiveCountsInFront(records, key, c + 1, i);
    forall j | c < j < |records| ensures !Covers(records, j, i) {
      assert !Covers(records, j, c);
    }
  }

  lemma {:induction false} InForceUpTo(records: seq<Record>, active: Active, key: DraftKey, n: nat, c: nat)
    requires c < n <= |records|
    ensures CutBack(InForce(records, active, key, n), c) == InForce(records, active, key, c + 1)
    decreases n
  {
    InForceAscends(records, active, key, c + 1);
    if n == c + 1 {
      CutAtTop(InForce(records, active, key, n), c);
    } else {
      InForceUpTo(records, active, key, n - 1, c);
      var s := InForce(records, active, key, n - 1);
      assert (s + [n - 1])[..|s|] == s;
      assert InForce(records, active, key, n) == s || InForce(records, active, key, n) == s + [n - 1];
    }
  }

  /** Up to a live change in force the draft's entries have the status they had just after it. */
  lemma StatusesAtCheckpoint(records: seq<Record>, key: DraftKey, c: nat)
    requires Distinct(records) && NoneAimedAt(records, key) && c < |records|
    requires LiveOf(records, key, c) && On(Full(records).active, records[c].entry)
    ensures forall i :: 0 <= i < c + 1 && LiveOf(records[..c + 1], key, i) ==>
      (On(Full(records[..c + 1]).active, records[i].entry) <==> On(Full(records).active, records[i].entry))
  {
    forall i | 0 <= i <= c && LiveOf(records, key, i)
      ensures On(Full(records).active, records[i].entry) <==> On(Full(records[..c + 1]).active, records[i].entry)
    {
      NothingReachesBehind(records, key, c, i);
    }
  }

  lemma CutToFront(records: seq<Record>, one: Active, two: Active, key: DraftKey, c: nat)
    requires c < |records|
    requires forall i :: 0 <= i < c + 1 && LiveOf(records[..c + 1], key, i) ==>
      (On(one, records[i].entry) <==> On(two, records[i].entry))
    ensures CutBack(InForce(records, two, key, |records|), c) == InForce(records[..c + 1], one, key, c + 1)
  {
    InForceUpTo(records, two, key, |records|, c);
    InForceSame(records[..c + 1], records, one, two, key, c + 1);
  }

  lemma InForceAtCheckpoint(records: seq<Record>, key: DraftKey, c: nat)
    requires Distinct(records) && NoneAimedAt(records, key) && c < |records|
    requires LiveOf(records, key, c) && On(Full(records).active, records[c].entry)
    ensures CutBack(View(records, key), c) == View(records[..c + 1], key)
  {
    StatusesAtCheckpoint(records, key, c);
    CutToFront(records, Full(records[..c + 1]).active, Full(records).active, key, c);
  }

  /** The checkpoint a restore was recorded with is the entry it names when it is replayed. */
  lemma NamedCheckpoint(records: seq<Record>, restore: Record, key: DraftKey)
    requires restore.command.DraftRevert? && Distinct(records + [restore])
    requires CheckpointOf(records, key, restore.args.draft.value.act.value.restoreTo).Ok?
    ensures Checkpoint(records + [restore], |records|) ==
      Some(CheckpointOf(records, key, restore.args.draft.value.act.value.restoreTo).value)
  {
    assert (records + [restore])[|records|] == restore;
    PlaceBeside(records, [restore], restore.args.draft.value.act.value.restoreTo);
  }

  /** A restore to a live change still in force puts the draft back exactly to how it stood just after that
      change, and adds only itself. */
  lemma RestoreRewinds(records: seq<Record>, restore: Record, key: DraftKey)
    requires restore.command.DraftRevert? && restore.OfDraft(key)
    requires Distinct(records + [restore]) && Linked(records + [restore]) && NoneAimedAt(records, key)
    requires CheckpointOf(records, key, restore.args.draft.value.act.value.restoreTo).Ok?
    requires Live(records[CheckpointOf(records, key, restore.args.draft.value.act.value.restoreTo).value].command)
    ensures var c := CheckpointOf(records, key, restore.args.draft.value.act.value.restoreTo).value;
            View(records + [restore], key) == View(records[..c + 1], key) + [|records|]
  {
    var c := CheckpointOf(records, key, restore.args.draft.value.act.value.restoreTo).value;
    NamedCheckpoint(records, restore, key);
    RestoreCutsItsStack(records, restore, key);
    InForceAtCheckpoint(records, key, c);
  }
}
