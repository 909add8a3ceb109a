/** What compensation replay means: the walk is the only consistent reading of the ledger, a reversal flips its
    own chain, and undoing an undo changes nothing. */
module Compensation {
  import opened Records
  import opened Replay

  // ----- ledger facts

  lemma {:induction false} AllActiveIs(records: seq<Record>)
    ensures AllActive(records).Keys == Entries(records)
    ensures forall entry :: entry in AllActive(records) ==> AllActive(records)[entry]
  {
    if records != [] {
      var init, last := records[..|records| - 1], records[|records| - 1];
      AllActiveIs(init);
      EntriesGrow(init, last);
      assert records == init + [last];
    }
  }

  lemma EntriesGrow(records: seq<Record>, r: Record)
    ensures Entries(records + [r]) == Entries(records) + {r.entry}
  {
    var more := records + [r];
    assert forall i :: 0 <= i < |records| ==> more[i] == records[i];
    assert more[|records|] == r;
    forall entry | entry in Entries(records) ensures entry in Entries(more) {
      var i :| 0 <= i < |records| && records[i].entry == entry;
      assert more[i].entry == entry;
    }
  }

  lemma {:induction false} NothingCompensates(records: seq<Record>, active: Active)
    requires forall i :: 0 <= i < |records| ==> !Compensates(records[i])
    ensures WalkBack(records, active) == active
  {
    if records != [] {
      NothingCompensates(records[..|records| - 1], active);
    }
  }

  lemma {:induction false} AllActiveSplit(front: seq<Record>, tail: seq<Record>)
    ensures AllActive(front + tail) == AllActive(front) + AllActive(tail)
  {
    if tail == [] {
      assert front + tail == front;
    } else {
      var init := tail[..|tail| - 1];
      assert (front + tail)[..|front + tail| - 1] == front + init;
      AllActiveSplit(front, init);
    }
  }

  lemma {:induction false} WalkBackSplit(front: seq<Record>, tail: seq<Record>, active: Active)
    ensures WalkBack(front + tail, active) == WalkBack(front, WalkBack(tail, active))
  {
    if tail == [] {
      assert front + tail == front;
    } else {
      var init, last := tail[..|tail| - 1], tail[|tail| - 1];
      assert (front + tail)[..|front + tail| - 1] == front + init;
      WalkBackSplit(front, init, Compensate(last, active));
    }
  }

  lemma {:induction false} WalkBackKeepsKeys(records: seq<Record>, active: Active)
    ensures active.Keys <= WalkBack(records, active).Keys
  {
    if records != [] {
      WalkBackKeepsKeys(records[..|records| - 1], Compensate(records[|records| - 1], active));
    }
  }

  lemma {:induction false} WalkBackStaysLinked(records: seq<Record>, active: Active)
    requires Entries(records) <= active.Keys && Linked(records)
    ensures WalkBack(records, active).Keys == active.Keys
  {
    if records != [] {
      var init, last := records[..|records| - 1], records[|records| - 1];
      EntriesGrow(init, last);
      assert records == init + [last];
      LinkedInit(records);
      if Compensates(last) { assert last.Target() in Entries(init); }
      WalkBackStaysLinked(init, Compensate(last, active));
    }
  }

  lemma LinkedInit(records: seq<Record>)
    requires records != [] && Linked(records)
    ensures Linked(records[..|records| - 1])
  {
    var init := records[..|records| - 1];
    forall i | 0 <= i < |init| && Compensates(init[i]) ensures init[i].Target() in Entries(init[..i]) {
      assert init[..i] == records[..i];
      assert Compensates(records[i]);
    }
  }

  lemma CompensateBeside(r: Record, inner: Active, outer: Active)
    requires r.entry in inner && Compensate(r, inner).Keys !! outer.Keys && inner.Keys !! outer.Keys
    ensures Compensate(r, outer + inner) == outer + Compensate(r, inner)
  {
    var both, next := outer + inner, Compensate(r, inner);
    assert On(both, r.entry) == On(inner, r.entry);
    if On(inner, r.entry) && Compensates(r) {
      var target := r.Target();
      assert target in next;
      assert On(both, target) == On(inner, target);
      var value := next[target];
      assert next == inner[target := value];
      assert both[target := value] == outer + next;
    }
  }

  /** The walk over records whose entries all lie in one map ignores a second, disjoint map. */
  lemma {:induction false} WalkBackBeside(records: seq<Record>, inner: Active, outer: Active)
    requires Entries(records) <= inner.Keys
    requires WalkBack(records, inner).Keys !! outer.Keys
    ensures WalkBack(records, outer + inner) == outer + WalkBack(records, inner)
  {
    if records != [] {
      var init, last := records[..|records| - 1], records[|records| - 1];
      EntriesGrow(init, last);
      assert records == init + [last];
      var next := Compensate(last, inner);
      WalkBackKeepsKeys(records, inner);
      WalkBackKeepsKeys(init, next);
      CompensateBeside(last, inner, outer);
      WalkBackBeside(init, next, outer);
    }
  }

  // ----- the walk is the one consistent reading

  /** What a status assignment says of an entry, counting the compensations recorded at k and later that the
      assignment itself holds in force: each correction clears and each reversal toggles, newest first. */
  ghost function Verdict(records: seq<Record>, status: Active, entry: string, k: nat): bool
    requires k <= |records|
    decreases |records| - k
  {
    if k == |records| then true
    else
      var later := Verdict(records, status, entry, k + 1);
      var r := records[k];
      if !Compensates(r) || r.Target() != entry || !On(status, r.entry) then later
      else r.command.Revert? && !later
  }

  /** Every entry's status is the verdict of the compensations in force. */
  ghost predicate Consistent(records: seq<Record>, status: Active) {
    forall i :: 0 <= i < |records| ==> (On(status, records[i].entry) <==> Verdict(records, status, records[i].entry, 0))
  }

  /** Compensations up to an entry cannot aim at it, so only the later ones have a say. */
  lemma {:induction false} VerdictFromLater(records: seq<Record>, status: Active, i: nat, k: nat)
    requires Distinct(records) && Linked(records) && k <= i < |records|
    ensures Verdict(records, status, records[i].entry, k) == Verdict(records, status, records[i].entry, i + 1)
    decreases i - k
  {
    AimsEarlier(records, k, i);
    if k < i {
      VerdictFromLater(records, status, i, k + 1);
    }
  }

  lemma AimsEarlier(records: seq<Record>, k: nat, i: nat)
    requires Distinct(records) && Linked(records) && k <= i < |records|
    ensures Compensates(records[k]) ==> records[k].Target() != records[i].entry
  {
  }

  lemma {:induction false} VerdictAgrees(records: seq<Record>, one: Active, two: Active, entry: string, k: nat)
    requires k <= |records|
    requires forall j :: k <= j < |records| ==> (On(one, records[j].entry) <==> On(two, records[j].entry))
    ensures Verdict(records, one, entry, k) == Verdict(records, two, entry, k)
    decreases |records| - k
  {
    if k < |records| {
      VerdictAgrees(records, one, two, entry, k + 1);
    }
  }

  lemma {:induction false} ConsistentFrom(records: seq<Record>, one: Active, two: Active, k: nat)
    requires Distinct(records) && Linked(records) && k <= |records|
    requires Consistent(records, one) && Consistent(records, two)
    ensures forall j :: k <= j < |records| ==> (On(one, records[j].entry) <==> On(two, records[j].entry))
    decreases |records| - k
  {
    if k < |records| {
      ConsistentFrom(records, one, two, k + 1);
      VerdictFromLater(records, one, k, 0);
      VerdictFromLater(records, two, k, 0);
      VerdictAgrees(records, one, two, records[k].entry, k + 1);
    }
  }

  /** Walking the first n records back leaves the entries from n on, and what they already decided, alone. */
  lemma {:induction false} WalkBackUntouched(records: seq<Record>, n: nat, active: Active, i: nat)
    requires Distinct(records) && Linked(records) && n <= i + 1 && i < |records|
    ensures On(WalkBack(records[..n], active), records[i].entry) == On(active, records[i].entry)
  {
    if n > 0 {
      assert records[..n][..n - 1] == records[..n - 1];
      AimsEarlier(records, n - 1, i);
      WalkBackUntouched(records, n - 1, Compensate(records[n - 1], active), i);
    }
  }

  /** The status assignment reads every entry by its own compensations in force from n on. */
  ghost predicate ReadsFrom(records: seq<Record>, active: Active, n: nat)
    requires n <= |records|
  {
    forall i :: 0 <= i < |records| ==> (On(active, records[i].entry) <==> Verdict(records, active, records[i].entry, n))
  }

  /** One more compensation taken into account. */
  lemma ReadsOneMore(records: seq<Record>, active: Active, n: nat)
    requires Distinct(records) && Linked(records) && 0 < n <= |records| && ReadsFrom(records, active, n)
    ensures ReadsFrom(records, Compensate(records[n - 1], active), n - 1)
  {
    var next := Compensate(records[n - 1], active);
    forall j | n - 1 <= j < |records| ensures On(next, records[j].entry) == On(active, records[j].entry) {
      AimsEarlier(records, n - 1, j);
    }
    forall i | 0 <= i < |records|
      ensures On(next, records[i].entry) <==> Verdict(records, next, records[i].entry, n - 1)
    {
      VerdictAgrees(records, active, next, records[i].entry, n - 1);
    }
  }

  /** With the records from n on already walked, a map that reads every entry by them walks on to the one reading of all. */
  lemma {:induction false} WalkBackReads(records: seq<Record>, n: nat, active: Active)
    requires Distinct(records) && Linked(records) && n <= |records| && ReadsFrom(records, active, n)
    ensures Consistent(records, WalkBack(records[..n], active))
  {
    if n > 0 {
      assert records[..n][..n - 1] == records[..n - 1];
      ReadsOneMore(records, active, n);
      WalkBackReads(records, n - 1, Compensate(records[n - 1], active));
    } else {
      assert WalkBack(records[..0], active) == active;
    }
  }

  /** The backward walk reads every entry by the compensations in force, and no other reading does. */
  lemma WalkIsTheOneReading(records: seq<Record>, status: Active)
    requires Distinct(records) && Linked(records)
    ensures Consistent(records, Base(records))
    ensures Consistent(records, status) ==>
      forall i :: 0 <= i < |records| ==> (On(status, records[i].entry) <==> On(Base(records), records[i].entry))
  {
    AllActiveIs(records);
    assert records[..|records|] == records;
    forall i | 0 <= i < |records| ensures records[i].entry in AllActive(records) {
      assert records[i].entry in Entries(records);
    }
    WalkBackReads(records, |records|, AllActive(records));
    if Consistent(records, status) {
      ConsistentFrom(records, status, Base(records), 0);
    }
  }

  /** How many reversals in force are aimed at the entry from k on. */
  ghost function Reversals(records: seq<Record>, status: Active, entry: string, k: nat): nat
    requires k <= |records|
    decreases |records| - k
  {
    if k == |records| then 0
    else
      var r := records[k];
      Reversals(records, status, entry, k + 1) +
      if r.command.Revert? && r.Target() == entry && On(status, r.entry) then 1 else 0
  }

  lemma {:induction false} VerdictIsParity(records: seq<Record>, status: Active, entry: string, k: nat)
    requires k <= |records|
    requires forall j :: k <= j < |records| && records[j].command.CorrectTransaction? && On(status, records[j].entry) ==>
      records[j].Target() != entry
    ensures Verdict(records, status, entry, k) <==> Reversals(records, status, entry, k) % 2 == 0
    decreases |records| - k
  {
    if k < |records| {
      VerdictIsParity(records, status, entry, k + 1);
    }
  }

  /** An entry no correction in force clears counts exactly when an even number of reversals in force name it. */
  lemma InForceByParity(records: seq<Record>, i: nat)
    requires Distinct(records) && Linked(records) && i < |records|
    requires forall j :: 0 <= j < |records| && records[j].command.CorrectTransaction? && On(Base(records), records[j].entry) ==>
      records[j].Target() != records[i].entry
    ensures On(Base(records), records[i].entry) <==>
      Reversals(records, Base(records), records[i].entry, 0) % 2 == 0
  {
    WalkIsTheOneReading(records, Base(records));
    VerdictIsParity(records, Base(records), records[i].entry, 0);
  }

  // ----- a reversal flips exactly its chain

  /** The entry, the entry it reverses if it is a reversal, and so on back to an original. */
  ghost function Chain(records: seq<Record>, entry: string): set<string> {
    if records == [] then {}
    else
      var init, last := records[..|records| - 1], records[|records| - 1];
      if last.entry != entry then Chain(init, entry)
      else if last.command.Revert? then {entry} + Chain(init, last.Target())
      else {entry}
  }

  ghost predicate OnlyReversals(records: seq<Record>) {
    forall i :: 0 <= i < |records| ==>
      !records[i].command.CorrectTransaction? && !records[i].command.DraftRevert?
  }

  ghost predicate DiffersOn(one: Active, two: Active, entries: set<string>) {
    one.Keys == two.Keys && forall entry :: entry in one ==> (one[entry] != two[entry] <==> entry in entries)
  }

  lemma {:induction false} ChainWithin(records: seq<Record>, entry: string)
    ensures Chain(records, entry) <= Entries(records)
  {
    if records != [] {
      var init, last := records[..|records| - 1], records[|records| - 1];
      EntriesGrow(init, last);
      assert records == init + [last];
      ChainWithin(init, entry);
      if last.command.Revert? { ChainWithin(init, last.Target()); }
    }
  }

  lemma CompensateDiffers(r: Record, one: Active, two: Active, differ: set<string>)
    requires !r.command.CorrectTransaction? && DiffersOn(one, two, differ)
    requires r.command.Revert? ==> r.entry !in differ
    requires Compensates(r) ==> r.Target() in one
    ensures DiffersOn(Compensate(r, one), Compensate(r, two), differ)
  {
  }

  lemma {:induction false} WalkBackDiffers(records: seq<Record>, one: Active, two: Active, entry: string, differ: set<string>)
    requires Distinct(records) && Linked(records) && OnlyReversals(records)
    requires Entries(records) <= one.Keys
    requires entry in differ && DiffersOn(one, two, differ)
    requires differ * Entries(records) <= {entry}
    requires forall i :: 0 <= i < |records| && Compensates(records[i]) ==> records[i].Target() !in differ - {entry}
    ensures DiffersOn(WalkBack(records, one), WalkBack(records, two), differ + Chain(records, entry))
  {
    if records != [] {
      var init, last := records[..|records| - 1], records[|records| - 1];
      EntriesGrow(init, last);
      assert records == init + [last];
      LinkedInit(records);
      assert last.entry in Entries(records);
      if last.command.Revert? { assert last.Target() in Entries(init); }
      assert last.entry !in Entries(init);
      var one', two' := Compensate(last, one), Compensate(last, two);
      if last.entry == entry && last.command.Revert? {
        var target := last.Target();
        forall i | 0 <= i < |init| && Compensates(init[i]) ensures init[i].Target() !in differ {
          AimsEarlier(records, i, |records| - 1);
          assert records[i] == init[i];
        }
        assert DiffersOn(one', two', differ + {target});
        WalkBackDiffers(init, one', two', target, differ + {target});
        assert differ + {target} + Chain(init, target) == differ + Chain(records, entry) by {
          if Chain(init, target) == {} { ChainHasIt(init, target); }
          ChainHasIt(init, target);
        }
      } else {
        if last.entry in differ { assert last.entry in differ * Entries(records); }
        CompensateDiffers(last, one, two, differ);
        WalkBackDiffers(init, one', two', entry, differ);
        if last.entry == entry { ChainOfMissing(init, entry); }
      }
    }
  }

  lemma {:induction false} ChainHasIt(records: seq<Record>, entry: string)
    requires entry in Entries(records)
    ensures entry in Chain(records, entry)
  {
    var init, last := records[..|records| - 1], records[|records| - 1];
    EntriesGrow(init, last);
    assert records == init + [last];
    if last.entry != entry { ChainHasIt(init, entry); }
  }

  lemma {:induction false} ChainOfMissing(records: seq<Record>, entry: string)
    requires entry !in Entries(records)
    ensures Chain(records, entry) == {}
  {
    if records != [] {
      var init, last := records[..|records| - 1], records[|records| - 1];
      EntriesGrow(init, last);
      assert records == init + [last];
      ChainOfMissing(init, entry);
    }
  }

  lemma TogglesBeside(undo: Record, all: Active)
    requires undo.command.Revert? && undo.entry !in all && On(all, undo.Target())
    ensures Compensate(undo, all[undo.entry := true]) == map[undo.entry := true] + all[undo.Target() := false]
  {
    var both := all[undo.entry := true];
    assert On(both, undo.entry) && On(both, undo.Target());
  }

  lemma UndoLinks(records: seq<Record>, undo: Record)
    requires Compensates(undo)
    requires Distinct(records + [undo]) && Linked(records + [undo])
    ensures Distinct(records) && Linked(records) && undo.Target() in Entries(records)
    ensures undo.entry !in Entries(records)
  {
    var more := records + [undo];
    assert more[..|records|] == records && more[|records|] == undo;
    LinkedInit(more);
    FreshAtEnd(records, undo);
  }

  /** Appending a reversal starts the walk with its target off. */
  lemma BaseAfterReversal(records: seq<Record>, undo: Record)
    requires undo.command.Revert?
    requires Linked(records) && undo.Target() in Entries(records) && undo.entry !in Entries(records)
    ensures var off := AllActive(records)[undo.Target() := false];
            Base(records + [undo]) == map[undo.entry := true] + WalkBack(records, off)
  {
    var more, target, all := records + [undo], undo.Target(), AllActive(records);
    assert more[..|records|] == records && more[|records|] == undo;
    AllActiveIs(records);
    TogglesBeside(undo, all);
    WalkBackStaysLinked(records, all[target := false]);
    WalkBackBeside(records, all[target := false], map[undo.entry := true]);
  }

  /** Reversing an entry flips it, the entry it reverses, and so on to the original, and nothing else. */
  lemma ReversalFlipsItsChain(records: seq<Record>, undo: Record)
    requires undo.command.Revert?
    requires Distinct(records + [undo]) && Linked(records + [undo]) && OnlyReversals(records)
    ensures On(Full(records + [undo]).active, undo.entry)
    ensures forall entry :: entry in Entries(records) ==>
      (On(Full(records + [undo]).active, entry) != On(Full(records).active, entry) <==>
       entry in Chain(records, undo.Target()))
  {
    var more := records + [undo];
    UndoLinks(records, undo);
    BaseAfterReversal(records, undo);
    AllActiveIs(records);
    TargetOffFlipsItsChain(records, undo.Target());
    NoRestores(records, |records|, Base(records));
    NoRestores(more, |more|, Base(more));
  }

  /** Walking back with an entry off from the start flips its chain. */
  lemma TargetOffFlipsItsChain(records: seq<Record>, target: string)
    requires Distinct(records) && Linked(records) && OnlyReversals(records) && target in Entries(records)
    ensures DiffersOn(WalkBack(records, AllActive(records)[target := false]), Base(records), Chain(records, target))
    ensures Base(records).Keys == Entries(records)
  {
    AllActiveIs(records);
    var all := AllActive(records);
    WalkBackStaysLinked(records, all);
    WalkBackStaysLinked(records, all[target := false]);
    WalkBackDiffers(records, all[target := false], all, target, {target});
    ChainHasIt(records, target);
    assert {target} + Chain(records, target) == Chain(records, target);
  }

  lemma FreshAtEnd(records: seq<Record>, r: Record)
    requires Distinct(records + [r])
    ensures Distinct(records) && r.entry !in Entries(records)
  {
    var more := records + [r];
    assert more[|records|] == r;
    forall i, j | 0 <= i < j < |records| ensures records[i].entry != records[j].entry {
      assert more[i].entry != more[j].entry;
    }
    forall i | 0 <= i < |records| ensures records[i].entry != r.entry {
      assert more[i].entry != more[|records|].entry;
    }
  }

  lemma {:induction false} NoRestores(records: seq<Record>, n: nat, active: Active)
    requires n <= |records| && forall i :: 0 <= i < n ==> !records[i].command.DraftRevert?
    ensures SetAside(records, n, active) == active
  {
    if n > 0 { NoRestores(records, n - 1, active); }
  }
}
