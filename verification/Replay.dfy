/** Compensation replay: which ledger entries still count. Nothing in the ledger is ever edited, so an undo, a
    correction and a draft restore are entries too, and this fold decides what they leave in force. */
module Replay {
  import opened Assets
  import opened Records

  type Active = map<string, bool>

  datatype Projection = Projection(creator: string, name: string, active: Active)

  /** A missing key reads as false. */
  predicate On(active: Active, entry: string) {
    entry in active && active[entry]
  }

  function AllActive(records: seq<Record>): Active {
    if records == [] then map[]
    else AllActive(records[..|records| - 1])[records[|records| - 1].entry := true]
  }

  /** The last creation's principal and league name, over the ones given. */
  function Created(records: seq<Record>, creator: string, name: string): (string, string) {
    if records == [] then (creator, name)
    else
      var last := records[|records| - 1];
      if last.command.Create? then (last.principal, last.args.name)
      else Created(records[..|records| - 1], creator, name)
  }

  /** One step of the backward walk: a correction clears its target and a reversal toggles it, while active. */
  function Compensate(r: Record, active: Active): Active {
    if !On(active, r.entry) then active
    else if r.command.CorrectTransaction? then active[r.Target() := false]
    else if r.command.Revert? then active[r.Target() := !On(active, r.Target())]
    else active
  }

  function WalkBack(records: seq<Record>, active: Active): Active {
    if records == [] then active
    else WalkBack(records[..|records| - 1], Compensate(records[|records| - 1], active))
  }

  /** The entries of one draft in [lo, hi) are set aside. */
  function Cleared(records: seq<Record>, lo: nat, hi: nat, key: DraftKey, active: Active): Active
    requires lo <= hi <= |records|
  {
    if lo == hi then active
    else
      var before := Cleared(records, lo, hi - 1, key, active);
      if Live(records[hi - 1].command) && records[hi - 1].OfDraft(key) then before[records[hi - 1].entry := false]
      else before
  }

  /** What the restore recorded at j does to the active entries, if the record is one and is active. */
  function Restored(records: seq<Record>, j: nat, active: Active): Active
    requires j < |records|
  {
    var r := records[j];
    if !r.command.DraftRevert? || !On(active, r.entry) then active
    else
      var place := PlaceOf(records, r.args.draft.value.act.value.restoreTo);
      if place.None? || place.value >= j then active
      else Cleared(records, place.value + 1, j, r.args.draft.value.Key(), active)
  }

  /** The restores among the first n records, in ledger order. */
  function SetAside(records: seq<Record>, n: nat, active: Active): Active
    requires n <= |records|
  {
    if n == 0 then active else Restored(records, n - 1, SetAside(records, n - 1, active))
  }

  function Base(records: seq<Record>): Active {
    WalkBack(records, AllActive(records))
  }

  function Full(records: seq<Record>): Projection {
    var (creator, name) := Created(records, "", "");
    Projection(creator, name, SetAside(records, |records|, Base(records)))
  }

  /** Entry by index, as the restore pass builds it. */
  method IndexEntries(records: seq<Record>) returns (index: map<string, nat>)
    ensures forall entry :: entry in index <==> PlaceOf(records, entry).Some?
    ensures forall entry :: entry in index ==> PlaceOf(records, entry) == Some(index[entry])
  {
    index := map[];
    for i := 0 to |records|
      invariant forall entry :: entry in index <==> PlaceOf(records[..i], entry).Some?
      invariant forall entry :: entry in index ==> PlaceOf(records[..i], entry) == Some(index[entry])
    {
      index := index[records[i].entry := i];
      assert records[..i + 1][..i] == records[..i];
    }
    assert records[..|records|] == records;
  }

  method SetAsideByDraftRestores(records: seq<Record>, start: Active) returns (active: Active)
    ensures active == SetAside(records, |records|, start)
  {
    var index := IndexEntries(records);
    active := start;
    for j := 0 to |records|
      invariant active == SetAside(records, j, start)
    {
      var r := records[j];
      if !r.command.DraftRevert? || !On(active, r.entry) {
        continue;
      }
      var draft := r.args.draft.value;
      if draft.act.value.restoreTo !in index || index[draft.act.value.restoreTo] >= j {
        continue;
      }
      var checkpoint := index[draft.act.value.restoreTo];
      ghost var before := active;
      for k := checkpoint + 1 to j
        invariant active == Cleared(records, checkpoint + 1, k, draft.Key(), before)
      {
        if Live(records[k].command) && records[k].OfDraft(draft.Key()) {
          active := active[records[k].entry := false];
        }
      }
    }
  }

  /** Newest first, each correction in force clears its target and each reversal in force turns its target over. */
  method CompensateBackwards(records: seq<Record>, start: Active) returns (active: Active)
    ensures active == WalkBack(records, start)
  {
    active := start;
    assert records[..|records|] == records;
    for i := |records| downto 0
      invariant WalkBack(records[..i], active) == WalkBack(records, start)
    {
      var r := records[i];
      assert records[..i + 1][..i] == records[..i];
      if r.command.CorrectTransaction? && On(active, r.entry) {
        active := active[r.args.correction.value.entry := false];
      }
      if r.command.Revert? && On(active, r.entry) {
        active := active[r.args.entry := !On(active, r.args.entry)];
      }
    }
  }

  method ReplayFull(records: seq<Record>) returns (p: Projection)
    ensures p == Full(records)
  {
    var active: Active, creator, name := map[], "", "";
    for i := 0 to |records|
      invariant active == AllActive(records[..i])
      invariant (creator, name) == Created(records[..i], "", "")
    {
      active := active[records[i].entry := true];
      if records[i].command.Create? {
        creator, name := records[i].principal, records[i].args.name;
      }
      assert records[..i + 1][..i] == records[..i];
    }
    assert records[..|records|] == records;
    active := CompensateBackwards(records, active);
    active := SetAsideByDraftRestores(records, active);
    p := Projection(creator, name, active);
  }
}
