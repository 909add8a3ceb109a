/** Whose league it is. Replay and every reading resumed from a checkpoint name the person who recorded the latest
    creation, and the name that creation gave. */
module Identity {
  import opened Records
  import opened Replay
  import opened ClosedBooks

  /** The entry at i is the latest creation. */
  predicate LastCreation(records: seq<Record>, i: nat)
    requires i < |records|
  {
    records[i].command.Create? && forall k :: i < k < |records| ==> !records[k].command.Create?
  }

  predicate NoCreation(records: seq<Record>) {
    forall k :: 0 <= k < |records| ==> !records[k].command.Create?
  }

  lemma {:induction false} CreatedByLast(records: seq<Record>, i: nat, creator: string, name: string)
    requires i < |records| && LastCreation(records, i)
    ensures Created(records, creator, name) == (records[i].principal, records[i].args.name)
  {
    if i < |records| - 1 {
      CreatedByLast(records[..|records| - 1], i, creator, name);
    }
  }

  lemma {:induction false} CreatedByNone(records: seq<Record>, creator: string, name: string)
    requires NoCreation(records)
    ensures Created(records, creator, name) == (creator, name)
  {
    if records != [] {
      CreatedByNone(records[..|records| - 1], creator, name);
    }
  }

  /** Replay names the latest creation's principal and league name, and nobody before there is one. */
  lemma ReplayNamesTheCreator(records: seq<Record>)
    ensures forall i :: 0 <= i < |records| && LastCreation(records, i) ==>
      Full(records).creator == records[i].principal && Full(records).name == records[i].args.name
    ensures NoCreation(records) ==> Full(records).creator == "" && Full(records).name == ""
  {
    forall i | 0 <= i < |records| && LastCreation(records, i)
      ensures Full(records).creator == records[i].principal && Full(records).name == records[i].args.name
    {
      CreatedByLast(records, i, "", "");
    }
    if NoCreation(records) {
      CreatedByNone(records, "", "");
    }
  }

  /** A resumed reading names the tail's latest creation or, where the tail has none, whom the checkpoint names. */
  lemma ResumedNamesTheCreator<S>(records: seq<Record>, b: Attached<S>)
    requires |b.keys| <= |records|
    ensures forall i :: |b.keys| <= i < |records| && LastCreation(records, i) ==>
      Resumed(records, b).creator == records[i].principal && Resumed(records, b).name == records[i].args.name
    ensures NoCreation(records[|b.keys|..]) ==>
      Resumed(records, b).creator == b.raw.projection.creator && Resumed(records, b).name == b.raw.projection.name
  {
    var tail, kept := records[|b.keys|..], b.raw.projection;
    forall i | |b.keys| <= i < |records| && LastCreation(records, i)
      ensures Resumed(records, b).creator == records[i].principal && Resumed(records, b).name == records[i].args.name
    {
      CreatedByLast(tail, i - |b.keys|, kept.creator, kept.name);
    }
    if NoCreation(tail) {
      CreatedByNone(tail, kept.creator, kept.name);
    }
  }
}
