/** Closing the books: a stored fold of the ledger through a season rollover, and replay resumed from it. S is
    whatever else a season's summary stores; here only its replay matters. */
module ClosedBooks {
  import opened Assets
  import opened Records
  import opened Replay
  import opened Compensation
  import opened DraftRestores

  /** A stored prefix: what it was folded to, and the entries it was folded from in place of their hash. */
  datatype Books<S> = Books(revision: int, season: int, entry: string, source: seq<Record>, projection: Projection,
                            folded: S)
  {
    predicate Validates() {
      revision >= 1 && season >= 1 && entry != "" && projection.creator != "" && |projection.active| == revision
    }
  }

  /** What the fold of identity and compensation reads of an entry; the draft's own key is not part of it. */
  datatype FoldKey = FoldKey(entry: string, command: Command, principal: string, name: string, target: string,
                             correction: string, restore: string, at: int, people: Option<string>)

  function KeyForFold(r: Record): FoldKey {
    FoldKey(r.entry, r.command, r.principal, r.args.name, r.args.entry,
            if r.args.correction.Some? then r.args.correction.value.entry else "",
            if r.args.draft.Some? && r.args.draft.value.act.Some? then r.args.draft.value.act.value.restoreTo else "",
            r.at, r.args.people)
  }

  function KeysOf(records: seq<Record>): (keys: seq<FoldKey>)
    ensures |keys| == |records| && forall i :: 0 <= i < |keys| ==> keys[i] == KeyForFold(records[i])
  {
    seq(|records|, i requires 0 <= i < |records| => KeyForFold(records[i]))
  }

  datatype Attached<S> = Attached(raw: Books<S>, keys: seq<FoldKey>, franchises: seq<string>)

  /** A ledger as a caller holds it: its entries, and the checkpoint that rides with the first of them. */
  datatype Held<S> = Held(records: seq<Record>, books: Option<Attached<S>>)

  // ----- the readings

  /** A compensation after the checkpoint may change what it folded. */
  predicate Compensable<S>(r: Record, books: Books<S>) {
    || r.command.DraftRevert?
    || (Compensates(r) && r.Target() in books.projection.active)
  }

  /** A later entry that is no draft restore, and neither reverses nor corrects an entry the checkpoint has a status of. */
  predicate LeavesAlone<S>(r: Record, books: Books<S>) {
    && !r.command.DraftRevert?
    && (r.command.Revert? ==> r.args.entry !in books.projection.active)
    && (r.command.CorrectTransaction? ==> r.args.correction.value.entry !in books.projection.active)
  }

  predicate Usable<S>(held: Held<S>) {
    && held.records != []
    && held.books.Some?
    && |held.books.value.keys| <= |held.records|
    && held.records[0].args.franchises == held.books.value.franchises
    && KeysOf(held.records[..|held.books.value.keys|]) == held.books.value.keys
    && forall i :: |held.books.value.keys| <= i < |held.records| ==>
         !Compensable(held.records[i], held.books.value.raw)
  }

  method UsableClosedBooks<S>(held: Held<S>) returns (books: Option<Attached<S>>)
    ensures books == if Usable(held) then held.books else None
    ensures books.Some? <==>
      && held.books.Some? && 1 <= |held.records| && |held.books.value.keys| <= |held.records|
      && held.records[0].args.franchises == held.books.value.franchises
      && (forall i :: 0 <= i < |held.books.value.keys| ==> KeyForFold(held.records[i]) == held.books.value.keys[i])
      && (forall i :: |held.books.value.keys| <= i < |held.records| ==> LeavesAlone(held.records[i], held.books.value.raw))
  {
    if held.records == [] || held.books.None? {
      return None;
    }
    var b := held.books.value;
    if |held.records| < |b.keys| || held.records[0].args.franchises != b.franchises {
      return None;
    }
    var same := SameKeys(held.records, b.keys);
    if !same {
      return None;
    }
    for i := |b.keys| to |held.records|
      invariant forall k :: |b.keys| <= k < i ==> !Compensable(held.records[k], b.raw)
    {
      var r := held.records[i];
      if r.command.Revert? && r.args.entry in b.raw.projection.active {
        return None;
      }
      if r.command.CorrectTransaction? && r.args.correction.value.entry in b.raw.projection.active {
        return None;
      }
      if r.command.DraftRevert? {
        return None;
      }
    }
    return Some(b);
  }

  /** The ledger still begins with the entries the keys were taken of. */
  method SameKeys(records: seq<Record>, keys: seq<FoldKey>) returns (same: bool)
    requires |keys| <= |records|
    ensures same <==> KeysOf(records[..|keys|]) == keys
  {
    var front := records[..|keys|];
    for i := 0 to |keys|
      invariant forall k :: 0 <= k < i ==> KeyForFold(records[k]) == keys[k]
    {
      if KeyForFold(records[i]) != keys[i] {
        assert KeysOf(front)[i] != keys[i];
        return false;
      }
    }
    assert KeysOf(front) == keys;
    return true;
  }

  /** The stored projection with the tail's own replay laid over it. */
  function Resumed<S>(records: seq<Record>, b: Attached<S>): Projection
    requires |b.keys| <= |records|
  {
    var tail := records[|b.keys|..];
    var (creator, name) := Created(tail, b.raw.projection.creator, b.raw.projection.name);
    Projection(creator, name, b.raw.projection.active + Full(tail).active)
  }

  method ReplayClosedBooks<S>(records: seq<Record>, b: Attached<S>) returns (p: Projection)
    requires |b.keys| <= |records|
    ensures p == Resumed(records, b)
  {
    p := b.raw.projection;
    var tail := records[|b.keys|..];
    var next := ReplayFull(tail);
    p := p.(active := p.active + next.active);
    for i := 0 to |tail|
      invariant p.active == b.raw.projection.active + next.active
      invariant (p.creator, p.name) == if exists k :: 0 <= k < i && tail[k].command.Create?
        then (next.creator, next.name) else (b.raw.projection.creator, b.raw.projection.name)
    {
      if tail[i].command.Create? {
        p := p.(creator := next.creator, name := next.name);
      }
    }
    CreatedOver(tail, b.raw.projection.creator, b.raw.projection.name);
  }

  lemma {:induction false} CreatedOver(records: seq<Record>, creator: string, name: string)
    ensures Created(records, creator, name) ==
      if exists k :: 0 <= k < |records| && records[k].command.Create?
      then Created(records, "", "") else (creator, name)
  {
    if records != [] {
      var init := records[..|records| - 1];
      CreatedOver(init, creator, name);
      if exists k :: 0 <= k < |init| && init[k].command.Create? {
        var k :| 0 <= k < |init| && init[k].command.Create?;
        assert records[k].command.Create?;
      }
    }
  }

  function Reading<S>(held: Held<S>): Projection {
    if Usable(held) then Resumed(held.records, held.books.value) else Full(held.records)
  }

  method ReplayHeld<S>(held: Held<S>) returns (p: Projection)
    ensures p == Reading(held)
  {
    var books := UsableClosedBooks(held);
    if books.Some? {
      p := ReplayClosedBooks(held.records, books.value);
    } else {
      p := ReplayFull(held.records);
    }
  }

  /** A summary of the ledger as it stands at a recorded rollover. */
  function Close<S>(held: Held<S>, folded: S): Result<Books<S>> {
    if held.records == [] || !held.records[|held.records| - 1].RecordedRollover()
    then Refused("close books only at a recorded rollover")
    else
      var last := held.records[|held.records| - 1];
      var raw := Books(|held.records|, last.plan.value.closes, last.entry, held.records, Reading(held), folded);
      if raw.Validates() then Ok(raw) else Refused("invalid closed season summary")
  }

  /** The books close on a recorded rollover, the ledger's last entry, for the season it ends; the summary names that
      entry and keeps what the ledger then reads as. */
  lemma CloseSummarises<S>(held: Held<S>, folded: S)
    ensures var n := |held.records|;
            Close(held, folded).Ok? <==>
              && n > 0 && held.records[n - 1].command.SeasonRollover? && held.records[n - 1].plan.Some?
              && held.records[n - 1].before && held.records[n - 1].plan.value.closes >= 1
              && held.records[n - 1].entry != "" && Reading(held).creator != "" && |Reading(held).active| == n
    ensures Close(held, folded).Ok? ==>
      var raw, last := Close(held, folded).value, held.records[|held.records| - 1];
      && raw.revision == |held.records| && raw.source == held.records && raw.entry == last.entry
      && raw.season == last.plan.value.closes && raw.folded == folded
      && raw.projection.creator == Reading(held).creator && raw.projection.name == Reading(held).name
      && raw.projection.active == Reading(held).active
  {
  }

  /** Equal fold keys show the same entry as far as identity, compensation and people are concerned. */
  lemma FoldKeysTell(r: Record, other: Record)
    requires KeyForFold(r) == KeyForFold(other)
    ensures r.entry == other.entry && r.command == other.command && r.principal == other.principal && r.at == other.at
    ensures r.args.name == other.args.name && r.args.entry == other.args.entry && r.args.people == other.args.people
    ensures r.args.correction.Some? && other.args.correction.Some? ==>
      r.args.correction.value.entry == other.args.correction.value.entry
    ensures r.command.DraftRevert? ==>
      r.args.draft.value.act.value.restoreTo == other.args.draft.value.act.value.restoreTo
  {
  }

  /** Attaches the summary, with the keys and franchises of its prefix, or refuses it and leaves the ledger bare. */
  method WithClosedBooks<S>(records: seq<Record>, raw: Books<S>) returns (held: Held<S>, accepted: bool)
    ensures (held, accepted) == Attach(records, raw)
    ensures held.records == records && (held.books.Some? <==> accepted)
    ensures accepted <==>
      && raw.projection.creator != "" && |raw.projection.active| == raw.revision && raw.season >= 1 && raw.entry != ""
      && 1 <= raw.revision <= |records| && raw.source == records[..raw.revision]
      && var last := records[raw.revision - 1];
      && last.command.SeasonRollover? && last.plan.Some? && last.before && last.entry == raw.entry
      && last.plan.value.closes == raw.season
    ensures accepted ==>
      && held.books.value.raw == raw && held.books.value.franchises == records[0].args.franchises
      && held.books.value.keys == KeysOf(records[..raw.revision])
  {
    held := Held(records, None);
    if !raw.Validates() || raw.revision > |records| {
      return held, false;
    }
    var prefix := records[..raw.revision];
    var last := prefix[|prefix| - 1];
    if !last.RecordedRollover() || last.entry != raw.entry || last.plan.value.closes != raw.season {
      return held, false;
    }
    if prefix != raw.source {
      return held, false;
    }
    var keys: seq<FoldKey> := [];
    for i := 0 to |prefix|
      invariant keys == KeysOf(prefix[..i])
    {
      keys := keys + [KeyForFold(prefix[i])];
    }
    assert prefix[..|prefix|] == prefix;
    return Held(records, Some(Attached(raw, keys, prefix[0].args.franchises))), true;
  }

  function Attach<S>(records: seq<Record>, raw: Books<S>): (Held<S>, bool) {
    if !raw.Validates() || raw.revision > |records| then (Held(records, None), false)
    else
      var prefix := records[..raw.revision];
      var last := prefix[raw.revision - 1];
      if !last.RecordedRollover() || last.entry != raw.entry || last.plan.value.closes != raw.season || prefix != raw.source
      then (Held(records, None), false)
      else (Held(records, Some(Attached(raw, KeysOf(prefix), prefix[0].args.franchises))), true)
  }

  // ----- replay reads only keys and draft keys

  function DraftKeyOf(r: Record): Option<DraftKey> {
    if r.args.draft.Some? then Some(r.args.draft.value.Key()) else None
  }

  predicate SameInputs(one: seq<Record>, two: seq<Record>) {
    |one| == |two| && forall i :: 0 <= i < |one| ==>
      KeyForFold(one[i]) == KeyForFold(two[i]) && DraftKeyOf(one[i]) == DraftKeyOf(two[i])
  }

  /** Everything replay reads of an entry apart from its draft's key. */
  datatype ReplayPart = ReplayPart(entry: string, command: Command, principal: string, name: string, target: string,
                                   correction: string, restore: string)

  function PartOf(r: Record): ReplayPart {
    var key := KeyForFold(r);
    ReplayPart(key.entry, key.command, key.principal, key.name, key.target, key.correction, key.restore)
  }

  predicate SameParts(one: seq<Record>, two: seq<Record>) {
    |one| == |two| && forall i :: 0 <= i < |one| ==> PartOf(one[i]) == PartOf(two[i])
  }

  lemma InputsHoldParts(one: seq<Record>, two: seq<Record>)
    requires SameInputs(one, two)
    ensures SameParts(one, two)
  {
  }

  lemma {:induction false} SameStart(one: seq<Record>, two: seq<Record>)
    requires SameParts(one, two)
    ensures AllActive(one) == AllActive(two)
    ensures Created(one, "", "") == Created(two, "", "")
  {
    if one != [] {
      assert PartOf(one[|one| - 1]) == PartOf(two[|two| - 1]);
      SameStart(one[..|one| - 1], two[..|two| - 1]);
    }
  }

  lemma {:induction false} SameWalk(one: seq<Record>, two: seq<Record>, active: Active)
    requires SameParts(one, two)
    ensures WalkBack(one, active) == WalkBack(two, active)
  {
    if one != [] {
      assert PartOf(one[|one| - 1]) == PartOf(two[|two| - 1]);
      SameWalk(one[..|one| - 1], two[..|two| - 1], Compensate(one[|one| - 1], active));
    }
  }

  lemma {:induction false} SamePlace(one: seq<Record>, two: seq<Record>, entry: string)
    requires SameParts(one, two)
    ensures PlaceOf(one, entry) == PlaceOf(two, entry)
  {
    if one != [] {
      assert PartOf(one[|one| - 1]) == PartOf(two[|two| - 1]);
      SamePlace(one[..|one| - 1], two[..|two| - 1], entry);
    }
  }

  lemma {:induction false} SameCleared(one: seq<Record>, two: seq<Record>, lo: nat, hi: nat, key: DraftKey, active: Active)
    requires SameInputs(one, two) && lo <= hi <= |one|
    ensures Cleared(one, lo, hi, key, active) == Cleared(two, lo, hi, key, active)
  {
    if lo < hi {
      assert KeyForFold(one[hi - 1]) == KeyForFold(two[hi - 1]) && DraftKeyOf(one[hi - 1]) == DraftKeyOf(two[hi - 1]);
      SameCleared(one, two, lo, hi - 1, key, active);
    }
  }

  lemma SameRestored(one: seq<Record>, two: seq<Record>, j: nat, active: Active)
    requires SameInputs(one, two) && j < |one|
    ensures Restored(one, j, active) == Restored(two, j, active)
  {
    InputsHoldParts(one, two);
    var a, b := one[j], two[j];
    assert KeyForFold(a) == KeyForFold(b) && DraftKeyOf(a) == DraftKeyOf(b);
    if a.command.DraftRevert? {
      var place := PlaceOf(one, a.args.draft.value.act.value.restoreTo);
      SamePlace(one, two, a.args.draft.value.act.value.restoreTo);
      if place.Some? && place.value < j {
        SameCleared(one, two, place.value + 1, j, a.args.draft.value.Key(), active);
      }
    }
  }

  /** Ledgers whose restores act alike set the same entries aside. */
  lemma {:induction false} SetAsideByStep(one: seq<Record>, two: seq<Record>, n: nat, active: Active)
    requires n <= |one| && n <= |two|
    requires forall j: nat, status: Active :: j < n ==> Restored(one, j, status) == Restored(two, j, status)
    ensures SetAside(one, n, active) == SetAside(two, n, active)
  {
    if n > 0 {
      SetAsideByStep(one, two, n - 1, active);
    }
  }

  lemma SameSetAside(one: seq<Record>, two: seq<Record>, n: nat, active: Active)
    requires SameInputs(one, two) && n <= |one|
    ensures SetAside(one, n, active) == SetAside(two, n, active)
  {
    forall j: nat, status: Active | j < n ensures Restored(one, j, status) == Restored(two, j, status) {
      SameRestored(one, two, j, status);
    }
    SetAsideByStep(one, two, n, active);
  }

  /** Equal fold keys and equal draft keys give equal replay. */
  lemma SameInputsReplayAlike(one: seq<Record>, two: seq<Record>)
    requires SameInputs(one, two)
    ensures Full(one) == Full(two)
  {
    InputsHoldParts(one, two);
    SameStart(one, two);
    SameWalk(one, two, AllActive(one));
    SameSetAside(one, two, |one|, Base(one));
  }

  // ----- a checkpoint agrees with full replay

  /** The summary is the full replay of its source, and its entry count leaves no dangling target. */
  ghost predicate Faithful<S>(raw: Books<S>) {
    raw.Validates() && raw.revision == |raw.source| && Distinct(raw.source) && raw.projection == Full(raw.source)
  }

  ghost predicate Bound<S>(b: Attached<S>) {
    Faithful(b.raw) && b.keys == KeysOf(b.raw.source)
  }

  lemma {:induction false} KeysCount(records: seq<Record>)
    requires Distinct(records)
    ensures |Entries(records)| == |records|
  {
    if records != [] {
      var init, last := records[..|records| - 1], records[|records| - 1];
      assert records == init + [last];
      FreshAtEnd(init, last);
      EntriesGrow(init, last);
      KeysCount(init);
    }
  }

  lemma {:induction false} SetAsideKeys(records: seq<Record>, n: nat, active: Active)
    requires n <= |records| && Entries(records) <= active.Keys
    ensures SetAside(records, n, active).Keys == active.Keys
  {
    if n > 0 {
      SetAsideKeys(records, n - 1, active);
      if records[n - 1].command.DraftRevert? {
        var place := PlaceOf(records, records[n - 1].args.draft.value.act.value.restoreTo);
        if place.Some? && place.value < n - 1 {
          ClearedKeys(records, place.value + 1, n - 1, records[n - 1].args.draft.value.Key(), SetAside(records, n - 1, active));
        }
      }
    }
  }

  lemma {:induction false} ClearedKeys(records: seq<Record>, lo: nat, hi: nat, key: DraftKey, active: Active)
    requires lo <= hi <= |records| && Entries(records) <= active.Keys
    ensures Cleared(records, lo, hi, key, active).Keys == active.Keys
  {
    if lo < hi {
      ClearedKeys(records, lo, hi - 1, key, active);
      assert records[hi - 1].entry in Entries(records);
    }
  }

  /** As many active keys as entries means no compensation in force named anything but an entry. */
  lemma NoDanglingTarget(records: seq<Record>)
    requires Distinct(records) && |Full(records).active| == |records|
    ensures Full(records).active.Keys == Base(records).Keys == Entries(records)
  {
    AllActiveIs(records);
    WalkBackKeepsKeys(records, AllActive(records));
    SetAsideKeys(records, |records|, Base(records));
    KeysCount(records);
    SubsetOfSameSize(Entries(records), Full(records).active.Keys);
  }

  lemma SubsetOfSameSize(small: set<string>, big: set<string>)
    requires small <= big && |small| == |big|
    ensures small == big
  {
    assert |big - small| == |big| - |small|;
  }

  ghost function Targets(records: seq<Record>): set<string> {
    set i | 0 <= i < |records| && Compensates(records[i]) :: records[i].Target()
  }

  lemma {:induction false} WalkBackReaches(records: seq<Record>, active: Active)
    ensures WalkBack(records, active).Keys <= active.Keys + Targets(records)
  {
    if records != [] {
      var init, last := records[..|records| - 1], records[|records| - 1];
      WalkBackReaches(init, Compensate(last, active));
      assert Targets(init) <= Targets(records) by {
        forall t | t in Targets(init) ensures t in Targets(records) {
          var i :| 0 <= i < |init| && Compensates(init[i]) && init[i].Target() == t;
          assert Compensates(records[i]) && records[i].Target() == t;
        }
      }
    }
  }

  /** A tail that neither names nor is named by the front walks back on its own. */
  lemma BaseSplits(front: seq<Record>, tail: seq<Record>)
    requires Distinct(front + tail)
    requires Base(front).Keys == Entries(front) && Targets(tail) !! Entries(front)
    ensures Base(tail).Keys !! Entries(front)
    ensures Base(front + tail) == Base(tail) + Base(front)
  {
    var inFront, inTail := AllActive(front), AllActive(tail);
    AllActiveIs(front);
    AllActiveIs(tail);
    DisjointEntries(front, tail);
    WalkBackReaches(tail, inTail);
    AllActiveSplit(front, tail);
    WalkBackSplit(front, tail, inFront + inTail);
    WalkBackBeside(tail, inTail, inFront);
    assert inFront + Base(tail) == Base(tail) + inFront;
    WalkBackBeside(front, inFront, Base(tail));
  }

  lemma DisjointEntries(front: seq<Record>, tail: seq<Record>)
    requires Distinct(front + tail)
    ensures Entries(front) !! Entries(tail)
  {
    forall entry | entry in Entries(front) ensures entry !in Entries(tail) {
      var i :| 0 <= i < |front| && front[i].entry == entry;
      forall j | 0 <= j < |tail| ensures tail[j].entry != entry {
        assert (front + tail)[i].entry != (front + tail)[|front| + j].entry;
      }
    }
  }

  lemma {:induction false} CreatedSplits(front: seq<Record>, tail: seq<Record>, creator: string, name: string)
    ensures var (c, n) := Created(front, creator, name);
            Created(front + tail, creator, name) == Created(tail, c, n)
  {
    if tail == [] {
      assert front + tail == front;
    } else {
      assert (front + tail)[..|front + tail| - 1] == front + tail[..|tail| - 1];
      CreatedSplits(front, tail[..|tail| - 1], creator, name);
    }
  }

  lemma Commute(one: Active, two: Active)
    requires one.Keys !! two.Keys
    ensures one + two == two + one
  {
  }

  lemma DistinctParts(front: seq<Record>, tail: seq<Record>)
    requires Distinct(front + tail)
    ensures Distinct(front)
  {
    forall i, j | 0 <= i < j < |front| ensures front[i].entry != front[j].entry {
      assert (front + tail)[i].entry != (front + tail)[j].entry;
    }
  }

  /** Replay of a front and a tail that do not touch is the two replays laid together. */
  lemma FullSplits(front: seq<Record>, tail: seq<Record>)
    requires Distinct(front + tail)
    requires |Full(front).active| == |front|
    requires Targets(tail) !! Entries(front)
    requires forall i :: 0 <= i < |tail| ==> !tail[i].command.DraftRevert?
    ensures Full(front + tail).active == Full(front).active + Full(tail).active
  {
    DistinctParts(front, tail);
    NoDanglingTarget(front);
    BaseSplits(front, tail);
    TailBeside(front, tail, Base(tail));
    NoRestores(tail, |tail|, Base(tail));
    Commute(Full(front).active, Base(tail));
  }

  /** Whenever a faithful checkpoint is accepted on a ledger whose prefix still drafts as it did when the books
      were closed, resuming from it gives the whole projection full replay gives, whatever the tail. */
  lemma CheckpointAgrees<S>(held: Held<S>)
    requires Usable(held) && Bound(held.books.value) && Distinct(held.records)
    requires SameInputs(held.records[..|held.books.value.keys|], held.books.value.raw.source)
    ensures Resumed(held.records, held.books.value) == Full(held.records)
  {
    var b := held.books.value;
    var n := |b.keys|;
    var front, tail := held.records[..n], held.records[n..];
    assert held.records == front + tail;
    SameInputsReplayAlike(front, b.raw.source);
    DistinctParts(front, tail);
    NoDanglingTarget(front);
    TailOutside(held);
    FullSplits(front, tail);
    CreatedSplits(front, tail, "", "");
  }

  lemma TailOutside<S>(held: Held<S>)
    requires Usable(held)
    ensures var tail := held.records[|held.books.value.keys|..];
            && Targets(tail) !! held.books.value.raw.projection.active.Keys
            && forall i :: 0 <= i < |tail| ==> !tail[i].command.DraftRevert?
  {
    var n := |held.books.value.keys|;
    forall i | n <= i < |held.records| ensures !Compensable(held.records[i], held.books.value.raw) {
    }
  }

  // ----- every chain of closes

  /** A league's ledger over time: entries are appended, seasons are closed, stored summaries are attached to the
      ledger as it has grown since, and a checkpoint may be dropped. */
  datatype Op<S> = Append(r: Record) | CloseSeason(folded: S) | AttachSummary(k: nat) | Forget

  datatype Desk<S> = Desk(held: Held<S>, summaries: seq<Books<S>>)

  function Step<S>(desk: Desk<S>, op: Op<S>): Desk<S> {
    match op
    case Append(r) => desk.(held := desk.held.(records := desk.held.records + [r]))
    case CloseSeason(folded) =>
      var made := Close(desk.held, folded);
      if made.Refused? then desk
      else Desk(Attach(desk.held.records, made.value).0, desk.summaries + [made.value])
    case AttachSummary(k) =>
      if k < |desk.summaries| then desk.(held := Attach(desk.held.records, desk.summaries[k]).0) else desk
    case Forget => desk.(held := desk.held.(books := None))
  }

  function Run<S>(ops: seq<Op<S>>): Desk<S> {
    if ops == [] then Desk(Held([], None), []) else Step(Run(ops[..|ops| - 1]), ops[|ops| - 1])
  }

  /** Every summary, stored or attached, is a faithful fold of a prefix of the ledger. */
  ghost predicate Sound<S>(desk: Desk<S>) {
    && (forall k :: 0 <= k < |desk.summaries| ==>
          Faithful(desk.summaries[k]) && desk.summaries[k].source <= desk.held.records)
    && (desk.held.books.Some? ==> Bound(desk.held.books.value) && desk.held.books.value.raw.source <= desk.held.records)
  }

  lemma PrefixSameInputs(front: seq<Record>, records: seq<Record>)
    requires front <= records
    ensures SameInputs(records[..|front|], front)
  {
    assert records[..|front|] == front;
  }

  lemma SoundReads<S>(desk: Desk<S>)
    requires Sound(desk) && Distinct(desk.held.records)
    ensures Reading(desk.held) == Full(desk.held.records)
  {
    if Usable(desk.held) {
      PrefixSameInputs(desk.held.books.value.raw.source, desk.held.records);
      CheckpointAgrees(desk.held);
    }
  }

  lemma AttachBinds<S>(records: seq<Record>, raw: Books<S>)
    requires Faithful(raw)
    ensures var held := Attach(records, raw).0;
            held.records == records && (held.books.Some? ==> Bound(held.books.value) && held.books.value.raw.source <= records)
  {
  }

  lemma StepStaysSound<S>(desk: Desk<S>, op: Op<S>)
    requires Sound(desk) && Distinct(Step(desk, op).held.records)
    ensures Sound(Step(desk, op))
  {
    match op
    case Append(r) =>
    case CloseSeason(folded) =>
      var made := Close(desk.held, folded);
      if made.Ok? {
        SoundReads(desk);
        AttachBinds(desk.held.records, made.value);
      }
    case AttachSummary(k) =>
      if k < |desk.summaries| { AttachBinds(desk.held.records, desk.summaries[k]); }
    case Forget =>
  }

  lemma StepGrows<S>(desk: Desk<S>, op: Op<S>)
    ensures desk.held.records <= Step(desk, op).held.records
  {
  }

  /** Over every chain of appends, season closes and re-attached summaries, the ledger reads as full replay reads
      it, and every summary ever stored is the full replay of what it closed. */
  lemma {:induction false} EveryChainOfClosesAgrees<S>(ops: seq<Op<S>>)
    requires Distinct(Run(ops).held.records)
    ensures Sound(Run(ops))
    ensures Reading(Run(ops).held) == Full(Run(ops).held.records)
  {
    if ops != [] {
      var before, op := Run(ops[..|ops| - 1]), ops[|ops| - 1];
      StepGrows(before, op);
      assert Run(ops).held.records == before.held.records + Run(ops).held.records[|before.held.records|..];
      DistinctParts(before.held.records, Run(ops).held.records[|before.held.records|..]);
      EveryChainOfClosesAgrees(ops[..|ops| - 1]);
      StepStaysSound(before, op);
    }
    SoundReads(Run(ops));
  }
}
