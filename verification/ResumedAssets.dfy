/** Resuming the asset and market fold from a closed season. The stored state plus the tail gives what folding from
    the starting snapshot gives, over every chain of season closes. */
module ResumedAssets {
  import opened Assets
  import opened Records
  import opened Replay
  import opened Compensation
  import opened ClosedBooks
  import opened Projector

  // ----- a step reads only earlier entries

  lemma StepReadsBack(rules: Rules, records: seq<Record>, m: nat, i: nat, n: Native)
    requires i < m <= |records|
    ensures ProjectEntry(rules, records[..m], i, n) == ProjectEntry(rules, records, i, n)
  {
    assert records[..m][..i] == records[..i];
    assert records[..m][..i + 1] == records[..i + 1];
    if AssetCorrection(records[i].command) {
      CorrectionReadsBack(rules, records, m, i, n.league.assets);
    }
  }

  lemma CorrectionReadsBack(rules: Rules, records: seq<Record>, m: nat, i: nat, s: Snapshot)
    requires i < m <= |records| && AssetCorrection(records[i].command)
    ensures ApplyCorrection(rules, records[..m], i, s) == ApplyCorrection(rules, records, i, s)
  {
    assert records[..m][..i] == records[..i];
    var side := s.TargetSide(records[i].args.correction.value.franchise);
    if records[i].command.CorrectRoster? && side.Ok? {
      assert CorrectRosterOf(rules, records[..m], i, s, side.value) == CorrectRosterOf(rules, records, i, s, side.value);
    }
  }

  lemma {:induction false} FoldReadsBack(rules: Rules, records: seq<Record>, m: nat, one: Active, two: Active, hi: nat,
                                         start: Native)
    requires hi <= m <= |records|
    requires forall i :: 0 <= i < hi ==> On(one, records[i].entry) == On(two, records[i].entry)
    ensures Fold(rules, records[..m], one, 0, hi, start) == Fold(rules, records, two, 0, hi, start)
  {
    if hi > 0 {
      FoldReadsBack(rules, records, m, one, two, hi - 1, start);
      var before := Fold(rules, records, two, 0, hi - 1, start);
      if before.Ok? { StepReadsBack(rules, records, m, hi - 1, before.value); }
    }
  }

  lemma {:induction false} FoldSplits(rules: Rules, records: seq<Record>, active: Active, mid: nat, hi: nat, start: Native)
    requires mid <= hi <= |records|
    requires Fold(rules, records, active, 0, mid, start).Ok?
    ensures Fold(rules, records, active, 0, hi, start) ==
      Fold(rules, records, active, mid, hi, Fold(rules, records, active, 0, mid, start).value)
  {
    if mid < hi { FoldSplits(rules, records, active, mid, hi - 1, start); }
  }

  // ----- the starting snapshot of a longer ledger

  lemma {:induction false} SeedOfFront(rules: Rules, records: seq<Record>, m: nat, n: nat)
    requires n <= m <= |records| && rules.sides(records) == rules.sides(records[..m])
    ensures SeedIn(rules, records, n) == SeedIn(rules, records[..m], n)
  {
    if n > 0 { SeedOfFront(rules, records, m, n - 1); }
  }

  ghost predicate NoSeedAfter(records: seq<Record>, m: nat) {
    forall i :: m <= i < |records| ==> !records[i].command.NativeSeed?
  }

  lemma {:induction false} SeedStays(rules: Rules, records: seq<Record>, m: nat, n: nat)
    requires m <= n <= |records| && NoSeedAfter(records, m)
    ensures SeedIn(rules, records, n) == SeedIn(rules, records, m)
    decreases n
  {
    if m < n { SeedStays(rules, records, m, n - 1); }
  }

  // ----- resuming

  /** The native checkpoint binds the whole bodies of its prefix, not only their fold keys. */
  predicate Resumable(held: Held<Native>) {
    Usable(held) && held.books.value.raw.source <= held.records
  }

  /** The native league as a holder of a checkpoint reads it. */
  function ProjectHeld(rules: Rules, held: Held<Native>): Result<Native> {
    var seed :- Seed(rules, held.records);
    var active := Reading(held).active;
    if Resumable(held) then
      Fold(rules, held.records, active, |held.books.value.raw.source|, |held.records|, held.books.value.raw.folded)
    else Fold(rules, held.records, active, 0, |held.records|, seed)
  }

  /** A summary whose stored state is the projection of what it closed. */
  ghost predicate Stores(rules: Rules, raw: Books<Native>) {
    Faithful(raw) && Project(rules, raw.source) == Ok(raw.folded)
  }

  /** Since the books were closed the sides have not moved and no starting snapshot was recorded. */
  ghost predicate Settled(rules: Rules, source: seq<Record>, records: seq<Record>) {
    source <= records && rules.sides(records) == rules.sides(source) && NoSeedAfter(records, |source|)
  }

  lemma ActiveInFront(held: Held<Native>)
    requires Resumable(held) && Bound(held.books.value) && Distinct(held.records)
    ensures var source := held.books.value.raw.source;
            forall i :: 0 <= i < |source| ==>
              On(Full(held.records).active, held.records[i].entry) == On(Full(source).active, held.records[i].entry)
  {
    var source, n := held.books.value.raw.source, |held.books.value.raw.source|;
    var tail := held.records[n..];
    assert held.records == source + tail && held.records[..n] == source;
    NoDanglingTarget(source);
    TailOutside(held);
    FullSplits(source, tail);
    DisjointEntries(source, tail);
    TailReplayKeys(source, tail);
    forall i | 0 <= i < n
      ensures On(Full(held.records).active, held.records[i].entry) == On(Full(source).active, held.records[i].entry)
    {
      assert source[i].entry in Entries(source);
    }
  }

  lemma TailReplayKeys(source: seq<Record>, tail: seq<Record>)
    requires Distinct(source + tail) && Base(source).Keys == Entries(source) && Targets(tail) !! Entries(source)
    requires forall i :: 0 <= i < |tail| ==> !tail[i].command.DraftRevert?
    ensures Full(tail).active.Keys !! Entries(source)
  {
    BaseSplits(source, tail);
    NoRestores(tail, |tail|, Base(tail));
  }

  /** Whenever the checkpoint is taken up, the resumed projection is the whole projection. */
  lemma ResumedIsProjected(rules: Rules, held: Held<Native>)
    requires Distinct(held.records)
    requires held.books.Some? ==> Bound(held.books.value) && Stores(rules, held.books.value.raw)
    requires held.books.Some? ==> Settled(rules, held.books.value.raw.source, held.records)
    ensures ProjectHeld(rules, held) == Project(rules, held.records)
  {
    if Usable(held) {
      var source := held.books.value.raw.source;
      var n := |source|;
      assert held.records[..n] == source;
      PrefixSameInputs(source, held.records);
      CheckpointAgrees(held);
      ActiveInFront(held);
      SeedOfFront(rules, held.records, n, n);
      SeedStays(rules, held.records, n, |held.records|);
      var seed := Seed(rules, held.records).value;
      FoldReadsBack(rules, held.records, n, Full(source).active, Full(held.records).active, n, seed);
      FoldSplits(rules, held.records, Full(held.records).active, n, |held.records|, seed);
    }
  }

  // ----- every chain of closes

  /** Every season is closed on the state its holder reads. */
  ghost predicate Honest(rules: Rules, ops: seq<Op<Native>>) {
    ops != [] ==>
      var before := ops[..|ops| - 1];
      && Honest(rules, before)
      && (ops[|ops| - 1].CloseSeason? ==> ProjectHeld(rules, Run(before).held) == Ok(ops[|ops| - 1].folded))
  }

  /** Every prefix of the ledger is settled with respect to every summary made from a shorter one. */
  ghost predicate SettledThroughout(rules: Rules, records: seq<Record>, summaries: seq<Books<Native>>) {
    forall k, m :: 0 <= k < |summaries| && |summaries[k].source| <= m <= |records| && summaries[k].source <= records ==>
      Settled(rules, summaries[k].source, records[..m])
  }

  lemma SummariesGrow(desk: Desk<Native>, op: Op<Native>)
    ensures desk.summaries <= Step(desk, op).summaries
  {
  }

  ghost predicate AttachedIsStored(desk: Desk<Native>) {
    desk.held.books.Some? ==> desk.held.books.value.raw in desk.summaries
  }

  lemma StepAttaches(desk: Desk<Native>, op: Op<Native>)
    requires AttachedIsStored(desk)
    ensures AttachedIsStored(Step(desk, op))
  {
    match op
    case CloseSeason(folded) =>
      var made := Close(desk.held, folded);
      if made.Ok? {
        var after := Step(desk, op);
        assert after.summaries[|desk.summaries|] == made.value;
      }
    case _ =>
  }

  lemma EarlierSettled(rules: Rules, before: Desk<Native>, after: Desk<Native>)
    requires SettledThroughout(rules, after.held.records, after.summaries)
    requires before.held.records <= after.held.records && before.summaries <= after.summaries
    ensures SettledThroughout(rules, before.held.records, before.summaries)
  {
    forall k, m | 0 <= k < |before.summaries| && |before.summaries[k].source| <= m <= |before.held.records| &&
                  before.summaries[k].source <= before.held.records
      ensures Settled(rules, before.summaries[k].source, before.held.records[..m])
    {
      assert before.summaries[k] == after.summaries[k];
      assert before.held.records[..m] == after.held.records[..m];
    }
  }

  lemma DeskReads(rules: Rules, desk: Desk<Native>)
    requires Sound(desk) && AttachedIsStored(desk) && Distinct(desk.held.records)
    requires SettledThroughout(rules, desk.held.records, desk.summaries)
    requires forall k :: 0 <= k < |desk.summaries| ==> Stores(rules, desk.summaries[k])
    ensures ProjectHeld(rules, desk.held) == Project(rules, desk.held.records)
  {
    if desk.held.books.Some? {
      var k :| 0 <= k < |desk.summaries| && desk.summaries[k] == desk.held.books.value.raw;
      assert desk.held.records[..|desk.held.records|] == desk.held.records;
    }
    ResumedIsProjected(rules, desk.held);
  }

  /** Over every chain of appends, season closes and re-attached summaries, the league's assets and market read as
      the whole ledger projects them, and every stored state is the projection of what it closed. */
  lemma {:induction false} EveryChainProjectsAlike(rules: Rules, ops: seq<Op<Native>>)
    requires Honest(rules, ops) && Distinct(Run(ops).held.records)
    requires SettledThroughout(rules, Run(ops).held.records, Run(ops).summaries)
    ensures forall k :: 0 <= k < |Run(ops).summaries| ==> Stores(rules, Run(ops).summaries[k])
    ensures AttachedIsStored(Run(ops))
    ensures ProjectHeld(rules, Run(ops).held) == Project(rules, Run(ops).held.records)
  {
    if ops != [] {
      var init, op := ops[..|ops| - 1], ops[|ops| - 1];
      var before, after := Run(init), Run(ops);
      StepGrows(before, op);
      SummariesGrow(before, op);
      assert after.held.records == before.held.records + after.held.records[|before.held.records|..];
      DistinctParts(before.held.records, after.held.records[|before.held.records|..]);
      EarlierSettled(rules, before, after);
      EveryChainProjectsAlike(rules, init);
      StepAttaches(before, op);
      EveryChainOfClosesAgrees(init);
      EveryChainOfClosesAgrees(ops);
      StepStores(rules, before, op);
    } else {
      EveryChainOfClosesAgrees(ops);
    }
    DeskReads(rules, Run(ops));
  }

  lemma StepStores(rules: Rules, before: Desk<Native>, op: Op<Native>)
    requires Sound(Step(before, op)) && (forall k :: 0 <= k < |before.summaries| ==> Stores(rules, before.summaries[k]))
    requires ProjectHeld(rules, before.held) == Project(rules, before.held.records)
    requires op.CloseSeason? ==> ProjectHeld(rules, before.held) == Ok(op.folded)
    ensures forall k :: 0 <= k < |Step(before, op).summaries| ==> Stores(rules, Step(before, op).summaries[k])
  {
  }
}
