/** Edits that the stored keys do not show. A checkpoint and a replay memo are taken up when their keys match the
    ledger at hand, but the checkpoint's keys hold nothing of a draft's key and the memo's lack the side. Here is
    exactly for which ledgers every edit with the same keys replays the same, and a ledger for which one does not. */
module EditedCopies {
  import opened Assets
  import opened Records
  import opened Replay
  import opened Compensation
  import opened DraftRestores
  import opened ClosedBooks

  datatype MemoKey = MemoKey(part: ReplayPart, revision: int, season: int, startup: bool)

  function MemoKeyFor(r: Record): MemoKey {
    MemoKey(PartOf(r), r.revision, SeasonOf(r).0, SeasonOf(r).1)
  }

  /** The part of a draft's key the memo compares. */
  function SeasonOf(r: Record): (int, bool) {
    if r.args.draft.Some? then (r.args.draft.value.season, r.args.draft.value.startup) else (0, false)
  }

  datatype Memo = Memo(keys: seq<MemoKey>, projection: Projection)

  function MemoKeysOf(records: seq<Record>): (keys: seq<MemoKey>)
    ensures |keys| == |records| && forall i :: 0 <= i < |keys| ==> keys[i] == MemoKeyFor(records[i])
  {
    seq(|records|, i requires 0 <= i < |records| => MemoKeyFor(records[i]))
  }

  function Remember(records: seq<Record>): Memo {
    Memo(MemoKeysOf(records), Full(records))
  }

  /** Equal memo keys show the same entry as far as replay reads it, its revision, and its draft's season and kind. */
  lemma MemoKeysTell(r: Record, other: Record)
    requires MemoKeyFor(r) == MemoKeyFor(other)
    ensures r.entry == other.entry && r.revision == other.revision && r.command == other.command
    ensures r.principal == other.principal && r.args.name == other.args.name && r.args.entry == other.args.entry
    ensures r.args.correction.Some? && other.args.correction.Some? ==>
      r.args.correction.value.entry == other.args.correction.value.entry
    ensures r.args.draft.Some? && other.args.draft.Some? ==>
      && r.args.draft.value.season == other.args.draft.value.season
      && r.args.draft.value.startup == other.args.draft.value.startup
    ensures r.command.DraftRevert? ==>
      r.args.draft.value.act.value.restoreTo == other.args.draft.value.act.value.restoreTo
  {
  }

  /** The memo's answer, when the ledger still has every key it was made from and no other entry. */
  method CachedReplay(records: seq<Record>, memo: Memo) returns (p: Option<Projection>)
    ensures p == if records != [] && MemoKeysOf(records) == memo.keys then Some(memo.projection) else None
  {
    if records == [] || |records| != |memo.keys| {
      return None;
    }
    for i := 0 to |records|
      invariant forall k :: 0 <= k < i ==> MemoKeyFor(records[k]) == memo.keys[k]
    {
      if MemoKeyFor(records[i]) != memo.keys[i] {
        assert MemoKeysOf(records)[i] != memo.keys[i];
        return None;
      }
    }
    assert MemoKeysOf(records) == memo.keys;
    return Some(memo.projection);
  }

  /** Every reader's replay: the memo's answer where it has one, else the resumed or the full reading. */
  method ReplayCopy<S>(held: Held<S>, memo: Option<Memo>) returns (p: Projection)
    ensures p == if memo.Some? && held.records != [] && MemoKeysOf(held.records) == memo.value.keys
                 then memo.value.projection else Reading(held)
  {
    if memo.Some? {
      var kept := CachedReplay(held.records, memo.value);
      if kept.Some? {
        return kept.value;
      }
    }
    p := ReplayHeld(held);
  }

  /** The two copies agree on what replay reads, apart from draft keys; where the memo compares them, on what else
      its key shows. */
  ghost predicate Alike(one: seq<Record>, two: seq<Record>, seasons: bool) {
    && SameParts(one, two)
    && (seasons ==> forall i :: 0 <= i < |one| ==>
          SeasonOf(one[i]) == SeasonOf(two[i]) && one[i].revision == two[i].revision)
  }

  /** A restore in force at j reaches behind a live entry in force at k, of a draft the key cannot tell from its
      own. */
  ghost predicate Clashes(records: seq<Record>, j: nat, k: nat, seasons: bool)
    requires j < |records| && k < |records|
  {
    && records[j].command.DraftRevert? && On(Base(records), records[j].entry)
    && Checkpoint(records, j).Some? && Checkpoint(records, j).value < k < j
    && Live(records[k].command) && On(Base(records), records[k].entry)
    && (seasons ==> SeasonOf(records[j]) == SeasonOf(records[k]))
  }

  ghost predicate Settled(records: seq<Record>, seasons: bool) {
    forall j, k :: 0 <= j < |records| && 0 <= k < |records| ==> !Clashes(records, j, k, seasons)
  }

  lemma BaseAlike(one: seq<Record>, two: seq<Record>)
    requires SameParts(one, two)
    ensures Base(one) == Base(two)
  {
    SameStart(one, two);
    SameWalk(one, two, AllActive(one));
  }

  lemma {:induction false} ClearsNothing(records: seq<Record>, lo: nat, hi: nat, key: DraftKey, active: Active)
    requires lo <= hi <= |records| && Entries(records) <= active.Keys
    requires forall k :: lo <= k < hi && LiveOf(records, key, k) ==> !On(active, records[k].entry)
    ensures Cleared(records, lo, hi, key, active) == active
  {
    if lo < hi {
      ClearsNothing(records, lo, hi - 1, key, active);
      assert records[hi - 1].entry in Entries(records);
    }
  }

  lemma CheckpointAlike(one: seq<Record>, two: seq<Record>, j: nat)
    requires SameParts(one, two) && j < |one| && one[j].command.DraftRevert?
    ensures PartOf(one[j]) == PartOf(two[j])
    ensures two[j].command.DraftRevert? && Checkpoint(two, j) == Checkpoint(one, j)
  {
    assert PartOf(one[j]) == PartOf(two[j]);
    SamePlace(one, two, one[j].args.draft.value.act.value.restoreTo);
  }

  lemma SettledRestoresNothing(records: seq<Record>, edited: seq<Record>, j: nat, seasons: bool)
    requires Alike(records, edited, seasons) && Settled(records, seasons) && j < |records|
    requires Entries(edited) <= Base(records).Keys
    ensures Restored(edited, j, Base(records)) == Base(records)
  {
    var base := Base(records);
    assert PartOf(records[j]) == PartOf(edited[j]);
    if edited[j].command.DraftRevert? && On(base, edited[j].entry) {
      CheckpointAlike(records, edited, j);
      if Checkpoint(edited, j).Some? {
        var c, key := Checkpoint(edited, j).value, edited[j].args.draft.value.Key();
        forall k | c < k < j && LiveOf(edited, key, k) ensures !On(base, edited[k].entry) {
          assert PartOf(records[k]) == PartOf(edited[k]);
          assert SeasonOf(edited[j]) == SeasonOf(edited[k]);
          assert !Clashes(records, j, k, seasons);
        }
        ClearsNothing(edited, c + 1, j, key, base);
      }
    }
  }

  /** Restores that each leave the status as it is set nothing aside. */
  lemma {:induction false} NothingSetAside(records: seq<Record>, n: nat, active: Active)
    requires n <= |records| && forall j: nat :: j < n ==> Restored(records, j, active) == active
    ensures SetAside(records, n, active) == active
  {
    if n > 0 {
      NothingSetAside(records, n - 1, active);
    }
  }

  lemma SettledSetsNothingAside(records: seq<Record>, edited: seq<Record>, seasons: bool)
    requires Alike(records, edited, seasons) && Settled(records, seasons)
    requires Entries(edited) <= Base(records).Keys
    ensures SetAside(edited, |edited|, Base(records)) == Base(records)
  {
    forall j: nat | j < |edited| ensures Restored(edited, j, Base(records)) == Base(records) {
      SettledRestoresNothing(records, edited, j, seasons);
    }
    NothingSetAside(edited, |edited|, Base(records));
  }

  lemma SettledReplaysAlike(records: seq<Record>, edited: seq<Record>, seasons: bool)
    requires Alike(records, edited, seasons) && Settled(records, seasons)
    ensures Full(edited) == Full(records)
  {
    SameStart(records, edited);
    BaseAlike(records, edited);
    AllActiveIs(records);
    AllActiveIs(edited);
    WalkBackKeepsKeys(records, AllActive(records));
    SettledSetsNothingAside(records, edited, seasons);
    SettledSetsNothingAside(records, records, seasons);
  }

  // ----- the edits that tell a clash

  function WithDraftKey(r: Record, key: DraftKey): Record {
    if r.args.draft.None? then r
    else
      var draft := r.args.draft.value.(season := key.season, startup := key.startup, side := key.side);
      r.(args := r.args.(draft := Some(draft)))
  }

  /** n copies of one letter: a different side for every n. */
  function Mark(n: nat): (side: string)
    ensures |side| == n
  {
    seq(n, _ => 'x')
  }

  /** Every entry drafts on a side of its own. */
  function Apart(records: seq<Record>): (edited: seq<Record>)
    ensures |edited| == |records|
    ensures forall i :: 0 <= i < |edited| ==>
      edited[i] == WithDraftKey(records[i], DraftKey(SeasonOf(records[i]).0, SeasonOf(records[i]).1, Mark(i)))
  {
    seq(|records|, i requires 0 <= i < |records| =>
      WithDraftKey(records[i], DraftKey(SeasonOf(records[i]).0, SeasonOf(records[i]).1, Mark(i))))
  }

  /** Every entry drafts in one draft, or in one draft a season where seasons show. */
  function Together(records: seq<Record>, seasons: bool): (edited: seq<Record>)
    ensures |edited| == |records|
    ensures forall i :: 0 <= i < |edited| ==> edited[i] == WithDraftKey(records[i], Shared(records[i], seasons))
  {
    seq(|records|, i requires 0 <= i < |records| => WithDraftKey(records[i], Shared(records[i], seasons)))
  }

  function Shared(r: Record, seasons: bool): DraftKey {
    if seasons then DraftKey(SeasonOf(r).0, SeasonOf(r).1, "") else DraftKey(0, false, "")
  }

  ghost predicate KeysKept(records: seq<Record>, edited: seq<Record>) {
    |records| == |edited| && forall i :: 0 <= i < |records| ==> KeyForFold(records[i]) == KeyForFold(edited[i])
  }

  lemma EditsAreAlike(records: seq<Record>, seasons: bool)
    ensures KeysKept(records, Apart(records)) && Alike(records, Apart(records), seasons)
    ensures KeysKept(records, Together(records, seasons)) && Alike(records, Together(records, seasons), seasons)
  {
  }

  lemma DistinctAlike(one: seq<Record>, two: seq<Record>)
    requires SameParts(one, two) && Distinct(one)
    ensures Distinct(two)
  {
    forall i, j | 0 <= i < j < |two| ensures two[i].entry != two[j].entry {
      assert PartOf(one[i]) == PartOf(two[i]) && PartOf(one[j]) == PartOf(two[j]);
    }
  }

  lemma ApartNeverCovers(records: seq<Record>, j: nat, k: nat)
    requires k < j < |records|
    ensures !Covers(Apart(records), j, k)
  {
    var edited := Apart(records);
    if edited[j].args.draft.Some? && edited[k].args.draft.Some? {
      assert |edited[j].args.draft.value.side| == j && |edited[k].args.draft.value.side| == k;
    }
  }

  lemma AliveWhenApart(records: seq<Record>, k: nat)
    requires Distinct(records) && k < |records|
    ensures On(Full(Apart(records)).active, records[k].entry) == On(Base(records), records[k].entry)
  {
    var edited := Apart(records);
    EditsAreAlike(records, true);
    BaseAlike(records, edited);
    DistinctAlike(records, edited);
    assert PartOf(records[k]) == PartOf(edited[k]);
    SetAsideMeans(edited, |edited|, Base(records), k);
    forall j | k < j < |edited| ensures !Covers(edited, j, k) {
      ApartNeverCovers(records, j, k);
    }
  }

  lemma TogetherCovers(records: seq<Record>, j: nat, k: nat, seasons: bool)
    requires j < |records| && k < |records| && Clashes(records, j, k, seasons)
    ensures Covers(Together(records, seasons), j, k)
  {
    var edited := Together(records, seasons);
    EditsAreAlike(records, seasons);
    CheckpointAlike(records, edited, j);
    assert edited[j].args.draft.value.Key() == edited[k].args.draft.value.Key();
  }

  lemma DeadWhenTogether(records: seq<Record>, j: nat, k: nat, seasons: bool)
    requires Distinct(records) && j < |records| && k < |records| && Clashes(records, j, k, seasons)
    ensures !On(Full(Together(records, seasons)).active, records[k].entry)
  {
    var edited := Together(records, seasons);
    TogetherCovers(records, j, k, seasons);
    EditsAreAlike(records, seasons);
    BaseAlike(records, edited);
    DistinctAlike(records, edited);
    assert PartOf(records[k]) == PartOf(edited[k]) && PartOf(records[j]) == PartOf(edited[j]);
    SetAsideMeans(edited, |edited|, Base(edited), k);
    assert CoveredBy(edited, |edited|, Base(edited), k);
  }

  /** One of two edits the keys let through reads differently whenever there is a clash. */
  lemma ClashTells(records: seq<Record>, j: nat, k: nat, seasons: bool)
    requires Distinct(records) && j < |records| && k < |records| && Clashes(records, j, k, seasons)
    ensures Full(Apart(records)) != Full(Together(records, seasons))
  {
    AliveWhenApart(records, k);
    DeadWhenTogether(records, j, k, seasons);
  }

  /** The checkpoint's keys catch every edit that matters to the prefix's replay exactly when no restore in force
      reaches behind any live draft entry in force. */
  lemma CheckpointKeysSufficeIff(records: seq<Record>)
    requires Distinct(records)
    ensures (forall edited: seq<Record> :: KeysKept(records, edited) ==> Full(edited) == Full(records)) <==>
      Settled(records, false)
  {
    if Settled(records, false) {
      forall edited: seq<Record> | KeysKept(records, edited) ensures Full(edited) == Full(records) {
        assert SameParts(records, edited);
        SettledReplaysAlike(records, edited, false);
      }
    } else {
      var j: nat, k: nat :| j < |records| && k < |records| && Clashes(records, j, k, false);
      EditsAreAlike(records, false);
      ClashTells(records, j, k, false);
    }
  }

  /** The memo's keys catch every edit that matters exactly when no restore in force reaches behind a live entry
      in force of its own season's draft, whichever side either is on. */
  lemma MemoKeysSufficeIff(records: seq<Record>)
    requires Distinct(records)
    ensures (forall edited: seq<Record> :: MemoKeysOf(edited) == Remember(records).keys ==>
               Remember(records).projection == Full(edited)) <==>
      Settled(records, true)
  {
    if Settled(records, true) {
      forall edited: seq<Record> | MemoKeysOf(edited) == MemoKeysOf(records) ensures Full(edited) == Full(records) {
        MemoKeysShow(records, edited);
        SettledReplaysAlike(records, edited, true);
      }
    } else {
      var j: nat, k: nat :| j < |records| && k < |records| && Clashes(records, j, k, true);
      EditsAreAlike(records, true);
      ShownKeys(records, Apart(records));
      ShownKeys(records, Together(records, true));
      ClashTells(records, j, k, true);
    }
  }

  lemma MemoKeysShow(records: seq<Record>, edited: seq<Record>)
    requires MemoKeysOf(edited) == MemoKeysOf(records)
    ensures Alike(records, edited, true)
  {
    assert |MemoKeysOf(edited)| == |MemoKeysOf(records)|;
    forall i | 0 <= i < |records|
      ensures PartOf(records[i]) == PartOf(edited[i]) && SeasonOf(records[i]) == SeasonOf(edited[i])
      ensures records[i].revision == edited[i].revision
    {
      assert MemoKeysOf(edited)[i] == MemoKeysOf(records)[i];
    }
  }

  lemma ShownKeys(records: seq<Record>, edited: seq<Record>)
    requires Alike(records, edited, true)
    ensures MemoKeysOf(edited) == MemoKeysOf(records)
  {
  }

  // ----- a ledger on which both keys fail

  function DraftEntry(entry: string, command: Command, side: string, restoreTo: string): Record
    requires command.DraftPick? || command.DraftRevert?
  {
    var pick := DraftSelection("", "", 1, 1, "", Terms(0, 0, false));
    var act := DraftAct(0, "", 0, "", "", "", restoreTo);
    var draft := DraftArgs(2026, false, side, Some(pick), Some(act));
    RawRecord(entry, 0, "", 0, command, "", NO_ARGS.(draft := Some(draft)), None, false)
  }

  /** Two picks of the first side's draft, then a restore to the first pick recorded for the given side. */
  function TwoPicks(side: string): seq<Record> {
    [DraftEntry("one", DraftPick, "first", ""), DraftEntry("two", DraftPick, "first", ""),
     DraftEntry("back", DraftRevert, side, "one")]
  }

  lemma TwoPicksBase(side: string)
    ensures Distinct(TwoPicks(side))
    ensures forall i :: 0 <= i < 3 ==> On(Base(TwoPicks(side)), TwoPicks(side)[i].entry)
  {
    var records := TwoPicks(side);
    AllActiveIs(records);
    forall i | 0 <= i < 3 ensures On(AllActive(records), records[i].entry) {
      assert records[i].entry in Entries(records);
    }
    NothingCompensates(records, AllActive(records));
  }

  lemma TwoPicksCovers(side: string)
    ensures Covers(TwoPicks(side), 2, 1) <==> side == "first"
  {
    var records := TwoPicks(side);
    TwoPicksBase(side);
    PlaceInDistinct(records, 0);
  }

  lemma TwoPicksCounts(side: string)
    ensures On(Full(TwoPicks(side)).active, "two") <==> side != "first"
  {
    var records := TwoPicks(side);
    TwoPicksBase(side);
    TwoPicksCovers(side);
    SetAsideMeans(records, 3, Base(records), 1);
    if side == "first" {
      assert CoveredBy(records, 3, Base(records), 1);
    }
  }

  lemma TwoPicksKeys(side: string, other: string)
    ensures KeysOf(TwoPicks(side)) == KeysOf(TwoPicks(other))
    ensures MemoKeysOf(TwoPicks(side)) == MemoKeysOf(TwoPicks(other))
  {
    var one, two := TwoPicks(side), TwoPicks(other);
    forall i | 0 <= i < 3
      ensures KeyForFold(one[i]) == KeyForFold(two[i]) && MemoKeyFor(one[i]) == MemoKeyFor(two[i])
    {
    }
  }

  /** Moving the restore to the other side changes which picks count, and neither the checkpoint's keys nor the
      memo's show it. */
  lemma KeysMissTheSide()
    ensures KeysOf(TwoPicks("first")) == KeysOf(TwoPicks("other"))
    ensures MemoKeysOf(TwoPicks("first")) == MemoKeysOf(TwoPicks("other"))
    ensures !On(Full(TwoPicks("first")).active, "two") && On(Full(TwoPicks("other")).active, "two")
  {
    TwoPicksCounts("first");
    TwoPicksCounts("other");
    TwoPicksKeys("first", "other");
  }
}
