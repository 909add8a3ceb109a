/** A ledger that loses a pick. Two drafts close a season apart, so the later close finds one of its picks issued; then
    the earlier draft is restored to where it started, and with its close goes the pick. */
module PulledPicks {
  import opened Assets
  import opened Records
  import opened Replay
  import opened Compensation
  import opened DraftRestores
  import opened Market
  import opened Projector
  import opened IssuedPicks
  import opened LedgerPicks
  import opened PicksSetAside

  // ----- ledgers of drafts alone

  /** An entry that any seeded state takes. */
  predicate Harmless(r: Record) {
    DraftCommand(r.command) || r.command.NativeSeed?
  }

  lemma HarmlessStep(rules: Rules, records: seq<Record>, i: nat, n: Native)
    requires i < |records| && n.seeded && Harmless(records[i])
    ensures ProjectEntry(rules, records, i, n).Ok? && ProjectEntry(rules, records, i, n).value.seeded
  {
  }

  lemma {:induction false} DraftsFold(rules: Rules, records: seq<Record>, active: Active, n: nat, start: Native)
    requires n <= |records| && start.seeded && forall i :: 0 <= i < |records| ==> Harmless(records[i])
    ensures Fold(rules, records, active, 0, n, start).Ok? && Fold(rules, records, active, 0, n, start).value.seeded
  {
    if n > 0 {
      DraftsFold(rules, records, active, n - 1, start);
      HarmlessStep(rules, records, n - 1, Fold(rules, records, active, 0, n - 1, start).value);
    }
  }

  lemma {:induction false} SeedFirst(rules: Rules, records: seq<Record>, n: nat)
    requires 1 <= n <= |records| && records[0].command.NativeSeed? && records[0].args.native.Some?
    requires forall i :: 1 <= i < |records| ==> !records[i].command.NativeSeed?
    requires rules.sides(records) == Some(map[]) && ValidSeed(records[0].args.native.value.(sides := map[]))
    ensures SeedIn(rules, records, n) == Ok(Native(true, League(records[0].args.native.value.(sides := map[]), EMPTY_BOOK)))
  {
    if n > 1 {
      SeedFirst(rules, records, n - 1);
    } else {
      assert SeedIn(rules, records, 0) == Ok(UNSEEDED);
    }
  }

  lemma DraftsProject(rules: Rules, records: seq<Record>)
    requires records != [] && records[0].command.NativeSeed? && records[0].args.native.Some?
    requires forall i :: 1 <= i < |records| ==> DraftCommand(records[i].command)
    requires rules.sides(records) == Some(map[]) && ValidSeed(records[0].args.native.value.(sides := map[]))
    ensures Project(rules, records).Ok? && Seed(rules, records).value.seeded
    ensures StartKeys(rules, records) == KeysOf(records[0].args.native.value.picks)
  {
    SeedFirst(rules, records, |records|);
    forall i | 0 <= i < |records| ensures Harmless(records[i]) {
    }
    DraftsFold(rules, records, Full(records).active, |records|, Seed(rules, records).value);
  }

  lemma {:induction false} NothingRestores(records: seq<Record>, n: nat, active: Active)
    requires n <= |records| && forall i :: 0 <= i < |records| ==> !records[i].command.DraftRevert?
    ensures SetAside(records, n, active) == active
  {
    if n > 0 {
      NothingRestores(records, n - 1, active);
    }
  }

  /** Without compensations every entry is in force on the walk, and without restores it stays so. */
  lemma BaseIsAll(records: seq<Record>, i: nat)
    requires i < |records| && forall k :: 0 <= k < |records| ==> !Compensates(records[k])
    ensures On(Base(records), records[i].entry)
    ensures (forall k :: 0 <= k < |records| ==> !records[k].command.DraftRevert?) ==>
      On(Full(records).active, records[i].entry)
  {
    AllActiveIs(records);
    NothingCompensates(records, AllActive(records));
    assert records[i].entry in Entries(records);
    if forall k :: 0 <= k < |records| ==> !records[k].command.DraftRevert? {
      NothingRestores(records, |records|, Base(records));
    }
  }

  lemma {:induction false} KeysUntouched(records: seq<Record>, active: Active, m: nat, n: nat, start: seq<PickKey>)
    requires m <= n <= |records| && forall i :: m <= i < n ==> !SaysPicks(records[i])
    ensures KeysAfter(records, active, n, start) == KeysAfter(records, active, m, start)
    decreases n
  {
    if m < n {
      KeysUntouched(records, active, m, n - 1, start);
    }
  }

  /** What a draft of one round and one franchise issues. */
  lemma IssuedOne(picks: seq<NativePick>, season: int, franchise: string)
    requires season + 2 <= LAST_SEASON
    ensures var next, last := PickKey(season + 1, 1, franchise), PickKey(season + 2, 1, franchise);
            Issued(picks, season, 1, [franchise]) ==
              (if Held(picks, next) then [] else [Fresh(next)]) + if Held(picks, last) then [] else [Fresh(last)]
  {
    RowOfOne(picks, season + 1, franchise);
    RowOfOne(picks, season + 2, franchise);
    assert Seasons(picks, season, 0, 1, [franchise]) == [];
    assert Seasons(picks, season, 1, 1, [franchise]) == Rounds(picks, season + 1, 1, [franchise]);
  }

  lemma RowOfOne(picks: seq<NativePick>, season: int, franchise: string)
    ensures var c := PickKey(season, 1, franchise);
            Rounds(picks, season, 1, [franchise]) == if Held(picks, c) then [] else [Fresh(c)]
  {
    assert [franchise][..0] == [];
    assert Row(picks, season, 1, []) == [];
    assert Rounds(picks, season, 0, [franchise]) == [];
  }

  // ----- the ledger

  const TEAM := "franchise.01"
  const RULES := Rules(r => None, r => Some(map[]))

  function OwnPick(season: int): NativePick {
    Fresh(PickKey(season, 1, TEAM))
  }

  const START := Snapshot(2026, [NativeFranchise(TEAM, "", "", "")], [], [OwnPick(2026)], [], [], map[])

  function SeedEntry(): Record {
    RawRecord("0", 0, "", 0, NativeSeed, "", NO_ARGS.(native := Some(START)), None, false)
  }

  function DraftEntry(entry: string, command: Command, season: int, pick: Option<DraftSelection>, act: Option<DraftAct>,
                      outcome: Option<DraftOutcome>): Record
    requires DraftCommand(command) && (command.DraftPick? ==> pick.Some?)
    requires Live(command) && !command.DraftPick? && !command.DraftArchive? ==> act.Some?
  {
    var args := DraftArgs(season, false, "", pick, act);
    RawRecord(entry, 0, "", 0, command, "", NO_ARGS.(draft := Some(args), draftOutcome := outcome), None, false)
  }

  function StartEntry(entry: string, season: int): Record {
    DraftEntry(entry, DraftStart, season, None, None, None)
  }

  function PickEntry(entry: string, season: int, player: string): Record {
    DraftEntry(entry, DraftPick, season, Some(DraftSelection(TEAM, player, 1, 1, TEAM, Terms(0, 1, false))), None, None)
  }

  function CloseEntry(entry: string, season: int, issued: seq<NativePick>): Record {
    DraftEntry(entry, DraftArchive, season, None, None, Some(DraftOutcome(None, "", 0, [], issued)))
  }

  function RestoreEntry(entry: string, season: int, to: string): Record {
    DraftEntry(entry, DraftRevert, season, None, Some(DraftAct(0, "", 0, "", "", "", to)), None)
  }

  /** One team, one round. Both drafts start, use their one pick and close; then the first is restored to its start. */
  function Drafts(): seq<Record> {
    [SeedEntry(),
     StartEntry("1", 2026), PickEntry("2", 2026, "p"), CloseEntry("3", 2026, [OwnPick(2027), OwnPick(2028)]),
     StartEntry("4", 2027), PickEntry("5", 2027, "q"), CloseEntry("6", 2027, [OwnPick(2029)]),
     RestoreEntry("7", 2026, "1")]
  }

  /** Each close is of its season's one round and one team. */
  const CLOSED := Closed((i: int) =>
    if i == 3 then Some(Closing(2026, 1, [TEAM])) else if i == 6 then Some(Closing(2027, 1, [TEAM])) else None)

  /** What the statuses and the fold need to know of the entries. */
  lemma DraftsAre()
    ensures |Drafts()| == 8 && Drafts()[0] == SeedEntry()
    ensures forall i :: 1 <= i < 8 ==> DraftCommand(Drafts()[i].command)
    ensures forall i :: 0 <= i < 8 ==> !Compensates(Drafts()[i])
    ensures forall i :: 0 <= i < 7 ==> !Drafts()[i].command.DraftRevert?
    ensures forall i :: 0 <= i < 8 ==> (SaysPicks(Drafts()[i]) <==> i == 3 || i == 6)
  {
  }

  lemma ClosesAre()
    ensures |Drafts()| == 8
    ensures Drafts()[3] == CloseEntry("3", 2026, [OwnPick(2027), OwnPick(2028)])
    ensures Drafts()[6] == CloseEntry("6", 2027, [OwnPick(2029)])
  {
  }

  lemma DraftsDistinct()
    ensures Distinct(Drafts())
  {
    var entries := ["0", "1", "2", "3", "4", "5", "6", "7"];
    assert forall k :: 0 <= k < 8 ==> Drafts()[k].entry == entries[k];
  }

  lemma FrontProjects(n: nat)
    requires 1 <= n <= 8
    ensures Project(RULES, Drafts()[..n]).Ok? && Seed(RULES, Drafts()[..n]).value.seeded
    ensures StartKeys(RULES, Drafts()[..n]) == [PickKey(2026, 1, TEAM)]
  {
    DraftsAre();
    assert START.Lists(TEAM) by { assert START.franchises[0].id == TEAM; }
    DraftsProject(RULES, Drafts()[..n]);
    assert KeysOf([OwnPick(2026)]) == [PickKey(2026, 1, TEAM)];
  }

  lemma AllProjects()
    ensures Project(RULES, Drafts()).Ok? && Seed(RULES, Drafts()).value.seeded
    ensures StartKeys(RULES, Drafts()) == [PickKey(2026, 1, TEAM)]
  {
    DraftsAre();
    FrontProjects(8);
    assert Drafts()[..8] == Drafts();
  }

  lemma StatusesBefore()
    ensures |Drafts()| == 8 && forall i :: 0 <= i < 6 ==> On(ActiveAt(Drafts(), 6), Drafts()[i].entry)
  {
    DraftsAre();
    var front := Drafts()[..6];
    forall i | 0 <= i < 6 ensures On(ActiveAt(Drafts(), 6), Drafts()[i].entry) {
      BaseIsAll(front, i);
    }
  }

  lemma RestoreCovers()
    ensures |Drafts()| == 8 && Covers(Drafts(), 7, 3) && !Covers(Drafts(), 7, 6)
  {
    DraftsAre();
    DraftsDistinct();
    PlaceInDistinct(Drafts(), 1);
  }

  /** After the restore the first draft's close is not in force and the second's is. */
  lemma StatusesAfter()
    ensures !On(Full(Drafts()).active, "3") && On(Full(Drafts()).active, "6")
  {
    var records := Drafts();
    DraftsAre();
    ClosesAre();
    DraftsDistinct();
    RestoreCovers();
    BaseIsAll(records, 6);
    BaseIsAll(records, 7);
    SetAsideMeans(records, 8, Base(records), 3);
    SetAsideMeans(records, 8, Base(records), 6);
  }

  const FIRST := [PickKey(2026, 1, TEAM)]
  const LOST := PickKey(2028, 1, TEAM)

  lemma KeysBeforeFirst(active: Active)
    ensures |Drafts()| == 8 && KeysAfter(Drafts(), active, 3, FIRST) == FIRST
  {
    DraftsAre();
    KeysUntouched(Drafts(), active, 0, 3, FIRST);
  }

  /** The picks before the second close, with the first in force and without it. */
  lemma KeysBeforeSecond(active: Active)
    ensures |Drafts()| == 8
    ensures KeysAfter(Drafts(), active, 6, FIRST) ==
      if On(active, "3") then FIRST + [PickKey(2027, 1, TEAM), LOST] else FIRST
  {
    DraftsAre();
    ClosesAre();
    KeysBeforeFirst(active);
    KeysUntouched(Drafts(), active, 4, 6, FIRST);
    assert KeysOf([OwnPick(2027), OwnPick(2028)]) == [PickKey(2027, 1, TEAM), LOST];
  }

  /** The close at i is fixed if it recorded what is issued of the picks that the entries before it left. */
  lemma CloseIsFixed(i: nat, c: Closing)
    requires 1 <= i < 8 && |Drafts()| == 8 && Drafts()[i].command.DraftArchive? && CLOSED.at(i) == Some(c)
    requires forall picks: seq<NativePick> :: KeysOf(picks) == KeysAfter(Drafts(), ActiveAt(Drafts(), i), i, FIRST) ==>
      IssuedBy(Drafts()[i]) == Issued(picks, c.season, c.rounds, c.franchises)
    ensures FixedAt(RULES, Drafts(), i, CLOSED.at(i))
  {
    FrontProjects(i);
    AllProjects();
    KeysFound(RULES, Drafts(), i);
  }

  lemma FirstIssues(picks: seq<NativePick>)
    requires KeysOf(picks) == FIRST
    ensures Issued(picks, 2026, 1, [TEAM]) == [OwnPick(2027), OwnPick(2028)]
  {
    HeldByKeys(picks);
    IssuedOne(picks, 2026, TEAM);
  }

  lemma SecondIssues(picks: seq<NativePick>)
    requires KeysOf(picks) == FIRST + [PickKey(2027, 1, TEAM), LOST]
    ensures Issued(picks, 2027, 1, [TEAM]) == [OwnPick(2029)]
  {
    HeldByKeys(picks);
    IssuedOne(picks, 2027, TEAM);
  }

  lemma FirstCloseFixed()
    ensures |Drafts()| == 8 && FixedAt(RULES, Drafts(), 3, CLOSED.at(3))
  {
    ClosesAre();
    KeysBeforeFirst(ActiveAt(Drafts(), 3));
    forall picks: seq<NativePick> | KeysOf(picks) == FIRST
      ensures Issued(picks, 2026, 1, [TEAM]) == [OwnPick(2027), OwnPick(2028)]
    {
      FirstIssues(picks);
    }
    CloseIsFixed(3, Closing(2026, 1, [TEAM]));
  }

  lemma SecondCloseFixed()
    ensures |Drafts()| == 8 && FixedAt(RULES, Drafts(), 6, CLOSED.at(6))
  {
    ClosesAre();
    StatusesBefore();
    KeysBeforeSecond(ActiveAt(Drafts(), 6));
    forall picks: seq<NativePick> | KeysOf(picks) == FIRST + [PickKey(2027, 1, TEAM), LOST]
      ensures Issued(picks, 2027, 1, [TEAM]) == [OwnPick(2029)]
    {
      SecondIssues(picks);
    }
    CloseIsFixed(6, Closing(2027, 1, [TEAM]));
  }

  lemma EachIsFixed(i: nat)
    requires |Drafts()| == 8 && i < 8
    ensures FixedAt(RULES, Drafts(), i, CLOSED.at(i))
  {
    if i == 3 {
      FirstCloseFixed();
    } else if i == 6 {
      SecondCloseFixed();
    } else {
      DraftsAre();
      OtherIsFixed(i);
    }
  }

  lemma DraftsFixed()
    ensures AllFixed(RULES, Drafts(), CLOSED)
  {
    forall i | 0 <= i < |Drafts()| ensures FixedAt(RULES, Drafts(), i, CLOSED.at(i)) {
      EachIsFixed(i);
    }
  }

  lemma OtherIsFixed(i: nat)
    requires |Drafts()| == 8 && i < 8 && !SaysPicks(Drafts()[i])
    ensures FixedAt(RULES, Drafts(), i, CLOSED.at(i))
  {
  }

  lemma LostIsGone(active: Active)
    requires !On(active, "3")
    ensures |Drafts()| == 8 && LOST !in KeysAfter(Drafts(), active, 8, FIRST)
  {
    DraftsAre();
    ClosesAre();
    KeysBeforeSecond(active);
    KeysUntouched(Drafts(), active, 7, 8, FIRST);
    assert KeysOf([OwnPick(2029)]) == [PickKey(2029, 1, TEAM)];
  }

  /** Every entry recorded as the program would, yet at the end a close in force wants a pick that nobody holds. */
  lemma RestoreTakesPicks()
    ensures Distinct(Drafts()) && AllFixed(RULES, Drafts(), CLOSED)
    ensures Project(RULES, Drafts()).Ok? && Seed(RULES, Drafts()).value.seeded
    ensures |Drafts()| == 8 && InForceClose(Drafts(), Full(Drafts()).active, 6) && WantedAt(CLOSED, 6, LOST)
    ensures !Held(Project(RULES, Drafts()).value.league.assets.picks, LOST)
  {
    DraftsDistinct();
    DraftsFixed();
    AllProjects();
    SecondStillWants();
    LostIsNotHeld();
  }

  lemma SecondStillWants()
    ensures |Drafts()| == 8 && InForceClose(Drafts(), Full(Drafts()).active, 6) && WantedAt(CLOSED, 6, LOST)
  {
    ClosesAre();
    StatusesAfter();
  }

  lemma LostIsNotHeld()
    ensures Project(RULES, Drafts()).Ok? && !Held(Project(RULES, Drafts()).value.league.assets.picks, LOST)
  {
    AllProjects();
    StatusesAfter();
    LostIsGone(Full(Drafts()).active);
    ProjectedKeys(RULES, Drafts());
    HeldByKeys(Project(RULES, Drafts()).value.league.assets.picks);
  }
}
