/** Which picks there are. A ledger's picks are what its starting snapshot, its closes and its rollovers recorded, each
    fixed when its entry was; what an entry set aside since does to them follows from that. */
module LedgerPicks {
  import opened Assets
  import opened Lists
  import opened Records
  import opened Replay
  import opened Market
  import opened Projector
  import opened IssuedPicks
  import opened LedgerLists

  function KeysOf(picks: seq<NativePick>): (keys: seq<PickKey>)
    ensures |keys| == |picks|
    ensures forall k :: 0 <= k < |keys| ==> keys[k] == KeyOf(picks[k])
  {
    seq(|picks|, k requires 0 <= k < |picks| => KeyOf(picks[k]))
  }

  lemma MoveKeepsKeys(s: Snapshot, a: TradeAsset, back: bool)
    requires MoveOne(s, a, back).Ok?
    ensures KeysOf(MoveOne(s, a, back).value.picks) == KeysOf(s.picks)
  {
    if a.player == "" {
      OwnerKeepsKeys(s.picks, PickAt(s.picks, a, if back then a.receiver else a.sender),
                     if back then a.sender else a.receiver);
    }
  }

  lemma OwnerKeepsKeys(picks: seq<NativePick>, i: nat, owner: string)
    requires i < |picks|
    ensures KeysOf(picks[i := picks[i].(owner := owner)]) == KeysOf(picks)
  {
  }

  lemma {:induction false} MovesKeepKeys(s: Snapshot, assets: seq<TradeAsset>, back: bool)
    requires MoveAssets(s, assets, back).Ok?
    ensures KeysOf(MoveAssets(s, assets, back).value.picks) == KeysOf(s.picks)
    decreases |assets|
  {
    if assets != [] {
      MoveKeepsKeys(s, assets[0], back);
      MovesKeepKeys(MoveOne(s, assets[0], back).value, assets[1..], back);
    }
  }

  lemma MarketKeepsKeys(n: Native, r: Record)
    requires MarketCommand(r.command) && ProjectMarket(n, r).Ok?
    ensures KeysOf(ProjectMarket(n, r).value.league.assets.picks) == KeysOf(n.league.assets.picks)
  {
    if r.command.OLineAuctionClose? {
      UnitsKeepFranchises(n.league.assets, r.args.oline.value.placed);
    } else if WaiverCommand(r.command) {
      WaiverKeepsLists(n.league, r);
    } else if BidCommand(r.command) {
      BidKeepsLists(n.league, r);
    } else {
      TradeKeepsKeys(n.league, r);
    }
  }

  lemma TradeKeepsKeys(l: League, r: Record)
    requires ProjectTrade(l, r).Ok?
    ensures KeysOf(ProjectTrade(l, r).value.assets.picks) == KeysOf(l.assets.picks)
  {
    var t := r.args.tradeOutcome.value;
    var before := !r.command.TradeOffer? && l.book.trades[TradeAt(l.book.trades, t.id)].status == APPROVED;
    if before != (t.status == APPROVED) {
      MovesKeepKeys(l.assets, t.assets, before);
    }
  }

  lemma PickOwnerKeepsKeys(s: Snapshot, r: Record)
    requires r.args.correction.Some? && CorrectPickOwner(s, r).Ok?
    ensures KeysOf(CorrectPickOwner(s, r).value.picks) == KeysOf(s.picks)
  {
  }

  lemma CorrectionKeepsKeys(rules: Rules, records: seq<Record>, i: nat, s: Snapshot)
    requires i < |records| && AssetCorrection(records[i].command) && ApplyCorrection(rules, records, i, s).Ok?
    ensures KeysOf(ApplyCorrection(rules, records, i, s).value.picks) == KeysOf(s.picks)
  {
    if records[i].command.CorrectPick? {
      PickOwnerKeepsKeys(s, records[i]);
    } else if records[i].command.CorrectRoster? {
      RosterKeepsLists(rules, records, i, s, s.TargetSide(records[i].args.correction.value.franchise).value);
    }
  }

  function IssuedBy(r: Record): seq<NativePick> {
    if r.command.DraftArchive? && r.args.draftOutcome.Some? then r.args.draftOutcome.value.issued else []
  }

  lemma DraftKeepsKeys(s: Snapshot, r: Record)
    ensures r.command.DraftArchive? ==> ApplyDraft(s, r).picks == s.picks + IssuedBy(r)
    ensures !r.command.DraftArchive? ==> KeysOf(ApplyDraft(s, r).picks) == KeysOf(s.picks)
  {
    if !r.command.DraftArchive? {
      assert |ApplyDraft(s, r).picks| == |s.picks|;
    } else {
      assert s.picks + [] == s.picks;
    }
  }

  /** Which picks there are after the entry, from those before it. */
  function KeysNext(r: Record, before: seq<PickKey>): seq<PickKey> {
    if r.command.DraftArchive? then before + KeysOf(IssuedBy(r))
    else if r.RecordedRollover() then KeysOf(r.plan.value.after.picks)
    else before
  }

  lemma KeysJoin(one: seq<NativePick>, two: seq<NativePick>)
    ensures KeysOf(one + two) == KeysOf(one) + KeysOf(two)
  {
  }

  lemma PlainKeys(n: Native, r: Record, season: Option<int>)
    requires n.seeded && ProjectPlain(n, r, season).Ok?
    ensures var after := ProjectPlain(n, r, season).value;
            after.seeded && KeysOf(after.league.assets.picks) == KeysNext(r, KeysOf(n.league.assets.picks))
  {
    if DraftAsset(r.command) {
      DraftKeepsKeys(n.league.assets, r);
      KeysJoin(n.league.assets.picks, IssuedBy(r));
    } else if OverrideCommand(r.command) {
      OverrideKeepsLists(n.league.assets, r, r.args.change.value, season.value);
    }
  }

  lemma EntryKeys(rules: Rules, records: seq<Record>, i: nat, n: Native)
    requires i < |records| && n.seeded && ProjectEntry(rules, records, i, n).Ok?
    ensures var after := ProjectEntry(rules, records, i, n).value;
            after.seeded && KeysOf(after.league.assets.picks) == KeysNext(records[i], KeysOf(n.league.assets.picks))
  {
    var r, s := records[i], n.league.assets;
    if MarketCommand(r.command) {
      MarketKeepsKeys(n, r);
      MarketKeepsFranchises(n, r);
    } else if AssetCorrection(r.command) {
      CorrectionKeepsKeys(rules, records, i, s);
    } else {
      PlainKeys(n, r, rules.season(records[..i + 1]));
    }
  }

  /** Which picks the recorded entries in force among the first n leave. */
  function KeysAfter(records: seq<Record>, active: Active, n: nat, start: seq<PickKey>): seq<PickKey>
    requires n <= |records|
  {
    if n == 0 then start
    else
      var before := KeysAfter(records, active, n - 1, start);
      if On(active, records[n - 1].entry) then KeysNext(records[n - 1], before) else before
  }

  lemma {:induction false} FoldKeys(rules: Rules, records: seq<Record>, active: Active, n: nat, start: Native)
    requires n <= |records| && start.seeded && Fold(rules, records, active, 0, n, start).Ok?
    ensures var after := Fold(rules, records, active, 0, n, start).value;
            && after.seeded
            && KeysOf(after.league.assets.picks) == KeysAfter(records, active, n, KeysOf(start.league.assets.picks))
  {
    if n > 0 {
      FoldKeys(rules, records, active, n - 1, start);
      if On(active, records[n - 1].entry) {
        EntryKeys(rules, records, n - 1, Fold(rules, records, active, 0, n - 1, start).value);
      }
    }
  }

  lemma HeldByKeys(picks: seq<NativePick>)
    ensures forall c :: Held(picks, c) <==> c in KeysOf(picks)
    ensures KeysOnce(picks) <==> NoneTwice(KeysOf(picks))
  {
    var keys := KeysOf(picks);
    forall c ensures Held(picks, c) <==> c in keys {
      if k :| 0 <= k < |picks| && KeyOf(picks[k]) == c { assert keys[k] == c; }
      if c in keys {
        var k :| 0 <= k < |keys| && keys[k] == c;
        assert KeyOf(picks[k]) == c;
      }
    }
    if NoneTwice(keys) {
      forall i, j | 0 <= i < j < |picks| ensures KeyOf(picks[i]) != KeyOf(picks[j]) { assert keys[i] != keys[j]; }
    }
  }

  // ----- the starting snapshot, read from a prefix

  function StartKeys(rules: Rules, records: seq<Record>): seq<PickKey>
    requires Seed(rules, records).Ok?
  {
    KeysOf(Seed(rules, records).value.league.assets.picks)
  }

  lemma {:induction false} SeedInFront(rules: Rules, records: seq<Record>, i: nat, n: nat)
    requires n <= i <= |records| && SeedIn(rules, records[..i], n).Ok? && SeedIn(rules, records, n).Ok?
    ensures SeedIn(rules, records, n).value.seeded == SeedIn(rules, records[..i], n).value.seeded
    ensures SeedIn(rules, records, n).value.league.assets.picks == SeedIn(rules, records[..i], n).value.league.assets.picks
  {
    if n > 0 {
      assert records[..i][n - 1] == records[n - 1];
      SeedInFront(rules, records, i, n - 1);
    }
  }

  lemma {:induction false} SeedLasts(rules: Rules, records: seq<Record>, n: nat, m: nat)
    requires n <= m <= |records| && SeedIn(rules, records, m).Ok?
    ensures SeedIn(rules, records, n).Ok?
    ensures SeedIn(rules, records, n).value.seeded ==> SeedIn(rules, records, m) == SeedIn(rules, records, n)
    decreases m
  {
    if n < m {
      SeedLasts(rules, records, n, m - 1);
    }
  }

  lemma SeedOfPrefix(rules: Rules, records: seq<Record>, i: nat)
    requires i <= |records| && Seed(rules, records).Ok? && Seed(rules, records[..i]).Ok?
    requires Seed(rules, records[..i]).value.seeded
    ensures Seed(rules, records).value.seeded && StartKeys(rules, records[..i]) == StartKeys(rules, records)
  {
    SeedLasts(rules, records, i, |records|);
    SeedInFront(rules, records, i, i);
  }

  /** The projected picks, read off the entries in force. */
  lemma ProjectedKeys(rules: Rules, records: seq<Record>)
    requires Project(rules, records).Ok? && Seed(rules, records).value.seeded
    ensures KeysOf(Project(rules, records).value.league.assets.picks) ==
      KeysAfter(records, Full(records).active, |records|, StartKeys(rules, records))
  {
    FoldKeys(rules, records, Full(records).active, |records|, Seed(rules, records).value);
  }

  // ----- what was fixed when an entry was recorded

  /** What the close recorded at an entry was of; none where it was to issue nothing. */
  datatype Closed = Closed(at: int -> Option<Closing>)

  /** The entries whose recorded bodies say which picks there are. */
  predicate SaysPicks(r: Record) {
    r.command.DraftArchive? || r.RecordedRollover()
  }

  predicate InForceClose(records: seq<Record>, active: Active, i: nat)
    requires i < |records|
  {
    records[i].command.DraftArchive? && On(active, records[i].entry)
  }

  function IssuedNow(picks: seq<NativePick>, c: Option<Closing>): seq<NativePick> {
    if c.None? then [] else Issued(picks, c.value.season, c.value.rounds, c.value.franchises)
  }

  /** When the entry was recorded the ledger before it projected rosters and picks; a close recorded as issued what its
      draft still missed of them, and a rollover took them over. */
  ghost predicate FixedAt(rules: Rules, records: seq<Record>, i: nat, c: Option<Closing>)
    requires i < |records|
  {
    SaysPicks(records[i]) ==>
      var before := Project(rules, records[..i]);
      && before.Ok? && Seed(rules, records[..i]).value.seeded
      && (records[i].command.DraftArchive? ==> IssuedBy(records[i]) == IssuedNow(before.value.league.assets.picks, c))
      && (records[i].RecordedRollover() ==> records[i].plan.value.after.picks == before.value.league.assets.picks)
  }

  ghost predicate AllFixed(rules: Rules, records: seq<Record>, closed: Closed) {
    && (forall i :: 0 <= i < |records| ==> FixedAt(rules, records, i, closed.at(i)))
    && (forall i :: closed.at(i).Some? ==> NoneTwice(closed.at(i).value.franchises))
  }

  /** What was in force when the entry was recorded. */
  function ActiveAt(records: seq<Record>, i: nat): Active
    requires i <= |records|
  {
    Full(records[..i]).active
  }

  function KeysAt(rules: Rules, records: seq<Record>, i: nat): seq<PickKey>
    requires i <= |records| && Seed(rules, records).Ok?
  {
    KeysAfter(records, ActiveAt(records, i), i, StartKeys(rules, records))
  }

  lemma {:induction false} KeysAfterFront(records: seq<Record>, active: Active, i: nat, n: nat, start: seq<PickKey>)
    requires n <= i <= |records|
    ensures KeysAfter(records[..i], active, n, start) == KeysAfter(records, active, n, start)
  {
    if n > 0 {
      assert records[..i][n - 1] == records[n - 1];
      KeysAfterFront(records, active, i, n - 1, start);
    }
  }

  /** The picks an entry found when it was recorded, read off the entries before it. */
  lemma KeysFound(rules: Rules, records: seq<Record>, i: nat)
    requires i <= |records| && Project(rules, records).Ok?
    requires Project(rules, records[..i]).Ok? && Seed(rules, records[..i]).value.seeded
    ensures KeysOf(Project(rules, records[..i]).value.league.assets.picks) == KeysAt(rules, records, i)
  {
    var prefix := records[..i];
    SeedOfPrefix(rules, records, i);
    FoldKeys(rules, prefix, Full(prefix).active, i, Seed(rules, prefix).value);
    KeysAfterFront(records, Full(prefix).active, i, i, StartKeys(rules, records));
  }

  // ----- nothing set aside since

  /** Every close and rollover before the entry has the status it had when the entry was recorded. */
  ghost predicate SettledSince(records: seq<Record>, active: Active, i: nat)
    requires i <= |records|
  {
    forall j :: 0 <= j < i && SaysPicks(records[j]) ==>
      On(active, records[j].entry) == On(ActiveAt(records, i), records[j].entry)
  }

  ghost predicate Settled(records: seq<Record>, active: Active) {
    forall i :: 0 <= i < |records| && SaysPicks(records[i]) && On(active, records[i].entry) ==>
      SettledSince(records, active, i)
  }

  lemma {:induction false} SettledKeys(records: seq<Record>, active: Active, i: nat, n: nat, start: seq<PickKey>)
    requires n <= i <= |records| && SettledSince(records, active, i)
    ensures KeysAfter(records, active, n, start) == KeysAfter(records, ActiveAt(records, i), n, start)
  {
    if n > 0 {
      SettledKeys(records, active, i, n - 1, start);
    }
  }

  /** The closes in force among the first n entries that were to issue picks, in order. */
  function ClosingsInForce(records: seq<Record>, active: Active, n: nat, closed: Closed): seq<Closing>
    requires n <= |records|
  {
    if n == 0 then []
    else
      var before := ClosingsInForce(records, active, n - 1, closed);
      if InForceClose(records, active, n - 1) && closed.at(n - 1).Some? then before + [closed.at(n - 1).value] else before
  }

  lemma WantedByMore(closings: seq<Closing>, one: Closing, c: PickKey)
    ensures WantedBySome(closings + [one], c) <==>
      WantedBySome(closings, c) || Wanted(one.season, one.rounds, one.franchises, c)
  {
    var more := closings + [one];
    if k :| 0 <= k < |closings| && Wanted(closings[k].season, closings[k].rounds, closings[k].franchises, c) {
      assert more[k] == closings[k];
    }
    assert more[|closings|] == one;
  }

  /** The keys are the starting ones and what the closings wanted, none twice unless the start names one twice. */
  ghost predicate KeysHold(keys: seq<PickKey>, start: seq<PickKey>, closings: seq<Closing>) {
    && (forall c :: c in keys <==> c in start || WantedBySome(closings, c))
    && (NoneTwice(start) ==> NoneTwice(keys))
  }

  lemma OnceApart(one: seq<PickKey>, two: seq<PickKey>, c: PickKey)
    requires c in one && c in two
    ensures !NoneTwice(one + two)
  {
    var i :| 0 <= i < |one| && one[i] == c;
    var j :| 0 <= j < |two| && two[j] == c;
    assert (one + two)[i] == (one + two)[|one| + j];
  }

  lemma OnceJoined(one: seq<PickKey>, two: seq<PickKey>)
    ensures NoneTwice(one + two) <==> NoneTwice(one) && NoneTwice(two) && forall c :: !(c in one && c in two)
  {
    var both := one + two;
    if NoneTwice(both) {
      forall i, j | 0 <= i < j < |one| ensures one[i] != one[j] { assert both[i] != both[j]; }
      forall i, j | 0 <= i < j < |two| ensures two[i] != two[j] { assert both[|one| + i] != both[|one| + j]; }
      forall c ensures !(c in one && c in two) {
        if c in one && c in two { OnceApart(one, two, c); }
      }
    } else if NoneTwice(one) && NoneTwice(two) {
      var i, j :| 0 <= i < j < |both| && both[i] == both[j];
      assert i < |one| <= j && both[i] in one && both[j] in two;
    }
  }

  /** What a close issued, told by keys: what it wanted and did not find, once each. */
  lemma IssuedKeys(picks: seq<NativePick>, one: Closing)
    requires NoneTwice(one.franchises)
    ensures var out := KeysOf(Issued(picks, one.season, one.rounds, one.franchises));
            && (forall c :: c in out <==> Wanted(one.season, one.rounds, one.franchises, c) && c !in KeysOf(picks))
            && NoneTwice(out)
  {
    IssuesTheMissing(picks, one.season, one.rounds, one.franchises);
    HeldByKeys(picks);
    HeldByKeys(Issued(picks, one.season, one.rounds, one.franchises));
  }

  lemma CloseHolds(keys: seq<PickKey>, start: seq<PickKey>, closings: seq<Closing>, picks: seq<NativePick>, one: Closing)
    requires KeysHold(keys, start, closings) && KeysOf(picks) == keys && NoneTwice(one.franchises)
    ensures KeysHold(keys + KeysOf(Issued(picks, one.season, one.rounds, one.franchises)), start, closings + [one])
  {
    var out := KeysOf(Issued(picks, one.season, one.rounds, one.franchises));
    IssuedKeys(picks, one);
    OnceJoined(keys, out);
    forall c ensures c in keys + out <==> c in start || WantedBySome(closings + [one], c) {
      WantedByMore(closings, one, c);
    }
  }

  /** What the close recorded at i issued, from the picks it found. */
  lemma IssuedAt(rules: Rules, records: seq<Record>, closed: Closed, i: nat)
    requires i < |records| && Project(rules, records).Ok? && AllFixed(rules, records, closed)
    requires records[i].command.DraftArchive?
    ensures Project(rules, records[..i]).Ok?
    ensures KeysOf(Project(rules, records[..i]).value.league.assets.picks) == KeysAt(rules, records, i)
    ensures closed.at(i).None? ==> KeysOf(IssuedBy(records[i])) == []
    ensures closed.at(i).Some? ==>
      var one := closed.at(i).value;
      && (forall c :: c in KeysOf(IssuedBy(records[i])) <==>
            Wanted(one.season, one.rounds, one.franchises, c) && c !in KeysAt(rules, records, i))
      && NoneTwice(KeysOf(IssuedBy(records[i])))
  {
    assert FixedAt(rules, records, i, closed.at(i));
    KeysFound(rules, records, i);
    if closed.at(i).Some? {
      IssuedKeys(Project(rules, records[..i]).value.league.assets.picks, closed.at(i).value);
    }
  }

  lemma RolloverTakes(rules: Rules, records: seq<Record>, closed: Closed, i: nat)
    requires i < |records| && Project(rules, records).Ok? && AllFixed(rules, records, closed)
    requires records[i].RecordedRollover()
    ensures KeysOf(records[i].plan.value.after.picks) == KeysAt(rules, records, i)
  {
    assert FixedAt(rules, records, i, closed.at(i));
    KeysFound(rules, records, i);
  }

  lemma {:induction false} FoldReached(rules: Rules, records: seq<Record>, active: Active, i: nat, n: nat, start: Native)
    requires i <= n <= |records| && Fold(rules, records, active, 0, n, start).Ok?
    ensures Fold(rules, records, active, 0, i, start).Ok?
    decreases n
  {
    if i < n {
      FoldReached(rules, records, active, i, n - 1, start);
    }
  }

  lemma IssuedAlike(one: seq<NativePick>, two: seq<NativePick>, c: Option<Closing>)
    requires KeysOf(one) == KeysOf(two)
    ensures IssuedNow(one, c) == IssuedNow(two, c)
  {
    HeldByKeys(one);
    HeldByKeys(two);
    if c.Some? {
      SeasonsBeside(one, two, c.value.season, ISSUED_SEASONS_AHEAD, Positive(c.value.rounds), c.value.franchises);
    }
  }

  /** Where no earlier close or rollover has changed status since, a close issued what its draft misses in the very state
      the projection brings to it. */
  lemma IssuedOnReplay(rules: Rules, records: seq<Record>, closed: Closed, i: nat)
    requires i < |records| && Project(rules, records).Ok? && AllFixed(rules, records, closed)
    requires Seed(rules, records).value.seeded
    requires records[i].command.DraftArchive? && SettledSince(records, Full(records).active, i)
    ensures var met := Fold(rules, records, Full(records).active, 0, i, Seed(rules, records).value);
            met.Ok? && IssuedBy(records[i]) == IssuedNow(met.value.league.assets.picks, closed.at(i))
  {
    var active, start := Full(records).active, Seed(rules, records).value;
    FoldReached(rules, records, active, i, |records|, start);
    FoldKeys(rules, records, active, i, start);
    SettledKeys(records, active, i, i, StartKeys(rules, records));
    assert FixedAt(rules, records, i, closed.at(i));
    KeysFound(rules, records, i);
    IssuedAlike(Project(rules, records[..i]).value.league.assets.picks,
                Fold(rules, records, active, 0, i, start).value.league.assets.picks, closed.at(i));
  }

  lemma SettledEntryHolds(rules: Rules, records: seq<Record>, closed: Closed, i: nat)
    requires i < |records| && Project(rules, records).Ok? && AllFixed(rules, records, closed)
    requires Settled(records, Full(records).active) && On(Full(records).active, records[i].entry)
    requires KeysHold(KeysAfter(records, Full(records).active, i, StartKeys(rules, records)), StartKeys(rules, records),
                      ClosingsInForce(records, Full(records).active, i, closed))
    ensures KeysHold(KeysAfter(records, Full(records).active, i + 1, StartKeys(rules, records)),
                     StartKeys(rules, records), ClosingsInForce(records, Full(records).active, i + 1, closed))
  {
    var active, start := Full(records).active, StartKeys(rules, records);
    if SaysPicks(records[i]) {
      SettledKeys(records, active, i, i, start);
    }
    if records[i].command.DraftArchive? {
      IssuedAt(rules, records, closed, i);
      if closed.at(i).Some? {
        CloseHolds(KeysAfter(records, active, i, start), start, ClosingsInForce(records, active, i, closed),
                   Project(rules, records[..i]).value.league.assets.picks, closed.at(i).value);
      }
    } else if records[i].RecordedRollover() {
      RolloverTakes(rules, records, closed, i);
    }
  }

  /** The first n entries leave the starting keys and what their closes in force wanted. */
  ghost predicate HoldsAfter(records: seq<Record>, active: Active, n: nat, start: seq<PickKey>, closed: Closed)
    requires n <= |records|
  {
    KeysHold(KeysAfter(records, active, n, start), start, ClosingsInForce(records, active, n, closed))
  }

  ghost predicate EntryHolds(records: seq<Record>, active: Active, i: nat, start: seq<PickKey>, closed: Closed)
    requires i < |records|
  {
    On(active, records[i].entry) && HoldsAfter(records, active, i, start, closed) ==>
      HoldsAfter(records, active, i + 1, start, closed)
  }

  lemma EntriesHold(rules: Rules, records: seq<Record>, closed: Closed)
    requires Project(rules, records).Ok? && AllFixed(rules, records, closed) && Settled(records, Full(records).active)
    ensures forall i :: 0 <= i < |records| ==>
      EntryHolds(records, Full(records).active, i, StartKeys(rules, records), closed)
  {
    var active, start := Full(records).active, StartKeys(rules, records);
    forall i | 0 <= i < |records| ensures EntryHolds(records, active, i, start, closed) {
      if On(active, records[i].entry) && HoldsAfter(records, active, i, start, closed) {
        SettledEntryHolds(rules, records, closed, i);
      }
    }
  }

  lemma {:induction false} SettledHolds(records: seq<Record>, active: Active, n: nat, start: seq<PickKey>, closed: Closed)
    requires n <= |records| && forall i :: 0 <= i < |records| ==> EntryHolds(records, active, i, start, closed)
    ensures HoldsAfter(records, active, n, start, closed)
  {
    if n > 0 {
      SettledHolds(records, active, n - 1, start, closed);
      assert EntryHolds(records, active, n - 1, start, closed);
    } else {
      NoneYet(records, active, start, closed);
    }
  }

  lemma NoneYet(records: seq<Record>, active: Active, start: seq<PickKey>, closed: Closed)
    ensures KeysHold(KeysAfter(records, active, 0, start), start, ClosingsInForce(records, active, 0, closed))
  {
    assert forall c :: !WantedBySome([], c);
  }

  /** Where nothing has been set aside since under a close or rollover in force, the picks held are those of the starting
      snapshot and those the drafts closed in force were to issue; none twice if the snapshot named none twice. */
  lemma PicksInStep(rules: Rules, records: seq<Record>, closed: Closed)
    requires Project(rules, records).Ok? && Seed(rules, records).value.seeded && AllFixed(rules, records, closed)
    requires Settled(records, Full(records).active)
    ensures var picks, start := Project(rules, records).value.league.assets.picks, Seed(rules, records).value.league.assets.picks;
            && (forall c :: Held(picks, c) <==>
                  Held(start, c) || WantedBySome(ClosingsInForce(records, Full(records).active, |records|, closed), c))
            && (KeysOnce(start) ==> KeysOnce(picks))
  {
    ProjectedKeys(rules, records);
    EntriesHold(rules, records, closed);
    SettledHolds(records, Full(records).active, |records|, StartKeys(rules, records), closed);
    HeldByKeys(Project(rules, records).value.league.assets.picks);
    HeldByKeys(Seed(rules, records).value.league.assets.picks);
  }
}
