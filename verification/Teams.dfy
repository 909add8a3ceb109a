/** Numbered franchises. Teams changes resize the list that is folded from the ledger and the list inside the
    assets, and the two never drift apart. */
module Teams {
  import opened Assets
  import opened Records
  import opened Replay
  import opened Text

  const PREFIX := "franchise."
  const TEAMS_FIELD := "league.teams"

  function FranchiseId(n: nat): string {
    PREFIX + TwoDigits(n)
  }

  function FranchiseIds(count: nat): (ids: seq<string>)
    ensures |ids| == count && forall i :: 0 <= i < count ==> ids[i] == FranchiseId(i + 1)
  {
    seq(count, i requires i >= 0 => FranchiseId(i + 1))
  }

  /** The number n whose written id this is, or 0 where there is none. */
  function FranchiseNumber(id: string): nat {
    var number := Atoi(if PREFIX <= id then id[|PREFIX|..] else id);
    if number.None? || !(PREFIX <= id) || number.value < 1 || FranchiseId(number.value) != id then 0
    else number.value
  }

  /** Reading a seat number undoes writing it, and nothing else reads as one. */
  lemma SeatNumbersRoundTrip(id: string, n: int)
    requires 1 <= n <= MAX_INT
    ensures FranchiseNumber(id) == n <==> id == FranchiseId(n)
  {
    TwoDigitsReadBack(n);
    var whole := FranchiseId(n);
    assert whole[|PREFIX|..] == TwoDigits(n) && PREFIX <= whole;
  }

  /** Different seats have different ids. */
  lemma SeatsAreDistinct(i: nat, j: nat)
    requires 1 <= i <= MAX_INT && 1 <= j <= MAX_INT && FranchiseId(i) == FranchiseId(j)
    ensures i == j
  {
    SeatNumbersRoundTrip(FranchiseId(i), i);
    SeatNumbersRoundTrip(FranchiseId(i), j);
  }

  /** The number of franchises an immediate change of the league's size asks for; none for any other entry. */
  function TeamCount(r: Record): Option<int> {
    if r.command.RulesSet? && r.args.field == TEAMS_FIELD && r.args.effective == "now" then r.args.value else None
  }

  /** A prefix of the list, or the list continued with the numbered ids it lacks. */
  function Resized(ids: seq<string>, n: nat): seq<string> {
    if n <= |ids| then ids[..n] else ids + FranchiseIds(n)[|ids|..]
  }

  lemma NextId(from: nat, i: nat, n: nat)
    requires from <= i < n
    ensures FranchiseIds(n)[from..i + 1] == FranchiseIds(n)[from..i] + [FranchiseIds(i + 1)[i]]
  {
    assert FranchiseIds(n)[i] == FranchiseIds(i + 1)[i];
  }

  method ResizedFranchises(ids: seq<string>, n: nat) returns (out: seq<string>)
    ensures out == Resized(ids, n)
  {
    if n <= |ids| {
      return ids[..n];
    }
    out := ids;
    for i := |ids| to n
      invariant out == ids + FranchiseIds(n)[|ids|..i]
    {
      NextId(|ids|, i, n);
      out := out + [FranchiseIds(i + 1)[i]];
    }
    assert FranchiseIds(n)[|ids|..n] == FranchiseIds(n)[|ids|..];
  }

  /** Resizing a numbered list gives the numbered list of the new count. */
  lemma ResizedStaysNumbered(count: nat, n: nat)
    ensures Resized(FranchiseIds(count), n) == FranchiseIds(n)
  {
  }

  /** The count in force after the first n entries, from the one the league was created with. */
  function CountInForce(records: seq<Record>, active: Active, n: nat, created: nat): (count: nat)
    requires n <= |records|
    requires forall i :: 0 <= i < |records| && TeamCount(records[i]).Some? ==> TeamCount(records[i]).value >= 0
  {
    if n <= 1 then created
    else if TeamCount(records[n - 1]).Some? && On(active, records[n - 1].entry) then TeamCount(records[n - 1]).value
    else CountInForce(records, active, n - 1, created)
  }

  /** The list after the first n entries: what the league was created with, cut or lengthened by each Teams change that
      counts. */
  function ListInForce(records: seq<Record>, active: Active, n: nat): seq<string>
    requires n <= |records|
    requires forall i :: 0 <= i < |records| && TeamCount(records[i]).Some? ==> TeamCount(records[i]).value >= 0
  {
    if n == 0 then []
    else if n == 1 then records[0].args.franchises
    else
      var before := ListInForce(records, active, n - 1);
      if TeamCount(records[n - 1]).Some? && On(active, records[n - 1].entry) then
        Resized(before, TeamCount(records[n - 1]).value)
      else before
  }

  /** Folds the list over the ledger, replaying it only once a Teams change is met. */
  method LeagueFranchises(records: seq<Record>) returns (ids: seq<string>)
    requires forall i :: 0 <= i < |records| && TeamCount(records[i]).Some? ==> TeamCount(records[i]).value >= 0
    ensures ids == ListInForce(records, Full(records).active, |records|)
  {
    if records == [] {
      return [];
    }
    ids := records[0].args.franchises;
    var active: Option<Active> := None;
    for i := 1 to |records|
      invariant active.Some? ==> active.value == Full(records).active
      invariant ids == ListInForce(records, Full(records).active, i)
    {
      var n := TeamCount(records[i]);
      if n.None? {
        continue;
      }
      if active.None? {
        var p := ReplayFull(records);
        active := Some(p.active);
      }
      if On(active.value, records[i].entry) {
        ids := ResizedFranchises(ids, n.value);
      }
    }
  }

  /** A league created with numbered franchises keeps a numbered list, as long as the last count in force. */
  lemma {:induction false} ListIsNumbered(records: seq<Record>, active: Active, n: nat)
    requires 1 <= n <= |records| && records[0].args.franchises == FranchiseIds(|records[0].args.franchises|)
    requires forall i :: 0 <= i < |records| && TeamCount(records[i]).Some? ==> TeamCount(records[i]).value >= 0
    ensures ListInForce(records, active, n) ==
      FranchiseIds(CountInForce(records, active, n, |records[0].args.franchises|))
  {
    if n > 1 {
      ListIsNumbered(records, active, n - 1);
      if TeamCount(records[n - 1]).Some? {
        ResizedStaysNumbered(CountInForce(records, active, n - 1, |records[0].args.franchises|),
                             TeamCount(records[n - 1]).value);
      }
    }
  }

  // ----- the native assets' own list

  function IdsOf(franchises: seq<NativeFranchise>): (ids: seq<string>)
    ensures |ids| == |franchises| && forall i :: 0 <= i < |ids| ==> ids[i] == franchises[i].id
  {
    seq(|franchises|, i requires 0 <= i < |franchises| => franchises[i].id)
  }

  predicate HoldsPlayer(s: Snapshot, id: string) {
    exists k :: 0 <= k < |s.players| && s.players[k].franchise == id
  }

  predicate HoldsPick(s: Snapshot, id: string) {
    exists k :: 0 <= k < |s.picks| && (s.picks[k].owner == id || s.picks[k].original == id)
  }

  predicate HoldsCharge(s: Snapshot, id: string) {
    exists k :: 0 <= k < |s.adjustments| && s.adjustments[k].franchise == id
  }

  function EmptyFranchise(s: Snapshot, f: NativeFranchise): Result<()> {
    if HoldsPlayer(s, f.id) then Refused(f.name + " still has players; move or release them before removing the team")
    else if HoldsPick(s, f.id) then Refused(f.name + " still holds draft picks; move them before removing the team")
    else if HoldsCharge(s, f.id) then Refused(f.name + " still has cap charges; clear them before removing the team")
    else Ok(())
  }

  /** A franchise as it starts: named and numbered by its id. */
  function NewFranchise(id: string): NativeFranchise {
    var digits := Digits(FranchiseNumber(id));
    NativeFranchise(id, id, "Franchise " + digits, "F" + digits)
  }

  function NewFranchises(ids: seq<string>): (out: seq<NativeFranchise>)
    ensures |out| == |ids| && forall i :: 0 <= i < |ids| ==> out[i] == NewFranchise(ids[i])
  {
    seq(|ids|, i requires 0 <= i < |ids| => NewFranchise(ids[i]))
  }

  /** The assets cut to their first n franchises, refused if a dropped one holds something, or grown by blank ones. */
  function ResizeNative(s: Snapshot, n: nat): Result<Snapshot> {
    var kept := if n <= |s.franchises| then n else |s.franchises|;
    var full := exists i :: kept <= i < |s.franchises| && EmptyFranchise(s, s.franchises[i]).Refused?;
    if full then Refused("a removed team still holds something")
    else
      var want := Resized(IdsOf(s.franchises), n);
      Ok(s.(franchises := s.franchises[..kept] + NewFranchises(want[kept..])))
  }

  /** Every player, pick owner, original owner and charge names a listed franchise; an original owner may
      be missing. */
  ghost predicate NamesListed(s: Snapshot) {
    && (forall k :: 0 <= k < |s.players| ==> s.Lists(s.players[k].franchise))
    && (forall k :: 0 <= k < |s.picks| ==>
          s.Lists(s.picks[k].owner) && (s.picks[k].original != "" ==> s.Lists(s.picks[k].original)))
    && (forall k :: 0 <= k < |s.adjustments| ==> s.Lists(s.adjustments[k].franchise))
  }

  lemma ResizeKeepsListed(s: Snapshot, n: nat, id: string)
    requires ResizeNative(s, n).Ok? && s.Lists(id)
    requires HoldsPlayer(s, id) || HoldsPick(s, id) || HoldsCharge(s, id)
    ensures ResizeNative(s, n).value.Lists(id)
  {
    var after := ResizeNative(s, n).value;
    var k :| 0 <= k < |s.franchises| && s.franchises[k].id == id;
    var kept := if n <= |s.franchises| then n else |s.franchises|;
    if k >= kept {
      assert EmptyFranchise(s, s.franchises[k]).Refused?;
    }
    assert after.franchises[k] == s.franchises[k];
  }

  lemma IdsJoin(one: seq<NativeFranchise>, two: seq<NativeFranchise>)
    ensures IdsOf(one + two) == IdsOf(one) + IdsOf(two)
  {
  }

  /** A seat that a Teams change adds: its own id, kept as the held one, and both names by its number. */
  lemma NewFranchiseIs(n: int)
    requires 1 <= n <= MAX_INT
    ensures var f := NewFranchise(FranchiseId(n));
            && f.id == "franchise." + (if n < 10 then "0" + Digits(n) else Digits(n)) && f.heldId == f.id
            && f.name == "Franchise " + Digits(n) && f.abbreviation == "F" + Digits(n)
  {
    SeatNumbersRoundTrip(FranchiseId(n), n);
  }

  lemma IdsOfNew(ids: seq<string>)
    ensures IdsOf(NewFranchises(ids)) == ids
  {
  }

  /** Resizing keeps the list numbered, whatever is held. */
  lemma ResizedIds(s: Snapshot, count: nat, n: nat)
    requires IdsOf(s.franchises) == FranchiseIds(count) && ResizeNative(s, n).Ok?
    ensures IdsOf(ResizeNative(s, n).value.franchises) == FranchiseIds(n)
  {
    var kept := if n <= |s.franchises| then n else |s.franchises|;
    var want := Resized(IdsOf(s.franchises), n);
    ResizedStaysNumbered(count, n);
    IdsJoin(s.franchises[..kept], NewFranchises(want[kept..]));
    IdsOfNew(want[kept..]);
    assert IdsOf(s.franchises[..kept]) == want[..kept];
  }

  /** An accepted Teams change leaves every holding on a listed franchise. */
  lemma ResizeKeepsNames(s: Snapshot, n: nat)
    requires NamesListed(s) && ResizeNative(s, n).Ok?
    ensures NamesListed(ResizeNative(s, n).value)
    ensures ResizeNative(s, n).value == s.(franchises := ResizeNative(s, n).value.franchises)
  {
    var after := ResizeNative(s, n).value;
    forall k | 0 <= k < |s.players| ensures after.Lists(s.players[k].franchise) {
      ResizeKeepsListed(s, n, s.players[k].franchise);
    }
    forall k | 0 <= k < |s.picks|
      ensures after.Lists(s.picks[k].owner) && (s.picks[k].original != "" ==> after.Lists(s.picks[k].original))
    {
      ResizeKeepsListed(s, n, s.picks[k].owner);
      if s.picks[k].original != "" { ResizeKeepsListed(s, n, s.picks[k].original); }
    }
    forall k | 0 <= k < |s.adjustments| ensures after.Lists(s.adjustments[k].franchise) {
      ResizeKeepsListed(s, n, s.adjustments[k].franchise);
    }
  }

  /** One accepted Teams change keeps the native list numbered and every holding on a listed franchise. */
  lemma ResizeStaysInStep(s: Snapshot, count: nat, n: nat)
    requires IdsOf(s.franchises) == FranchiseIds(count) && NamesListed(s) && ResizeNative(s, n).Ok?
    ensures var after := ResizeNative(s, n).value;
            && IdsOf(after.franchises) == FranchiseIds(n) && NamesListed(after)
            && after == s.(franchises := after.franchises)
  {
    ResizedIds(s, count, n);
    ResizeKeepsNames(s, n);
  }

  function ResizeAll(s: Snapshot, counts: seq<nat>): Result<Snapshot> {
    if counts == [] then Ok(s)
    else
      var before :- ResizeAll(s, counts[..|counts| - 1]);
      ResizeNative(before, counts[|counts| - 1])
  }

  function ResizeListAll(ids: seq<string>, counts: seq<nat>): seq<string> {
    if counts == [] then ids else Resized(ResizeListAll(ids, counts[..|counts| - 1]), counts[|counts| - 1])
  }

  /** Over every sequence of accepted counts the league's list and the assets' list are the same numbered list, in
      order, and nothing held names a franchise outside it. */
  lemma {:induction false} EveryReaderStaysInStep(s: Snapshot, created: nat, counts: seq<nat>)
    requires IdsOf(s.franchises) == FranchiseIds(created) && NamesListed(s) && ResizeAll(s, counts).Ok?
    ensures var last := if counts == [] then created else counts[|counts| - 1];
            var after := ResizeAll(s, counts).value;
            && ResizeListAll(FranchiseIds(created), counts) == FranchiseIds(last)
            && IdsOf(after.franchises) == FranchiseIds(last)
            && NamesListed(after)
  {
    if counts != [] {
      var init := counts[..|counts| - 1];
      EveryReaderStaysInStep(s, created, init);
      var before := ResizeAll(s, init).value;
      var count := if init == [] then created else init[|init| - 1];
      ResizeStaysInStep(before, count, counts[|counts| - 1]);
      ResizedStaysNumbered(count, counts[|counts| - 1]);
    }
  }
}
