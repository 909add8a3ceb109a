/** Whose change a reversal is really about. Four walks follow reversals back to the original entry: the reading's
    forward map, the permission check's backward scan, and the two privacy walks. They find the same entry. */
module ReversalRoots {
  import opened Assets
  import opened Records
  import opened Compensation
  import opened DraftRestores

  /** The original behind the entry at i: the entry itself unless it reverses a recorded earlier one. */
  function Root(records: seq<Record>, i: nat): (root: nat)
    requires i < |records|
    ensures root <= i
  {
    if !records[i].command.Revert? then i
    else
      var place := PlaceOf(records[..i], records[i].Target());
      if place.None? then i else Root(records, place.value)
  }

  predicate Reverses(r: Record, target: Record) {
    r.command.Revert? && r.Target() == target.entry
  }

  /** A reversal's target, where it is recorded at all, is recorded earlier. */
  ghost predicate LinksBack(records: seq<Record>) {
    forall i, j :: (0 <= i < |records| && 0 <= j < |records| && Reverses(records[i], records[j])) ==> j < i
  }

  lemma LinkedLinksBack(records: seq<Record>)
    requires Linked(records) && Distinct(records)
    ensures LinksBack(records)
  {
    forall i, j | 0 <= i < |records| && 0 <= j < |records| && Reverses(records[i], records[j]) ensures j < i {
      if i <= j { AimsEarlier(records, i, j); }
    }
  }

  ghost predicate MapsRoots(roots: map<string, nat>, records: seq<Record>, n: nat)
    requires n <= |records|
  {
    forall entry ::
      && (entry in roots <==> PlaceOf(records[..n], entry).Some?)
      && (entry in roots ==> roots[entry] == Root(records, PlaceOf(records[..n], entry).value))
  }

  lemma PlaceStep(records: seq<Record>, i: nat, entry: string)
    requires i < |records|
    ensures PlaceOf(records[..i + 1], entry) ==
      if records[i].entry == entry then Some(i) else PlaceOf(records[..i], entry)
  {
    assert records[..i + 1][..i] == records[..i];
  }

  lemma MapsStep(roots: map<string, nat>, records: seq<Record>, i: nat)
    requires i < |records| && MapsRoots(roots, records, i)
    ensures MapsRoots(roots[records[i].entry := Root(records, i)], records, i + 1)
  {
    forall entry { PlaceStep(records, i, entry); }
  }

  lemma RootByMap(roots: map<string, nat>, records: seq<Record>, i: nat)
    requires i < |records| && MapsRoots(roots, records, i)
    ensures Root(records, i) ==
      if records[i].command.Revert? && records[i].args.entry in roots then roots[records[i].args.entry] else i
  {
    if records[i].command.Revert? && records[i].args.entry in roots {
      RootInFront(records, |records|, i);
    }
  }

  /** The forward map. */
  method Roots(records: seq<Record>) returns (roots: map<string, nat>)
    ensures forall entry :: entry in roots <==> PlaceOf(records, entry).Some?
    ensures forall entry :: entry in roots ==> roots[entry] == Root(records, PlaceOf(records, entry).value)
  {
    roots := map[];
    for i := 0 to |records|
      invariant MapsRoots(roots, records, i)
    {
      var root := i;
      if records[i].command.Revert? && records[i].args.entry in roots {
        root := roots[records[i].args.entry];
      }
      RootByMap(roots, records, i);
      MapsStep(roots, records, i);
      roots := roots[records[i].entry := root];
    }
    assert records[..|records|] == records;
  }

  /** The original the backward scan stops at: reversals of nothing recorded before them lead nowhere. */
  function Original(records: seq<Record>, entry: string): Option<nat> {
    var place := PlaceOf(records, entry);
    if place.None? || records[Root(records, place.value)].command.Revert? then None
    else Some(Root(records, place.value))
  }

  lemma {:induction false} RootInFront(records: seq<Record>, n: nat, i: nat)
    requires i < n <= |records|
    ensures Root(records[..n], i) == Root(records, i)
    decreases i
  {
    assert records[..n][..i] == records[..i];
    if records[i].command.Revert? && PlaceOf(records[..i], records[i].Target()).Some? {
      RootInFront(records, n, PlaceOf(records[..i], records[i].Target()).value);
    }
  }

  lemma OriginalPastOther(records: seq<Record>, i: nat, entry: string)
    requires i < |records| && records[i].entry != entry
    ensures Original(records[..i + 1], entry) == Original(records[..i], entry)
  {
    PlaceStep(records, i, entry);
    var place := PlaceOf(records[..i], entry);
    if place.Some? {
      RootInFront(records, i, place.value);
      RootInFront(records, i + 1, place.value);
    }
  }

  lemma OriginalAt(records: seq<Record>, i: nat)
    requires i < |records|
    ensures Original(records[..i + 1], records[i].entry) ==
      if records[i].command.Revert? then Original(records[..i], records[i].Target()) else Some(i)
  {
    PlaceStep(records, i, records[i].entry);
    RootInFront(records, i + 1, i);
    if records[i].command.Revert? {
      var place := PlaceOf(records[..i], records[i].Target());
      if place.Some? {
        RootInFront(records, i, place.value);
        RootInFront(records, i + 1, place.value);
      }
    }
  }

  lemma OriginalInFront(records: seq<Record>, i: nat, entry: string)
    requires i < |records|
    ensures Original(records[..i + 1], entry) ==
      if records[i].entry != entry then Original(records[..i], entry)
      else if records[i].command.Revert? then Original(records[..i], records[i].Target())
      else Some(i)
  {
    if records[i].entry == entry {
      OriginalAt(records, i);
    } else {
      OriginalPastOther(records, i, entry);
    }
  }

  /** The permission check's scan: newest first, it takes up the target of each reversal it meets. */
  method ScanBack(records: seq<Record>, entry: string) returns (original: Option<nat>)
    ensures original == Original(records, entry)
  {
    var wanted := entry;
    assert records[..|records|] == records;
    for i := |records| downto 0
      invariant Original(records[..i], wanted) == Original(records, entry)
    {
      var r := records[i];
      OriginalInFront(records, i, wanted);
      if r.entry != wanted {
        continue;
      }
      if r.command.Revert? {
        wanted := r.args.entry;
        continue;
      }
      return Some(i);
    }
    return None;
  }

  predicate OwnerBid(command: Command) {
    command.BidPlace? || command.BidRaise? || command.BidWithdraw?
  }

  /** The first entry of that id, as the privacy walks look for it. */
  function Find(records: seq<Record>, entry: string): int {
    IndexFunc(records, (r: Record) => r.entry == entry)
  }

  lemma FindIsPlace(records: seq<Record>, i: nat)
    requires Distinct(records) && LinksBack(records) && i < |records| && records[i].command.Revert?
    ensures var at := Find(records, records[i].Target());
            var place := PlaceOf(records[..i], records[i].Target());
            if at < 0 then place.None? else place == Some(at as nat)
  {
    var at := Find(records, records[i].Target());
    if at >= 0 {
      assert Reverses(records[i], records[at]);
      assert records[..i][at] == records[at];
      assert Distinct(records[..i]);
      PlaceInDistinct(records[..i], at);
    }
  }

  /** Hides a bid and every reversal of one; the walk takes at most as many steps as there are entries. */
  method PrivateBid(records: seq<Record>, i: nat) returns (hidden: bool)
    requires Distinct(records) && LinksBack(records) && i < |records|
    ensures var root := records[Root(records, i)].command;
            hidden <==> root.BidPlace? || root.BidRaise? || root.BidWithdraw?
  {
    var k: nat := i;
    for step := 0 to |records|
      invariant k < |records| && k + step <= i && Root(records, k) == Root(records, i)
    {
      if !records[k].command.Revert? {
        break;
      }
      var at := Find(records, records[k].args.entry);
      FindIsPlace(records, k);
      if at < 0 {
        return false;
      }
      k := at;
    }
    hidden := OwnerBid(records[k].command);
  }

  /** Hides a claim and every reversal of one; the walk ends because reversals name earlier entries. */
  method PrivateClaim(records: seq<Record>, i: nat) returns (hidden: bool)
    requires Distinct(records) && LinksBack(records) && i < |records|
    ensures hidden == records[Root(records, i)].command.WaiverClaim?
  {
    if records[i].command.WaiverClaim? {
      return true;
    }
    var k: nat := i;
    while records[k].command.Revert?
      invariant k < |records| && Root(records, k) == Root(records, i)
      decreases k
    {
      var at := Find(records, records[k].args.entry);
      FindIsPlace(records, k);
      if at < 0 {
        return false;
      }
      k := at;
    }
    hidden := records[k].command.WaiverClaim?;
  }

  /** The original is the far end of the chain a reversal flips, and in a linked ledger it is no reversal. */
  lemma {:induction false} RootEndsTheChain(records: seq<Record>, i: nat)
    requires Distinct(records) && Linked(records) && i < |records|
    ensures !records[Root(records, i)].command.Revert?
    ensures records[Root(records, i)].entry in Chain(records, records[i].entry)
    ensures Original(records, records[i].entry) == Some(Root(records, i))
    decreases i
  {
    PlaceInDistinct(records, i);
    ChainAt(records, i, |records|);
    if records[i].command.Revert? {
      var target, front := records[i].Target(), records[..i];
      assert Compensates(records[i]);
      var t :| 0 <= t < |front| && front[t].entry == target;
      assert Distinct(front);
      PlaceInDistinct(front, t);
      RootEndsTheChain(records, t);
      ChainAt(records, t, |records|);
      ChainAt(records, t, i);
      assert records[..|records|] == records;
    } else {
      assert records[..|records|] == records;
      assert records[..i + 1][i] == records[i];
    }
  }

  /** Entries recorded after i do not change its chain. */
  lemma {:induction false} ChainAt(records: seq<Record>, i: nat, n: nat)
    requires Distinct(records) && i < n <= |records|
    ensures Chain(records[..n], records[i].entry) ==
      if records[i].command.Revert? then {records[i].entry} + Chain(records[..i], records[i].Target())
      else {records[i].entry}
    decreases n
  {
    assert records[..n][..n - 1] == records[..n - 1];
    if i < n - 1 { ChainAt(records, i, n - 1); }
  }
}
