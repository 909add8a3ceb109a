/** Round one of a draft: the standings from the bottom up, each run of level franchises then rearranged in place
    by the tie rule. */
module FirstRound {
  import opened Assets
  import opened Lists
  import opened Ordering

  /** The tie rule as its words are read: one of two known rules, an unknown one, or none. */
  datatype TieRule = NotRuled | LeagueOrder | ReverseLeagueOrder | OtherRule(words: string)

  datatype FinalOrder = FinalOrder(waiting: string, worst: seq<string>, level: seq<seq<string>>, league: seq<string>)

  /** Where the list names the franchise, or -1. */
  function Place(list: seq<string>, id: string): (place: int)
    ensures place < 0 <==> id !in list
    ensures place >= 0 ==> place < |list| && list[place] == id && id !in list[..place]
  {
    IndexFunc(list, (x: string) => x == id)
  }

  function Earlier(league: seq<string>): (string, string) -> bool {
    (a: string, b: string) => Place(league, a) <= Place(league, b)
  }

  predicate CanBreak(tie: TieRule) {
    tie.LeagueOrder? || tie.ReverseLeagueOrder?
  }

  /** The group stands in the order the league lists it, or in that order backwards. */
  ghost predicate Ranked(list: seq<string>, league: seq<string>, tie: TieRule) {
    forall i, j :: 0 <= i < j < |list| ==>
      if tie.ReverseLeagueOrder? then Place(league, list[j]) <= Place(league, list[i])
      else Place(league, list[i]) <= Place(league, list[j])
  }

  function Reversed(s: seq<string>): (r: seq<string>)
    ensures |r| == |s|
    ensures forall k :: 0 <= k < |s| ==> r[k] == s[|s| - 1 - k]
    ensures multiset(r) == multiset(s)
  {
    if s == [] then []
    else
      assert s == [s[0]] + s[1..];
      Reversed(s[1..]) + [s[0]]
  }

  method Tied(group: seq<string>, league: seq<string>, tie: TieRule) returns (ordered: Result<seq<string>>)
    ensures ordered.Ok? <==> CanBreak(tie)
    ensures ordered.Ok? ==> multiset(ordered.value) == multiset(group) && |ordered.value| == |group|
    ensures ordered.Ok? ==> Ranked(ordered.value, league, tie)
  {
    if tie.NotRuled? {
      return Refused("Needs a ruling: how a tie in the draft order is broken");
    }
    var sorted := Sort(group, Earlier(league));
    SortAscends(group, Earlier(league));
    assert forall i, j :: 0 <= i < j < |sorted| ==> Earlier(league)(sorted[i], sorted[j]);
    match tie {
      case LeagueOrder => return Ok(sorted);
      case ReverseLeagueOrder => return Ok(Reversed(sorted));
      case OtherRule(_) => return Refused("The app cannot carry out the draft tie rule");
    }
  }

  /** The group fills the list from a place on, in some order. */
  ghost predicate Fills(list: seq<string>, group: seq<string>, first: nat) {
    first + |group| <= |list| && multiset(list[first..first + |group|]) == multiset(group)
  }

  /** The two groups' places do not overlap. */
  predicate Clear(first: nat, size: nat, first': nat, size': nat) {
    first + size <= first' || first' + size' <= first
  }

  /** Level groups stand together in the standings, no two overlapping. */
  ghost predicate Grouped(worst: seq<string>, level: seq<seq<string>>, firsts: seq<nat>) {
    && NoneTwice(worst)
    && |firsts| == |level|
    && (forall g :: 0 <= g < |level| ==> Fills(worst, level[g], firsts[g]))
    && (forall g, h :: 0 <= g < h < |level| ==> Clear(firsts[g], |level[g]|, firsts[h], |level[h]|))
  }

  lemma MemberPlaced(list: seq<string>, group: seq<string>, first: nat, id: string)
    requires NoneTwice(list) && Fills(list, group, first) && id in group
    ensures first <= Place(list, id) < first + |group|
  {
    assert id in multiset(group);
    assert id in list[first..first + |group|];
    var k :| 0 <= k < |group| && list[first..first + |group|][k] == id;
    assert list[first + k] == id;
    var p := Place(list, id);
    assert list[if p >= 0 then p else first + k] == id;
  }

  /** The earliest place of the group's members is where its block begins. */
  method BlockStart(list: seq<string>, group: seq<string>, ghost first: nat) returns (start: nat)
    requires NoneTwice(list) && Fills(list, group, first)
    ensures group != [] ==> start == first
    ensures group == [] ==> start == |list|
  {
    start := |list|;
    for k := 0 to |group|
      invariant start == |list| || first <= start < first + |group|
      invariant forall i :: 0 <= i < k ==> start <= Place(list, group[i])
    {
      MemberPlaced(list, group, first, group[k]);
      if Place(list, group[k]) < start {
        start := Place(list, group[k]);
      }
    }
    if group != [] {
      assert list[first] == list[first..first + |group|][0];
      assert list[first] in multiset(group);
      ghost var k :| 0 <= k < |group| && group[k] == list[first];
      MemberPlaced(list, group, first, list[first]);
      assert Place(list, list[first]) == first;
    }
  }

  ghost predicate Inside(level: seq<seq<string>>, firsts: seq<nat>, n: nat, p: nat)
    requires n <= |level| == |firsts|
  {
    exists g :: 0 <= g < n && firsts[g] <= p < firsts[g] + |level[g]|
  }

  /** Outside the first n groups nothing has moved. */
  ghost predicate OthersStay(now: seq<string>, f: FinalOrder, firsts: seq<nat>, n: nat)
    requires n <= |f.level| == |firsts|
  {
    |now| == |f.worst| && forall p: nat :: p < |now| && !Inside(f.level, firsts, n, p) ==> now[p] == f.worst[p]
  }

  /** The group fills its block in the order the rule gives. */
  ghost predicate InOrder(now: seq<string>, group: seq<string>, first: nat, league: seq<string>, tie: TieRule) {
    Fills(now, group, first) && Ranked(now[first..first + |group|], league, tie)
  }

  /** The first n groups stand as the rule orders them and nothing else has moved. */
  ghost predicate Settled(now: seq<string>, f: FinalOrder, firsts: seq<nat>, n: nat, tie: TieRule)
    requires n <= |f.level| == |firsts|
  {
    && multiset(now) == multiset(f.worst)
    && OthersStay(now, f, firsts, n)
    && forall g :: 0 <= g < n ==> InOrder(now, f.level[g], firsts[g], f.league, tie)
  }

  /** The list written over the longer one from a place on. */
  function Spliced(s: seq<string>, first: nat, list: seq<string>): (out: seq<string>)
    requires first + |list| <= |s|
    ensures |out| == |s|
    ensures forall p :: 0 <= p < |s| ==> out[p] == if first <= p < first + |list| then list[p - first] else s[p]
  {
    s[..first] + list + s[first + |list|..]
  }

  lemma BlocksReplaced(before: seq<string>, first: nat, block: seq<string>)
    requires first + |block| <= |before| && multiset(before[first..first + |block|]) == multiset(block)
    ensures multiset(Spliced(before, first, block)) == multiset(before)
  {
    assert before == before[..first] + before[first..first + |block|] + before[first + |block|..];
  }

  lemma SameBlock(a: seq<string>, b: seq<string>, first: nat, size: nat)
    requires |a| == |b| && first + size <= |a| && forall p :: first <= p < first + size ==> a[p] == b[p]
    ensures a[first..first + size] == b[first..first + size]
  {
  }

  /** The next group's block is still as the standings left it. */
  lemma NextUntouched(now: seq<string>, f: FinalOrder, firsts: seq<nat>, n: nat, tie: TieRule)
    requires Grouped(f.worst, f.level, firsts) && n < |f.level| && Settled(now, f, firsts, n, tie)
    ensures NoneTwice(now) && Fills(now, f.level[n], firsts[n])
  {
    ReorderedNoneTwice(f.worst, now);
    var first, size := firsts[n], |f.level[n]|;
    assert Fills(f.worst, f.level[n], first);
    forall p | first <= p < first + size ensures now[p] == f.worst[p] {
      forall g | 0 <= g < n ensures !(firsts[g] <= p < firsts[g] + |f.level[g]|) {
        assert Clear(firsts[g], |f.level[g]|, first, size);
      }
      assert !Inside(f.level, firsts, n, p);
    }
    SameBlock(now, f.worst, first, size);
  }

  lemma BlockKeeps(now: seq<string>, first: nat, ordered: seq<string>, group: seq<string>, at: nat, league: seq<string>,
                   tie: TieRule)
    requires first + |ordered| <= |now| && Clear(at, |group|, first, |ordered|)
    requires InOrder(now, group, at, league, tie)
    ensures InOrder(Spliced(now, first, ordered), group, at, league, tie)
  {
    SameBlock(Spliced(now, first, ordered), now, at, |group|);
  }

  lemma BlockTakes(now: seq<string>, first: nat, ordered: seq<string>, group: seq<string>, league: seq<string>,
                   tie: TieRule)
    requires first + |ordered| <= |now| && |ordered| == |group|
    requires multiset(ordered) == multiset(group) && Ranked(ordered, league, tie)
    ensures InOrder(Spliced(now, first, ordered), group, first, league, tie)
  {
    assert Spliced(now, first, ordered)[first..first + |group|] == ordered;
  }

  lemma OutsideKeeps(now: seq<string>, f: FinalOrder, firsts: seq<nat>, n: nat, ordered: seq<string>)
    requires n < |f.level| == |firsts| && OthersStay(now, f, firsts, n)
    requires |ordered| == |f.level[n]| && firsts[n] + |ordered| <= |now|
    ensures OthersStay(Spliced(now, firsts[n], ordered), f, firsts, n + 1)
  {
    forall p: nat | p < |now| && !Inside(f.level, firsts, n + 1, p)
      ensures Spliced(now, firsts[n], ordered)[p] == f.worst[p]
    {
      assert !(firsts[n] <= p < firsts[n] + |f.level[n]|);
      assert !Inside(f.level, firsts, n, p);
    }
  }

  lemma BlocksStand(now: seq<string>, f: FinalOrder, firsts: seq<nat>, n: nat, tie: TieRule, ordered: seq<string>)
    requires Grouped(f.worst, f.level, firsts) && n < |f.level| && firsts[n] + |ordered| <= |now|
    requires |ordered| == |f.level[n]| && multiset(ordered) == multiset(f.level[n]) && Ranked(ordered, f.league, tie)
    requires forall g :: 0 <= g < n ==> InOrder(now, f.level[g], firsts[g], f.league, tie)
    ensures forall g :: 0 <= g < n + 1 ==>
      InOrder(Spliced(now, firsts[n], ordered), f.level[g], firsts[g], f.league, tie)
  {
    forall g | 0 <= g < n + 1 ensures InOrder(Spliced(now, firsts[n], ordered), f.level[g], firsts[g], f.league, tie) {
      if g < n {
        assert Clear(firsts[g], |f.level[g]|, firsts[n], |f.level[n]|);
        BlockKeeps(now, firsts[n], ordered, f.level[g], firsts[g], f.league, tie);
      } else {
        BlockTakes(now, firsts[n], ordered, f.level[n], f.league, tie);
      }
    }
  }

  lemma OneMoreSettled(now: seq<string>, f: FinalOrder, firsts: seq<nat>, n: nat, tie: TieRule, ordered: seq<string>)
    requires Grouped(f.worst, f.level, firsts) && n < |f.level| && Settled(now, f, firsts, n, tie)
    requires multiset(ordered) == multiset(f.level[n]) && |ordered| == |f.level[n]| && Ranked(ordered, f.league, tie)
    requires firsts[n] + |ordered| <= |now|
    ensures Settled(Spliced(now, firsts[n], ordered), f, firsts, n + 1, tie)
  {
    NextUntouched(now, f, firsts, n, tie);
    BlocksReplaced(now, firsts[n], ordered);
    OutsideKeeps(now, f, firsts, n, ordered);
    BlocksStand(now, f, firsts, n, tie, ordered);
  }

  lemma NothingSpliced(s: seq<string>, first: nat, first': nat)
    requires first <= |s| && first' <= |s|
    ensures Spliced(s, first, []) == Spliced(s, first', [])
  {
  }

  /** Round one is a reordering of the standings that moves franchises only within their level group, and each
      group stands in the order the rule gives. Without level groups any rule will do, even none. */
  method Order(f: FinalOrder, tie: TieRule, ghost firsts: seq<nat>) returns (out: Result<seq<string>>)
    requires Grouped(f.worst, f.level, firsts)
    ensures out.Ok? <==> f.waiting == "" && (f.level == [] || CanBreak(tie))
    ensures out.Ok? ==> Settled(out.value, f, firsts, |f.level|, tie)
  {
    if f.waiting != "" {
      return Refused(f.waiting);
    }
    var a := new string[|f.worst|](i requires 0 <= i < |f.worst| => f.worst[i]);
    assert a[..] == f.worst;
    for g := 0 to |f.level|
      invariant Settled(a[..], f, firsts, g, tie)
      invariant g > 0 ==> CanBreak(tie)
    {
      var group := f.level[g];
      var ordered :- Tied(group, f.league, tie);
      NextUntouched(a[..], f, firsts, g, tie);
      var first := BlockStart(a[..], group, firsts[g]);
      OneMoreSettled(a[..], f, firsts, g, tie, ordered);
      if group == [] {
        NothingSpliced(a[..], first, firsts[g]);
      }
      Overwrite(a, first, ordered);
    }
    return Ok(a[..]);
  }

  /** Copies the list over the array from a place on. */
  method Overwrite(a: array<string>, first: nat, list: seq<string>)
    requires first + |list| <= a.Length
    modifies a
    ensures a[..] == Spliced(old(a[..]), first, list)
  {
    for k := 0 to |list|
      invariant forall p :: 0 <= p < a.Length ==>
        a[p] == if first <= p < first + k then list[p - first] else old(a[p])
    {
      a[first + k] := list[k];
    }
  }
}
