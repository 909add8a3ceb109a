/** Facts about lists and the multisets and sets of what they hold. */
module Lists {

  ghost predicate NoneTwice<T>(s: seq<T>) {
    forall i, j :: 0 <= i < j < |s| ==> s[i] != s[j]
  }

  lemma CutAt<T>(s: seq<T>, i: nat)
    requires i < |s|
    ensures s == s[..i] + [s[i]] + s[i + 1..] == s[..i] + ([s[i]] + s[i + 1..])
  {
  }

  lemma CountsTwice<T>(s: seq<T>, i: nat, j: nat)
    requires i < j < |s| && s[i] == s[j]
    ensures multiset(s)[s[i]] >= 2
  {
    assert s == s[..j] + [s[j]] + s[j + 1..];
    assert s[..j][i] == s[i];
    assert multiset(s) == multiset(s[..j]) + multiset{s[j]} + multiset(s[j + 1..]);
    assert s[i] in multiset(s[..j]);
  }

  lemma CountsOnce<T>(s: seq<T>, i: nat)
    requires i < |s| && forall j :: 0 <= j < |s| && j != i ==> s[j] != s[i]
    ensures multiset(s)[s[i]] == 1
  {
    assert s == s[..i] + [s[i]] + s[i + 1..];
    assert multiset(s) == multiset(s[..i]) + multiset{s[i]} + multiset(s[i + 1..]);
    assert s[i] !in s[..i] && s[i] !in s[i + 1..];
    assert s[i] !in multiset(s[..i]) && s[i] !in multiset(s[i + 1..]);
  }

  lemma OnceEach<T>(s: seq<T>, x: T)
    requires NoneTwice(s)
    ensures multiset(s)[x] == if x in s then 1 else 0
  {
    if x in s {
      var i :| 0 <= i < |s| && s[i] == x;
      CountsOnce(s, i);
    } else {
      assert x !in multiset(s);
    }
  }

  /** A reordering of a list that names nothing twice names nothing twice. */
  lemma ReorderedNoneTwice<T>(a: seq<T>, b: seq<T>)
    requires NoneTwice(a) && multiset(b) == multiset(a)
    ensures NoneTwice(b)
  {
    forall i, j | 0 <= i < j < |b| ensures b[i] != b[j] {
      OnceEach(a, b[i]);
      if b[i] == b[j] {
        CountsTwice(b, i, j);
      }
    }
  }

  lemma {:induction false} SubsetCount<T>(a: set<T>, b: set<T>)
    requires a <= b
    ensures |a| <= |b|
    ensures |a| == |b| ==> a == b
  {
    if a != {} {
      var x :| x in a;
      SubsetCount(a - {x}, b - {x});
      assert a == (a - {x}) + {x} && b == (b - {x}) + {x};
    }
  }

  ghost function Members<T>(s: seq<T>): set<T> {
    set k | 0 <= k < |s| :: s[k]
  }

  lemma {:induction false} MembersCount<T>(s: seq<T>)
    requires NoneTwice(s)
    ensures |Members(s)| == |s|
  {
    if s != [] {
      var n := |s| - 1;
      MembersCount(s[..n]);
      assert Members(s) == Members(s[..n]) + {s[n]};
      assert s[n] !in Members(s[..n]);
    }
  }

  /** Naming as many as there are, none twice and none unknown, is naming each exactly once. */
  lemma NamesAll<T>(order: seq<T>, ids: seq<T>)
    requires NoneTwice(ids)
    ensures multiset(order) == multiset(ids) <==>
      |order| == |ids| && NoneTwice(order) && forall k :: 0 <= k < |order| ==> order[k] in ids
  {
    if |order| == |ids| && NoneTwice(order) && forall k :: 0 <= k < |order| ==> order[k] in ids {
      MembersCount(order);
      MembersCount(ids);
      SubsetCount(Members(order), Members(ids));
      forall x ensures multiset(order)[x] == multiset(ids)[x] {
        OnceEach(order, x);
        OnceEach(ids, x);
        assert x in order <==> x in Members(order);
        assert x in ids <==> x in Members(ids);
      }
    }
    if multiset(order) == multiset(ids) {
      ReorderedNoneTwice(ids, order);
      assert |multiset(order)| == |order| && |multiset(ids)| == |ids|;
      forall k | 0 <= k < |order| ensures order[k] in ids {
        assert order[k] in multiset(order);
      }
    }
  }

  /** The elements that pass the test, in the list's order. */
  function Filter<T>(list: seq<T>, test: T -> bool): seq<T> {
    if list == [] then []
    else
      var before, last := Filter(list[..|list| - 1], test), list[|list| - 1];
      if test(last) then before + [last] else before
  }

  lemma {:induction false} FilterParts<T(!new)>(list: seq<T>, yes: T -> bool, no: T -> bool)
    requires forall x :: yes(x) == !no(x)
    ensures multiset(list) == multiset(Filter(list, yes)) + multiset(Filter(list, no))
  {
    if list != [] {
      var front, last := list[..|list| - 1], list[|list| - 1];
      FilterParts(front, yes, no);
      assert list == front + [last];
      assert Filter(list, if yes(last) then no else yes) == Filter(front, if yes(last) then no else yes);
    }
  }

  lemma {:induction false} FilterPasses<T>(list: seq<T>, test: T -> bool)
    ensures forall x <- Filter(list, test) :: test(x)
  {
    if list != [] {
      FilterPasses(list[..|list| - 1], test);
    }
  }
}
