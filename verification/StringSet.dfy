/** auth_server/authz/set.go: intersection of two lists of strings, as a sorted list. */
module StringSet {
  import opened GoStrings

  /** The strictly increasing list of what both lists hold. */
  ghost predicate IsIntersection(d: seq<string>, a: seq<string>, b: seq<string>) {
    && StrictlySorted(d)
    && forall x :: x in d <==> x in a && x in b
  }

  /** There is only one such list, so neither the order nor the repetitions of the inputs can show in it. */
  lemma IntersectionIsUnique(d: seq<string>, d': seq<string>, a: seq<string>, b: seq<string>, a': seq<string>, b': seq<string>)
    requires IsIntersection(d, a, b) && IsIntersection(d', a', b')
    requires forall x :: x in a && x in b <==> x in a' && x in b'
    ensures d == d'
  {
    StrictlySortedUnique(d, d');
  }

  lemma {:induction false} StrictlySortedUnique(d: seq<string>, e: seq<string>)
    requires StrictlySorted(d) && StrictlySorted(e)
    requires forall x :: x in d <==> x in e
    ensures d == e
  {
    assert d != [] ==> d[0] in e;
    assert e != [] ==> e[0] in d;
    if d != [] {
      LeastFirst(d, e[0]);
      LeastFirst(e, d[0]);
      LessEqAntisymmetric(d[0], e[0]);
      forall x ensures x in d[1..] <==> x in e[1..] {
        InTail(d, x);
        InTail(e, x);
      }
      StrictlySortedUnique(d[1..], e[1..]);
      assert d == [d[0]] + d[1..] && e == [e[0]] + e[1..];
    }
  }

  lemma LeastFirst(d: seq<string>, x: string)
    requires StrictlySorted(d) && x in d
    ensures LessEq(d[0], x)
  {
    LessEqTotal(x, x);
    var i :| 0 <= i < |d| && d[i] == x;
  }

  lemma InTail(d: seq<string>, x: string)
    requires StrictlySorted(d) && d != []
    ensures x in d[1..] <==> x in d && x != d[0]
  {
    if x in d[1..] {
      var i :| 0 <= i < |d[1..]| && d[1..][i] == x;
      assert Less(d[0], d[i + 1]);
    }
  }

  /** Distinct strings stay distinct when sorted, so the order is strict. */
  lemma SortOfDistinct(s: seq<string>)
    requires forall i, j :: 0 <= i < j < |s| ==> s[i] != s[j]
    ensures StrictlySorted(Sort(s))
  {
    var r := Sort(s);
    SortSorts(s);
    forall i, j | 0 <= i < j < |r| ensures Less(r[i], r[j]) {
      if r[i] == r[j] {
        CountedTwice(r, i, j);
        OnceOnly(s, r[i]);
      }
    }
  }

  lemma CountedTwice(r: seq<string>, i: nat, j: nat)
    requires i < j < |r| && r[i] == r[j]
    ensures multiset(r)[r[i]] >= 2
  {
    assert r[..j] + r[j..] == r;
    assert r[..j][i] in multiset(r[..j]) && r[j..][0] in multiset(r[j..]);
  }

  lemma {:induction false} OnceOnly(s: seq<string>, x: string)
    requires forall i, j :: 0 <= i < j < |s| ==> s[i] != s[j]
    ensures multiset(s)[x] <= 1
  {
    if s != [] {
      assert s == [s[0]] + s[1..];
      OnceOnly(s[1..], x);
      if s[0] == x { assert x !in s[1..]; }
    }
  }

  function Common(a: seq<string>, b: seq<string>): (c: seq<string>)
    ensures forall x :: x in c <==> x in a && x in b
    ensures forall i, j :: 0 <= i < j < |c| ==> c[i] != c[j]
  {
    if a == [] then []
    else
      var rest := Common(a[1..], b);
      if a[0] in b && a[0] !in rest then [a[0]] + rest else rest
  }

  /** The intersection as a function; `IntersectionIsUnique` says it is the only one. */
  function Intersection(a: seq<string>, b: seq<string>): (d: seq<string>)
    ensures IsIntersection(d, a, b)
  {
    SortOfDistinct(Common(a, b));
    MembersOfSort(Common(a, b));
    Sort(Common(a, b))
  }

  lemma StrictlySortedIsSorted(d: seq<string>)
    requires StrictlySorted(d)
    ensures Sorted(d)
  {
  }

  method MakeSet(ss: seq<string>) returns (s: set<string>)
    ensures forall x :: x in s <==> x in ss
  {
    s := {};
    for i := 0 to |ss|
      invariant forall x :: x in s <==> x in ss[..i]
    {
      s := s + {ss[i]};
    }
  }

  /** `StringSetIntersection`, with the set iterated in whatever order it likes; the result is a new slice. */
  method StringSetIntersection(a: seq<string>, b: seq<string>) returns (d: array<string>)
    ensures fresh(d)
    ensures IsIntersection(d[..], a, b)
    ensures d[..] == Intersection(a, b)
  {
    var xs := MakeSet(a);
    var ys := MakeSet(b);
    var todo := xs * ys;
    var found: seq<string> := [];
    while todo != {}
      invariant forall x :: x in xs * ys <==> x in found || x in todo
      invariant forall x :: x in found ==> x !in todo
      invariant forall i, j :: 0 <= i < j < |found| ==> found[i] != found[j]
    {
      var x :| x in todo;
      todo := todo - {x};
      found := found + [x];
    }
    d := new string[|found|](i requires 0 <= i < |found| => found[i]);
    assert d[..] == found;
    SortOfDistinct(found);
    MembersOfSort(found);
    SortStrings(d);
    IntersectionIsUnique(d[..], Intersection(a, b), a, b, a, b);
  }
}
