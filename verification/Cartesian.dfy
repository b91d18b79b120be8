/** What the cartesian generator of auth_server/authz/acl.go has to enumerate, and what its recursion emits. */
module Cartesian {

  // ---------------------------------------------------------------- the product, by index arithmetic

  function Size<T>(sets: seq<seq<T>>): nat {
    if sets == [] then 1 else |sets[0]| * Size(sets[1..])
  }

  /** `iv` chooses one position in every set. */
  predicate IsChoice<T>(sets: seq<seq<T>>, iv: seq<nat>) {
    |iv| == |sets| && forall k :: 0 <= k < |iv| ==> iv[k] < |sets[k]|
  }

  function Pick<T>(sets: seq<seq<T>>, iv: seq<nat>): (tuple: seq<T>)
    requires IsChoice(sets, iv)
    ensures |tuple| == |sets|
    ensures forall k :: 0 <= k < |sets| ==> tuple[k] == sets[k][iv[k]]
  {
    if sets == [] then [] else [sets[0][iv[0]]] + Pick(sets[1..], iv[1..])
  }

  /** Place of a choice in lexicographic order: the value of `iv` read as a mixed-radix numeral. */
  function Rank<T>(sets: seq<seq<T>>, iv: seq<nat>): nat
    requires IsChoice(sets, iv)
  {
    if sets == [] then 0 else iv[0] * Size(sets[1..]) + Rank(sets[1..], iv[1..])
  }

  lemma {:induction false} RankInRange<T>(sets: seq<seq<T>>, iv: seq<nat>)
    requires IsChoice(sets, iv)
    ensures Rank(sets, iv) < Size(sets)
  {
    if sets != [] {
      RankInRange(sets[1..], iv[1..]);
      var n := Size(sets[1..]);
      assert iv[0] * n + n == (iv[0] + 1) * n <= |sets[0]| * n;
    }
  }

  lemma QuotientInRange(r: nat, m: nat, n: nat)
    requires n > 0 && r < m * n
    ensures r / n < m
    ensures r == r / n * n + r % n
  {
    var q := r / n;
    assert (q - m) * n == q * n - m * n;
  }

  /** Every place below `Size` is the rank of a choice. */
  lemma {:induction false} Unrank<T>(sets: seq<seq<T>>, r: nat) returns (iv: seq<nat>)
    requires r < Size(sets)
    ensures IsChoice(sets, iv) && Rank(sets, iv) == r
  {
    if sets == [] {
      iv := [];
    } else {
      var n := Size(sets[1..]);
      var rest := Unrank(sets[1..], r % n);
      assert n > 0;
      QuotientInRange(r, |sets[0]|, n);
      iv := [r / n] + rest;
      assert iv[1..] == rest;
    }
  }

  /** `iv` comes before `jv`: they agree up to some position where `iv` is smaller. */
  ghost predicate LexBefore(iv: seq<nat>, jv: seq<nat>) {
    exists k :: 0 <= k < |iv| && k < |jv| && iv[..k] == jv[..k] && iv[k] < jv[k]
  }

  lemma {:induction false} RankIsLexicographic<T>(sets: seq<seq<T>>, iv: seq<nat>, jv: seq<nat>)
    requires IsChoice(sets, iv) && IsChoice(sets, jv) && LexBefore(iv, jv)
    ensures Rank(sets, iv) < Rank(sets, jv)
  {
    var k :| 0 <= k < |iv| && iv[..k] == jv[..k] && iv[k] < jv[k];
    if k == 0 {
      RankInRange(sets[1..], iv[1..]);
      LeadingDigit(iv[0], jv[0], Size(sets[1..]), Rank(sets[1..], iv[1..]));
    } else {
      var i', j' := iv[1..], jv[1..];
      assert iv[0] == iv[..k][0] == jv[..k][0] == jv[0];
      assert i'[..k - 1] == iv[..k][1..] && j'[..k - 1] == jv[..k][1..];
      assert i'[k - 1] < j'[k - 1];
      assert LexBefore(i', j');
      RankIsLexicographic(sets[1..], i', j');
    }
  }

  lemma LeadingDigit(a: nat, b: nat, n: nat, low: nat)
    requires a < b && low < n
    ensures a * n + low < b * n
  {
    var d: nat := b - a - 1;
    assert b == a + 1 + d;
    assert b * n == a * n + n + d * n;
    assert d * n >= 0;
  }

  // ---------------------------------------------------------------- what the recursion emits

  /** The tuples `iterate` sends for a prefix already chosen, the set at hand and the sets still to unpack. */
  function Emit<T>(prefix: seq<T>, top: seq<T>, need: seq<seq<T>>): (tuples: seq<seq<T>>)
    decreases |need|, |top| + 1
  {
    if top == [] then [] else Branch(prefix + [top[0]], need) + Emit(prefix, top[1..], need)
  }

  /** The tuples that start with the given prefix. */
  function Branch<T>(prefix: seq<T>, need: seq<seq<T>>): (tuples: seq<seq<T>>)
    decreases |need|, 0
  {
    if need == [] then [prefix] else Emit(prefix, need[0], need[1..])
  }

  /** What a caller of `IterWithContext` is sent if it never cancels: without sets the channel is closed at once. */
  function Product<T>(sets: seq<seq<T>>): (tuples: seq<seq<T>>) {
    if sets == [] then [] else Emit([], sets[0], sets[1..])
  }

  lemma {:induction false} EmitSize<T>(prefix: seq<T>, top: seq<T>, need: seq<seq<T>>)
    ensures |Emit(prefix, top, need)| == |top| * Size(need)
    decreases |need|, |top| + 1
  {
    if top != [] {
      BranchSize(prefix + [top[0]], need);
      EmitSize(prefix, top[1..], need);
      assert |top| * Size(need) == Size(need) + (|top| - 1) * Size(need);
    }
  }

  lemma {:induction false} BranchSize<T>(prefix: seq<T>, need: seq<seq<T>>)
    ensures |Branch(prefix, need)| == Size(need)
    decreases |need|, 0
  {
    if need != [] { EmitSize(prefix, need[0], need[1..]); }
  }

  /** `Emit` is the branches of its members, one after the other. */
  lemma {:induction false} EmitAt<T>(prefix: seq<T>, top: seq<T>, need: seq<seq<T>>, i: nat, r: nat)
    requires i < |top| && r < Size(need)
    ensures i * Size(need) + r < |Emit(prefix, top, need)|
    ensures |Branch(prefix + [top[i]], need)| == Size(need)
    ensures Emit(prefix, top, need)[i * Size(need) + r] == Branch(prefix + [top[i]], need)[r]
    decreases i
  {
    var n := Size(need);
    EmitSize(prefix, top, need);
    BranchSize(prefix + [top[0]], need);
    BranchSize(prefix + [top[i]], need);
    LeadingDigit(i, |top|, n, r);
    if i > 0 {
      EmitAt(prefix, top[1..], need, i - 1, r);
      assert (i - 1) * n + r == i * n + r - n;
    }
  }

  lemma {:induction false} BranchAt<T>(prefix: seq<T>, need: seq<seq<T>>, iv: seq<nat>)
    requires IsChoice(need, iv)
    ensures Rank(need, iv) < |Branch(prefix, need)|
    ensures Branch(prefix, need)[Rank(need, iv)] == prefix + Pick(need, iv)
    decreases |need|
  {
    if need != [] {
      var rest, jv := need[1..], iv[1..];
      RankInRange(rest, jv);
      EmitAt(prefix, need[0], rest, iv[0], Rank(rest, jv));
      BranchAt(prefix + [need[0][iv[0]]], rest, jv);
      assert prefix + [need[0][iv[0]]] + Pick(rest, jv) == prefix + Pick(need, iv);
    }
  }

  /** The sent tuples are exactly the cartesian product: as many as the sizes multiply to, and at every
      lexicographic place the tuple chosen there. */
  lemma ProductIsCartesian<T>(sets: seq<seq<T>>)
    requires sets != []
    ensures |Product(sets)| == Size(sets)
    ensures forall iv :: IsChoice(sets, iv) ==>
      Rank(sets, iv) < |Product(sets)| && Product(sets)[Rank(sets, iv)] == Pick(sets, iv)
  {
    BranchSize([], sets);
    forall iv | IsChoice(sets, iv)
      ensures Rank(sets, iv) < |Product(sets)| && Product(sets)[Rank(sets, iv)] == Pick(sets, iv)
    {
      BranchAt([], sets, iv);
      assert [] + Pick(sets, iv) == Pick(sets, iv);
    }
  }

  /** A tuple is sent iff it takes one member of every set. */
  lemma ProductMembers<T>(sets: seq<seq<T>>, tuple: seq<T>)
    requires sets != []
    ensures tuple in Product(sets) <==> |tuple| == |sets| && forall k :: 0 <= k < |sets| ==> tuple[k] in sets[k]
  {
    ProductIsCartesian(sets);
    if tuple in Product(sets) {
      var r :| 0 <= r < |Product(sets)| && Product(sets)[r] == tuple;
      var iv := Unrank(sets, r);
    }
    if |tuple| == |sets| && forall k :: 0 <= k < |sets| ==> tuple[k] in sets[k] {
      var iv := Positions(sets, tuple);
      assert Pick(sets, iv) == tuple;
      assert Product(sets)[Rank(sets, iv)] == tuple;
    }
  }

  lemma {:induction false} Positions<T>(sets: seq<seq<T>>, tuple: seq<T>) returns (iv: seq<nat>)
    requires |tuple| == |sets| && forall k :: 0 <= k < |sets| ==> tuple[k] in sets[k]
    ensures IsChoice(sets, iv) && forall k :: 0 <= k < |sets| ==> sets[k][iv[k]] == tuple[k]
  {
    if sets == [] {
      iv := [];
    } else {
      var rest := Positions(sets[1..], tuple[1..]);
      var i :| 0 <= i < |sets[0]| && sets[0][i] == tuple[0];
      iv := [i] + rest;
    }
  }
}
