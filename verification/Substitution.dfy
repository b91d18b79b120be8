/** Placeholder substitution: `strings.NewReplacer(vars...).Replace(pattern)` as auth_server/authz/acl.go
    uses it. The text is read once from left to right; at each place the first pair, in argument order, whose
    old string starts there is replaced, and replacements never overlap. */
module Substitution {
  import opened GoStrings

  /** An old string; the server never looks for the empty one. */
  type Key = k: string | k != "" witness "$"

  datatype Var = Var(key: Key, value: string)

  /** The pair that applies where `text` starts. */
  function FirstAt(text: string, vars: seq<Var>): (hit: Option<Var>)
    ensures hit.Some? ==> hit.value in vars && hit.value.key <= text
    ensures hit.None? ==> forall v :: v in vars ==> !(v.key <= text)
  {
    if vars == [] then None
    else if vars[0].key <= text then Some(vars[0])
    else FirstAt(text, vars[1..])
  }

  function Replace(text: string, vars: seq<Var>): string
    decreases |text|
  {
    if text == "" then ""
    else
      match FirstAt(text, vars)
      case None => [text[0]] + Replace(text[1..], vars)
      case Some(v) => v.value + Replace(text[|v.key|..], vars)
  }

  // ---------------------------------------------------------------- one reading of the text

  datatype Token = Lit(c: char) | Hole(i: nat)

  /** `tokens` is the reading of `text` under the given old strings: they alone decide it. */
  ghost predicate Reads(text: string, keys: seq<Key>, tokens: seq<Token>)
    decreases |tokens|
  {
    if tokens == [] then text == ""
    else
      match tokens[0]
      case Lit(c) =>
        && text != "" && text[0] == c
        && (forall j :: 0 <= j < |keys| ==> !(keys[j] <= text))
        && Reads(text[1..], keys, tokens[1..])
      case Hole(i) =>
        && i < |keys| && keys[i] <= text
        && (forall j :: 0 <= j < i ==> !(keys[j] <= text))
        && Reads(text[|keys[i]|..], keys, tokens[1..])
  }

  /** The tokens spelled out, with the given strings in the holes. */
  function Render(tokens: seq<Token>, fill: seq<string>): string
    requires forall t :: t in tokens && t.Hole? ==> t.i < |fill|
  {
    if tokens == [] then ""
    else (match tokens[0] case Lit(c) => [c] case Hole(i) => fill[i]) + Render(tokens[1..], fill)
  }

  function Keys(vars: seq<Var>): (keys: seq<Key>)
    ensures |keys| == |vars| && forall i :: 0 <= i < |vars| ==> keys[i] == vars[i].key
  {
    seq(|vars|, i requires 0 <= i < |vars| => vars[i].key)
  }

  function Values(vars: seq<Var>): (values: seq<string>)
    ensures |values| == |vars| && forall i :: 0 <= i < |vars| ==> values[i] == vars[i].value
  {
    seq(|vars|, i requires 0 <= i < |vars| => vars[i].value)
  }

  lemma {:induction false} FirstIndex(text: string, vars: seq<Var>) returns (i: nat)
    requires FirstAt(text, vars).Some?
    ensures i < |vars| && vars[i] == FirstAt(text, vars).value
    ensures forall j :: 0 <= j < i ==> !(vars[j].key <= text)
  {
    if vars[0].key <= text {
      i := 0;
    } else {
      var k := FirstIndex(text, vars[1..]);
      i := k + 1;
      forall j | 0 <= j < i ensures !(vars[j].key <= text) {
        if j > 0 { assert vars[j] == vars[1..][j - 1]; }
      }
    }
  }

  lemma {:induction false} ReadingExists(text: string, vars: seq<Var>) returns (tokens: seq<Token>)
    ensures Reads(text, Keys(vars), tokens)
    decreases |text|
  {
    if text == "" {
      tokens := [];
    } else {
      match FirstAt(text, vars)
      case None =>
        var rest := ReadingExists(text[1..], vars);
        tokens := [Lit(text[0])] + rest;
        forall j | 0 <= j < |vars| ensures !(Keys(vars)[j] <= text) { assert vars[j] in vars; }
        assert tokens[1..] == rest;
      case Some(v) =>
        var i := FirstIndex(text, vars);
        var rest := ReadingExists(text[|v.key|..], vars);
        tokens := [Hole(i)] + rest;
        assert tokens[1..] == rest;
    }
  }

  /** Every text has one reading, and rendering it with the old strings gives the text back. */
  lemma {:induction false} ReadingIsUnique(text: string, keys: seq<Key>, a: seq<Token>, b: seq<Token>)
    requires Reads(text, keys, a) && Reads(text, keys, b)
    ensures a == b
    ensures forall t :: t in a && t.Hole? ==> t.i < |keys|
    ensures Render(a, keys) == text
    decreases |a|
  {
    if a != [] {
      assert b != [];
      assert a == [a[0]] + a[1..] && b == [b[0]] + b[1..];
      match a[0]
      case Lit(c) =>
        ReadingIsUnique(text[1..], keys, a[1..], b[1..]);
      case Hole(i) =>
        ReadingIsUnique(text[|keys[i]|..], keys, a[1..], b[1..]);
        assert keys[i] + text[|keys[i]|..] == text;
    }
  }

  /** Substitution is that reading with the new strings in the holes: what is inserted is never read again. */
  lemma {:induction false} ReplaceRendersTheReading(text: string, vars: seq<Var>, tokens: seq<Token>)
    requires Reads(text, Keys(vars), tokens)
    ensures forall t :: t in tokens && t.Hole? ==> t.i < |vars|
    ensures Replace(text, vars) == Render(tokens, Values(vars))
    decreases |tokens|
  {
    if tokens != [] {
      assert tokens == [tokens[0]] + tokens[1..];
      match tokens[0]
      case Lit(c) =>
        forall v | v in vars ensures !(v.key <= text) {
          var j :| 0 <= j < |vars| && vars[j] == v;
          assert !(Keys(vars)[j] <= text);
        }
        ReplaceRendersTheReading(text[1..], vars, tokens[1..]);
      case Hole(i) =>
        assert vars[i] in vars;
        var k := FirstIndex(text, vars);
        assert Keys(vars)[k] == vars[k].key && Keys(vars)[i] == vars[i].key;
        assert k == i;
        ReplaceRendersTheReading(text[|vars[i].key|..], vars, tokens[1..]);
    }
  }

  /** Two lists of pairs with the same old strings read any text alike, whatever is inserted. */
  lemma SubstitutionIsSinglePass(text: string, vars: seq<Var>, vars': seq<Var>) returns (tokens: seq<Token>)
    requires Keys(vars) == Keys(vars')
    ensures forall t :: t in tokens && t.Hole? ==> t.i < |vars|
    ensures Render(tokens, Keys(vars)) == text
    ensures Replace(text, vars) == Render(tokens, Values(vars))
    ensures |vars| == |vars'| && Replace(text, vars') == Render(tokens, Values(vars'))
  {
    assert |vars| == |Keys(vars)| == |Keys(vars')| == |vars'|;
    tokens := ReadingExists(text, vars);
    ReadingIsUnique(text, Keys(vars), tokens, tokens);
    ReplaceRendersTheReading(text, vars, tokens);
    ReplaceRendersTheReading(text, vars', tokens);
  }

  // ---------------------------------------------------------------- when the order of the pairs is irrelevant

  ghost predicate SameVars(p: seq<Var>, q: seq<Var>) {
    forall v :: v in p <==> v in q
  }

  /** No old string begins another. */
  ghost predicate PrefixFree(vars: seq<Var>) {
    forall v, w :: v in vars && w in vars && v.key <= w.key ==> v == w
  }

  lemma {:induction false} FirstAtConcat(text: string, a: seq<Var>, b: seq<Var>)
    ensures FirstAt(text, a + b) == if FirstAt(text, a).Some? then FirstAt(text, a) else FirstAt(text, b)
  {
    if a == [] {
      assert a + b == b;
    } else {
      assert (a + b)[1..] == a[1..] + b;
      FirstAtConcat(text, a[1..], b);
    }
  }

  lemma SamePairApplies(text: string, p: seq<Var>, q: seq<Var>)
    requires SameVars(p, q) && PrefixFree(p)
    ensures FirstAt(text, p) == FirstAt(text, q)
  {
    var a, b := FirstAt(text, p), FirstAt(text, q);
    if a.Some? && b.Some? {
      PrefixesOfOneText(a.value.key, b.value.key, text);
    }
  }

  lemma PrefixesOfOneText(a: string, b: string, text: string)
    requires a <= text && b <= text
    ensures a <= b || b <= a
  {
    assert a == text[..|a|] && b == text[..|b|];
  }

  /** After a fixed head of pairs, the rest may come in any order if none of its old strings begins another. */
  lemma {:induction false} OrderIsIrrelevant(text: string, head: seq<Var>, p: seq<Var>, q: seq<Var>)
    requires SameVars(p, q) && PrefixFree(p)
    ensures Replace(text, head + p) == Replace(text, head + q)
    decreases |text|
  {
    if text != "" {
      FirstAtConcat(text, head, p);
      FirstAtConcat(text, head, q);
      SamePairApplies(text, p, q);
      match FirstAt(text, head + p)
      case None => OrderIsIrrelevant(text[1..], head, p, q);
      case Some(v) => OrderIsIrrelevant(text[|v.key|..], head, p, q);
    }
  }

  /** A pattern that is exactly one old string becomes that pair's new string. */
  lemma ReplaceWholeKey(head: seq<Var>, v: Var, tail: seq<Var>, rest: string)
    requires forall w :: w in head ==> !(w.key <= v.key + rest)
    ensures Replace(v.key + rest, head + [v] + tail) == v.value + Replace(rest, head + [v] + tail)
  {
    var text := v.key + rest;
    FirstAtConcat(text, head + [v], tail);
    FirstAtConcat(text, head, [v]);
    assert text[..|v.key|] == v.key;
    assert text[|v.key|..] == rest;
  }
}
