/** The matcher of auth_server/authz/acl.go: patterns, placeholders, permutations of label values, and the
    match conditions of an ACL entry. */
module Acl {
  import opened GoStrings
  import opened Substitution
  import opened Cartesian
  import Glob
  import Producer

  /** What the matcher asks of code it does not contain. */
  datatype Engines = Engines(
    regex: (string, string) -> bool,  // regexp.Match found a match and compiled the pattern
    network: (string, string) -> bool) // the address lies in the network the pattern names

  datatype Label = Label(name: string, values: seq<string>)

  // ---------------------------------------------------------------- one pattern

  /** A pattern between slashes is a regular expression; any other is a glob. */
  predicate Slashed(p: string) {
    |p| > 2 && p[0] == '/' && p[|p| - 1] == '/'
  }

  predicate MatchText(p: string, s: string, eng: Engines) {
    if Slashed(p) then eng.regex(p[1..|p| - 1], s) else Glob.Match(p, s)
  }

  /** `matchString`; a condition that is absent matches everything. */
  predicate MatchString(pp: Option<string>, s: string, vars: seq<Var>, eng: Engines) {
    pp.Some? ==> MatchText(Replace(pp.value, vars), s, eng)
  }

  // ---------------------------------------------------------------- permutations of label values

  const LABEL_PREFIX := "${labels:"

  function Placeholder(name: string): Key {
    LABEL_PREFIX + name + "}"
  }

  predicate Contains(text: string, part: string) {
    part <= text || (text != "" && Contains(text[1..], part))
  }

  /** The text has the part somewhere in it. */
  ghost predicate Mentions(text: string, part: string) {
    exists pre, post :: text == pre + part + post
  }

  lemma {:induction false} ContainsIff(text: string, part: string)
    ensures Contains(text, part) <==> Mentions(text, part)
  {
    if part <= text {
      assert text == "" + part + text[|part|..];
    } else if text != "" {
      ContainsIff(text[1..], part);
      MentionsLater(text, part);
    }
  }

  lemma MentionsLater(text: string, part: string)
    requires text != "" && !(part <= text)
    ensures Mentions(text, part) <==> Mentions(text[1..], part)
  {
    if Mentions(text[1..], part) {
      var pre, post :| text[1..] == pre + part + post;
      assert text == ([text[0]] + pre) + part + post;
    }
    if Mentions(text, part) {
      var pre, post :| text == pre + part + post;
      assert pre == "" ==> text == part + post;
      assert text[1..] == pre[1..] + part + post;
    }
  }

  predicate Occurs(pattern: string, l: Label) {
    Contains(pattern, Placeholder(l.name))
  }

  function LabelSet(l: Label): (r: seq<Var>)
    ensures |r| == |l.values|
    ensures forall i :: 0 <= i < |r| ==> r[i] == Var(Placeholder(l.name), l.values[i])
  {
    seq(|l.values|, i requires 0 <= i < |l.values| => Var(Placeholder(l.name), l.values[i]))
  }

  /** The labels whose placeholder occurs in the pattern. */
  function Used(pattern: string, labels: seq<Label>): (r: seq<Label>)
    ensures forall l :: l in r <==> l in labels && Occurs(pattern, l)
  {
    if labels == [] then []
    else (if Occurs(pattern, labels[0]) then [labels[0]] else []) + Used(pattern, labels[1..])
  }

  /** The labels whose placeholder the pattern mentions, wherever in it. */
  ghost function Mentioned(pattern: string, labels: seq<Label>): (r: seq<Label>)
    ensures forall l :: l in r <==> l in labels && Mentions(pattern, Placeholder(l.name))
  {
    if labels == [] then []
    else (if Mentions(pattern, Placeholder(labels[0].name)) then [labels[0]] else []) + Mentioned(pattern, labels[1..])
  }

  lemma {:induction false} UsedIsMentioned(pattern: string, labels: seq<Label>)
    ensures Used(pattern, labels) == Mentioned(pattern, labels)
  {
    if labels != [] {
      ContainsIff(pattern, Placeholder(labels[0].name));
      UsedIsMentioned(pattern, labels[1..]);
    }
  }

  function LabelSets(used: seq<Label>): (r: seq<seq<Var>>)
    ensures |r| == |used|
    ensures forall i :: 0 <= i < |r| ==> r[i] == LabelSet(used[i])
  {
    seq(|used|, i requires 0 <= i < |used| => LabelSet(used[i]))
  }

  /** The verdict of `matchStringWithLabelPermutations` with the label map iterated in the order of `labels`. */
  predicate MatchWithLabels(pp: Option<string>, s: string, vars: seq<Var>, labels: seq<Label>, eng: Engines) {
    || MatchString(pp, s, vars, eng)
    || exists t :: t in Product(LabelSets(Used(pp.value, labels))) && TupleMatches(pp, s, vars, t, eng)
  }

  /** What the labels from place `i` on contribute. */
  function SetsFrom(pattern: string, labels: seq<Label>, i: nat): seq<seq<Var>>
    requires i <= |labels|
  {
    LabelSets(Used(pattern, labels[i..]))
  }

  lemma SetsFromStep(pattern: string, labels: seq<Label>, i: nat)
    requires i < |labels|
    ensures SetsFrom(pattern, labels, i) ==
      (if Occurs(pattern, labels[i]) then [LabelSet(labels[i])] else []) + SetsFrom(pattern, labels, i + 1)
  {
    assert labels[i..][1..] == labels[i + 1..];
  }

  lemma MoveOver<T>(done: seq<T>, x: seq<T>, rest: seq<T>, all: seq<T>)
    requires done + (x + rest) == all
    ensures (done + x) + rest == all
  {
  }

  method BuildLabelSet(l: Label) returns (labelSet: seq<Var>)
    ensures labelSet == LabelSet(l)
  {
    labelSet := [];
    for j := 0 to |l.values|
      invariant labelSet == LabelSet(l)[..j]
    {
      labelSet := labelSet + [Var(Placeholder(l.name), l.values[j])];
    }
  }

  /** The argument of `IterWithContext`: one list of pairs for every label the pattern mentions. */
  method BuildLabelSets(pattern: string, labels: seq<Label>) returns (labelSets: seq<seq<Var>>)
    ensures labelSets == LabelSets(Used(pattern, labels))
    ensures labelSets == LabelSets(Mentioned(pattern, labels))
  {
    labelSets := [];
    UsedIsMentioned(pattern, labels);
    assert labels[0..] == labels;
    for i := 0 to |labels|
      invariant labelSets + SetsFrom(pattern, labels, i) == LabelSets(Used(pattern, labels))
    {
      SetsFromStep(pattern, labels, i);
      if Contains(pattern, Placeholder(labels[i].name)) {
        var labelSet := BuildLabelSet(labels[i]);
        MoveOver(labelSets, [labelSet], SetsFrom(pattern, labels, i + 1), LabelSets(Used(pattern, labels)));
        labelSets := labelSets + [labelSet];
      }
    }
  }

  predicate TupleMatches(pp: Option<string>, s: string, vars: seq<Var>, tuple: seq<Var>, eng: Engines) {
    MatchString(pp, s, vars + tuple, eng)
  }

  /** The loop over the channel. The goroutine takes its steps until it hands over a tuple or closes the channel; the
      first tuple that matches ends the loop. On the way out the context is cancelled and nobody receives any more. */
  method TryPermutations(pp: Option<string>, s: string, vars: seq<Var>, labelSets: seq<seq<Var>>, eng: Engines)
    returns (matched: bool, ghost run: seq<Producer.Action>, ghost left: Producer.State<Var>)
    ensures matched <==> exists t :: t in Product(labelSets) && TupleMatches(pp, s, vars, t, eng)
    ensures Producer.IsRun(Producer.Start(labelSets), run, left) && left.cancelled && left.gone
  {
    var goroutine := Producer.Start(labelSets);
    run := [];
    Producer.InvAtStart(labelSets);
    matched := false;
    while !goroutine.halted && !matched
      invariant Producer.IsRun(Producer.Start(labelSets), run, goroutine)
      invariant Producer.Inv(goroutine, labelSets) && !goroutine.cancelled && !goroutine.gone
      invariant matched <==> exists t :: t in goroutine.received && TupleMatches(pp, s, vars, t, eng)
      decreases Producer.Work(goroutine)
    {
      var step := Producer.NextStep(goroutine);
      Producer.InvStep(goroutine, step, labelSets);
      Producer.WorkShrinks(goroutine, step);
      Producer.RunExtends(Producer.Start(labelSets), run, goroutine, step);
      run := run + [step];
      goroutine := Producer.Apply(goroutine, step);
      if step.Send? {
        var permutation := goroutine.received[|goroutine.received| - 1];
        matched := TupleMatches(pp, s, vars, permutation, eng);
      }
    }
    Producer.EarlyExitLosesNothing(labelSets, run, goroutine, t => TupleMatches(pp, s, vars, t, eng));
    Producer.RunExtends(Producer.Start(labelSets), run, goroutine, Producer.Cancel);
    var cancelled := Producer.Apply(goroutine, Producer.Cancel);
    Producer.RunExtends(Producer.Start(labelSets), run + [Producer.Cancel], cancelled, Producer.Leave);
    run := run + [Producer.Cancel] + [Producer.Leave];
    left := Producer.Apply(cancelled, Producer.Leave);
  }

  method MatchStringWithLabelPermutations(pp: Option<string>, s: string, vars: seq<Var>, labels: seq<Label>, eng: Engines)
    returns (matched: bool)
    ensures matched <==> MatchWithLabels(pp, s, vars, labels, eng)
  {
    matched := MatchString(pp, s, vars, eng);
    if matched { return; }
    var labelSets := BuildLabelSets(pp.value, labels);
    if |labelSets| > 0 {
      ghost var run, left;
      matched, run, left := TryPermutations(pp, s, vars, labelSets, eng);
    }
  }

  /** In every interleaving of the goroutine, the loop and the cancellation, and wherever they are interrupted, a loop
      that left only on a match, or saw the channel closed, has seen a match iff the verdict is positive. */
  lemma EveryRunGivesTheVerdict(
      pattern: string, s: string, vars: seq<Var>, labels: seq<Label>, eng: Engines,
      run: seq<Producer.Action>, end: Producer.State<Var>)
    requires Producer.IsRun(Producer.Start(LabelSets(Used(pattern, labels))), run, end)
    requires end.cancelled || !end.halted ==> exists t :: t in end.received && TupleMatches(Some(pattern), s, vars, t, eng)
    ensures MatchWithLabels(Some(pattern), s, vars, labels, eng)
       <==> MatchString(Some(pattern), s, vars, eng) || exists t :: t in end.received && TupleMatches(Some(pattern), s, vars, t, eng)
  {
    Producer.EarlyExitLosesNothing(LabelSets(Used(pattern, labels)), run, end, t => TupleMatches(Some(pattern), s, vars, t, eng));
  }

  // ---------------------------------------------------------------- the same verdict, by choice of values

  predicate DistinctNames(labels: seq<Label>) {
    forall i, j :: 0 <= i < j < |labels| ==> labels[i].name != labels[j].name
  }

  /** `choice` picks one value for every label whose placeholder the pattern mentions. */
  ghost predicate IsLabelChoice(choice: map<string, string>, pattern: string, labels: seq<Label>) {
    forall l :: l in labels && Mentions(pattern, Placeholder(l.name)) ==> l.name in choice && choice[l.name] in l.values
  }

  function ChosenVars(choice: map<string, string>, used: seq<Label>): (r: seq<Var>)
    requires forall l :: l in used ==> l.name in choice
    ensures |r| == |used|
    ensures forall i :: 0 <= i < |r| ==> r[i] == Var(Placeholder(used[i].name), choice[used[i].name])
  {
    seq(|used|, i requires 0 <= i < |used| => Var(Placeholder(used[i].name), choice[used[i].name]))
  }

  ghost predicate ChoiceMatches(
    choice: map<string, string>, pattern: string, s: string, vars: seq<Var>, labels: seq<Label>, eng: Engines)
  {
    && IsLabelChoice(choice, pattern, labels)
    && MatchString(Some(pattern), s, vars + ChosenVars(choice, Mentioned(pattern, labels)), eng)
  }

  ghost predicate SomeChoiceMatches(pattern: string, s: string, vars: seq<Var>, labels: seq<Label>, eng: Engines) {
    exists choice: map<string, string> :: ChoiceMatches(choice, pattern, s, vars, labels, eng)
  }

  /** The permutations tried are exactly the choices of one value for every label in the pattern: the verdict
      is positive iff the plain pattern matches or some choice makes it match. A label without values leaves
      no choice to make. */
  lemma PermutationsAreChoices(pattern: string, s: string, vars: seq<Var>, labels: seq<Label>, eng: Engines)
    requires DistinctNames(labels)
    ensures MatchWithLabels(Some(pattern), s, vars, labels, eng)
       <==> MatchString(Some(pattern), s, vars, eng) || SomeChoiceMatches(pattern, s, vars, labels, eng)
  {
    UsedIsMentioned(pattern, labels);
    var used := Mentioned(pattern, labels);
    var sets := LabelSets(used);
    if t :| t in Product(sets) && MatchString(Some(pattern), s, vars + t, eng) {
      ProductMembers(sets, t);
      MentionedIsDistinct(pattern, labels);
      var choice := ChoiceOfTuple(used, t);
      assert ChosenVars(choice, used) == t;
      assert ChoiceMatches(choice, pattern, s, vars, labels, eng);
    }
    if choice: map<string, string> :| ChoiceMatches(choice, pattern, s, vars, labels, eng) {
      var t := ChosenVars(choice, used);
      if used == [] {
        assert vars + t == vars;
      } else {
        forall k | 0 <= k < |sets| ensures t[k] in sets[k] {
          assert used[k] in used;
          var i :| 0 <= i < |used[k].values| && used[k].values[i] == choice[used[k].name];
          assert LabelSet(used[k])[i] == t[k];
        }
        ProductMembers(sets, t);
      }
    }
  }

  lemma {:induction false} MentionedIsDistinct(pattern: string, labels: seq<Label>)
    requires DistinctNames(labels)
    ensures DistinctNames(Mentioned(pattern, labels))
  {
    if labels != [] {
      var rest := Mentioned(pattern, labels[1..]);
      MentionedIsDistinct(pattern, labels[1..]);
      forall l | l in rest ensures l.name != labels[0].name {
        assert l in labels[1..];
      }
    }
  }

  lemma {:induction false} ChoiceOfTuple(used: seq<Label>, t: seq<Var>) returns (choice: map<string, string>)
    requires DistinctNames(used) && |t| == |used|
    requires forall k :: 0 <= k < |used| ==> t[k] in LabelSet(used[k])
    ensures forall k :: 0 <= k < |used| ==>
      used[k].name in choice && choice[used[k].name] == t[k].value && choice[used[k].name] in used[k].values
    ensures forall l :: l in used ==> l.name in choice && choice[l.name] in l.values
    ensures forall k :: 0 <= k < |used| ==> t[k].key == Placeholder(used[k].name)
  {
    if used == [] {
      choice := map[];
    } else {
      var rest := ChoiceOfTuple(used[1..], t[1..]);
      choice := rest[used[0].name := t[0].value];
      forall k | 0 <= k < |used|
        ensures used[k].name in choice && choice[used[k].name] == t[k].value && choice[used[k].name] in used[k].values
        ensures t[k].key == Placeholder(used[k].name)
      {
        if k > 0 { assert used[k] == used[1..][k - 1]; }
      }
    }
  }

  /** The placeholder of `b` begins with that of `a`: the name `b` begins with the name `a` and a closing brace. */
  predicate Clash(a: string, b: string) {
    a + "}" <= b
  }

  lemma PlaceholderBeginsIff(a: string, b: string)
    ensures Placeholder(a) <= Placeholder(b) <==> a == b || Clash(a, b)
  {
    var n := |LABEL_PREFIX|;
    var p, q := a + "}", b + "}";
    assert Placeholder(a) == LABEL_PREFIX + p && Placeholder(b) == LABEL_PREFIX + q;
    assert Placeholder(a)[n..] == p && Placeholder(b)[n..] == q;
    assert Placeholder(a) <= Placeholder(b) <==> p <= q;
    if p <= q && |p| == |q| {
      assert a == p[..|a|] == q[..|b|] == b;
    }
    if p <= q && |p| < |q| {
      assert p == q[..|p|] == b[..|p|];
    }
  }

  lemma ClashNeedsABrace(a: string, b: string)
    requires Clash(a, b)
    ensures '}' in b
  {
    assert b[|a|] == (a + "}")[|a|];
  }

  lemma PlaceholdersDiffer(a: string, b: string)
    requires '}' !in a && '}' !in b
    requires Placeholder(a) <= Placeholder(b)
    ensures a == b
  {
    PlaceholderBeginsIff(a, b);
    if Clash(a, b) { ClashNeedsABrace(a, b); }
  }

  /** No label name, followed by a closing brace, begins another. */
  ghost predicate ClashFree(names: set<string>) {
    forall a, b :: a in names && b in names ==> !Clash(a, b)
  }

  function NamesOf(labels: seq<Label>): set<string> {
    set l | l in labels :: l.name
  }

  /** Two orders of one label map. */
  ghost predicate Reordered(labels: seq<Label>, labels': seq<Label>) {
    DistinctNames(labels) && DistinctNames(labels') && forall l :: l in labels <==> l in labels'
  }

  /** Then the verdict does not depend on the order in which the label map is iterated, whatever other pairs come
      first. */
  lemma ClashFreeOrderIsIrrelevant(pp: Option<string>, s: string, vars: seq<Var>, labels: seq<Label>, labels': seq<Label>, eng: Engines)
    requires Reordered(labels, labels') && ClashFree(NamesOf(labels))
    ensures MatchWithLabels(pp, s, vars, labels, eng) <==> MatchWithLabels(pp, s, vars, labels', eng)
  {
    if pp.Some? {
      PermutationsAreChoices(pp.value, s, vars, labels, eng);
      PermutationsAreChoices(pp.value, s, vars, labels', eng);
      if SomeChoiceMatches(pp.value, s, vars, labels, eng) { ReorderChoice(pp.value, s, vars, labels, labels', eng); }
      if SomeChoiceMatches(pp.value, s, vars, labels', eng) {
        assert NamesOf(labels) == NamesOf(labels');
        ReorderChoice(pp.value, s, vars, labels', labels, eng);
      }
    }
  }

  lemma ReorderChoice(pattern: string, s: string, vars: seq<Var>, labels: seq<Label>, labels': seq<Label>, eng: Engines)
    requires forall l :: l in labels <==> l in labels'
    requires DistinctNames(labels) && ClashFree(NamesOf(labels))
    requires SomeChoiceMatches(pattern, s, vars, labels, eng)
    ensures SomeChoiceMatches(pattern, s, vars, labels', eng)
  {
    var choice: map<string, string> :| ChoiceMatches(choice, pattern, s, vars, labels, eng);
    var used, used' := Mentioned(pattern, labels), Mentioned(pattern, labels');
    var p, q := ChosenVars(choice, used), ChosenVars(choice, used');
    SameChosenVars(choice, used, used');
    SameChosenVars(choice, used', used);
    forall v, w | v in p && w in p && v.key <= w.key ensures v == w {
      var i :| 0 <= i < |p| && p[i] == v;
      var j :| 0 <= j < |p| && p[j] == w;
      assert used[i] in used && used[j] in used;
      assert used[i].name in NamesOf(labels) && used[j].name in NamesOf(labels);
      PlaceholderBeginsIff(used[i].name, used[j].name);
    }
    OrderIsIrrelevant(pattern, vars, p, q);
    assert ChoiceMatches(choice, pattern, s, vars, labels', eng);
  }

  lemma SameChosenVars(choice: map<string, string>, used: seq<Label>, used': seq<Label>)
    requires forall l :: l in used ==> l.name in choice && l in used'
    requires forall l :: l in used' ==> l.name in choice
    ensures forall v :: v in ChosenVars(choice, used) ==> v in ChosenVars(choice, used')
  {
    forall v | v in ChosenVars(choice, used) ensures v in ChosenVars(choice, used') {
      var i :| 0 <= i < |used| && ChosenVars(choice, used)[i] == v;
      assert used[i] in used;
      var j :| 0 <= j < |used'| && used'[j] == used[i];
      assert ChosenVars(choice, used')[j] == v;
    }
  }

  /** When one name and a closing brace do begin another, the verdict does depend on the order, whatever the engines
      and the other labels: the pattern is the longer placeholder, which stands for "y", the shorter one for "x". */
  lemma ClashMakesTheOrderMatter(a: string, b: string, others: seq<Label>, vars: seq<Var>, eng: Engines)
    requires Clash(a, b)
    requires forall l :: l in others ==> l.values != []
    requires forall v :: v in vars ==> !(v.key <= Placeholder(b))
    ensures var x, y := Label(a, ["x"]), Label(b, ["y"]);
      var pp := Some(Placeholder(b));
      MatchWithLabels(pp, "y", vars, [y, x] + others, eng) && !MatchWithLabels(pp, "y", vars, [x, y] + others, eng)
  {
    var x, y := Label(a, ["x"]), Label(b, ["y"]);
    var p := Placeholder(b);
    PlaceholderBeginsIff(a, b);
    assert Contains(p, Placeholder(b));
    assert Contains(p, Placeholder(a));
    var longer := UsedFirst(p, y, [x] + others);
    var shorter := UsedFirst(p, x, [y] + others);
    assert [y] + ([x] + others) == [y, x] + others && [x] + ([y] + others) == [x, y] + others;
    LongerFirst(p, y, longer, vars, eng);
    ShorterFirst(p, x, shorter, vars, eng);
    Untouched(p, vars, eng);
  }

  lemma UsedFirst(pattern: string, l: Label, rest: seq<Label>) returns (used: seq<Label>)
    requires Occurs(pattern, l)
    ensures Used(pattern, [l] + rest) == [l] + used && used == Used(pattern, rest)
  {
    used := Used(pattern, rest);
    assert ([l] + rest)[1..] == rest;
  }

  /** A placeholder none of the pairs begins is left as it is, and is no name. */
  lemma Untouched(p: string, vars: seq<Var>, eng: Engines)
    requires p != "" && p[0] == '$' && forall v :: v in vars ==> !(v.key <= p)
    ensures !MatchString(Some(p), "y", vars, eng)
  {
    FirstAtConcat(p, vars, []);
    var q := Replace(p, vars);
    assert q[0] == '$';
    if Glob.Match(q, "y") { Glob.FirstLiteralCounts(q, "y"); }
  }

  lemma LongerFirst(p: Key, y: Label, used: seq<Label>, vars: seq<Var>, eng: Engines)
    requires Placeholder(y.name) == p && y.values == ["y"]
    requires forall l :: l in used ==> l.values != []
    requires forall v :: v in vars ==> !(v.key <= p)
    ensures exists t :: t in Product(LabelSets([y] + used)) && TupleMatches(Some(p), "y", vars, t, eng)
  {
    var t := FirstChoice(y, used);
    var v := Var(p, "y");
    assert vars + t == vars + [v] + t[1..];
    assert p + "" == p;
    ReplaceWholeKey(vars, v, t[1..], "");
    assert Replace("", vars + t) == "";
    Glob.PlainMatchesOnlyItself("y", "y");
    assert TupleMatches(Some(p), "y", vars, t, eng);
  }

  /** Labels that all have values give a tuple; it starts with the first value of the first. */
  lemma FirstChoice(y: Label, used: seq<Label>) returns (t: seq<Var>)
    requires y.values != [] && forall l :: l in used ==> l.values != []
    ensures t in Product(LabelSets([y] + used))
    ensures t != [] && t[0] == Var(Placeholder(y.name), y.values[0])
  {
    var ls := [y] + used;
    var sets := LabelSets(ls);
    forall k | 0 <= k < |ls| ensures ls[k].values != [] {
      if k > 0 { assert ls[k] == used[k - 1]; }
    }
    t := seq(|ls|, i requires 0 <= i < |ls| => Var(Placeholder(ls[i].name), ls[i].values[0]));
    forall k | 0 <= k < |sets| ensures t[k] in sets[k] {
      assert t[k] == LabelSet(ls[k])[0];
    }
    ProductMembers(sets, t);
  }

  lemma ShorterFirst(p: string, x: Label, used: seq<Label>, vars: seq<Var>, eng: Engines)
    requires Placeholder(x.name) <= p && x.values == ["x"]
    requires forall v :: v in vars ==> !(v.key <= p)
    ensures forall t :: t in Product(LabelSets([x] + used)) ==> !TupleMatches(Some(p), "y", vars, t, eng)
  {
    var sets := LabelSets([x] + used);
    forall t | t in Product(sets) ensures !TupleMatches(Some(p), "y", vars, t, eng) {
      ProductMembers(sets, t);
      assert t[0] in sets[0];
      ShorterReplaced(p, Var(Placeholder(x.name), "x"), t, vars, eng);
    }
  }

  lemma ShorterReplaced(p: string, v: Var, t: seq<Var>, vars: seq<Var>, eng: Engines)
    requires v.key <= p && v.value == "x" && t != [] && t[0] == v
    requires forall w :: w in vars ==> !(w.key <= p)
    ensures !TupleMatches(Some(p), "y", vars, t, eng)
  {
    assert vars + t == vars + [v] + t[1..];
    assert v.key + p[|v.key|..] == p;
    ReplaceWholeKey(vars, v, t[1..], p[|v.key|..]);
    var q := Replace(p, vars + t);
    assert q[0] == 'x';
    if Glob.Match(q, "y") { Glob.FirstLiteralCounts(q, "y"); }
  }

  /** The verdict is the same in every order of the label map, for these names and every assignment of values, every
      pattern and subject. */
  ghost predicate OrderNeverMatters(names: set<string>, vars: seq<Var>, eng: Engines) {
    forall labels, labels', pp, s :: Reordered(labels, labels') && NamesOf(labels) == names ==>
      (MatchWithLabels(pp, s, vars, labels, eng) <==> MatchWithLabels(pp, s, vars, labels', eng))
  }

  lemma LabelsNamed(names: set<string>) returns (labels: seq<Label>)
    ensures DistinctNames(labels) && NamesOf(labels) == names
    ensures forall l :: l in labels ==> l.values != []
  {
    if names == {} {
      labels := [];
    } else {
      var n :| n in names;
      var rest := LabelsNamed(names - {n});
      labels := [Label(n, ["z"])] + rest;
      forall l | l in rest ensures l.name != n { assert l.name in NamesOf(rest); }
      forall m ensures m in NamesOf(labels) <==> m in names {
        if m in names && m != n {
          assert m in NamesOf(rest);
          var l :| l in rest && l.name == m;
          assert l in labels;
        }
        if m == n { assert labels[0] in labels; }
        if m in NamesOf(labels) && m != n {
          var l :| l in labels && l.name == m;
          assert l in rest && m in NamesOf(rest);
        }
      }
    }
  }

  /** Exactly when the iteration order of the label map can never show, under any engines and beside any pairs that are
      not label placeholders: no label name followed by a closing brace begins another. */
  lemma LabelOrderIsIrrelevantIff(names: set<string>, vars: seq<Var>, eng: Engines)
    requires forall v, n :: v in vars && n in names ==> !(v.key <= Placeholder(n))
    ensures OrderNeverMatters(names, vars, eng) <==> ClashFree(names)
  {
    if ClashFree(names) {
      forall labels, labels', pp, s | Reordered(labels, labels') && NamesOf(labels) == names
        ensures MatchWithLabels(pp, s, vars, labels, eng) <==> MatchWithLabels(pp, s, vars, labels', eng)
      {
        ClashFreeOrderIsIrrelevant(pp, s, vars, labels, labels', eng);
      }
    } else {
      var a, b :| a in names && b in names && Clash(a, b);
      ClashShows(names, a, b, vars, eng);
    }
  }

  lemma ClashShows(names: set<string>, a: string, b: string, vars: seq<Var>, eng: Engines)
    requires a in names && b in names && Clash(a, b)
    requires forall v :: v in vars ==> !(v.key <= Placeholder(b))
    ensures !OrderNeverMatters(names, vars, eng)
  {
    var others := LabelsNamed(names - {a, b});
    var x, y := Label(a, ["x"]), Label(b, ["y"]);
    ClashMakesTheOrderMatter(a, b, others, vars, eng);
    TwoOrders(names, a, b, others);
    var ls, ls' := [y, x] + others, [x, y] + others;
    assert Reordered(ls, ls') && NamesOf(ls) == names;
    var pp := Some(Placeholder(b));
    assert MatchWithLabels(pp, "y", vars, ls, eng) && !MatchWithLabels(pp, "y", vars, ls', eng);
  }

  lemma TwoOrders(names: set<string>, a: string, b: string, others: seq<Label>)
    requires a in names && b in names && a != b
    requires DistinctNames(others) && NamesOf(others) == names - {a, b}
    ensures var x, y := Label(a, ["x"]), Label(b, ["y"]);
      Reordered([y, x] + others, [x, y] + others) && NamesOf([y, x] + others) == names
  {
    var x, y := Label(a, ["x"]), Label(b, ["y"]);
    forall l | l in others ensures l.name != a && l.name != b { assert l.name in NamesOf(others); }
    var ls := [y, x] + others;
    assert ls[0] == y && ls[1] == x;
    forall m ensures m in NamesOf(ls) <==> m in names {
      if m in names && m != a && m != b {
        assert m in NamesOf(others);
        var l :| l in others && l.name == m;
        assert l in ls;
      }
      if m in NamesOf(ls) && m != a && m != b {
        var l :| l in ls && l.name == m;
        assert l in others && m in NamesOf(others);
      }
      assert x in ls && y in ls;
    }
  }

  /** In particular it never shows when no label name holds a closing brace. */
  lemma LabelOrderIsIrrelevant(pp: Option<string>, s: string, vars: seq<Var>, labels: seq<Label>, labels': seq<Label>, eng: Engines)
    requires Reordered(labels, labels')
    requires forall l :: l in labels ==> '}' !in l.name
    ensures MatchWithLabels(pp, s, vars, labels, eng) <==> MatchWithLabels(pp, s, vars, labels', eng)
  {
    forall a, b | a in NamesOf(labels) && b in NamesOf(labels) ensures !Clash(a, b) {
      if Clash(a, b) { ClashNeedsABrace(a, b); }
    }
    ClashFreeOrderIsIrrelevant(pp, s, vars, labels, labels', eng);
  }

  /** The smallest case in which it does. */
  lemma BracesMakeTheOrderMatter(eng: Engines)
    ensures var a, b := Label("a", ["x"]), Label("a}b", ["y"]);
      var pp := Some("${labels:a}b}");
      MatchWithLabels(pp, "y", [], [b, a], eng) && !MatchWithLabels(pp, "y", [], [a, b], eng)
  {
    assert "a" + "}" <= "a}b" && Placeholder("a}b") == "${labels:a}b}";
    ClashMakesTheOrderMatter("a", "a}b", [], [], eng);
    var a, b := Label("a", ["x"]), Label("a}b", ["y"]);
    assert [b, a] + [] == [b, a] && [a, b] + [] == [a, b];
  }

  // ---------------------------------------------------------------- match conditions

  datatype MatchConditions = MatchConditions(
    account: Option<string>,
    typ: Option<string>,
    name: Option<string>,
    ip: Option<string>,
    service: Option<string>,
    labels: seq<(string, string)>)

  /** What a request is matched on; `captures` are the pairs the capture-group placeholders contribute. */
  datatype Subject = Subject(
    account: string,
    typ: string,
    name: string,
    service: string,
    ip: Option<string>,
    labels: seq<Label>,
    captures: seq<Var>)

  function Vars(x: Subject): seq<Var> {
    [ Var("${account}", Glob.QuoteMeta(x.account)),
      Var("${type}", Glob.QuoteMeta(x.typ)),
      Var("${name}", Glob.QuoteMeta(x.name)),
      Var("${service}", Glob.QuoteMeta(x.service)) ] + x.captures
  }

  predicate MatchIP(pattern: Option<string>, ip: Option<string>, eng: Engines) {
    pattern.Some? ==> ip.Some? && eng.network(pattern.value, ip.value)
  }

  /** Some value of the label with the given name matches. */
  predicate MatchLabel(name: string, pattern: string, labels: seq<Label>, vars: seq<Var>, eng: Engines) {
    exists l :: l in labels && l.name == name && exists v :: v in l.values && MatchString(Some(pattern), v, vars, eng)
  }

  /** Every condition of an entry, as `Matches` puts them together. */
  predicate Admits(mc: MatchConditions, x: Subject, eng: Engines) {
    && MatchWithLabels(mc.account, x.account, Vars(x), x.labels, eng)
    && MatchWithLabels(mc.typ, x.typ, Vars(x), x.labels, eng)
    && MatchWithLabels(mc.name, x.name, Vars(x), x.labels, eng)
    && MatchWithLabels(mc.service, x.service, Vars(x), x.labels, eng)
    && MatchIP(mc.ip, x.ip, eng)
    && forall c :: c in mc.labels ==> MatchLabel(c.0, c.1, x.labels, Vars(x), eng)
  }

  method LabelValues(labels: seq<Label>, name: string) returns (values: seq<string>)
    requires DistinctNames(labels)
    ensures forall v :: v in values <==> exists l :: l in labels && l.name == name && v in l.values
  {
    for i := 0 to |labels|
      invariant forall k :: 0 <= k < i ==> labels[k].name != name
    {
      if labels[i].name == name {
        assert labels[i] in labels;
        return labels[i].values;
      }
    }
    values := [];
  }

  method MatchLabels(conditions: seq<(string, string)>, labels: seq<Label>, vars: seq<Var>, eng: Engines) returns (all: bool)
    requires DistinctNames(labels)
    ensures all <==> forall c :: c in conditions ==> MatchLabel(c.0, c.1, labels, vars, eng)
  {
    for i := 0 to |conditions|
      invariant forall c :: c in conditions[..i] ==> MatchLabel(c.0, c.1, labels, vars, eng)
    {
      var name, pattern := conditions[i].0, conditions[i].1;
      var values := LabelValues(labels, name);
      var matched, j := false, 0;
      while j < |values| && !matched
        invariant 0 <= j <= |values|
        invariant matched <==> exists v :: v in values[..j] && MatchString(Some(pattern), v, vars, eng)
      {
        matched := MatchString(Some(pattern), values[j], vars, eng);
        j := j + 1;
      }
      assert !matched ==> values[..j] == values;
      assert matched ==> exists v :: v in values && MatchString(Some(pattern), v, vars, eng);
      assert matched <==> MatchLabel(name, pattern, labels, vars, eng);
      if !matched {
        assert conditions[i] in conditions;
        return false;
      }
    }
    assert conditions[..|conditions|] == conditions;
    all := true;
  }

  method Matches(mc: MatchConditions, x: Subject, eng: Engines) returns (matched: bool)
    requires DistinctNames(x.labels)
    ensures matched <==> Admits(mc, x, eng)
  {
    var vars := Vars(x);
    matched := MatchStringWithLabelPermutations(mc.account, x.account, vars, x.labels, eng);
    if matched { matched := MatchStringWithLabelPermutations(mc.typ, x.typ, vars, x.labels, eng); }
    if matched { matched := MatchStringWithLabelPermutations(mc.name, x.name, vars, x.labels, eng); }
    if matched { matched := MatchStringWithLabelPermutations(mc.service, x.service, vars, x.labels, eng); }
    matched := matched && MatchIP(mc.ip, x.ip, eng);
    if matched { matched := MatchLabels(mc.labels, x.labels, vars, eng); }
  }

  // ---------------------------------------------------------------- the placeholders of the request

  /** The literal reading a regular expression engine owes a quoted string: it is found wherever it occurs. */
  ghost predicate FindsQuoted(eng: Engines) {
    forall q, s :: eng.regex(Glob.QuoteMeta(q), s) <==> Contains(s, q)
  }

  lemma QuotedSlashes(inner: string)
    ensures Glob.QuoteMeta("/") == "/"
    ensures Glob.QuoteMeta("/" + inner + "/") == "/" + Glob.QuoteMeta(inner) + "/"
  {
    Glob.SlashIsPlain();
    assert "/"[1..] == "";
    Glob.QuoteConcat("/" + inner, "/");
    Glob.QuoteConcat("/", inner);
  }

  /** Quoting keeps the two readings of a pattern apart, and quotes the inside of a regular expression. */
  lemma QuotedPatternIsSlashed(a: string)
    ensures Slashed(Glob.QuoteMeta(a)) <==> Slashed(a)
    ensures Slashed(a) ==>
      var q := Glob.QuoteMeta(a); q[1..|q| - 1] == Glob.QuoteMeta(a[1..|a| - 1])
  {
    if a != "" { Glob.QuoteEnds(a); }
    if Slashed(a) {
      var inner := a[1..|a| - 1];
      assert a == "/" + inner + "/";
      QuotedSlashes(inner);
      Glob.QuoteEnds(inner);
    } else if Slashed(Glob.QuoteMeta(a)) {
      ShortSlashes(a);
    }
  }

  lemma ShortSlashes(a: string)
    requires a == "/" || a == "//"
    ensures !Slashed(Glob.QuoteMeta(a))
  {
    QuotedSlashes("");
    assert "/" + "" + "/" == "//" && Glob.QuoteMeta("") == "";
  }

  /** Each of the four placeholders stands for the field of its name. */
  function Fields(x: Subject): seq<(Key, string)> {
    [("${account}", x.account), ("${type}", x.typ), ("${name}", x.name), ("${service}", x.service)]
  }

  lemma PlaceholderBecomesItsField(x: Subject, i: nat, rest: string)
    requires i < 4
    ensures var (key, field) := Fields(x)[i];
      Replace(key + rest, Vars(x)) == Glob.QuoteMeta(field) + Replace(rest, Vars(x))
  {
    var head, v, tail := Vars(x)[..i], Vars(x)[i], Vars(x)[i + 1..];
    var (key, field) := Fields(x)[i];
    assert v == Var(key, Glob.QuoteMeta(field));
    assert head + [v] + tail == Vars(x);
    var text := key + rest;
    assert text[2] == key[2];
    forall w | w in head ensures !(w.key <= text) {
      var j :| 0 <= j < i && Vars(x)[j] == w;
      assert w.key == Fields(x)[j].0 && w.key[2] != key[2];
    }
    ReplaceWholeKey(head, v, tail, rest);
  }

  /** A pattern that is one placeholder: nothing of the field is special to the matcher, so the pattern means equality
      with the field of that name, except for a field that looks like a regular expression, longer than two with a
      slash at both ends, which matches whatever contains its inside. The four placeholders are the first pairs tried,
      so this holds for any capture-group pairs. */
  lemma FieldPatternMeansEquality(x: Subject, i: nat, eng: Engines)
    requires FindsQuoted(eng) && i < 4
    ensures var (key, field) := Fields(x)[i];
      (forall s :: MatchWithLabels(Some(key), s, Vars(x), x.labels, eng) <==> s == field)
      <==> !(|field| > 2 && field[0] == '/' && field[|field| - 1] == '/')
  {
    var (key, field) := Fields(x)[i];
    forall s ensures QuotedMatches(field, s, eng) <==> MatchWithLabels(Some(key), s, Vars(x), x.labels, eng) {
      FieldPatternIsTheField(x, i, s, eng);
    }
    QuotedMeansEquality(field, eng);
  }

  lemma AccountPatternMeansEquality(x: Subject, eng: Engines)
    requires FindsQuoted(eng)
    ensures (forall s :: MatchWithLabels(Some("${account}"), s, Vars(x), x.labels, eng) <==> s == x.account)
       <==> !(|x.account| > 2 && x.account[0] == '/' && x.account[|x.account| - 1] == '/')
  {
    FieldPatternMeansEquality(x, 0, eng);
  }

  predicate QuotedMatches(field: string, s: string, eng: Engines) {
    MatchText(Glob.QuoteMeta(field), s, eng)
  }

  lemma QuotedMeansEquality(field: string, eng: Engines)
    requires FindsQuoted(eng)
    ensures (forall s :: QuotedMatches(field, s, eng) <==> s == field) <==> !Slashed(field)
  {
    if Slashed(field) {
      SlashedAccountMatchesItsInside(field, Glob.QuoteMeta(field), eng);
      assert QuotedMatches(field, field[1..|field| - 1], eng);
    } else {
      QuotedPatternIsSlashed(field);
      forall s ensures QuotedMatches(field, s, eng) <==> s == field { Glob.QuotedMatchesOnlyItself(field, s); }
    }
  }

  lemma FieldPatternIsTheField(x: Subject, i: nat, s: string, eng: Engines)
    requires i < 4
    ensures var (key, field) := Fields(x)[i];
      MatchWithLabels(Some(key), s, Vars(x), x.labels, eng) <==> QuotedMatches(field, s, eng)
  {
    var (key, field) := Fields(x)[i];
    assert ':' !in key;
    WithoutColonNoLabels(key, s, Vars(x), x.labels, eng);
    PlaceholderBecomesItsField(x, i, "");
    assert key + "" == key;
    assert Replace("", Vars(x)) == "";
    assert Glob.QuoteMeta(field) + "" == Glob.QuoteMeta(field);
  }

  lemma SlashedAccountMatchesItsInside(a: string, q: string, eng: Engines)
    requires FindsQuoted(eng) && Slashed(a) && q == Glob.QuoteMeta(a)
    ensures MatchText(q, a[1..|a| - 1], eng) && a[1..|a| - 1] != a
  {
    var inner := a[1..|a| - 1];
    QuotedPatternIsSlashed(a);
    assert Contains(inner, inner);
    assert |inner| < |a|;
  }

  lemma {:induction false} ContainsCharacters(text: string, part: string, i: nat)
    requires Contains(text, part) && i < |part|
    ensures part[i] in text
  {
    if part <= text {
      assert text[i] == part[i];
    } else {
      ContainsCharacters(text[1..], part, i);
    }
  }

  lemma {:induction false} NoneUsed(pattern: string, labels: seq<Label>)
    requires forall l :: l in labels ==> !Occurs(pattern, l)
    ensures Used(pattern, labels) == []
  {
    if labels != [] { NoneUsed(pattern, labels[1..]); }
  }

  /** A pattern without a colon mentions no label, so there is nothing to permute. */
  lemma WithoutColonNoLabels(pattern: string, s: string, vars: seq<Var>, labels: seq<Label>, eng: Engines)
    requires ':' !in pattern
    ensures MatchWithLabels(Some(pattern), s, vars, labels, eng) <==> MatchString(Some(pattern), s, vars, eng)
  {
    forall l | l in labels ensures !Occurs(pattern, l) {
      if Occurs(pattern, l) {
        assert Placeholder(l.name)[8] == ':';
        ContainsCharacters(pattern, Placeholder(l.name), 8);
      }
    }
    NoneUsed(pattern, labels);
  }

  lemma AccountPatternBecomesTheAccount(x: Subject)
    ensures Replace("${account}", Vars(x)) == Glob.QuoteMeta(x.account)
  {
    PlaceholderBecomesItsField(x, 0, "");
    assert "${account}" + "" == "${account}";
    assert Replace("", Vars(x)) == "";
  }

  /** The usual way to give every account a directory of its own, its placeholder followed by a slash and a
      star, matches the names one level below the account and nothing else, for every account. */
  lemma AccountDirectoryMatchesItsChildren(x: Subject, eng: Engines, s: string)
    requires forall v :: v in x.captures ==> v.key[0] == '$'
    ensures MatchWithLabels(Some("${account}/*"), s, Vars(x), x.labels, eng)
       <==> x.account + "/" <= s && '/' !in s[|x.account| + 1..]
  {
    WithoutColonNoLabels("${account}/*", s, Vars(x), x.labels, eng);
    AccountDirectoryPattern(x, eng, s);
  }

  lemma AccountDirectoryPattern(x: Subject, eng: Engines, s: string)
    requires forall v :: v in x.captures ==> v.key[0] == '$'
    ensures MatchString(Some("${account}/*"), s, Vars(x), eng)
       <==> x.account + "/" <= s && '/' !in s[|x.account| + 1..]
  {
    var p := Glob.QuoteMeta(x.account) + "/*";
    PlaceholderBecomesItsField(x, 0, "/*");
    assert "${account}" + "/*" == "${account}/*";
    NothingToReplace("/*", Vars(x));
    assert p[|p| - 1] == '*';
    Glob.QuotedDirectoryMatchesItsChildren(x.account, s);
  }

  lemma {:induction false} NothingToReplace(text: string, vars: seq<Var>)
    requires '$' !in text && forall v :: v in vars ==> v.key[0] == '$'
    ensures Replace(text, vars) == text
  {
    if text != "" {
      forall v | v in vars ensures !(v.key <= text) {
        assert v.key[0] == '$' && text[0] != '$';
      }
      NothingToReplace(text[1..], vars);
    }
  }

  // ---------------------------------------------------------------- patterns without placeholders

  /** A pattern that says what it means: nothing in it is special. */
  predicate Literal(p: string) {
    && '$' !in p && '*' !in p && '?' !in p && '[' !in p && '\\' !in p
    && !(|p| > 2 && p[0] == '/' && p[|p| - 1] == '/')
  }

  lemma WithoutDollarAsWritten(p: string, s: string, vars: seq<Var>, labels: seq<Label>, eng: Engines)
    requires '$' !in p && forall v :: v in vars ==> v.key[0] == '$'
    ensures MatchWithLabels(Some(p), s, vars, labels, eng) <==> MatchText(p, s, eng)
  {
    NothingToReplace(p, vars);
    forall l | l in labels ensures !Occurs(p, l) {
      if Occurs(p, l) {
        assert Placeholder(l.name)[0] == '$';
        ContainsCharacters(p, Placeholder(l.name), 0);
      }
    }
    NoneUsed(p, labels);
  }

  /** Between slashes a pattern is a regular expression, without them, or with nothing between them, a glob. */
  lemma SlashesMakeARegex(r: string, s: string, vars: seq<Var>, labels: seq<Label>, eng: Engines)
    requires r != "" && '$' !in r && forall v :: v in vars ==> v.key[0] == '$'
    ensures MatchWithLabels(Some("/" + r + "/"), s, vars, labels, eng) <==> eng.regex(r, s)
  {
    var p := "/" + r + "/";
    WithoutDollarAsWritten(p, s, vars, labels, eng);
    assert p[1..|p| - 1] == r;
  }

  lemma LiteralMatchesItself(pp: Option<string>, s: string, vars: seq<Var>, labels: seq<Label>, eng: Engines)
    requires (pp.Some? ==> Literal(pp.value)) && forall v :: v in vars ==> v.key[0] == '$'
    ensures MatchWithLabels(pp, s, vars, labels, eng) <==> pp.None? || s == pp.value
  {
    if pp.Some? {
      WithoutDollarAsWritten(pp.value, s, vars, labels, eng);
      Glob.PlainMatchesOnlyItself(pp.value, s);
    }
  }

  ghost predicate LiteralConditions(mc: MatchConditions) {
    && (forall pp :: pp in [mc.account, mc.typ, mc.name, mc.service] && pp.Some? ==> Literal(pp.value))
    && (forall c :: c in mc.labels ==> Literal(c.1))
  }

  lemma LiteralLabelMatches(name: string, p: string, labels: seq<Label>, vars: seq<Var>, eng: Engines)
    requires Literal(p) && forall v :: v in vars ==> v.key[0] == '$'
    ensures MatchLabel(name, p, labels, vars, eng) <==> exists l :: l in labels && l.name == name && p in l.values
  {
    NothingToReplace(p, vars);
    forall v ensures MatchString(Some(p), v, vars, eng) <==> v == p { Glob.PlainMatchesOnlyItself(p, v); }
  }

  /** An entry whose patterns have nothing special in them applies to exactly the requests with these fields: account
      against account, type against type, and so on; the address in the network; and for each label condition the
      value among the values of that label. */
  lemma LiteralConditionsMeanEquality(mc: MatchConditions, x: Subject, eng: Engines)
    requires LiteralConditions(mc) && forall v :: v in x.captures ==> v.key[0] == '$'
    ensures Admits(mc, x, eng) <==>
      && (mc.account.Some? ==> x.account == mc.account.value)
      && (mc.typ.Some? ==> x.typ == mc.typ.value)
      && (mc.name.Some? ==> x.name == mc.name.value)
      && (mc.service.Some? ==> x.service == mc.service.value)
      && (mc.ip.Some? ==> x.ip.Some? && eng.network(mc.ip.value, x.ip.value))
      && (forall c :: c in mc.labels ==> exists l :: l in x.labels && l.name == c.0 && c.1 in l.values)
  {
    var all := [mc.account, mc.typ, mc.name, mc.service];
    assert all[0] in all && all[1] in all && all[2] in all && all[3] in all;
    LiteralMatchesItself(mc.account, x.account, Vars(x), x.labels, eng);
    LiteralMatchesItself(mc.typ, x.typ, Vars(x), x.labels, eng);
    LiteralMatchesItself(mc.name, x.name, Vars(x), x.labels, eng);
    LiteralMatchesItself(mc.service, x.service, Vars(x), x.labels, eng);
    forall c | c in mc.labels
      ensures MatchLabel(c.0, c.1, x.labels, Vars(x), eng) <==> exists l :: l in x.labels && l.name == c.0 && c.1 in l.values
    {
      LiteralLabelMatches(c.0, c.1, x.labels, Vars(x), eng);
    }
  }
}
