/** Kubernetes resource rules: auth_server/k8s/rules.go and the rule filter of auth_server/k8s/config.go. */
module Rules {

  datatype Rule = Rule(verbs: seq<string>, apiGroups: seq<string>, resources: seq<string>, resourceNames: seq<string>)

  /** Unicode case tables and the doublestar matcher, which the server takes from libraries. */
  datatype Texts = Texts(lower: char -> char, fold: (char, char) -> bool, doublestar: (string, string) -> bool)

  function ToLower(s: string, tx: Texts): (r: string)
    ensures |r| == |s| && forall i :: 0 <= i < |s| ==> r[i] == tx.lower(s[i])
  {
    seq(|s|, i requires 0 <= i < |s| => tx.lower(s[i]))
  }

  predicate EqualFold(a: string, b: string, tx: Texts) {
    |a| == |b| && forall i :: 0 <= i < |a| ==> tx.fold(a[i], b[i])
  }

  // ---------------------------------------------------------------- rules.go

  predicate NameMatches(names: seq<string>, path: string, tx: Texts) {
    names != [] && (tx.doublestar(ToLower(names[0], tx), path) || NameMatches(names[1..], path, tx))
  }

  predicate MatchRule(rule: Rule, verb: string, path: string, tx: Texts) {
    if verb !in rule.verbs && "*" !in rule.verbs then false
    else rule.resourceNames == [] || NameMatches(rule.resourceNames, path, tx)
  }

  predicate AnyRule(rules: seq<Rule>, verb: string, path: string, tx: Texts) {
    rules != [] && (MatchRule(rules[0], verb, path, tx) || AnyRule(rules[1..], verb, path, tx))
  }

  predicate IsActionAllowed(rules: seq<Rule>, verb: string, path: string, tx: Texts) {
    if path == "" || rules == [] then false else AnyRule(rules, verb, ToLower(path, tx), tx)
  }

  // ---------------------------------------------------------------- config.go

  datatype AuthzConfig = AuthzConfig(apiGroup: string, resource: string, namespaceCheckVerbs: seq<string>)

  /** `want`, whatever its letter case, or a star is listed. */
  predicate Lists(listed: seq<string>, want: string, tx: Texts) {
    exists x :: x in listed && (x == "*" || EqualFold(x, want, tx))
  }

  predicate Relevant(c: AuthzConfig, rule: Rule, tx: Texts) {
    Lists(rule.apiGroups, c.apiGroup, tx) && Lists(rule.resources, c.resource, tx)
  }

  function Filtered(c: AuthzConfig, rules: seq<Rule>, tx: Texts): seq<Rule> {
    if rules == [] then []
    else (if Relevant(c, rules[0], tx) then [rules[0]] else []) + Filtered(c, rules[1..], tx)
  }

  /** One of the two inner loops of `FilterRules`. */
  method Listed(listed: seq<string>, want: string, tx: Texts) returns (found: bool)
    ensures found <==> Lists(listed, want, tx)
  {
    found := false;
    for i := 0 to |listed|
      invariant forall k :: 0 <= k < i ==> listed[k] != "*" && !EqualFold(listed[k], want, tx)
    {
      if listed[i] == "*" || EqualFold(listed[i], want, tx) {
        assert listed[i] in listed;
        return true;
      }
    }
  }

  lemma FilteredStep(c: AuthzConfig, out: seq<Rule>, rules: seq<Rule>, i: nat, tx: Texts)
    requires i < |rules|
    ensures out + Filtered(c, rules[i..], tx) ==
      (if Relevant(c, rules[i], tx) then out + [rules[i]] else out) + Filtered(c, rules[i + 1..], tx)
  {
    assert rules[i..][1..] == rules[i + 1..];
  }

  method FilterRules(c: AuthzConfig, rules: seq<Rule>, tx: Texts) returns (out: seq<Rule>)
    ensures out == Filtered(c, rules, tx)
  {
    out := [];
    for i := 0 to |rules|
      invariant out + Filtered(c, rules[i..], tx) == Filtered(c, rules, tx)
    {
      FilteredStep(c, out, rules, i, tx);
      var apiGroupMatch := Listed(rules[i].apiGroups, c.apiGroup, tx);
      if !apiGroupMatch { continue; }
      var resourceMatch := Listed(rules[i].resources, c.resource, tx);
      if !resourceMatch { continue; }
      out := out + [rules[i]];
    }
  }

  predicate NeedsNamespaceCheck(c: AuthzConfig, actions: seq<string>) {
    if c.namespaceCheckVerbs == [] then false
    else actions != [] && (actions[0] in c.namespaceCheckVerbs || NeedsNamespaceCheck(c, actions[1..]))
  }

  lemma {:induction false} NamespaceCheckIsForListedActions(c: AuthzConfig, actions: seq<string>)
    ensures NeedsNamespaceCheck(c, actions) <==> exists a :: a in actions && a in c.namespaceCheckVerbs
  {
    if actions != [] {
      NamespaceCheckIsForListedActions(c, actions[1..]);
      assert actions[0] in actions;
    }
  }

  // ---------------------------------------------------------------- what the two amount to together

  /** The rule gives the verb on a path already lowered, by having no resource names or by one that matches. */
  ghost predicate Gives(rule: Rule, verb: string, path: string, tx: Texts) {
    && (verb in rule.verbs || "*" in rule.verbs)
    && (rule.resourceNames == [] || exists n :: n in rule.resourceNames && tx.doublestar(ToLower(n, tx), path))
  }

  lemma {:induction false} NameMatchesSome(names: seq<string>, path: string, tx: Texts)
    ensures NameMatches(names, path, tx) <==> exists n :: n in names && tx.doublestar(ToLower(n, tx), path)
  {
    if names != [] { NameMatchesSome(names[1..], path, tx); }
  }

  lemma {:induction false} AnyRuleGives(rules: seq<Rule>, verb: string, path: string, tx: Texts)
    ensures AnyRule(rules, verb, path, tx) <==> exists r :: r in rules && Gives(r, verb, path, tx)
  {
    if rules != [] {
      NameMatchesSome(rules[0].resourceNames, path, tx);
      assert MatchRule(rules[0], verb, path, tx) <==> Gives(rules[0], verb, path, tx);
      AnyRuleGives(rules[1..], verb, path, tx);
      if r :| r in rules && Gives(r, verb, path, tx) { assert r == rules[0] || r in rules[1..]; }
    }
  }

  lemma ActionAllowedIff(rules: seq<Rule>, verb: string, path: string, tx: Texts)
    ensures IsActionAllowed(rules, verb, path, tx)
       <==> path != "" && exists r :: r in rules && Gives(r, verb, ToLower(path, tx), tx)
  {
    AnyRuleGives(rules, verb, ToLower(path, tx), tx);
  }

  lemma {:induction false} FilteredMembers(c: AuthzConfig, rules: seq<Rule>, tx: Texts)
    ensures forall r :: r in Filtered(c, rules, tx) <==> r in rules && Relevant(c, r, tx)
  {
    if rules != [] { FilteredMembers(c, rules[1..], tx); }
  }

  /** A rule is relevant iff both its groups and its resources list a star or, letter by letter and whatever the case,
      the configured name. */
  lemma RelevantIff(c: AuthzConfig, rule: Rule, tx: Texts)
    ensures Relevant(c, rule, tx) <==>
      && ("*" in rule.apiGroups || exists g :: g in rule.apiGroups && |g| == |c.apiGroup| && forall i :: 0 <= i < |g| ==> tx.fold(g[i], c.apiGroup[i]))
      && ("*" in rule.resources || exists x :: x in rule.resources && |x| == |c.resource| && forall i :: 0 <= i < |x| ==> tx.fold(x[i], c.resource[i]))
  {
    assert Lists(rule.apiGroups, c.apiGroup, tx) <==> "*" in rule.apiGroups || exists g :: g in rule.apiGroups && EqualFold(g, c.apiGroup, tx);
    assert Lists(rule.resources, c.resource, tx) <==> "*" in rule.resources || exists x :: x in rule.resources && EqualFold(x, c.resource, tx);
  }

  /** How often a rule that is kept occurs. */
  lemma {:induction false} FilteredCount(c: AuthzConfig, rules: seq<Rule>, r: Rule, tx: Texts)
    ensures multiset(Filtered(c, rules, tx))[r] == if Relevant(c, r, tx) then multiset(rules)[r] else 0
  {
    if rules != [] {
      FilteredCount(c, rules[1..], r, tx);
      assert rules == [rules[0]] + rules[1..];
    }
  }

  /** Checking the filtered rules is checking the original ones for group, resource, verb and name. */
  lemma FilterThenCheck(c: AuthzConfig, rules: seq<Rule>, verb: string, path: string, tx: Texts)
    ensures IsActionAllowed(Filtered(c, rules, tx), verb, path, tx)
       <==> path != "" && exists r :: r in rules && Relevant(c, r, tx) && Gives(r, verb, ToLower(path, tx), tx)
  {
    ActionAllowedIff(Filtered(c, rules, tx), verb, path, tx);
    FilteredMembers(c, rules, tx);
  }

  /** Filtering works part by part, so it keeps the order of the rules and how often each occurs. */
  lemma {:induction false} FilteredConcat(c: AuthzConfig, a: seq<Rule>, b: seq<Rule>, tx: Texts)
    ensures Filtered(c, a + b, tx) == Filtered(c, a, tx) + Filtered(c, b, tx)
  {
    if a == [] {
      assert a + b == b;
    } else {
      assert (a + b)[1..] == a[1..] + b;
      FilteredConcat(c, a[1..], b, tx);
    }
  }

  lemma {:induction false} FilteringTwiceIsFilteringOnce(c: AuthzConfig, rules: seq<Rule>, tx: Texts)
    ensures Filtered(c, Filtered(c, rules, tx), tx) == Filtered(c, rules, tx)
  {
    if rules != [] {
      var rest := Filtered(c, rules[1..], tx);
      FilteringTwiceIsFilteringOnce(c, rules[1..], tx);
      assert Relevant(c, rules[0], tx) ==> ([rules[0]] + rest)[1..] == rest;
      assert [] + rest == rest;
    }
  }

  /** Neither the order of the rules nor the letter case of the path changes a verdict. */
  lemma OrderAndCaseAreIrrelevant(
      c: AuthzConfig, rules: seq<Rule>, rules': seq<Rule>, verb: string, path: string, path': string, tx: Texts)
    requires multiset(rules) == multiset(rules')
    requires ToLower(path, tx) == ToLower(path', tx)
    ensures IsActionAllowed(Filtered(c, rules, tx), verb, path, tx)
       <==> IsActionAllowed(Filtered(c, rules', tx), verb, path', tx)
  {
    FilterThenCheck(c, rules, verb, path, tx);
    FilterThenCheck(c, rules', verb, path', tx);
    assert forall r :: r in rules <==> r in multiset(rules);
    assert forall r :: r in rules' <==> r in multiset(rules');
    assert |path| == |ToLower(path, tx)| == |ToLower(path', tx)| == |path'|;
  }
}
