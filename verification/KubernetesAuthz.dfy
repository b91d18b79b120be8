/** auth_server/authz/kubernetes_authz.go: grants by the rules the cluster reports for the user. */
module KubernetesAuthz {
  import opened GoStrings
  import opened Rules
  import opened Users
  import opened CacheKey

  /** What the cluster says when it is asked: whether a namespace exists, and the rules it reports, before the rule
      filter. `CachedCluster.CachedDecisionIsTheUncachedOne` puts the two caches in between. */
  datatype Cluster = Cluster(
    namespaceExists: string -> Result<bool, string>,
    rules: (UserInfo, Text) -> Result<seq<Rule>, string>)

  datatype Config = Config(userName: string, authz: AuthzConfig)

  /** What an authorizer says about one scope. */
  datatype Verdict = Granted(actions: seq<string>) | NoMatch | Failed(detail: string)

  /** `strings.SplitN(name, "/", 2)`: the namespace before the first slash, the path after it. */
  function SplitNamespaceAndPath(name: string): (string, string) {
    if name == "" then ("", "")
    else if name[0] == '/' then ("", name[1..])
    else
      var (ns, path) := SplitNamespaceAndPath(name[1..]);
      ([name[0]] + ns, path)
  }

  lemma {:induction false} SplitAtTheFirstSlash(name: string)
    ensures var (ns, path) := SplitNamespaceAndPath(name);
      && '/' !in ns
      && (if '/' in name then name == ns + "/" + path else ns == name && path == "")
  {
    if name != "" && name[0] != '/' {
      SplitAtTheFirstSlash(name[1..]);
      assert name == [name[0]] + name[1..];
      var (ns, path) := SplitNamespaceAndPath(name[1..]);
      assert [name[0]] + (ns + "/" + path) == [name[0]] + ns + "/" + path;
    } else if name != "" {
      assert name == "" + "/" + name[1..];
    }
  }

  function Verb(action: string): Option<string> {
    if action == "pull" then Some("get")
    else if action == "push" then Some("create")
    else if action == "delete" then Some("delete")
    else None
  }

  predicate ActionAllowed(rules: seq<Rule>, path: string, tx: Texts, action: string) {
    Verb(action).Some? && IsActionAllowed(rules, Verb(action).value, path, tx)
  }

  function Allowed(rules: seq<Rule>, path: string, tx: Texts, actions: seq<string>): seq<string> {
    if actions == [] then []
    else (if ActionAllowed(rules, path, tx, actions[0]) then [actions[0]] else []) + Allowed(rules, path, tx, actions[1..])
  }

  /** The inner rules fetcher ends by filtering. */
  function Fetched(c: AuthzConfig, reported: Result<seq<Rule>, string>, tx: Texts): Result<seq<Rule>, string> {
    match reported
    case Err(e) => Err(e)
    case Ok(raw) => Ok(Filtered(c, raw, tx))
  }

  /** The decision, given what the namespace checker and the rules fetcher answer if they are asked. */
  function DecideOn(
      cfg: Config, exists_: Result<bool, string>, fetched: Result<seq<Rule>, string>,
      tx: Texts, account: string, data: Option<UserInfo>, name: string, actions: seq<string>): Verdict
  {
    if actions == [] then NoMatch
    else if account != cfg.userName then NoMatch
    else if data.None? || !IsValid(data.value) then NoMatch
    else
      var path := SplitNamespaceAndPath(name).1;
      if path == "" then NoMatch
      else if NeedsNamespaceCheck(cfg.authz, actions) && exists_.Err? then Failed(exists_.error)
      else if NeedsNamespaceCheck(cfg.authz, actions) && !exists_.value then NoMatch
      else
        match fetched
        case Err(e) => Failed(e)
        case Ok(rules) =>
          var allowed := Allowed(rules, path, tx, actions);
          if allowed == [] then NoMatch else Granted(allowed)
  }

  function Decide(cfg: Config, cluster: Cluster, tx: Texts, account: string, data: Option<UserInfo>, name: string, actions: seq<string>): Verdict {
    var ns := SplitNamespaceAndPath(name).0;
    var reported := if data.Some? then cluster.rules(data.value, AsText(ns)) else Ok([]);
    DecideOn(cfg, cluster.namespaceExists(ns), Fetched(cfg.authz, reported, tx), tx, account, data, name, actions)
  }

  /** The loop of `Authorize` over the requested actions. */
  method SelectAllowed(rules: seq<Rule>, path: string, tx: Texts, actions: seq<string>) returns (allowed: seq<string>)
    ensures allowed == Allowed(rules, path, tx, actions)
  {
    allowed := [];
    for i := 0 to |actions|
      invariant allowed + Allowed(rules, path, tx, actions[i..]) == Allowed(rules, path, tx, actions)
    {
      assert actions[i..][1..] == actions[i + 1..];
      var verb := Verb(actions[i]);
      if verb.None? { continue; }
      if IsActionAllowed(rules, verb.value, path, tx) { allowed := allowed + [actions[i]]; }
    }
  }

  /** `Authorize`; the granted actions are a new slice. */
  method Authorize(cfg: Config, cluster: Cluster, tx: Texts, account: string, data: Option<UserInfo>, name: string, actions: seq<string>)
    returns (verdict: Verdict)
    ensures verdict == Decide(cfg, cluster, tx, account, data, name, actions)
  {
    if |actions| == 0 { return NoMatch; }
    if account != cfg.userName { return NoMatch; }
    if data.None? || !IsValid(data.value) { return NoMatch; }
    var (ns, path) := SplitNamespaceAndPath(name);
    if path == "" { return NoMatch; }
    if NeedsNamespaceCheck(cfg.authz, actions) {
      var exists_ := cluster.namespaceExists(ns);
      if exists_.Err? { return Failed(exists_.error); }
      if !exists_.value { return NoMatch; }
    }
    var fetched := cluster.rules(data.value, AsText(ns));
    if fetched.Err? { return Failed(fetched.error); }
    var rules := FilterRules(cfg.authz, fetched.value, tx);
    var allowed := SelectAllowed(rules, path, tx, actions);
    if |allowed| == 0 { return NoMatch; }
    verdict := Granted(allowed);
  }

  // ---------------------------------------------------------------- exactly what is granted

  /** The request is one this authorizer looks at: right account, usable user data, a path below a namespace. */
  ghost predicate Concerned(cfg: Config, account: string, data: Option<UserInfo>, path: string) {
    && account == cfg.userName && path != ""
    && data.Some? && data.value.name != [] && data.value.uid != [] && data.value.bearerToken != []
  }

  /** Asking for one of the configured actions makes the namespace's existence a condition. */
  ghost predicate ChecksNamespace(cfg: Config, actions: seq<string>) {
    exists a :: a in actions && a in cfg.authz.namespaceCheckVerbs
  }

  /** Which Kubernetes verb each registry action takes. */
  predicate NeedsVerb(action: string, verb: string) {
    (action == "pull" && verb == "get") || (action == "push" && verb == "create") || (action == "delete" && verb == "delete")
  }

  /** The cluster gives the action's verb on the repository path, by a rule for the configured group and
      resource, in an existing namespace if existence matters. */
  ghost predicate ClusterAllows(cfg: Config, cluster: Cluster, tx: Texts, user: UserInfo, ns: string, path: string, actions: seq<string>, action: string) {
    && (ChecksNamespace(cfg, actions) ==> cluster.namespaceExists(ns) == Ok(true))
    && cluster.rules(user, AsText(ns)).Ok?
    && exists verb, r :: NeedsVerb(action, verb)
         && r in cluster.rules(user, AsText(ns)).value && Relevant(cfg.authz, r, tx) && Gives(r, verb, ToLower(path, tx), tx)
  }

  lemma {:induction false} AllowedMembers(rules: seq<Rule>, path: string, tx: Texts, actions: seq<string>)
    ensures forall a :: a in Allowed(rules, path, tx, actions) <==> a in actions && ActionAllowed(rules, path, tx, a)
  {
    if actions != [] { AllowedMembers(rules, path, tx, actions[1..]); }
  }

  lemma {:induction false} AllowedStaysSorted(rules: seq<Rule>, path: string, tx: Texts, actions: seq<string>)
    requires Sorted(actions)
    ensures Sorted(Allowed(rules, path, tx, actions))
  {
    if actions != [] {
      var rest := Allowed(rules, path, tx, actions[1..]);
      assert actions == [actions[0]] + actions[1..];
      SortedCons(actions[0], actions[1..]);
      AllowedStaysSorted(rules, path, tx, actions[1..]);
      AllowedMembers(rules, path, tx, actions[1..]);
      forall i | 0 <= i < |rest| ensures LessEq(actions[0], rest[i]) {
        assert rest[i] in actions[1..];
      }
      SortedCons(actions[0], rest);
    }
  }

  /** An action is granted iff it was requested, the authorizer is concerned, and the cluster allows it. */
  lemma GrantedIff(cfg: Config, cluster: Cluster, tx: Texts, account: string, data: Option<UserInfo>, name: string, actions: seq<string>, action: string)
    ensures var v := Decide(cfg, cluster, tx, account, data, name, actions);
      var (ns, path) := SplitNamespaceAndPath(name);
      (v.Granted? && action in v.actions) <==>
        && action in actions
        && Concerned(cfg, account, data, path)
        && ClusterAllows(cfg, cluster, tx, data.value, ns, path, actions, action)
  {
    var (ns, path) := SplitNamespaceAndPath(name);
    NamespaceCheckIsForListedActions(cfg.authz, actions);
    if data.Some? && cluster.rules(data.value, AsText(ns)).Ok? {
      var raw := cluster.rules(data.value, AsText(ns)).value;
      AllowedMembers(Filtered(cfg.authz, raw, tx), path, tx, actions);
      assert forall verb :: NeedsVerb(action, verb) <==> Verb(action) == Some(verb);
      if Verb(action).Some? { FilterThenCheck(cfg.authz, raw, Verb(action).value, path, tx); }
    }
  }

  lemma {:induction false} AllowedCount(rules: seq<Rule>, path: string, tx: Texts, actions: seq<string>, action: string)
    ensures multiset(Allowed(rules, path, tx, actions))[action] == if ActionAllowed(rules, path, tx, action) then multiset(actions)[action] else 0
  {
    if actions != [] {
      AllowedCount(rules, path, tx, actions[1..], action);
      assert actions == [actions[0]] + actions[1..];
    }
  }

  /** What is granted is granted as often as it was requested, and granting means granting something. */
  lemma GrantedAsRequested(cfg: Config, cluster: Cluster, tx: Texts, account: string, data: Option<UserInfo>, name: string, actions: seq<string>, action: string)
    ensures var v := Decide(cfg, cluster, tx, account, data, name, actions);
      v.Granted? ==> v.actions != [] && (action in v.actions ==> multiset(v.actions)[action] == multiset(actions)[action])
  {
    var v := Decide(cfg, cluster, tx, account, data, name, actions);
    if v.Granted? {
      var (ns, path) := SplitNamespaceAndPath(name);
      var rules := Filtered(cfg.authz, cluster.rules(data.value, AsText(ns)).value, tx);
      AllowedCount(rules, path, tx, actions, action);
      AllowedMembers(rules, path, tx, actions);
    }
  }

  /** The authorizer fails iff something was requested, it is concerned, and a question it has to ask the cluster
      goes unanswered, the one about the namespace first; it fails with the error of that question. */
  lemma FailsIff(cfg: Config, cluster: Cluster, tx: Texts, account: string, data: Option<UserInfo>, name: string, actions: seq<string>)
    ensures var (ns, path) := SplitNamespaceAndPath(name);
      Decide(cfg, cluster, tx, account, data, name, actions).Failed? <==>
        && actions != [] && Concerned(cfg, account, data, path)
        && Unanswered(cfg, cluster, data.value, ns, actions)
    ensures var v := Decide(cfg, cluster, tx, account, data, name, actions);
      var ns := SplitNamespaceAndPath(name).0;
      v.Failed? && data.Some? ==>
        if ChecksNamespace(cfg, actions) && cluster.namespaceExists(ns).Err? then cluster.namespaceExists(ns) == Err(v.detail)
        else cluster.rules(data.value, AsText(ns)) == Err(v.detail)
  {
    NamespaceCheckIsForListedActions(cfg.authz, actions);
  }

  ghost predicate Unanswered(cfg: Config, cluster: Cluster, user: UserInfo, ns: string, actions: seq<string>) {
    if ChecksNamespace(cfg, actions) then
      cluster.namespaceExists(ns).Err? || (cluster.namespaceExists(ns).value && cluster.rules(user, AsText(ns)).Err?)
    else
      cluster.rules(user, AsText(ns)).Err?
  }
}
