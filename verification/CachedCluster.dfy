/** The Kubernetes authorizer behind its two caches: auth_server/authz/kubernetes_authz.go with the components that
    auth_server/k8s/rules_fetcher.go and auth_server/k8s/namespace_checker.go put in front of the cluster. */
module CachedCluster {
  import opened GoStrings
  import opened Rules
  import opened Users
  import opened CacheKey
  import opened SingleFlight
  import K8s = KubernetesAuthz
  import RulesCache
  import NamespaceCache

  /** A cached answer as the authorizer gets it: a value and an error. */
  function RulesAnswer(r: RulesCache.Response<seq<Rule>>): Result<seq<Rule>, string> {
    match r
    case KeyError => Err("userInfo.Name and userInfo.UID is required for rules cache key")
    case Response(Fetched(rules)) => Ok(rules)
    case Response(Failed(e)) => Err(e.detail)
  }

  function NamespaceAnswer(r: NamespaceCache.NsResult): Result<bool, string> {
    match r.err
    case Some(e) => Err(e)
    case None => Ok(r.exists_)
  }

  /** Goroutine `t` of a run of the rules cache is through with this request. */
  ghost predicate ToldRules(
      states: seq<State<RulesCache.Request, string, RulesCache.Outcome<seq<Rule>>>>, i: nat, t: nat, req: RulesCache.Request)
  {
    i < |states| && t < |states[i].threads| && states[i].threads[t].Free() && !states[i].threads[t].Idle? && states[i].threads[t].req == req
  }

  ghost predicate ToldNamespace(
      states: seq<State<string, string, NamespaceCache.NsResult>>, i: nat, t: nat, ns: string)
  {
    i < |states| && t < |states[i].threads| && states[i].threads[t].Free() && !states[i].threads[t].Idle? && states[i].threads[t].req == ns
  }

  /** The inner fetcher and the inner checker answer as the cluster does, after the rule filter. */
  ghost predicate FetchesFrom(
      cfg: K8s.Config, cluster: K8s.Cluster, tx: Texts, fetch: RulesCache.Request -> RulesCache.Outcome<seq<Rule>>)
  {
    forall req :: RulesAnswer(RulesCache.Response(fetch(req))) == K8s.Fetched(cfg.authz, cluster.rules(req.user, req.ns), tx)
  }

  ghost predicate ChecksWith(cluster: K8s.Cluster, check: string -> NamespaceCache.NsResult) {
    forall ns :: NamespaceAnswer(check(ns)) == cluster.namespaceExists(ns)
  }

  lemma RulesToldAreTheClusters(
      cfg: K8s.Config, cluster: K8s.Cluster, tx: Texts,
      rc: RulesCache.Config, inner: (RulesCache.Request, RulesCache.Outcome<seq<Rule>>) -> bool,
      asked: RulesCache.Request -> bool, fetch: RulesCache.Request -> RulesCache.Outcome<seq<Rule>>,
      states: seq<State<RulesCache.Request, string, RulesCache.Outcome<seq<Rule>>>>,
      steps: seq<Action<RulesCache.Request, string, RulesCache.Outcome<seq<Rule>>>>, i: nat, t: nat, req: RulesCache.Request)
    requires IsRun(RulesCache.Protocol(rc, inner), states, steps) && Asks(steps, asked)
    requires RulesCache.NoCollision(rc, asked) && forall r :: asked(r) ==> RulesCache.WellFormed(r)
    requires (forall r, v :: asked(r) && inner(r, v) ==> v == fetch(r)) && RulesCache.IdentityDecides(asked, fetch)
    requires FetchesFrom(cfg, cluster, tx, fetch)
    requires ToldRules(states, i, t, req) && IsValid(req.user)
    ensures RulesAnswer(RulesCache.Told(states[i].threads[t])) == K8s.Fetched(cfg.authz, cluster.rules(req.user, req.ns), tx)
  {
    RulesCache.CachedRulesAreTheUncachedRules(rc, inner, asked, fetch, states, steps, i, t);
  }

  /** Whatever runs of the two caches its answers come from, as far as it asks for them, the authorizer decides on them
      as it would on the cluster's own. */
  lemma CachedDecisionIsTheUncachedOne(
      cfg: K8s.Config, cluster: K8s.Cluster, tx: Texts,
      rc: RulesCache.Config, inner: (RulesCache.Request, RulesCache.Outcome<seq<Rule>>) -> bool,
      asked: RulesCache.Request -> bool, fetch: RulesCache.Request -> RulesCache.Outcome<seq<Rule>>,
      states: seq<State<RulesCache.Request, string, RulesCache.Outcome<seq<Rule>>>>,
      steps: seq<Action<RulesCache.Request, string, RulesCache.Outcome<seq<Rule>>>>, i: nat, t: nat,
      nc: NamespaceCache.Config, innerCheck: (string, NamespaceCache.NsResult) -> bool, check: string -> NamespaceCache.NsResult,
      states': seq<State<string, string, NamespaceCache.NsResult>>,
      steps': seq<Action<string, string, NamespaceCache.NsResult>>, j: nat, u: nat,
      exists_: Result<bool, string>, fetched: Result<seq<Rule>, string>,
      account: string, user: UserInfo, name: string, actions: seq<string>)
    requires IsRun(RulesCache.Protocol(rc, inner), states, steps) && Asks(steps, asked)
    requires RulesCache.NoCollision(rc, asked) && forall r :: asked(r) ==> RulesCache.WellFormed(r)
    requires (forall r, v :: asked(r) && inner(r, v) ==> v == fetch(r)) && RulesCache.IdentityDecides(asked, fetch)
    requires FetchesFrom(cfg, cluster, tx, fetch)
    requires IsRun(NamespaceCache.Protocol(nc, innerCheck), states', steps')
    requires (forall ns, v :: innerCheck(ns, v) ==> v == check(ns)) && check("") == NamespaceCache.NsResult(false, None)
    requires ChecksWith(cluster, check)
    requires NeedsNamespaceCheck(cfg.authz, actions) ==>
      && ToldNamespace(states', j, u, K8s.SplitNamespaceAndPath(name).0)
      && exists_ == NamespaceAnswer(NamespaceCache.Told(states'[j].threads[u]))
    requires !NeedsNamespaceCheck(cfg.authz, actions) || exists_ == Ok(true) ==>
      && ToldRules(states, i, t, RulesCache.Request(user, AsText(K8s.SplitNamespaceAndPath(name).0)))
      && fetched == RulesAnswer(RulesCache.Told(states[i].threads[t]))
    ensures K8s.DecideOn(cfg, exists_, fetched, tx, account, Some(user), name, actions)
         == K8s.Decide(cfg, cluster, tx, account, Some(user), name, actions)
  {
    var ns := K8s.SplitNamespaceAndPath(name).0;
    if NeedsNamespaceCheck(cfg.authz, actions) {
      NamespaceCache.CachedCheckIsTheUncachedCheck(nc, innerCheck, check, states', steps', j, u);
      assert exists_ == cluster.namespaceExists(ns);
    }
    if IsValid(user) && (!NeedsNamespaceCheck(cfg.authz, actions) || exists_ == Ok(true)) {
      RulesToldAreTheClusters(cfg, cluster, tx, rc, inner, asked, fetch, states, steps, i, t, RulesCache.Request(user, AsText(ns)));
    }
  }
}
