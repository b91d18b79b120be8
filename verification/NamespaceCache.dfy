/** `cachedNamespaceChecker` of auth_server/k8s/namespace_checker.go: the same protocol, with the error packed
    into the shared value. */
module NamespaceCache {
  import opened GoStrings
  import opened SingleFlight

  datatype NsResult = NsResult(exists_: bool, err: Option<string>)

  datatype Config = Config(successTTL: int, failureTTL: int)

  /** "Does not exist" is a success; only an error has the failure TTL. */
  function TTL(c: Config, v: NsResult): int {
    if v.err.Some? then c.failureTTL else c.successTTL
  }

  /** The empty namespace is sent away before anything is looked up. */
  ghost function Protocol(c: Config, inner: (string, NsResult) -> bool): Spec<string, string, NsResult> {
    Spec(ns => ns != "", ns => ns, v => TTL(c, v), inner)
  }

  /** What a goroutine that is through with `Exists` has been told: the empty namespace does not exist. */
  function Told(th: Thread<string, string, NsResult>): NsResult
    requires th.Refused? || th.Answered?
  {
    if th.Refused? then NsResult(false, None) else th.answer
  }

  /** In every concurrent run every caller gets what an uncached check of its own namespace would say; of the empty
      namespace that, too, says that it does not exist. */
  lemma CachedCheckIsTheUncachedCheck(
      c: Config, inner: (string, NsResult) -> bool, check: string -> NsResult,
      states: seq<State<string, string, NsResult>>, actions: seq<Action<string, string, NsResult>>, i: nat, t: nat)
    requires IsRun(Protocol(c, inner), states, actions) && i < |states|
    requires forall ns, v :: inner(ns, v) ==> v == check(ns)
    requires check("") == NsResult(false, None)
    requires t < |states[i].threads| && (states[i].threads[t].Refused? || states[i].threads[t].Answered?)
    ensures Told(states[i].threads[t]) == check(states[i].threads[t].req)
  {
    var spec := Protocol(c, inner);
    if states[i].threads[t].Answered? {
      AgreesWithUncached(spec, states, actions, i, t, ns => true, check);
    } else {
      RefusedUnadmitted(spec, states, actions, i, t);
    }
  }

  /** The empty namespace is never cached, nor is anything whose TTL is not positive; what is cached is an
      outcome of checking that namespace. */
  lemma CachedCheckDiscipline(
      c: Config, inner: (string, NsResult) -> bool,
      states: seq<State<string, string, NsResult>>, actions: seq<Action<string, string, NsResult>>, i: nat, ns: string)
    requires IsRun(Protocol(c, inner), states, actions) && i < |states|
    requires ns in states[i].cache
    ensures ns != "" && inner(ns, states[i].cache[ns].value)
    ensures var v := states[i].cache[ns].value;
      if v.err.None? then c.successTTL > 0 else c.failureTTL > 0
  {
    var spec := Protocol(c, inner);
    StoreDiscipline(spec, states, actions, i, ns, req => true);
    var v := states[i].cache[ns].value;
    assert spec.ttl(v) == TTL(c, v);
    var req :| spec.admits(req) && spec.keyOf(req) == ns && spec.inner(req, v);
    assert req == ns;
  }

  /** A finding stored at some time, and neither evicted nor replaced since, is what every lookup of its namespace is
      answered until the success TTL is over, an error until the failure TTL is over; later lookups miss. */
  lemma StoredFindingAnswersForItsTTL(
      c: Config, inner: (string, NsResult) -> bool,
      states: seq<State<string, string, NsResult>>, actions: seq<Action<string, string, NsResult>>,
      j: nat, i: nat, t: nat, u: nat, ns: string, v: NsResult)
    requires IsRun(Protocol(c, inner), states, actions) && j < i < |actions|
    requires StoresAt(states, actions, j, t, ns, v) && LeftAlone(Protocol(c, inner), states, actions, ns, j, i)
    requires actions[i] == Lookup(u) && u < |states[i].threads| && states[i].threads[u].Asked? && states[i].threads[u].key == ns
    requires if v.err.None? then c.successTTL > 0 else c.failureTTL > 0
    ensures u < |states[i + 1].threads|
    ensures var life := if v.err.None? then c.successTTL else c.failureTTL;
      if states[i].now <= states[j].now + life then states[i + 1].threads[u].Answered? && states[i + 1].threads[u].answer == v
      else states[i + 1].threads[u].Missed?
  {
    StoredOutcomeAnswers(Protocol(c, inner), states, actions, j, i, t, u, ns, v);
    assert Protocol(c, inner).ttl(v) == TTL(c, v);
  }

  class CachedNamespaceChecker {
    const config: Config
    const store: FlightCache<string, NsResult>

    constructor (config: Config)
      ensures this.config == config && fresh(store)
      ensures store.cache == map[] && store.inflight == map[]
    {
      this.config := config;
      store := new FlightCache();
    }

    /** One `Exists`; the empty namespace is answered without looking. If a check of the namespace is in flight,
        `joined` is what that check comes back with. */
    method Exists(ns: string, lookedUp: int, stored: int, joined: NsResult, inner: string -> NsResult) returns (r: NsResult)
      modifies store
      ensures store.inflight == old(store.inflight)
      ensures ns == "" ==> r == NsResult(false, None) && store.cache == old(store.cache)
      ensures ns != "" ==>
        var hit := Hit(old(store.cache), ns, lookedUp);
        var joins := ns in old(store.inflight);
        && r == (if hit.Some? then hit.value else if joins then joined else inner(ns))
        && store.cache ==
             if hit.Some? then old(store.cache)
             else if joins then AfterGet(old(store.cache), ns, lookedUp)
             else AfterStore(AfterGet(old(store.cache), ns, lookedUp), ns, inner(ns), TTL(config, inner(ns)), stored, old(store.calls))
      ensures ns != "" ==>
        if ns in old(store.cache) && lookedUp <= old(store.cache)[ns].storedAt + old(store.cache)[ns].ttl then
          r == old(store.cache)[ns].value && store.cache == old(store.cache)
        else if ns in old(store.inflight) then
          r == joined && store.cache == old(store.cache) - {ns}
        else
          var life := if inner(ns).err.None? then config.successTTL else config.failureTTL;
          && r == inner(ns)
          && store.cache == if life > 0 then old(store.cache)[ns := Entry(inner(ns), stored, life, old(store.calls))] else old(store.cache) - {ns}
    {
      if ns == "" { return NsResult(false, None); }
      var answer := inner(ns);
      r := store.Serve(ns, lookedUp, stored, joined, answer, TTL(config, answer));
    }
  }
}
