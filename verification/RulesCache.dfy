/** `cachedRulesFetcher` of auth_server/k8s/rules_fetcher.go, an instance of the shared protocol. */
module RulesCache {
  import opened GoStrings
  import opened CacheKey
  import opened SingleFlight
  import opened Users

  datatype Request = Request(user: UserInfo, ns: Text)

  /** An initialisation error is never cached. */
  datatype FetchError = InitError(detail: string) | OtherError(detail: string)

  datatype Outcome<T> = Fetched(rules: T) | Failed(err: FetchError)

  datatype Response<T> = KeyError | Response(outcome: Outcome<T>)

  datatype Config = Config(successTTL: int, failureTTL: int, digest: string -> string)

  /** A request with neither name nor UID is refused before anything is looked up. */
  predicate HasKey(req: Request) {
    req.user.name != [] || req.user.uid != []
  }

  function KeyOf(c: Config, req: Request): string {
    Key([req.ns, req.user.name, req.user.uid], c.digest)
  }

  /** For how long an outcome is stored; a TTL that is not positive stores nothing. */
  function TTL<T>(c: Config, v: Outcome<T>): int {
    match v
    case Fetched(_) => c.successTTL
    case Failed(InitError(_)) => 0
    case Failed(OtherError(_)) => c.failureTTL
  }

  ghost function Protocol<T>(c: Config, inner: (Request, Outcome<T>) -> bool): Spec<Request, string, Outcome<T>> {
    Spec(HasKey, req => KeyOf(c, req), v => TTL(c, v), inner)
  }

  /** What a goroutine that is through with `GetRules` has been told. */
  function Told<T>(th: Thread<Request, string, Outcome<T>>): Response<T>
    requires th.Refused? || th.Answered?
  {
    if th.Refused? then KeyError else Response(th.answer)
  }

  /** What `GetRules` would say without a cache in front of the fetcher. */
  function Uncached<T>(req: Request, fetch: Request -> Outcome<T>): Response<T> {
    if HasKey(req) then Response(fetch(req)) else KeyError
  }

  ghost predicate WellFormed(req: Request) {
    ValidUtf8(req.ns) && ValidUtf8(req.user.name) && ValidUtf8(req.user.uid)
  }

  /** The hash does not collide on the texts of the requests that are asked. */
  ghost predicate NoCollision(c: Config, asked: Request -> bool) {
    forall a, b :: asked(a) && asked(b) && KeyOf(c, a) == KeyOf(c, b) ==> KeyText(a) == KeyText(b)
  }

  function KeyText(req: Request): string {
    PreImage([req.ns, req.user.name, req.user.uid])
  }

  predicate SameIdentity(a: Request, b: Request) {
    a.ns == b.ns && a.user.name == b.user.name && a.user.uid == b.user.uid
  }

  /** Requests that agree on namespace, name and UID, as the key sees them, are answered alike: the bearer token,
      which the fetcher sends and the key leaves out, makes no difference. */
  ghost predicate IdentityDecides<T(!new)>(asked: Request -> bool, fetch: Request -> Outcome<T>) {
    forall a, b :: asked(a) && asked(b) && HasKey(a) && SameIdentity(a, b) ==> fetch(a) == fetch(b)
  }

  lemma SameKeyIffSameIdentity(c: Config, asked: Request -> bool, a: Request, b: Request)
    requires NoCollision(c, asked) && asked(a) && asked(b) && WellFormed(a) && WellFormed(b)
    ensures KeyOf(c, a) == KeyOf(c, b) <==> SameIdentity(a, b)
  {
    if KeyOf(c, a) == KeyOf(c, b) {
      assert KeyText(a) == KeyText(b);
      KeysTellTriplesApart(a.ns, a.user.name, a.user.uid, b.ns, b.user.name, b.user.uid, c.digest);
    }
  }

  lemma KeyDecidesIffIdentityDecides<T(!new)>(
      c: Config, inner: (Request, Outcome<T>) -> bool, asked: Request -> bool, fetch: Request -> Outcome<T>)
    requires NoCollision(c, asked) && forall req :: asked(req) ==> WellFormed(req)
    ensures KeyDecides(Protocol(c, inner), asked, fetch) <==> IdentityDecides(asked, fetch)
  {
    var spec := Protocol(c, inner);
    forall a, b | asked(a) && asked(b) ensures spec.keyOf(a) == spec.keyOf(b) <==> SameIdentity(a, b) {
      SameKeyIffSameIdentity(c, asked, a, b);
    }
    assert forall a, b :: SameIdentity(a, b) ==> HasKey(a) == HasKey(b);
  }

  /** In every concurrent run in which the hash does not collide on what is asked, every caller is told what it would
      have been told without the cache, the key error, an error or rules, provided identity decides that. */
  lemma CachedRulesAreTheUncachedRules<T(!new)>(
      c: Config, inner: (Request, Outcome<T>) -> bool, asked: Request -> bool, fetch: Request -> Outcome<T>,
      states: seq<State<Request, string, Outcome<T>>>, actions: seq<Action<Request, string, Outcome<T>>>, i: nat, t: nat)
    requires IsRun(Protocol(c, inner), states, actions) && i < |states| && Asks(actions, asked)
    requires NoCollision(c, asked) && forall req :: asked(req) ==> WellFormed(req)
    requires forall req, v :: asked(req) && inner(req, v) ==> v == fetch(req)
    requires IdentityDecides(asked, fetch)
    requires t < |states[i].threads| && (states[i].threads[t].Refused? || states[i].threads[t].Answered?)
    ensures Told(states[i].threads[t]) == Uncached(states[i].threads[t].req, fetch)
  {
    var spec := Protocol(c, inner);
    RefusedUnadmitted(spec, states, actions, i, t);
    if states[i].threads[t].Answered? {
      KeyDecidesIffIdentityDecides(c, inner, asked, fetch);
      AgreesWithUncached(spec, states, actions, i, t, asked, fetch);
    }
  }

  /** And only then: if the token does make a difference between two of the requests asked, some run gives a caller
      the answer that was meant for the other. */
  lemma CachedRulesAreTheUncachedRulesIff<T(!new)>(
      c: Config, inner: (Request, Outcome<T>) -> bool, asked: Request -> bool, fetch: Request -> Outcome<T>)
    requires NoCollision(c, asked) && forall req :: asked(req) ==> WellFormed(req)
    requires forall req, v :: asked(req) ==> (inner(req, v) <==> v == fetch(req))
    ensures (forall states, actions :: IsRun(Protocol(c, inner), states, actions) && Asks(actions, asked) ==> AnswersAreDirect(states, fetch))
       <==> IdentityDecides(asked, fetch)
  {
    KeyDecidesIffIdentityDecides(c, inner, asked, fetch);
    AgreesIff(Protocol(c, inner), asked, fetch);
  }

  /** No state of any run caches an initialisation error, and nothing is cached of a kind whose TTL is not
      positive; what is cached was fetched for a request with that key. */
  lemma CachedRulesDiscipline<T(!new)>(
      c: Config, inner: (Request, Outcome<T>) -> bool,
      states: seq<State<Request, string, Outcome<T>>>, actions: seq<Action<Request, string, Outcome<T>>>, i: nat, key: string)
    requires IsRun(Protocol(c, inner), states, actions) && i < |states|
    requires key in states[i].cache
    ensures var v := states[i].cache[key].value;
      && (v.Fetched? ==> c.successTTL > 0)
      && (v.Failed? ==> c.failureTTL > 0 && !v.err.InitError?)
      && exists req :: HasKey(req) && KeyOf(c, req) == key && inner(req, v)
  {
    var spec := Protocol(c, inner);
    StoreDiscipline(spec, states, actions, i, key, req => true);
    var v := states[i].cache[key].value;
    assert spec.ttl(v) == TTL(c, v);
    var req :| spec.admits(req) && spec.keyOf(req) == key && spec.inner(req, v);
    assert HasKey(req) && KeyOf(c, req) == key;
  }

  /** Rules stored at some time, and neither evicted nor replaced since, are what every lookup of their key is answered
      until the success TTL is over, and so are errors other than initialisation errors until the failure TTL is
      over; later lookups miss. */
  lemma StoredOutcomeAnswersForItsTTL<T(!new)>(
      c: Config, inner: (Request, Outcome<T>) -> bool,
      states: seq<State<Request, string, Outcome<T>>>, actions: seq<Action<Request, string, Outcome<T>>>,
      j: nat, i: nat, t: nat, u: nat, key: string, v: Outcome<T>)
    requires IsRun(Protocol(c, inner), states, actions) && j < i < |actions|
    requires StoresAt(states, actions, j, t, key, v) && LeftAlone(Protocol(c, inner), states, actions, key, j, i)
    requires actions[i] == Lookup(u) && u < |states[i].threads| && states[i].threads[u].Asked? && states[i].threads[u].key == key
    requires (v.Failed? ==> !v.err.InitError?) && (if v.Fetched? then c.successTTL > 0 else c.failureTTL > 0)
    ensures u < |states[i + 1].threads|
    ensures var life := if v.Fetched? then c.successTTL else c.failureTTL;
      if states[i].now <= states[j].now + life then states[i + 1].threads[u].Answered? && states[i + 1].threads[u].answer == v
      else states[i + 1].threads[u].Missed?
  {
    StoredOutcomeAnswers(Protocol(c, inner), states, actions, j, i, t, u, key, v);
    assert Protocol(c, inner).ttl(v) == TTL(c, v);
  }

  class CachedRulesFetcher<T> {
    const config: Config
    const store: FlightCache<string, Outcome<T>>

    constructor (config: Config)
      ensures this.config == config && fresh(store)
      ensures store.cache == map[] && store.inflight == map[]
    {
      this.config := config;
      store := new FlightCache();
    }

    /** One `GetRules`; `inner` is what the inner fetcher answers. If a call for the key is in flight, `joined` is
        what that call comes back with. */
    method GetRules(req: Request, lookedUp: int, stored: int, joined: Outcome<T>, inner: Request -> Outcome<T>) returns (r: Response<T>)
      modifies store
      ensures store.inflight == old(store.inflight)
      ensures r.KeyError? <==> req.user.name == [] && req.user.uid == []
      ensures r.KeyError? ==> store.cache == old(store.cache)
      ensures r.Response? ==>
        var key := KeyOf(config, req);
        var hit := Hit(old(store.cache), key, lookedUp);
        var joins := key in old(store.inflight);
        && r.outcome == (if hit.Some? then hit.value else if joins then joined else inner(req))
        && store.cache ==
             if hit.Some? then old(store.cache)
             else if joins then AfterGet(old(store.cache), key, lookedUp)
             else AfterStore(AfterGet(old(store.cache), key, lookedUp), key, inner(req), TTL(config, inner(req)), stored, old(store.calls))
      ensures r.Response? ==>
        var key := KeyOf(config, req);
        (if key in old(store.cache) && lookedUp <= old(store.cache)[key].storedAt + old(store.cache)[key].ttl then
           r.outcome == old(store.cache)[key].value && store.cache == old(store.cache)
         else if key in old(store.inflight) then
           r.outcome == joined && store.cache == old(store.cache) - {key}
         else
           && r.outcome == inner(req)
           && (inner(req).Fetched? && config.successTTL > 0 ==>
                 store.cache == old(store.cache)[key := Entry(inner(req), stored, config.successTTL, old(store.calls))])
           && (inner(req).Failed? && !inner(req).err.InitError? && config.failureTTL > 0 ==>
                 store.cache == old(store.cache)[key := Entry(inner(req), stored, config.failureTTL, old(store.calls))])
           && ((inner(req).Failed? && inner(req).err.InitError?) || (if inner(req).Fetched? then config.successTTL else config.failureTTL) <= 0 ==>
                 store.cache == old(store.cache) - {key}))
    {
      if !HasKey(req) { return KeyError; }
      var key := ComputeHash([req.ns, req.user.name, req.user.uid], config.digest);
      var answer := inner(req);
      var outcome := store.Serve(key, lookedUp, stored, joined, answer, TTL(config, answer));
      r := Response(outcome);
    }
  }
}
