/** auth_server/server/server.go as it runs: requested scopes, results and claims share their action slices, and
    two sorts work on them in place. Against the functions of `Pipeline`, and without touching the configuration. */
module Server {
  import opened GoStrings
  import opened StringSet
  import opened Acl
  import opened Scope
  import opened Pipeline
  import opened Users
  import K8s = KubernetesAuthz

  type Stored = Authorizer<array<string>>

  /** A requested scope, its actions in a slice of their own. */
  datatype HeldScope = HeldScope(typ: string, class_: string, name: string, actions: array<string>)

  /** A slice and an error, as the Go functions return them; a nil slice is null. */
  datatype Outcome = Slice(actions: array?<string>) | Pass | Error(detail: string)

  datatype AuthzResult = AuthzResult(scope: HeldScope, authorized: array?<string>)

  datatype ResourceActions = ResourceActions(typ: string, name: string, actions: array<string>)

  ghost function Value(a: array?<string>): seq<string>
    reads a
  {
    if a == null then [] else a[..]
  }

  ghost predicate Says(r: Outcome, v: K8s.Verdict)
    reads if r.Slice? && r.actions != null then {r.actions} else {}
  {
    match v
    case Granted(x) => r.Slice? && Value(r.actions) == x
    case NoMatch => r.Pass?
    case Failed(e) => r == Error(e)
  }

  /** The stored entries hold the listed ones, in slices drawn from `slices`. */
  ghost predicate EntriesHold(stored: seq<Entry<array<string>>>, listed: seq<Entry<seq<string>>>, slices: set<array<string>>)
    reads slices
  {
    && |stored| == |listed|
    && forall j :: 0 <= j < |stored| ==>
      stored[j].cond == listed[j].cond && stored[j].actions in slices && stored[j].actions[..] == listed[j].actions
  }

  ghost predicate Holds(stored: Stored, listed: Authorizer<seq<string>>, slices: set<array<string>>)
    reads slices
  {
    match (stored, listed)
    case (StaticACL(x), StaticACL(y)) => EntriesHold(x, y, slices)
    case (Kubernetes(c, k), Kubernetes(d, l)) => c == d && k == l
    case _ => false
  }

  // ---------------------------------------------------------------- authorizers

  method FindEntry(acl: seq<Entry<array<string>>>, ghost listed: seq<Entry<seq<string>>>, w: Who, env: Env, ghost slices: set<array<string>>)
    returns (place: Option<nat>)
    requires EntriesHold(acl, listed, slices)
    ensures place.None? ==> NoEntryMatches(listed, w, env)
    ensures place.Some? ==> place.value < |acl| && Decides(listed, place.value, w, env)
  {
    for i := 0 to |acl|
      invariant forall j :: 0 <= j < i ==> !EntryMatches(listed[j].cond, w, env)
    {
      var matched := Matches(acl[i].cond, SubjectOf(acl[i].cond, w, env), env.eng);
      if matched { return Some(i); }
    }
    place := None;
  }

  /** `aclAuthorizer.Authorize`. */
  method AuthorizeByACL(
      acl: seq<Entry<array<string>>>, ghost listed: seq<Entry<seq<string>>>, w: Who, actions: array<string>, env: Env,
      ghost slices: set<array<string>>)
    returns (r: Outcome)
    requires EntriesHold(acl, listed, slices)
    ensures Says(r, AclVerdict(listed, w, actions[..], env))
    ensures r.Slice? ==> r.actions == actions || fresh(r.actions)
  {
    var place := FindEntry(acl, listed, w, env, slices);
    NoMatchIff(listed, w, actions[..], env);
    if place.None? { return Pass; }
    FirstMatchDecides(listed, place.value, w, actions[..], env);
    var e := acl[place.value];
    assert e.actions[..] == listed[place.value].actions;
    if e.actions.Length == 1 && e.actions[0] == "*" {
      assert e.actions[..] == ["*"];
      r := Slice(actions);
    } else {
      assert e.actions[..] != ["*"];
      var common := StringSetIntersection(actions[..], e.actions[..]);
      r := Slice(common);
    }
  }

  method AuthorizeBy(a: Stored, ghost listed: Authorizer<seq<string>>, w: Who, actions: array<string>, env: Env, ghost slices: set<array<string>>)
    returns (r: Outcome)
    requires Holds(a, listed, slices)
    ensures Says(r, VerdictOf(listed, w, actions[..], env))
    ensures r.Slice? ==> r.actions == actions || fresh(r.actions)
  {
    match a
    case StaticACL(acl) => r := AuthorizeByACL(acl, listed.acl, w, actions, env, slices);
    case Kubernetes(cfg, cluster) =>
      var v := K8s.Authorize(cfg, cluster, env.tx, w.account, w.data, w.name, actions[..]);
      match v
      case NoMatch => r := Pass;
      case Failed(e) => r := Error(e);
      case Granted(x) =>
        var allowed := new string[|x|](i requires 0 <= i < |x| => x[i]);
        assert allowed[..] == x;
        r := Slice(allowed);
  }

  lemma ScopeVerdictFrom(authorizers: seq<Authorizer<seq<string>>>, i: nat, w: Who, asked: seq<string>, env: Env)
    requires i < |authorizers|
    ensures var v := VerdictOf(authorizers[i], w, asked, env);
      ScopeVerdict(authorizers[i..], w, asked, env) == if v.NoMatch? then ScopeVerdict(authorizers[i + 1..], w, asked, env) else v
  {
    assert authorizers[i..] == [authorizers[i]] + authorizers[i + 1..];
    ChainStep(authorizers[i], authorizers[i + 1..], w, asked, env);
  }

  /** `authorizeScope`. */
  method AuthorizeScope(
      authorizers: seq<Stored>, ghost listed: seq<Authorizer<seq<string>>>, w: Who, actions: array<string>, env: Env,
      ghost slices: set<array<string>>)
    returns (r: Outcome)
    requires |authorizers| == |listed| && forall i :: 0 <= i < |listed| ==> Holds(authorizers[i], listed[i], slices)
    ensures Says(r, ScopeVerdict(listed, w, actions[..], env))
    ensures r.Slice? ==> r.actions == null || r.actions == actions || fresh(r.actions)
  {
    assert listed[0..] == listed;
    for i := 0 to |authorizers|
      invariant ScopeVerdict(listed, w, actions[..], env) == ScopeVerdict(listed[i..], w, actions[..], env)
      invariant forall k :: 0 <= k < |listed| ==> Holds(authorizers[k], listed[k], slices)
    {
      ScopeVerdictFrom(listed, i, w, actions[..], env);
      r := AuthorizeBy(authorizers[i], listed[i], w, actions, env, slices);
      if !r.Pass? { return; }
    }
    r := Slice(null);
  }

  // ---------------------------------------------------------------- requests

  ghost predicate ScopeHolds(held: HeldScope, listed: AuthScope)
    reads held.actions
  {
    && held.typ == listed.typ && held.class_ == listed.class_ && held.name == listed.name
    && held.actions[..] == listed.actions
  }

  ghost predicate ScopesHold(held: seq<HeldScope>, listed: seq<AuthScope>, slices: set<array<string>>)
    reads slices
  {
    && |held| == |listed|
    && forall k :: 0 <= k < |held| ==> held[k].actions in slices && ScopeHolds(held[k], listed[k])
  }

  class AuthRequest {
    const ip: string
    const password: string
    const account: string
    const service: string
    const scopes: seq<HeldScope>
    ghost const slices: set<array<string>>
    var labels: Labels
    var data: Option<UserInfo>

    constructor (p: Parsed, scopes: seq<HeldScope>, ghost slices: set<array<string>>)
      requires ScopesHold(scopes, p.scopes, slices)
      ensures this.scopes == scopes && this.slices == slices
      ensures Is(p)
    {
      this.ip, this.password, this.account, this.service := p.ip, p.password, p.account, p.service;
      this.scopes, this.slices := scopes, slices;
      labels, data := [], None;
    }

    /** The request as a value. */
    ghost predicate Is(p: Parsed)
      reads slices
    {
      && ip == p.ip && password == p.password && account == p.account && service == p.service
      && ScopesHold(scopes, p.scopes, slices)
    }
  }

  /** Each scope's actions in a slice of their own. */
  method HoldScopes(listed: seq<AuthScope>) returns (held: seq<HeldScope>, ghost slices: set<array<string>>)
    ensures fresh(slices)
    ensures ScopesHold(held, listed, slices)
  {
    held, slices := [], {};
    for i := 0 to |listed|
      invariant fresh(slices)
      invariant ScopesHold(held, listed[..i], slices)
    {
      var s := listed[i];
      var actions := new string[|s.actions|](k requires 0 <= k < |s.actions| => s.actions[k]);
      assert actions[..] == s.actions;
      held := held + [HeldScope(s.typ, s.class_, s.name, actions)];
      slices := slices + {actions};
    }
    assert listed[..|listed|] == listed;
  }

  method ParseRequest(req: Request) returns (r: Result<AuthRequest, Complaint>)
    ensures Parse(req).Err? ==> r == Err(Parse(req).error)
    ensures Parse(req).Ok? ==> r.Ok? && fresh(r.value) && fresh(r.value.slices) && r.value.Is(Parse(req).value)
  {
    if req.ip.None? { return Err(UnknownAddress); }
    var user, password := "", "";
    if req.basic.Some? {
      user, password := req.basic.value.0, req.basic.value.1;
    } else if req.form.Some? && req.form.value.0 != "" && req.form.value.1 != "" {
      user, password := req.form.value.0, req.form.value.1;
    }
    var account := req.account;
    if account == "" {
      account := user;
    } else if req.basic.Some? && account != user {
      return Err(AnotherAccount);
    }
    var parsed := ParseRequestScopes(req.scopes);
    match parsed
    case Err(e) => return Err(BadScope(e));
    case Ok(scopes) =>
      var held, slices := HoldScopes(scopes);
      var ar := new AuthRequest(Parsed(req.ip.value, password, account, req.service, scopes), held, slices);
      r := Ok(ar);
  }

  // ---------------------------------------------------------------- the claims

  /** The claim lists the result's slice itself, or an empty one for nil. */
  ghost predicate ClaimFor(c: ResourceActions, r: AuthzResult) {
    c.typ == r.scope.typ && c.name == r.scope.name && (r.authorized != null ==> c.actions == r.authorized)
  }

  /** One round of `CreateToken`'s loop: a nil slice becomes an empty one, any other is sorted where it is. */
  method ClaimOne(r: AuthzResult) returns (c: ResourceActions)
    modifies if r.authorized == null then {} else {r.authorized}
    ensures ClaimFor(c, r)
    ensures c.actions[..] == Sort(old(Value(r.authorized)))
  {
    if r.authorized == null {
      var none := new string[0];
      c := ResourceActions(r.scope.typ, r.scope.name, none);
    } else {
      SortStrings(r.authorized);
      c := ResourceActions(r.scope.typ, r.scope.name, r.authorized);
    }
  }

  /** The claims list the results' slices, and empty ones for nil. */
  ghost predicate ClaimsFor(access: seq<ResourceActions>, results: seq<AuthzResult>) {
    && |access| <= |results|
    && forall k :: 0 <= k < |access| ==>
      ClaimFor(access[k], results[k]) && (results[k].authorized == null ==> access[k].actions.Length == 0)
  }

  /** Where the loop of `CreateToken` has been: the slices in `done` are sorted, the others are as they were. */
  ghost predicate Sorting(slices: set<array<string>>, done: set<array<string>>, was: map<array<string>, seq<string>>)
    reads slices
  {
    && done <= slices == was.Keys
    && forall x :: x in slices ==> x[..] == if x in done then Sort(was[x]) else was[x]
  }

  lemma SortTwice(s: seq<string>)
    ensures Sort(Sort(s)) == Sort(s)
  {
    SortSorts(s);
    SortIsIdentityOnSorted(Sort(s));
  }

  method ClaimNext(r: AuthzResult, ghost slices: set<array<string>>, ghost done: set<array<string>>, ghost was: map<array<string>, seq<string>>)
    returns (c: ResourceActions, ghost done': set<array<string>>)
    requires r.authorized != null ==> r.authorized in slices
    requires Sorting(slices, done, was)
    modifies slices
    ensures ClaimFor(c, r) && (r.authorized == null ==> c.actions.Length == 0)
    ensures done' == if r.authorized == null then done else done + {r.authorized}
    ensures Sorting(slices, done', was)
  {
    var a := r.authorized;
    done' := if a == null then done else done + {a};
    if a != null { SortTwice(was[a]); }
    c := ClaimOne(r);
    forall x | x in slices ensures x[..] == if x in done' then Sort(was[x]) else was[x] {
      if x != a { assert x[..] == old(x[..]); }
    }
  }

  method ClaimEach(results: seq<AuthzResult>, ghost slices: set<array<string>>, ghost was: map<array<string>, seq<string>>)
    returns (access: seq<ResourceActions>, ghost done: set<array<string>>)
    requires forall k :: 0 <= k < |results| && results[k].authorized != null ==> results[k].authorized in slices
    requires Sorting(slices, {}, was)
    modifies slices
    ensures |access| == |results| && ClaimsFor(access, results)
    ensures Sorting(slices, done, was)
    ensures forall k :: 0 <= k < |results| && results[k].authorized != null ==> results[k].authorized in done
  {
    access, done := [], {};
    for i := 0 to |results|
      invariant |access| == i && ClaimsFor(access, results)
      invariant Sorting(slices, done, was)
      invariant forall k :: 0 <= k < i && results[k].authorized != null ==> results[k].authorized in done
    {
      var c;
      c, done := ClaimNext(results[i], slices, done, was);
      access := access + [c];
    }
  }

  /** The loop of `CreateToken`, over results that may share slices: every list in the claims is sorted, and a slice
      that was sorted already keeps its contents, whoever else holds it. */
  method ClaimAccess(results: seq<AuthzResult>, ghost slices: set<array<string>>) returns (access: seq<ResourceActions>)
    requires forall k :: 0 <= k < |results| && results[k].authorized != null ==> results[k].authorized in slices
    modifies slices
    ensures |access| == |results|
    ensures forall k :: 0 <= k < |results| ==>
      ClaimFor(access[k], results[k]) && access[k].actions[..] == Sort(old(Value(results[k].authorized)))
    ensures forall x :: x in slices && Sorted(old(x[..])) ==> x[..] == old(x[..])
  {
    ghost var was := map x | x in slices :: x[..];
    ghost var done;
    access, done := ClaimEach(results, slices, was);
    forall x | x in slices && Sorted(old(x[..])) ensures x[..] == old(x[..]) {
      SortIsIdentityOnSorted(old(x[..]));
    }
  }

  method EncodeAccess(claims: seq<ResourceActions>) returns (access: seq<Access>)
    ensures |access| == |claims|
    ensures forall k :: 0 <= k < |claims| ==> access[k] == Access(claims[k].typ, claims[k].name, claims[k].actions[..])
  {
    access := [];
    for i := 0 to |claims|
      invariant |access| == i
      invariant forall k :: 0 <= k < i ==> access[k] == Access(claims[k].typ, claims[k].name, claims[k].actions[..])
    {
      access := access + [Access(claims[i].typ, claims[i].name, claims[i].actions[..])];
    }
  }

  /** Results that are sorted already: the claims list them, and no slice changes. */
  method ClaimSorted(results: seq<AuthzResult>, ghost actions: seq<seq<string>>) returns (access: seq<Access>)
    requires |results| == |actions|
    requires forall k :: 0 <= k < |results| ==> Value(results[k].authorized) == actions[k] && Sorted(actions[k])
    modifies set k | 0 <= k < |results| && results[k].authorized != null :: results[k].authorized
    ensures |access| == |results|
    ensures forall k :: 0 <= k < |results| ==> access[k] == Access(results[k].scope.typ, results[k].scope.name, Sort(actions[k]))
    ensures forall k :: 0 <= k < |results| ==> Value(results[k].authorized) == actions[k]
  {
    ghost var held: set<array<string>> := set k | 0 <= k < |results| && results[k].authorized != null :: results[k].authorized;
    var claims := ClaimAccess(results, held);
    access := EncodeAccess(claims);
  }

  // ---------------------------------------------------------------- the server

  method Authenticate(authenticators: seq<Authenticator>, account: string, password: string) returns (o: AuthnOutcome)
    ensures o == AuthnVerdict(authenticators, account, password)
  {
    assert authenticators[0..] == authenticators;
    for i := 0 to |authenticators|
      invariant AuthnVerdict(authenticators, account, password) == AuthnVerdict(authenticators[i..], account, password)
    {
      assert authenticators[i..][1..] == authenticators[i + 1..];
      o := authenticators[i](account, password);
      if !o.Unmatched? { return; }
    }
    o := Known(false, [], None);
  }

  /** What the authorizers say of scope `k`. */
  ghost function VerdictAt(listed: seq<Authorizer<seq<string>>>, p: Parsed, o: AuthnOutcome, k: nat, env: Env): K8s.Verdict
    requires o.Known? && k < |p.scopes|
  {
    ScopeVerdict(listed, WhoFor(p, p.scopes[k], o), p.scopes[k].actions, env)
  }

  ghost function GrantedAt(listed: seq<Authorizer<seq<string>>>, p: Parsed, o: AuthnOutcome, k: nat, env: Env): seq<string>
    requires o.Known? && k < |p.scopes|
  {
    var v := VerdictAt(listed, p, o, k, env);
    if v.Granted? then v.actions else []
  }

  lemma AccessIsDetermined(listed: seq<Authorizer<seq<string>>>, p: Parsed, o: AuthnOutcome, access: seq<Access>, env: Env)
    requires o.Known? && |access| == |p.scopes|
    requires forall k :: 0 <= k < |access| ==> AccessIs(access[k], p.scopes[k], VerdictAt(listed, p, o, k, env))
    ensures AccessFor(listed, p, o, p.scopes, env) == Ok(access)
  {
    AccessOfEachScope(listed, p, o, p.scopes, env);
    var r := AccessFor(listed, p, o, p.scopes, env);
    forall k | 0 <= k < |p.scopes| ensures !VerdictAt(listed, p, o, k, env).Failed? {
      assert AccessIs(access[k], p.scopes[k], VerdictAt(listed, p, o, k, env));
    }
    forall k | 0 <= k < |p.scopes| ensures r.value[k] == access[k] {
      assert AccessIs(r.value[k], p.scopes[k], VerdictAt(listed, p, o, k, env));
    }
    assert r.value == access;
  }

  /** The first scope that fails gives the error. */
  lemma {:induction false} FirstFailure(listed: seq<Authorizer<seq<string>>>, p: Parsed, o: AuthnOutcome, scopes: seq<AuthScope>, k: nat, env: Env)
    requires o.Known? && k < |scopes|
    requires forall j :: 0 <= j < k ==> !ScopeVerdict(listed, WhoFor(p, scopes[j], o), scopes[j].actions, env).Failed?
    requires ScopeVerdict(listed, WhoFor(p, scopes[k], o), scopes[k].actions, env).Failed?
    ensures AccessFor(listed, p, o, scopes, env) == Err(ScopeVerdict(listed, WhoFor(p, scopes[k], o), scopes[k].actions, env).detail)
    decreases k
  {
    if k > 0 {
      var rest := scopes[1..];
      forall j | 0 <= j < k - 1 ensures !ScopeVerdict(listed, WhoFor(p, rest[j], o), rest[j].actions, env).Failed? {
        assert rest[j] == scopes[j + 1];
      }
      FirstFailure(listed, p, o, rest, k - 1, env);
    }
  }

  /** The result for scope `k` has its slice: nil, the scope's own, or a new one. */
  ghost predicate ResultFor(r: AuthzResult, held: HeldScope, v: K8s.Verdict)
    reads if r.authorized == null then {} else {r.authorized}
  {
    r.scope == held && v == K8s.Granted(Value(r.authorized))
  }

  class AuthServer {
    const authenticators: seq<Authenticator>
    const authorizers: seq<Stored>
    const env: Env
    /** The configured slices, and what the configuration lists in them. */
    ghost const slices: set<array<string>>
    ghost const listed: seq<Authorizer<seq<string>>>

    /** The configuration still holds what it was loaded with. */
    ghost predicate Valid()
      reads slices
    {
      |authorizers| == |listed| && forall i :: 0 <= i < |listed| ==> Holds(authorizers[i], listed[i], slices)
    }

    /** `NewAuthServer`. */
    constructor (
        authenticators: seq<Authenticator>, acl: Option<seq<Entry<array<string>>>>, k8s: Option<(K8s.Config, K8s.Cluster)>, env: Env,
        ghost aclListed: Option<seq<Entry<seq<string>>>>, ghost slices: set<array<string>>)
      requires acl.Some? <==> aclListed.Some?
      requires acl.Some? ==> EntriesHold(acl.value, aclListed.value, slices)
      ensures Valid()
      ensures this.authenticators == authenticators && authorizers == Chain(acl, k8s) && this.env == env
      ensures this.slices == slices && listed == Chain(aclListed, k8s)
    {
      this.authenticators, this.env := authenticators, env;
      authorizers := Chain(acl, k8s);
      this.slices := slices;
      listed := Chain(aclListed, k8s);
    }

    method Authorize(ar: AuthRequest, ghost p: Parsed, o: AuthnOutcome) returns (r: Result<seq<AuthzResult>, string>)
      requires Valid() && ar.Is(p) && o.Known?
      ensures r.Err? ==> AccessFor(listed, p, o, p.scopes, env) == Err(r.error)
      ensures r.Ok? ==> |r.value| == |p.scopes|
      ensures r.Ok? ==> forall k :: 0 <= k < |p.scopes| ==> ResultFor(r.value[k], ar.scopes[k], VerdictAt(listed, p, o, k, env))
      ensures r.Ok? ==> forall k :: 0 <= k < |p.scopes| ==>
        var x := r.value[k].authorized; x == null || x == ar.scopes[k].actions || fresh(x)
    {
      var results: seq<AuthzResult> := [];
      for i := 0 to |ar.scopes|
        invariant |results| == i
        invariant forall k :: 0 <= k < i ==> ResultFor(results[k], ar.scopes[k], VerdictAt(listed, p, o, k, env))
        invariant forall k :: 0 <= k < i ==>
          var x := results[k].authorized; x == null || x == ar.scopes[k].actions || fresh(x)
      {
        var scope := ar.scopes[i];
        assert ScopeHolds(scope, p.scopes[i]);
        var w := Who(ar.account, scope.typ, scope.name, ar.service, ar.ip, o.labels, o.data);
        var outcome := AuthorizeScope(authorizers, listed, w, scope.actions, env, slices);
        assert Says(outcome, VerdictAt(listed, p, o, i, env));
        if outcome.Error? {
          FirstFailure(listed, p, o, p.scopes, i, env);
          return Err(outcome.detail);
        }
        results := results + [AuthzResult(scope, outcome.actions)];
      }
      r := Ok(results);
    }

    /** `doAuth` after parsing. The request's scopes and their actions are as they were, and so is the configuration. */
    method Answer(ar: AuthRequest, ghost p: Parsed) returns (resp: Response)
      requires Valid() && ar.Is(p) && ar.slices !! slices
      requires forall k :: 0 <= k < |p.scopes| ==> Sorted(p.scopes[k].actions)
      modifies ar`labels, ar`data, ar.slices
      ensures resp == Reply(authenticators, listed, p, env)
      ensures Valid() && ar.Is(p)
    {
      var o := Authenticate(authenticators, ar.account, ar.password);
      match o
      case Rejected(_) => return Unauthorized;
      case Broken(e) => return ServerError(e);
      case Known(authenticated, labels, data) =>
        if !authenticated { return Unauthorized; }
        ar.labels := labels;
        ar.data := data;
        var granted := Authorize(ar, p, o);
        if granted.Err? { return ServerError(granted.error); }
        var access := CreateAccess(ar, granted.value, p, o);
        resp := Token(ar.account, ar.service, access);
    }

    /** The access part of `CreateToken`'s claims as it is encoded. */
    method CreateAccess(ar: AuthRequest, results: seq<AuthzResult>, ghost p: Parsed, o: AuthnOutcome) returns (access: seq<Access>)
      requires Valid() && ar.Is(p) && o.Known?
      requires |results| == |p.scopes|
      requires forall k :: 0 <= k < |p.scopes| ==> Sorted(p.scopes[k].actions)
      requires forall k :: 0 <= k < |p.scopes| ==> ResultFor(results[k], ar.scopes[k], VerdictAt(listed, p, o, k, env))
      modifies set k | 0 <= k < |results| && results[k].authorized != null :: results[k].authorized
      ensures AccessFor(listed, p, o, p.scopes, env) == Ok(access)
      ensures Valid() && ar.Is(p)
    {
      ghost var actions := seq(|p.scopes|, k requires 0 <= k < |p.scopes| => GrantedAt(listed, p, o, k, env));
      forall k | 0 <= k < |p.scopes| ensures Sorted(actions[k]) {
        VerdictIsSortedPartOfRequest(listed, WhoFor(p, p.scopes[k], o), p.scopes[k].actions, env);
      }
      access := ClaimSorted(results, actions);
      AccessIsDetermined(listed, p, o, access, env);
    }

    /** `doAuth`. It modifies nothing that existed before the request: however often it is called, the configured
        slices hold what was loaded, and every answer is the one the configuration calls for. */
    method DoAuth(req: Request) returns (resp: Response)
      requires Valid()
      ensures resp == Respond(authenticators, listed, req, env)
      ensures Valid()
    {
      var parsed := ParseRequest(req);
      if parsed.Err? { return BadRequest(parsed.error); }
      ParsedActionsAreSorted(if req.scopes == [] then [] else Pieces(req.scopes));
      resp := Answer(parsed.value, Parse(req).value);
    }
  }
}
