/** What the /auth request of auth_server/server/server.go answers, on values: who may do what, decided by a chain
    of authenticators and a chain of authorizers. Module `Server` has the code that computes it. */
module Pipeline {
  import opened GoStrings
  import opened StringSet
  import opened Acl
  import opened Substitution
  import opened Scope
  import opened Rules
  import opened Users
  import CacheKey
  import K8s = KubernetesAuthz

  type Labels = ls: seq<Label> | DistinctNames(ls) witness []

  /** Who asks for which repository. */
  datatype Who = Who(account: string, typ: string, name: string, service: string, ip: string, labels: Labels, data: Option<UserInfo>)

  /** What the matchers take from libraries and from the capture groups of an entry's expressions. */
  datatype Env = Env(eng: Engines, tx: Texts, captures: (MatchConditions, Who) -> seq<Var>)

  // ---------------------------------------------------------------- authorizers

  /** An ACL entry; `A` is how its actions are held, as a slice in the running server, as a list here. */
  datatype Entry<A> = Entry(cond: MatchConditions, actions: A)

  datatype Authorizer<A> =
    | StaticACL(acl: seq<Entry<A>>)
    | Kubernetes(cfg: K8s.Config, cluster: K8s.Cluster)

  function SubjectOf(mc: MatchConditions, w: Who, env: Env): Subject {
    Subject(w.account, w.typ, w.name, w.service, Some(w.ip), w.labels, env.captures(mc, w))
  }

  predicate EntryMatches(mc: MatchConditions, w: Who, env: Env) {
    Admits(mc, SubjectOf(mc, w, env), env.eng)
  }

  function Grants(granted: seq<string>, asked: seq<string>): seq<string> {
    if granted == ["*"] then asked else Intersection(asked, granted)
  }

  /** First match wins. */
  function AclVerdict(acl: seq<Entry<seq<string>>>, w: Who, asked: seq<string>, env: Env): K8s.Verdict {
    if acl == [] then K8s.NoMatch
    else if EntryMatches(acl[0].cond, w, env) then K8s.Granted(Grants(acl[0].actions, asked))
    else AclVerdict(acl[1..], w, asked, env)
  }

  function VerdictOf(a: Authorizer<seq<string>>, w: Who, asked: seq<string>, env: Env): K8s.Verdict {
    match a
    case StaticACL(acl) => AclVerdict(acl, w, asked, env)
    case Kubernetes(cfg, cluster) => K8s.Decide(cfg, cluster, env.tx, w.account, w.data, w.name, asked)
  }

  /** The first verdict other than `NoMatch`; nothing is granted by default. */
  function ScopeVerdict(authorizers: seq<Authorizer<seq<string>>>, w: Who, asked: seq<string>, env: Env): (v: K8s.Verdict)
    ensures !v.NoMatch?
  {
    if authorizers == [] then K8s.Granted([])
    else
      var v := VerdictOf(authorizers[0], w, asked, env);
      if v.NoMatch? then ScopeVerdict(authorizers[1..], w, asked, env) else v
  }

  /** The chain `NewAuthServer` builds when no plugin is configured: the ACL goes before Kubernetes. */
  function Chain<A>(acl: Option<seq<Entry<A>>>, k8s: Option<(K8s.Config, K8s.Cluster)>): seq<Authorizer<A>> {
    (if acl.Some? then [StaticACL(acl.value)] else []) +
    (if k8s.Some? then [Kubernetes(k8s.value.0, k8s.value.1)] else [])
  }

  // ---------------------------------------------------------------- authenticators

  /** `Unmatched` is api.NoMatch, `Rejected` an *api.AuthFailed, `Broken` any other error. */
  datatype AuthnOutcome =
    | Known(authenticated: bool, labels: Labels, data: Option<UserInfo>)
    | Unmatched
    | Rejected(detail: string)
    | Broken(detail: string)

  type Authenticator = (string, string) -> AuthnOutcome

  function AuthnVerdict(authenticators: seq<Authenticator>, account: string, password: string): (o: AuthnOutcome)
    ensures !o.Unmatched?
  {
    if authenticators == [] then Known(false, [], None)
    else
      var o := authenticators[0](account, password);
      if o.Unmatched? then AuthnVerdict(authenticators[1..], account, password) else o
  }

  // ---------------------------------------------------------------- requests and responses

  /** A decoded request: basic credentials if the header has them, form credentials if it is a POST. */
  datatype Request = Request(
    ip: Option<string>,
    basic: Option<(string, string)>,
    form: Option<(string, string)>,
    account: string,
    service: string,
    scopes: seq<string>)

  datatype Complaint = UnknownAddress | AnotherAccount | BadScope(error: ParseError)

  datatype Access = Access(typ: string, name: string, actions: seq<string>)

  datatype Response =
    | BadRequest(reason: Complaint)
    | Unauthorized
    | ServerError(detail: string)
    | Token(subject: string, audience: string, access: seq<Access>)

  datatype Parsed = Parsed(ip: string, password: string, account: string, service: string, scopes: seq<AuthScope>)

  function Credentials(req: Request): (string, string) {
    if req.basic.Some? then req.basic.value
    else if req.form.Some? && req.form.value.0 != "" && req.form.value.1 != "" then req.form.value
    else ("", "")
  }

  function AccountOf(req: Request): string {
    if req.account == "" then Credentials(req).0 else req.account
  }

  /** `ParseRequest`. */
  function Parse(req: Request): Result<Parsed, Complaint> {
    if req.ip.None? then Err(UnknownAddress)
    else if req.account != "" && req.basic.Some? && req.account != req.basic.value.0 then Err(AnotherAccount)
    else
      match ParseScopes(req.scopes)
      case Err(e) => Err(BadScope(e))
      case Ok(scopes) => Ok(Parsed(req.ip.value, Credentials(req).1, AccountOf(req), req.service, scopes))
  }

  function WhoFor(p: Parsed, s: AuthScope, o: AuthnOutcome): Who
    requires o.Known?
  {
    Who(p.account, s.typ, s.name, p.service, p.ip, o.labels, o.data)
  }

  /** Every scope in turn; the first failure ends it. */
  function AccessFor(authorizers: seq<Authorizer<seq<string>>>, p: Parsed, o: AuthnOutcome, scopes: seq<AuthScope>, env: Env): Result<seq<Access>, string>
    requires o.Known?
  {
    if scopes == [] then Ok([])
    else
      var s := scopes[0];
      match ScopeVerdict(authorizers, WhoFor(p, s, o), s.actions, env)
      case Failed(e) => Err(e)
      case Granted(actions) =>
        var rest := AccessFor(authorizers, p, o, scopes[1..], env);
        if rest.Err? then rest else Ok([Access(s.typ, s.name, Sort(actions))] + rest.value)
  }

  /** `doAuth` after parsing. */
  function Reply(authenticators: seq<Authenticator>, authorizers: seq<Authorizer<seq<string>>>, p: Parsed, env: Env): Response {
    match AuthnVerdict(authenticators, p.account, p.password)
    case Rejected(_) => Unauthorized
    case Broken(e) => ServerError(e)
    case Known(authenticated, labels, data) =>
      if !authenticated then Unauthorized
      else
        match AccessFor(authorizers, p, Known(authenticated, labels, data), p.scopes, env)
        case Err(e) => ServerError(e)
        case Ok(access) => Token(p.account, p.service, access)
  }

  function Respond(authenticators: seq<Authenticator>, authorizers: seq<Authorizer<seq<string>>>, req: Request, env: Env): Response {
    match Parse(req)
    case Err(c) => BadRequest(c)
    case Ok(p) => Reply(authenticators, authorizers, p, env)
  }

  // ---------------------------------------------------------------- exactly what a token grants

  /** Entry `i` is the one that decides: it matches and none before it does. */
  ghost predicate Decides(acl: seq<Entry<seq<string>>>, i: nat, w: Who, env: Env) {
    i < |acl| && EntryMatches(acl[i].cond, w, env) && forall j :: 0 <= j < i ==> !EntryMatches(acl[j].cond, w, env)
  }

  ghost predicate NoEntryMatches(acl: seq<Entry<seq<string>>>, w: Who, env: Env) {
    forall j :: 0 <= j < |acl| ==> !EntryMatches(acl[j].cond, w, env)
  }

  /** An entry without special characters applies to exactly the requests with these fields. */
  lemma LiteralEntryMatches(mc: MatchConditions, w: Who, env: Env)
    requires LiteralConditions(mc) && forall v :: v in env.captures(mc, w) ==> v.key[0] == '$'
    ensures EntryMatches(mc, w, env) <==>
      && (mc.account.Some? ==> w.account == mc.account.value)
      && (mc.typ.Some? ==> w.typ == mc.typ.value)
      && (mc.name.Some? ==> w.name == mc.name.value)
      && (mc.service.Some? ==> w.service == mc.service.value)
      && (mc.ip.Some? ==> env.eng.network(mc.ip.value, w.ip))
      && (forall c :: c in mc.labels ==> exists l :: l in w.labels && l.name == c.0 && c.1 in l.values)
  {
    LiteralConditionsMeanEquality(mc, SubjectOf(mc, w, env), env.eng);
  }

  lemma {:induction false} NoMatchIff(acl: seq<Entry<seq<string>>>, w: Who, asked: seq<string>, env: Env)
    ensures AclVerdict(acl, w, asked, env).NoMatch? <==> NoEntryMatches(acl, w, env)
    ensures !AclVerdict(acl, w, asked, env).Failed?
  {
    if acl != [] && !EntryMatches(acl[0].cond, w, env) {
      NoMatchIff(acl[1..], w, asked, env);
      NoEntryCons(acl, w, env);
    }
  }

  lemma NoEntryCons(acl: seq<Entry<seq<string>>>, w: Who, env: Env)
    requires acl != []
    ensures NoEntryMatches(acl, w, env) <==> !EntryMatches(acl[0].cond, w, env) && NoEntryMatches(acl[1..], w, env)
  {
    var rest := acl[1..];
    if !EntryMatches(acl[0].cond, w, env) && NoEntryMatches(rest, w, env) {
      forall j | 0 <= j < |acl| ensures !EntryMatches(acl[j].cond, w, env) {
        assert j > 0 ==> acl[j] == rest[j - 1];
      }
    }
    if NoEntryMatches(acl, w, env) {
      forall j | 0 <= j < |rest| ensures !EntryMatches(rest[j].cond, w, env) {
        assert rest[j] == acl[j + 1];
      }
    }
  }

  /** The deciding entry alone gives the verdict: ["*"] grants what was asked, as it was asked; any other list grants
      what both hold, once and in order. */
  lemma {:induction false} FirstMatchDecides(acl: seq<Entry<seq<string>>>, i: nat, w: Who, asked: seq<string>, env: Env)
    requires Decides(acl, i, w, env)
    ensures AclVerdict(acl, w, asked, env) == K8s.Granted(Grants(acl[i].actions, asked))
    ensures acl[i].actions == ["*"] ==> AclVerdict(acl, w, asked, env) == K8s.Granted(asked)
    ensures acl[i].actions != ["*"] ==> IsIntersection(AclVerdict(acl, w, asked, env).actions, asked, acl[i].actions)
    decreases i
  {
    if i > 0 {
      assert !EntryMatches(acl[0].cond, w, env);
      DecidesInTail(acl, i, w, env);
      FirstMatchDecides(acl[1..], i - 1, w, asked, env);
    }
  }

  lemma DecidesInTail(acl: seq<Entry<seq<string>>>, i: nat, w: Who, env: Env)
    requires Decides(acl, i, w, env) && i > 0
    ensures Decides(acl[1..], i - 1, w, env)
  {
    var rest := acl[1..];
    forall j | 0 <= j < i - 1 ensures !EntryMatches(rest[j].cond, w, env) {
      assert rest[j] == acl[j + 1];
    }
  }

  /** The ACL gives the action: its deciding entry is exactly ["*"] or lists it. */
  ghost predicate AclGives(acl: seq<Entry<seq<string>>>, w: Who, action: string, env: Env) {
    exists i: nat :: Decides(acl, i, w, env) && (acl[i].actions == ["*"] || action in acl[i].actions)
  }

  /** The cluster gives the action to the user the authenticator vouched for. */
  ghost predicate KubernetesGives(cfg: K8s.Config, cluster: K8s.Cluster, w: Who, asked: seq<string>, action: string, env: Env) {
    var (ns, path) := K8s.SplitNamespaceAndPath(w.name);
    K8s.Concerned(cfg, w.account, w.data, path) && K8s.ClusterAllows(cfg, cluster, env.tx, w.data.value, ns, path, asked, action)
  }

  ghost predicate KubernetesFails(cfg: K8s.Config, cluster: K8s.Cluster, w: Who, asked: seq<string>, env: Env) {
    var (ns, path) := K8s.SplitNamespaceAndPath(w.name);
    asked != [] && K8s.Concerned(cfg, w.account, w.data, path) && K8s.Unanswered(cfg, cluster, w.data.value, ns, asked)
  }

  function Entries(acl: Option<seq<Entry<seq<string>>>>): seq<Entry<seq<string>>> {
    if acl.Some? then acl.value else []
  }

  /** The deciding ACL entry gives the action, or no entry matches and the cluster gives it. */
  ghost predicate Given(acl: Option<seq<Entry<seq<string>>>>, k8s: Option<(K8s.Config, K8s.Cluster)>, w: Who, asked: seq<string>, action: string, env: Env) {
    || AclGives(Entries(acl), w, action, env)
    || (NoEntryMatches(Entries(acl), w, env) && k8s.Some? && KubernetesGives(k8s.value.0, k8s.value.1, w, asked, action, env))
  }

  /** No entry matches and a question for the cluster goes unanswered. */
  ghost predicate Fails(acl: Option<seq<Entry<seq<string>>>>, k8s: Option<(K8s.Config, K8s.Cluster)>, w: Who, asked: seq<string>, env: Env) {
    NoEntryMatches(Entries(acl), w, env) && k8s.Some? && KubernetesFails(k8s.value.0, k8s.value.1, w, asked, env)
  }

  /** An action is granted on a scope iff it was asked for and either the deciding ACL entry gives it, or no ACL
      entry matches and the cluster gives it. A deciding entry without actions therefore grants nothing, whatever
      the cluster says. The scope fails iff the cluster's answer is needed and missing. */
  lemma GrantIff(acl: Option<seq<Entry<seq<string>>>>, k8s: Option<(K8s.Config, K8s.Cluster)>, w: Who, asked: seq<string>, action: string, env: Env)
    ensures var v := ScopeVerdict(Chain(acl, k8s), w, asked, env);
      && (v.Granted? && action in v.actions <==> action in asked && Given(acl, k8s, w, asked, action, env))
      && (v.Failed? <==> Fails(acl, k8s, w, asked, env))
  {
    ChainVerdict(acl, k8s, w, asked, env);
    NoMatchIff(Entries(acl), w, asked, env);
    if !NoEntryMatches(Entries(acl), w, env) {
      var i := DecidingEntry(Entries(acl), w, env);
      FirstMatchDecides(Entries(acl), i, w, asked, env);
    } else if k8s.Some? {
      K8s.GrantedIff(k8s.value.0, k8s.value.1, env.tx, w.account, w.data, w.name, asked, action);
      K8s.FailsIff(k8s.value.0, k8s.value.1, env.tx, w.account, w.data, w.name, asked);
    }
  }

  /** An ACL entry without actions, once it decides, denies everything: the cluster is not asked. */
  lemma EmptyEntryShutsOutTheCluster(acl: seq<Entry<seq<string>>>, i: nat, k8s: Option<(K8s.Config, K8s.Cluster)>, w: Who, asked: seq<string>, env: Env)
    requires Decides(acl, i, w, env) && acl[i].actions == []
    ensures ScopeVerdict(Chain(Some(acl), k8s), w, asked, env) == K8s.Granted([])
  {
    ChainVerdict(Some(acl), k8s, w, asked, env);
    FirstMatchDecides(acl, i, w, asked, env);
    IntersectionIsUnique(Intersection(asked, []), [], asked, [], asked, []);
  }

  /** The second authorizer is asked exactly when no ACL entry matches. */
  lemma ChainVerdict(acl: Option<seq<Entry<seq<string>>>>, k8s: Option<(K8s.Config, K8s.Cluster)>, w: Who, asked: seq<string>, env: Env)
    ensures ScopeVerdict(Chain(acl, k8s), w, asked, env) ==
      if !NoEntryMatches(Entries(acl), w, env) then AclVerdict(Entries(acl), w, asked, env)
      else if k8s.None? then K8s.Granted([])
      else
        var v := K8s.Decide(k8s.value.0, k8s.value.1, env.tx, w.account, w.data, w.name, asked);
        if v.NoMatch? then K8s.Granted([]) else v
  {
    NoMatchIff(Entries(acl), w, asked, env);
    var second: seq<Authorizer<seq<string>>> := if k8s.Some? then [Kubernetes(k8s.value.0, k8s.value.1)] else [];
    if acl.Some? { ChainStep(StaticACL(acl.value), second, w, asked, env); }
    if k8s.Some? { ChainStep(Kubernetes(k8s.value.0, k8s.value.1), [], w, asked, env); }
    assert [] + second == second && second + [] == second;
  }

  lemma ChainStep(a: Authorizer<seq<string>>, rest: seq<Authorizer<seq<string>>>, w: Who, asked: seq<string>, env: Env)
    ensures var v := VerdictOf(a, w, asked, env);
      ScopeVerdict([a] + rest, w, asked, env) == if v.NoMatch? then ScopeVerdict(rest, w, asked, env) else v
  {
    assert ([a] + rest)[1..] == rest;
  }

  lemma DecidingEntry(acl: seq<Entry<seq<string>>>, w: Who, env: Env) returns (i: nat)
    requires !NoEntryMatches(acl, w, env)
    ensures Decides(acl, i, w, env)
    ensures forall k: nat :: Decides(acl, k, w, env) ==> k == i
  {
    var matching := seq(|acl|, j requires 0 <= j < |acl| => EntryMatches(acl[j].cond, w, env));
    var j :| 0 <= j < |acl| && EntryMatches(acl[j].cond, w, env);
    assert matching[j];
    i := FirstTrue(matching);
    forall k | 0 <= k < i ensures !EntryMatches(acl[k].cond, w, env) { assert !matching[k]; }
  }

  lemma {:induction false} FirstTrue(bs: seq<bool>) returns (i: nat)
    requires true in bs
    ensures i < |bs| && bs[i] && forall j :: 0 <= j < i ==> !bs[j]
  {
    if bs[0] {
      i := 0;
    } else {
      var k := FirstTrue(bs[1..]);
      i := k + 1;
      assert forall j :: 1 <= j < i ==> bs[j] == bs[1..][j - 1];
    }
  }

  // ---------------------------------------------------------------- the token as a whole

  /** What is granted was asked for, and stays sorted if the request was. */
  lemma {:induction false} VerdictIsSortedPartOfRequest(authorizers: seq<Authorizer<seq<string>>>, w: Who, asked: seq<string>, env: Env)
    ensures var v := ScopeVerdict(authorizers, w, asked, env);
      v.Granted? ==> (forall a :: a in v.actions ==> a in asked) && (Sorted(asked) ==> Sorted(v.actions))
  {
    if authorizers != [] {
      OneVerdictIsSortedPartOfRequest(authorizers[0], w, asked, env);
      VerdictIsSortedPartOfRequest(authorizers[1..], w, asked, env);
    }
  }

  lemma OneVerdictIsSortedPartOfRequest(a: Authorizer<seq<string>>, w: Who, asked: seq<string>, env: Env)
    ensures var v := VerdictOf(a, w, asked, env);
      v.Granted? ==> (forall a :: a in v.actions ==> a in asked) && (Sorted(asked) ==> Sorted(v.actions))
  {
    match a
    case StaticACL(acl) =>
      NoMatchIff(acl, w, asked, env);
      if !NoEntryMatches(acl, w, env) {
        var i := DecidingEntry(acl, w, env);
        FirstMatchDecides(acl, i, w, asked, env);
        StrictlySortedIsSorted(Intersection(asked, acl[i].actions));
      }
    case Kubernetes(cfg, cluster) =>
      KubernetesIsSortedPartOfRequest(cfg, cluster, w, asked, env);
  }

  lemma KubernetesIsSortedPartOfRequest(cfg: K8s.Config, cluster: K8s.Cluster, w: Who, asked: seq<string>, env: Env)
    ensures var v := K8s.Decide(cfg, cluster, env.tx, w.account, w.data, w.name, asked);
      v.Granted? ==> (forall a :: a in v.actions ==> a in asked) && (Sorted(asked) ==> Sorted(v.actions))
  {
    var v := K8s.Decide(cfg, cluster, env.tx, w.account, w.data, w.name, asked);
    if v.Granted? {
      var (ns, path) := K8s.SplitNamespaceAndPath(w.name);
      var rules := Filtered(cfg.authz, cluster.rules(w.data.value, CacheKey.AsText(ns)).value, env.tx);
      K8s.AllowedMembers(rules, path, env.tx, asked);
      if Sorted(asked) { K8s.AllowedStaysSorted(rules, path, env.tx, asked); }
    }
  }

  ghost predicate AccessIs(a: Access, s: AuthScope, v: K8s.Verdict) {
    v.Granted? && a == Access(s.typ, s.name, Sort(v.actions))
  }

  /** Access is given iff no scope fails, and then scope by scope, in the order of the request. */
  lemma {:induction false} AccessOfEachScope(authorizers: seq<Authorizer<seq<string>>>, p: Parsed, o: AuthnOutcome, scopes: seq<AuthScope>, env: Env)
    requires o.Known?
    ensures var r := AccessFor(authorizers, p, o, scopes, env);
      && (r.Ok? <==> forall k :: 0 <= k < |scopes| ==> !ScopeVerdict(authorizers, WhoFor(p, scopes[k], o), scopes[k].actions, env).Failed?)
      && (r.Ok? ==> |r.value| == |scopes|)
      && (r.Ok? ==> forall k :: 0 <= k < |scopes| ==>
            AccessIs(r.value[k], scopes[k], ScopeVerdict(authorizers, WhoFor(p, scopes[k], o), scopes[k].actions, env)))
  {
    if scopes != [] {
      var rest := scopes[1..];
      AccessOfEachScope(authorizers, p, o, rest, env);
      assert forall k :: 0 <= k < |rest| ==> rest[k] == scopes[k + 1];
    }
  }

  /** Every accepted scope has its actions sorted. */
  lemma {:induction false} ParsedActionsAreSorted(pieces: seq<string>)
    ensures ParsePieces(pieces).Ok? ==> forall k :: 0 <= k < |ParsePieces(pieces).value| ==> Sorted(ParsePieces(pieces).value[k].actions)
  {
    if pieces != [] && ParsePiece(pieces[0]).Ok? {
      var parts := Split(pieces[0], ':');
      SortSorts(Split(parts[|parts| - 1], ','));
      ParsedActionsAreSorted(pieces[1..]);
    }
  }

  /** Which requests are refused before anybody is asked, in this order, and what is made of the others: with basic
      credentials the account is always their user; without, form credentials count if both are given, and the account
      parameter goes before their user. */
  lemma ParseIff(req: Request)
    ensures Parse(req) == Err(UnknownAddress) <==> req.ip.None?
    ensures Parse(req) == Err(AnotherAccount) <==>
      req.ip.Some? && req.basic.Some? && req.account != "" && req.account != req.basic.value.0
    ensures forall e :: Parse(req) == Err(BadScope(e)) <==>
      req.ip.Some? && (req.basic.Some? ==> req.account in ["", req.basic.value.0]) && ParseScopes(req.scopes) == Err(e)
    ensures Parse(req).Ok? ==>
      var p := Parse(req).value;
      && Some(p.ip) == req.ip && p.service == req.service && ParseScopes(req.scopes) == Ok(p.scopes)
      && (req.basic.Some? ==> p.account == req.basic.value.0 && p.password == req.basic.value.1)
      && (req.basic.None? ==>
            if req.form.Some? && req.form.value.0 != "" && req.form.value.1 != "" then
              p.password == req.form.value.1 && p.account == (if req.account != "" then req.account else req.form.value.0)
            else
              p.password == "" && p.account == req.account)
  {
  }

  // ---------------------------------------------------------------- who vouches for the user

  /** Authenticator `i` answers `o`, and every one before it does not know the account. */
  ghost predicate Answers(authenticators: seq<Authenticator>, i: nat, account: string, password: string, o: AuthnOutcome) {
    && i < |authenticators| && authenticators[i](account, password) == o && !o.Unmatched?
    && forall j :: 0 <= j < i ==> authenticators[j](account, password).Unmatched?
  }

  ghost predicate NobodyKnows(authenticators: seq<Authenticator>, account: string, password: string) {
    forall j :: 0 <= j < |authenticators| ==> authenticators[j](account, password).Unmatched?
  }

  lemma {:induction false} SomebodyAnswers(authenticators: seq<Authenticator>, account: string, password: string) returns (i: nat)
    requires !NobodyKnows(authenticators, account, password)
    ensures Answers(authenticators, i, account, password, AuthnVerdict(authenticators, account, password))
  {
    if authenticators[0](account, password).Unmatched? {
      var rest := authenticators[1..];
      assert exists j :: 0 <= j < |rest| && !rest[j](account, password).Unmatched? by {
        var j :| 0 <= j < |authenticators| && !authenticators[j](account, password).Unmatched?;
        assert rest[j - 1] == authenticators[j];
      }
      var k := SomebodyAnswers(rest, account, password);
      i := k + 1;
      forall j | 0 <= j < i ensures authenticators[j](account, password).Unmatched? {
        if j > 0 { assert authenticators[j] == rest[j - 1]; }
      }
    } else {
      i := 0;
    }
  }

  /** An account nobody knows is not authenticated; otherwise the first answer counts. */
  lemma {:induction false} AuthnVerdictIs(authenticators: seq<Authenticator>, account: string, password: string)
    ensures NobodyKnows(authenticators, account, password) ==>
      AuthnVerdict(authenticators, account, password) == Known(false, [], None)
    ensures forall i: nat, o :: Answers(authenticators, i, account, password, o) ==> AuthnVerdict(authenticators, account, password) == o
  {
    if NobodyKnows(authenticators, account, password) {
      if authenticators != [] { AuthnVerdictIs(authenticators[1..], account, password); }
    } else {
      var k := SomebodyAnswers(authenticators, account, password);
      forall i: nat, o | Answers(authenticators, i, account, password, o) ensures AuthnVerdict(authenticators, account, password) == o {
        OneAnswerCounts(authenticators, i, k, account, password, o, AuthnVerdict(authenticators, account, password));
      }
    }
  }

  lemma OneAnswerCounts(authenticators: seq<Authenticator>, i: nat, k: nat, account: string, password: string, o: AuthnOutcome, o': AuthnOutcome)
    requires Answers(authenticators, i, account, password, o) && Answers(authenticators, k, account, password, o')
    ensures i == k && o == o'
  {
  }

  /** The user is authenticated with these labels and this data. */
  ghost predicate Vouched(authenticators: seq<Authenticator>, p: Parsed, labels: Labels, data: Option<UserInfo>) {
    exists i: nat :: Answers(authenticators, i, p.account, p.password, Known(true, labels, data))
  }

  lemma VouchedIff(authenticators: seq<Authenticator>, p: Parsed, labels: Labels, data: Option<UserInfo>)
    ensures Vouched(authenticators, p, labels, data) <==> AuthnVerdict(authenticators, p.account, p.password) == Known(true, labels, data)
  {
    AuthnVerdictIs(authenticators, p.account, p.password);
    if AuthnVerdict(authenticators, p.account, p.password) == Known(true, labels, data) {
      var i := SomebodyAnswers(authenticators, p.account, p.password);
      assert Answers(authenticators, i, p.account, p.password, Known(true, labels, data));
    }
  }

  /** Scope `k` fails for the user with these labels and this data. */
  ghost predicate ScopeFails(acl: Option<seq<Entry<seq<string>>>>, k8s: Option<(K8s.Config, K8s.Cluster)>, p: Parsed, k: nat,
                             labels: Labels, data: Option<UserInfo>, env: Env)
    requires k < |p.scopes|
  {
    Fails(acl, k8s, Who(p.account, p.scopes[k].typ, p.scopes[k].name, p.service, p.ip, labels, data), p.scopes[k].actions, env)
  }

  lemma AccessIffNoScopeFails(acl: Option<seq<Entry<seq<string>>>>, k8s: Option<(K8s.Config, K8s.Cluster)>, p: Parsed,
                              labels: Labels, data: Option<UserInfo>, env: Env)
    ensures AccessFor(Chain(acl, k8s), p, Known(true, labels, data), p.scopes, env).Ok?
       <==> forall k :: 0 <= k < |p.scopes| ==> !ScopeFails(acl, k8s, p, k, labels, data, env)
  {
    var o := Known(true, labels, data);
    AccessOfEachScope(Chain(acl, k8s), p, o, p.scopes, env);
    forall k | 0 <= k < |p.scopes|
      ensures ScopeVerdict(Chain(acl, k8s), WhoFor(p, p.scopes[k], o), p.scopes[k].actions, env).Failed?
        <==> ScopeFails(acl, k8s, p, k, labels, data, env)
    {
      GrantIff(acl, k8s, WhoFor(p, p.scopes[k], o), p.scopes[k].actions, "", env);
    }
  }

  /** A token is issued iff the request parses, some authenticator says the user is authenticated while none before it
      knows the account, and no scope fails. */
  lemma TokenIff(authenticators: seq<Authenticator>, acl: Option<seq<Entry<seq<string>>>>, k8s: Option<(K8s.Config, K8s.Cluster)>, req: Request, env: Env)
    ensures Respond(authenticators, Chain(acl, k8s), req, env).Token? <==>
      && Parse(req).Ok?
      && exists labels, data :: Vouched(authenticators, Parse(req).value, labels, data)
           && forall k :: 0 <= k < |Parse(req).value.scopes| ==> !ScopeFails(acl, k8s, Parse(req).value, k, labels, data, env)
  {
    if Parse(req).Ok? {
      var p := Parse(req).value;
      forall labels, data ensures Vouched(authenticators, p, labels, data)
        <==> AuthnVerdict(authenticators, p.account, p.password) == Known(true, labels, data)
      {
        VouchedIff(authenticators, p, labels, data);
      }
      var o := AuthnVerdict(authenticators, p.account, p.password);
      if o.Known? && o.authenticated {
        assert Vouched(authenticators, p, o.labels, o.data);
        AccessIffNoScopeFails(acl, k8s, p, o.labels, o.data, env);
      }
    }
  }

  /** Unauthorized is the answer iff the request parses and nobody knows the account, or the first authenticator that
      does turns it away or does not authenticate it. */
  lemma UnauthorizedIff(authenticators: seq<Authenticator>, authorizers: seq<Authorizer<seq<string>>>, req: Request, env: Env)
    ensures Respond(authenticators, authorizers, req, env).Unauthorized? <==>
      && Parse(req).Ok?
      && var p := Parse(req).value;
         || NobodyKnows(authenticators, p.account, p.password)
         || exists i: nat, o :: Answers(authenticators, i, p.account, p.password, o) && (o.Rejected? || (o.Known? && !o.authenticated))
  {
    if Parse(req).Ok? {
      var p := Parse(req).value;
      AuthnVerdictIs(authenticators, p.account, p.password);
      if !NobodyKnows(authenticators, p.account, p.password) {
        var i := SomebodyAnswers(authenticators, p.account, p.password);
      }
    }
  }

  /** A server error is the answer iff the request parses and the first authenticator that does not pass the account on
      breaks, or authenticates it and some scope fails. */
  lemma ServerErrorIff(authenticators: seq<Authenticator>, acl: Option<seq<Entry<seq<string>>>>, k8s: Option<(K8s.Config, K8s.Cluster)>, req: Request, env: Env)
    ensures Respond(authenticators, Chain(acl, k8s), req, env).ServerError? <==>
      && Parse(req).Ok?
      && (|| (exists i: nat, e :: Answers(authenticators, i, Parse(req).value.account, Parse(req).value.password, Broken(e)))
          || (exists labels, data, k :: 0 <= k < |Parse(req).value.scopes|
                && Vouched(authenticators, Parse(req).value, labels, data) && ScopeFails(acl, k8s, Parse(req).value, k, labels, data, env)))
    ensures Parse(req).Ok? ==> forall i: nat, e ::
      Answers(authenticators, i, Parse(req).value.account, Parse(req).value.password, Broken(e)) ==>
        Respond(authenticators, Chain(acl, k8s), req, env) == ServerError(e)
    ensures Parse(req).Ok? ==> forall labels, data, e ::
      Vouched(authenticators, Parse(req).value, labels, data)
      && AccessFor(Chain(acl, k8s), Parse(req).value, Known(true, labels, data), Parse(req).value.scopes, env) == Err(e) ==>
        Respond(authenticators, Chain(acl, k8s), req, env) == ServerError(e)
  {
    if Parse(req).Ok? {
      var p := Parse(req).value;
      AuthnVerdictIs(authenticators, p.account, p.password);
      if !NobodyKnows(authenticators, p.account, p.password) {
        var i := SomebodyAnswers(authenticators, p.account, p.password);
      }
      TokenIff(authenticators, acl, k8s, req, env);
      UnauthorizedIff(authenticators, Chain(acl, k8s), req, env);
      var o := AuthnVerdict(authenticators, p.account, p.password);
      forall labels, data ensures Vouched(authenticators, p, labels, data) <==> o == Known(true, labels, data) {
        VouchedIff(authenticators, p, labels, data);
      }
      if o.Known? && o.authenticated { AccessIffNoScopeFails(acl, k8s, p, o.labels, o.data, env); }
    }
  }

  /** An issued token answers the requested scopes one by one, and lists exactly the actions that were asked for and
      are given to the user somebody vouched for, in sorted order. */
  lemma TokenGrantsIff(authenticators: seq<Authenticator>, acl: Option<seq<Entry<seq<string>>>>, k8s: Option<(K8s.Config, K8s.Cluster)>, req: Request, env: Env)
    requires Respond(authenticators, Chain(acl, k8s), req, env).Token?
    ensures var t := Respond(authenticators, Chain(acl, k8s), req, env);
      var p := Parse(req).value;
      && t.subject == p.account && t.audience == req.service
      && |t.access| == |p.scopes|
      && forall k, labels, data :: 0 <= k < |p.scopes| && Vouched(authenticators, p, labels, data) ==>
        && t.access[k].typ == p.scopes[k].typ && t.access[k].name == p.scopes[k].name
        && Sorted(t.access[k].actions)
        && forall a :: a in t.access[k].actions <==>
             && a in p.scopes[k].actions
             && Given(acl, k8s, Who(p.account, p.scopes[k].typ, p.scopes[k].name, p.service, p.ip, labels, data), p.scopes[k].actions, a, env)
  {
    var p := Parse(req).value;
    var t := Respond(authenticators, Chain(acl, k8s), req, env);
    var o := AuthnVerdict(authenticators, p.account, p.password);
    AccessOfEachScope(Chain(acl, k8s), p, o, p.scopes, env);
    forall k, labels, data | 0 <= k < |p.scopes| && Vouched(authenticators, p, labels, data)
      ensures t.access[k].typ == p.scopes[k].typ && t.access[k].name == p.scopes[k].name
      ensures Sorted(t.access[k].actions)
      ensures forall a :: a in t.access[k].actions <==>
          && a in p.scopes[k].actions
          && Given(acl, k8s, Who(p.account, p.scopes[k].typ, p.scopes[k].name, p.service, p.ip, labels, data), p.scopes[k].actions, a, env)
    {
      VouchedIff(authenticators, p, labels, data);
      ScopeGrantsIff(acl, k8s, WhoFor(p, p.scopes[k], o), p.scopes[k], t.access[k], env);
    }
  }

  lemma ScopeGrantsIff(acl: Option<seq<Entry<seq<string>>>>, k8s: Option<(K8s.Config, K8s.Cluster)>, w: Who, s: AuthScope, x: Access, env: Env)
    requires AccessIs(x, s, ScopeVerdict(Chain(acl, k8s), w, s.actions, env))
    ensures Sorted(x.actions)
    ensures forall a :: a in x.actions <==> a in s.actions && Given(acl, k8s, w, s.actions, a, env)
  {
    SortSorts(ScopeVerdict(Chain(acl, k8s), w, s.actions, env).actions);
    MembersOfSort(ScopeVerdict(Chain(acl, k8s), w, s.actions, env).actions);
    forall a ensures a in x.actions <==> a in s.actions && Given(acl, k8s, w, s.actions, a, env) {
      GrantIff(acl, k8s, w, s.actions, a, env);
    }
  }
}
