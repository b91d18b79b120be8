/** The protocol shared by the two caches of auth_server/k8s: an expiring LRU cache in front of a
    single-flight group in front of an inner call. Any number of goroutines take their atomic steps in any
    order; the clock advances and the LRU evicts whenever they like. */
module SingleFlight {
  import opened GoStrings

  // ---------------------------------------------------------------- the two shared structures

  /** A cached outcome, when it was stored, for how long, and the call that produced it. */
  datatype Entry<V> = Entry(value: V, storedAt: int, ttl: int, call: nat)
  {
    predicate Live(now: int) { now <= storedAt + ttl }
  }

  function Hit<K, V>(cache: map<K, Entry<V>>, key: K, now: int): Option<V> {
    if key in cache && cache[key].Live(now) then Some(cache[key].value) else None
  }

  /** `Get` drops an entry it finds expired. */
  function AfterGet<K, V>(cache: map<K, Entry<V>>, key: K, now: int): map<K, Entry<V>> {
    if key in cache && !cache[key].Live(now) then cache - {key} else cache
  }

  /** An outcome whose TTL is not positive is not stored. */
  function AfterStore<K, V>(cache: map<K, Entry<V>>, key: K, value: V, ttl: int, now: int, call: nat): map<K, Entry<V>> {
    if ttl > 0 then cache[key := Entry(value, now, ttl, call)] else cache
  }

  // ---------------------------------------------------------------- states

  /** What differs between the two caches: which requests are let in, their keys and TTLs; and the inner call as a
      relation. */
  datatype Spec<!R, !K, !V> = Spec(admits: R -> bool, keyOf: R -> K, ttl: V -> int, inner: (R, V) -> bool)

  /** One run of the function given to `Do`. */
  datatype Call<R, K, V> = Call(key: K, req: R, leader: nat, outcome: Option<V>, closed: bool)

  datatype Thread<R, K, V> =
    | Idle
    | Refused(req: R)                                  // sent away before anything was looked up
    | Asked(req: R, key: K)                            // about to look in the cache
    | Missed(req: R, key: K)                           // about to enter Do
    | Calling(req: R, key: K, call: nat)               // leads; the inner call is running
    | Storing(req: R, key: K, call: nat, value: V)     // leads; the inner call has returned
    | Closing(req: R, key: K, call: nat, value: V)     // leads; the function has returned, not yet deregistered
    | Waiting(req: R, key: K, call: nat)               // joined somebody's call
    | Answered(req: R, key: K, answer: V, call: nat)   // got this answer, first produced by this call
  {
    predicate Free() { Idle? || Refused? || Answered? }
    predicate Admitted() { !Idle? && !Refused? }
    predicate Leads(c: nat) { (Calling? || Storing? || Closing?) && call == c }
    predicate InDo(c: nat) { Leads(c) || (Waiting? && call == c) }
  }

  datatype State<R, K, V> = State(
    now: int,
    cache: map<K, Entry<V>>,
    inflight: map<K, nat>,
    calls: seq<Call<R, K, V>>,
    threads: seq<Thread<R, K, V>>)

  datatype Action<R, K, V> =
    | Ask(t: nat, req: R)
    | Lookup(t: nat)
    | Enter(t: nat)
    | InnerReturns(t: nat, value: V)
    | Store(t: nat)
    | Close(t: nat)
    | Wake(t: nat)
    | Advance(delta: nat)
    | Evict(key: K)

  ghost predicate Initial<R(!new), K(!new), V(!new)>(s: State<R, K, V>) {
    && s.cache == map[] && s.inflight == map[] && s.calls == []
    && forall t :: 0 <= t < |s.threads| ==> s.threads[t] == Idle
  }

  predicate Enabled<R, K, V>(spec: Spec<R, K, V>, s: State<R, K, V>, a: Action<R, K, V>) {
    match a
    case Ask(t, req) => t < |s.threads| && s.threads[t].Free()
    case Lookup(t) => t < |s.threads| && s.threads[t].Asked?
    case Enter(t) => t < |s.threads| && s.threads[t].Missed?
    case InnerReturns(t, v) => t < |s.threads| && s.threads[t].Calling? && spec.inner(s.threads[t].req, v)
    case Store(t) => t < |s.threads| && s.threads[t].Storing?
    case Close(t) => t < |s.threads| && s.threads[t].Closing?
    case Wake(t) =>
      && t < |s.threads| && s.threads[t].Waiting?
      && s.threads[t].call < |s.calls| && s.calls[s.threads[t].call].closed
      && s.calls[s.threads[t].call].outcome.Some?
    case Advance(delta) => true
    case Evict(key) => true
  }

  function Apply<R, K(==), V>(spec: Spec<R, K, V>, s: State<R, K, V>, a: Action<R, K, V>): State<R, K, V>
    requires Enabled(spec, s, a)
  {
    match a
    case Ask(t, req) => s.(threads := s.threads[t := if spec.admits(req) then Asked(req, spec.keyOf(req)) else Refused(req)])
    case Lookup(t) =>
      var me := s.threads[t];
      var hit := Hit(s.cache, me.key, s.now);
      s.(cache := AfterGet(s.cache, me.key, s.now),
         threads := s.threads[t :=
           if hit.Some? then Answered(me.req, me.key, hit.value, s.cache[me.key].call) else Missed(me.req, me.key)])
    case Enter(t) =>
      var me := s.threads[t];
      if me.key in s.inflight then
        s.(threads := s.threads[t := Waiting(me.req, me.key, s.inflight[me.key])])
      else
        s.(inflight := s.inflight[me.key := |s.calls|],
           calls := s.calls + [Call(me.key, me.req, t, None, false)],
           threads := s.threads[t := Calling(me.req, me.key, |s.calls|)])
    case InnerReturns(t, v) =>
      var me := s.threads[t];
      s.(calls := SetOutcome(s.calls, me.call, v),
         threads := s.threads[t := Storing(me.req, me.key, me.call, v)])
    case Store(t) =>
      var me := s.threads[t];
      s.(cache := AfterStore(s.cache, me.key, me.value, spec.ttl(me.value), s.now, me.call),
         threads := s.threads[t := Closing(me.req, me.key, me.call, me.value)])
    case Close(t) =>
      var me := s.threads[t];
      s.(inflight := s.inflight - {me.key},
         calls := SetClosed(s.calls, me.call),
         threads := s.threads[t := Answered(me.req, me.key, me.value, me.call)])
    case Wake(t) =>
      var me := s.threads[t];
      s.(threads := s.threads[t := Answered(me.req, me.key, s.calls[me.call].outcome.value, me.call)])
    case Advance(delta) => s.(now := s.now + delta)
    case Evict(key) => s.(cache := s.cache - {key})
  }

  function SetOutcome<R, K, V>(calls: seq<Call<R, K, V>>, c: nat, v: V): seq<Call<R, K, V>> {
    if c < |calls| then calls[c := calls[c].(outcome := Some(v))] else calls
  }

  function SetClosed<R, K, V>(calls: seq<Call<R, K, V>>, c: nat): seq<Call<R, K, V>> {
    if c < |calls| then calls[c := calls[c].(closed := true)] else calls
  }

  // ---------------------------------------------------------------- the invariant

  ghost predicate CallsOk<R(!new), K(!new), V(!new)>(spec: Spec<R, K, V>, s: State<R, K, V>) {
    forall c :: 0 <= c < |s.calls| ==>
      var call := s.calls[c];
      && spec.admits(call.req) && call.key == spec.keyOf(call.req)
      && (call.outcome.Some? ==> spec.inner(call.req, call.outcome.value))
      && (call.closed ==> call.outcome.Some?)
      && (!call.closed ==>
            && call.key in s.inflight && s.inflight[call.key] == c
            && call.leader < |s.threads| && s.threads[call.leader].Leads(c))
  }

  ghost predicate InflightOk<R, K(!new), V>(s: State<R, K, V>) {
    forall k :: k in s.inflight ==>
      s.inflight[k] < |s.calls| && s.calls[s.inflight[k]].key == k && !s.calls[s.inflight[k]].closed
  }

  /** The call is one for this key whose outcome is this value. */
  ghost predicate Produced<R, K, V>(s: State<R, K, V>, c: nat, key: K, value: V) {
    c < |s.calls| && s.calls[c].key == key && s.calls[c].outcome == Some(value)
  }

  ghost predicate CacheOk<R, K(!new), V>(spec: Spec<R, K, V>, s: State<R, K, V>) {
    forall k :: k in s.cache ==>
      var e := s.cache[k];
      && Produced(s, e.call, k, e.value)
      && e.ttl == spec.ttl(e.value) && e.ttl > 0 && e.storedAt <= s.now
  }

  ghost predicate ThreadOk<R, K, V>(spec: Spec<R, K, V>, s: State<R, K, V>, t: nat, th: Thread<R, K, V>) {
    && (th.Admitted() ==> spec.admits(th.req) && th.key == spec.keyOf(th.req))
    && match th
       case Refused(req) => !spec.admits(req)
       case Calling(req, key, c) =>
         c < |s.calls| && s.calls[c] == Call(key, req, t, None, false)
       case Storing(req, key, c, v) =>
         c < |s.calls| && s.calls[c] == Call(key, req, t, Some(v), false)
       case Closing(req, key, c, v) =>
         c < |s.calls| && s.calls[c] == Call(key, req, t, Some(v), false)
       case Waiting(req, key, c) => c < |s.calls| && s.calls[c].key == key
       case Answered(req, key, v, c) => Produced(s, c, key, v)
       case _ => true
  }

  ghost predicate ThreadsOk<R(!new), K(!new), V(!new)>(spec: Spec<R, K, V>, s: State<R, K, V>) {
    forall t :: 0 <= t < |s.threads| ==> ThreadOk(spec, s, t, s.threads[t])
  }

  ghost predicate Inv<R(!new), K(!new), V(!new)>(spec: Spec<R, K, V>, s: State<R, K, V>) {
    CallsOk(spec, s) && InflightOk(s) && CacheOk(spec, s) && ThreadsOk(spec, s)
  }

  // The steps fall into two kinds: those that enter or leave `Do`, and the others.

  predicate AtTheGate<R, K, V>(a: Action<R, K, V>) {
    a.Enter? || a.Close?
  }

  lemma CallsStepAtTheGate<R(!new), K(!new), V(!new)>(spec: Spec<R, K, V>, s: State<R, K, V>, a: Action<R, K, V>)
    requires Inv(spec, s) && Enabled(spec, s, a) && AtTheGate(a)
    ensures CallsOk(spec, Apply(spec, s, a))
  {
  }

  lemma CallsStepElsewhere<R(!new), K(!new), V(!new)>(spec: Spec<R, K, V>, s: State<R, K, V>, a: Action<R, K, V>)
    requires Inv(spec, s) && Enabled(spec, s, a) && !AtTheGate(a)
    ensures CallsOk(spec, Apply(spec, s, a))
  {
  }

  lemma InflightStep<R(!new), K(!new), V(!new)>(spec: Spec<R, K, V>, s: State<R, K, V>, a: Action<R, K, V>)
    requires Inv(spec, s) && Enabled(spec, s, a)
    ensures InflightOk(Apply(spec, s, a))
  {
  }

  lemma CacheStepStoring<R(!new), K(!new), V(!new)>(spec: Spec<R, K, V>, s: State<R, K, V>, a: Action<R, K, V>)
    requires Inv(spec, s) && Enabled(spec, s, a) && a.Store?
    ensures CacheOk(spec, Apply(spec, s, a))
  {
  }

  lemma CacheStepElsewhere<R(!new), K(!new), V(!new)>(spec: Spec<R, K, V>, s: State<R, K, V>, a: Action<R, K, V>)
    requires Inv(spec, s) && Enabled(spec, s, a) && !a.Store?
    ensures CacheOk(spec, Apply(spec, s, a))
  {
  }

  lemma ThreadsStepAtTheGate<R(!new), K(!new), V(!new)>(spec: Spec<R, K, V>, s: State<R, K, V>, a: Action<R, K, V>)
    requires Inv(spec, s) && Enabled(spec, s, a) && AtTheGate(a)
    ensures ThreadsOk(spec, Apply(spec, s, a))
  {
  }

  lemma ThreadsStepLeading<R(!new), K(!new), V(!new)>(spec: Spec<R, K, V>, s: State<R, K, V>, a: Action<R, K, V>)
    requires Inv(spec, s) && Enabled(spec, s, a) && (a.InnerReturns? || a.Store?)
    ensures ThreadsOk(spec, Apply(spec, s, a))
  {
  }

  lemma ThreadsStepElsewhere<R(!new), K(!new), V(!new)>(spec: Spec<R, K, V>, s: State<R, K, V>, a: Action<R, K, V>)
    requires Inv(spec, s) && Enabled(spec, s, a) && !AtTheGate(a) && !a.InnerReturns? && !a.Store?
    ensures ThreadsOk(spec, Apply(spec, s, a))
  {
  }

  lemma InvStep<R(!new), K(!new), V(!new)>(spec: Spec<R, K, V>, s: State<R, K, V>, a: Action<R, K, V>)
    requires Inv(spec, s) && Enabled(spec, s, a)
    ensures Inv(spec, Apply(spec, s, a))
  {
    InflightStep(spec, s, a);
    if a.Store? { CacheStepStoring(spec, s, a); } else { CacheStepElsewhere(spec, s, a); }
    if AtTheGate(a) {
      CallsStepAtTheGate(spec, s, a);
      ThreadsStepAtTheGate(spec, s, a);
    } else {
      CallsStepElsewhere(spec, s, a);
      if a.InnerReturns? || a.Store? { ThreadsStepLeading(spec, s, a); } else { ThreadsStepElsewhere(spec, s, a); }
    }
  }

  // ---------------------------------------------------------------- whole runs

  /** A run: the states it goes through and the actions between them. */
  ghost predicate IsRun<R(!new), K(!new), V(!new)>(
      spec: Spec<R, K, V>, states: seq<State<R, K, V>>, actions: seq<Action<R, K, V>>)
  {
    && |states| == |actions| + 1 && Initial(states[0])
    && forall i :: 0 <= i < |actions| ==> Enabled(spec, states[i], actions[i]) && states[i + 1] == Apply(spec, states[i], actions[i])
  }

  lemma {:induction false} InvAlways<R(!new), K(!new), V(!new)>(
      spec: Spec<R, K, V>, states: seq<State<R, K, V>>, actions: seq<Action<R, K, V>>, i: nat)
    requires IsRun(spec, states, actions) && i < |states|
    ensures Inv(spec, states[i])
  {
    if i > 0 {
      InvAlways(spec, states, actions, i - 1);
      assert states[i - 1 + 1] == Apply(spec, states[i - 1], actions[i - 1]);
      InvStep(spec, states[i - 1], actions[i - 1]);
    }
  }

  lemma StepInto<R(!new), K(!new), V(!new)>(
      spec: Spec<R, K, V>, states: seq<State<R, K, V>>, actions: seq<Action<R, K, V>>, i: nat)
    requires IsRun(spec, states, actions) && 0 < i < |states|
    ensures Inv(spec, states[i - 1]) && Inv(spec, states[i])
    ensures Enabled(spec, states[i - 1], actions[i - 1])
    ensures states[i] == Apply(spec, states[i - 1], actions[i - 1])
  {
    InvAlways(spec, states, actions, i - 1);
    InvAlways(spec, states, actions, i);
    assert states[i - 1 + 1] == Apply(spec, states[i - 1], actions[i - 1]);
  }

  /** The caller looked the key up at step `j` and found an answer that was stored, from an inner call for
      that key, no longer ago than its TTL. */
  ghost predicate FromCache<R, K, V>(spec: Spec<R, K, V>, s: State<R, K, V>, t: nat, key: K, answer: V) {
    && t < |s.threads| && s.threads[t].Asked? && s.threads[t].key == key
    && key in s.cache
    && var e := s.cache[key];
       && e.value == answer && Produced(s, e.call, key, answer)
       && e.storedAt <= s.now <= e.storedAt + spec.ttl(answer)
  }

  /** The caller was inside `Do` at step `j` while the call was the registered one for its key. */
  ghost predicate InDoWith<R, K, V>(s: State<R, K, V>, t: nat, key: K, call: nat) {
    && t < |s.threads| && s.threads[t].InDo(call) && s.threads[t].key == key
    && key in s.inflight && s.inflight[key] == call
  }

  /** Between the two states the goroutine asks nothing: it is at one and the same request. */
  ghost predicate OneRequest<R(!new), K(!new), V(!new)>(actions: seq<Action<R, K, V>>, t: nat, from: nat, to: nat) {
    forall k :: from <= k < to && k < |actions| && actions[k].Ask? ==> actions[k].t != t
  }

  /** A goroutine gets inside `Do` for a call only while that call is registered. */
  lemma EnteringStep<R(!new), K(!new), V(!new)>(
      spec: Spec<R, K, V>, s: State<R, K, V>, a: Action<R, K, V>, t: nat, call: nat)
    requires Inv(spec, s) && Enabled(spec, s, a)
    requires var s' := Apply(spec, s, a); t < |s'.threads| && s'.threads[t].InDo(call)
    ensures var s' := Apply(spec, s, a);
      || (t < |s.threads| && s.threads[t].InDo(call) && s.threads[t].key == s'.threads[t].key)
      || InDoWith(s', t, s'.threads[t].key, call)
  {
  }

  lemma {:induction false} EnteredWhileRegistered<R(!new), K(!new), V(!new)>(
      spec: Spec<R, K, V>, states: seq<State<R, K, V>>, actions: seq<Action<R, K, V>>, i: nat, t: nat, call: nat)
    returns (j: nat)
    requires IsRun(spec, states, actions) && i < |states|
    requires t < |states[i].threads| && states[i].threads[t].InDo(call)
    ensures j <= i && InDoWith(states[j], t, states[i].threads[t].key, call)
    ensures OneRequest(actions, t, j, i)
    decreases i
  {
    assert i > 0;
    StepInto(spec, states, actions, i);
    EnteringStep(spec, states[i - 1], actions[i - 1], t, call);
    if InDoWith(states[i], t, states[i].threads[t].key, call) {
      j := i;
    } else {
      j := EnteredWhileRegistered(spec, states, actions, i - 1, t, call);
    }
  }

  /** A goroutine that has an answer had it before, found it in the cache, or was inside `Do` for its call. */
  lemma AnsweringStep<R(!new), K(!new), V(!new)>(spec: Spec<R, K, V>, s: State<R, K, V>, a: Action<R, K, V>, t: nat)
    requires Inv(spec, s) && Enabled(spec, s, a)
    requires var s' := Apply(spec, s, a); t < |s'.threads| && s'.threads[t].Answered?
    ensures t < |s.threads|
    ensures var s' := Apply(spec, s, a);
      var me := s'.threads[t];
      || s.threads[t] == me
      || (a == Lookup(t) && FromCache(spec, s, t, me.key, me.answer))
      || (s.threads[t].InDo(me.call) && s.threads[t].key == me.key)
    ensures a.Ask? ==> a.t != t
  {
    assert ThreadOk(spec, s, t, s.threads[t]);
  }

  lemma AnsweringInRun<R(!new), K(!new), V(!new)>(
      spec: Spec<R, K, V>, states: seq<State<R, K, V>>, actions: seq<Action<R, K, V>>, i: nat, t: nat, me: Thread<R, K, V>)
    requires IsRun(spec, states, actions) && i < |states|
    requires t < |states[i].threads| && states[i].threads[t] == me && me.Answered?
    ensures i > 0 && t < |states[i - 1].threads|
    ensures
      || states[i - 1].threads[t] == me
      || (actions[i - 1] == Lookup(t) && FromCache(spec, states[i - 1], t, me.key, me.answer))
      || (states[i - 1].threads[t].InDo(me.call) && states[i - 1].threads[t].key == me.key)
    ensures actions[i - 1].Ask? ==> actions[i - 1].t != t
  {
    assert i > 0;
    StepInto(spec, states, actions, i);
    AnsweringStep(spec, states[i - 1], actions[i - 1], t);
  }

  lemma {:induction false} AnswerHasASource<R(!new), K(!new), V(!new)>(
      spec: Spec<R, K, V>, states: seq<State<R, K, V>>, actions: seq<Action<R, K, V>>, i: nat, t: nat, me: Thread<R, K, V>)
    returns (j: nat)
    requires IsRun(spec, states, actions) && i < |states|
    requires t < |states[i].threads| && states[i].threads[t] == me && me.Answered?
    ensures j < i && OneRequest(actions, t, j, i)
    ensures
      || (actions[j] == Lookup(t) && FromCache(spec, states[j], t, me.key, me.answer))
      || InDoWith(states[j], t, me.key, me.call)
    decreases i
  {
    AnsweringInRun(spec, states, actions, i, t, me);
    if states[i - 1].threads[t] == me {
      j := AnswerHasASource(spec, states, actions, i - 1, t, me);
    } else if actions[i - 1] == Lookup(t) && FromCache(spec, states[i - 1], t, me.key, me.answer) {
      j := i - 1;
    } else {
      j := EnteredWhileRegistered(spec, states, actions, i - 1, t, me.call);
    }
  }

  /** Every response is accounted for by a step of the very request it answers: either the lookup found it in the
      cache within its TTL, or it is the outcome of an inner call for the same key that was registered while the
      caller was inside `Do`. */
  lemma EveryAnswerIsAccountedFor<R(!new), K(!new), V(!new)>(
      spec: Spec<R, K, V>, states: seq<State<R, K, V>>, actions: seq<Action<R, K, V>>, i: nat, t: nat)
    returns (j: nat)
    requires IsRun(spec, states, actions) && i < |states|
    requires t < |states[i].threads| && states[i].threads[t].Answered?
    ensures j < i && OneRequest(actions, t, j, i)
    ensures var me := states[i].threads[t];
      && spec.admits(me.req) && me.key == spec.keyOf(me.req)
      && Produced(states[i], me.call, me.key, me.answer)
      && (|| (actions[j] == Lookup(t) && FromCache(spec, states[j], t, me.key, me.answer))
          || InDoWith(states[j], t, me.key, me.call))
  {
    InvAlways(spec, states, actions, i);
    assert ThreadOk(spec, states[i], t, states[i].threads[t]);
    j := AnswerHasASource(spec, states, actions, i, t, states[i].threads[t]);
  }

  /** In every run only requests that are not admitted are sent away, and no other has got any further. */
  lemma RefusedUnadmitted<R(!new), K(!new), V(!new)>(
      spec: Spec<R, K, V>, states: seq<State<R, K, V>>, actions: seq<Action<R, K, V>>, i: nat, t: nat)
    requires IsRun(spec, states, actions) && i < |states| && t < |states[i].threads| && !states[i].threads[t].Idle?
    ensures states[i].threads[t].Refused? <==> !spec.admits(states[i].threads[t].req)
  {
    InvAlways(spec, states, actions, i);
    assert ThreadOk(spec, states[i], t, states[i].threads[t]);
  }

  /** Everything asked for so far satisfies `ok`. */
  ghost predicate AskedOnly<R(!new), K(!new), V(!new)>(s: State<R, K, V>, ok: R -> bool) {
    && (forall t :: 0 <= t < |s.threads| && !s.threads[t].Idle? ==> ok(s.threads[t].req))
    && (forall c :: 0 <= c < |s.calls| ==> ok(s.calls[c].req))
  }

  ghost predicate Asks<R(!new), K(!new), V(!new)>(actions: seq<Action<R, K, V>>, ok: R -> bool) {
    forall i :: 0 <= i < |actions| && actions[i].Ask? ==> ok(actions[i].req)
  }

  lemma AskedOnlyStep<R(!new), K(!new), V(!new)>(spec: Spec<R, K, V>, s: State<R, K, V>, a: Action<R, K, V>, ok: R -> bool)
    requires AskedOnly(s, ok) && Enabled(spec, s, a) && (a.Ask? ==> ok(a.req))
    ensures AskedOnly(Apply(spec, s, a), ok)
  {
  }

  lemma {:induction false} AskedOnlyAlways<R(!new), K(!new), V(!new)>(
      spec: Spec<R, K, V>, states: seq<State<R, K, V>>, actions: seq<Action<R, K, V>>, i: nat, ok: R -> bool)
    requires IsRun(spec, states, actions) && i < |states| && Asks(actions, ok)
    ensures AskedOnly(states[i], ok)
  {
    if i > 0 {
      AskedOnlyAlways(spec, states, actions, i - 1, ok);
      assert states[i - 1 + 1] == Apply(spec, states[i - 1], actions[i - 1]);
      AskedOnlyStep(spec, states[i - 1], actions[i - 1], ok);
    }
  }

  /** Requests that share a key are answered alike. */
  ghost predicate KeyDecides<R(!new), K(!new), V(!new)>(spec: Spec<R, K, V>, ok: R -> bool, direct: R -> V) {
    forall a, b :: ok(a) && ok(b) && spec.admits(a) && spec.admits(b) && spec.keyOf(a) == spec.keyOf(b) ==> direct(a) == direct(b)
  }

  /** If requests with one key are answered alike by the inner call, every response in every run is what the
      inner call answers to the caller's own request: the cache cannot be told from no cache. */
  lemma AgreesWithUncached<R(!new), K(!new), V(!new)>(
      spec: Spec<R, K, V>, states: seq<State<R, K, V>>, actions: seq<Action<R, K, V>>, i: nat, t: nat,
      ok: R -> bool, direct: R -> V)
    requires IsRun(spec, states, actions) && i < |states| && Asks(actions, ok)
    requires forall req, v :: ok(req) && spec.inner(req, v) ==> v == direct(req)
    requires KeyDecides(spec, ok, direct)
    requires t < |states[i].threads| && states[i].threads[t].Answered?
    ensures states[i].threads[t].answer == direct(states[i].threads[t].req)
  {
    InvAlways(spec, states, actions, i);
    AskedOnlyAlways(spec, states, actions, i, ok);
    var me := states[i].threads[t];
    assert ThreadOk(spec, states[i], t, me);
    var call := states[i].calls[me.call];
    assert ok(call.req) && spec.inner(call.req, call.outcome.value);
  }

  /** A path from an initial state is a run. */
  lemma {:induction false} RunOfPath<R(!new), K(!new), V(!new)>(
      spec: Spec<R, K, V>, s: State<R, K, V>, steps: seq<Action<R, K, V>>, end: State<R, K, V>) returns (states: seq<State<R, K, V>>)
    requires IsPath(spec, s, steps, end)
    ensures |states| == |steps| + 1 && states[0] == s && states[|steps|] == end
    ensures forall i :: 0 <= i < |steps| ==> Enabled(spec, states[i], steps[i]) && states[i + 1] == Apply(spec, states[i], steps[i])
    decreases |steps|
  {
    if steps == [] {
      states := [s];
    } else {
      var rest := RunOfPath(spec, Apply(spec, s, steps[0]), steps[1..], end);
      states := [s] + rest;
      forall i | 0 <= i < |steps|
        ensures Enabled(spec, states[i], steps[i]) && states[i + 1] == Apply(spec, states[i], steps[i])
      {
        if i > 0 { assert states[i] == rest[i - 1] && states[i + 1] == rest[i] && steps[i] == steps[1..][i - 1]; }
      }
    }
  }

  /** Two goroutines with requests of one key, both past the lookup in an empty cache. */
  function BothMissed<R, K, V>(spec: Spec<R, K, V>, a: R, b: R): State<R, K, V> {
    State(0, map[], map[], [], [Missed(a, spec.keyOf(a)), Missed(b, spec.keyOf(b))])
  }

  lemma BothMiss<R(!new), K(!new), V(!new)>(spec: Spec<R, K, V>, a: R, b: R)
    returns (start: State<R, K, V>, steps: seq<Action<R, K, V>>)
    requires spec.admits(a) && spec.admits(b)
    ensures Initial(start) && IsPath(spec, start, steps, BothMissed(spec, a, b))
    ensures steps == [Ask(0, a), Ask(1, b), Lookup(0), Lookup(1)]
  {
    start := State(0, map[], map[], [], [Idle, Idle]);
    var asked := Apply(spec, Apply(spec, start, Ask(0, a)), Ask(1, b));
    var missed := Apply(spec, Apply(spec, asked, Lookup(0)), Lookup(1));
    assert missed == BothMissed(spec, a, b);
    PathOfTwo(spec, start, Ask(0, a), Ask(1, b));
    PathOfTwo(spec, asked, Lookup(0), Lookup(1));
    PathConcat(spec, start, [Ask(0, a), Ask(1, b)], asked, [Lookup(0), Lookup(1)], missed);
    steps := [Ask(0, a), Ask(1, b)] + [Lookup(0), Lookup(1)];
  }

  /** The second joins the first's call and is given its outcome. */
  lemma SharedAnswer<R(!new), K(!new), V(!new)>(spec: Spec<R, K, V>, a: R, b: R, v: V)
    returns (start: State<R, K, V>, steps: seq<Action<R, K, V>>, end: State<R, K, V>)
    requires spec.admits(a) && spec.admits(b) && spec.keyOf(a) == spec.keyOf(b) && spec.inner(a, v)
    ensures Initial(start) && IsPath(spec, start, steps, end)
    ensures forall i :: 0 <= i < |steps| && steps[i].Ask? ==> steps[i].req == a || steps[i].req == b
    ensures |end.threads| == 2 && end.threads[1].Answered? && end.threads[1].req == b && end.threads[1].answer == v
  {
    var before;
    start, before := BothMiss(spec, a, b);
    var missed := BothMissed(spec, a, b);
    var led := Apply(spec, missed, Enter(0));
    var joined := Apply(spec, led, Enter(1));
    PathOfTwo(spec, missed, Enter(0), Enter(1));
    var tail, closed := LeadingIsARun(spec, joined, 0, v, 0);
    end := Apply(spec, closed, Wake(1));
    var wake: seq<Action<R, K, V>> := [Wake(1)];
    assert wake[1..] == [];
    PathConcat(spec, joined, tail, closed, wake, end);
    PathConcat(spec, missed, [Enter(0), Enter(1)], joined, tail + wake, end);
    PathConcat(spec, start, before, missed, [Enter(0), Enter(1)] + (tail + wake), end);
    steps := before + ([Enter(0), Enter(1)] + (tail + wake));
  }

  /** Every answer at any state is what the inner call says to the caller's own request. */
  ghost predicate AnswersAreDirect<R(!new), K(!new), V(!new)>(states: seq<State<R, K, V>>, direct: R -> V) {
    forall i, t :: 0 <= i < |states| && 0 <= t < |states[i].threads| && states[i].threads[t].Answered? ==>
      states[i].threads[t].answer == direct(states[i].threads[t].req)
  }

  /** Exactly when the cache cannot be told from no cache: for an inner call that is a function of the request, every
      answer in every run is what it says to the caller's own request iff it says the same to any two of the requests
      asked that share a key. */
  lemma AgreesIff<R(!new), K(!new), V(!new)>(spec: Spec<R, K, V>, ok: R -> bool, direct: R -> V)
    requires forall req, v :: ok(req) ==> (spec.inner(req, v) <==> v == direct(req))
    ensures (forall states, actions :: IsRun(spec, states, actions) && Asks(actions, ok) ==> AnswersAreDirect(states, direct))
       <==> KeyDecides(spec, ok, direct)
  {
    if KeyDecides(spec, ok, direct) {
      forall states: seq<State<R, K, V>>, actions: seq<Action<R, K, V>> | IsRun(spec, states, actions) && Asks(actions, ok)
        ensures AnswersAreDirect(states, direct)
      {
        forall i: nat, t: nat | i < |states| && t < |states[i].threads| && states[i].threads[t].Answered?
          ensures states[i].threads[t].answer == direct(states[i].threads[t].req)
        {
          AgreesWithUncached(spec, states, actions, i, t, ok, direct);
        }
      }
    } else {
      var a, b :| ok(a) && ok(b) && spec.admits(a) && spec.admits(b) && spec.keyOf(a) == spec.keyOf(b) && direct(a) != direct(b);
      var start, steps, end := SharedAnswer(spec, a, b, direct(a));
      var states := RunOfPath(spec, start, steps, end);
      assert IsRun(spec, states, steps) && Asks(steps, ok);
      assert states[|steps|].threads[1].answer != direct(states[|steps|].threads[1].req);
      assert !AnswersAreDirect(states, direct);
    }
  }

  /** At no state of any run are two inner calls for one key in flight. */
  lemma OneInnerCallPerKey<R(!new), K(!new), V(!new)>(
      spec: Spec<R, K, V>, states: seq<State<R, K, V>>, actions: seq<Action<R, K, V>>, i: nat, t: nat, u: nat)
    requires IsRun(spec, states, actions) && i < |states|
    requires t < |states[i].threads| && u < |states[i].threads|
    requires states[i].threads[t].Calling? && states[i].threads[u].Calling?
    requires states[i].threads[t].key == states[i].threads[u].key
    ensures t == u
  {
    InvAlways(spec, states, actions, i);
    var s := states[i];
    assert ThreadOk(spec, s, t, s.threads[t]) && ThreadOk(spec, s, u, s.threads[u]);
    assert s.calls[s.threads[t].call].leader == t && s.calls[s.threads[u].call].leader == u;
  }

  /** Whatever is ever in the cache is an outcome the inner call gave to somebody's request for that key, and
      of a kind whose TTL is positive. */
  lemma StoreDiscipline<R(!new), K(!new), V(!new)>(
      spec: Spec<R, K, V>, states: seq<State<R, K, V>>, actions: seq<Action<R, K, V>>, i: nat, key: K, ok: R -> bool)
    requires IsRun(spec, states, actions) && i < |states| && Asks(actions, ok)
    requires key in states[i].cache
    ensures spec.ttl(states[i].cache[key].value) > 0
    ensures exists req :: ok(req) && spec.admits(req) && spec.keyOf(req) == key && spec.inner(req, states[i].cache[key].value)
  {
    InvAlways(spec, states, actions, i);
    AskedOnlyAlways(spec, states, actions, i, ok);
    var s := states[i];
    var e := s.cache[key];
    assert Produced(s, e.call, key, e.value);
    assert ok(s.calls[e.call].req) && spec.inner(s.calls[e.call].req, e.value);
  }

  // ---------------------------------------------------------------- for how long an outcome is kept

  /** The step neither evicts the key's entry nor puts another in its place. */
  ghost predicate LeavesEntry<R, K, V>(spec: Spec<R, K, V>, s: State<R, K, V>, a: Action<R, K, V>, key: K) {
    && a != Evict(key)
    && (a.Store? && a.t < |s.threads| && s.threads[a.t].Storing? && s.threads[a.t].key == key ==> spec.ttl(s.threads[a.t].value) <= 0)
  }

  ghost predicate LeftAlone<R(!new), K(!new), V(!new)>(
      spec: Spec<R, K, V>, states: seq<State<R, K, V>>, actions: seq<Action<R, K, V>>, key: K, from: nat, to: nat)
    requires |states| == |actions| + 1
  {
    forall k :: from < k < to && k < |actions| ==> LeavesEntry(spec, states[k], actions[k], key)
  }

  /** Goroutine `t` stores an outcome for the key at step `j`. */
  ghost predicate StoresAt<R, K, V>(states: seq<State<R, K, V>>, actions: seq<Action<R, K, V>>, j: nat, t: nat, key: K, value: V) {
    && j < |actions| && j < |states| && actions[j] == Store(t)
    && t < |states[j].threads| && states[j].threads[t].Storing?
    && states[j].threads[t].key == key && states[j].threads[t].value == value
  }

  /** The entry is there, or gone because its time is over. */
  ghost predicate KeptOrExpired<R, K, V>(s: State<R, K, V>, key: K, e: Entry<V>) {
    if key in s.cache then s.cache[key] == e else s.now > e.storedAt + e.ttl
  }

  lemma KeptStep<R(!new), K(!new), V(!new)>(spec: Spec<R, K, V>, s: State<R, K, V>, a: Action<R, K, V>, key: K, e: Entry<V>)
    requires Enabled(spec, s, a) && LeavesEntry(spec, s, a, key) && KeptOrExpired(s, key, e)
    ensures KeptOrExpired(Apply(spec, s, a), key, e)
  {
  }

  lemma {:induction false} KeptSince<R(!new), K(!new), V(!new)>(
      spec: Spec<R, K, V>, states: seq<State<R, K, V>>, actions: seq<Action<R, K, V>>, j: nat, i: nat, t: nat, key: K, value: V)
    requires IsRun(spec, states, actions) && j < i <= |actions|
    requires StoresAt(states, actions, j, t, key, value) && spec.ttl(value) > 0
    requires LeftAlone(spec, states, actions, key, j, i)
    ensures KeptOrExpired(states[i], key, Entry(value, states[j].now, spec.ttl(value), states[j].threads[t].call))
    decreases i
  {
    StepInto(spec, states, actions, i);
    if i > j + 1 {
      KeptSince(spec, states, actions, j, i - 1, t, key, value);
      KeptStep(spec, states[i - 1], actions[i - 1], key, Entry(value, states[j].now, spec.ttl(value), states[j].threads[t].call));
    }
  }

  /** An outcome stored at some time, and neither evicted nor replaced since, answers every lookup of its key up to that
      time plus its TTL, and none later. */
  lemma StoredOutcomeAnswers<R(!new), K(!new), V(!new)>(
      spec: Spec<R, K, V>, states: seq<State<R, K, V>>, actions: seq<Action<R, K, V>>, j: nat, i: nat, t: nat, u: nat, key: K, value: V)
    requires IsRun(spec, states, actions) && j < i < |actions|
    requires StoresAt(states, actions, j, t, key, value) && spec.ttl(value) > 0
    requires LeftAlone(spec, states, actions, key, j, i)
    requires actions[i] == Lookup(u) && u < |states[i].threads| && states[i].threads[u].Asked? && states[i].threads[u].key == key
    ensures u < |states[i + 1].threads|
    ensures states[i].now <= states[j].now + spec.ttl(value) ==>
      states[i + 1].threads[u].Answered? && states[i + 1].threads[u].answer == value
    ensures states[i].now > states[j].now + spec.ttl(value) ==> states[i + 1].threads[u].Missed?
  {
    KeptSince(spec, states, actions, j, i, t, key, value);
    StepInto(spec, states, actions, i + 1);
  }

  // ---------------------------------------------------------------- nobody is stuck

  /** Everything the inner call is asked it answers. */
  ghost predicate InnerAnswers<R(!new), K, V(!new)>(spec: Spec<R, K, V>) {
    forall req :: spec.admits(req) ==> exists v :: spec.inner(req, v)
  }

  ghost predicate CanFinish<R(!new), K(!new), V(!new)>(spec: Spec<R, K, V>, s: State<R, K, V>, t: nat) {
    exists steps, end :: Finishes(spec, s, t, steps, end)
  }

  /** Going on like this, the goroutine is through with its request. */
  ghost predicate Finishes<R(!new), K(!new), V(!new)>(
      spec: Spec<R, K, V>, s: State<R, K, V>, t: nat, steps: seq<Action<R, K, V>>, end: State<R, K, V>)
  {
    && IsPath(spec, s, steps, end)
    && t < |s.threads| && |end.threads| == |s.threads|
    && end.threads[t].Free() && !end.threads[t].Idle?
    && (forall i :: 0 <= i < |steps| ==> !steps[i].Ask?)
  }

  lemma FinishesLater<R(!new), K(!new), V(!new)>(
      spec: Spec<R, K, V>, s: State<R, K, V>, a: Action<R, K, V>, t: nat)
    requires Enabled(spec, s, a) && !a.Ask? && |Apply(spec, s, a).threads| == |s.threads| && t < |s.threads|
    requires CanFinish(spec, Apply(spec, s, a), t)
    ensures CanFinish(spec, s, t)
  {
    var steps, end :| Finishes(spec, Apply(spec, s, a), t, steps, end);
    PathCons(spec, s, a, steps, end);
    assert Finishes(spec, s, t, [a] + steps, end);
  }

  lemma FinishedAlready<R(!new), K(!new), V(!new)>(spec: Spec<R, K, V>, s: State<R, K, V>, t: nat)
    requires t < |s.threads| && s.threads[t].Free() && !s.threads[t].Idle?
    ensures CanFinish(spec, s, t)
  {
    assert Finishes(spec, s, t, [], s);
  }

  /** The leader of a call can bring it to an end. */
  lemma LeaderCloses<R(!new), K(!new), V(!new)>(spec: Spec<R, K, V>, s: State<R, K, V>, u: nat, c: nat)
    returns (steps: seq<Action<R, K, V>>, end: State<R, K, V>)
    requires Inv(spec, s) && InnerAnswers(spec) && u < |s.threads| && s.threads[u].Leads(c)
    ensures IsPath(spec, s, steps, end) && forall i :: 0 <= i < |steps| ==> !steps[i].Ask?
    ensures |end.threads| == |s.threads| && end.threads[u].Answered? && forall t :: 0 <= t < |s.threads| && t != u ==> end.threads[t] == s.threads[t]
    ensures c < |end.calls| && end.calls[c].closed && end.calls[c].outcome.Some?
  {
    assert ThreadOk(spec, s, u, s.threads[u]);
    match s.threads[u]
    case Calling(req, _, _) =>
      var v :| spec.inner(req, v);
      steps, end := LeadingIsARun(spec, s, u, v, 0);
    case Storing(_, _, _, _) =>
      var stored := Apply(spec, s, Store(u));
      end := Apply(spec, stored, Close(u));
      PathOfTwo(spec, s, Store(u), Close(u));
      steps := [Store(u), Close(u)];
    case Closing(_, _, _, _) =>
      end := Apply(spec, s, Close(u));
      steps := [Close(u)];
      assert steps[1..] == [];
  }

  lemma LeaderFinishes<R(!new), K(!new), V(!new)>(spec: Spec<R, K, V>, s: State<R, K, V>, t: nat)
    requires Inv(spec, s) && InnerAnswers(spec) && t < |s.threads|
    requires s.threads[t].Calling? || s.threads[t].Storing? || s.threads[t].Closing?
    ensures CanFinish(spec, s, t)
  {
    var steps, end := LeaderCloses(spec, s, t, s.threads[t].call);
    assert Finishes(spec, s, t, steps, end);
  }

  lemma WaiterFinishes<R(!new), K(!new), V(!new)>(spec: Spec<R, K, V>, s: State<R, K, V>, t: nat)
    requires Inv(spec, s) && InnerAnswers(spec) && t < |s.threads| && s.threads[t].Waiting?
    ensures CanFinish(spec, s, t)
  {
    var c := s.threads[t].call;
    assert ThreadOk(spec, s, t, s.threads[t]);
    if s.calls[c].closed {
      FinishedAlready(spec, Apply(spec, s, Wake(t)), t);
      FinishesLater(spec, s, Wake(t), t);
    } else {
      var steps, mid := LeaderCloses(spec, s, s.calls[c].leader, c);
      var wake: seq<Action<R, K, V>> := [Wake(t)];
      var end := Apply(spec, mid, Wake(t));
      assert wake[1..] == [];
      PathConcat(spec, s, steps, mid, wake, end);
      assert Finishes(spec, s, t, steps + wake, end);
    }
  }

  /** In no reachable state is anybody stuck: whoever has asked can still be answered, without anybody asking anew, as
      long as the inner call answers what it is asked. */
  lemma NobodyIsStuck<R(!new), K(!new), V(!new)>(
      spec: Spec<R, K, V>, states: seq<State<R, K, V>>, actions: seq<Action<R, K, V>>, i: nat, t: nat)
    requires IsRun(spec, states, actions) && i < |states| && InnerAnswers(spec)
    requires t < |states[i].threads| && !states[i].threads[t].Idle?
    ensures CanFinish(spec, states[i], t)
  {
    InvAlways(spec, states, actions, i);
    AnyoneFinishes(spec, states[i], t);
  }

  lemma AnyoneFinishes<R(!new), K(!new), V(!new)>(spec: Spec<R, K, V>, s: State<R, K, V>, t: nat)
    requires Inv(spec, s) && InnerAnswers(spec) && t < |s.threads| && !s.threads[t].Idle?
    ensures CanFinish(spec, s, t)
    decreases if s.threads[t].Asked? then 2 else if s.threads[t].Missed? then 1 else 0
  {
    match s.threads[t]
    case Refused(_) => FinishedAlready(spec, s, t);
    case Answered(_, _, _, _) => FinishedAlready(spec, s, t);
    case Asked(_, _) =>
      InvStep(spec, s, Lookup(t));
      AnyoneFinishes(spec, Apply(spec, s, Lookup(t)), t);
      FinishesLater(spec, s, Lookup(t), t);
    case Missed(_, _) =>
      InvStep(spec, s, Enter(t));
      AnyoneFinishes(spec, Apply(spec, s, Enter(t)), t);
      FinishesLater(spec, s, Enter(t), t);
    case Waiting(_, _, _) => WaiterFinishes(spec, s, t);
    case _ => LeaderFinishes(spec, s, t);
  }

  // ---------------------------------------------------------------- the structures as objects

  /** The cache and the single-flight group a cached fetcher updates. */
  class FlightCache<K(==), V> {
    var cache: map<K, Entry<V>>
    var inflight: map<K, nat>
    var calls: nat

    constructor ()
      ensures cache == map[] && inflight == map[] && calls == 0
    {
      cache, inflight, calls := map[], map[], 0;
    }

    method Get(key: K, now: int) returns (hit: Option<V>)
      modifies this`cache
      ensures hit == Hit(old(cache), key, now)
      ensures cache == AfterGet(old(cache), key, now)
      ensures hit.Some? <==> key in old(cache) && now <= old(cache)[key].storedAt + old(cache)[key].ttl
      ensures hit.Some? ==> hit.value == old(cache)[key].value && cache == old(cache)
      ensures hit.None? ==> cache == old(cache) - {key}
    {
      if key !in cache { return None; }
      if !cache[key].Live(now) {
        cache := cache - {key};
        return None;
      }
      hit := Some(cache[key].value);
    }

    method Add(key: K, value: V, ttl: int, now: int, call: nat)
      modifies this`cache
      ensures cache == AfterStore(old(cache), key, value, ttl, now, call)
    {
      if ttl > 0 { cache := cache[key := Entry(value, now, ttl, call)]; }
    }

    /** The head of `Do`: join the call registered for the key, or register one of one's own. */
    method Enter(key: K) returns (leads: bool, call: nat)
      modifies this`inflight, this`calls
      ensures leads == (key !in old(inflight))
      ensures leads ==> call == old(calls) && calls == old(calls) + 1 && inflight == old(inflight)[key := call]
      ensures !leads ==> inflight == old(inflight) && call == inflight[key] && calls == old(calls)
    {
      if key in inflight { return false, inflight[key]; }
      leads, call := true, calls;
      inflight := inflight[key := call];
      calls := calls + 1;
    }

    /** The tail of `Do` for the goroutine that led. */
    method Close(key: K)
      modifies this`inflight
      ensures inflight == old(inflight) - {key}
    {
      inflight := inflight - {key};
    }

    /** One whole request. If it finds a call for its key in flight, `joined` is what that call comes back with;
        otherwise `answer` is what its own inner call returns. */
    method Serve(key: K, lookedUp: int, stored: int, joined: V, answer: V, ttl: int) returns (value: V)
      modifies this
      ensures inflight == old(inflight)
      ensures var hit := Hit(old(cache), key, lookedUp);
        var joins := key in old(inflight);
        && value == (if hit.Some? then hit.value else if joins then joined else answer)
        && cache == (if hit.Some? then old(cache)
                     else if joins then AfterGet(old(cache), key, lookedUp)
                     else AfterStore(AfterGet(old(cache), key, lookedUp), key, answer, ttl, stored, old(calls)))
        && calls == (if hit.Some? || joins then old(calls) else old(calls) + 1)
    {
      var hit := Get(key, lookedUp);
      if hit.Some? { return hit.value; }
      var leads, call := Enter(key);
      if !leads { return joined; }
      Add(key, answer, ttl, stored, call);
      Close(key);
      value := answer;
    }
  }

  /** What `Serve` does is what the steps of the protocol do when one goroutine takes all of its own in a row. One
      that joins a call stops there, waiting; `WakesWithTheOutcome` has the rest. */
  lemma ServeIsARun<R(!new), K(!new), V(!new)>(
      spec: Spec<R, K, V>, s: State<R, K, V>, t: nat, req: R, answer: V, elapsed: nat) returns (steps: seq<Action<R, K, V>>, end: State<R, K, V>)
    requires t < |s.threads| && s.threads[t].Free() && spec.admits(req) && spec.inner(req, answer)
    ensures IsPath(spec, s, steps, end)
    ensures var key := spec.keyOf(req);
      var hit := Hit(s.cache, key, s.now);
      var joins := key in s.inflight;
      && end.inflight == s.inflight && t < |end.threads|
      && (if hit.None? && joins then end.threads[t] == Waiting(req, key, s.inflight[key])
          else end.threads[t].Answered? && end.threads[t].answer == (if hit.Some? then hit.value else answer))
      && end.cache == (if hit.Some? then s.cache
                       else if joins then AfterGet(s.cache, key, s.now)
                       else AfterStore(AfterGet(s.cache, key, s.now), key, answer, spec.ttl(answer), s.now + elapsed, |s.calls|))
      && |end.calls| == (if hit.Some? || joins then |s.calls| else |s.calls| + 1)
  {
    var key := spec.keyOf(req);
    var asked := Apply(spec, s, Ask(t, req));
    var looked := Apply(spec, asked, Lookup(t));
    PathOfTwo(spec, s, Ask(t, req), Lookup(t));
    if Hit(s.cache, key, s.now).Some? {
      steps, end := [Ask(t, req), Lookup(t)], looked;
    } else {
      var entered := Apply(spec, looked, Enter(t));
      var tail;
      if key in s.inflight {
        tail, end := [], entered;
      } else {
        tail, end := LeadingIsARun(spec, entered, t, answer, elapsed);
        assert end.inflight == s.inflight;
      }
      PathCons(spec, looked, Enter(t), tail, end);
      PathConcat(spec, s, [Ask(t, req), Lookup(t)], looked, [Enter(t)] + tail, end);
      steps := [Ask(t, req), Lookup(t)] + ([Enter(t)] + tail);
    }
  }

  /** A goroutine that joined a call can go on exactly when the call is closed, and then has its outcome. */
  lemma WakesWithTheOutcome<R(!new), K(!new), V(!new)>(spec: Spec<R, K, V>, s: State<R, K, V>, t: nat)
    requires Inv(spec, s) && t < |s.threads| && s.threads[t].Waiting?
    ensures var me := s.threads[t];
      && me.call < |s.calls|
      && (Enabled(spec, s, Wake(t)) <==> s.calls[me.call].closed)
      && (s.calls[me.call].closed ==>
            var s' := Apply(spec, s, Wake(t));
            s' == s.(threads := s.threads[t := s'.threads[t]])
            && s'.threads[t].Answered? && s'.threads[t].req == me.req
            && Produced(s, me.call, me.key, s'.threads[t].answer))
  {
    assert ThreadOk(spec, s, t, s.threads[t]);
  }

  lemma LeadingIsARun<R(!new), K(!new), V(!new)>(
      spec: Spec<R, K, V>, s: State<R, K, V>, t: nat, answer: V, elapsed: nat) returns (steps: seq<Action<R, K, V>>, end: State<R, K, V>)
    requires t < |s.threads| && s.threads[t].Calling? && spec.inner(s.threads[t].req, answer)
    ensures IsPath(spec, s, steps, end)
    ensures var me := s.threads[t];
      && end.now == s.now + elapsed && end.inflight == s.inflight - {me.key} && |end.calls| == |s.calls|
      && end.threads == s.threads[t := Answered(me.req, me.key, answer, me.call)]
      && end.cache == AfterStore(s.cache, me.key, answer, spec.ttl(answer), s.now + elapsed, me.call)
      && (me.call < |s.calls| ==>
            end.calls == s.calls[me.call := s.calls[me.call].(outcome := Some(answer), closed := true)])
    ensures forall i :: 0 <= i < |steps| ==> !steps[i].Ask?
  {
    var later := Apply(spec, s, Advance(elapsed));
    var returned := Apply(spec, later, InnerReturns(t, answer));
    var stored := Apply(spec, returned, Store(t));
    end := Apply(spec, stored, Close(t));
    PathOfTwo(spec, s, Advance(elapsed), InnerReturns(t, answer));
    PathOfTwo(spec, returned, Store(t), Close(t));
    steps := [Advance(elapsed), InnerReturns(t, answer)] + [Store(t), Close(t)];
    PathConcat(spec, s, [Advance(elapsed), InnerReturns(t, answer)], returned, [Store(t), Close(t)], end);
  }

  ghost predicate IsPath<R(!new), K(!new), V(!new)>(
      spec: Spec<R, K, V>, s: State<R, K, V>, steps: seq<Action<R, K, V>>, end: State<R, K, V>)
    decreases |steps|
  {
    if steps == [] then s == end
    else Enabled(spec, s, steps[0]) && IsPath(spec, Apply(spec, s, steps[0]), steps[1..], end)
  }

  lemma PathOfTwo<R(!new), K(!new), V(!new)>(spec: Spec<R, K, V>, s: State<R, K, V>, a: Action<R, K, V>, b: Action<R, K, V>)
    requires Enabled(spec, s, a) && Enabled(spec, Apply(spec, s, a), b)
    ensures IsPath(spec, s, [a, b], Apply(spec, Apply(spec, s, a), b))
  {
    assert [a, b][1..] == [b] && [b][1..] == [];
  }

  lemma {:induction false} PathConcat<R(!new), K(!new), V(!new)>(
      spec: Spec<R, K, V>, s: State<R, K, V>, p: seq<Action<R, K, V>>, mid: State<R, K, V>, q: seq<Action<R, K, V>>, end: State<R, K, V>)
    requires IsPath(spec, s, p, mid) && IsPath(spec, mid, q, end)
    ensures IsPath(spec, s, p + q, end)
    decreases |p|
  {
    if p == [] {
      assert p + q == q;
    } else {
      assert (p + q)[1..] == p[1..] + q;
      PathConcat(spec, Apply(spec, s, p[0]), p[1..], mid, q, end);
    }
  }

  lemma PathCons<R(!new), K(!new), V(!new)>(
      spec: Spec<R, K, V>, s: State<R, K, V>, a: Action<R, K, V>, steps: seq<Action<R, K, V>>, end: State<R, K, V>)
    requires Enabled(spec, s, a) && IsPath(spec, Apply(spec, s, a), steps, end)
    ensures IsPath(spec, s, [a] + steps, end)
  {
    assert ([a] + steps)[1..] == steps;
  }

  // ---------------------------------------------------------------- a second call while the first outcome is live

  ghost predicate Stands<R, K, V>(s: State<R, K, V>, key: K, e: Entry<V>) {
    key in s.cache && s.cache[key] == e && e.Live(s.now)
  }

  /** The entry stands, live, at every state along the steps. */
  ghost predicate StandsThroughout<R(!new), K(!new), V(!new)>(
      spec: Spec<R, K, V>, s: State<R, K, V>, steps: seq<Action<R, K, V>>, key: K, e: Entry<V>)
    decreases |steps|
  {
    && Stands(s, key, e)
    && (steps != [] ==> Enabled(spec, s, steps[0]) && StandsThroughout(spec, Apply(spec, s, steps[0]), steps[1..], key, e))
  }

  /** Going on like this, the entry stands throughout and a call for its key is in flight at the end. */
  ghost predicate BeginsAnother<R(!new), K(!new), V(!new)>(
      spec: Spec<R, K, V>, s: State<R, K, V>, steps: seq<Action<R, K, V>>, end: State<R, K, V>, key: K, e: Entry<V>)
  {
    IsPath(spec, s, steps, end) && StandsThroughout(spec, s, steps, key, e) && key in end.inflight
  }

  ghost predicate SomeoneMissed<R, K, V>(s: State<R, K, V>, key: K) {
    exists t :: 0 <= t < |s.threads| && s.threads[t].Missed? && s.threads[t].key == key
  }

  lemma NobodyMissesALiveEntry<R(!new), K(!new), V(!new)>(
      spec: Spec<R, K, V>, s: State<R, K, V>, a: Action<R, K, V>, key: K, e: Entry<V>)
    requires Stands(s, key, e) && key !in s.inflight && !SomeoneMissed(s, key) && Enabled(spec, s, a)
    ensures var s' := Apply(spec, s, a); key !in s'.inflight && !SomeoneMissed(s', key)
  {
  }

  lemma {:induction false} NoCallWithoutAMiss<R(!new), K(!new), V(!new)>(
      spec: Spec<R, K, V>, s: State<R, K, V>, steps: seq<Action<R, K, V>>, end: State<R, K, V>, key: K, e: Entry<V>)
    requires key !in s.inflight && !SomeoneMissed(s, key)
    requires IsPath(spec, s, steps, end) && StandsThroughout(spec, s, steps, key, e)
    ensures key !in end.inflight
    decreases |steps|
  {
    if steps != [] {
      NobodyMissesALiveEntry(spec, s, steps[0], key, e);
      NoCallWithoutAMiss(spec, Apply(spec, s, steps[0]), steps[1..], end, key, e);
    }
  }

  /** The protocol does not promise one inner call per TTL. While an entry stands and is live, another call for its
      key can begin iff some goroutine had already missed it: looked before it was stored, and not yet entered `Do`. */
  lemma SecondCallIff<R(!new), K(!new), V(!new)>(spec: Spec<R, K, V>, s: State<R, K, V>, key: K, e: Entry<V>)
    requires Stands(s, key, e) && key !in s.inflight
    ensures (exists steps, end :: BeginsAnother(spec, s, steps, end, key, e)) <==> SomeoneMissed(s, key)
  {
    if SomeoneMissed(s, key) {
      var t :| 0 <= t < |s.threads| && s.threads[t].Missed? && s.threads[t].key == key;
      var end := Apply(spec, s, Enter(t));
      var steps: seq<Action<R, K, V>> := [Enter(t)];
      assert steps[1..] == [];
      assert BeginsAnother(spec, s, steps, end, key, e);
    } else {
      forall steps, end ensures !BeginsAnother(spec, s, steps, end, key, e) {
        if BeginsAnother(spec, s, steps, end, key, e) {
          NoCallWithoutAMiss(spec, s, steps, end, key, e);
        }
      }
    }
  }

  /** A run that gets there from the start: the second call's outcome replaces the first one's while that is live. */
  lemma SecondCallWithinTTL<R(!new), K(!new), V(!new)>(spec: Spec<R, K, V>, req: R, first: V, second: V)
    returns (start: State<R, K, V>, steps: seq<Action<R, K, V>>, mid: State<R, K, V>, more: seq<Action<R, K, V>>, end: State<R, K, V>)
    requires spec.admits(req) && spec.inner(req, first) && spec.inner(req, second) && spec.ttl(first) > 0 && spec.ttl(second) > 0
    ensures Initial(start) && IsPath(spec, start, steps, mid) && IsPath(spec, mid, more, end)
    ensures var key := spec.keyOf(req);
      && key in mid.cache && mid.cache[key].value == first && |mid.calls| == 1
      && key in end.cache && end.cache[key].value == second && |end.calls| == 2
      && mid.cache[key].Live(end.now)
  {
    var before;
    start, before := BothMiss(spec, req, req);
    var missed := BothMissed(spec, req, req);
    var led := Apply(spec, missed, Enter(0));
    var tail;
    tail, mid := LeadingIsARun(spec, led, 0, first, 0);
    PathCons(spec, missed, Enter(0), tail, mid);
    PathConcat(spec, start, before, missed, [Enter(0)] + tail, mid);
    steps := before + ([Enter(0)] + tail);
    tail, end := LeadingIsARun(spec, Apply(spec, mid, Enter(1)), 1, second, 0);
    PathCons(spec, mid, Enter(1), tail, end);
    more := [Enter(1)] + tail;
  }
}
