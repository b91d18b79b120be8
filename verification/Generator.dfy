/** The producer of auth_server/authz/acl.go as it runs: `iterate` extends one shared slice with Go's `append` and copies
    only what it sends. Every execution is a run of the step machine of `Producer`. */
module Generator {
  import opened Cartesian
  import Producer

  // ---------------------------------------------------------------- Go slices

  /** A slice that starts at the beginning of its backing array, as every slice here does; its capacity
      is the array's length. */
  datatype Slice<T> = Slice(back: array<T>, len: nat)

  ghost predicate Valid<T>(s: Slice<T>) {
    s.len <= s.back.Length
  }

  ghost function Contents<T>(s: Slice<T>): seq<T>
    requires Valid(s)
    reads s.back
  {
    s.back[..s.len]
  }

  /** The capacity the runtime picks for a grown slice: any that is large enough. */
  method Grow(needed: nat) returns (capacity: nat)
    ensures capacity >= needed
  {
    var spare: int := *;
    capacity := if spare > 0 then needed + spare else needed;
  }

  /** `append(s, x)`: writes into spare capacity when there is some, and otherwise moves to a fresh array
      whose capacity the runtime chooses. */
  method Append<T(0)>(s: Slice<T>, x: T) returns (r: Slice<T>)
    requires Valid(s)
    modifies s.back
    ensures Valid(r) && r.len == s.len + 1
    ensures Contents(r) == old(Contents(s)) + [x]
    ensures Contents(s) == old(Contents(s))
    ensures s.len < s.back.Length ==> r.back == s.back
    ensures s.len == s.back.Length ==> fresh(r.back) && s.back[..] == old(s.back[..])
  {
    if s.len < s.back.Length {
      s.back[s.len] := x;
      r := Slice(s.back, s.len + 1);
    } else {
      var capacity := Grow(s.len + 1);
      var grown := new T[capacity];
      forall i | 0 <= i < s.len { grown[i] := s.back[i]; }
      grown[s.len] := x;
      r := Slice(grown, s.len + 1);
    }
  }

  /** `append(append([]any{}, s...), x)`: always lands in an array of its own. */
  method CopyAppend<T(0)>(s: Slice<T>, x: T) returns (r: Slice<T>)
    requires Valid(s)
    ensures Valid(r) && fresh(r.back)
    ensures Contents(r) == Contents(s) + [x]
  {
    var capacity := Grow(s.len + 1);
    var copy := new T[capacity];
    forall i | 0 <= i < s.len { copy[i] := s.back[i]; }
    copy[s.len] := x;
    r := Slice(copy, s.len + 1);
  }

  // ---------------------------------------------------------------- the producer

  /** The cancellable context. Whether somebody ever cancels it is not for the goroutine to say; if so, that may happen
      at any moment, and nobody uncancels it. */
  class Context {
    const willCancel: bool
    var cancelled: bool

    constructor (willCancel: bool)
      ensures !cancelled && this.willCancel == willCancel
    {
      this.willCancel, cancelled := willCancel, false;
    }

    /** Whether `ctx.Done()` is ready when it is looked at. */
    method Done() returns (done: bool)
      requires cancelled ==> willCancel
      modifies this
      ensures old(cancelled) ==> cancelled
      ensures cancelled ==> willCancel
      ensures done == cancelled
    {
      var now: bool := *;
      cancelled := cancelled || (willCancel && now);
      done := cancelled;
    }
  }

  /** The unbuffered channel, as the list of slices the receiver has been handed. Whether the receiver ever stops
      receiving is not for the goroutine to say either. */
  class Channel<T(0)> {
    const willLeave: bool
    var sent: seq<Slice<T>>
    var gone: bool
    var closed: bool

    constructor (willLeave: bool)
      ensures sent == [] && !gone && !closed && this.willLeave == willLeave
    {
      this.willLeave := willLeave;
      sent, gone, closed := [], false, false;
    }

    /** The select of a leaf: either the receiver takes the tuple, or the context is done and the tuple is dropped.
        When nobody receives, only a cancellation ends the wait. */
    method SendOrDone(ctx: Context, tuple: Slice<T>) returns (ok: bool)
      requires !closed && AsAnnounced(ctx, this)
      modifies this`sent, this`gone, ctx
      ensures AsAnnounced(ctx, this)
      ensures old(ctx.cancelled) ==> ctx.cancelled
      ensures old(gone) ==> gone
      ensures ok ==> !gone && sent == old(sent) + [tuple]
      ensures !ok ==> ctx.cancelled && sent == old(sent)
    {
      var done := ctx.Done();
      var now: bool := *;
      gone := gone || (willLeave && now);
      if gone {
        ctx.cancelled := true;
        return false;
      }
      var dropped: bool := *;
      if done && dropped { return false; }
      sent := sent + [tuple];
      return true;
    }
  }

  /** Nobody but those who will cancels or leaves, and a receiver that leaves sees to a cancellation, as the only one
      does: without that the goroutine would wait for ever. */
  ghost predicate AsAnnounced<T(0)>(ctx: Context, ch: Channel<T>)
    reads ctx, ch
  {
    (ctx.cancelled ==> ctx.willCancel) && (ch.gone ==> ch.willLeave) && (ch.willLeave ==> ctx.willCancel)
  }

  /** The tuples handed over from index `from` on read `out` in the current heap. */
  ghost predicate Delivered<T(0)>(ch: Channel<T>, from: nat, out: seq<seq<T>>)
    reads ch, set t | t in ch.sent :: t.back
  {
    |ch.sent| == from + |out|
    && forall i :: from <= i < |ch.sent| ==> Valid(ch.sent[i]) && Contents(ch.sent[i]) == out[i - from]
  }

  /** No handed-over tuple shares its array with `s`. */
  ghost predicate Apart<T(0)>(ch: Channel<T>, s: Slice<T>)
    reads ch
  {
    forall i :: 0 <= i < |ch.sent| ==> ch.sent[i].back != s.back
  }

  /** Everything handed over since `before` sits in an array allocated since the method began. */
  twostate predicate Extended<T(0)>(before: seq<Slice<T>>, ch: Channel<T>)
    reads ch
  {
    before <= ch.sent && forall i :: |before| <= i < |ch.sent| ==> fresh(ch.sent[i].back)
  }

  lemma Advance<T>(out: seq<T>, sub: seq<T>, branch: seq<T>, rest: seq<T>)
    requires sub <= branch
    ensures out + sub <= out + (branch + rest)
    ensures sub == branch ==> (out + sub) + rest == out + (branch + rest)
  {
  }

  lemma EmitStep<T>(prefix: seq<T>, top: seq<T>, need: seq<seq<T>>, i: nat)
    requires i < |top|
    ensures Emit(prefix, top[i..], need) == Branch(prefix + [top[i]], need) + Emit(prefix, top[i + 1..], need)
  {
    assert top[i..][1..] == top[i + 1..];
  }

  // ---------------------------------------------------------------- the run of the step machine

  /** From `m`, whose innermost activation is this one, to its return, with `out` received meanwhile. */
  ghost predicate Traced<T>(m: Producer.State<T>, run: seq<Producer.Action>, end: Producer.State<T>, out: seq<seq<T>>, cancelled: bool, gone: bool) {
    && Producer.IsRun(m, run, end)
    && m.stack != [] && end == m.(stack := m.stack[1..], received := m.received + out, cancelled := cancelled, gone := gone)
  }

  /** The machine is where this activation is, with `out` received since `m`. */
  ghost predicate Reached<T>(m: Producer.State<T>, run: seq<Producer.Action>, now: Producer.State<T>, f: Producer.Frame<T>,
                             out: seq<seq<T>>, cancelled: bool, gone: bool)
  {
    && Producer.IsRun(m, run, now)
    && m.stack != []
    && now == m.(stack := [f] + m.stack[1..], received := m.received + out, cancelled := cancelled, gone := gone)
  }

  /** The machine notices what others did: a cancellation, a receiver that left. */
  lemma CatchUp<T>(m: Producer.State<T>, run: seq<Producer.Action>, now: Producer.State<T>, cancelled: bool, gone: bool)
    returns (run': seq<Producer.Action>, now': Producer.State<T>)
    requires Producer.IsRun(m, run, now)
    requires (now.cancelled ==> cancelled) && (now.gone ==> gone)
    ensures Producer.IsRun(m, run', now') && now' == now.(cancelled := cancelled, gone := gone)
  {
    run', now' := run, now;
    if cancelled && !now.cancelled {
      Producer.RunExtends(m, run', now', Producer.Cancel);
      run', now' := run' + [Producer.Cancel], Producer.Apply(now', Producer.Cancel);
    }
    if gone && !now.gone {
      Producer.RunExtends(m, run', now', Producer.Leave);
      run', now' := run' + [Producer.Leave], Producer.Apply(now', Producer.Leave);
    }
  }

  /** One step of the activation, after which it goes on with the next member. */
  lemma SendStep<T>(m: Producer.State<T>, run: seq<Producer.Action>, now: Producer.State<T>, prefix: seq<T>, top: seq<T>, i: nat,
                    out: seq<seq<T>>, cancelled: bool)
    returns (run': seq<Producer.Action>, now': Producer.State<T>)
    requires i < |top| && Reached(m, run, now, Producer.Frame(prefix, top[i..], []), out, cancelled, false)
    ensures Reached(m, run', now', Producer.Frame(prefix, top[i + 1..], []), out + [prefix + [top[i]]], cancelled, false)
  {
    Producer.RunExtends(m, run, now, Producer.Send);
    run', now' := run + [Producer.Send], Producer.Apply(now, Producer.Send);
    assert top[i..][1..] == top[i + 1..];
    assert now.stack[1..] == m.stack[1..];
    assert now'.received == m.received + (out + [prefix + [top[i]]]);
  }

  /** The last step of the activation: it sees the context done, or has no member left. */
  lemma LastStep<T>(m: Producer.State<T>, run: seq<Producer.Action>, now: Producer.State<T>, f: Producer.Frame<T>,
                    out: seq<seq<T>>, cancelled: bool, gone: bool)
    returns (run': seq<Producer.Action>, end: Producer.State<T>)
    requires Reached(m, run, now, f, out, cancelled, gone) && (cancelled || f.todo == [])
    ensures Traced(m, run', end, out, cancelled, gone)
  {
    var a := if f.todo == [] then Producer.Return else if f.need == [] then Producer.DropLeaf else Producer.DropBranch;
    Producer.RunExtends(m, run, now, a);
    run', end := run + [a], Producer.Apply(now, a);
    assert now.stack[1..] == m.stack[1..];
  }

  lemma {:induction false} RunConcat<T>(s: Producer.State<T>, p: seq<Producer.Action>, mid: Producer.State<T>, q: seq<Producer.Action>, end: Producer.State<T>)
    requires Producer.IsRun(s, p, mid) && Producer.IsRun(mid, q, end)
    ensures Producer.IsRun(s, p + q, end)
    decreases |p|
  {
    if p == [] {
      assert p + q == q;
    } else {
      assert (p + q)[1..] == p[1..] + q;
      RunConcat(Producer.Apply(s, p[0]), p[1..], mid, q, end);
    }
  }

  function Below<T>(prefix: seq<T>, top: seq<T>, i: nat, need: seq<seq<T>>): Producer.Frame<T>
    requires i < |top| && need != []
  {
    Producer.Frame(prefix + [top[i]], need[0], need[1..])
  }

  /** The call of an inner activation: its frame goes on top. */
  lemma CallStep<T>(m: Producer.State<T>, run: seq<Producer.Action>, now: Producer.State<T>, prefix: seq<T>, top: seq<T>, i: nat,
                    need: seq<seq<T>>, out: seq<seq<T>>, gone: bool)
    returns (run': seq<Producer.Action>, called: Producer.State<T>)
    requires i < |top| && need != [] && Reached(m, run, now, Producer.Frame(prefix, top[i..], need), out, false, gone)
    ensures Producer.IsRun(m, run', called)
    ensures called == now.(stack := [Below(prefix, top, i, need)] + ([Producer.Frame(prefix, top[i + 1..], need)] + m.stack[1..]))
  {
    Producer.RunExtends(m, run, now, Producer.Descend);
    run', called := run + [Producer.Descend], Producer.Apply(now, Producer.Descend);
    assert top[i..][1..] == top[i + 1..];
    assert now.stack[1..] == m.stack[1..];
  }

  /** The return from it. */
  lemma ReturnStep<T>(m: Producer.State<T>, run: seq<Producer.Action>, called: Producer.State<T>, below: Producer.Frame<T>, f: Producer.Frame<T>,
                      earlier: seq<seq<T>>, sub: seq<Producer.Action>, end: Producer.State<T>, out: seq<seq<T>>, cancelled: bool, gone: bool, wasGone: bool)
    requires m.stack != [] && Producer.IsRun(m, run, called)
    requires called == m.(stack := [below] + ([f] + m.stack[1..]), received := m.received + earlier, cancelled := false, gone := wasGone)
    requires Traced(called, sub, end, out, cancelled, gone)
    ensures Reached(m, run + sub, end, f, earlier + out, cancelled, gone)
  {
    RunConcat(m, run, called, sub, end);
    assert called.stack[1..] == [f] + m.stack[1..];
    assert m.received + earlier + out == m.received + (earlier + out);
  }

  // ---------------------------------------------------------------- iterate

  lemma LeafStep<T>(prefix: seq<T>, top: seq<T>, i: nat, out: seq<seq<T>>, all: seq<seq<T>>)
    requires i < |top| && out + Emit(prefix, top[i..], []) == all
    ensures out <= all
    ensures (out + [prefix + [top[i]]]) + Emit(prefix, top[i + 1..], []) == all
  {
    EmitStep(prefix, top, [], i);
    assert Branch(prefix + [top[i]], []) == [prefix + [top[i]]];
  }

  /** One leaf of `iterate`: a fresh copy, and the select. */
  method SendLeaf<T(0)>(ctx: Context, ch: Channel<T>, top: seq<T>, i: nat, result: Slice<T>, ghost from: nat, ghost out: seq<seq<T>>,
                        ghost m: Producer.State<T>, ghost before: seq<Producer.Action>, ghost at: Producer.State<T>)
    returns (ok: bool, ghost run: seq<Producer.Action>, ghost now: Producer.State<T>)
    requires AsAnnounced(ctx, ch)
    requires Valid(result) && Apart(ch, result) && !ch.closed && i < |top|
    requires Delivered(ch, from, out)
    requires Reached(m, before, at, Producer.Frame(Contents(result), top[i..], []), out, ctx.cancelled, ch.gone)
    modifies ctx, ch`sent, ch`gone
    ensures AsAnnounced(ctx, ch)
    ensures old(ctx.cancelled) ==> ctx.cancelled
    ensures old(ch.gone) ==> ch.gone
    ensures Extended(old(ch.sent), ch)
    ensures !ok ==>
      && ctx.cancelled && ch.sent == old(ch.sent)
      && Reached(m, run, now, Producer.Frame(Contents(result), top[i..], []), out, true, ch.gone)
    ensures ok ==>
      && Delivered(ch, from, out + [Contents(result) + [top[i]]])
      && Reached(m, run, now, Producer.Frame(Contents(result), top[i + 1..], []), out + [Contents(result) + [top[i]]], ctx.cancelled, ch.gone)
  {
    var tuple := CopyAppend(result, top[i]);
    ok := ch.SendOrDone(ctx, tuple);
    run, now := CatchUp(m, before, at, ctx.cancelled, ch.gone);
    if ok { run, now := SendStep(m, run, now, Contents(result), top, i, out, ctx.cancelled); }
  }

  /** The leaves of `iterate`: one fresh copy per member of the last set. */
  method SendLeaves<T(0)>(ctx: Context, ch: Channel<T>, top: seq<T>, result: Slice<T>, ghost m: Producer.State<T>)
    returns (ghost out: seq<seq<T>>, ghost run: seq<Producer.Action>, ghost end: Producer.State<T>)
    requires AsAnnounced(ctx, ch)
    requires Valid(result) && Apart(ch, result) && !ch.closed
    requires Reached(m, [], m, Producer.Frame(Contents(result), top, []), [], ctx.cancelled, ch.gone)
    modifies ctx, ch`sent, ch`gone
    ensures AsAnnounced(ctx, ch)
    ensures old(ctx.cancelled) ==> ctx.cancelled
    ensures old(ch.gone) ==> ch.gone
    ensures Traced(m, run, end, out, ctx.cancelled, ch.gone)
    ensures Extended(old(ch.sent), ch)
    ensures Delivered(ch, |old(ch.sent)|, out)
    ensures out <= Emit(Contents(result), top, [])
    ensures !ctx.cancelled ==> out == Emit(Contents(result), top, [])
  {
    ghost var before, prefix := ch.sent, Contents(result);
    ghost var now := m;
    out, run := [], [];
    assert top[0..] == top;
    for i := 0 to |top|
      invariant AsAnnounced(ctx, ch)
      invariant old(ctx.cancelled) ==> ctx.cancelled
      invariant old(ch.gone) ==> ch.gone
      invariant Extended(before, ch)
      invariant Delivered(ch, |before|, out)
      invariant out + Emit(prefix, top[i..], []) == Emit(prefix, top, [])
      invariant Reached(m, run, now, Producer.Frame(prefix, top[i..], []), out, ctx.cancelled, ch.gone)
    {
      LeafStep(prefix, top, i, out, Emit(prefix, top, []));
      var ok;
      ok, run, now := SendLeaf(ctx, ch, top, i, result, |before|, out, m, run, now);
      if !ok {
        run, end := LastStep(m, run, now, Producer.Frame(prefix, top[i..], []), out, ctx.cancelled, ch.gone);
        return;
      }
      out := out + [prefix + [top[i]]];
    }
    run, end := LastStep(m, run, now, Producer.Frame(prefix, top[|top|..], []), out, ctx.cancelled, ch.gone);
  }

  /** `iterate`. Sibling branches overwrite the spare capacity of the shared `result`; nevertheless every
      tuple sent still reads, when the call is over, what the product asks for at its place. */
  method Iterate<T(0)>(ctx: Context, ch: Channel<T>, top: seq<T>, result: Slice<T>, need: seq<seq<T>>, ghost m: Producer.State<T>)
    returns (ghost out: seq<seq<T>>, ghost run: seq<Producer.Action>, ghost end: Producer.State<T>)
    requires AsAnnounced(ctx, ch)
    requires Valid(result) && Apart(ch, result) && !ch.closed
    requires Reached(m, [], m, Producer.Frame(Contents(result), top, need), [], ctx.cancelled, ch.gone)
    modifies ctx, ch`sent, ch`gone, result.back
    ensures AsAnnounced(ctx, ch)
    ensures old(ctx.cancelled) ==> ctx.cancelled
    ensures old(ch.gone) ==> ch.gone
    ensures Traced(m, run, end, out, ctx.cancelled, ch.gone)
    ensures Contents(result) == old(Contents(result))
    ensures Extended(old(ch.sent), ch)
    ensures Delivered(ch, |old(ch.sent)|, out)
    ensures out <= Emit(old(Contents(result)), top, need)
    ensures !ctx.cancelled ==> out == Emit(old(Contents(result)), top, need)
    decreases |need|, 1
  {
    if need == [] {
      out, run, end := SendLeaves(ctx, ch, top, result, m);
      return;
    }
    ghost var before, prefix := ch.sent, Contents(result);
    ghost var now := m;
    out, run := [], [];
    assert top[0..] == top;
    for i := 0 to |top|
      invariant AsAnnounced(ctx, ch)
      invariant old(ctx.cancelled) ==> ctx.cancelled
      invariant old(ch.gone) ==> ch.gone
      invariant Reached(m, run, now, Producer.Frame(prefix, top[i..], need), out, ctx.cancelled, ch.gone)
      invariant Contents(result) == prefix
      invariant Extended(before, ch)
      invariant Delivered(ch, |before|, out)
      invariant out <= Emit(prefix, top, need)
      invariant ctx.cancelled || out + Emit(prefix, top[i..], need) == Emit(prefix, top, need)
    {
      var done := ctx.Done();
      run, now := CatchUp(m, run, now, ctx.cancelled, ch.gone);
      if done {
        run, end := LastStep(m, run, now, Producer.Frame(prefix, top[i..], need), out, ctx.cancelled, ch.gone);
        return;
      }
      out, run, now := Descend(ctx, ch, top, i, result, need, |before|, out, m, run, now);
    }
    run, end := LastStep(m, run, now, Producer.Frame(prefix, top[|top|..], need), out, ctx.cancelled, ch.gone);
  }

  /** The recursive call of `iterate` for its member `i`: it appends to `result` without copying. */
  method Descend<T(0)>(ctx: Context, ch: Channel<T>, top: seq<T>, i: nat, result: Slice<T>, need: seq<seq<T>>,
                       ghost from: nat, ghost earlier: seq<seq<T>>,
                       ghost m: Producer.State<T>, ghost before: seq<Producer.Action>, ghost at: Producer.State<T>)
    returns (ghost out: seq<seq<T>>, ghost run: seq<Producer.Action>, ghost now: Producer.State<T>)
    requires need != [] && i < |top|
    requires AsAnnounced(ctx, ch)
    requires Valid(result) && Apart(ch, result) && !ch.closed
    requires Delivered(ch, from, earlier)
    requires !ctx.cancelled && Reached(m, before, at, Producer.Frame(Contents(result), top[i..], need), earlier, false, ch.gone)
    requires earlier + Emit(Contents(result), top[i..], need) == Emit(Contents(result), top, need)
    modifies ctx, ch`sent, ch`gone, result.back
    ensures AsAnnounced(ctx, ch)
    ensures old(ch.gone) ==> ch.gone
    ensures Reached(m, run, now, Producer.Frame(old(Contents(result)), top[i + 1..], need), out, ctx.cancelled, ch.gone)
    ensures Contents(result) == old(Contents(result))
    ensures Extended(old(ch.sent), ch)
    ensures Delivered(ch, from, out)
    ensures out <= Emit(old(Contents(result)), top, need)
    ensures ctx.cancelled || out + Emit(old(Contents(result)), top[i + 1..], need) == Emit(old(Contents(result)), top, need)
    decreases |need|, 0
  {
    ghost var prefix, sentBefore, wasGone := Contents(result), ch.sent, ch.gone;
    ghost var called;
    run, called := CallStep(m, before, at, prefix, top, i, need, earlier, wasGone);
    var extended := Append(result, top[i]);
    ghost var sub, steps;
    sub, steps, now := Iterate(ctx, ch, need[0], extended, need[1..], called);
    ReturnStep(m, run, called, Below(prefix, top, i, need), Producer.Frame(prefix, top[i + 1..], need), earlier,
      steps, now, sub, ctx.cancelled, ch.gone, wasGone);
    run := run + steps;
    out := earlier + sub;
    if extended.back == result.back {
      assert Contents(result) == Contents(extended)[..result.len] == prefix;
    }
    assert Delivered(ch, from, out) by {
      forall k | from <= k < |ch.sent|
        ensures Valid(ch.sent[k]) && Contents(ch.sent[k]) == out[k - from]
      {
        if k < |sentBefore| { assert ch.sent[k] == sentBefore[k]; }
      }
    }
    EmitStep(prefix, top, need, i);
    Advance(earlier, sub, Branch(prefix + [top[i]], need), Emit(prefix, top[i + 1..], need));
  }

  /** `IterWithContext`, seen from the end of the goroutine's run, whatever the receiver and the owner of the context did
      meanwhile: it was a run of the step machine, and what was received still reads as it does there. */
  method IterWithContext<T(0)>(ctx: Context, params: seq<seq<T>>, willLeave: bool)
    returns (ch: Channel<T>, ghost run: seq<Producer.Action>, ghost end: Producer.State<T>)
    requires (ctx.cancelled ==> ctx.willCancel) && (willLeave ==> ctx.willCancel)
    modifies ctx
    ensures fresh(ch) && ch.closed && ch.willLeave == willLeave && AsAnnounced(ctx, ch)
    ensures Producer.IsRun(Producer.Start(params), run, end)
    ensures end.halted && end.cancelled == ctx.cancelled && end.gone == ch.gone
    ensures Delivered(ch, 0, end.received)
    ensures end.received <= Product(params)
    ensures !ctx.cancelled ==> end.received == Product(params)
    ensures !ctx.willCancel ==> end.received == Product(params) && |ch.sent| == |Product(params)|
  {
    ch := new Channel(willLeave);
    run, end := CatchUp(Producer.Start(params), [], Producer.Start(params), ctx.cancelled, false);
    if params != [] {
      var empty := new T[0];
      assert empty[..] == [];
      ghost var out, steps, returned;
      out, steps, returned := Iterate(ctx, ch, params[0], Slice(empty, 0), params[1..], end);
      RunConcat(Producer.Start(params), run, end, steps, returned);
      Producer.RunExtends(Producer.Start(params), run + steps, returned, Producer.Close);
      run, end := run + steps + [Producer.Close], Producer.Apply(returned, Producer.Close);
    }
    ch.closed := true;
    Producer.RunsAreSafe(params, run, end);
  }
}
