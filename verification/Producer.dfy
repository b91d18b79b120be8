/** `IterWithContext` as it runs: the producer goroutine, the receiver and the cancellation of
    auth_server/authz/acl.go interleave one atomic step at a time. */
module Producer {
  import opened Cartesian

  /** One activation of `iterate`; the prefix is the value of its `result` slice. */
  datatype Frame<T> = Frame(prefix: seq<T>, todo: seq<T>, need: seq<seq<T>>)

  /** `stack[0]` is the innermost activation; `gone` says the receiver takes nothing any more. */
  datatype State<T> = State(
    stack: seq<Frame<T>>,
    received: seq<seq<T>>,
    cancelled: bool,
    gone: bool,
    halted: bool,
    closes: nat)

  datatype Action =
    | Send        // the receiver takes a tuple from a leaf
    | DropLeaf    // a leaf sees the context done
    | DropBranch  // an inner activation sees the context done
    | Descend     // an inner activation calls itself for its next member
    | Return      // an activation has run out of members
    | Close       // the deferred close of the channel
    | Cancel      // someone cancels the context
    | Leave       // the receiver stops receiving
  {
    predicate OfProducer() { !Cancel? && !Leave? }
  }

  function Start<T>(params: seq<seq<T>>): State<T> {
    if params == [] then State([], [], false, false, true, 1)
    else State([Frame([], params[0], params[1..])], [], false, false, false, 0)
  }

  predicate AtMember<T>(s: State<T>, leaf: bool) {
    s.stack != [] && s.stack[0].todo != [] && (s.stack[0].need == []) == leaf
  }

  predicate Enabled<T>(s: State<T>, a: Action) {
    match a
    case Send => AtMember(s, true) && !s.gone
    case DropLeaf => AtMember(s, true) && s.cancelled
    case DropBranch => AtMember(s, false) && s.cancelled
    case Descend => AtMember(s, false) && !s.cancelled
    case Return => s.stack != [] && s.stack[0].todo == []
    case Close => s.stack == [] && !s.halted
    case Cancel => !s.cancelled
    case Leave => !s.gone
  }

  function Apply<T>(s: State<T>, a: Action): (s': State<T>)
    requires Enabled(s, a)
  {
    match a
    case Send =>
      var f := s.stack[0];
      s.(stack := [f.(todo := f.todo[1..])] + s.stack[1..], received := s.received + [f.prefix + [f.todo[0]]])
    case Descend =>
      var f := s.stack[0];
      var child := Frame(f.prefix + [f.todo[0]], f.need[0], f.need[1..]);
      s.(stack := [child, f.(todo := f.todo[1..])] + s.stack[1..])
    case Close => s.(halted := true, closes := s.closes + 1)
    case Cancel => s.(cancelled := true)
    case Leave => s.(gone := true)
    case _ => s.(stack := s.stack[1..])
  }

  predicate IsRun<T(==)>(s: State<T>, actions: seq<Action>, end: State<T>)
    decreases |actions|
  {
    if actions == [] then s == end
    else Enabled(s, actions[0]) && IsRun(Apply(s, actions[0]), actions[1..], end)
  }

  // ---------------------------------------------------------------- the invariant

  /** What the open activations would still send, innermost first. */
  function Pending<T>(stack: seq<Frame<T>>): seq<seq<T>> {
    if stack == [] then []
    else Emit(stack[0].prefix, stack[0].todo, stack[0].need) + Pending(stack[1..])
  }

  ghost predicate Inv<T>(s: State<T>, params: seq<seq<T>>) {
    && (forall i :: 0 <= i < |s.stack| ==> |s.stack[i].need| + |s.stack| - i == |params|)
    && (s.halted ==> s.stack == [])
    && s.closes == (if s.halted then 1 else 0)
    && (|| s.received + Pending(s.stack) == Product(params)
        || (s.cancelled && s.received <= Product(params) && |s.stack| < |params|)
        || (s.cancelled && s.received <= Product(params) && s.stack == []))
  }

  lemma InvAtStart<T>(params: seq<seq<T>>)
    ensures Inv(Start(params), params)
  {
    if params != [] {
      var s := Start(params);
      assert Pending(s.stack[1..]) == [];
    }
  }

  lemma PendingStep<T>(s: State<T>, a: Action)
    requires Enabled(s, a) && (a.Send? || a.Descend? || a.Return?)
    ensures Apply(s, a).received + Pending(Apply(s, a).stack) == s.received + Pending(s.stack)
  {
    var f, rest := s.stack[0], s.stack[1..];
    var t := Apply(s, a).stack;
    if a.Send? {
      assert t[1..] == rest;
      var tuple, later := f.prefix + [f.todo[0]], Emit(f.prefix, f.todo[1..], f.need) + Pending(rest);
      assert Emit(f.prefix, f.todo, f.need) == [tuple] + Emit(f.prefix, f.todo[1..], f.need);
      assert Pending(s.stack) == [tuple] + later;
      assert Pending(t) == later;
    } else if a.Descend? {
      assert t[1..] == [f.(todo := f.todo[1..])] + rest;
      assert t[1..][1..] == rest;
      var branch, later := Branch(f.prefix + [f.todo[0]], f.need), Emit(f.prefix, f.todo[1..], f.need);
      assert (branch + later) + Pending(rest) == branch + (later + Pending(rest));
    }
  }

  lemma InvStep<T>(s: State<T>, a: Action, params: seq<seq<T>>)
    requires Inv(s, params) && Enabled(s, a)
    ensures Inv(Apply(s, a), params)
  {
    var s' := Apply(s, a);
    if s.received + Pending(s.stack) == Product(params) {
      assert s.received <= Product(params);
      if a.Send? || a.Descend? || a.Return? {
        PendingStep(s, a);
      }
    }
  }

  lemma {:induction false} InvRun<T>(s: State<T>, actions: seq<Action>, end: State<T>, params: seq<seq<T>>)
    requires Inv(s, params) && IsRun(s, actions, end)
    ensures Inv(end, params)
    decreases |actions|
  {
    if actions != [] {
      InvStep(s, actions[0], params);
      InvRun(Apply(s, actions[0]), actions[1..], end, params);
    }
  }

  // ---------------------------------------------------------------- what every run guarantees

  /** In every interleaving the receiver holds a prefix of the product; once the producer has halted without
      a cancellation, all of it; the channel is closed exactly when the producer halts, once, and nothing of
      the producer, a send least of all, can follow. */
  lemma RunsAreSafe<T>(params: seq<seq<T>>, actions: seq<Action>, end: State<T>)
    requires IsRun(Start(params), actions, end)
    ensures end.received <= Product(params)
    ensures end.halted && !end.cancelled ==> end.received == Product(params)
    ensures end.closes == if end.halted then 1 else 0
    ensures end.halted ==> forall a: Action :: a.OfProducer() ==> !Enabled(end, a)
  {
    InvAtStart(params);
    InvRun(Start(params), actions, end, params);
  }

  /** The producer can move exactly when it has not halted and is not a leaf whose receiver has gone
      without cancelling. */
  lemma ProducerCanMove<T>(s: State<T>)
    requires s.halted ==> s.stack == []
    ensures (exists a: Action :: a.OfProducer() && Enabled(s, a))
        <==> !s.halted && !(AtMember(s, true) && s.gone && !s.cancelled)
  {
    if !s.halted && !(AtMember(s, true) && s.gone && !s.cancelled) {
      var a :=
        if s.stack == [] then Close
        else if s.stack[0].todo == [] then Return
        else if s.stack[0].need == [] then (if s.cancelled then DropLeaf else Send)
        else (if s.cancelled then DropBranch else Descend);
      assert a.OfProducer() && Enabled(s, a);
    }
  }

  // ---------------------------------------------------------------- how much there is to do

  /** The steps an activation with `members` left to go through still takes, those of its recursive calls included. */
  function FrameWork<T>(members: nat, need: seq<seq<T>>): nat
    decreases |need|
  {
    1 + members * (1 + if need == [] then 0 else FrameWork(|need[0]|, need[1..]))
  }

  function StackWork<T>(stack: seq<Frame<T>>): nat {
    if stack == [] then 0 else FrameWork(|stack[0].todo|, stack[0].need) + StackWork(stack[1..])
  }

  function Work<T>(s: State<T>): nat {
    StackWork(s.stack) + if s.halted then 0 else 1
  }

  lemma OneMemberLess<T>(members: nat, need: seq<seq<T>>)
    requires members > 0
    ensures FrameWork(members, need)
         == FrameWork(members - 1, need) + 1 + if need == [] then 0 else FrameWork(|need[0]|, need[1..])
  {
    var each := 1 + if need == [] then 0 else FrameWork(|need[0]|, need[1..]);
    assert members * each == (members - 1) * each + each;
  }

  lemma StackWorkCons<T>(f: Frame<T>, rest: seq<Frame<T>>)
    ensures StackWork([f] + rest) == FrameWork(|f.todo|, f.need) + StackWork(rest)
  {
    assert ([f] + rest)[1..] == rest;
  }

  lemma WorkShrinks<T>(s: State<T>, a: Action)
    requires Enabled(s, a) && a.OfProducer()
    ensures Work(Apply(s, a)) < Work(s)
  {
    if a.Send? || a.Descend? {
      var f, rest := s.stack[0], s.stack[1..];
      OneMemberLess(|f.todo|, f.need);
      var t, less := Apply(s, a).stack, f.(todo := f.todo[1..]);
      assert |less.todo| == |f.todo| - 1;
      if a.Send? {
        assert t[0] == less && t[1..] == rest;
      } else {
        StackWorkCons(less, rest);
        assert t[1..] == [less] + rest;
      }
    }
  }

  function ProducerSteps(actions: seq<Action>): nat {
    if actions == [] then 0 else (if actions[0].OfProducer() then 1 else 0) + ProducerSteps(actions[1..])
  }

  /** The goroutine always comes to an end: in no run does it take more steps than the sizes of the sets allow. */
  lemma {:induction false} ProducerTerminates<T>(s: State<T>, actions: seq<Action>, end: State<T>)
    requires IsRun(s, actions, end)
    ensures ProducerSteps(actions) + Work(end) <= Work(s)
    decreases |actions|
  {
    if actions != [] {
      if actions[0].OfProducer() {
        WorkShrinks(s, actions[0]);
      } else {
        assert Work(Apply(s, actions[0])) == Work(s);
      }
      ProducerTerminates(Apply(s, actions[0]), actions[1..], end);
    }
  }

  /** The one step the producer can take while nobody has cancelled and the receiver is there. */
  function NextStep<T>(s: State<T>): (a: Action)
    requires !s.halted && !s.cancelled && !s.gone
    ensures a.OfProducer() && Enabled(s, a)
    ensures forall b: Action :: b.OfProducer() && Enabled(s, b) ==> b == a
  {
    if s.stack == [] then Close
    else if s.stack[0].todo == [] then Return
    else if s.stack[0].need == [] then Send
    else Descend
  }

  lemma {:induction false} RunExtends<T>(s: State<T>, actions: seq<Action>, end: State<T>, a: Action)
    requires IsRun(s, actions, end) && Enabled(end, a)
    ensures IsRun(s, actions + [a], Apply(end, a))
    decreases |actions|
  {
    if actions == [] {
      assert [a][1..] == [];
      assert actions + [a] == [a];
    } else {
      assert (actions + [a])[1..] == actions[1..] + [a];
      RunExtends(Apply(s, actions[0]), actions[1..], end, a);
    }
  }

  // ---------------------------------------------------------------- cancellation

  function StepsLeft<T>(s: State<T>): nat {
    |s.stack| + if s.halted then 0 else 1
  }

  /** Once the receiver has cancelled and gone, every further step unwinds one activation or closes the
      channel: the producer takes exactly as many steps as it has open activations, plus the close. */
  lemma {:induction false} HaltsAfterCancellation<T>(s: State<T>, actions: seq<Action>, end: State<T>)
    requires s.cancelled && s.gone && IsRun(s, actions, end)
    ensures |actions| == StepsLeft(s) - StepsLeft(end)
    decreases |actions|
  {
    if actions != [] {
      HaltsAfterCancellation(Apply(s, actions[0]), actions[1..], end);
    }
  }

  /** The bound of `HaltsAfterCancellation` in terms of the recursion depth of the whole run, with nothing
      short of halting being a place to get stuck. */
  lemma HaltsWithinDepth<T>(params: seq<seq<T>>, before: seq<Action>, s: State<T>, after: seq<Action>, end: State<T>)
    requires IsRun(Start(params), before, s) && IsRun(s, after, end)
    requires s.cancelled && s.gone
    ensures |after| <= |params| + 1
    ensures end.halted <==> forall a: Action :: a.OfProducer() ==> !Enabled(end, a)
  {
    InvAtStart(params);
    InvRun(Start(params), before, s, params);
    InvRun(s, after, end, params);
    HaltsAfterCancellation(s, after, end);
    StaysCancelled(s, after, end);
    ProducerCanMove(end);
  }

  lemma {:induction false} StaysCancelled<T>(s: State<T>, actions: seq<Action>, end: State<T>)
    requires s.cancelled && IsRun(s, actions, end)
    ensures end.cancelled
    decreases |actions|
  {
    if actions != [] { StaysCancelled(Apply(s, actions[0]), actions[1..], end); }
  }

  /** The consumer of `matchStringWithLabelPermutations` leaves and cancels only when a received tuple
      matches, and otherwise reads until the channel is closed: its verdict is the verdict on the whole product. */
  lemma EarlyExitLosesNothing<T>(params: seq<seq<T>>, actions: seq<Action>, end: State<T>, matches: seq<T> -> bool)
    requires IsRun(Start(params), actions, end)
    requires end.cancelled || !end.halted ==> exists t :: t in end.received && matches(t)
    ensures (exists t :: t in end.received && matches(t)) <==> (exists t :: t in Product(params) && matches(t))
  {
    RunsAreSafe(params, actions, end);
    if t :| t in end.received && matches(t) {
      assert t in Product(params);
    }
  }
}
