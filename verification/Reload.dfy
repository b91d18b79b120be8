/** The configuration reload loop of auth_server/main.go, with the file and whoever changes it as its
    environment. */
module Reload {
  import opened GoStrings

  /** The operation the watcher reports. The loop compares it for equality, so it acts on a write alone and on a
      removal alone; `Other` is everything else, combinations with a write or a removal in them included. */
  datatype Event = Write | Remove | Other

  /** The variables of the loop: `examined` lists every content the loop has read, the one of start-up first. */
  datatype Loop<C> = Loop(watching: bool, needRestart: bool, examined: seq<C>, running: C)

  // ---------------------------------------------------------------- the loop

  function Examine<C>(l: Loop<C>, file: Option<C>, accepts: C -> bool): Loop<C> {
    match file
    case None => l
    case Some(c) => l.(examined := l.examined + [c], running := if accepts(c) then c else l.running)
  }

  /** The timer case of the select. A missing file can be neither watched nor read. */
  function OnTick<C>(l: Loop<C>, file: Option<C>, accepts: C -> bool): Loop<C> {
    if !l.watching then (if file.Some? then l.(watching := true, needRestart := true) else l)
    else if l.needRestart then Examine(l, file, accepts).(needRestart := false)
    else l
  }

  /** The event case of the select. */
  function OnEvent<C>(l: Loop<C>, ev: Event): Loop<C> {
    match ev
    case Remove => l.(watching := false, needRestart := false)
    case Write => l.(needRestart := true)
    case Other => l
  }

  class RestartableServer<C> {
    var watching: bool
    var needRestart: bool
    var running: C
    ghost var examined: seq<C>

    ghost function View(): Loop<C>
      reads this
    {
      Loop(watching, needRestart, examined, running)
    }

    /** `main` has loaded the configuration; `WatchConfig` begins by trying to watch the file. */
    constructor (config: C, file: Option<C>)
      ensures View() == Begin(config, file)
    {
      running, examined := config, [config];
      watching, needRestart := file.Some?, false;
    }

    method MaybeRestart(file: Option<C>, accepts: C -> bool)
      modifies this`running, this`examined
      ensures View() == Examine(old(View()), file, accepts)
    {
      if file.None? { return; }
      examined := examined + [file.value];
      if !accepts(file.value) { return; }
      running := file.value;
    }

    method Tick(file: Option<C>, accepts: C -> bool)
      modifies this
      ensures View() == OnTick(old(View()), file, accepts)
      ensures watching == (old(watching) || file.Some?)
      ensures needRestart == (if old(watching) then false else old(needRestart) || file.Some?)
      ensures examined == if old(watching && needRestart) && file.Some? then old(examined) + [file.value] else old(examined)
    {
      if !watching {
        if file.Some? { watching, needRestart := true, true; }
      } else if needRestart {
        MaybeRestart(file, accepts);
        needRestart := false;
      }
    }

    method Handle(ev: Event)
      modifies this`watching, this`needRestart
      ensures View() == OnEvent(old(View()), ev)
      ensures watching == (old(watching) && !ev.Remove?)
      ensures needRestart == (ev.Write? || (old(needRestart) && !ev.Remove?))
    {
      match ev
      case Remove => watching, needRestart := false, false;
      case Write => needRestart := true;
      case Other =>
    }
  }

  // ---------------------------------------------------------------- loop and environment

  /** `armed` says that the watch is on the file the name now refers to. */
  datatype State<C> = State(file: Option<C>, armed: bool, queue: seq<Event>, loop: Loop<C>)

  datatype Action<C> =
    | Edit(content: C, op: Event) // the watched file is written, and this is how the watcher reports it
    | Create(content: C)          // a file appears under the name
    | Unlink(op: Event)           // the file leaves the name, and this is how the watcher reports it
    | Touch                       // something is reported that changes no content
    | Tick
    | Handle
  {
    predicate OfLoop() { Tick? || Handle? }
  }

  function Begin<C>(config: C, file: Option<C>): Loop<C> {
    Loop(file.Some?, false, [config], config)
  }

  function Start<C>(config: C, file: Option<C>): State<C> {
    State(file, file.Some?, [], Begin(config, file))
  }

  predicate Enabled<C>(s: State<C>, a: Action<C>) {
    match a
    case Edit(_, _) => s.file.Some?
    case Create(_) => s.file.None?
    case Unlink(_) => s.file.Some?
    case Touch => true
    case Tick => true
    case Handle => s.queue != []
  }

  /** Only a watch that is on the file reports anything. */
  function Report<C>(s: State<C>, ev: Event): seq<Event> {
    if s.armed then s.queue + [ev] else s.queue
  }

  function Apply<C>(s: State<C>, a: Action<C>, accepts: C -> bool): State<C>
    requires Enabled(s, a)
  {
    match a
    case Edit(c, op) => s.(file := Some(c), queue := Report(s, op))
    case Create(c) => s.(file := Some(c))
    case Unlink(op) => s.(file := None, armed := false, queue := Report(s, op))
    case Touch => s.(queue := Report(s, Other))
    case Tick =>
      s.(armed := s.armed || (!s.loop.watching && s.file.Some?), loop := OnTick(s.loop, s.file, accepts))
    case Handle =>
      s.(queue := s.queue[1..], armed := s.armed && !s.queue[0].Remove?, loop := OnEvent(s.loop, s.queue[0]))
  }

  predicate IsRun<C(==)>(s: State<C>, actions: seq<Action<C>>, end: State<C>, accepts: C -> bool)
    decreases |actions|
  {
    if actions == [] then s == end
    else Enabled(s, actions[0]) && IsRun(Apply(s, actions[0], accepts), actions[1..], end, accepts)
  }

  /** A file that is written is reported as written, and one that leaves its name as removed, and as nothing else. */
  predicate Reported<C>(actions: seq<Action<C>>) {
    forall i :: 0 <= i < |actions| ==> ReportedAs(actions[i])
  }

  predicate ReportedAs<C>(a: Action<C>) {
    (a.Edit? ==> a.op == Write) && (a.Unlink? ==> a.op == Remove)
  }

  // ---------------------------------------------------------------- no update is lost

  function Last<C>(l: Loop<C>): C
    requires l.examined != []
  {
    l.examined[|l.examined| - 1]
  }

  predicate Stale<C(==)>(s: State<C>) {
    s.loop.examined != [] && s.file.Some? && s.file.value != Last(s.loop)
  }

  /** Something will still make the loop look at the file. */
  predicate Pending<C>(s: State<C>) {
    Write in s.queue || Remove in s.queue || s.loop.needRestart || !s.loop.watching
  }

  function LastAccepted<C>(examined: seq<C>, accepts: C -> bool): C
    requires examined != []
  {
    var c := examined[|examined| - 1];
    if |examined| == 1 || accepts(c) then c else LastAccepted(examined[..|examined| - 1], accepts)
  }

  ghost predicate Inv<C>(s: State<C>, accepts: C -> bool) {
    && s.loop.examined != []
    && s.loop.running == LastAccepted(s.loop.examined, accepts)
    && (!s.loop.watching ==> !s.armed && s.queue == [])
    && (s.armed ==> s.file.Some? && Remove !in s.queue)
    && (s.loop.watching && !s.armed ==>
          s.queue != [] && s.queue[|s.queue| - 1] == Remove && Remove !in s.queue[..|s.queue| - 1])
    && (s.armed && Stale(s) ==> s.loop.needRestart || Write in s.queue)
  }

  lemma InvTick<C>(s: State<C>, accepts: C -> bool)
    requires Inv(s, accepts)
    ensures Inv(Apply(s, Tick, accepts), accepts)
  {
    if s.file.Some? {
      var e := s.loop.examined + [s.file.value];
      assert e[..|e| - 1] == s.loop.examined;
    }
  }

  lemma InvHandle<C>(s: State<C>, accepts: C -> bool)
    requires Inv(s, accepts) && s.queue != []
    ensures Inv(Apply(s, Handle, accepts), accepts)
  {
    var rest := s.queue[1..];
    assert s.queue == [s.queue[0]] + rest;
    if rest != [] {
      assert rest[..|rest| - 1] == s.queue[..|s.queue| - 1][1..];
      assert s.queue[0] in s.queue[..|s.queue| - 1];
    }
  }

  lemma InvOutside<C>(s: State<C>, a: Action<C>, accepts: C -> bool)
    requires Inv(s, accepts) && Enabled(s, a) && ReportedAs(a) && !a.OfLoop()
    ensures Inv(Apply(s, a, accepts), accepts)
  {
    var q := Apply(s, a, accepts).queue;
    assert q != s.queue ==> q[..|q| - 1] == s.queue;
  }

  lemma InvStep<C>(s: State<C>, a: Action<C>, accepts: C -> bool)
    requires Inv(s, accepts) && Enabled(s, a) && ReportedAs(a)
    ensures Inv(Apply(s, a, accepts), accepts)
  {
    match a
    case Tick => InvTick(s, accepts);
    case Handle => InvHandle(s, accepts);
    case _ => InvOutside(s, a, accepts);
  }

  lemma {:induction false} InvRun<C>(s: State<C>, actions: seq<Action<C>>, end: State<C>, accepts: C -> bool)
    requires Inv(s, accepts) && IsRun(s, actions, end, accepts) && Reported(actions)
    ensures Inv(end, accepts)
    decreases |actions|
  {
    if actions != [] {
      InvStep(s, actions[0], accepts);
      InvRun(Apply(s, actions[0], accepts), actions[1..], end, accepts);
    }
  }

  /** Exactly when no run loses an update: when the file, if it can be watched from the start, still holds what
      was loaded. Then in every reachable state a content not yet examined has something pending for it. */
  lemma NoUpdateIsLostIff<C(!new)>(config: C, file: Option<C>, accepts: C -> bool)
    ensures (forall actions, end ::
               IsRun(Start(config, file), actions, end, accepts) && Reported(actions) && Stale(end) ==> Pending(end))
       <==> (file.Some? ==> file.value == config)
  {
    var s := Start(config, file);
    if file.Some? ==> file.value == config {
      forall actions, end | IsRun(s, actions, end, accepts) && Reported(actions) && Stale(end) ensures Pending(end) {
        assert Inv(s, accepts);
        InvRun(s, actions, end, accepts);
      }
    } else {
      var none: seq<Action<C>> := [];
      assert IsRun(s, none, s, accepts) && Reported(none);
      assert Stale(s) && !Pending(s);
    }
  }

  /** The running configuration is always the last examined content that was accepted, the one of start-up
      being the first examined, whatever happens to the file. */
  lemma RunningIsLastAccepted<C>(config: C, file: Option<C>, actions: seq<Action<C>>, end: State<C>, accepts: C -> bool)
    requires IsRun(Start(config, file), actions, end, accepts)
    ensures end.loop.examined != [] && end.loop.examined[0] == config
    ensures end.loop.running == LastAccepted(end.loop.examined, accepts)
  {
    StaysAccepted(Start(config, file), actions, end, accepts);
  }

  lemma {:induction false} StaysAccepted<C>(s: State<C>, actions: seq<Action<C>>, end: State<C>, accepts: C -> bool)
    requires s.loop.examined != [] && s.loop.running == LastAccepted(s.loop.examined, accepts)
    requires IsRun(s, actions, end, accepts)
    ensures s.loop.examined <= end.loop.examined
    ensures end.loop.running == LastAccepted(end.loop.examined, accepts)
    decreases |actions|
  {
    if actions != [] {
      AcceptedStep(s, actions[0], accepts);
      StaysAccepted(Apply(s, actions[0], accepts), actions[1..], end, accepts);
    }
  }

  lemma AcceptedStep<C>(s: State<C>, a: Action<C>, accepts: C -> bool)
    requires s.loop.examined != [] && s.loop.running == LastAccepted(s.loop.examined, accepts)
    requires Enabled(s, a)
    ensures var l := Apply(s, a, accepts).loop;
      && s.loop.examined <= l.examined
      && l.running == LastAccepted(l.examined, accepts)
  {
    if s.file.Some? {
      var e := s.loop.examined + [s.file.value];
      assert e[..|e| - 1] == s.loop.examined;
    }
  }

  // ---------------------------------------------------------------- the loop catches up

  function Handled<C>(actions: seq<Action<C>>): nat {
    if actions == [] then 0 else (if actions[0].Handle? then 1 else 0) + Handled(actions[1..])
  }

  lemma {:induction false} LoopRuns<C>(s: State<C>, actions: seq<Action<C>>, end: State<C>, accepts: C -> bool)
    requires IsRun(s, actions, end, accepts) && forall i :: 0 <= i < |actions| ==> actions[i].OfLoop()
    ensures end.file == s.file && |s.queue| == |end.queue| + Handled(actions)
    decreases |actions|
  {
    if actions != [] { LoopRuns(Apply(s, actions[0], accepts), actions[1..], end, accepts); }
  }

  /** When the file is there and is left alone, the loop drains its queue, each event at most once, and two
      timer ticks after the queue is empty, however the ticks before fell, the content has been examined and runs
      if it is acceptable; from then on every further tick changes nothing. */
  lemma CatchesUp<C>(
      config: C, file: Option<C>, before: seq<Action<C>>, s: State<C>, c: C,
      draining: seq<Action<C>>, drained: State<C>, accepts: C -> bool)
    requires file.Some? ==> file.value == config
    requires IsRun(Start(config, file), before, s, accepts) && Reported(before)
    requires s.file == Some(c)
    requires IsRun(s, draining, drained, accepts) && forall i :: 0 <= i < |draining| ==> draining[i].OfLoop()
    ensures |drained.queue| == |s.queue| - Handled(draining)
    ensures drained.queue == [] ==>
      var settled := Apply(Apply(drained, Tick, accepts), Tick, accepts);
      && settled.loop.examined != [] && Last(settled.loop) == c
      && (accepts(c) ==> settled.loop.running == c)
      && forall n: nat :: AfterTicks(settled, n, accepts) == settled
  {
    assert Inv(Start(config, file), accepts);
    InvRun(Start(config, file), before, s, accepts);
    InvRun(s, draining, drained, accepts);
    LoopRuns(s, draining, drained, accepts);
    if drained.queue == [] {
      TwoTicksExamine(drained, c, accepts);
      var settled := Apply(Apply(drained, Tick, accepts), Tick, accepts);
      forall n: nat ensures AfterTicks(settled, n, accepts) == settled { IdleTicks(settled, n, accepts); }
    }
  }

  lemma TwoTicksExamine<C>(s: State<C>, c: C, accepts: C -> bool)
    requires Inv(s, accepts) && s.file == Some(c) && s.queue == []
    ensures var settled := Apply(Apply(s, Tick, accepts), Tick, accepts);
      && settled.loop.examined != [] && Last(settled.loop) == c
      && (accepts(c) ==> settled.loop.running == c)
      && settled.loop.watching && !settled.loop.needRestart
  {
    var once := Apply(s, Tick, accepts);
    InvStep(s, Tick, accepts);
    InvStep(once, Tick, accepts);
    if accepts(c) { RunningWhenLast(Apply(once, Tick, accepts), c, accepts); }
  }

  lemma RunningWhenLast<C>(s: State<C>, c: C, accepts: C -> bool)
    requires Inv(s, accepts) && Last(s.loop) == c && accepts(c)
    ensures s.loop.running == c
  {
  }

  // ---------------------------------------------------------------- no examination without a cause

  /** How many steps of a run give a cause to examine the file: a write handled, a file watched again. */
  function Causes<C>(s: State<C>, actions: seq<Action<C>>, accepts: C -> bool): nat
    decreases |actions|
  {
    if actions == [] || !Enabled(s, actions[0]) then 0
    else
      (if (actions[0].Handle? && s.queue[0] == Write) || (actions[0].Tick? && !s.loop.watching && s.file.Some?) then 1 else 0)
      + Causes(Apply(s, actions[0], accepts), actions[1..], accepts)
  }

  lemma {:induction false} ExaminedForACause<C>(s: State<C>, actions: seq<Action<C>>, end: State<C>, accepts: C -> bool)
    requires IsRun(s, actions, end, accepts)
    ensures |end.loop.examined| + (if end.loop.needRestart then 1 else 0)
         <= |s.loop.examined| + (if s.loop.needRestart then 1 else 0) + Causes(s, actions, accepts)
    decreases |actions|
  {
    if actions != [] { ExaminedForACause(Apply(s, actions[0], accepts), actions[1..], end, accepts); }
  }

  /** The server is restarted no more often than there was a cause to: after the content of start-up, the file is
      examined at most once for each write handled and each time it is watched again. */
  lemma RestartsHaveACause<C>(config: C, file: Option<C>, actions: seq<Action<C>>, end: State<C>, accepts: C -> bool)
    requires IsRun(Start(config, file), actions, end, accepts)
    ensures |end.loop.examined| - 1 <= Causes(Start(config, file), actions, accepts)
  {
    ExaminedForACause(Start(config, file), actions, end, accepts);
  }

  /** While no file is watched no examination is due: the removal that ends a watch takes back what was due. */
  lemma {:induction false} NothingDueUnwatched<C>(s: State<C>, actions: seq<Action<C>>, end: State<C>, accepts: C -> bool)
    requires Inv(s, accepts) && (!s.loop.watching ==> !s.loop.needRestart)
    requires IsRun(s, actions, end, accepts) && Reported(actions)
    ensures !end.loop.watching ==> !end.loop.needRestart
    decreases |actions|
  {
    if actions != [] {
      InvStep(s, actions[0], accepts);
      NothingDueUnwatched(Apply(s, actions[0], accepts), actions[1..], end, accepts);
    }
  }

  // ---------------------------------------------------------------- reports the loop ignores

  /** Watching, nothing queued, nothing to do, and up to date. */
  ghost predicate Quiet<C>(s: State<C>) {
    && s.armed && s.queue == [] && s.loop.watching && !s.loop.needRestart
    && s.file.Some? && s.loop.examined != [] && s.file.value == Last(s.loop)
  }

  /** The file is left alone from here on, and the loop handles the one event there is and then ticks. */
  ghost predicate EverExamined<C(!new)>(s: State<C>, accepts: C -> bool)
    requires s.queue != []
  {
    exists n: nat :: !Stale(AfterTicks(Apply(s, Handle, accepts), n, accepts))
  }

  lemma ExaminedIff<C(!new)>(s: State<C>, op: Event, c: C, accepts: C -> bool)
    requires s.queue == [op] && s.file == Some(c) && s.loop.examined != [] && c != Last(s.loop)
    requires s.loop.watching && !s.loop.needRestart
    ensures EverExamined(s, accepts) <==> op != Other
  {
    var handled := Apply(s, Handle, accepts);
    if op == Other {
      forall n: nat ensures Stale(AfterTicks(handled, n, accepts)) { IdleTicks(handled, n, accepts); }
    } else {
      TwoTicksAreEnough(handled, c, accepts);
      assert !Stale(AfterTicks(handled, 2, accepts));
    }
  }

  /** A write is ever examined if and only if it was reported as an operation the loop acts on: one reported together
      with another operation goes unnoticed, for any number of ticks. */
  lemma EditIsSeenIff<C(!new)>(s: State<C>, op: Event, c: C, accepts: C -> bool)
    requires Quiet(s) && c != Last(s.loop)
    ensures EverExamined(Apply(s, Edit(c, op), accepts), accepts) <==> op != Other
  {
    ExaminedIff(Apply(s, Edit(c, op), accepts), op, c, accepts);
  }

  /** So is a new file under the name, after the old one left it: a file moved away and replaced goes unnoticed. */
  lemma ReplacementIsSeenIff<C(!new)>(s: State<C>, op: Event, c: C, accepts: C -> bool)
    requires Quiet(s) && c != Last(s.loop)
    ensures EverExamined(Apply(Apply(s, Unlink(op), accepts), Create(c), accepts), accepts) <==> op != Other
  {
    ExaminedIff(Apply(Apply(s, Unlink(op), accepts), Create(c), accepts), op, c, accepts);
  }

  lemma TwoTicksAreEnough<C>(s: State<C>, c: C, accepts: C -> bool)
    requires s.file == Some(c) && (s.loop.needRestart || !s.loop.watching)
    ensures !Stale(AfterTicks(s, 2, accepts))
  {
    var once := Apply(s, Tick, accepts);
    var twice := Apply(once, Tick, accepts);
    assert AfterTicks(s, 2, accepts) == AfterTicks(once, 1, accepts);
    assert AfterTicks(once, 1, accepts) == AfterTicks(twice, 0, accepts);
  }

  function AfterTicks<C>(s: State<C>, n: nat, accepts: C -> bool): State<C>
    decreases n
  {
    if n == 0 then s else AfterTicks(Apply(s, Tick, accepts), n - 1, accepts)
  }

  lemma {:induction false} IdleTicks<C>(s: State<C>, n: nat, accepts: C -> bool)
    requires s.loop.watching && !s.loop.needRestart
    ensures AfterTicks(s, n, accepts) == s
    decreases n
  {
    if n > 0 { IdleTicks(s, n - 1, accepts); }
  }
}
