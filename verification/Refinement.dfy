/** Driving the machine to its end gives the trace of the reference interpreter, for every queue
    and every user code, including the runs that leave defined behaviour. */
module Refinement {
  import opened PyObjects
  import opened UserCode
  import opened Reference
  import M = Machine

  /** The awaitable as the interpreter sees it: the entries from the state index on. */
  function Abs(m: M.State): Env
    requires m.state <= |m.slots|
  {
    Env(m.name, M.NextId(m), m.slots[m.state..], m.result, m.cancelled)
  }

  /** The shape of a machine that is between two calls of Next and has not ended. */
  ghost predicate Sound(m: M.State) {
    && m.alive && m.state <= |m.slots|
    && (match m.current
        case None => true
        case Some(Frame(_, _, _)) => M.InRange(m)
        case Some(Inner(im)) => M.InRange(m) && Sound(im)
        case Some(Spent) => false)
  }

  /** `e` waited for a run with trace `t`: how its awaitable goes on. */
  function Joined(e: Entry, env: Env, t: Trace): Trace {
    match t.outcome
    case Faulted(_) => t
    case Ended(ending) => AfterCoro(e, ending, false, env, t.log + [CoroEnded(env.name + [e.id], ending)])
  }

  /** The run from an entry whose coroutine is about to be awaited, with `env` behind it. */
  function Started(e: Entry, coro: Coro, env: Env, log: Log): Trace {
    var who := env.name + [e.id];
    match coro
    case NotAwaited(x) => OnError(e, x, env, log + [Awaiting(who), AwaitFailed(who, x)])
    case Plain(steps, last, ending) => YieldFrom(e, steps, last, ending, env, log + [Awaiting(who)])
    case Nested(build) => Joined(e, env, Run(Built(who, build), log + [Awaiting(who)]))
  }

  lemma RunFront(env: Env, coro: Coro, log: Log)
    requires env.queue != [] && env.queue[0].coro == Some(coro)
    ensures Run(env, log) == Started(env.queue[0], coro, env.(queue := env.queue[1..]), log)
  {
  }

  /** What the interpreter makes of the work that a suspended machine still has before it. */
  ghost function Meaning(m: M.State, log: Log): Trace
    requires Sound(m)
  {
    match m.current
    case None => Run(Abs(m), log)
    case Some(Frame(steps, last, ending)) => YieldFrom(m.slots[m.state - 1], steps, last, ending, Abs(m), log)
    case Some(Inner(im)) => Joined(m.slots[m.state - 1], Abs(m), Meaning(im, log))
  }

  /** A call of Next did its part of the trace `t`: it produced all of it, or it yielded and what
      is left to do is the rest. */
  ghost predicate Agrees(t: Trace, r: M.Res) {
    match r.out
    case Yield(v) => Sound(r.m) && t == Meaning(r.m, r.log + [Yielded(v)])
    case Stop(outcome) => t == Trace(r.log, outcome)
  }

  lemma AbsFields(m: M.State)
    requires m.state <= |m.slots|
    ensures Abs(m).name == m.name && Abs(m).cancelled == m.cancelled
  {
  }

  lemma StopAgrees(m: M.State, outcome: Outcome, log: Log)
    ensures Agrees(Trace(log, outcome), M.Res(m, M.Stop(outcome), log))
  {
  }

  lemma ApplyAbs(op: Op, arg: Value, m: M.State)
    requires m.state <= |m.slots|
    ensures M.Apply(op, arg, m).state <= |M.Apply(op, arg, m).slots|
    ensures Abs(M.Apply(op, arg, m)) == Apply(op, arg, Abs(m))
  {
    if IsAdd(op) {
      var e := EntryOf(op, M.NextId(m));
      assert (m.slots + [e])[m.state..] == m.slots[m.state..] + [e];
    }
  }

  /** The state index, the array and the interpreter's queue stay in step under every run of calls. */
  lemma {:induction false} PerformAbs(ops: seq<Op>, arg: Value, m: M.State)
    requires m.state <= |m.slots|
    ensures M.Perform(ops, arg, m).state <= |M.Perform(ops, arg, m).slots|
    ensures Abs(M.Perform(ops, arg, m)) == Perform(ops, arg, Abs(m))
  {
    if ops == [] {
    } else {
      ApplyAbs(ops[0], arg, m);
      PerformAbs(ops[1..], arg, M.Apply(ops[0], arg, m));
    }
  }

  lemma DoneAbs(m: M.State)
    requires m.state <= |m.slots| && (m.cancelled || M.InRange(m))
    ensures Abs(M.DoneIfOk(m)) == Abs(m)
  {
    assert M.DoneIfOk(m).slots[m.state..] == m.slots[m.state..];
  }

  /** After a callback: the awaitable goes on with its queue. */
  lemma GoesOn(m: M.State, log: Log)
    requires m.alive && m.state <= |m.slots| && (if m.cancelled then m.current.None? else M.InRange(m))
    ensures Agrees(Run(Abs(m), log), M.Next(M.DoneIfOk(m), log))
    decreases M.Pending(m) + 1, 1
  {
    DoneAbs(m);
    M.DoneWeight(m);
    NextAgrees(M.DoneIfOk(m), log);
  }

  lemma {:induction false} NextAgrees(m: M.State, log: Log)
    requires Sound(m)
    ensures Agrees(Meaning(m, log), M.Next(m, log))
    decreases M.Weight(m), 0
  {
    if m.current.Some? {
      ResumeAgrees(m, log);
    } else if |m.slots| != m.state {
      BeginAgrees(m.(state := m.state + 1), log);
      assert Abs(m.(state := m.state + 1)) == Abs(m).(queue := Abs(m).queue[1..]);
    }
  }

  lemma {:induction false} BeginAgrees(m: M.State, log: Log)
    requires m.alive && m.current.None? && M.InRange(m)
    ensures Agrees(Run(Abs(m.(state := m.state - 1)), log), M.Begin(m, log))
    decreases M.Pending(m) + EntryWeight(m.slots[m.state - 1]), 5
  {
    var before := Abs(m.(state := m.state - 1));
    var cb := m.slots[m.state - 1];
    assert before.queue[0] == cb && before.(queue := before.queue[1..]) == Abs(m);
    if cb.coro.None? {
      DeferAgrees(m, log);
    } else {
      RunFront(before, cb.coro.value, log);
      FrontAgrees(m, cb.coro.value, log);
    }
  }

  lemma {:induction false} FrontAgrees(m: M.State, coro: Coro, log: Log)
    requires m.alive && m.current.None? && M.InRange(m) && m.slots[m.state - 1].coro == Some(coro)
    ensures Agrees(Started(m.slots[m.state - 1], coro, Abs(m), log), M.Begin(m, log))
    decreases M.Pending(m) + EntryWeight(m.slots[m.state - 1]), 4
  {
    var cb := m.slots[m.state - 1];
    var who := m.name + [cb.id];
    hide Run, YieldFrom, OnError, AfterCoro, Agrees, M.Resume, M.FireErrorAndNext;
    match coro
    case NotAwaited(x) =>
      FireAgrees(m, x, log + [Awaiting(who), AwaitFailed(who, x)]);
    case Plain(steps, last, ending) =>
      ResumeAgrees(m.(current := Some(M.Frame(steps, last, ending))), log + [Awaiting(who)]);
    case Nested(build) =>
      NestedFrontAgrees(m, build, log);
  }

  lemma {:induction false} NestedFrontAgrees(m: M.State, build: seq<Op>, log: Log)
    requires m.alive && m.current.None? && M.InRange(m) && m.slots[m.state - 1].coro == Some(Nested(build))
    ensures Agrees(Started(m.slots[m.state - 1], Nested(build), Abs(m), log), M.Begin(m, log))
    decreases M.Pending(m) + EntryWeight(m.slots[m.state - 1]), 3
  {
    var who := m.name + [m.slots[m.state - 1].id];
    var im := AwaitedNested(who, build, log + [Awaiting(who)]);
    var m' := m.(current := Some(M.Inner(im)));
    assert Abs(m') == Abs(m);
    hide Run, AfterCoro, Agrees, M.Resume, Abs;
    ResumeAgrees(m', log + [Awaiting(who)]);
  }

  lemma {:induction false} DeferAgrees(m: M.State, log: Log)
    requires m.alive && m.current.None? && M.InRange(m) && m.slots[m.state - 1].coro.None?
    ensures Agrees(Run(Abs(m.(state := m.state - 1)), log), M.Begin(m, log))
    decreases M.Pending(m) + EntryWeight(m.slots[m.state - 1]), 4
  {
    var before := Abs(m.(state := m.state - 1));
    var cb := m.slots[m.state - 1];
    assert before.queue[0] == cb && before.(queue := before.queue[1..]) == Abs(m);
    if cb.callback.Some? {
      var s := ScriptFor(cb.callback.value, PyNone);
      PerformAbs(s.ops, PyNone, m);
      M.CallWeight(cb.callback.value, PyNone, m);
      if s.code >= 0 {
        GoesOn(M.Perform(s.ops, PyNone, m), Ran(log, m.name, Deferred(m.name + [cb.id]), s));
      }
    }
  }

  /** An awaitable that has been built and awaited means what its queue means. */
  lemma AwaitedNested(name: Path, build: seq<Op>, log: Log) returns (im: M.State)
    ensures im == M.Await(M.Built(name, build)) && Sound(im) && im.current.None?
    ensures Meaning(im, log) == Run(Built(name, build), log)
    ensures M.Weight(im) <= 1 + OpsWeight(build)
  {
    im := M.Await(M.Built(name, build));
    M.BuiltWeight(name, build);
    PerformAbs(build, PyNone, M.Fresh(name));
    assert Abs(im) == Built(name, build);
  }

  lemma {:induction false} ResumeAgrees(m: M.State, log: Log)
    requires Sound(m) && m.current.Some?
    ensures Agrees(Meaning(m, log), M.Resume(m, log))
    decreases M.Pending(m) + M.IterWeight(m.current.value) + M.Calls(m), 4
  {
    hide Agrees, Meaning;
    match m.current.value {
      case Frame(steps, last, ending) =>
        if steps != [] {
          StepAgrees(m, log);
        } else {
          LastAgrees(m, last, ending, log);
        }
      case Inner(im) =>
        InnerAgrees(m, im, log);
    }
  }

  /** The last stretch of a coroutine. */
  lemma {:induction false} LastAgrees(m: M.State, last: seq<Op>, ending: Option<Exc>, log: Log)
    requires Sound(m) && m.current == Some(M.Frame([], last, ending))
    ensures Agrees(Meaning(m, log), M.Resume(m, log))
    decreases M.Pending(m) + M.IterWeight(m.current.value) + M.Calls(m), 3
  {
    var m0, e := m.(current := Some(M.Spent)), m.slots[m.state - 1];
    PerformAbs(last, PyNone, m0);
    M.PerformAfter(last, PyNone, m0);
    assert Abs(m0) == Abs(m);
    hide Agrees, AfterCoro, M.Settle;
    SettleAgrees(M.Perform(last, PyNone, m0), e, ending, Cancel in last,
                 log + Actions(last, m.name) + [CoroEnded(m.name + [e.id], ending)]);
  }

  lemma {:induction false} InnerAgrees(m: M.State, im: M.State, log: Log)
    requires Sound(m) && m.current == Some(M.Inner(im))
    ensures Agrees(Meaning(m, log), M.Resume(m, log))
    decreases M.Pending(m) + M.IterWeight(m.current.value) + M.Calls(m), 3
  {
    NextAgrees(im, log);
    var r := M.Next(im, log);
    if r.out.Yield? {
      InnerYields(m, im, log);
    } else {
      InnerStops(m, im, log, r.out.outcome);
      var m0, e := m.(current := Some(M.Spent)), m.slots[m.state - 1];
      assert Abs(m0) == Abs(m);
      hide Agrees, Meaning;
      if r.out.outcome.Ended? {
        SettleAgrees(m0, e, r.out.outcome.exc, false, r.log + [CoroEnded(m.name + [e.id], r.out.outcome.exc)]);
      } else {
        StopAgrees(m, r.out.outcome, r.log);
      }
    }
  }

  lemma InnerStops(m: M.State, im: M.State, log: Log, outcome: Outcome)
    requires Sound(m) && m.current == Some(M.Inner(im))
    requires M.Next(im, log).out == M.Stop(outcome) && Agrees(Meaning(im, log), M.Next(im, log))
    ensures Meaning(m, log) == Joined(m.slots[m.state - 1], Abs(m), Trace(M.Next(im, log).log, outcome))
  {
  }

  lemma InnerYields(m: M.State, im: M.State, log: Log)
    requires Sound(m) && m.current == Some(M.Inner(im))
    requires M.Next(im, log).out.Yield? && Agrees(Meaning(im, log), M.Next(im, log))
    ensures Agrees(Meaning(m, log), M.Resume(m, log))
  {
    assert Abs(m.(current := Some(M.Inner(M.Next(im, log).m)))) == Abs(m);
  }

  lemma StepAgrees(m: M.State, log: Log)
    requires Sound(m) && m.current.Some? && m.current.value.Frame? && m.current.value.steps != []
    ensures Agrees(Meaning(m, log), M.Resume(m, log))
  {
    var Frame(steps, last, ending) := m.current.value;
    var m0 := m.(current := Some(M.Frame(steps[1..], last, ending)));
    var r := M.Perform(steps[0].ops, PyNone, m0);
    PerformAbs(steps[0].ops, PyNone, m0);
    M.PerformAfter(steps[0].ops, PyNone, m0);
    assert Abs(m0) == Abs(m);
    if Cancel !in steps[0].ops {
      assert r.slots[r.state - 1] == m.slots[m.state - 1];
    }
  }

  lemma {:induction false} SettleAgrees(m: M.State, e: Entry, ending: Option<Exc>, cancelledNow: bool, log: Log)
    requires m.alive && m.state <= |m.slots|
    requires if m.cancelled then cancelledNow <==> m.current.None?
             else M.InRange(m) && e == m.slots[m.state - 1]
    ensures Agrees(AfterCoro(e, ending, cancelledNow, Abs(m), log), M.Settle(m, ending, log))
    decreases 1 + M.Pending(m) + M.Calls(m), 4
  {
    hide Agrees;
    if m.cancelled {
      if IsError(ending) || m.current.Some? {
        StopAgrees(m, Faulted(if IsError(ending) then NullEntry else StaleAwait), log);
      } else {
        GoesOn(m, log);
      }
    } else if IsError(ending) {
      FireAgrees(m, ending.value, log);
    } else if e.callback.None? {
      GoesOn(m, log);
    } else {
      CallbackAgrees(m, ending, log);
    }
  }

  lemma {:induction false} CallbackAgrees(m: M.State, ending: Option<Exc>, log: Log)
    requires m.alive && M.InRange(m) && !m.cancelled && !IsError(ending)
    requires m.slots[m.state - 1].callback.Some?
    ensures Agrees(AfterCoro(m.slots[m.state - 1], ending, false, Abs(m), log), M.Settle(m, ending, log))
    decreases 1 + M.Pending(m) + M.Calls(m), 3
  {
    hide Agrees, Abs, OnError, M.FireErrorAndNext, Run, M.Next;
    var e, value := m.slots[m.state - 1], ReturnValue(ending);
    var s := ScriptFor(e.callback.value, value);
    PerformAbs(s.ops, value, m);
    M.CallWeight(e.callback.value, value, m);
    var m' := M.Perform(s.ops, value, m);
    AbsFields(m);
    AbsFields(m');
    var log' := Ran(log, m.name, CalledBack(m.name + [e.id], value), s);
    if s.code >= 0 {
      GoesOn(m', log');
    } else if s.exc.Some? && s.code == -1 && !m'.cancelled {
      FireAgrees(m', s.exc.value, log');
    } else {
      var r := M.Settle(m, ending, log);
      StopAgrees(r.m, r.out.outcome, r.log);
    }
  }

  lemma {:induction false} FireAgrees(m: M.State, x: Exc, log: Log)
    requires m.alive && M.InRange(m) && (m.cancelled ==> m.current.None?)
    ensures Agrees(OnError(m.slots[m.state - 1], x, Abs(m), log), M.FireErrorAndNext(m, x, log))
    decreases 1 + M.Pending(m) + MaybeWeight(m.slots[m.state - 1].errCallback), 2
  {
    hide Agrees, Abs, Run, M.Next;
    var e := m.slots[m.state - 1];
    var r := M.FireErrorAndNext(m, x, log);
    AbsFields(m);
    if e.errCallback.None? {
      StopAgrees(r.m, Ended(Some(x)), r.log);
    } else {
      var s := ScriptFor(e.errCallback.value, ExcObj(x));
      PerformAbs(s.ops, ExcObj(x), m);
      AbsFields(M.Perform(s.ops, ExcObj(x), m));
      M.CallWeight(e.errCallback.value, ExcObj(x), m);
      var log' := Ran(log, m.name, CalledError(m.name + [e.id], x), s);
      if s.code >= 0 {
        GoesOn(M.Perform(s.ops, ExcObj(x), m), log');
      } else {
        StopAgrees(r.m, r.out.outcome, r.log);
      }
    }
  }

  // ---- Whole runs ----

  /** Awaiting: call Next until it stops returning values, and log the values. */
  function Drive(m: M.State, log: Log): Trace
    decreases M.Weight(m)
  {
    var r := M.Next(m, log);
    match r.out
    case Yield(v) => Drive(r.m, r.log + [Yielded(v)])
    case Stop(outcome) => Trace(r.log, outcome)
  }

  /** Driving a machine from any point at which it is suspended gives what is left of its meaning. */
  lemma {:induction false} DriveMeaning(m: M.State, log: Log)
    requires Sound(m)
    ensures Drive(m, log) == Meaning(m, log)
    decreases M.Weight(m)
  {
    NextAgrees(m, log);
    var r := M.Next(m, log);
    match r.out
    case Stop(_) =>
    case Yield(v) =>
      DriveMeaning(r.m, r.log + [Yielded(v)]);
  }

  /** The main theorem: an awaitable built by any calls and then awaited to the end has the trace
      of the reference interpreter. */
  lemma WholeRun(name: Path, build: seq<Op>, log: Log)
    ensures Drive(M.Await(M.Built(name, build)), log) == Run(Built(name, build), log)
  {
    var m := AwaitedNested(name, build, log);
    DriveMeaning(m, log);
  }
}
