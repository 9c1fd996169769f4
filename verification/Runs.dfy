/** What holds of whole runs of the machine: how many calls they take, that their end is final,
    what a cancel does to them, and that driving them by `send` changes nothing. */
module Runs {
  import opened PyObjects
  import opened UserCode
  import opened Reference
  import opened Refinement
  import opened Invariant
  import M = Machine

  // ---- Number of calls ----

  function YieldCount(log: Log): nat {
    if log == [] then 0
    else YieldCount(log[..|log| - 1]) + if log[|log| - 1].Yielded? then 1 else 0
  }

  /** The calls of Next that Drive makes. */
  function CallCount(m: M.State, log: Log): nat
    decreases M.Weight(m)
  {
    var r := M.Next(m, log);
    match r.out
    case Yield(v) => 1 + CallCount(r.m, r.log + [Yielded(v)])
    case Stop(_) => 1
  }

  lemma {:induction false} SilentCount(log: Log, log': Log)
    requires Silent(log, log')
    ensures YieldCount(log') == YieldCount(log)
    decreases |log'|
  {
    if |log'| > |log| {
      SilentCount(log, log'[..|log'| - 1]);
    } else {
      assert log == log';
    }
  }

  /** A run driven to its end makes one call for each value yielded, and one more. */
  lemma {:induction false} OneCallPerYield(m: M.State, log: Log)
    requires Valid(m) && m.alive
    ensures CallCount(m, log) == YieldCount(Drive(m, log).log) - YieldCount(log) + 1
    decreases M.Weight(m)
  {
    NextKeeps(m, log, log);
    var r := M.Next(m, log);
    SilentCount(log, r.log);
    match r.out
    case Stop(_) =>
    case Yield(v) =>
      var next := r.log + [Yielded(v)];
      assert next[..|next| - 1] == r.log;
      OneCallPerYield(r.m, next);
  }

  /** No run ever reads the queue outside its length. */
  lemma {:induction false} NeverOutOfRange(m: M.State, log: Log)
    requires Valid(m) && m.alive
    ensures Drive(m, log).outcome != Faulted(OutOfRange)
    decreases M.Weight(m)
  {
    NextKeeps(m, log, log);
    var r := M.Next(m, log);
    match r.out
    case Stop(_) =>
    case Yield(v) =>
      NeverOutOfRange(r.m, r.log + [Yielded(v)]);
  }

  // ---- The end is final ----

  /** Something that happens to an awaitable from outside: its generator is resumed, or a call is
      made on it. */
  datatype Poke = CallNext | CallOp(op: Op, arg: Value)

  /** The state, the log and the results of the resumptions after a series of pokes. */
  function Poked(m: M.State, pokes: seq<Poke>, log: Log): (M.State, Log, seq<M.Out>)
    decreases |pokes|
  {
    if pokes == [] then (m, log, [])
    else
      match pokes[0]
      case CallNext =>
        var r := M.Next(m, log);
        var (m', log', outs) := Poked(r.m, pokes[1..], r.log);
        (m', log', [r.out] + outs)
      case CallOp(op, arg) => Poked(M.Apply(op, arg, m), pokes[1..], log)
  }

  /** After a run has returned or raised, whatever happens later: every resumption raises
      RuntimeError, nothing is run or recorded, a fresh await is refused, and the entries that the
      run left behind stay where they are unless somebody cancels. */
  lemma {:induction false} EndIsFinal(m: M.State, pokes: seq<Poke>, log: Log)
    requires !m.alive && m.done
    ensures var (m', log', outs) := Poked(m, pokes, log);
            && log' == log
            && (forall i :: 0 <= i < |outs| ==> outs[i] == M.Stop(Ended(Some(RuntimeError))))
            && M.TryAwait(m') == (m', Some(RuntimeError))
            && ((forall i :: 0 <= i < |pokes| && pokes[i].CallOp? ==> pokes[i].op != Cancel) ==>
                  m.slots <= m'.slots && m'.state == m.state && m'.freed == m.freed)
    decreases |pokes|
  {
    if pokes == [] {
    } else {
      match pokes[0]
      case CallNext =>
        EndIsFinal(m, pokes[1..], log);
      case CallOp(op, arg) =>
        var m1 := M.Apply(op, arg, m);
        EndIsFinal(m1, pokes[1..], log);
        if forall i :: 0 <= i < |pokes| && pokes[i].CallOp? ==> pokes[i].op != Cancel {
          assert forall i :: 0 <= i < |pokes[1..]| ==> pokes[1..][i] == pokes[i + 1];
          assert m.slots <= m1.slots;
        }
    }
  }

  /** A call of Next that returns NULL, with or without an exception, is such an end. */
  lemma StopIsEnd(m: M.State, log: Log)
    requires Valid(m) && m.alive
    requires M.Next(m, log).out.Stop? && M.Next(m, log).out.outcome.Ended?
    ensures !M.Next(m, log).m.alive && M.Next(m, log).m.done
  {
    NextKeeps(m, log, log);
  }

  // ---- Cancel ----

  /** The result that is stored after `ops`. */
  function LastResult(ops: seq<Op>, arg: Value, before: Option<Value>): Option<Value> {
    if ops == [] then before
    else LastResult(ops[1..], arg,
                    match ops[0]
                    case SetResult(v) => Some(v)
                    case SetResultToArg => Some(arg)
                    case _ => before)
  }

  predicate NoAdds(ops: seq<Op>) {
    forall i :: 0 <= i < |ops| ==> !IsAdd(ops[i])
  }

  lemma {:induction false} EmptyStaysEmpty(ops: seq<Op>, arg: Value, m: M.State)
    requires NoAdds(ops) && m.cancelled && m.slots == [] && m.state == 0 && m.current.None?
    ensures M.Perform(ops, arg, m) == m.(result := LastResult(ops, arg, m.result))
  {
    if ops == [] {
    } else {
      var m' := M.Apply(ops[0], arg, m);
      assert m' == m.(result := m'.result);
      EmptyStaysEmpty(ops[1..], arg, m');
    }
  }

  /** Cancel before an awaitable is awaited or in any state of its run, followed by anything but adds:
      every entry that was ever allocated is deallocated exactly once, and the run ends at the next
      resumption, having run nothing, with the last result that was set. */
  lemma CancelDrains(m: M.State, ops: seq<Op>, arg: Value, log: Log)
    requires Valid(m) && (m.alive || !m.started) && NoAdds(ops)
    ensures var c := M.Perform(ops, arg, M.Apply(Cancel, PyNone, m));
            var end := Some(FinalStop(LastResult(ops, arg, m.result)));
            && Drive(if m.started then c else M.Await(c), log) == Trace(log + [Finished(m.name, end)], Ended(end))
            && c.slots == [] && |c.freed| == M.NextId(m)
            && forall i :: 0 <= i < |c.freed| ==> c.freed[i] == i
  {
    EmptyStaysEmpty(ops, arg, M.Apply(Cancel, PyNone, m));
  }

  /** Nothing is added after a cancel. */
  predicate Quiet(ops: seq<Op>) {
    ops == [] || ((ops[0].Cancel? ==> NoAdds(ops[1..])) && Quiet(ops[1..]))
  }

  lemma {:induction false} EmptyEnvStaysEmpty(ops: seq<Op>, arg: Value, env: Env)
    requires NoAdds(ops) && env.queue == [] && env.cancelled
    ensures Perform(ops, arg, env).queue == [] && Perform(ops, arg, env).cancelled
    ensures Perform(ops, arg, env).result == LastResult(ops, arg, env.result)
  {
    if ops == [] {
    } else {
      EmptyEnvStaysEmpty(ops[1..], arg, Apply(ops[0], arg, env));
    }
  }

  lemma {:induction false} QuietCancelDrains(ops: seq<Op>, arg: Value, env: Env)
    requires Quiet(ops) && Cancel in ops
    ensures var r := Perform(ops, arg, env);
            r.queue == [] && r.cancelled && r.result == LastResult(ops, arg, env.result)
  {
    var env' := Apply(ops[0], arg, env);
    if ops[0].Cancel? {
      EmptyEnvStaysEmpty(ops[1..], arg, env');
    } else {
      assert Cancel in ops[1..];
      QuietCancelDrains(ops[1..], arg, env');
    }
  }

  /** The result with which the whole run ends once user code has cancelled, with no add after the
      cancel. `ops` is what the code did with `arg`. */
  function Drained(ops: seq<Op>, arg: Value, env: Env): Option<Exc> {
    Some(FinalStop(LastResult(ops, arg, env.result)))
  }

  /** A coroutine cancels before a yield: the value is still yielded, and that is the end. */
  lemma CancelInCoroutine(e: Entry, steps: seq<Step>, last: seq<Op>, ending: Option<Exc>, env: Env, log: Log)
    requires steps != [] && Cancel in steps[0].ops && Quiet(steps[0].ops)
    ensures YieldFrom(e, steps, last, ending, env, log)
            == Finish(env, Drained(steps[0].ops, PyNone, env),
                      log + Actions(steps[0].ops, env.name) + [Yielded(steps[0].value)])
  {
    QuietCancelDrains(steps[0].ops, PyNone, env);
    PerformName(steps[0].ops, PyNone, env);
  }

  /** A deferred callback cancels: nothing queued behind it runs, whatever it returns. */
  lemma CancelInDefer(env: Env, log: Log)
    requires env.queue != [] && env.queue[0].coro.None? && env.queue[0].callback.Some?
    requires var s := ScriptFor(env.queue[0].callback.value, PyNone); Cancel in s.ops && Quiet(s.ops)
    ensures var s := ScriptFor(env.queue[0].callback.value, PyNone);
            Run(env, log) == Finish(env, if s.code < 0 then s.exc else Drained(s.ops, PyNone, env),
                                    Ran(log, env.name, Deferred(env.name + [env.queue[0].id]), s))
  {
    var s := ScriptFor(env.queue[0].callback.value, PyNone);
    QuietCancelDrains(s.ops, PyNone, env.(queue := env.queue[1..]));
    PerformName(s.ops, PyNone, env.(queue := env.queue[1..]));
  }

  /** A result callback cancels. It may succeed, or skip the error callback with an exception; in
      every other case the freed entry is used. */
  lemma CancelInCallback(e: Entry, ending: Option<Exc>, env: Env, log: Log)
    requires !env.cancelled && !IsError(ending) && e.callback.Some?
    requires var s := ScriptFor(e.callback.value, ReturnValue(ending)); Cancel in s.ops && Quiet(s.ops)
    ensures var s := ScriptFor(e.callback.value, ReturnValue(ending));
            var log' := Ran(log, env.name, CalledBack(env.name + [e.id], ReturnValue(ending)), s);
            AfterCoro(e, ending, false, env, log)
            == if s.code >= 0 then Finish(env, Drained(s.ops, ReturnValue(ending), env), log')
               else if s.code < -1 && s.exc.Some? then Finish(env, s.exc, log')
               else Trace(log', Faulted(NullEntry))
  {
    var s := ScriptFor(e.callback.value, ReturnValue(ending));
    QuietCancelDrains(s.ops, ReturnValue(ending), env);
    PerformName(s.ops, ReturnValue(ending), env);
  }

  /** An error callback cancels: it may return anything. */
  lemma CancelInHandler(e: Entry, x: Exc, env: Env, log: Log)
    requires e.errCallback.Some?
    requires var s := ScriptFor(e.errCallback.value, ExcObj(x)); Cancel in s.ops && Quiet(s.ops)
    ensures var s := ScriptFor(e.errCallback.value, ExcObj(x));
            OnError(e, x, env, log)
            == Finish(env, if s.code >= 0 then Drained(s.ops, ExcObj(x), env)
                           else if s.code == -1 then Some(x) else s.exc,
                      Ran(log, env.name, CalledError(env.name + [e.id], x), s))
  {
    var s := ScriptFor(e.errCallback.value, ExcObj(x));
    QuietCancelDrains(s.ops, ExcObj(x), env);
    PerformName(s.ops, ExcObj(x), env);
  }

  /** `close` on an awaitable, started or not: every entry that was ever allocated is deallocated
      exactly once, it cannot be awaited any more, and a generator that is already there ends without
      running anything. */
  lemma CloseEnds(m: M.State, log: Log)
    requires Valid(m)
    ensures var c := M.Close(m);
            && c.slots == [] && |c.freed| == M.NextId(m) && (forall i :: 0 <= i < |c.freed| ==> c.freed[i] == i)
            && c.result == m.result && c.started == m.started
            && M.TryAwait(c) == (c, Some(RuntimeError))
            && (m.alive ==>
                  Drive(c, log)
                  == Trace(log + [Finished(m.name, Some(FinalStop(m.result)))], Ended(Some(FinalStop(m.result)))))
  {
  }

  /** An awaitable that was closed before it was started refuses every send, whatever is sent, with
      RuntimeError, and nothing changes. */
  lemma {:induction false} SendsAfterClose(m: M.State, values: seq<Value>, log: Log)
    requires !m.started && m.done
    ensures var (m', log', outs) := Sends(m, values, log);
            && m' == m && log' == log && |outs| == |values|
            && forall i :: 0 <= i < |outs| ==> outs[i] == M.Stop(Ended(Some(RuntimeError)))
    decreases |values|
  {
    if values == [] {
    } else {
      SendsAfterClose(m, values[1..], log);
    }
  }

  // ---- Send ----

  /** The results of a series of sends. */
  function Sends(m: M.State, values: seq<Value>, log: Log): (M.State, Log, seq<M.Out>)
    decreases |values|
  {
    if values == [] then (m, log, [])
    else
      var r := M.Send(m, values[0], log);
      var (m', log', outs) := Sends(r.m, values[1..], r.log);
      (m', log', [r.out] + outs)
  }

  /** The results of `n` calls of Next. */
  function Nexts(m: M.State, n: nat, log: Log): (M.State, Log, seq<M.Out>)
    decreases n
  {
    if n == 0 then (m, log, [])
    else
      var r := M.Next(m, log);
      var (m', log', outs) := Nexts(r.m, n - 1, r.log);
      (m', log', [r.out] + outs)
  }

  lemma {:induction false} StartedSends(m: M.State, values: seq<Value>, log: Log)
    requires m.started
    ensures Sends(m, values, log) == Nexts(m, |values|, log)
    decreases |values|
  {
    if values == [] {
    } else {
      var r := M.Next(m, log);
      StartedSends(r.m, values[1..], r.log);
    }
  }

  /** On an awaitable that has not been started, the first send answers None, or RuntimeError for
      another value, and whatever is sent afterwards gives what awaiting gives. */
  lemma SendsLikeNexts(m: M.State, values: seq<Value>, log: Log)
    requires !m.started && !m.done && values != []
    ensures var (m', log', outs) := Sends(m, values, log);
            && outs != []
            && outs[0] == (if values[0] == PyNone then M.Yield(PyNone) else M.Stop(Ended(Some(RuntimeError))))
            && (m', log', outs[1..]) == Nexts(M.Await(m), |values| - 1, log)
  {
    StartedSends(M.Await(m), values[1..], log);
  }

  /** Driving by send: None first, then whatever `reply` answers to what was seen so far. */
  function DriveBySend(m: M.State, reply: Log -> Value, log: Log): Trace
    requires m.started
    decreases M.Weight(m)
  {
    var r := M.Send(m, reply(log), log);
    match r.out
    case Yield(v) => DriveBySend(r.m, reply, r.log + [Yielded(v)])
    case Stop(outcome) => Trace(r.log, outcome)
  }

  lemma {:induction false} DriveBySendIsDrive(m: M.State, reply: Log -> Value, log: Log)
    requires m.started
    ensures DriveBySend(m, reply, log) == Drive(m, log)
    decreases M.Weight(m)
  {
    var r := M.Next(m, log);
    match r.out
    case Stop(_) =>
    case Yield(v) =>
      DriveBySendIsDrive(r.m, reply, r.log + [Yielded(v)]);
  }

  /** Send-driven runs are await-driven runs with one more None in front, and so the runs of the
      reference interpreter, whatever is sent after the first None. */
  lemma SendDrivenRun(name: Path, build: seq<Op>, reply: Log -> Value, log: Log)
    ensures var r := M.Send(M.Built(name, build), PyNone, log);
            && r.out == M.Yield(PyNone) && r.log == log && r.m.started
            && DriveBySend(r.m, reply, log + [Yielded(PyNone)])
               == Run(Built(name, build), log + [Yielded(PyNone)])
  {
    M.BuiltWeight(name, build);
    DriveBySendIsDrive(M.Await(M.Built(name, build)), reply, log + [Yielded(PyNone)]);
    WholeRun(name, build, log + [Yielded(PyNone)]);
  }

  /** The event makes the run end, unless an error callback succeeds. */
  predicate IsFailure(x: Event) {
    (x.CoroEnded? && IsError(x.ending)) || x.AwaitFailed? || (x.Returned? && x.code < 0)
  }

  /** The run did not end right after a failure: it came to the end of its queue. */
  predicate QueueDone(log: Log) {
    |log| >= 2 ==> !IsFailure(log[|log| - 2])
  }

  /** A call of Next that ends the run raises the stored result, or comes right after a failure. */
  ghost predicate GivesResult(r: M.Res) {
    r.out.Stop? && r.out.outcome.Ended? && QueueDone(r.log) ==> r.out.outcome == Ended(Some(FinalStop(r.m.result)))
  }

  lemma {:induction false} NextResult(m: M.State, log: Log)
    requires m.alive
    ensures GivesResult(M.Next(m, log))
    decreases M.Weight(m), 0
  {
    if m.current.Some? {
      if M.InRange(m) {
        ResumeResult(m, log);
      }
    } else if |m.slots| > m.state {
      BeginResult(m.(state := m.state + 1), log);
    }
  }

  lemma {:induction false} BeginResult(m: M.State, log: Log)
    requires m.alive && m.current.None? && M.InRange(m)
    ensures GivesResult(M.Begin(m, log))
    decreases M.Pending(m) + EntryWeight(m.slots[m.state - 1]), 5
  {
    var cb := m.slots[m.state - 1];
    var who := m.name + [cb.id];
    match cb.coro
    case None =>
      if cb.callback.Some? {
        M.CallWeight(cb.callback.value, PyNone, m);
        CallResult(cb.callback.value, PyNone, Deferred(who), m, log);
      }
    case Some(NotAwaited(x)) => FireResult(m, x, log + [Awaiting(who), AwaitFailed(who, x)]);
    case Some(Plain(steps, last, ending)) =>
      ResumeResult(m.(current := Some(M.Frame(steps, last, ending))), log + [Awaiting(who)]);
    case Some(Nested(build)) =>
      M.BuiltWeight(who, build);
      ResumeResult(m.(current := Some(M.Inner(M.Await(M.Built(who, build))))), log + [Awaiting(who)]);
  }

  /** After a callback the run goes on, or ends because the callback failed. */
  lemma {:induction false} CallResult(cb: Callback, arg: Value, call: Event, m: M.State, log: Log)
    requires m.alive && M.InRange(m) && (m.cancelled ==> m.current.None?) && IsCallback(call)
    ensures var s := ScriptFor(cb, arg);
            var m', log' := M.Perform(s.ops, arg, m), Ran(log, m.name, call, s);
            && (m'.cancelled || M.InRange(m'))
            && GivesResult(M.Next(M.DoneIfOk(m'), log'))
            && (s.code < 0 ==> IsFailure(log'[|log'| - 1])
                               && forall exc :: GivesResult(M.Ending(M.DoneIfOk(m'), exc, log')))
    decreases M.Pending(m) + CallbackWeight(cb) + 1, 1
  {
    var s := ScriptFor(cb, arg);
    M.CallWeight(cb, arg, m);
    var m' := M.Perform(s.ops, arg, m);
    NextResult(M.DoneIfOk(m'), Ran(log, m.name, call, s));
  }

  lemma {:induction false} ResumeResult(m: M.State, log: Log)
    requires m.alive && m.current.Some? && M.InRange(m)
    ensures GivesResult(M.Resume(m, log))
    decreases M.Pending(m) + M.IterWeight(m.current.value) + M.Calls(m), 6
  {
    var who := m.name + [m.slots[m.state - 1].id];
    match m.current.value
    case Frame(steps, last, ending) =>
      if steps == [] {
        var m0 := m.(current := Some(M.Spent));
        M.PerformAfter(last, PyNone, m0);
        SettleResult(M.Perform(last, PyNone, m0), who, ending,
                     log + Actions(last, m.name) + [CoroEnded(who, ending)]);
      }
    case Inner(im) =>
      var r := M.Next(im, log);
      if r.out.Stop? && r.out.outcome.Ended? {
        var end := r.out.outcome.exc;
        SettleResult(m.(current := Some(M.Spent)), who, end, r.log + [CoroEnded(who, end)]);
      }
    case Spent =>
  }

  lemma {:induction false} SettleResult(m: M.State, who: Path, ending: Option<Exc>, log: Log)
    requires m.alive && (m.cancelled || M.InRange(m))
    requires log != [] && log[|log| - 1] == CoroEnded(who, ending)
    ensures GivesResult(M.Settle(m, ending, log))
    decreases 1 + M.Pending(m) + M.Calls(m), 4
  {
    if m.cancelled {
      if !IsError(ending) && m.current.None? {
        NextResult(m, log);
      }
    } else if IsError(ending) {
      FireResult(m, ending.value, log);
    } else if m.slots[m.state - 1].callback.None? {
      M.DoneWeight(m);
      NextResult(M.Done(m), log);
    } else {
      CallbackResult(m, ending, log);
    }
  }

  lemma {:induction false} CallbackResult(m: M.State, ending: Option<Exc>, log: Log)
    requires m.alive && !m.cancelled && M.InRange(m) && !IsError(ending) && m.slots[m.state - 1].callback.Some?
    ensures GivesResult(M.Settle(m, ending, log))
    decreases 1 + M.Pending(m) + M.Calls(m), 3
  {
    var cb, value := m.slots[m.state - 1], ReturnValue(ending);
    var s := ScriptFor(cb.callback.value, value);
    var call := CalledBack(m.name + [cb.id], value);
    M.CallWeight(cb.callback.value, value, m);
    CallResult(cb.callback.value, value, call, m, log);
    var m' := M.Perform(s.ops, value, m);
    hide GivesResult, M.Next, M.FireErrorAndNext, M.Perform;
    if s.code == -1 && s.exc.Some? && !m'.cancelled {
      FireResult(m', s.exc.value, Ran(log, m.name, call, s));
    }
  }

  lemma {:induction false} FireResult(m: M.State, x: Exc, log: Log)
    requires m.alive && M.InRange(m) && (m.cancelled ==> m.current.None?)
    requires log != [] && IsFailure(log[|log| - 1])
    ensures GivesResult(M.FireErrorAndNext(m, x, log))
    decreases 1 + M.Pending(m) + MaybeWeight(m.slots[m.state - 1].errCallback), 2
  {
    var cb := m.slots[m.state - 1];
    hide M.Next, M.Perform;
    if cb.errCallback.Some? {
      hide GivesResult, IsFailure;
      CallResult(cb.errCallback.value, ExcObj(x), CalledError(m.name + [cb.id], x), m, log);
    }
  }

  /** The state in which a driven run ends. */
  function Final(m: M.State, log: Log): M.State
    decreases M.Weight(m)
  {
    var r := M.Next(m, log);
    match r.out
    case Yield(v) => Final(r.m, r.log + [Yielded(v)])
    case Stop(_) => r.m
  }

  /** `w` is what the caller gets for a stored result: None when nothing was stored or for an empty
      tuple, the first item of a tuple, what a StopIteration object carries, and the result itself in
      every other case. */
  ghost predicate ComesBack(result: Option<Value>, w: Value) {
    && (result == None ==> w == PyNone)
    && (result == Some(Tuple([])) ==> w == PyNone)
    && (forall items :: items != [] && result == Some(Tuple(items)) ==> w == items[0])
    && (forall v :: result == Some(ExcObj(StopIteration(v))) ==> w == v)
    && (forall v: Value :: result == Some(v) && !v.Tuple? && !(v.ExcObj? && v.exc.StopIteration?) ==> w == v)
  }

  /** A run that comes to the end of its queue, from any state and with nested runs inside it, raises
      the result that was stored last; where the run is driven by am_send that value comes back
      exactly when it is neither a tuple nor a StopIteration object. */
  lemma {:induction false} LastResultComesBackIff(m: M.State, log: Log)
    requires Valid(m) && m.alive
    ensures var t, result := Drive(m, log), Final(m, log).result;
            t.outcome.Ended? && QueueDone(t.log) ==>
              && t.outcome.exc.Some? && t.outcome.exc.value.StopIteration?
              && ComesBack(result, t.outcome.exc.value.value)
              && (result.None? ==> M.AmSend(M.Stop(t.outcome)) == M.GenReturn(PyNone))
              && (result.Some? ==>
                    (M.AmSend(M.Stop(t.outcome)) == M.GenReturn(result.value)
                     <==> !result.value.Tuple? && !(result.value.ExcObj? && result.value.exc.StopIteration?)))
    decreases M.Weight(m)
  {
    NextResult(m, log);
    NextKeeps(m, log, log);
    var r := M.Next(m, log);
    if r.out.Yield? {
      LastResultComesBackIff(r.m, r.log + [Yielded(r.out.value)]);
    } else if r.m.result.Some? {
      DeliveredIff(r.m.result.value);
    }
  }

  lemma DeliveredIff(v: Value)
    ensures Delivered(v) == v <==> !v.Tuple? && !(v.ExcObj? && v.exc.StopIteration?)
  {
    if v.ExcObj? && v.exc.StopIteration? {
      assert v.exc < v && v.exc.value < v.exc;
    } else if v.Tuple? && v.items != [] {
      assert v.items[0] < v;
    }
  }

  /** What is given to SetResult, over the whole run of an awaitable that does nothing else. */
  lemma StoredComesBack(name: Path, v: Value)
    ensures var outcome := Drive(M.Await(M.Built(name, [SetResult(v)])), []).outcome;
            && (forall items :: items != [] && v == Tuple(items) ==> outcome == Ended(Some(StopIteration(items[0]))))
            && (v == Tuple([]) ==> outcome == Ended(Some(StopIteration(PyNone))))
            && (forall w :: v == ExcObj(StopIteration(w)) ==> outcome == Ended(Some(StopIteration(w))))
            && (!v.Tuple? && !(v.ExcObj? && v.exc.StopIteration?) ==> outcome == Ended(Some(StopIteration(v))))
  {
    var build := [SetResult(v)];
    WholeRun(name, build, []);
    PerformOne(build[0], PyNone, Env(name, 0, [], None, false));
    assert Built(name, build) == Env(name, 0, [], Some(v), false);
  }

  /** Nothing stored. */
  lemma NothingComesBackAsNone(name: Path)
    ensures Drive(M.Await(M.Built(name, [])), []).outcome == Ended(Some(StopIteration(PyNone)))
  {
    WholeRun(name, [], []);
  }

  /** The calls do not touch the result. */
  predicate KeepsResult(ops: seq<Op>) {
    forall i :: 0 <= i < |ops| ==> !ops[i].SetResult? && !ops[i].SetResultToArg?
  }

  lemma {:induction false} PerformKept(ops: seq<Op>, arg: Value, env: Env)
    requires NoAdds(ops) && env.queue == []
    ensures Perform(ops, arg, env).queue == []
    ensures KeepsResult(ops) ==> Perform(ops, arg, env).result == env.result
  {
    if ops == [] {
    } else {
      PerformKept(ops[1..], arg, Apply(ops[0], arg, env));
    }
  }

  /** Of several results that are stored the last one counts, also where the awaitable is cancelled
      before or after it is stored. */
  lemma LastStoredWins(name: Path, before: seq<Op>, v: Value, later: seq<Op>)
    requires NoAdds(before) && NoAdds(later) && KeepsResult(later)
    ensures Drive(M.Await(M.Built(name, before + [SetResult(v)] + later)), []).outcome
            == Ended(Some(FinalStop(Some(v))))
  {
    var start := Env(name, 0, [], None, false);
    var first := Perform(before, PyNone, start);
    WholeRun(name, before + [SetResult(v)] + later, []);
    PerformAppend(before + [SetResult(v)], later, PyNone, start);
    PerformAppend(before, [SetResult(v)], PyNone, start);
    PerformOne(SetResult(v), PyNone, first);
    PerformKept(before, PyNone, start);
    PerformKept(later, PyNone, Apply(SetResult(v), PyNone, first));
  }

  /** So a pair that is stored as the result comes back as its first item. */
  lemma PairComesBackAsFirst(name: Path, a: Value, b: Value)
    ensures Drive(M.Await(M.Built(name, [SetResult(Tuple([a, b]))])), []).outcome
            == Ended(Some(StopIteration(a)))
  {
    StoredComesBack(name, Tuple([a, b]));
    assert [a, b] != [];
  }
}
