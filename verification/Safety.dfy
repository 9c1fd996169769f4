/** When a run stays inside defined behaviour: a condition on the user code that rules out every
    fault, and the exact condition under which one entry causes a fault. */
module Safety {
  import opened PyObjects
  import opened UserCode
  import opened Reference
  import opened Refinement
  import opened Runs
  import opened Nesting
  import M = Machine

  // ---- Tame user code ----

  /** A stretch of user code in which nothing is added after a cancel, and whose callees are tame. */
  ghost predicate TameOps(ops: seq<Op>)
    decreases ops, 0
  {
    ops == [] || (TameOp(ops[0]) && (ops[0].Cancel? ==> NoAdds(ops[1..])) && TameOps(ops[1..]))
  }

  ghost predicate TameOp(op: Op)
    decreases op, 0
  {
    match op
    case AddAwait(coro, cb, err) => TameCoro(coro) && TameMaybe(cb, true) && TameMaybe(err, false)
    case DeferAwait(body) => body.Some? && TameMaybe(body, false)
    case _ => true
  }

  ghost predicate TameMaybe(cb: Option<Callback>, isResult: bool)
    decreases cb, 1
  {
    cb.None? || TameCallback(cb.value, isResult)
  }

  ghost predicate TameCallback(cb: Callback, isResult: bool)
    decreases cb, 0
  {
    match cb
    case Always(body) => TameOps(body.ops) && (isResult ==> MayCancel(body))
    case Case(_, body, otherwise) =>
      TameOps(body.ops) && (isResult ==> MayCancel(body)) && TameCallback(otherwise, isResult)
  }

  /** A result callback that cancels must succeed, or return less than -1 with an exception set. */
  predicate MayCancel(s: Script) {
    Cancel in s.ops ==> s.code >= 0 || (s.code < -1 && s.exc.Some?)
  }

  ghost predicate TameSteps(steps: seq<Step>)
    decreases steps, 0
  {
    steps == [] || (TameOps(steps[0].ops) && TameSteps(steps[1..]))
  }

  /** A coroutine that cancels in its last stretch must not end with an error. */
  ghost predicate TameCoro(coro: Coro)
    decreases coro, 0
  {
    match coro
    case Plain(steps, last, ending) =>
      TameSteps(steps) && TameOps(last) && (Cancel in last ==> !IsError(ending))
    case NotAwaited(_) => true
    case Nested(build) => TameOps(build)
  }

  ghost predicate TameEntry(e: Entry) {
    && (match e.coro
        case None => e.callback.Some? && TameMaybe(e.callback, false)
        case Some(coro) => TameCoro(coro) && TameMaybe(e.callback, true))
    && TameMaybe(e.errCallback, false)
  }

  /** Everything queued is tame, and after a cancel nothing is queued. */
  ghost predicate TameEnv(env: Env) {
    && (env.cancelled ==> env.queue == [])
    && forall i :: 0 <= i < |env.queue| ==> TameEntry(env.queue[i])
  }

  lemma {:induction false} TameScript(cb: Callback, isResult: bool, arg: Value)
    requires TameCallback(cb, isResult)
    ensures TameOps(ScriptFor(cb, arg).ops) && (isResult ==> MayCancel(ScriptFor(cb, arg)))
  {
    if cb.Always? {
    } else {
      TameScript(cb.otherwise, isResult, arg);
    }
  }

  /** Tame code keeps the queue tame, whether or not it cancels. */
  lemma {:induction false} TamePerform(ops: seq<Op>, arg: Value, env: Env)
    requires TameOps(ops) && TameEnv(env) && (env.cancelled ==> NoAdds(ops))
    ensures TameEnv(Perform(ops, arg, env))
    ensures Perform(ops, arg, env).cancelled == (env.cancelled || Cancel in ops)
  {
    if ops == [] {
    } else {
      var env' := Apply(ops[0], arg, env);
      assert TameEnv(env');
      assert NoAdds(ops) ==> NoAdds(ops[1..]);
      assert Cancel in ops <==> ops[0].Cancel? || Cancel in ops[1..];
      TamePerform(ops[1..], arg, env');
    }
  }

  // ---- Tame runs end ----

  lemma {:induction false} TameRun(env: Env, log: Log)
    requires TameEnv(env)
    ensures Run(env, log).outcome.Ended?
    decreases QueueWeight(env.queue), 0
  {
    if env.queue == [] {
    } else {
      var e, rest := env.queue[0], env.(queue := env.queue[1..]);
      var log' := log + [Awaiting(env.name + [e.id])];
      assert TameEntry(e) && TameEnv(rest);
      match e.coro
      case None =>
        TameCall(e.callback.value, false, PyNone, Deferred(env.name + [e.id]), rest, log);
      case Some(NotAwaited(x)) =>
        TameOnError(e, x, rest, log + [Awaiting(env.name + [e.id]), AwaitFailed(env.name + [e.id], x)]);
      case Some(Plain(steps, last, ending)) =>
        TameYieldFrom(e, steps, last, ending, rest, log');
      case Some(Nested(build)) =>
        var who := env.name + [e.id];
        TamePerform(build, PyNone, Env(who, 0, [], None, false));
        TameRun(Built(who, build), log');
        var t := Run(Built(who, build), log');
        TameAfterCoro(e, t.outcome.exc, false, rest, t.log + [CoroEnded(who, t.outcome.exc)]);
    }
  }

  /** After a tame callback, the run can go on. */
  lemma {:induction false} TameCall(cb: Callback, isResult: bool, arg: Value, call: Event, env: Env, log: Log)
    requires TameCallback(cb, isResult) && TameEnv(env) && !env.cancelled && IsCallback(call)
    ensures var s := ScriptFor(cb, arg);
            && TameEnv(Perform(s.ops, arg, env))
            && Perform(s.ops, arg, env).cancelled == (Cancel in s.ops)
            && (isResult ==> MayCancel(s))
            && Run(Perform(s.ops, arg, env), Ran(log, env.name, call, s)).outcome.Ended?
    decreases QueueWeight(env.queue) + CallbackWeight(cb), 1
  {
    var s := ScriptFor(cb, arg);
    ScriptWeight(cb, arg);
    TameScript(cb, isResult, arg);
    TamePerform(s.ops, arg, env);
    TameRun(Perform(s.ops, arg, env), Ran(log, env.name, call, s));
  }

  lemma {:induction false} TameYieldFrom(
    e: Entry, steps: seq<Step>, last: seq<Op>, ending: Option<Exc>, env: Env, log: Log)
    requires TameSteps(steps) && TameOps(last) && (Cancel in last ==> !IsError(ending))
    requires TameMaybe(e.callback, true) && TameMaybe(e.errCallback, false) && TameEnv(env) && !env.cancelled
    ensures YieldFrom(e, steps, last, ending, env, log).outcome.Ended?
    decreases QueueWeight(env.queue) + StepsWeight(steps) + OpsWeight(last) + CallsWeight(e), 4
  {
    if steps == [] {
      TamePerform(last, PyNone, env);
      TameAfterCoro(e, ending, Cancel in last, Perform(last, PyNone, env),
                    log + Actions(last, env.name) + [CoroEnded(env.name + [e.id], ending)]);
    } else {
      var after := Perform(steps[0].ops, PyNone, env);
      var log' := log + Actions(steps[0].ops, env.name) + [Yielded(steps[0].value)];
      TamePerform(steps[0].ops, PyNone, env);
      if Cancel in steps[0].ops {
        TameRun(after, log');
      } else {
        TameYieldFrom(e, steps[1..], last, ending, after, log');
      }
    }
  }

  lemma {:induction false} TameAfterCoro(e: Entry, ending: Option<Exc>, cancelledNow: bool, env: Env, log: Log)
    requires TameMaybe(e.callback, true) && TameMaybe(e.errCallback, false) && TameEnv(env)
    requires env.cancelled ==> cancelledNow && !IsError(ending)
    ensures AfterCoro(e, ending, cancelledNow, env, log).outcome.Ended?
    decreases QueueWeight(env.queue) + CallsWeight(e), 3
  {
    if !env.cancelled && IsError(ending) {
      TameOnError(e, ending.value, env, log);
    } else if env.cancelled || e.callback.None? {
      TameRun(env, log);
    } else {
      var value := ReturnValue(ending);
      var s := ScriptFor(e.callback.value, value);
      var call := CalledBack(env.name + [e.id], value);
      ScriptWeight(e.callback.value, value);
      TameCall(e.callback.value, true, value, call, env, log);
      if s.code == -1 && s.exc.Some? {
        TameOnError(e, s.exc.value, Perform(s.ops, value, env), Ran(log, env.name, call, s));
      }
    }
  }

  lemma {:induction false} TameOnError(e: Entry, x: Exc, env: Env, log: Log)
    requires TameMaybe(e.errCallback, false) && TameEnv(env) && !env.cancelled
    ensures OnError(e, x, env, log).outcome.Ended?
    decreases QueueWeight(env.queue) + MaybeWeight(e.errCallback), 2
  {
    if e.errCallback.Some? {
      TameCall(e.errCallback.value, false, ExcObj(x), CalledError(env.name + [e.id], x), env, log);
    }
  }

  /** Tame user code never leaves defined behaviour, whatever it cancels and whenever: the entry
      that a cancel frees is not used again. */
  lemma TameIsSafe(name: Path, build: seq<Op>, log: Log)
    requires TameOps(build)
    ensures Drive(M.Await(M.Built(name, build)), log).outcome.Ended?
  {
    WholeRun(name, build, log);
    TamePerform(build, PyNone, Env(name, 0, [], None, false));
    TameRun(Built(name, build), log);
  }

  // ---- The exact condition for one entry ----

  ghost predicate NoCancels(steps: seq<Step>) {
    forall i :: 0 <= i < |steps| ==> Cancel !in steps[i].ops
  }

  /** The result callback cancels, and then fails in a way that needs the entry again. */
  predicate CallbackUsesEntry(e: Entry, ending: Option<Exc>) {
    && !IsError(ending) && e.callback.Some?
    && var s := ScriptFor(e.callback.value, ReturnValue(ending));
       Cancel in s.ops && s.code < 0 && (s.exc.None? || s.code == -1)
  }

  /** How the run of a nested awaitable ends, wherever it is awaited. */
  function NestedOutcome(build: seq<Op>): Outcome {
    Run(Built([], build), []).outcome
  }

  /** The user code of a coroutine entry uses the entry after it has cancelled the awaitable: the
      coroutine gets to its last stretch, cancels there and ends with an error, or the result
      callback cancels and fails. */
  ghost predicate UsesEntryAfterCancel(e: Entry, coro: Coro) {
    match coro
    case Plain(steps, last, ending) =>
      NoCancels(steps) && if Cancel in last then IsError(ending) else CallbackUsesEntry(e, ending)
    case NotAwaited(_) => false
    case Nested(build) => NestedOutcome(build).Ended? && CallbackUsesEntry(e, NestedOutcome(build).exc)
  }

  /** All parts of the entry are tame on their own, whatever they do after a cancel of their own. */
  ghost predicate TameParts(e: Entry, coro: Coro) {
    && (match coro
        case Plain(steps, last, _) => TameSteps(steps) && TameOps(last)
        case NotAwaited(_) => true
        case Nested(build) => TameOps(build))
    && TameMaybe(e.callback, false) && TameMaybe(e.errCallback, false)
  }

  /** Among otherwise tame code, where nothing is added after a cancel, a coroutine entry of any kind
      makes the run leave defined behaviour exactly when its user code uses the entry after a
      cancel. */
  lemma EntryFaultsIff(env: Env, coro: Coro, log: Log)
    requires env.queue != [] && env.queue[0].coro == Some(coro) && TameParts(env.queue[0], coro)
    requires TameEnv(env.(queue := env.queue[1..])) && !env.cancelled
    ensures Run(env, log).outcome.Faulted? <==> UsesEntryAfterCancel(env.queue[0], coro)
    ensures Run(env, log).outcome.Faulted? ==> Run(env, log).outcome == Faulted(NullEntry)
  {
    var e, rest := env.queue[0], env.(queue := env.queue[1..]);
    var who := env.name + [e.id];
    match coro {
      case Plain(steps, last, ending) =>
        PlainFaultsIff(e, steps, last, ending, rest, log + [Awaiting(who)]);
      case NotAwaited(x) =>
        TameOnError(e, x, rest, log + [Awaiting(who), AwaitFailed(who, x)]);
      case Nested(build) =>
        var t := Run(Built(who, build), log + [Awaiting(who)]);
        BuiltAlike(who, [], build, log + [Awaiting(who)], []);
        TamePerform(build, PyNone, Env(who, 0, [], None, false));
        TameRun(Built(who, build), log + [Awaiting(who)]);
        EndingFaultsIff(e, t.outcome.exc, false, rest, t.log + [CoroEnded(who, t.outcome.exc)]);
    }
  }

  lemma {:induction false} PlainFaultsIff(
    e: Entry, steps: seq<Step>, last: seq<Op>, ending: Option<Exc>, env: Env, log: Log)
    requires TameSteps(steps) && TameOps(last) && TameEnv(env) && !env.cancelled
    requires TameMaybe(e.callback, false) && TameMaybe(e.errCallback, false)
    ensures var outcome := YieldFrom(e, steps, last, ending, env, log).outcome;
            && (outcome.Faulted? <==> UsesEntryAfterCancel(e, Plain(steps, last, ending)))
            && (outcome.Faulted? ==> outcome == Faulted(NullEntry))
    decreases |steps|
  {
    if steps == [] {
      var end := CoroEnded(env.name + [e.id], ending);
      TamePerform(last, PyNone, env);
      EndingFaultsIff(e, ending, Cancel in last, Perform(last, PyNone, env), log + Actions(last, env.name) + [end]);
    } else {
      var after := Perform(steps[0].ops, PyNone, env);
      var log' := log + Actions(steps[0].ops, env.name) + [Yielded(steps[0].value)];
      TamePerform(steps[0].ops, PyNone, env);
      if Cancel in steps[0].ops {
        TameRun(after, log');
      } else {
        PlainFaultsIff(e, steps[1..], last, ending, after, log');
        assert NoCancels(steps) <==> NoCancels(steps[1..]) by {
          assert steps == [steps[0]] + steps[1..];
        }
      }
    }
  }

  lemma EndingFaultsIff(e: Entry, ending: Option<Exc>, cancelledNow: bool, env: Env, log: Log)
    requires TameEnv(env) && env.cancelled == cancelledNow
    requires TameMaybe(e.callback, false) && TameMaybe(e.errCallback, false)
    ensures var bad := if cancelledNow then IsError(ending) else CallbackUsesEntry(e, ending);
            var outcome := AfterCoro(e, ending, cancelledNow, env, log).outcome;
            (outcome.Faulted? <==> bad) && (bad ==> outcome == Faulted(NullEntry))
  {
    if !env.cancelled && IsError(ending) {
      TameOnError(e, ending.value, env, log);
    } else if env.cancelled || e.callback.None? {
      TameRun(env, log);
    } else {
      var value := ReturnValue(ending);
      var s := ScriptFor(e.callback.value, value);
      var call := CalledBack(env.name + [e.id], value);
      TameCall(e.callback.value, false, value, call, env, log);
      if s.code == -1 && s.exc.Some? && Cancel !in s.ops {
        TameOnError(e, s.exc.value, Perform(s.ops, value, env), Ran(log, env.name, call, s));
      }
    }
  }

  // ---- After a cancel ----

  lemma {:induction false} PerformCancelled(ops: seq<Op>, arg: Value, env: Env)
    ensures Perform(ops, arg, env).cancelled == (env.cancelled || Cancel in ops)
  {
    if ops == [] {
    } else {
      PerformCancelled(ops[1..], arg, Apply(ops[0], arg, env));
      assert Cancel in ops <==> ops[0].Cancel? || Cancel in ops[1..];
    }
  }

  ghost predicate QuietSteps(steps: seq<Step>) {
    forall i :: 0 <= i < |steps| ==> Quiet(steps[i].ops)
  }

  /** A coroutine or a nested awaitable that was added after a cancel, and is reached, makes the run
      leave defined behaviour, unless it cancels again before a yield, or cancels again in its last
      stretch and ends without an error: the mark of the cancel is never taken back. */
  lemma AddedAfterCancelFaultsIff(env: Env, coro: Coro, log: Log)
    requires env.cancelled && env.queue != [] && env.queue[0].coro == Some(coro) && !coro.NotAwaited?
    requires coro.Plain? ==> QuietSteps(coro.steps) && Quiet(coro.last)
    ensures Run(env, log).outcome.Faulted?
            <==> (coro.Plain? ==> NoCancels(coro.steps) && (Cancel !in coro.last || IsError(coro.ending)))
  {
    var e, rest := env.queue[0], env.(queue := env.queue[1..]);
    match coro {
      case Plain(steps, last, ending) =>
        PlainAfterCancel(e, steps, last, ending, rest, log + [Awaiting(env.name + [e.id])]);
      case Nested(build) =>
        var who := env.name + [e.id];
        assert Run(Built(who, build), log + [Awaiting(who)]).outcome.Ended? ==> Run(env, log).outcome.Faulted?;
    }
  }

  lemma {:induction false} PlainAfterCancel(
    e: Entry, steps: seq<Step>, last: seq<Op>, ending: Option<Exc>, env: Env, log: Log)
    requires env.cancelled && QuietSteps(steps) && Quiet(last)
    ensures YieldFrom(e, steps, last, ending, env, log).outcome.Faulted?
            <==> NoCancels(steps) && (Cancel !in last || IsError(ending))
    decreases |steps|
  {
    if steps == [] {
      PerformCancelled(last, PyNone, env);
      var log' := log + Actions(last, env.name) + [CoroEnded(env.name + [e.id], ending)];
      if Cancel in last {
        QuietCancelDrains(last, PyNone, env);
        assert Run(Perform(last, PyNone, env), log').outcome.Ended?;
      }
    } else {
      var after := Perform(steps[0].ops, PyNone, env);
      var log' := log + Actions(steps[0].ops, env.name) + [Yielded(steps[0].value)];
      PerformCancelled(steps[0].ops, PyNone, env);
      assert steps == [steps[0]] + steps[1..];
      if Cancel in steps[0].ops {
        QuietCancelDrains(steps[0].ops, PyNone, env);
        assert Run(after, log').outcome.Ended?;
      } else {
        PlainAfterCancel(e, steps[1..], last, ending, after, log');
      }
    }
  }

  // ---- Real inputs ----

  /** A result callback that cancels and returns -1 makes the run leave defined behaviour, for every
      exception it leaves set and every error callback. */
  lemma CancelAndFail(name: Path, x: Exc, err: Option<Callback>)
    ensures var build := [AddAwait(Plain([], [], None), Some(Always(Script([Cancel], -1, Some(x)))), err)];
            Drive(M.Await(M.Built(name, build)), []).outcome == Faulted(NullEntry)
  {
    var build := [AddAwait(Plain([], [], None), Some(Always(Script([Cancel], -1, Some(x)))), err)];
    var e, rest := EntryOf(build[0], 0), Env(name, 1, [], None, false);
    WholeRun(name, build, []);
    PerformOne(build[0], PyNone, Env(name, 0, [], None, false));
    assert Built(name, build) == rest.(queue := [e]) && [e][1..] == [];
    PerformOne(Cancel, PyNone, rest);
    FirstEndsAtOnce(e, rest);
    assert ScriptFor(e.callback.value, PyNone) == Script([Cancel], -1, Some(x));
  }

  /** The run of one coroutine that does nothing. */
  lemma FirstEndsAtOnce(e: Entry, rest: Env)
    requires e.coro == Some(Plain([], [], None)) && rest.queue == []
    ensures var log := [] + [Awaiting(rest.name + [e.id])] + Actions([], rest.name);
            Run(rest.(queue := [e]), [])
            == AfterCoro(e, None, false, rest, log + [CoroEnded(rest.name + [e.id], None)])
  {
    var env := rest.(queue := [e]);
    RunFront(env, e.coro.value, []);
    assert Perform([], PyNone, rest) == rest && env.(queue := env.queue[1..]) == rest;
    assert Cancel !in [];
  }

  /** So does a coroutine that is added after a cancel, although it does nothing at all. */
  lemma AddAfterCancel(name: Path)
    ensures var build := [Cancel, AddAwait(Plain([], [], None), None, None)];
            Drive(M.Await(M.Built(name, build)), []).outcome == Faulted(StaleAwait)
  {
    var build := [Cancel, AddAwait(Plain([], [], None), None, None)];
    var e, rest := EntryOf(build[1], 0), Env(name, 1, [], None, true);
    WholeRun(name, build, []);
    assert build[1..] == [build[1]];
    PerformOne(build[1], PyNone, Env(name, 0, [], None, true));
    assert Built(name, build) == rest.(queue := [e]) && [e][1..] == [];
    FirstEndsAtOnce(e, rest);
  }
}
