/** Every action that a run shows was written down somewhere in the code that it ran. */
module Provenance {
  import opened PyObjects
  import opened UserCode
  import opened Reference

  // ---- Code all of whose actions satisfy `p` ----

  ghost predicate OpsOnly(ops: seq<Op>, p: Action -> bool)
    decreases ops, 0
  {
    ops == [] || (OpOnly(ops[0], p) && OpsOnly(ops[1..], p))
  }

  ghost predicate OpOnly(op: Op, p: Action -> bool)
    decreases op, 0
  {
    match op
    case AddAwait(coro, cb, err) => CoroOnly(coro, p) && MaybeOnly(cb, p) && MaybeOnly(err, p)
    case DeferAwait(body) => MaybeOnly(body, p)
    case Act(what) => p(what)
    case _ => true
  }

  ghost predicate MaybeOnly(cb: Option<Callback>, p: Action -> bool)
    decreases cb, 1
  {
    cb.None? || CallbackOnly(cb.value, p)
  }

  ghost predicate CallbackOnly(cb: Callback, p: Action -> bool)
    decreases cb, 0
  {
    match cb
    case Always(body) => OpsOnly(body.ops, p)
    case Case(_, body, otherwise) => OpsOnly(body.ops, p) && CallbackOnly(otherwise, p)
  }

  ghost predicate StepsOnly(steps: seq<Step>, p: Action -> bool)
    decreases steps, 0
  {
    steps == [] || (OpsOnly(steps[0].ops, p) && StepsOnly(steps[1..], p))
  }

  ghost predicate CoroOnly(coro: Coro, p: Action -> bool)
    decreases coro, 0
  {
    match coro
    case Plain(steps, last, _) => StepsOnly(steps, p) && OpsOnly(last, p)
    case NotAwaited(_) => true
    case Nested(build) => OpsOnly(build, p)
  }

  ghost predicate EntryOnly(e: Entry, p: Action -> bool) {
    (e.coro.Some? ==> CoroOnly(e.coro.value, p)) && MaybeOnly(e.callback, p) && MaybeOnly(e.errCallback, p)
  }

  ghost predicate EnvOnly(env: Env, p: Action -> bool) {
    forall i :: 0 <= i < |env.queue| ==> EntryOnly(env.queue[i], p)
  }

  lemma {:induction false} ScriptOnly(cb: Callback, arg: Value, p: Action -> bool)
    requires CallbackOnly(cb, p)
    ensures OpsOnly(ScriptFor(cb, arg).ops, p)
  {
    if cb.Always? {
    } else {
      ScriptOnly(cb.otherwise, arg, p);
    }
  }

  lemma {:induction false} PerformOnly(ops: seq<Op>, arg: Value, env: Env, p: Action -> bool)
    requires OpsOnly(ops, p) && EnvOnly(env, p)
    ensures EnvOnly(Perform(ops, arg, env), p)
  {
    if ops == [] {
    } else {
      assert EnvOnly(Apply(ops[0], arg, env), p);
      PerformOnly(ops[1..], arg, Apply(ops[0], arg, env), p);
    }
  }

  // ---- Logs ----

  /** `log'` extends `log`, and the actions in the extension satisfy `p`. */
  ghost predicate Says(log: Log, log': Log, p: Action -> bool) {
    log <= log' && forall i :: |log| <= i < |log'| && log'[i].Acted? ==> p(log'[i].what)
  }

  lemma {:induction false} ActionsOnly(ops: seq<Op>, aw: Path, p: Action -> bool)
    requires OpsOnly(ops, p)
    ensures forall i :: 0 <= i < |Actions(ops, aw)| ==> Actions(ops, aw)[i].Acted? && p(Actions(ops, aw)[i].what)
  {
    if ops == [] {
    } else {
      ActionsOnly(ops[1..], aw, p);
    }
  }

  lemma SaysActions(base: Log, log: Log, ops: seq<Op>, aw: Path, p: Action -> bool)
    requires Says(base, log, p) && OpsOnly(ops, p)
    ensures Says(base, log + Actions(ops, aw), p)
  {
    ActionsOnly(ops, aw, p);
  }

  lemma SaysEvent(base: Log, log: Log, ev: Event, p: Action -> bool)
    requires Says(base, log, p) && !ev.Acted?
    ensures Says(base, log + [ev], p)
  {
  }

  // ---- Runs ----

  lemma {:induction false} RunSays(env: Env, base: Log, log: Log, p: Action -> bool)
    requires EnvOnly(env, p) && Says(base, log, p)
    ensures Says(base, Run(env, log).log, p)
    decreases QueueWeight(env.queue), 0
  {
    hide Says;
    if env.queue == [] {
      SaysEvent(base, log, Finished(env.name, Some(FinalStop(env.result))), p);
    } else {
      var e, rest := env.queue[0], env.(queue := env.queue[1..]);
      var log' := log + [Awaiting(env.name + [e.id])];
      assert EntryOnly(e, p) && EnvOnly(rest, p);
      var who := env.name + [e.id];
      SaysEvent(base, log, Awaiting(who), p);
      match e.coro
      case None =>
        if e.callback.Some? {
          CallSays(e.callback.value, PyNone, Deferred(env.name + [e.id]), rest, base, log, p);
        }
      case Some(NotAwaited(x)) =>
        SaysEvent(base, log', AwaitFailed(who, x), p);
        assert log' + [AwaitFailed(who, x)] == log + [Awaiting(who), AwaitFailed(who, x)];
        OnErrorSays(e, x, rest, base, log + [Awaiting(who), AwaitFailed(who, x)], p);
      case Some(Plain(steps, last, ending)) =>
        YieldFromSays(e, steps, last, ending, rest, base, log', p);
      case Some(Nested(build)) =>
        PerformOnly(build, PyNone, Env(who, 0, [], None, false), p);
        RunSays(Built(who, build), base, log', p);
        var t := Run(Built(who, build), log');
        if t.outcome.Ended? {
          SaysEvent(base, t.log, CoroEnded(who, t.outcome.exc), p);
          AfterCoroSays(e, t.outcome.exc, false, rest, base, t.log + [CoroEnded(who, t.outcome.exc)], p);
        }
    }
  }

  lemma {:induction false} CallSays(
    cb: Callback, arg: Value, call: Event, env: Env, base: Log, log: Log, p: Action -> bool)
    requires CallbackOnly(cb, p) && EnvOnly(env, p) && Says(base, log, p) && IsCallback(call)
    ensures var s := ScriptFor(cb, arg);
            var log' := Ran(log, env.name, call, s);
            && EnvOnly(Perform(s.ops, arg, env), p) && Says(base, log', p)
            && Says(base, Run(Perform(s.ops, arg, env), log').log, p)
            && forall exc :: Says(base, log' + [Finished(env.name, exc)], p)
    decreases QueueWeight(env.queue) + CallbackWeight(cb), 1
  {
    hide Says;
    var s := ScriptFor(cb, arg);
    ScriptWeight(cb, arg);
    ScriptOnly(cb, arg, p);
    PerformOnly(s.ops, arg, env, p);
    SaysEvent(base, log, call, p);
    SaysActions(base, log + [call], s.ops, env.name, p);
    SaysEvent(base, log + [call] + Actions(s.ops, env.name), ReturnOf(call, s), p);
    var log' := Ran(log, env.name, call, s);
    forall exc ensures Says(base, log' + [Finished(env.name, exc)], p) {
      SaysEvent(base, log', Finished(env.name, exc), p);
    }
    RunSays(Perform(s.ops, arg, env), base, Ran(log, env.name, call, s), p);
  }

  lemma {:induction false} YieldFromSays(
    e: Entry, steps: seq<Step>, last: seq<Op>, ending: Option<Exc>, env: Env, base: Log, log: Log, p: Action -> bool)
    requires StepsOnly(steps, p) && OpsOnly(last, p) && MaybeOnly(e.callback, p) && MaybeOnly(e.errCallback, p)
    requires EnvOnly(env, p) && Says(base, log, p)
    ensures Says(base, YieldFrom(e, steps, last, ending, env, log).log, p)
    decreases QueueWeight(env.queue) + StepsWeight(steps) + OpsWeight(last) + CallsWeight(e), 4
  {
    hide Says;
    var ops := if steps == [] then last else steps[0].ops;
    var after := Perform(ops, PyNone, env);
    PerformOnly(ops, PyNone, env, p);
    SaysActions(base, log, ops, env.name, p);
    if steps == [] {
      var end := CoroEnded(env.name + [e.id], ending);
      SaysEvent(base, log + Actions(ops, env.name), end, p);
      AfterCoroSays(e, ending, Cancel in last, after, base, log + Actions(ops, env.name) + [end], p);
    } else {
      var log' := log + Actions(ops, env.name) + [Yielded(steps[0].value)];
      SaysEvent(base, log + Actions(ops, env.name), Yielded(steps[0].value), p);
      if Cancel in ops {
        RunSays(after, base, log', p);
      } else {
        YieldFromSays(e, steps[1..], last, ending, after, base, log', p);
      }
    }
  }

  lemma {:induction false} AfterCoroSays(
    e: Entry, ending: Option<Exc>, cancelledNow: bool, env: Env, base: Log, log: Log, p: Action -> bool)
    requires MaybeOnly(e.callback, p) && MaybeOnly(e.errCallback, p) && EnvOnly(env, p) && Says(base, log, p)
    ensures Says(base, AfterCoro(e, ending, cancelledNow, env, log).log, p)
    decreases QueueWeight(env.queue) + CallsWeight(e), 3
  {
    hide Says;
    if !env.cancelled && IsError(ending) {
      OnErrorSays(e, ending.value, env, base, log, p);
    } else if env.cancelled || e.callback.None? {
      RunSays(env, base, log, p);
    } else {
      var value := ReturnValue(ending);
      var s := ScriptFor(e.callback.value, value);
      var call := CalledBack(env.name + [e.id], value);
      ScriptWeight(e.callback.value, value);
      CallSays(e.callback.value, value, call, env, base, log, p);
      var after := Perform(s.ops, value, env);
      if s.code == -1 && s.exc.Some? && !after.cancelled {
        OnErrorSays(e, s.exc.value, after, base, Ran(log, env.name, call, s), p);
      }
    }
  }

  lemma {:induction false} OnErrorSays(e: Entry, x: Exc, env: Env, base: Log, log: Log, p: Action -> bool)
    requires MaybeOnly(e.errCallback, p) && EnvOnly(env, p) && Says(base, log, p)
    ensures Says(base, OnError(e, x, env, log).log, p)
    decreases QueueWeight(env.queue) + MaybeWeight(e.errCallback), 2
  {
    hide Says;
    if e.errCallback.None? {
      SaysEvent(base, log, Finished(env.name, Some(x)), p);
    } else {
      CallSays(e.errCallback.value, ExcObj(x), CalledError(env.name + [e.id], x), env, base, log, p);
    }
  }
}
