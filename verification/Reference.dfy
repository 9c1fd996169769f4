/** The reference interpreter: what a queue of entries means, as a recursive
    `try: v = yield from c; cb(v) except e: err(e)` over the front entry, with newly added
    entries put at the back. There is no state index, no done flag and no suspended iterator here.

    The log is threaded through, so every function returns the log it was given, extended. */
module Reference {
  import opened PyObjects
  import opened UserCode

  /** The awaitable as the interpreter sees it: what is still to run, and what it will return. */
  datatype Env = Env(name: Path, next: nat, queue: seq<Entry>, result: Option<Value>, cancelled: bool)

  /** The ways in which a run can leave the defined behaviour of the C code.
      - NullEntry: the entry is read through a pointer that was set to NULL after a cancel.
      - StaleAwait: a finished coroutine is left as the current await and resumed again.
      - NullCoro: an entry with neither a coroutine nor a callback is awaited.
      - OutOfRange: the queue is read outside its length. */
  datatype Fault = NullEntry | StaleAwait | NullCoro | OutOfRange

  datatype Outcome = Ended(exc: Option<Exc>) | Faulted(kind: Fault)

  datatype Trace = Trace(log: Log, outcome: Outcome)

  /** One call on the awaitable. */
  function Apply(op: Op, arg: Value, env: Env): (r: Env)
    ensures QueueWeight(r.queue) <= QueueWeight(env.queue) + OpWeight(op)
  {
    match op
    case AddAwait(_, _, _) =>
      QueueWeightAppend(env.queue, EntryOf(op, env.next));
      env.(queue := env.queue + [EntryOf(op, env.next)], next := env.next + 1)
    case DeferAwait(_) =>
      QueueWeightAppend(env.queue, EntryOf(op, env.next));
      env.(queue := env.queue + [EntryOf(op, env.next)], next := env.next + 1)
    case SetResult(v) => env.(result := Some(v))
    case SetResultToArg => env.(result := Some(arg))
    case Cancel => env.(queue := [], cancelled := true)
    case Act(_) => env
  }

  /** A run of calls; `arg` is the argument of the callback that makes them. */
  function Perform(ops: seq<Op>, arg: Value, env: Env): (r: Env)
    ensures QueueWeight(r.queue) <= QueueWeight(env.queue) + OpsWeight(ops)
  {
    if ops == [] then env else Perform(ops[1..], arg, Apply(ops[0], arg, env))
  }

  lemma {:induction false} PerformName(ops: seq<Op>, arg: Value, env: Env)
    ensures Perform(ops, arg, env).name == env.name
  {
    if ops == [] {
    } else {
      PerformName(ops[1..], arg, Apply(ops[0], arg, env));
    }
  }

  /** The actions among the calls of `ops`. */
  function Actions(ops: seq<Op>, aw: Path): Log {
    if ops == [] then [] else Seen(ops[0], aw) + Actions(ops[1..], aw)
  }

  lemma {:induction false} ActionsAreActed(ops: seq<Op>, aw: Path)
    ensures forall i :: 0 <= i < |Actions(ops, aw)| ==>
              Actions(ops, aw)[i].Acted? && Actions(ops, aw)[i].aw == aw
  {
    if ops == [] {
    } else {
      ActionsAreActed(ops[1..], aw);
    }
  }

  lemma PerformOne(op: Op, arg: Value, env: Env)
    ensures Perform([op], arg, env) == Apply(op, arg, env)
    ensures Actions([op], env.name) == Seen(op, env.name)
  {
    assert [op][1..] == [];
    assert Perform([], arg, Apply(op, arg, env)) == Apply(op, arg, env);
    assert Actions([], env.name) == [];
  }

  lemma {:induction false} PerformAppend(a: seq<Op>, b: seq<Op>, arg: Value, env: Env)
    ensures Perform(a + b, arg, env) == Perform(b, arg, Perform(a, arg, env))
    ensures Actions(a + b, env.name) == Actions(a, env.name) + Actions(b, env.name)
  {
    ActionsAppend(a, b, env.name);
    hide Actions;
    if a == [] {
      assert a + b == b;
    } else {
      assert (a + b)[1..] == a[1..] + b;
      PerformAppend(a[1..], b, arg, Apply(a[0], arg, env));
    }
  }

  lemma {:induction false} ActionsAppend(a: seq<Op>, b: seq<Op>, name: Path)
    ensures Actions(a + b, name) == Actions(a, name) + Actions(b, name)
  {
    if a == [] {
      assert a + b == b;
    } else {
      assert (a + b)[1..] == a[1..] + b;
      ActionsAppend(a[1..], b, name);
    }
  }

  /** The log after a callback: its call, its actions, its return. */
  function Ran(log: Log, aw: Path, call: Event, s: Script): Log
    requires IsCallback(call)
  {
    log + [call] + Actions(s.ops, aw) + [ReturnOf(call, s)]
  }

  /** The end of a run. */
  function Finish(env: Env, exc: Option<Exc>, log: Log): Trace {
    Trace(log + [Finished(env.name, exc)], Ended(exc))
  }

  /** A fresh awaitable after the calls that build it. */
  function Built(name: Path, build: seq<Op>): Env {
    Perform(build, PyNone, Env(name, 0, [], None, false))
  }

  /** Runs everything that is queued. */
  function Run(env: Env, log: Log): Trace
    decreases QueueWeight(env.queue), 0
  {
    if env.queue == [] then
      Finish(env, Some(FinalStop(env.result)), log)
    else
      var e, rest := env.queue[0], env.(queue := env.queue[1..]);
      var who := env.name + [e.id];
      match e.coro
      case None =>
        (match e.callback
         case None => Trace(log, Faulted(NullCoro))
         case Some(body) =>
           var s := ScriptFor(body, PyNone);
           ScriptWeight(body, PyNone);
           var after := Perform(s.ops, PyNone, rest);
           var log' := Ran(log, env.name, Deferred(who), s);
           if s.code < 0 then Finish(env, s.exc, log') else Run(after, log'))
      case Some(NotAwaited(x)) => OnError(e, x, rest, log + [Awaiting(who), AwaitFailed(who, x)])
      case Some(Plain(steps, last, ending)) => YieldFrom(e, steps, last, ending, rest, log + [Awaiting(who)])
      case Some(Nested(build)) =>
        var t := Run(Built(who, build), log + [Awaiting(who)]);
        match t.outcome
        case Faulted(_) => t
        case Ended(ending) => AfterCoro(e, ending, false, rest, t.log + [CoroEnded(who, ending)])
  }

  /** `v = yield from c`: passes the yields through, and drops the coroutine when it cancels. */
  function YieldFrom(e: Entry, steps: seq<Step>, last: seq<Op>, ending: Option<Exc>, env: Env, log: Log): Trace
    decreases QueueWeight(env.queue) + StepsWeight(steps) + OpsWeight(last) + CallsWeight(e), 3
  {
    if steps == [] then
      AfterCoro(e, ending, Cancel in last, Perform(last, PyNone, env),
                log + Actions(last, env.name) + [CoroEnded(env.name + [e.id], ending)])
    else
      var after := Perform(steps[0].ops, PyNone, env);
      var log' := log + Actions(steps[0].ops, env.name) + [Yielded(steps[0].value)];
      if Cancel in steps[0].ops then Run(after, log')
      else YieldFrom(e, steps[1..], last, ending, after, log')
  }

  /** The coroutine of `e` has ended: `cb(v)` for a value, `err(x)` for an error. `cancelledNow` says
      that the last stretch of the coroutine cancelled the awaitable. */
  function AfterCoro(e: Entry, ending: Option<Exc>, cancelledNow: bool, env: Env, log: Log): Trace
    decreases QueueWeight(env.queue) + CallsWeight(e), 2
  {
    if env.cancelled then
      if IsError(ending) then Trace(log, Faulted(NullEntry))
      else if !cancelledNow then Trace(log, Faulted(StaleAwait))
      else Run(env, log)
    else if IsError(ending) then OnError(e, ending.value, env, log)
    else if e.callback.None? then Run(env, log)
    else
      var value := ReturnValue(ending);
      var s := ScriptFor(e.callback.value, value);
      ScriptWeight(e.callback.value, value);
      var after := Perform(s.ops, value, env);
      var log' := Ran(log, env.name, CalledBack(env.name + [e.id], value), s);
      if s.code >= 0 then Run(after, log')
      else if s.exc.None? then
        if after.cancelled then Trace(log', Faulted(NullEntry)) else Finish(env, Some(SystemError), log')
      else if s.code < -1 then Finish(env, s.exc, log')
      else if after.cancelled then Trace(log', Faulted(NullEntry))
      else OnError(e, s.exc.value, after, log')
  }

  /** `except x: err(x)`: 0 goes on, -1 raises `x` again, less raises what the callback left set. */
  function OnError(e: Entry, x: Exc, env: Env, log: Log): Trace
    decreases QueueWeight(env.queue) + MaybeWeight(e.errCallback), 1
  {
    match e.errCallback
    case None => Finish(env, Some(x), log)
    case Some(err) =>
      var s := ScriptFor(err, ExcObj(x));
      ScriptWeight(err, ExcObj(x));
      var after := Perform(s.ops, ExcObj(x), env);
      var log' := Ran(log, env.name, CalledError(env.name + [e.id], x), s);
      if s.code >= 0 then Run(after, log')
      else Finish(env, if s.code == -1 then Some(x) else s.exc, log')
  }
}
