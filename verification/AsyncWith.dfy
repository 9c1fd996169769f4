/** `async with`: the inner awaitable that PyAwaitable_AsyncWith builds, and what its callback does. */
module AsyncWith {
  import opened PyObjects
  import opened UserCode
  import opened Reference
  import opened Refinement
  import opened Seqs

  /** What a call of `__aenter__` or `__aexit__` gives: something awaitable, something else, or an
      exception. */
  datatype Called = Gives(coro: Coro) | GivesOther | Raises(exc: Exc)

  /** A context manager. `exit` answers a call with three Nones (None) or with an exception triple. */
  datatype Manager = Manager(id: int, hasEnter: bool, hasExit: bool, enter: Called, exit: Option<Exc> -> Called)

  // ---- The code of with.c ----

  /** `PyAwaitable_AddExpr` on the result of a call: what to add, or the exception that is set. */
  function AddExpr(called: Called, cb: Option<Callback>, err: Option<Callback>): (seq<Op>, Option<Exc>) {
    match called
    case Gives(coro) => ([AddAwait(coro, cb, err)], None)
    case GivesOther => ([], Some(TypeError))
    case Raises(x) => ([], Some(x))
  }

  /** `async_with_inner` around a body that runs script `s`. */
  function InnerScript(man: Manager, s: Script): Script {
    if s.code < 0 && s.exc.None? then Script(s.ops, -1, Some(SystemError))
    else
      var failure := if s.code < 0 then s.exc else None;
      var (adds, exc) := AddExpr(man.exit(failure), None, None);
      Script(s.ops + [Act(CallExit(man.id, failure))] + adds, if exc.Some? then -1 else 0, exc)
  }

  function InnerCallback(man: Manager, body: Callback): Callback {
    match body
    case Always(s) => Always(InnerScript(man, s))
    case Case(on, s, otherwise) => Case(on, InnerScript(man, s), InnerCallback(man, otherwise))
  }

  /** `async_with_inner`, installed as the result callback of `__aenter__()`. */
  function Inner(man: Manager, body: Option<Callback>): Callback {
    match body
    case None => Always(InnerScript(man, Script([], 0, None)))
    case Some(cb) => InnerCallback(man, cb)
  }

  /** `PyAwaitable_AsyncWith`: what is added to the outer awaitable, or the exception that is set. */
  function With(man: Manager, body: Option<Callback>, err: Option<Callback>): (seq<Op>, Option<Exc>) {
    if !man.hasEnter || !man.hasExit then ([], Some(TypeError))
    else
      var (inner, exc) := AddExpr(man.enter, Some(Inner(man, body)), None);
      if exc.Some? then ([], exc) else ([AddAwait(Nested(inner), None, err)], None)
  }

  /** The call of `__aenter__`, as `PyAwaitable_AsyncWith` adds it to the inner awaitable. */
  function Enter(man: Manager, body: Option<Callback>): Op
    requires man.enter.Gives?
  {
    AddAwait(man.enter.coro, Some(Inner(man, body)), None)
  }

  // ---- What it does ----

  /** What the body does with the value of `__aenter__`. */
  function BodyScript(body: Option<Callback>, value: Value): Script {
    match body
    case None => Script([], 0, None)
    case Some(cb) => ScriptFor(cb, value)
  }

  /** The exception that `__aexit__` is told about. */
  function Failure(s: Script): Option<Exc> {
    if s.code < 0 then s.exc else None
  }

  lemma {:induction false} InnerScriptFor(man: Manager, body: Callback, value: Value)
    ensures ScriptFor(InnerCallback(man, body), value) == InnerScript(man, ScriptFor(body, value))
  {
    if body.Always? {
    } else {
      InnerScriptFor(man, body.otherwise, value);
    }
  }

  lemma BuiltOne(name: Path, op: Op)
    ensures Built(name, [op]) == Apply(op, PyNone, Env(name, 0, [], None, false))
  {
    PerformOne(op, PyNone, Env(name, 0, [], None, false));
  }

  /** Whether `__aexit__` is called once `__aenter__` has given `value`: the body succeeds, or fails with
      an exception. */
  predicate CallsExit(body: Option<Callback>, value: Value) {
    var s := BodyScript(body, value);
    s.code >= 0 || s.exc.Some?
  }

  /** The log once `async_with_inner` has returned from a body that ran script `s`. */
  function InnerLog(man: Manager, s: Script, e: Entry, value: Value, name: Path, log: Log): Log {
    Ran(log, name, CalledBack(name + [e.id], value), InnerScript(man, s))
  }

  /** `__aenter__` has completed and the body succeeds, or fails with an exception set:
      right after the body, `__aexit__` is called, once, with the exception of the body or with
      Nones; what it gives is queued behind everything the body queued; and the run goes on with
      that queue, the exception of the body forgotten. */
  lemma ExitFollowsBody(man: Manager, body: Option<Callback>, e: Entry, ending: Option<Exc>, env: Env, log: Log)
    requires !IsError(ending)
    requires e.callback == Some(Inner(man, body)) && !env.cancelled
    requires BodyScript(body, ReturnValue(ending)).code >= 0 || BodyScript(body, ReturnValue(ending)).exc.Some?
    requires man.exit(Failure(BodyScript(body, ReturnValue(ending)))).Gives?
    ensures var value, who := ReturnValue(ending), env.name + [e.id];
            var s := BodyScript(body, value);
            var after := Perform(s.ops, value, env);
            var exit := AddAwait(man.exit(Failure(s)).coro, None, None);
            AfterCoro(e, ending, false, env, log)
            == Run(after.(queue := after.queue + [EntryOf(exit, after.next)], next := after.next + 1),
                   log + [CalledBack(who, value)] + Actions(s.ops, env.name)
                       + [Acted(env.name, CallExit(man.id, Failure(s))), Returned(who, FromCallback, 0, None)])
  {
    var value, who := ReturnValue(ending), env.name + [e.id];
    var s := BodyScript(body, value);
    if body.Some? {
      InnerScriptFor(man, body.value, value);
    }
    InnerScriptEffect(man, s, value, env);
    hide Actions, Perform, Run;
    var l := log + [CalledBack(who, value)];
    var call, return_ := Acted(env.name, CallExit(man.id, Failure(s))), Returned(who, FromCallback, 0, None);
    assert l + (Actions(s.ops, env.name) + [call]) + [return_] == l + Actions(s.ops, env.name) + [call, return_];
  }

  /** The calls of the body, then the call of `__aexit__`, then its awaitable. */
  lemma InnerScriptEffect(man: Manager, s: Script, value: Value, env: Env)
    requires s.code >= 0 || s.exc.Some?
    requires man.exit(Failure(s)).Gives?
    ensures var i := InnerScript(man, s);
            var exit := AddAwait(man.exit(Failure(s)).coro, None, None);
            && i.code == 0
            && Perform(i.ops, value, env) == Apply(exit, value, Perform(s.ops, value, env))
            && Actions(i.ops, env.name)
               == Actions(s.ops, env.name) + [Acted(env.name, CallExit(man.id, Failure(s)))]
  {
    var call, exit := Act(CallExit(man.id, Failure(s))), AddAwait(man.exit(Failure(s)).coro, None, None);
    var after := Perform(s.ops, value, env);
    assert InnerScript(man, s) == Script(s.ops + [call] + [exit], 0, None);
    PerformAppend(s.ops + [call], [exit], value, env);
    PerformAppend(s.ops, [call], value, env);
    PerformOne(call, value, after);
    PerformOne(exit, value, after);
    InnerActions(man, s, env.name);
  }

  /** The call of `__aexit__` after a body that ran script `s`: none when that failed without an
      exception. */
  function ExitCall(man: Manager, s: Script, name: Path): Log {
    if s.code < 0 && s.exc.None? then [] else [Acted(name, CallExit(man.id, Failure(s)))]
  }

  /** The exception that ends `async_with_inner`, if any. */
  function InnerFailure(man: Manager, s: Script): Option<Exc> {
    if s.code < 0 && s.exc.None? then Some(SystemError)
    else
      match man.exit(Failure(s))
      case Gives(_) => None
      case GivesOther => Some(TypeError)
      case Raises(x) => Some(x)
  }

  /** The other ways in which the body or `__aexit__()` can end: a body that fails without an
      exception never gets to `__aexit__`; an `__aexit__` that raises, or gives something that
      cannot be awaited, is called and ends the inner run with that exception. */
  lemma ExitFails(man: Manager, body: Option<Callback>, e: Entry, ending: Option<Exc>, env: Env, log: Log)
    requires !IsError(ending)
    requires e.callback == Some(Inner(man, body)) && e.errCallback.None? && !env.cancelled
    requires Cancel !in BodyScript(body, ReturnValue(ending)).ops
    requires InnerFailure(man, BodyScript(body, ReturnValue(ending))).Some?
    ensures var value, who := ReturnValue(ending), env.name + [e.id];
            var s := BodyScript(body, value);
            var x := InnerFailure(man, s);
            AfterCoro(e, ending, false, env, log)
            == Trace(log + [CalledBack(who, value)] + Actions(s.ops, env.name) + ExitCall(man, s, env.name)
                         + [Returned(who, FromCallback, -1, x)] + [Finished(env.name, x)],
                     Ended(x))
  {
    var value := ReturnValue(ending);
    var s := BodyScript(body, value);
    var i := InnerScript(man, s);
    if body.Some? {
      InnerScriptFor(man, body.value, value);
    }
    NotCancelled(i.ops, value, env);
    AfterInner(man, e, ending, s, env, log);
    InnerActions(man, s, env.name);
    hide Actions, Perform, Run, AfterCoro, Inner, BodyScript;
    Assoc(log + [CalledBack(env.name + [e.id], value)], Actions(s.ops, env.name), ExitCall(man, s, env.name));
  }

  lemma {:induction false} NotCancelled(ops: seq<Op>, arg: Value, env: Env)
    requires Cancel !in ops && !env.cancelled
    ensures !Perform(ops, arg, env).cancelled
  {
    if ops == [] {
    } else {
      NotCancelled(ops[1..], arg, Apply(ops[0], arg, env));
    }
  }

  /** Whatever `__aexit__()` gives, the log is that of going on with the queue, or ends here. */
  lemma AfterInner(man: Manager, e: Entry, ending: Option<Exc>, s: Script, env: Env, log: Log)
    requires e.callback.Some? && e.errCallback.None? && !env.cancelled && !IsError(ending)
    requires ScriptFor(e.callback.value, ReturnValue(ending)) == InnerScript(man, s)
    ensures var value, i := ReturnValue(ending), InnerScript(man, s);
            var l := InnerLog(man, s, e, value, env.name, log);
            var after := AfterCoro(e, ending, false, env, log).log;
            if i.code >= 0 then after == Run(Perform(i.ops, value, env), l).log
            else after == l || after == l + [Finished(env.name, i.exc)]
    ensures var value, i := ReturnValue(ending), InnerScript(man, s);
            var l := InnerLog(man, s, e, value, env.name, log);
            i.code < 0 && !Perform(i.ops, value, env).cancelled ==>
              AfterCoro(e, ending, false, env, log) == Trace(l + [Finished(env.name, i.exc)], Ended(i.exc))
  {
    PerformName(InnerScript(man, s).ops, ReturnValue(ending), env);
    hide Actions, Perform;
  }

  /** The actions of the body, then the call of `__aexit__`. */
  lemma InnerActions(man: Manager, s: Script, name: Path)
    ensures Actions(InnerScript(man, s).ops, name) == Actions(s.ops, name) + ExitCall(man, s, name)
  {
    if s.code < 0 && s.exc.None? {
    } else {
      var call := Act(CallExit(man.id, Failure(s)));
      var (adds, exc) := AddExpr(man.exit(Failure(s)), None, None);
      ActionsAppend(s.ops + [call], adds, name);
      ActionsAppend(s.ops, [call], name);
      PerformOne(call, PyNone, Env(name, 0, [], None, false));
      if adds != [] {
        PerformOne(adds[0], PyNone, Env(name, 0, [], None, false));
        assert adds == [adds[0]];
      }
      assert Actions(adds, name) == [];
    }
  }

  /** The outer awaitable: it waits for the whole inner run, whose first entry is `__aenter__()`
      with `async_with_inner` as its callback, before it touches its own next entry. An exception
      that ends the inner run goes to the error callback of the `async with`. */
  lemma OuterWaits(man: Manager, body: Option<Callback>, err: Option<Callback>, env: Env, log: Log)
    requires man.hasEnter && man.hasExit && man.enter.Gives?
    requires env.queue != [] && env.queue[0] == EntryOf(With(man, body, err).0[0], env.queue[0].id)
    ensures var e, rest := env.queue[0], env.(queue := env.queue[1..]);
            var who := env.name + [e.id];
            var inner := Env(who, 1, [EntryOf(Enter(man, body), 0)], None, false);
            var t := Run(inner, log + [Awaiting(who)]);
            && e.callback.None? && e.errCallback == err
            && Run(env, log) == Joined(e, rest, t)
            && (t.outcome.Ended? && !env.cancelled ==>
                  var l := t.log + [CoroEnded(who, t.outcome.exc)];
                  Run(env, log) == (if IsError(t.outcome.exc) then OnError(e, t.outcome.exc.value, rest, l)
                                    else Run(rest, l)))
  {
    var who := env.name + [env.queue[0].id];
    RunFront(env, Nested([Enter(man, body)]), log);
    BuiltOne(who, Enter(man, body));
    assert [] + [EntryOf(Enter(man, body), 0)] == [EntryOf(Enter(man, body), 0)];
  }
}
