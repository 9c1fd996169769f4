/** What callbacks are given: the value that a coroutine returned, the exception that it raised, and
    the choice that a callback makes by looking at it. */
module Arguments {
  import opened PyObjects
  import opened UserCode
  import opened Reference
  import opened Refinement
  import M = Machine

  /** The coroutine returned `v`, or ended without an exception and `v` is None. */
  predicate Gave(ending: Option<Exc>, v: Value) {
    ending == Some(StopIteration(v)) || (ending == None && v == PyNone)
  }

  lemma NothingDone(name: Path, env: Env)
    ensures Actions([], name) == [] && Perform([], PyNone, env) == env && Cancel !in []
  {
  }

  /** The next entry is a coroutine that ends at once, with both callbacks given or not. */
  lemma FirstEnds(env: Env, id: nat, ending: Option<Exc>, cb: Option<Callback>, err: Option<Callback>, log: Log)
    requires env.queue != [] && env.queue[0] == Entry(id, Some(Plain([], [], ending)), cb, err, false)
    ensures var w := env.name + [id];
            Run(env, log) == AfterCoro(env.queue[0], ending, false, env.(queue := env.queue[1..]),
                                       log + [Awaiting(w), CoroEnded(w, ending)])
  {
    var rest, w := env.(queue := env.queue[1..]), env.name + [id];
    RunFront(env, Plain([], [], ending), log);
    NothingDone(env.name, rest);
    assert log + [Awaiting(w)] + [] + [CoroEnded(w, ending)] == log + [Awaiting(w), CoroEnded(w, ending)];
  }

  /** A coroutine returns `v`, and its result callback has script `s` for `v`: it is called with `v`,
      makes the calls of `s` with `v` as its argument, and when it returns 0 or more the run goes on with
      whatever is queued. */
  lemma ResultCallbackRuns(env: Env, id: nat, ending: Option<Exc>, v: Value, s: Script, other: Callback,
                           err: Option<Callback>, log: Log)
    requires env.queue != [] && !env.cancelled && Gave(ending, v) && s.code >= 0
    requires env.queue[0] == Entry(id, Some(Plain([], [], ending)), Some(Case(v, s, other)), err, false)
    ensures var rest, w := env.(queue := env.queue[1..]), env.name + [id];
            Run(env, log)
            == Run(Perform(s.ops, v, rest),
                   log + [Awaiting(w), CoroEnded(w, ending)] + [CalledBack(w, v)] + Actions(s.ops, env.name)
                       + [Returned(w, FromCallback, s.code, s.exc)])
  {
    FirstEnds(env, id, ending, Some(Case(v, s, other)), err, log);
  }

  /** A callback that finds another value than it looks for does what the rest of it says. */
  lemma OtherwiseRuns(env: Env, id: nat, ending: Option<Exc>, v: Value, on: Value, s: Script, other: Callback,
                      err: Option<Callback>, log: Log)
    requires env.queue != [] && Gave(ending, v) && on != v
    requires env.queue[0] == Entry(id, Some(Plain([], [], ending)), Some(Case(on, s, other)), err, false)
    ensures Run(env, log)
            == Run(env.(queue := [env.queue[0].(callback := Some(other))] + env.queue[1..]), log)
  {
    var plain := env.(queue := [env.queue[0].(callback := Some(other))] + env.queue[1..]);
    assert plain.queue[1..] == env.queue[1..];
    FirstEnds(env, id, ending, Some(Case(on, s, other)), err, log);
    FirstEnds(plain, id, ending, Some(other), err, log);
  }

  /** A coroutine raises `x`, and its error callback has script `s` for the exception `x`: whether or not
      there is a result callback, the error callback is called with `x`, makes the calls of `s` with `x`
      as its argument, and its code decides. */
  lemma ErrorCallbackRuns(env: Env, id: nat, x: Exc, cb: Option<Callback>, s: Script, other: Callback, log: Log)
    requires env.queue != [] && !env.cancelled && !x.StopIteration?
    requires env.queue[0] == Entry(id, Some(Plain([], [], Some(x))), cb, Some(Case(ExcObj(x), s, other)), false)
    ensures var rest, w := env.(queue := env.queue[1..]), env.name + [id];
            var after := Perform(s.ops, ExcObj(x), rest);
            var l := log + [Awaiting(w), CoroEnded(w, Some(x))] + [CalledError(w, x)] + Actions(s.ops, env.name)
                     + [Returned(w, FromHandler(x), s.code, s.exc)];
            && (s.code >= 0 ==> Run(env, log) == Run(after, l))
            && (s.code == -1 ==> Run(env, log) == Trace(l + [Finished(env.name, Some(x))], Ended(Some(x))))
            && (s.code < -1 ==> Run(env, log) == Trace(l + [Finished(env.name, s.exc)], Ended(s.exc)))
  {
    FirstEnds(env, id, Some(x), cb, Some(Case(ExcObj(x), s, other)), log);
    PerformName(s.ops, ExcObj(x), env.(queue := env.queue[1..]));
  }

  // ---- Over whole runs ----

  lemma BuiltSingle(name: Path, coro: Coro, cb: Option<Callback>, err: Option<Callback>)
    ensures Built(name, [AddAwait(coro, cb, err)]) == Env(name, 1, [Entry(0, Some(coro), cb, err, false)], None, false)
  {
    PerformOne(AddAwait(coro, cb, err), PyNone, Env(name, 0, [], None, false));
  }

  /** The end of a run whose last calls, made with argument `v`, set the result to that argument. */
  lemma ResultToArg(env: Env, v: Value, log: Log)
    requires env.queue == []
    ensures Run(Perform([SetResultToArg], v, env), log).outcome == Ended(Some(FinalStop(Some(v))))
  {
    PerformOne(SetResultToArg, v, env);
  }

  /** A coroutine that returns `v`, and a result callback that stores its argument: `v` is the result. */
  lemma ReturnValueReachesResult(name: Path, ending: Option<Exc>, v: Value, err: Option<Callback>)
    requires Gave(ending, v)
    ensures var build := [AddAwait(Plain([], [], ending), Some(Always(Script([SetResultToArg], 0, None))), err)];
            Drive(M.Await(M.Built(name, build)), []).outcome == Ended(Some(FinalStop(Some(v))))
  {
    var cb, rest := Always(Script([SetResultToArg], 0, None)), Env(name, 1, [], None, false);
    var build := [AddAwait(Plain([], [], ending), Some(cb), err)];
    WholeRun(name, build, []);
    BuiltSingle(name, Plain([], [], ending), Some(cb), err);
    var env := Built(name, build);
    FirstEnds(env, 0, ending, Some(cb), err, []);
    assert env.(queue := env.queue[1..]) == rest;
    var w := name + [0];
    ResultToArg(rest, v, Ran([] + [Awaiting(w), CoroEnded(w, ending)], name, CalledBack(w, v), cb.body));
  }

  /** A result callback that looks at its argument decides the result by it. */
  lemma CallbackChooses(name: Path, ending: Option<Exc>, v: Value, on: Value, a: Value, b: Value)
    requires Gave(ending, v)
    ensures var cb := Case(on, Script([SetResult(a)], 0, None), Always(Script([SetResult(b)], 0, None)));
            Drive(M.Await(M.Built(name, [AddAwait(Plain([], [], ending), Some(cb), None)])), []).outcome
            == Ended(Some(FinalStop(Some(if v == on then a else b))))
  {
    var cb := Case(on, Script([SetResult(a)], 0, None), Always(Script([SetResult(b)], 0, None)));
    var build, rest := [AddAwait(Plain([], [], ending), Some(cb), None)], Env(name, 1, [], None, false);
    WholeRun(name, build, []);
    BuiltSingle(name, Plain([], [], ending), Some(cb), None);
    var env := Built(name, build);
    FirstEnds(env, 0, ending, Some(cb), None, []);
    assert env.(queue := env.queue[1..]) == rest;
    PerformOne(SetResult(a), v, rest);
    PerformOne(SetResult(b), v, rest);
    assert ScriptFor(cb, v) == if v == on then cb.body else cb.otherwise.body;
  }

  /** An error callback that makes its argument the result, at the end of the queue. */
  lemma HandlerEnds(e: Entry, x: Exc, code: int, left: Option<Exc>, env: Env, log: Log)
    requires env.queue == [] && e.errCallback == Some(Always(Script([SetResultToArg], code, left)))
    ensures var w := env.name + [e.id];
            var end := if code >= 0 then Some(FinalStop(Some(ExcObj(x)))) else if code == -1 then Some(x) else left;
            OnError(e, x, env, log)
            == Trace(log + [CalledError(w, x), Returned(w, FromHandler(x), code, left), Finished(env.name, end)],
                     Ended(end))
  {
    var w := env.name + [e.id];
    PerformOne(SetResultToArg, ExcObj(x), env);
    var end := if code >= 0 then Some(FinalStop(Some(ExcObj(x)))) else if code == -1 then Some(x) else left;
    assert log + [CalledError(w, x)] + [] + [Returned(w, FromHandler(x), code, left)] + [Finished(env.name, end)]
        == log + [CalledError(w, x), Returned(w, FromHandler(x), code, left), Finished(env.name, end)];
  }

  /** A coroutine that raises `x`, whatever its result callback is: the error callback is called with `x`,
      can make it the result, and its code decides how the run ends. */
  lemma ExceptionReachesHandler(name: Path, x: Exc, cb: Option<Callback>, code: int, left: Option<Exc>)
    requires !x.StopIteration?
    ensures var err, w := Some(Always(Script([SetResultToArg], code, left))), name + [0];
            var end := if code >= 0 then Some(StopIteration(ExcObj(x))) else if code == -1 then Some(x) else left;
            Drive(M.Await(M.Built(name, [AddAwait(Plain([], [], Some(x)), cb, err)])), [])
            == Trace([Awaiting(w), CoroEnded(w, Some(x)), CalledError(w, x), Returned(w, FromHandler(x), code, left),
                      Finished(name, end)],
                     Ended(end))
  {
    var err, rest := Always(Script([SetResultToArg], code, left)), Env(name, 1, [], None, false);
    var build := [AddAwait(Plain([], [], Some(x)), cb, Some(err))];
    WholeRun(name, build, []);
    BuiltSingle(name, Plain([], [], Some(x)), cb, Some(err));
    var env := Built(name, build);
    FirstEnds(env, 0, Some(x), cb, Some(err), []);
    assert env.(queue := env.queue[1..]) == rest;
    HandlerEnds(env.queue[0], x, code, left, rest, [] + [Awaiting(name + [0]), CoroEnded(name + [0], Some(x))]);
  }

  /** A coroutine that cannot be awaited, because `__await__` raises `x`: the same. */
  lemma AwaitErrorReachesHandler(name: Path, x: Exc, cb: Option<Callback>, code: int, left: Option<Exc>)
    requires !x.StopIteration?
    ensures var err, w := Some(Always(Script([SetResultToArg], code, left))), name + [0];
            var end := if code >= 0 then Some(StopIteration(ExcObj(x))) else if code == -1 then Some(x) else left;
            Drive(M.Await(M.Built(name, [AddAwait(NotAwaited(x), cb, err)])), [])
            == Trace([Awaiting(w), AwaitFailed(w, x), CalledError(w, x), Returned(w, FromHandler(x), code, left),
                      Finished(name, end)],
                     Ended(end))
  {
    var err, rest := Always(Script([SetResultToArg], code, left)), Env(name, 1, [], None, false);
    var build := [AddAwait(NotAwaited(x), cb, Some(err))];
    WholeRun(name, build, []);
    BuiltSingle(name, NotAwaited(x), cb, Some(err));
    var env := Built(name, build);
    RunFront(env, NotAwaited(x), []);
    hide OnError, Run;
    assert env.(queue := env.queue[1..]) == rest;
    HandlerEnds(env.queue[0], x, code, left, rest, [] + [Awaiting(name + [0]), AwaitFailed(name + [0], x)]);
  }

  /** A result callback that returns -1 with `y` set: the error callback of its entry is called with `y`. */
  lemma CallbackErrorReachesHandler(name: Path, ending: Option<Exc>, v: Value, y: Exc, code: int, left: Option<Exc>)
    requires Gave(ending, v) && !y.StopIteration?
    ensures var cb, err := Some(Always(Script([], -1, Some(y)))), Some(Always(Script([SetResultToArg], code, left)));
            var w := name + [0];
            var end := if code >= 0 then Some(StopIteration(ExcObj(y))) else if code == -1 then Some(y) else left;
            Drive(M.Await(M.Built(name, [AddAwait(Plain([], [], ending), cb, err)])), [])
            == Trace([Awaiting(w), CoroEnded(w, ending), CalledBack(w, v), Returned(w, FromCallback, -1, Some(y)),
                      CalledError(w, y), Returned(w, FromHandler(y), code, left), Finished(name, end)],
                     Ended(end))
  {
    hide Run, YieldFrom, AfterCoro, OnError, Perform, Actions, Drive, Built;
    var cb, err := Always(Script([], -1, Some(y))), Always(Script([SetResultToArg], code, left));
    var build, rest := [AddAwait(Plain([], [], ending), Some(cb), Some(err))], Env(name, 1, [], None, false);
    var w := name + [0];
    WholeRun(name, build, []);
    BuiltSingle(name, Plain([], [], ending), Some(cb), Some(err));
    var env := Built(name, build);
    FirstEnds(env, 0, ending, Some(cb), Some(err), []);
    assert env.(queue := env.queue[1..]) == rest;
    var l := [] + [Awaiting(w), CoroEnded(w, ending)];
    FailingCallback(env.queue[0], ending, v, y, rest, l);
    HandlerEnds(env.queue[0], y, code, left, rest, l + [CalledBack(w, v), Returned(w, FromCallback, -1, Some(y))]);
  }

  lemma FailingCallback(e: Entry, ending: Option<Exc>, v: Value, y: Exc, env: Env, log: Log)
    requires Gave(ending, v) && e.callback == Some(Always(Script([], -1, Some(y)))) && !env.cancelled
    ensures var w := env.name + [e.id];
            AfterCoro(e, ending, false, env, log)
            == OnError(e, y, env, log + [CalledBack(w, v), Returned(w, FromCallback, -1, Some(y))])
  {
    var w := env.name + [e.id];
    NothingDone(env.name, env);
    assert Perform([], v, env) == env;
    assert log + [CalledBack(w, v)] + [] + [Returned(w, FromCallback, -1, Some(y))]
        == log + [CalledBack(w, v), Returned(w, FromCallback, -1, Some(y))];
  }
}
