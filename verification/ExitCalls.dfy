/** How often `__aexit__` is called over a whole `async with`, and what it is told. */
module ExitCalls {
  import opened PyObjects
  import opened UserCode
  import opened Reference
  import opened Refinement
  import opened Provenance
  import opened Routing
  import opened Effects
  import opened Safety
  import opened Nesting
  import opened AsyncWith
  import M = Machine

  predicate IsExit(ev: Event, id: int) {
    ev.Acted? && ev.what.CallExit? && ev.what.manager == id
  }

  /** What each call of `__aexit__` of manager `id` is told in a log, in order: an exception, or None for
      three Nones. */
  function Exits(log: Log, id: int): seq<Option<Exc>> {
    if log == [] then [] else Exits(log[..|log| - 1], id) + ExitOf(log[|log| - 1], id)
  }

  function ExitOf(ev: Event, id: int): seq<Option<Exc>> {
    if IsExit(ev, id) then [ev.what.failure] else []
  }

  /** What `__aexit__` is told once `__aenter__` has given `value`: nothing, if it is not called. */
  function Told(body: Option<Callback>, value: Value): seq<Option<Exc>> {
    if CallsExit(body, value) then [Failure(BodyScript(body, value))] else []
  }

  /** The action is not a call of `__aexit__` of manager `id`. */
  function Other(id: int): Action -> bool {
    (what: Action) => !(what.CallExit? && what.manager == id)
  }

  lemma {:induction false} NoMoreExits(log: Log, log': Log, id: int)
    requires Says(log, log', Other(id))
    ensures Exits(log', id) == Exits(log, id)
    decreases |log'|
  {
    if |log'| > |log| {
      NoMoreExits(log, log'[..|log'| - 1], id);
      assert !IsExit(log'[|log'| - 1], id);
    } else {
      assert log' == log;
    }
  }

  lemma OneMoreExit(log: Log, ev: Event, id: int)
    ensures Exits(log + [ev], id) == Exits(log, id) + ExitOf(ev, id)
  {
    assert (log + [ev])[..|log|] == log;
  }

  lemma NoExit(log: Log, ev: Event, id: int)
    requires !IsExit(ev, id)
    ensures Exits(log + [ev], id) == Exits(log, id)
  {
    OneMoreExit(log, ev, id);
  }

  /** Where no other code calls `__aexit__` of this manager: from the end of `__aenter__()` to the end
      of the run it is called exactly once when `__aenter__` has completed and the body succeeds or
      fails with an exception, and never otherwise, whatever the body and `__aexit__` queue, cancel
      or raise; it is told the exception of the body, or three Nones. */
  lemma ExitCalledOnce(man: Manager, body: Option<Callback>, e: Entry, ending: Option<Exc>, env: Env, log: Log)
    requires e.callback == Some(Inner(man, body)) && e.errCallback.None? && !env.cancelled
    requires EnvOnly(env, Other(man.id)) && OnlyHere(man, body)
    ensures Exits(AfterCoro(e, ending, false, env, log).log, man.id)
            == Exits(log, man.id) + if !IsError(ending) then Told(body, ReturnValue(ending)) else []
  {
    if IsError(ending) {
      NoExit(log, Finished(env.name, ending), man.id);
    } else {
      var value, id := ReturnValue(ending), man.id;
      var s := BodyScript(body, value);
      if body.Some? {
        InnerScriptFor(man, body.value, value);
        ScriptOnly(body.value, value, Other(id));
      }
      InnerLogExits(man, s, e, value, env.name, log);
      InnerQueue(man, s, value, env);
      var i, l := InnerScript(man, s), InnerLog(man, s, e, value, env.name, log);
      SaysNothing(l, Other(id));
      hide Says, Exits, Actions, Perform, EnvOnly, OpsOnly, Inner, CoroOnly, InnerLog;
      RunSays(Perform(i.ops, value, env), l, l, Other(id));
      NoMoreExits(l, Run(Perform(i.ops, value, env), l).log, id);
      NoExit(l, Finished(env.name, i.exc), id);
      AfterInner(man, e, ending, s, env, log);
    }
  }

  /** The code of the statement, apart from `async_with_inner`, does not call `__aexit__` of its manager. */
  ghost predicate OnlyHere(man: Manager, body: Option<Callback>) {
    && (man.enter.Gives? ==> CoroOnly(man.enter.coro, Other(man.id)))
    && MaybeOnly(body, Other(man.id))
    && forall x :: man.exit(x).Gives? ==> CoroOnly(man.exit(x).coro, Other(man.id))
  }

  /** `async_with_inner` itself calls `__aexit__` once, or not at all. */
  lemma InnerLogExits(man: Manager, s: Script, e: Entry, value: Value, name: Path, log: Log)
    requires OpsOnly(s.ops, Other(man.id))
    ensures Exits(InnerLog(man, s, e, value, name, log), man.id)
            == Exits(log, man.id) + if s.code >= 0 || s.exc.Some? then [Failure(s)] else []
  {
    var call, i := CalledBack(name + [e.id], value), InnerScript(man, s);
    var exit := Acted(name, CallExit(man.id, Failure(s)));
    var l := log + [call] + Actions(s.ops, name);
    SaysNothing(log, Other(man.id));
    SaysEvent(log, log, call, Other(man.id));
    SaysActions(log, log + [call], s.ops, name, Other(man.id));
    NoMoreExits(log, l, man.id);
    var l' := log + [call] + Actions(i.ops, name);
    if s.code >= 0 || s.exc.Some? {
      InnerActions(man, s, name);
      assert l' == l + [exit];
    }
    hide Exits, Says, Actions, InnerScript;
    OneMoreExit(l, exit, man.id);
    NoExit(l', ReturnOf(call, i), man.id);
  }

  lemma SaysNothing(log: Log, p: Action -> bool)
    ensures Says(log, log, p)
  {
  }

  lemma InnerQueue(man: Manager, s: Script, value: Value, env: Env)
    requires EnvOnly(env, Other(man.id)) && OpsOnly(s.ops, Other(man.id))
    requires forall x :: man.exit(x).Gives? ==> CoroOnly(man.exit(x).coro, Other(man.id))
    ensures EnvOnly(Perform(InnerScript(man, s).ops, value, env), Other(man.id))
  {
    hide OpsOnly, EnvOnly, Perform, CoroOnly;
    var call := Act(CallExit(man.id, Failure(s)));
    var (adds, exc) := AddExpr(man.exit(Failure(s)), None, None);
    var after := Perform(s.ops, value, env);
    PerformAppend(s.ops + [call], adds, value, env);
    PerformAppend(s.ops, [call], value, env);
    PerformOne(call, value, after);
    PerformOnly(s.ops, value, env, Other(man.id));
    AddsOnly(man, s);
    PerformOnly(adds, value, after, Other(man.id));
  }

  lemma AddsOnly(man: Manager, s: Script)
    requires forall x :: man.exit(x).Gives? ==> CoroOnly(man.exit(x).coro, Other(man.id))
    ensures OpsOnly(AddExpr(man.exit(Failure(s)), None, None).0, Other(man.id))
  {
    var adds := AddExpr(man.exit(Failure(s)), None, None).0;
    if adds != [] {
      assert adds[1..] == [] && OpOnly(adds[0], Other(man.id));
    }
  }

  lemma RunNoExits(env: Env, log: Log, id: int)
    requires EnvOnly(env, Other(id))
    ensures Exits(Run(env, log).log, id) == Exits(log, id)
  {
    RunSays(env, log, log, Other(id));
    NoMoreExits(log, Run(env, log).log, id);
  }

  lemma ActionsNoExits(log: Log, ops: seq<Op>, aw: Path, next: Event, id: int)
    requires OpsOnly(ops, Other(id)) && !next.Acted?
    ensures Exits(log + Actions(ops, aw) + [next], id) == Exits(log, id)
  {
    SaysActions(log, log, ops, aw, Other(id));
    NoMoreExits(log, log + Actions(ops, aw), id);
    NoExit(log + Actions(ops, aw), next, id);
  }

  /** `__aenter__()` gets to its end, without a cancel, and gives a value. */
  ghost predicate Completes(coro: Coro) {
    Conclude(coro).Returns? && (coro.Plain? ==> NoCancels(coro.steps) && Cancel !in coro.last)
  }

  /** The calls of `__aexit__` that one statement makes. */
  ghost function StatementExits(man: Manager, body: Option<Callback>): seq<Option<Exc>> {
    if man.enter.Gives? && Completes(man.enter.coro) then Told(body, Conclude(man.enter.coro).value) else []
  }

  lemma {:induction false} PlainExits(
    man: Manager, body: Option<Callback>, e: Entry, steps: seq<Step>, last: seq<Op>, ending: Option<Exc>,
    env: Env, log: Log)
    requires e.callback == Some(Inner(man, body)) && e.errCallback.None? && !env.cancelled
    requires EnvOnly(env, Other(man.id)) && OnlyHere(man, body)
    requires StepsOnly(steps, Other(man.id)) && OpsOnly(last, Other(man.id))
    ensures var completes := NoCancels(steps) && Cancel !in last && !IsError(ending);
            Exits(YieldFrom(e, steps, last, ending, env, log).log, man.id)
            == Exits(log, man.id) + if completes then Told(body, ReturnValue(ending)) else []
    decreases |steps|
  {
    var id := man.id;
    var ops := if steps == [] then last else steps[0].ops;
    var after := Perform(ops, PyNone, env);
    PerformOnly(ops, PyNone, env, Other(id));
    PerformCancelled(ops, PyNone, env);
    hide EnvOnly, OpsOnly, Actions, Exits, OnlyHere, Told;
    if steps == [] {
      var end := CoroEnded(env.name + [e.id], ending);
      var log' := log + Actions(ops, env.name) + [end];
      ActionsNoExits(log, ops, env.name, end, id);
      if after.cancelled {
        RunNoExits(after, log', id);
      } else {
        ExitCalledOnce(man, body, e, ending, after, log');
      }
    } else {
      var log' := log + Actions(ops, env.name) + [Yielded(steps[0].value)];
      ActionsNoExits(log, ops, env.name, Yielded(steps[0].value), id);
      assert NoCancels(steps) <==> Cancel !in ops && NoCancels(steps[1..]) by {
        assert steps == [steps[0]] + steps[1..];
      }
      if Cancel in ops {
        RunNoExits(after, log', id);
      } else {
        PlainExits(man, body, e, steps[1..], last, ending, after, log');
      }
    }
  }

  /** The inner run, from its start. */
  lemma InnerExits(man: Manager, body: Option<Callback>, env: Env, log: Log)
    requires man.enter.Gives? && OnlyHere(man, body) && !env.cancelled
    requires env.queue != [] && env.queue[0] == EntryOf(Enter(man, body), env.queue[0].id)
    requires EnvOnly(env.(queue := env.queue[1..]), Other(man.id))
    ensures Exits(Run(env, log).log, man.id) == Exits(log, man.id) + StatementExits(man, body)
  {
    var e, rest, id := env.queue[0], env.(queue := env.queue[1..]), man.id;
    var who := env.name + [e.id];
    var l := log + [Awaiting(who)];
    NoExit(log, Awaiting(who), id);
    assert CoroOnly(man.enter.coro, Other(id));
    RunFront(env, man.enter.coro, log);
    hide Exits, EnvOnly, OnlyHere, Told, OpsOnly, StepsOnly, Inner, Run, YieldFrom, NoCancels, Built;
    match man.enter.coro {
      case Plain(steps, last, ending) =>
        PlainExits(man, body, e, steps, last, ending, rest, l);
      case NotAwaited(x) =>
        FailedEnterExits(e, x, rest, log, id);
      case Nested(build) =>
        NestedExits(man, body, e, build, rest, l);
    }
  }

  lemma FailedEnterExits(e: Entry, x: Exc, env: Env, log: Log, id: int)
    requires e.errCallback.None?
    ensures Exits(Started(e, NotAwaited(x), env, log).log, id) == Exits(log, id)
  {
    var who := env.name + [e.id];
    var l, l' := log + [Awaiting(who)], log + [Awaiting(who), AwaitFailed(who, x)];
    assert l + [AwaitFailed(who, x)] == l';
    hide Exits;
    NoExit(log, Awaiting(who), id);
    NoExit(l, AwaitFailed(who, x), id);
    NoExit(l', Finished(env.name, Some(x)), id);
  }

  lemma NestedExits(man: Manager, body: Option<Callback>, e: Entry, build: seq<Op>, env: Env, log: Log)
    requires e.callback == Some(Inner(man, body)) && e.errCallback.None? && !env.cancelled
    requires EnvOnly(env, Other(man.id)) && OnlyHere(man, body) && OpsOnly(build, Other(man.id))
    ensures var who, ending := env.name + [e.id], Conclude(Nested(build));
            Exits(Joined(e, env, Run(Built(who, build), log)).log, man.id)
            == Exits(log, man.id) + if ending.Returns? then Told(body, ending.value) else []
  {
    var who, id := env.name + [e.id], man.id;
    var t := Run(Built(who, build), log);
    PerformOnly(build, PyNone, Env(who, 0, [], None, false), Other(id));
    RunNoExits(Built(who, build), log, id);
    BuiltAlike(who, [], build, log, []);
    hide EnvOnly, OpsOnly, Exits, OnlyHere, Told, Run;
    if t.outcome.Ended? {
      var end := CoroEnded(who, t.outcome.exc);
      NoExit(t.log, end, id);
      ExitCalledOnce(man, body, e, t.outcome.exc, env, t.log + [end]);
    }
  }

  /** The inner awaitable that `PyAwaitable_AsyncWith` builds, driven to its end: `__aexit__` is called
      exactly once, and told the exception of the body or three Nones, when `__aenter__()` completes and
      the body succeeds or fails with an exception, and never otherwise, for every manager and body,
      and for coroutines of any shape. */
  lemma ExitOverInnerRun(man: Manager, body: Option<Callback>, name: Path, log: Log)
    requires man.enter.Gives? && OnlyHere(man, body)
    ensures Exits(Drive(M.Await(M.Built(name, [Enter(man, body)])), log).log, man.id)
            == Exits(log, man.id) + StatementExits(man, body)
  {
    WholeRun(name, [Enter(man, body)], log);
    PerformOne(Enter(man, body), PyNone, Env(name, 0, [], None, false));
    InnerExits(man, body, Built(name, [Enter(man, body)]), log);
  }

  /** A statement without a body: once `__aenter__()` has completed, `__aexit__` is called with three
      Nones. */
  lemma NoBodyOverInnerRun(man: Manager, name: Path, log: Log)
    requires man.enter.Gives? && OnlyHere(man, None) && Completes(man.enter.coro)
    ensures Exits(Drive(M.Await(M.Built(name, [Enter(man, None)])), log).log, man.id) == Exits(log, man.id) + [None]
  {
    ExitOverInnerRun(man, None, name, log);
  }

  /** A body that gets `v` from `__aenter__()` and raises `x` for it: `__aexit__` is told `x`. */
  lemma FailingBodyOverInnerRun(man: Manager, v: Value, x: Exc, other: Callback, name: Path, log: Log)
    requires man.enter == Gives(Plain([], [], Some(StopIteration(v))))
    requires OnlyHere(man, Some(Case(v, Script([], -1, Some(x)), other)))
    ensures var body := Some(Case(v, Script([], -1, Some(x)), other));
            Exits(Drive(M.Await(M.Built(name, [Enter(man, body)])), log).log, man.id) == Exits(log, man.id) + [Some(x)]
  {
    ExitOverInnerRun(man, Some(Case(v, Script([], -1, Some(x)), other)), name, log);
    assert Completes(man.enter.coro);
  }

  /** A run that comes to the statement. */
  lemma OuterExits(man: Manager, body: Option<Callback>, err: Option<Callback>, env: Env, log: Log)
    requires man.hasEnter && man.hasExit && man.enter.Gives? && OnlyHere(man, body)
    requires env.queue != [] && env.queue[0] == EntryOf(With(man, body, err).0[0], env.queue[0].id)
    requires EnvOnly(env.(queue := env.queue[1..]), Other(man.id)) && MaybeOnly(err, Other(man.id))
    ensures Exits(Run(env, log).log, man.id) == Exits(log, man.id) + StatementExits(man, body)
    ensures Awaiting(env.name + [env.queue[0].id]) in Run(env, log).log
  {
    var e, rest, id := env.queue[0], env.(queue := env.queue[1..]), man.id;
    var who := env.name + [e.id];
    var inner := Env(who, 1, [EntryOf(Enter(man, body), 0)], None, false);
    var l := log + [Awaiting(who)];
    NoExit(log, Awaiting(who), id);
    InnerExits(man, body, inner, l);
    RunRouted(inner, l, |l|);
    assert l[|log|] == Awaiting(who);
    OuterWaits(man, body, err, env, log);
    var t := Run(inner, l);
    if t.outcome.Ended? {
      var end := CoroEnded(who, t.outcome.exc);
      var l' := t.log + [end];
      NoExit(t.log, end, id);
      SaysNothing(l', Other(id));
      hide Exits, EnvOnly, MaybeOnly, Says, Run, AfterCoro;
      AfterCoroSays(e, t.outcome.exc, false, rest, l', l', Other(id));
      NoMoreExits(l', AfterCoro(e, t.outcome.exc, false, rest, l').log, id);
    }
  }

  // ---- A statement anywhere among other code ----

  /** Neither has `p` been started nor has `__aexit__` been called. */
  ghost predicate Before(log: Log, p: Path, id: int) {
    Says([], log, Other(id)) && Awaiting(p) !in log
  }

  /** The calls of `__aexit__` are `told`, if `p` was started, and none otherwise. */
  ghost predicate Tells(log: Log, p: Path, id: int, told: seq<Option<Exc>>) {
    Exits(log, id) == if Awaiting(p) in log then told else []
  }

  lemma BeforeTells(log: Log, p: Path, id: int, told: seq<Option<Exc>>)
    requires Before(log, p, id)
    ensures Tells(log, p, id, told)
  {
    NoMoreExits([], log, id);
  }

  lemma BeforeEvent(log: Log, p: Path, id: int, ev: Event)
    requires Before(log, p, id) && ev != Awaiting(p) && !ev.Acted?
    ensures Before(log + [ev], p, id)
  {
  }

  lemma BeforeActions(log: Log, p: Path, id: int, ops: seq<Op>, aw: Path)
    requires Before(log, p, id) && OpsOnly(ops, Other(id))
    ensures Before(log + Actions(ops, aw), p, id)
  {
    SaysActions([], log, ops, aw, Other(id));
    ActionsAreActed(ops, aw);
  }

  lemma BeforeCall(log: Log, p: Path, id: int, call: Event, s: Script, aw: Path)
    requires Before(log, p, id) && OpsOnly(s.ops, Other(id)) && IsCallback(call)
    ensures Before(Ran(log, aw, call, s), p, id)
  {
    hide Before;
    BeforeEvent(log, p, id, call);
    BeforeActions(log + [call], p, id, s.ops, aw);
    BeforeEvent(log + [call] + Actions(s.ops, aw), p, id, ReturnOf(call, s));
  }

  /** Entry `w` is the statement, if it is queued; no other entry calls `__aexit__`. */
  ghost predicate Marked(env: Env, w: Entry, id: int) {
    && Numbered(env) && w.id < env.next
    && forall i :: 0 <= i < |env.queue| ==>
         if env.queue[i].id == w.id then env.queue[i] == w else EntryOnly(env.queue[i], Other(id))
  }

  lemma {:induction false} PerformMarked(ops: seq<Op>, arg: Value, env: Env, w: Entry, id: int)
    requires OpsOnly(ops, Other(id)) && Marked(env, w, id)
    ensures Marked(Perform(ops, arg, env), w, id) && Perform(ops, arg, env).name == env.name
  {
    if ops == [] {
    } else {
      ApplyMarked(ops[0], arg, env, w, id);
      hide Marked, Apply;
      PerformMarked(ops[1..], arg, Apply(ops[0], arg, env), w, id);
      PerformName(ops, arg, env);
    }
  }

  lemma ApplyMarked(op: Op, arg: Value, env: Env, w: Entry, id: int)
    requires OpOnly(op, Other(id)) && Marked(env, w, id)
    ensures Marked(Apply(op, arg, env), w, id)
  {
    ApplyNumbered(op, arg, env);
    if IsAdd(op) {
      assert EntryOnly(EntryOf(op, env.next), Other(id));
    }
  }

  /** The statement as an entry of another awaitable, whose code calls `__aexit__` only in
      `async_with_inner`. */
  ghost predicate IsStatement(man: Manager, body: Option<Callback>, err: Option<Callback>, w: Entry) {
    && OnlyHere(man, body) && MaybeOnly(err, Other(man.id))
    && man.hasEnter && man.hasExit && man.enter.Gives? && w == EntryOf(With(man, body, err).0[0], w.id)
  }

  lemma {:induction false} RunTells(
    man: Manager, body: Option<Callback>, err: Option<Callback>, w: Entry, env: Env, log: Log)
    requires IsStatement(man, body, err, w) && Marked(env, w, man.id) && Before(log, env.name + [w.id], man.id)
    ensures Tells(Run(env, log).log, env.name + [w.id], man.id, StatementExits(man, body))
    decreases QueueWeight(env.queue), 0
  {
    var p, id, told := env.name + [w.id], man.id, StatementExits(man, body);
    if env.queue == [] {
      var end := Finished(env.name, Some(FinalStop(env.result)));
      BeforeEvent(log, p, id, end);
      BeforeTells(log + [end], p, id, told);
    } else {
      var e, rest := env.queue[0], env.(queue := env.queue[1..]);
      var who := env.name + [e.id];
      assert Marked(rest, w, id);
      if e.id == w.id {
        assert EnvOnly(rest, Other(id));
        BeforeTells(log, p, id, told);
        hide Exits, StatementExits;
        OuterExits(man, body, err, env, log);
      } else if e.coro.None? {
        hide Tells, Before, Marked, IsStatement;
        if e.callback.Some? {
          CallTells(man, body, err, w, e.callback.value, PyNone, Deferred(who), rest, log);
        } else {
          BeforeTells(log, p, id, told);
        }
      } else {
        RunFront(env, e.coro.value, log);
        hide Tells, Before, Marked, IsStatement, Run;
        FrontTells(man, body, err, w, e, e.coro.value, rest, log);
      }
    }
  }

  lemma {:induction false} FrontTells(
    man: Manager, body: Option<Callback>, err: Option<Callback>, w: Entry, e: Entry, coro: Coro, env: Env, log: Log)
    requires IsStatement(man, body, err, w) && Marked(env, w, man.id) && Before(log, env.name + [w.id], man.id)
    requires e.id != w.id && e.coro == Some(coro) && EntryOnly(e, Other(man.id))
    ensures Tells(Started(e, coro, env, log).log, env.name + [w.id], man.id, StatementExits(man, body))
    decreases QueueWeight(env.queue) + CoroWeight(coro) + CallsWeight(e), 5
  {
    hide Tells, Before, Marked, IsStatement;
    var p, id, told, who := env.name + [w.id], man.id, StatementExits(man, body), env.name + [e.id];
    var l := log + [Awaiting(who)];
    assert who[|env.name|] != p[|env.name|];
    BeforeEvent(log, p, id, Awaiting(who));
    match coro
    case NotAwaited(x) =>
      BeforeEvent(l, p, id, AwaitFailed(who, x));
      assert l + [AwaitFailed(who, x)] == log + [Awaiting(who), AwaitFailed(who, x)];
      OnErrorTells(man, body, err, w, e, x, env, log + [Awaiting(who), AwaitFailed(who, x)]);
    case Plain(steps, last, ending) =>
      YieldFromTells(man, body, err, w, e, steps, last, ending, env, l);
    case Nested(build) =>
      var t := Run(Built(who, build), l);
      NestedBefore(build, who, l, p, id);
      if t.outcome.Ended? {
        var end := CoroEnded(who, t.outcome.exc);
        BeforeEvent(t.log, p, id, end);
        AfterCoroTells(man, body, err, w, e, t.outcome.exc, false, env, t.log + [end]);
      } else {
        BeforeTells(t.log, p, id, told);
      }
  }

  /** Nothing that is nested in another entry starts `p`. */
  lemma NestedBefore(build: seq<Op>, who: Path, log: Log, p: Path, id: int)
    requires OpsOnly(build, Other(id)) && Before(log, p, id) && |p| == |who|
    ensures Before(Run(Built(who, build), log).log, p, id)
  {
    var start := Env(who, 0, [], None, false);
    var l := Run(Built(who, build), log).log;
    PerformOnly(build, PyNone, start, Other(id));
    PerformNumbered(build, PyNone, start);
    RunSays(Built(who, build), [], log, Other(id));
    RunRouted(Built(who, build), log, |log|);
    forall i | 0 <= i < |l| ensures l[i] != Awaiting(p) {
      if i < |log| {
        assert l[i] == log[i];
      } else {
        assert About(l[i], who);
      }
    }
  }

  lemma {:induction false} CallTells(
    man: Manager, body: Option<Callback>, err: Option<Callback>, w: Entry, cb: Callback, arg: Value, call: Event,
    env: Env, log: Log)
    requires IsStatement(man, body, err, w) && Marked(env, w, man.id) && Before(log, env.name + [w.id], man.id)
    requires CallbackOnly(cb, Other(man.id)) && IsCallback(call)
    ensures var s := ScriptFor(cb, arg);
            var log', after := Ran(log, env.name, call, s), Perform(s.ops, arg, env);
            && Marked(after, w, man.id) && after.name == env.name && Before(log', env.name + [w.id], man.id)
            && Tells(Run(after, log').log, env.name + [w.id], man.id, StatementExits(man, body))
            && Tells(log', env.name + [w.id], man.id, StatementExits(man, body))
            && forall exc ::
                 Tells(log' + [Finished(env.name, exc)], env.name + [w.id], man.id, StatementExits(man, body))
    decreases QueueWeight(env.queue) + CallbackWeight(cb), 1
  {
    hide Tells, Before, Marked, IsStatement;
    var p, id, told := env.name + [w.id], man.id, StatementExits(man, body);
    var s := ScriptFor(cb, arg);
    var log' := Ran(log, env.name, call, s);
    ScriptWeight(cb, arg);
    ScriptOnly(cb, arg, Other(id));
    PerformMarked(s.ops, arg, env, w, id);
    BeforeCall(log, p, id, call, s, env.name);
    BeforeTells(log', p, id, told);
    RunTells(man, body, err, w, Perform(s.ops, arg, env), log');
    forall exc ensures Tells(log' + [Finished(env.name, exc)], p, id, told) {
      BeforeEvent(log', p, id, Finished(env.name, exc));
      BeforeTells(log' + [Finished(env.name, exc)], p, id, told);
    }
  }

  lemma {:induction false} YieldFromTells(
    man: Manager, body: Option<Callback>, err: Option<Callback>, w: Entry, e: Entry, steps: seq<Step>, last: seq<Op>,
    ending: Option<Exc>, env: Env, log: Log)
    requires IsStatement(man, body, err, w) && Marked(env, w, man.id) && Before(log, env.name + [w.id], man.id)
    requires StepsOnly(steps, Other(man.id)) && OpsOnly(last, Other(man.id))
    requires MaybeOnly(e.callback, Other(man.id)) && MaybeOnly(e.errCallback, Other(man.id))
    ensures Tells(YieldFrom(e, steps, last, ending, env, log).log, env.name + [w.id], man.id,
                  StatementExits(man, body))
    decreases QueueWeight(env.queue) + StepsWeight(steps) + OpsWeight(last) + CallsWeight(e), 4
  {
    hide Tells, Before, Marked, IsStatement;
    var p, id := env.name + [w.id], man.id;
    var ops := if steps == [] then last else steps[0].ops;
    var next := if steps == [] then CoroEnded(env.name + [e.id], ending) else Yielded(steps[0].value);
    var after, log' := Perform(ops, PyNone, env), log + Actions(ops, env.name) + [next];
    PerformMarked(ops, PyNone, env, w, id);
    BeforeActions(log, p, id, ops, env.name);
    BeforeEvent(log + Actions(ops, env.name), p, id, next);
    if steps == [] {
      AfterCoroTells(man, body, err, w, e, ending, Cancel in last, after, log');
    } else if Cancel in ops {
      RunTells(man, body, err, w, after, log');
    } else {
      YieldFromTells(man, body, err, w, e, steps[1..], last, ending, after, log');
    }
  }

  lemma {:induction false} AfterCoroTells(
    man: Manager, body: Option<Callback>, err: Option<Callback>, w: Entry, e: Entry, ending: Option<Exc>,
    cancelledNow: bool, env: Env, log: Log)
    requires IsStatement(man, body, err, w) && Marked(env, w, man.id) && Before(log, env.name + [w.id], man.id)
    requires MaybeOnly(e.callback, Other(man.id)) && MaybeOnly(e.errCallback, Other(man.id))
    ensures Tells(AfterCoro(e, ending, cancelledNow, env, log).log, env.name + [w.id], man.id,
                  StatementExits(man, body))
    decreases QueueWeight(env.queue) + CallsWeight(e), 3
  {
    hide Tells, Before, Marked, IsStatement;
    BeforeTells(log, env.name + [w.id], man.id, StatementExits(man, body));
    if !env.cancelled && IsError(ending) {
      OnErrorTells(man, body, err, w, e, ending.value, env, log);
    } else if env.cancelled || e.callback.None? {
      RunTells(man, body, err, w, env, log);
    } else {
      var value := ReturnValue(ending);
      var s := ScriptFor(e.callback.value, value);
      var call := CalledBack(env.name + [e.id], value);
      ScriptWeight(e.callback.value, value);
      CallTells(man, body, err, w, e.callback.value, value, call, env, log);
      var after := Perform(s.ops, value, env);
      if s.code == -1 && s.exc.Some? && !after.cancelled {
        OnErrorTells(man, body, err, w, e, s.exc.value, after, Ran(log, env.name, call, s));
      }
    }
  }

  lemma {:induction false} OnErrorTells(
    man: Manager, body: Option<Callback>, err: Option<Callback>, w: Entry, e: Entry, x: Exc, env: Env, log: Log)
    requires IsStatement(man, body, err, w) && Marked(env, w, man.id) && Before(log, env.name + [w.id], man.id)
    requires MaybeOnly(e.errCallback, Other(man.id))
    ensures Tells(OnError(e, x, env, log).log, env.name + [w.id], man.id, StatementExits(man, body))
    decreases QueueWeight(env.queue) + MaybeWeight(e.errCallback), 2
  {
    hide Tells, Before, Marked, IsStatement;
    var p, id, told := env.name + [w.id], man.id, StatementExits(man, body);
    if e.errCallback.None? {
      BeforeEvent(log, p, id, Finished(env.name, Some(x)));
      BeforeTells(log + [Finished(env.name, Some(x))], p, id, told);
    } else {
      CallTells(man, body, err, w, e.errCallback.value, ExcObj(x), CalledError(env.name + [e.id], x), env, log);
    }
  }

  /** The number of entries that calls allocate. */
  function Adds(ops: seq<Op>): nat {
    if ops == [] then 0 else (if IsAdd(ops[0]) then 1 else 0) + Adds(ops[1..])
  }

  lemma {:induction false} PerformNext(ops: seq<Op>, arg: Value, env: Env)
    ensures Perform(ops, arg, env).next == env.next + Adds(ops)
  {
    if ops == [] {
    } else {
      PerformNext(ops[1..], arg, Apply(ops[0], arg, env));
    }
  }

  /** An awaitable on which `PyAwaitable_AsyncWith` is called anywhere among other code, which may add,
      cancel and raise as it likes, driven to its end: if the statement is entered and its turn
      comes, `__aexit__` is called as often as over the inner run, and told the same; otherwise it
      is not called. */
  lemma ExitOverOuterRun(man: Manager, body: Option<Callback>, err: Option<Callback>, before: seq<Op>, later: seq<Op>,
                         name: Path)
    requires OnlyHere(man, body) && MaybeOnly(err, Other(man.id))
    requires OpsOnly(before, Other(man.id)) && OpsOnly(later, Other(man.id))
    ensures var log := Drive(M.Await(M.Built(name, before + With(man, body, err).0 + later)), []).log;
            var reached := man.hasEnter && man.hasExit && Awaiting(name + [Adds(before)]) in log;
            Exits(log, man.id) == if reached then StatementExits(man, body) else []
  {
    var statement, id := With(man, body, err).0, man.id;
    WholeRun(name, before + statement + later, []);
    hide OpsOnly, OnlyHere, Marked, EnvOnly, Run, Built, Drive, Completes, Told;
    if man.hasEnter && man.hasExit && man.enter.Gives? {
      var w := EntryOf(statement[0], Adds(before));
      assert statement == [statement[0]];
      BuiltMarked(before, statement[0], later, name, w, id);
      SaysNothing([], Other(id));
      RunTells(man, body, err, w, Built(name, before + statement + later), []);
    } else {
      assert before + statement + later == before + later;
      BuiltOnly(before, later, name, id);
      RunNoExits(Built(name, before + later), [], id);
    }
  }

  /** One call among others adds the entry `w`. */
  lemma BuiltMarked(before: seq<Op>, op: Op, later: seq<Op>, name: Path, w: Entry, id: int)
    requires OpsOnly(before, Other(id)) && OpsOnly(later, Other(id)) && IsAdd(op) && w == EntryOf(op, Adds(before))
    ensures Marked(Built(name, before + [op] + later), w, id) && Built(name, before + [op] + later).name == name
  {
    var start := Env(name, 0, [], None, false);
    var first := Perform(before, PyNone, start);
    PerformAppend(before + [op], later, PyNone, start);
    PerformAppend(before, [op], PyNone, start);
    PerformOnly(before, PyNone, start, Other(id));
    PerformNumbered(before, PyNone, start);
    PerformNext(before, PyNone, start);
    PerformOne(op, PyNone, first);
    AddMarks(op, first, w, id);
    hide Marked, Perform, EnvOnly, OpsOnly, Numbered;
    PerformMarked(later, PyNone, Apply(op, PyNone, first), w, id);
  }

  lemma AddMarks(op: Op, env: Env, w: Entry, id: int)
    requires EnvOnly(env, Other(id)) && Numbered(env) && IsAdd(op) && w == EntryOf(op, env.next)
    ensures Marked(Apply(op, PyNone, env), w, id) && Apply(op, PyNone, env).name == env.name
  {
    ApplyNumbered(op, PyNone, env);
  }

  lemma BuiltOnly(before: seq<Op>, later: seq<Op>, name: Path, id: int)
    requires OpsOnly(before, Other(id)) && OpsOnly(later, Other(id))
    ensures EnvOnly(Built(name, before + later), Other(id))
  {
    var start := Env(name, 0, [], None, false);
    PerformAppend(before, later, PyNone, start);
    PerformOnly(before, PyNone, start, Other(id));
    PerformOnly(later, PyNone, Perform(before, PyNone, start), Other(id));
  }
}
