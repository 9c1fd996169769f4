/** Nesting is compositional: an awaitable that another one waits for behaves like a plain coroutine
    with the yields and the outcome of its own run, at every depth. */
module Nesting {
  import opened PyObjects
  import opened UserCode
  import opened Reference
  import opened Refinement
  import opened Routing
  import opened Seqs
  import M = Machine

  // ---- What a run shows at its own level ----

  function Yields(log: Log): seq<Value> {
    if log == [] then []
    else (if log[0].Yielded? then [log[0].value] else []) + Yields(log[1..])
  }

  /** An event as the awaitable `name` itself sees it; nothing for events of nested awaitables. */
  function Shown(ev: Event, name: Path): Log {
    match ev
    case Yielded(_) => [ev]
    case Acted(aw, what) => if aw == name then [Acted([], what)] else []
    case Awaiting(who) => if IsCall(ev) && Parent(ev) == name then [Awaiting([Id(ev)])] else []
    case Deferred(who) => if IsCall(ev) && Parent(ev) == name then [Deferred([Id(ev)])] else []
    case CalledBack(who, v) => if IsCall(ev) && Parent(ev) == name then [CalledBack([Id(ev)], v)] else []
    case CalledError(who, x) => if IsCall(ev) && Parent(ev) == name then [CalledError([Id(ev)], x)] else []
    case AwaitFailed(who, x) => if IsCall(ev) && Parent(ev) == name then [AwaitFailed([Id(ev)], x)] else []
    case CoroEnded(who, end) => if IsCall(ev) && Parent(ev) == name then [CoroEnded([Id(ev)], end)] else []
    case Returned(who, from, code, left) =>
      if IsCall(ev) && Parent(ev) == name then [Returned([Id(ev)], from, code, left)] else []
    case Finished(aw, end) => if aw == name then [Finished([], end)] else []
  }

  /** The log without what nested awaitables did inside, up to the name of the awaitable. */
  function Outer(log: Log, name: Path): Log {
    if log == [] then [] else Shown(log[0], name) + Outer(log[1..], name)
  }

  lemma {:induction false} OuterAppend(a: Log, b: Log, name: Path)
    ensures Outer(a + b, name) == Outer(a, name) + Outer(b, name)
  {
    hide Outer, Shown;
    if a == [] {
      assert a + b == b;
      EmptyShowsNothing(name);
    } else {
      OuterAppend(a[1..], b, name);
      OuterFirst(a, name);
      OuterFirst(a + b, name);
      assert (a + b)[0] == a[0] && (a + b)[1..] == a[1..] + b;
      Assoc(Shown(a[0], name), Outer(a[1..], name), Outer(b, name));
    }
  }

  lemma EmptyShowsNothing(name: Path)
    ensures Outer([], name) == []
  {
  }

  lemma OuterFirst(log: Log, name: Path)
    requires log != []
    ensures Outer(log, name) == Shown(log[0], name) + Outer(log[1..], name)
  {
  }

  lemma YieldsShownOne(ev: Event, name: Path, rest: Log)
    ensures Yields(Shown(ev, name) + rest) == (if ev.Yielded? then [ev.value] else []) + Yields(rest)
  {
    var head := Shown(ev, name);
    if head == [] {
      assert head + rest == rest;
    } else {
      assert (head + rest)[1..] == rest;
    }
  }

  /** The yields can be read off what is shown. */
  lemma {:induction false} YieldsShown(log: Log, name: Path)
    ensures Yields(Outer(log, name)) == Yields(log)
  {
    if log == [] {
    } else {
      YieldsShown(log[1..], name);
      YieldsShownOne(log[0], name, Outer(log[1..], name));
    }
  }

  function YieldEvents(values: seq<Value>): Log {
    if values == [] then [] else [Yielded(values[0])] + YieldEvents(values[1..])
  }

  lemma {:induction false} YieldEventsShown(values: seq<Value>, name: Path)
    ensures Outer(YieldEvents(values), name) == YieldEvents(values)
  {
    if values == [] {
    } else {
      YieldEventsShown(values[1..], name);
    }
  }

  /** Of what a nested awaitable does, its parent shows the yields and nothing else. */
  lemma {:induction false} NestedShowsYields(log: Log, name: Path, inner: Path)
    requires |name| < |inner| && AllUnder(log, 0, inner)
    ensures Outer(log, name) == YieldEvents(Yields(log))
  {
    if log == [] {
    } else {
      assert About(log[0], inner);
      assert forall i :: 0 <= i < |log[1..]| ==> log[1..][i] == log[i + 1];
      NestedShowsYields(log[1..], name, inner);
      var head := if log[0].Yielded? then [log[0].value] else [];
      if log[0].Yielded? {
        assert (head + Yields(log[1..]))[1..] == Yields(log[1..]);
      } else {
        assert head + Yields(log[1..]) == Yields(log[1..]);
        assert Shown(log[0], name) == [];
      }
    }
  }

  // ---- Replacing nested awaitables by plain coroutines ----

  function PureSteps(values: seq<Value>): seq<Step> {
    seq(|values|, i requires 0 <= i < |values| => Step([], values[i]))
  }

  /** A coroutine that yields what the run yielded, and ends as it ended. */
  function RunAsCoro(t: Trace): Coro {
    Plain(PureSteps(Yields(t.log)), [], match t.outcome case Ended(x) => x case Faulted(_) => None)
  }

  function FlatCoro(coro: Coro): Coro
    decreases coro, 0
  {
    match coro
    case Plain(steps, last, ending) => Plain(FlatSteps(steps), FlatOps(last), ending)
    case NotAwaited(_) => coro
    case Nested(build) => RunAsCoro(Run(Built([], build), []))
  }

  function FlatSteps(steps: seq<Step>): seq<Step>
    decreases steps, 0
  {
    if steps == [] then [] else [Step(FlatOps(steps[0].ops), steps[0].value)] + FlatSteps(steps[1..])
  }

  function FlatOps(ops: seq<Op>): seq<Op>
    decreases ops, 0
  {
    if ops == [] then [] else [FlatOp(ops[0])] + FlatOps(ops[1..])
  }

  function FlatOp(op: Op): Op
    decreases op, 0
  {
    match op
    case AddAwait(coro, cb, err) => AddAwait(FlatCoro(coro), FlatMaybe(cb), FlatMaybe(err))
    case DeferAwait(body) => DeferAwait(FlatMaybe(body))
    case _ => op
  }

  function FlatMaybe(cb: Option<Callback>): Option<Callback>
    decreases cb, 1
  {
    match cb
    case None => None
    case Some(c) => Some(FlatCallback(c))
  }

  function FlatCallback(cb: Callback): Callback
    decreases cb, 0
  {
    match cb
    case Always(s) => Always(Script(FlatOps(s.ops), s.code, s.exc))
    case Case(on, s, otherwise) => Case(on, Script(FlatOps(s.ops), s.code, s.exc), FlatCallback(otherwise))
  }

  function FlatEntry(e: Entry): Entry {
    Entry(e.id, match e.coro case None => None case Some(c) => Some(FlatCoro(c)),
          FlatMaybe(e.callback), FlatMaybe(e.errCallback), e.done)
  }

  function FlatQueue(queue: seq<Entry>): seq<Entry> {
    seq(|queue|, i requires 0 <= i < |queue| => FlatEntry(queue[i]))
  }

  // The proof runs two interpreters side by side: one on an awaitable, one on the same awaitable
  // under another name, with (`flat`) or without its nested awaitables replaced.

  function Ops(flat: bool, ops: seq<Op>): seq<Op> {
    if flat then FlatOps(ops) else ops
  }

  function Image(flat: bool, env: Env, name: Path): Env {
    env.(name := name, queue := if flat then FlatQueue(env.queue) else env.queue)
  }

  function EntryImage(flat: bool, e: Entry): Entry {
    if flat then FlatEntry(e) else e
  }

  lemma ApplyImage(flat: bool, op: Op, arg: Value, env: Env, name: Path)
    ensures Apply(if flat then FlatOp(op) else op, arg, Image(flat, env, name))
            == Image(flat, Apply(op, arg, env), name)
  {
    if flat && IsAdd(op) {
      var e := EntryOf(op, env.next);
      assert FlatQueue(env.queue + [e]) == FlatQueue(env.queue) + [FlatEntry(e)];
    }
  }

  lemma {:induction false} PerformImage(flat: bool, ops: seq<Op>, arg: Value, env: Env, name: Path)
    ensures Perform(Ops(flat, ops), arg, Image(flat, env, name)) == Image(flat, Perform(ops, arg, env), name)
    ensures Cancel in Ops(flat, ops) <==> Cancel in ops
    ensures Outer(Actions(Ops(flat, ops), name), name) == Outer(Actions(ops, env.name), env.name)
  {
    CancelsImage(flat, ops);
    ActionsImage(flat, ops, env.name, name);
    hide Outer, Actions;
    if ops == [] {
    } else {
      ApplyImage(flat, ops[0], arg, env, name);
      PerformImage(flat, ops[1..], arg, Apply(ops[0], arg, env), name);
      assert Ops(flat, ops)[1..] == Ops(flat, ops[1..]);
    }
  }

  lemma {:induction false} CancelsImage(flat: bool, ops: seq<Op>)
    ensures Cancel in Ops(flat, ops) <==> Cancel in ops
  {
    if flat && ops != [] {
      CancelsImage(flat, ops[1..]);
      assert FlatOps(ops) == [FlatOp(ops[0])] + FlatOps(ops[1..]);
      assert FlatOp(ops[0]).Cancel? <==> ops[0].Cancel?;
      assert Cancel in ops <==> ops[0].Cancel? || Cancel in ops[1..];
    }
  }

  lemma SeenImage(op1: Op, op2: Op, n1: Path, n2: Path)
    requires op2 == op1 || op2 == FlatOp(op1)
    ensures Outer(Seen(op1, n1), n1) == Outer(Seen(op2, n2), n2)
  {
  }

  lemma {:induction false} ActionsImage(flat: bool, ops: seq<Op>, n1: Path, n2: Path)
    ensures Outer(Actions(Ops(flat, ops), n2), n2) == Outer(Actions(ops, n1), n1)
  {
    if ops == [] {
    } else {
      ActionsImage(flat, ops[1..], n1, n2);
      var op := Ops(flat, ops)[0];
      assert Ops(flat, ops)[1..] == Ops(flat, ops[1..]);
      SeenImage(ops[0], op, n1, n2);
      hide Outer, Shown;
      OuterAppend(Seen(op, n2), Actions(Ops(flat, ops[1..]), n2), n2);
      OuterAppend(Seen(ops[0], n1), Actions(ops[1..], n1), n1);
    }
  }

  lemma {:induction false} ScriptImage(cb: Callback, arg: Value)
    ensures var s := ScriptFor(cb, arg);
            ScriptFor(FlatCallback(cb), arg) == Script(FlatOps(s.ops), s.code, s.exc)
  {
    if cb.Always? {
    } else {
      ScriptImage(cb.otherwise, arg);
    }
  }

  // ---- Two runs side by side ----

  /** Two logs show the same from given points on. */
  predicate Same(l1: Log, f1: nat, n1: Path, l2: Log, f2: nat, n2: Path) {
    f1 <= |l1| && f2 <= |l2| && Outer(l1[f1..], n1) == Outer(l2[f2..], n2)
  }

  lemma SameAppend(l1: Log, x1: Log, f1: nat, n1: Path, l2: Log, x2: Log, f2: nat, n2: Path)
    requires Same(l1, f1, n1, l2, f2, n2) && Outer(x1, n1) == Outer(x2, n2)
    ensures Same(l1 + x1, f1, n1, l2 + x2, f2, n2)
  {
    TailAppend(l1, x1, f1, n1);
    TailAppend(l2, x2, f2, n2);
  }

  lemma TailAppend(l: Log, x: Log, f: nat, name: Path)
    requires f <= |l|
    ensures Outer((l + x)[f..], name) == Outer(l[f..], name) + Outer(x, name)
  {
    hide Outer;
    OuterAppend(l[f..], x, name);
    assert (l + x)[f..] == l[f..] + x;
  }

  lemma SameEvent(l1: Log, ev1: Event, f1: nat, n1: Path, l2: Log, ev2: Event, f2: nat, n2: Path)
    requires Same(l1, f1, n1, l2, f2, n2) && Shown(ev1, n1) == Shown(ev2, n2)
    ensures Same(l1 + [ev1], f1, n1, l2 + [ev2], f2, n2)
  {
    assert Outer([ev1], n1) == Outer([ev2], n2);
    SameAppend(l1, [ev1], f1, n1, l2, [ev2], f2, n2);
  }

  /** The calls of a callback of the same entry, under two names. */
  predicate SameCallback(call1: Event, n1: Path, call2: Event, n2: Path) {
    && IsCallback(call1) && IsCallback(call2) && IsCall(call1) && IsCall(call2)
    && Parent(call1) == n1 && Parent(call2) == n2 && Shown(call1, n1) == Shown(call2, n2)
  }

  /** The same call, with its actions and its return, on both sides. */
  lemma SameCall(flat: bool, call1: Event, call2: Event, s: Script, arg: Value, env: Env, name: Path,
                 l1: Log, f1: nat, l2: Log, f2: nat)
    requires Same(l1, f1, env.name, l2, f2, name) && SameCallback(call1, env.name, call2, name)
    ensures Same(Ran(l1, env.name, call1, s), f1, env.name,
                 Ran(l2, name, call2, s.(ops := Ops(flat, s.ops))), f2, name)
    ensures Perform(Ops(flat, s.ops), arg, Image(flat, env, name)) == Image(flat, Perform(s.ops, arg, env), name)
  {
    var s2 := s.(ops := Ops(flat, s.ops));
    assert Shown(ReturnOf(call1, s), env.name) == Shown(ReturnOf(call2, s2), name);
    hide Same, Outer, Shown;
    PerformImage(flat, s.ops, arg, env, name);
    SameEvent(l1, call1, f1, env.name, l2, call2, f2, name);
    SameAppend(l1 + [call1], Actions(s.ops, env.name), f1, env.name,
               l2 + [call2], Actions(s2.ops, name), f2, name);
    SameEvent(l1 + [call1] + Actions(s.ops, env.name), ReturnOf(call1, s), f1, env.name,
              l2 + [call2] + Actions(s2.ops, name), ReturnOf(call2, s2), f2, name);
  }

  /** The same end on both sides. */
  lemma SameFinish(flat: bool, env: Env, name: Path, exc: Option<Exc>, l1: Log, f1: nat, l2: Log, f2: nat)
    requires Same(l1, f1, env.name, l2, f2, name)
    ensures Alike(Finish(env, exc, l1), f1, env.name, Finish(Image(flat, env, name), exc, l2), f2, name)
  {
    hide Same;
    SameEvent(l1, Finished(env.name, exc), f1, env.name, l2, Finished(name, exc), f2, name);
  }

  /** The coroutine of an entry ends on both sides. */
  lemma SameEnd(id: nat, ending: Option<Exc>, n1: Path, n2: Path, l1: Log, f1: nat, l2: Log, f2: nat)
    requires Same(l1, f1, n1, l2, f2, n2)
    ensures Same(l1 + [CoroEnded(n1 + [id], ending)], f1, n1, l2 + [CoroEnded(n2 + [id], ending)], f2, n2)
  {
    hide Same;
    SameEvent(l1, CoroEnded(n1 + [id], ending), f1, n1, l2, CoroEnded(n2 + [id], ending), f2, n2);
  }

  /** The coroutine of an entry cannot be awaited, on both sides. */
  lemma SameFailure(id: nat, x: Exc, n1: Path, n2: Path, l1: Log, f1: nat, l2: Log, f2: nat)
    requires Same(l1, f1, n1, l2, f2, n2)
    ensures Same(l1 + [Awaiting(n1 + [id]), AwaitFailed(n1 + [id], x)], f1, n1,
                 l2 + [Awaiting(n2 + [id]), AwaitFailed(n2 + [id], x)], f2, n2)
  {
    var a1, a2 := Awaiting(n1 + [id]), Awaiting(n2 + [id]);
    var b1, b2 := AwaitFailed(n1 + [id], x), AwaitFailed(n2 + [id], x);
    hide Same, Outer;
    SameEvent(l1, a1, f1, n1, l2, a2, f2, n2);
    SameEvent(l1 + [a1], b1, f1, n1, l2 + [a2], b2, f2, n2);
    assert l1 + [a1] + [b1] == l1 + [a1, b1] && l2 + [a2] + [b2] == l2 + [a2, b2];
  }

  /** The traces show the same, and end in the same way. */
  predicate Alike(t1: Trace, f1: nat, n1: Path, t2: Trace, f2: nat, n2: Path) {
    t1.outcome == t2.outcome && Same(t1.log, f1, n1, t2.log, f2, n2)
  }

  lemma {:induction false} RunAlike(flat: bool, env: Env, name: Path, l1: Log, f1: nat, l2: Log, f2: nat)
    requires Same(l1, f1, env.name, l2, f2, name)
    requires flat ==> Run(env, l1).outcome.Ended?
    ensures Alike(Run(env, l1), f1, env.name, Run(Image(flat, env, name), l2), f2, name)
    decreases QueueWeight(env.queue), 0
  {
    hide Same, Outer;
    if env.queue == [] {
      SameFinish(flat, env, name, Some(FinalStop(env.result)), l1, f1, l2, f2);
    } else {
      var e, rest := env.queue[0], env.(queue := env.queue[1..]);
      var env2 := Image(flat, env, name);
      assert env2.queue[0] == EntryImage(flat, e);
      assert env2.(queue := env2.queue[1..]) == Image(flat, rest, name);
      match e.coro
      case None =>
        if e.callback.Some? {
          CallAlike(flat, e.callback.value, PyNone, Deferred(env.name + [e.id]), Deferred(name + [e.id]),
                    rest, name, l1, f1, l2, f2);
        }
      case Some(coro) =>
        RunFront(env, coro, l1);
        RunFront(env2, EntryImage(flat, e).coro.value, l2);
        hide Run, YieldFrom, OnError;
        FrontAlike(flat, e, coro, rest, name, l1, f1, l2, f2);
    }
  }

  lemma {:induction false} FrontAlike(
    flat: bool, e: Entry, coro: Coro, env: Env, name: Path, l1: Log, f1: nat, l2: Log, f2: nat)
    requires Same(l1, f1, env.name, l2, f2, name) && e.coro == Some(coro)
    requires flat ==> Started(e, coro, env, l1).outcome.Ended?
    ensures Alike(Started(e, coro, env, l1), f1, env.name,
                  Started(EntryImage(flat, e), EntryImage(flat, e).coro.value, Image(flat, env, name), l2), f2, name)
    decreases QueueWeight(env.queue) + CoroWeight(coro) + CallsWeight(e), 5
  {
    var a1, a2 := Awaiting(env.name + [e.id]), Awaiting(name + [e.id]);
    hide Same, Outer, Run, YieldFrom, OnError, AfterCoro;
    SameEvent(l1, a1, f1, env.name, l2, a2, f2, name);
    match coro
    case NotAwaited(x) =>
      SameFailure(e.id, x, env.name, name, l1, f1, l2, f2);
      OnErrorAlike(flat, e, x, env, name, l1 + [a1, AwaitFailed(a1.who, x)], f1, l2 + [a2, AwaitFailed(a2.who, x)], f2);
    case Plain(steps, last, ending) =>
      YieldFromAlike(flat, e, steps, last, ending, env, name, l1 + [a1], f1, l2 + [a2], f2);
    case Nested(build) =>
      NestedAlike(flat, e, build, env, name, l1 + [a1], f1, l2 + [a2], f2);
  }

  /** What the interpreter does with a coroutine, from the moment it is awaited. */
  function Await(e: Entry, coro: Coro, env: Env, log: Log): Trace {
    match coro
    case Plain(steps, last, ending) => YieldFrom(e, steps, last, ending, env, log)
    case NotAwaited(x) => OnError(e, x, env, log)
    case Nested(build) => Joined(e, env, Run(Built(env.name + [e.id], build), log))
  }

  lemma {:induction false} NestedAlike(
    flat: bool, e: Entry, build: seq<Op>, env: Env, name: Path, l1: Log, f1: nat, l2: Log, f2: nat)
    requires Same(l1, f1, env.name, l2, f2, name)
    requires flat ==> Await(e, Nested(build), env, l1).outcome.Ended?
    ensures Alike(Await(e, Nested(build), env, l1), f1, env.name,
                  Await(EntryImage(flat, e), if flat then FlatCoro(Nested(build)) else Nested(build),
                        Image(flat, env, name), l2), f2, name)
    decreases QueueWeight(env.queue) + OpsWeight(build) + CallsWeight(e), 4
  {
    hide Same, Outer;
    var w1, w2 := env.name + [e.id], name + [e.id];
    var t1 := Run(Built(w1, build), l1);
    NestedYields(w1, build, l1, env.name);
    if flat {
      var t := Run(Built([], build), []);
      BuiltAlike(w1, [], build, l1, []);
      var ys := Yields(t.log);
      YieldEventsShown(ys, name);
      SameAppend(l1, t1.log[|l1|..], f1, env.name, l2, YieldEvents(ys), f2, name);
      assert l1 + t1.log[|l1|..] == t1.log;
      PureYieldFrom(FlatEntry(e), ys, t.outcome.exc, Image(flat, env, name), l2);
      SameEnd(e.id, t.outcome.exc, env.name, name, t1.log, f1, l2 + YieldEvents(ys), f2);
      AfterCoroAlike(flat, e, t1.outcome.exc, false, env, name, t1.log + [CoroEnded(w1, t.outcome.exc)], f1,
                     l2 + YieldEvents(ys) + [CoroEnded(w2, t.outcome.exc)], f2);
    } else {
      var t2 := Run(Built(w2, build), l2);
      BuiltAlike(w1, w2, build, l1, l2);
      NestedYields(w2, build, l2, name);
      SameAppend(l1, t1.log[|l1|..], f1, env.name, l2, t2.log[|l2|..], f2, name);
      assert l1 + t1.log[|l1|..] == t1.log && l2 + t2.log[|l2|..] == t2.log;
      if t1.outcome.Ended? {
        SameEnd(e.id, t1.outcome.exc, env.name, name, t1.log, f1, t2.log, f2);
        AfterCoroAlike(flat, e, t1.outcome.exc, false, env, name, t1.log + [CoroEnded(w1, t1.outcome.exc)], f1,
                       t2.log + [CoroEnded(w2, t1.outcome.exc)], f2);
      }
    }
  }

  lemma TailUnder(log: Log, from: nat, name: Path)
    requires from <= |log| && AllUnder(log, from, name)
    ensures AllUnder(log[from..], 0, name)
  {
    forall i | 0 <= i < |log[from..]| ensures About(log[from..][i], name) {
      assert log[from..][i] == log[from + i];
    }
  }

  /** What a nested run adds to the log, as its parent shows it. */
  lemma NestedYields(inner: Path, build: seq<Op>, log: Log, name: Path)
    requires |name| < |inner|
    ensures var l := Run(Built(inner, build), log).log;
            log <= l && Outer(l[|log|..], name) == YieldEvents(Yields(l[|log|..]))
  {
    hide Outer, Yields, YieldEvents, About;
    PerformNumbered(build, PyNone, Env(inner, 0, [], None, false));
    RunRouted(Built(inner, build), log, |log|);
    var l := Run(Built(inner, build), log).log;
    TailUnder(l, |log|, inner);
    NestedShowsYields(l[|log|..], name, inner);
  }

  /** The run of an awaitable does not depend on its name or on what was logged before. */
  lemma {:induction false} BuiltAlike(n1: Path, n2: Path, build: seq<Op>, l1: Log, l2: Log)
    ensures var t1, t2 := Run(Built(n1, build), l1), Run(Built(n2, build), l2);
            && t1.outcome == t2.outcome && |l1| <= |t1.log| && |l2| <= |t2.log|
            && Yields(t1.log[|l1|..]) == Yields(t2.log[|l2|..])
    decreases OpsWeight(build), 1
  {
    var start := Env(n1, 0, [], None, false);
    PerformImage(false, build, PyNone, start, n2);
    PerformName(build, PyNone, start);
    assert l1[|l1|..] == [] && l2[|l2|..] == [];
    RunAlike(false, Built(n1, build), n2, l1, |l1|, l2, |l2|);
    hide Outer;
    YieldsShown(Run(Built(n1, build), l1).log[|l1|..], n1);
    YieldsShown(Run(Built(n2, build), l2).log[|l2|..], n2);
  }

  lemma {:induction false} PureYieldFrom(e: Entry, values: seq<Value>, ending: Option<Exc>, env: Env, log: Log)
    ensures YieldFrom(e, PureSteps(values), [], ending, env, log)
            == AfterCoro(e, ending, false, env, log + YieldEvents(values) + [CoroEnded(env.name + [e.id], ending)])
    decreases |values|
  {
    if values == [] {
      assert log + Actions([], env.name) == log + YieldEvents(values) == log;
    } else {
      var log' := log + Actions([], env.name) + [Yielded(values[0])];
      assert PureSteps(values)[1..] == PureSteps(values[1..]);
      PureYieldFrom(e, values[1..], ending, env, log');
      assert log' + YieldEvents(values[1..]) == log + YieldEvents(values);
    }
  }

  lemma {:induction false} CallAlike(
    flat: bool, cb: Callback, arg: Value, call1: Event, call2: Event, env: Env, name: Path,
    l1: Log, f1: nat, l2: Log, f2: nat)
    requires Same(l1, f1, env.name, l2, f2, name) && SameCallback(call1, env.name, call2, name)
    ensures var s := ScriptFor(cb, arg);
            var s2 := ScriptFor(if flat then FlatCallback(cb) else cb, arg);
            var after, after2 := Perform(s.ops, arg, env), Perform(s2.ops, arg, Image(flat, env, name));
            var r1 := Ran(l1, env.name, call1, s);
            var r2 := Ran(l2, name, call2, s2);
            && s2.code == s.code && s2.exc == s.exc && after2 == Image(flat, after, name) && after.name == env.name
            && Same(r1, f1, env.name, r2, f2, name)
            && ((flat ==> Run(after, r1).outcome.Ended?) ==>
                  Alike(Run(after, r1), f1, env.name, Run(after2, r2), f2, name))
            && forall exc :: Same(r1 + [Finished(env.name, exc)], f1, env.name, r2 + [Finished(name, exc)], f2, name)
    decreases QueueWeight(env.queue) + CallbackWeight(cb), 1
  {
    hide Same, Outer;
    var s := ScriptFor(cb, arg);
    ScriptWeight(cb, arg);
    if flat {
      ScriptImage(cb, arg);
    }
    SameCall(flat, call1, call2, s, arg, env, name, l1, f1, l2, f2);
    PerformName(s.ops, arg, env);
    var r1, r2 := Ran(l1, env.name, call1, s), Ran(l2, name, call2, s.(ops := Ops(flat, s.ops)));
    forall exc ensures Same(r1 + [Finished(env.name, exc)], f1, env.name, r2 + [Finished(name, exc)], f2, name) {
      SameFinish(flat, env, name, exc, r1, f1, r2, f2);
    }
    if flat ==> Run(Perform(s.ops, arg, env), r1).outcome.Ended? {
      RunAlike(flat, Perform(s.ops, arg, env), name, r1, f1, r2, f2);
    }
  }

  lemma {:induction false} YieldFromAlike(
    flat: bool, e: Entry, steps: seq<Step>, last: seq<Op>, ending: Option<Exc>, env: Env, name: Path,
    l1: Log, f1: nat, l2: Log, f2: nat)
    requires Same(l1, f1, env.name, l2, f2, name)
    requires flat ==> YieldFrom(e, steps, last, ending, env, l1).outcome.Ended?
    ensures Alike(YieldFrom(e, steps, last, ending, env, l1), f1, env.name,
                  YieldFrom(EntryImage(flat, e), if flat then FlatSteps(steps) else steps, Ops(flat, last), ending,
                            Image(flat, env, name), l2), f2, name)
    decreases QueueWeight(env.queue) + StepsWeight(steps) + OpsWeight(last) + CallsWeight(e), 4
  {
    hide Same, Outer;
    var ops := if steps == [] then last else steps[0].ops;
    var after := Perform(ops, PyNone, env);
    PerformImage(flat, ops, PyNone, env, name);
    PerformName(ops, PyNone, env);
    SameAppend(l1, Actions(ops, env.name), f1, env.name, l2, Actions(Ops(flat, ops), name), f2, name);
    var r1, r2 := l1 + Actions(ops, env.name), l2 + Actions(Ops(flat, ops), name);
    if steps == [] {
      SameEnd(e.id, ending, env.name, name, r1, f1, r2, f2);
      AfterCoroAlike(flat, e, ending, Cancel in last, after, name, r1 + [CoroEnded(env.name + [e.id], ending)], f1,
                     r2 + [CoroEnded(name + [e.id], ending)], f2);
    } else {
      var y := Yielded(steps[0].value);
      SameEvent(r1, y, f1, env.name, r2, y, f2, name);
      if Cancel in ops {
        RunAlike(flat, after, name, r1 + [y], f1, r2 + [y], f2);
      } else {
        YieldFromAlike(flat, e, steps[1..], last, ending, after, name, r1 + [y], f1, r2 + [y], f2);
      }
    }
  }

  lemma {:induction false} AfterCoroAlike(
    flat: bool, e: Entry, ending: Option<Exc>, cancelledNow: bool, env: Env, name: Path,
    l1: Log, f1: nat, l2: Log, f2: nat)
    requires Same(l1, f1, env.name, l2, f2, name)
    requires flat ==> AfterCoro(e, ending, cancelledNow, env, l1).outcome.Ended?
    ensures Alike(AfterCoro(e, ending, cancelledNow, env, l1), f1, env.name,
                  AfterCoro(EntryImage(flat, e), ending, cancelledNow, Image(flat, env, name), l2), f2, name)
    decreases QueueWeight(env.queue) + CallsWeight(e), 3
  {
    hide Same, Outer;
    if !env.cancelled && IsError(ending) {
      OnErrorAlike(flat, e, ending.value, env, name, l1, f1, l2, f2);
    } else if env.cancelled || e.callback.None? {
      if !IsError(ending) && (env.cancelled ==> cancelledNow) {
        RunAlike(flat, env, name, l1, f1, l2, f2);
      }
    } else {
      var value := ReturnValue(ending);
      var s := ScriptFor(e.callback.value, value);
      var c1, c2 := CalledBack(env.name + [e.id], value), CalledBack(name + [e.id], value);
      ScriptWeight(e.callback.value, value);
      CallAlike(flat, e.callback.value, value, c1, c2, env, name, l1, f1, l2, f2);
      var after := Perform(s.ops, value, env);
      if s.exc.Some? && s.code == -1 && !after.cancelled {
        OnErrorAlike(flat, e, s.exc.value, after, name, Ran(l1, env.name, c1, s), f1,
                     Ran(l2, name, c2, ScriptFor(EntryImage(flat, e).callback.value, value)), f2);
      }
    }
  }

  lemma {:induction false} OnErrorAlike(
    flat: bool, e: Entry, x: Exc, env: Env, name: Path, l1: Log, f1: nat, l2: Log, f2: nat)
    requires Same(l1, f1, env.name, l2, f2, name)
    requires flat ==> OnError(e, x, env, l1).outcome.Ended?
    ensures Alike(OnError(e, x, env, l1), f1, env.name,
                  OnError(EntryImage(flat, e), x, Image(flat, env, name), l2), f2, name)
    decreases QueueWeight(env.queue) + MaybeWeight(e.errCallback), 2
  {
    hide Same, Outer;
    if e.errCallback.None? {
      SameFinish(flat, env, name, Some(x), l1, f1, l2, f2);
    } else {
      CallAlike(flat, e.errCallback.value, ExcObj(x), CalledError(env.name + [e.id], x),
                CalledError(name + [e.id], x), env, name, l1, f1, l2, f2);
    }
  }

  // ---- Results ----

  /** Where an awaitable runs, under which name and after which log, makes no difference to the
      values it yields and to how it ends: it is a coroutine like any other. */
  lemma NestedIsACoroutine(n1: Path, n2: Path, build: seq<Op>, l1: Log, l2: Log)
    ensures var t1 := Drive(M.Await(M.Built(n1, build)), l1);
            var t2 := Drive(M.Await(M.Built(n2, build)), l2);
            && t1.outcome == t2.outcome && |l1| <= |t1.log| && |l2| <= |t2.log|
            && Yields(t1.log[|l1|..]) == Yields(t2.log[|l2|..])
  {
    BuiltAlike(n1, n2, build, l1, l2);
    WholeRun(n1, build, l1);
    WholeRun(n2, build, l2);
  }

  /** Replacing every awaitable that is nested anywhere, in the queue, in the calls that coroutines
      and callbacks make, to any depth, by a plain coroutine with the yields and the outcome of its
      own run changes nothing that the outer awaitable shows, for every run that stays inside
      defined behaviour. */
  lemma FlatteningPreservesMeaning(name: Path, build: seq<Op>)
    requires Drive(M.Await(M.Built(name, build)), []).outcome.Ended?
    ensures var t1 := Drive(M.Await(M.Built(name, build)), []);
            var t2 := Drive(M.Await(M.Built(name, FlatOps(build))), []);
            t1.outcome == t2.outcome && Outer(t1.log, name) == Outer(t2.log, name)
  {
    WholeRun(name, build, []);
    WholeRun(name, FlatOps(build), []);
    var start := Env(name, 0, [], None, false);
    PerformImage(true, build, PyNone, start, name);
    PerformName(build, PyNone, start);
    assert Image(true, start, name) == start;
    RunAlike(true, Built(name, build), name, [], 0, [], 0);
    var t1, t2 := Run(Built(name, build), []), Run(Built(name, FlatOps(build)), []);
    assert t1.log[0..] == t1.log && t2.log[0..] == t2.log;
  }
}
