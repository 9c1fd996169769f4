/** Error routing over whole runs: in what order, and how often, the callbacks of an awaitable and
    of all awaitables nested in it are called. */
module Routing {
  import opened PyObjects
  import opened UserCode
  import opened Reference
  import opened Refinement
  import M = Machine

  /** The events that belong to one entry. */
  predicate HasEntry(ev: Event) {
    !ev.Yielded? && !ev.Acted? && !ev.Finished?
  }

  predicate IsCall(ev: Event) {
    HasEntry(ev) && ev.who != []
  }

  /** The stages of an entry: it is started; rank 1 is the place of what an awaitable that it waits
      for does; its coroutine ends, or its `__await__` fails; its result callback is called and
      returns; its error callback is called and returns. */
  function Rank(ev: Event): nat {
    match ev
    case CoroEnded(_, _) => 2
    case AwaitFailed(_, _) => 2
    case CalledBack(_, _) => 3
    case Returned(_, FromDefer, _, _) => 1
    case Returned(_, FromCallback, _, _) => 4
    case CalledError(_, _) => 5
    case Returned(_, FromHandler(_), _, _) => 6
    case _ => 0
  }

  function Parent(ev: Event): Path
    requires IsCall(ev)
  {
    ev.who[..|ev.who| - 1]
  }

  function Id(ev: Event): nat
    requires IsCall(ev)
  {
    ev.who[|ev.who| - 1]
  }

  /** The entry or the awaitable that the event belongs to. */
  function Whose(ev: Event): Path
    requires !ev.Yielded?
  {
    if ev.Acted? || ev.Finished? then ev.aw else ev.who
  }

  /** The event belongs to an entry at depth `n` itself, not to what is nested in one. */
  predicate IsOwn(ev: Event, n: nat) {
    HasEntry(ev) && |ev.who| == n + 1
  }

  /** The stage, at depth `n`, of the entry that the event belongs to or is nested in. */
  function Place(ev: Event, n: nat): nat {
    if IsOwn(ev, n) then Rank(ev) else 1
  }

  /** Two events whose paths agree up to depth `n` belong to entries of the same awaitable, or to what
      is nested in them. They come in order of allocation; within one entry in order of stage, what is
      nested in it all at stage 1. */
  predicate InPlace(x: Event, y: Event, n: nat)
    requires !x.Yielded? && !y.Yielded? && n < |Whose(x)| && n < |Whose(y)|
  {
    || Whose(x)[n] < Whose(y)[n]
    || (Whose(x)[n] == Whose(y)[n] && (Place(x, n) < Place(y, n) || (!IsOwn(x, n) && !IsOwn(y, n))))
  }

  /** The events are in order at every depth at which their paths meet. */
  predicate Precedes(x: Event, y: Event) {
    !x.Yielded? && !y.Yielded? ==>
      forall n :: 0 <= n < |Whose(x)| && n < |Whose(y)| && Whose(x)[..n] == Whose(y)[..n] ==> InPlace(x, y, n)
  }

  /** What was logged from index `from` on is in order. */
  ghost predicate InOrder(log: Log, from: nat) {
    forall i, j :: from <= i < j < |log| ==> Precedes(log[i], log[j])
  }

  predicate Under(who: Path, name: Path) {
    |name| < |who| && who[..|name|] == name
  }

  /** The event is about an entry of `name`, or about something nested in one. */
  predicate About(ev: Event, name: Path) {
    && (IsCall(ev) ==> Under(ev.who, name))
    && (ev.Acted? || ev.Finished? ==> ev.aw == name || Under(ev.aw, name))
    && (HasEntry(ev) ==> IsCall(ev))
  }

  /** The event is about an entry of `name`, or about something nested in one, and not about `name`
      itself. */
  predicate IsUnder(ev: Event, name: Path) {
    !ev.Yielded? && |Whose(ev)| > |name|
  }

  /** About an entry of `name` below `hi`, or something nested in such an entry, if about any. */
  predicate IsBelow(ev: Event, name: Path, hi: nat) {
    About(ev, name) && (IsUnder(ev, name) ==> Whose(ev)[|name|] < hi)
  }

  /** The same, or about entry `id`, up to `stage`. */
  predicate IsUpTo(ev: Event, name: Path, id: nat, stage: nat) {
    About(ev, name) && (IsUnder(ev, name) ==>
      && Whose(ev)[|name|] <= id
      && (Whose(ev)[|name|] == id ==> Place(ev, |name|) < stage))
  }

  ghost predicate Below(log: Log, from: nat, name: Path, hi: nat) {
    forall i :: from <= i < |log| ==> IsBelow(log[i], name, hi)
  }

  ghost predicate UpTo(log: Log, from: nat, name: Path, id: nat, stage: nat) {
    forall i :: from <= i < |log| ==> IsUpTo(log[i], name, id, stage)
  }

  ghost predicate AllUnder(log: Log, from: nat, name: Path) {
    forall i :: from <= i < |log| ==> About(log[i], name)
  }

  // ---- The ids of the queue ----

  function First(env: Env): int {
    env.next - |env.queue|
  }

  /** The queue holds the last allocated entries, in order. */
  ghost predicate Numbered(env: Env) {
    First(env) >= 0 && forall i :: 0 <= i < |env.queue| ==> env.queue[i].id == First(env) + i
  }

  lemma ApplyNumbered(op: Op, arg: Value, env: Env)
    requires Numbered(env)
    ensures var r := Apply(op, arg, env); Numbered(r) && First(r) >= First(env) && r.name == env.name
  {
    if IsAdd(op) {
      var r := Apply(op, arg, env);
      assert r.queue == env.queue + [EntryOf(op, env.next)] && First(r) == First(env);
    }
  }

  lemma {:induction false} PerformNumbered(ops: seq<Op>, arg: Value, env: Env)
    requires Numbered(env)
    ensures var r := Perform(ops, arg, env); Numbered(r) && First(r) >= First(env) && r.name == env.name
  {
    if ops == [] {
    } else {
      ApplyNumbered(ops[0], arg, env);
      PerformNumbered(ops[1..], arg, Apply(ops[0], arg, env));
    }
  }

  // ---- Extending the log ----

  /** What belongs to the awaitable itself may be logged at any time. */
  lemma AddSilent(log: Log, more: Log, from: nat, name: Path, id: nat, stage: nat)
    requires from <= |log| && InOrder(log, from) && UpTo(log, from, name, id, stage)
    requires forall i :: 0 <= i < |more| ==> IsOf(more[i], name)
    ensures InOrder(log + more, from) && UpTo(log + more, from, name, id, stage)
  {
    AddOwn(log, more, from, name);
    forall i | from <= i < |log + more| ensures IsUpTo((log + more)[i], name, id, stage) {
      assert i >= |log| ==> IsOf(more[i - |log|], name);
    }
  }

  /** A yield, or something that belongs to `name` itself. */
  predicate IsOf(ev: Event, name: Path) {
    ev.Yielded? || ((ev.Acted? || ev.Finished?) && ev.aw == name)
  }

  lemma AddOwn(log: Log, more: Log, from: nat, name: Path)
    requires from <= |log| && InOrder(log, from) && AllUnder(log, from, name)
    requires forall i :: 0 <= i < |more| ==> IsOf(more[i], name)
    ensures InOrder(log + more, from) && AllUnder(log + more, from, name)
  {
    var l := log + more;
    forall i | from <= i < |l| ensures About(l[i], name) {
      assert i >= |log| ==> IsOf(more[i - |log|], name);
    }
    forall i, j | from <= i < j < |l| ensures Precedes(l[i], l[j]) {
      if j >= |log| {
        assert IsOf(more[j - |log|], name);
        OwnComesAfter(l[i], l[j], name);
      }
    }
  }

  /** The next stage of entry `id`. */
  lemma AddStage(log: Log, from: nat, name: Path, id: nat, stage: nat, ev: Event)
    requires from <= |log| && InOrder(log, from) && UpTo(log, from, name, id, stage)
    requires IsCall(ev) && ev.who == name + [id] && Rank(ev) >= stage
    ensures InOrder(log + [ev], from) && UpTo(log + [ev], from, name, id, Rank(ev) + 1)
  {
    forall i | from <= i < |log| ensures Precedes(log[i], ev) {
      assert IsUpTo(log[i], name, id, stage);
      StageComesAfter(log[i], ev, name, id, stage);
    }
  }

  /** A callback of entry `id` is called, acts and returns. */
  lemma AddCall(log: Log, from: nat, name: Path, id: nat, stage: nat, call: Event, s: Script)
    requires from <= |log| && InOrder(log, from) && UpTo(log, from, name, id, stage)
    requires IsCallback(call) && call.who == name + [id] && Rank(call) >= stage
    ensures InOrder(Ran(log, name, call, s), from) && UpTo(Ran(log, name, call, s), from, name, id, Rank(call) + 2)
  {
    var l := log + [call];
    AddStage(log, from, name, id, stage, call);
    ActionsAreActed(s.ops, name);
    AddSilent(l, Actions(s.ops, name), from, name, id, Rank(call) + 1);
    AddStage(l + Actions(s.ops, name), from, name, id, Rank(call) + 1, ReturnOf(call, s));
  }

  /** The whole run of an awaitable that entry `id` waits for. */
  lemma AddNested(log: Log, l: Log, from: nat, name: Path, id: nat)
    requires from <= |log| && InOrder(log, from) && UpTo(log, from, name, id, 1)
    requires log <= l && InOrder(l, |log|) && AllUnder(l, |log|, name + [id])
    ensures InOrder(l, from) && UpTo(l, from, name, id, 2)
  {
    forall i | from <= i < |l| ensures IsUpTo(l[i], name, id, 2) {
      if i < |log| {
        assert IsUpTo(log[i], name, id, 1);
      } else {
        AboutNested(l[i], name, id);
      }
    }
    forall i, j | from <= i < j < |l| ensures Precedes(l[i], l[j]) {
      if i < |log| <= j {
        assert IsUpTo(log[i], name, id, 1);
        NestedComesAfter(l[i], l[j], name, id);
      }
    }
  }

  lemma AboutNested(ev: Event, name: Path, id: nat)
    requires About(ev, name + [id])
    ensures IsUpTo(ev, name, id, 2)
  {
    if !ev.Yielded? {
      assert Whose(ev)[..|name| + 1] == name + [id];
      assert Whose(ev)[..|name|] == name;
    }
  }

  /** Above the depth of `name`, events about it are nested in the same entries. */
  lemma SameAbove(x: Event, y: Event, name: Path, n: nat)
    requires !x.Yielded? && !y.Yielded? && About(x, name) && About(y, name) && n < |name|
    ensures InPlace(x, y, n)
  {
    assert Whose(x)[..|name|][n] == Whose(y)[..|name|][n] == name[n];
  }

  /** What belongs to `name` itself may come at any time. */
  lemma OwnComesAfter(x: Event, y: Event, name: Path)
    requires About(x, name) && IsOf(y, name)
    ensures Precedes(x, y)
  {
    if !x.Yielded? && !y.Yielded? {
      forall n | 0 <= n < |Whose(x)| && n < |Whose(y)| && Whose(x)[..n] == Whose(y)[..n] ensures InPlace(x, y, n) {
        SameAbove(x, y, name, n);
      }
    }
  }

  lemma StageComesAfter(x: Event, y: Event, name: Path, id: nat, stage: nat)
    requires IsUpTo(x, name, id, stage) && IsCall(y) && y.who == name + [id] && Rank(y) >= stage
    ensures Precedes(x, y)
  {
    if !x.Yielded? {
      forall n | 0 <= n < |Whose(x)| && n < |Whose(y)| && Whose(x)[..n] == Whose(y)[..n] ensures InPlace(x, y, n) {
        if n < |name| {
          SameAbove(x, y, name, n);
        }
      }
    }
  }

  lemma NestedComesAfter(x: Event, y: Event, name: Path, id: nat)
    requires IsUpTo(x, name, id, 1) && About(y, name + [id])
    ensures Precedes(x, y)
  {
    if !x.Yielded? && !y.Yielded? {
      assert Whose(y)[..|name| + 1] == name + [id];
      AboutNested(y, name, id);
      forall n | |name| < n < |Whose(x)| && n < |Whose(y)| ensures Whose(x)[..n] != Whose(y)[..n] {
        assert Whose(x)[..n][|name|] < id == Whose(y)[..n][|name|];
      }
      forall n | 0 <= n < |Whose(x)| && n < |Whose(y)| && Whose(x)[..n] == Whose(y)[..n] ensures InPlace(x, y, n) {
        if n < |name| {
          SameAbove(x, y, name, n);
        }
      }
    }
  }

  // ---- Whole runs ----

  /** `l` extends `log`, and from `from` on it is in order and about `name`. */
  ghost predicate Routed(log: Log, l: Log, from: nat, name: Path) {
    log <= l && InOrder(l, from) && AllUnder(l, from, name)
  }

  /** The run of `name` ends. */
  lemma FinishRouted(env: Env, exc: Option<Exc>, log: Log, from: nat)
    requires from <= |log| && InOrder(log, from) && AllUnder(log, from, env.name)
    ensures Routed(log, Finish(env, exc, log).log, from, env.name)
  {
    AddOwn(log, [Finished(env.name, exc)], from, env.name);
  }

  lemma {:induction false} RunRouted(env: Env, log: Log, from: nat)
    requires Numbered(env) && from <= |log| && InOrder(log, from) && Below(log, from, env.name, First(env))
    ensures Routed(log, Run(env, log).log, from, env.name)
    decreases QueueWeight(env.queue), 0
  {
    if env.queue == [] {
      assert forall i :: from <= i < |log| ==> IsBelow(log[i], env.name, First(env));
      FinishRouted(env, Some(FinalStop(env.result)), log, from);
    } else {
      var e, rest := env.queue[0], env.(queue := env.queue[1..]);
      var who := env.name + [e.id];
      assert UpTo(log, from, env.name, e.id, 0) by {
        assert forall i :: from <= i < |log| ==> IsBelow(log[i], env.name, e.id);
      }
      match e.coro
      case None =>
        UpToIsBelow(log, from, env.name, e.id, 0, First(rest));
        hide InOrder, UpTo, Below;
        if e.callback.Some? {
          ScriptRouted(e, Deferred(who), e.callback.value, PyNone, 0, rest, log, from);
        }
      case Some(coro) =>
        RunFront(env, coro, log);
        hide InOrder, UpTo, Below;
        FrontRouted(e, coro, rest, log, from);
    }
  }

  lemma {:induction false} FrontRouted(e: Entry, coro: Coro, env: Env, log: Log, from: nat)
    requires Numbered(env) && from <= |log| && InOrder(log, from)
    requires UpTo(log, from, env.name, e.id, 0) && e.id < First(env)
    ensures Routed(log, Started(e, coro, env, log).log, from, env.name)
    decreases QueueWeight(env.queue) + CoroWeight(coro) + CallsWeight(e), 5
  {
    hide InOrder, Below;
    var who := env.name + [e.id];
    var l := log + [Awaiting(who)];
    AddStage(log, from, env.name, e.id, 0, Awaiting(who));
    match coro
    case NotAwaited(x) =>
      AddStage(l, from, env.name, e.id, 1, AwaitFailed(who, x));
      assert l + [AwaitFailed(who, x)] == log + [Awaiting(who), AwaitFailed(who, x)];
      OnErrorRouted(e, x, env, log + [Awaiting(who), AwaitFailed(who, x)], from, 3);
    case Plain(steps, last, ending) =>
      YieldFromRouted(e, steps, last, ending, env, l, from);
    case Nested(build) =>
      var t := Run(Built(who, build), l);
      NestedRouted(e, build, env, l, from);
      if t.outcome.Ended? {
        AddStage(t.log, from, env.name, e.id, 2, CoroEnded(who, t.outcome.exc));
        AfterCoroRouted(e, t.outcome.exc, false, env, t.log + [CoroEnded(who, t.outcome.exc)], from);
      } else {
        UpToIsBelow(t.log, from, env.name, e.id, 2, First(env));
      }
  }

  lemma {:induction false} NestedRouted(e: Entry, build: seq<Op>, env: Env, log: Log, from: nat)
    requires from <= |log| && InOrder(log, from) && UpTo(log, from, env.name, e.id, 1)
    ensures var l := Run(Built(env.name + [e.id], build), log).log;
            log <= l && InOrder(l, from) && UpTo(l, from, env.name, e.id, 2)
    decreases OpsWeight(build), 1
  {
    var who := env.name + [e.id];
    PerformNumbered(build, PyNone, Env(who, 0, [], None, false));
    RunRouted(Built(who, build), log, |log|);
    AddNested(log, Run(Built(who, build), log).log, from, env.name, e.id);
  }

  /** A callback of `e` is called with `arg`; after it the run goes on, or ends. */
  lemma {:induction false} ScriptRouted(
    e: Entry, call: Event, cb: Callback, arg: Value, stage: nat, env: Env, log: Log, from: nat)
    requires Numbered(env) && from <= |log| && InOrder(log, from)
    requires UpTo(log, from, env.name, e.id, stage) && e.id < First(env)
    requires IsCallback(call) && call.who == env.name + [e.id] && Rank(call) >= stage
    ensures var s := ScriptFor(cb, arg);
            var log' := Ran(log, env.name, call, s);
            var after := Perform(s.ops, arg, env);
            && Numbered(after) && First(after) >= First(env) && after.name == env.name
            && Routed(log, log', from, env.name) && UpTo(log', from, env.name, e.id, Rank(call) + 2)
            && Routed(log, Run(after, log').log, from, env.name)
            && forall exc :: Routed(log, Finish(env, exc, log').log, from, env.name)
    decreases QueueWeight(env.queue) + CallbackWeight(cb), 1
  {
    var s := ScriptFor(cb, arg);
    ScriptWeight(cb, arg);
    PerformNumbered(s.ops, arg, env);
    AddCall(log, from, env.name, e.id, stage, call, s);
    var log' := Ran(log, env.name, call, s);
    UpToIsBelow(log', from, env.name, e.id, Rank(call) + 2, First(Perform(s.ops, arg, env)));
    RunRouted(Perform(s.ops, arg, env), log', from);
    forall exc ensures Routed(log, Finish(env, exc, log').log, from, env.name) {
      FinishRouted(env, exc, log', from);
    }
  }

  lemma UpToIsBelow(log: Log, from: nat, name: Path, id: nat, stage: nat, hi: nat)
    requires UpTo(log, from, name, id, stage) && id < hi
    ensures Below(log, from, name, hi) && AllUnder(log, from, name)
  {
    forall i | from <= i < |log| ensures IsBelow(log[i], name, hi) {
      assert IsUpTo(log[i], name, id, stage);
    }
    forall i | from <= i < |log| ensures About(log[i], name) {
      assert IsUpTo(log[i], name, id, stage);
    }
  }

  lemma {:induction false} YieldFromRouted(
    e: Entry, steps: seq<Step>, last: seq<Op>, ending: Option<Exc>, env: Env, log: Log, from: nat)
    requires Numbered(env) && from <= |log| && InOrder(log, from)
    requires UpTo(log, from, env.name, e.id, 2) && e.id < First(env)
    ensures Routed(log, YieldFrom(e, steps, last, ending, env, log).log, from, env.name)
    decreases QueueWeight(env.queue) + StepsWeight(steps) + OpsWeight(last) + CallsWeight(e), 4
  {
    var ops := if steps == [] then last else steps[0].ops;
    var after := Perform(ops, PyNone, env);
    PerformNumbered(ops, PyNone, env);
    ActionsAreActed(ops, env.name);
    AddSilent(log, Actions(ops, env.name), from, env.name, e.id, 2);
    if steps == [] {
      var end := CoroEnded(env.name + [e.id], ending);
      AddStage(log + Actions(ops, env.name), from, env.name, e.id, 2, end);
      AfterCoroRouted(e, ending, Cancel in last, after, log + Actions(ops, env.name) + [end], from);
    } else {
      var log' := log + Actions(ops, env.name) + [Yielded(steps[0].value)];
      AddSilent(log + Actions(ops, env.name), [Yielded(steps[0].value)], from, env.name, e.id, 2);
      if Cancel in ops {
        UpToIsBelow(log', from, env.name, e.id, 2, First(after));
        RunRouted(after, log', from);
      } else {
        YieldFromRouted(e, steps[1..], last, ending, after, log', from);
      }
    }
  }

  lemma {:induction false} AfterCoroRouted(
    e: Entry, ending: Option<Exc>, cancelledNow: bool, env: Env, log: Log, from: nat)
    requires Numbered(env) && from <= |log| && InOrder(log, from)
    requires UpTo(log, from, env.name, e.id, 3) && e.id < First(env)
    ensures Routed(log, AfterCoro(e, ending, cancelledNow, env, log).log, from, env.name)
    decreases QueueWeight(env.queue) + CallsWeight(e), 3
  {
    UpToIsBelow(log, from, env.name, e.id, 3, First(env));
    if !env.cancelled && IsError(ending) {
      OnErrorRouted(e, ending.value, env, log, from, 3);
    } else if env.cancelled || e.callback.None? {
      RunRouted(env, log, from);
    } else {
      var value := ReturnValue(ending);
      var s := ScriptFor(e.callback.value, value);
      var call := CalledBack(env.name + [e.id], value);
      ScriptWeight(e.callback.value, value);
      ScriptRouted(e, call, e.callback.value, value, 3, env, log, from);
      var after := Perform(s.ops, value, env);
      if s.exc.Some? && s.code == -1 && !after.cancelled {
        OnErrorRouted(e, s.exc.value, after, Ran(log, env.name, call, s), from, 5);
      }
    }
  }

  lemma {:induction false} OnErrorRouted(e: Entry, x: Exc, env: Env, log: Log, from: nat, stage: nat)
    requires Numbered(env) && from <= |log| && InOrder(log, from)
    requires UpTo(log, from, env.name, e.id, stage) && e.id < First(env) && stage <= 5
    ensures Routed(log, OnError(e, x, env, log).log, from, env.name)
    decreases QueueWeight(env.queue) + MaybeWeight(e.errCallback), 2
  {
    UpToIsBelow(log, from, env.name, e.id, stage, First(env));
    if e.errCallback.None? {
      FinishRouted(env, Some(x), log, from);
    } else {
      ScriptRouted(e, CalledError(env.name + [e.id], x), e.errCallback.value, ExcObj(x), stage, env, log, from);
    }
  }

  /** Over the whole run of an awaitable built by any calls, with any awaitables nested in it to any
      depth: each entry is started at most once, its coroutine ends at most once, its result callback
      and its error callback are called at most once; the result callback is never called after the
      error callback; the entries of one awaitable run one after the other, in order of allocation; and
      all that is nested in an entry comes after its start, before the end of its coroutine and before
      later entries. */
  lemma WholeRunRouted(name: Path, build: seq<Op>)
    ensures var log := Drive(M.Await(M.Built(name, build)), []).log;
            && AllUnder(log, 0, name)
            && forall i, j :: 0 <= i < j < |log| ==> Precedes(log[i], log[j])
  {
    PerformNumbered(build, PyNone, Env(name, 0, [], None, false));
    RunRouted(Built(name, build), [], 0);
    WholeRun(name, build, []);
  }

  /** What the order says of a nested awaitable: whatever happens in it, to any depth, lies between
      the start of the entry that waits for it and the end of its coroutine, and before anything that
      happens on behalf of a later entry. */
  lemma NestedRunsInside(name: Path, build: seq<Op>, i: nat, j: nat)
    requires var log := Drive(M.Await(M.Built(name, build)), []).log;
             i < |log| && j < |log| && !log[i].Yielded? && IsCall(log[j])
    ensures var log := Drive(M.Await(M.Built(name, build)), []).log;
            var w, n := log[j].who, |log[j].who| - 1;
            && (w <= Whose(log[i]) && !IsOwn(log[i], n) ==>
                  (log[j].Awaiting? ==> j < i) && (log[j].CoroEnded? ==> i < j))
            && (w[..n] <= Whose(log[i]) && n < |Whose(log[i])| && Whose(log[i])[n] < w[n] ==> i < j)
  {
    var log := Drive(M.Await(M.Built(name, build)), []).log;
    WholeRunRouted(name, build);
    var x, y, n := log[i], log[j], |log[j].who| - 1;
    if n < |Whose(x)| && y.who[..n] <= Whose(x) {
      assert Whose(x)[..n] == y.who[..n];
      assert i < j ==> InPlace(x, y, n);
      assert j < i ==> InPlace(y, x, n);
    }
    assert y.who <= Whose(x) ==> y.who[..n] <= Whose(x) && Whose(x)[n] == y.who[n];
  }
}
