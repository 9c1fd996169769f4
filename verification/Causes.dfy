/** Why callbacks are called and how a run goes on after each return code, as a rule about
    neighbouring events that every log of every run obeys, at every depth. */
module Causes {
  import opened PyObjects
  import opened UserCode
  import opened Reference
  import opened Refinement
  import opened Routing
  import M = Machine

  /** The awaitable goes on with its queue: its next entry is started, or it ends with a result. */
  predicate GoesOn(aw: Path, y: Event) {
    || ((y.Awaiting? || y.Deferred?) && IsCall(y) && Parent(y) == aw)
    || (y.Finished? && y.aw == aw && y.end.Some? && y.end.value.StopIteration?)
  }

  /** The run of the awaitable ends with `end` set. */
  predicate Ends(aw: Path, end: Option<Exc>, y: Event) {
    y == Finished(aw, end)
  }

  /** What may come right after event `x`.
      - A coroutine ended with an error, or `__await__` raised: the error callback is called with that
        exception, or the run ends with it. A coroutine ended otherwise: the result callback is called
        with its value, or the run goes on.
      - A callback returned 0 or more: the run goes on. Less, from a deferred callback: the run ends
        with what it left set.
      - From a result callback: without an exception, SystemError; below -1, what it left; -1, the error
        callback is called with what it left, or the run ends with it.
      - From an error callback: -1, the run ends with the exception that was handled; below, with what
        it left.
      - The run of a nested awaitable ended: the entry that waits for it ends in the same way.
      - After anything else no callback but a deferred one is called, and a run ends with a result. */
  predicate MayFollow(x: Event, y: Event) {
    match x
    case CoroEnded(w, ending) =>
      IsCall(x) &&
      (if IsError(ending) then y == CalledError(w, ending.value) || Ends(Parent(x), ending, y)
       else y == CalledBack(w, ReturnValue(ending)) || GoesOn(Parent(x), y))
    case AwaitFailed(w, e) =>
      IsCall(x) && (y == CalledError(w, e) || Ends(Parent(x), Some(e), y))
    case Returned(w, from, code, left) =>
      IsCall(x) &&
      (if code >= 0 then GoesOn(Parent(x), y)
       else
         match from
         case FromDefer => Ends(Parent(x), left, y)
         case FromHandler(handled) => Ends(Parent(x), if code == -1 then Some(handled) else left, y)
         case FromCallback =>
           if left.None? then Ends(Parent(x), Some(SystemError), y)
           else if code < -1 then Ends(Parent(x), left, y)
           else y == CalledError(w, left.value) || Ends(Parent(x), left, y))
    case Finished(aw, end) => y == CoroEnded(aw, end)
    case _ =>
      !y.CalledBack? && !y.CalledError? && (y.Finished? ==> y.end.Some? && y.end.value.StopIteration?)
  }

  /** Result and error callbacks have causes. */
  predicate NeedsCause(y: Event) {
    y.CalledBack? || y.CalledError?
  }

  /** From index `from` on, each event may follow the one before it, and the first needs none. */
  ghost predicate Linked(log: Log, from: nat) {
    && (|log| > from ==> !NeedsCause(log[from]))
    && (forall i :: from <= i && i + 1 < |log| ==> MayFollow(log[i], log[i + 1]))
  }

  /** What a callback was called for, as its return says it: for an error callback, the exception that
      it was given. */
  function FromOf(call: Event): From
    requires IsCallback(call)
  {
    match call
    case Deferred(_) => FromDefer
    case CalledBack(_, _) => FromCallback
    case CalledError(_, x) => FromHandler(x)
  }

  /** The callback called at index `j` returns at index `i`, and in between it only acts. */
  ghost predicate Answers(log: Log, j: nat, i: nat) {
    && j < i < |log| && IsCallback(log[j]) && IsCall(log[j])
    && log[i].Returned? && log[i].who == log[j].who && log[i].from == FromOf(log[j])
    && forall k :: j < k < i ==> log[k].Acted? && log[k].aw == Parent(log[j])
  }

  ghost predicate HasCall(log: Log, from: nat, i: nat) {
    exists j :: from <= j && Answers(log, j, i)
  }

  ghost predicate HasReturn(log: Log, j: nat) {
    exists i :: Answers(log, j, i)
  }

  /** From index `from` on, every return answers a call, and every call is answered. */
  ghost predicate Paired(log: Log, from: nat) {
    && (forall i :: from <= i < |log| && log[i].Returned? ==> HasCall(log, from, i))
    && (forall j :: from <= j < |log| && IsCallback(log[j]) ==> HasReturn(log, j))
  }

  ghost predicate Caused(log: Log, from: nat) {
    Linked(log, from) && Paired(log, from)
  }

  /** `y` may be logged next. */
  ghost predicate MayAdd(log: Log, from: nat, y: Event) {
    if |log| > from then MayFollow(log[|log| - 1], y) else !NeedsCause(y)
  }

  /** The awaitable may go on with its queue. */
  ghost predicate MayGoOn(log: Log, from: nat, aw: Path) {
    forall y :: GoesOn(aw, y) ==> MayAdd(log, from, y)
  }

  lemma Link(log: Log, from: nat, y: Event)
    requires from <= |log| && Linked(log, from) && MayAdd(log, from, y)
    ensures Linked(log + [y], from)
  {
  }

  /** The event neither calls a callback nor is the return of one. */
  predicate IsPlain(y: Event) {
    !IsCallback(y) && !y.Returned?
  }

  lemma StillAnswers(log: Log, more: Log, j: nat, i: nat)
    requires Answers(log, j, i)
    ensures Answers(log + more, j, i)
  {
  }

  lemma StillPaired(log: Log, more: Log, from: nat, i: nat)
    requires from <= i < |log| && Paired(log, from)
    ensures log[i].Returned? ==> HasCall(log + more, from, i)
    ensures IsCallback(log[i]) ==> HasReturn(log + more, i)
  {
    hide Answers;
    if log[i].Returned? {
      assert HasCall(log, from, i);
      var j :| from <= j && Answers(log, j, i);
      StillAnswers(log, more, j, i);
    }
    if IsCallback(log[i]) {
      assert HasReturn(log, i);
      var k :| Answers(log, i, k);
      StillAnswers(log, more, i, k);
    }
  }

  lemma PairedAppend(log: Log, from: nat, more: Log)
    requires from <= |log| && Paired(log, from)
    requires forall i :: 0 <= i < |more| ==> IsPlain(more[i])
    ensures Paired(log + more, from)
  {
    forall i | from <= i < |log + more|
      ensures (log + more)[i].Returned? ==> HasCall(log + more, from, i)
      ensures IsCallback((log + more)[i]) ==> HasReturn(log + more, i)
    {
      if i < |log| {
        StillPaired(log, more, from, i);
      } else {
        assert IsPlain(more[i - |log|]);
      }
    }
  }

  /** A callback that acts and returns. */
  lemma PairedRan(log: Log, from: nat, aw: Path, call: Event, s: Script)
    requires from <= |log| && Paired(log, from) && IsCallback(call) && IsCall(call) && Parent(call) == aw
    ensures Paired(Ran(log, aw, call, s), from)
  {
    var more := [call] + Actions(s.ops, aw) + [ReturnOf(call, s)];
    var l, start, end := log + more, |log|, |log| + |more| - 1;
    ActionsAreActed(s.ops, aw);
    assert l == Ran(log, aw, call, s);
    assert forall k :: start < k < end ==> l[k] == Actions(s.ops, aw)[k - start - 1];
    assert Answers(l, start, end);
    hide Answers;
    assert HasCall(l, from, end) && HasReturn(l, start);
    forall i | from <= i < |l|
      ensures l[i].Returned? ==> HasCall(l, from, i)
      ensures IsCallback(l[i]) ==> HasReturn(l, i)
    {
      if i < start {
        StillPaired(log, more, from, i);
      } else {
        assert start < i < end ==> l[i].Acted?;
      }
    }
  }

  lemma Add(log: Log, from: nat, y: Event)
    requires from <= |log| && Caused(log, from) && MayAdd(log, from, y) && IsPlain(y)
    ensures Caused(log + [y], from)
  {
    hide Linked, Paired;
    Link(log, from, y);
    PairedAppend(log, from, [y]);
  }

  /** Actions may follow whatever is not the end of something. */
  lemma LinkActions(log: Log, from: nat, ops: seq<Op>, aw: Path)
    requires from < |log| && Linked(log, from) && IsOpen(log[|log| - 1])
    ensures var l := log + Actions(ops, aw);
            Linked(l, from) && IsOpen(l[|l| - 1]) && log <= l
  {
    ActionsAreActed(ops, aw);
    var l := log + Actions(ops, aw);
    forall i | from <= i && i + 1 < |l| ensures MayFollow(l[i], l[i + 1]) {
      if i + 1 >= |log| {
        assert l[i + 1] == Actions(ops, aw)[i + 1 - |log|];
        assert i >= |log| ==> l[i] == Actions(ops, aw)[i - |log|];
      }
    }
  }

  lemma AddActions(log: Log, from: nat, ops: seq<Op>, aw: Path)
    requires from < |log| && Caused(log, from) && IsOpen(log[|log| - 1])
    ensures var l := log + Actions(ops, aw);
            Caused(l, from) && IsOpen(l[|l| - 1]) && log <= l
  {
    ActionsAreActed(ops, aw);
    LinkActions(log, from, ops, aw);
    PairedAppend(log, from, Actions(ops, aw));
  }

  predicate IsOpen(x: Event) {
    !x.CoroEnded? && !x.AwaitFailed? && !x.Returned? && !x.Finished?
  }

  /** A callback is called, acts and returns. */
  lemma AddCall(log: Log, from: nat, aw: Path, call: Event, s: Script)
    requires from <= |log| && Caused(log, from) && MayAdd(log, from, call)
    requires IsCallback(call) && IsCall(call) && Parent(call) == aw
    ensures var l := Ran(log, aw, call, s);
            Caused(l, from) && |l| > from && l[|l| - 1] == ReturnOf(call, s)
  {
    hide Linked, Paired;
    Link(log, from, call);
    LinkActions(log + [call], from, s.ops, aw);
    Link(log + [call] + Actions(s.ops, aw), from, ReturnOf(call, s));
    PairedRan(log, from, aw, call, s);
  }

  // ---- Runs ----

  /** The trace obeys the rule, and when it ends inside defined behaviour its last event says how. */
  ghost predicate Explained(t: Trace, from: nat, aw: Path) {
    && Caused(t.log, from) && from <= |t.log|
    && (t.outcome.Ended? ==> |t.log| > from && t.log[|t.log| - 1] == Finished(aw, t.outcome.exc))
  }

  lemma FinishExplained(env: Env, exc: Option<Exc>, log: Log, from: nat)
    requires from <= |log| && Caused(log, from) && MayAdd(log, from, Finished(env.name, exc))
    ensures Explained(Finish(env, exc, log), from, env.name)
  {
    hide Linked, Paired;
    Add(log, from, Finished(env.name, exc));
  }

  lemma {:induction false} RunExplained(env: Env, log: Log, from: nat)
    requires from <= |log| && Caused(log, from) && MayGoOn(log, from, env.name)
    ensures Explained(Run(env, log), from, env.name)
    decreases QueueWeight(env.queue), 0
  {
    hide Linked, Paired;
    if env.queue == [] {
      assert GoesOn(env.name, Finished(env.name, Some(FinalStop(env.result))));
      FinishExplained(env, Some(FinalStop(env.result)), log, from);
    } else {
      var e, rest := env.queue[0], env.(queue := env.queue[1..]);
      var who := env.name + [e.id];
      assert GoesOn(env.name, Awaiting(who)) && GoesOn(env.name, Deferred(who));
      match e.coro
      case None =>
        hide MayFollow;
        if e.callback.Some? {
          DeferExplained(e, rest, log, from);
        }
      case Some(coro) =>
        RunFront(env, coro, log);
        hide MayFollow;
        FrontExplained(e, coro, rest, log, from);
    }
  }

  lemma {:induction false} FrontExplained(e: Entry, coro: Coro, env: Env, log: Log, from: nat)
    requires from <= |log| && Caused(log, from) && MayAdd(log, from, Awaiting(env.name + [e.id]))
    ensures Explained(Started(e, coro, env, log), from, env.name)
    decreases QueueWeight(env.queue) + CoroWeight(coro) + CallsWeight(e), 5
  {
    hide Linked, Paired;
    var who := env.name + [e.id];
    var l := log + [Awaiting(who)];
    Add(log, from, Awaiting(who));
    hide MayFollow, MayAdd;
    match coro
    case NotAwaited(x) =>
      FailedAwait(who, x, log, from);
      OnErrorExplained(e, x, env, log + [Awaiting(who), AwaitFailed(who, x)], from);
    case Plain(steps, last, ending) =>
      YieldFromExplained(e, steps, last, ending, env, l, from);
    case Nested(build) =>
      NestedExplained(e, build, env, l, from);
  }

  lemma {:induction false} NestedExplained(e: Entry, build: seq<Op>, env: Env, log: Log, from: nat)
    requires from < |log| && Caused(log, from) && IsOpen(log[|log| - 1])
    ensures Explained(Joined(e, env, Run(Built(env.name + [e.id], build), log)), from, env.name)
    decreases QueueWeight(env.queue) + OpsWeight(build) + CallsWeight(e), 4
  {
    hide Linked, Paired;
    var who := env.name + [e.id];
    PerformName(build, PyNone, Env(who, 0, [], None, false));
    Opens(log, from, who);
    RunExplained(Built(who, build), log, from);
    var t := Run(Built(who, build), log);
    hide MayFollow, Run, AfterCoro;
    if t.outcome.Ended? {
      NestedEnd(t.log, from, who, t.outcome.exc);
      AfterCoroExplained(e, t.outcome.exc, false, env, t.log + [CoroEnded(who, t.outcome.exc)], from);
    }
  }

  /** After an open event an awaitable may go on. */
  lemma Opens(log: Log, from: nat, aw: Path)
    requires |log| > from && IsOpen(log[|log| - 1])
    ensures MayGoOn(log, from, aw)
  {
  }

  lemma NestedEnd(log: Log, from: nat, who: Path, end: Option<Exc>)
    requires Caused(log, from) && |log| > from && log[|log| - 1] == Finished(who, end)
    ensures Caused(log + [CoroEnded(who, end)], from)
  {
    hide Linked, Paired;
    Add(log, from, CoroEnded(who, end));
  }

  lemma FailedAwait(who: Path, x: Exc, log: Log, from: nat)
    requires from <= |log| && Caused(log + [Awaiting(who)], from)
    requires who != []
    ensures var l := log + [Awaiting(who), AwaitFailed(who, x)];
            && Caused(l, from) && MayAdd(l, from, CalledError(who, x))
            && MayAdd(l, from, Finished(who[..|who| - 1], Some(x)))
  {
    hide Linked, Paired;
    Add(log + [Awaiting(who)], from, AwaitFailed(who, x));
    assert log + [Awaiting(who)] + [AwaitFailed(who, x)] == log + [Awaiting(who), AwaitFailed(who, x)];
  }

  lemma {:induction false} DeferExplained(e: Entry, env: Env, log: Log, from: nat)
    requires from <= |log| && Caused(log, from) && MayAdd(log, from, Deferred(env.name + [e.id]))
    requires e.callback.Some?
    ensures var s := ScriptFor(e.callback.value, PyNone);
            var log' := Ran(log, env.name, Deferred(env.name + [e.id]), s);
            if s.code < 0 then Explained(Finish(env, s.exc, log'), from, env.name)
            else Explained(Run(Perform(s.ops, PyNone, env), log'), from, env.name)
    decreases QueueWeight(env.queue) + CallsWeight(e), 1
  {
    hide Linked, Paired;
    var s := ScriptFor(e.callback.value, PyNone);
    var call := Deferred(env.name + [e.id]);
    ScriptWeight(e.callback.value, PyNone);
    AddCall(log, from, env.name, call, s);
    PerformName(s.ops, PyNone, env);
    if s.code < 0 {
      FinishExplained(env, s.exc, Ran(log, env.name, call, s), from);
    } else {
      RunExplained(Perform(s.ops, PyNone, env), Ran(log, env.name, call, s), from);
    }
  }

  lemma {:induction false} YieldFromExplained(
    e: Entry, steps: seq<Step>, last: seq<Op>, ending: Option<Exc>, env: Env, log: Log, from: nat)
    requires from < |log| && Caused(log, from) && IsOpen(log[|log| - 1])
    ensures Explained(YieldFrom(e, steps, last, ending, env, log), from, env.name)
    decreases QueueWeight(env.queue) + StepsWeight(steps) + OpsWeight(last) + CallsWeight(e), 4
  {
    hide Linked, Paired, MayFollow, MayAdd, MayGoOn, Perform, Actions, AfterCoro, Run;
    var ops := if steps == [] then last else steps[0].ops;
    var next := if steps == [] then CoroEnded(env.name + [e.id], ending) else Yielded(steps[0].value);
    var after, l := Perform(ops, PyNone, env), log + Actions(ops, env.name);
    PerformName(ops, PyNone, env);
    AddActions(log, from, ops, env.name);
    AddNext(l, from, next);
    if steps == [] {
      AfterCoroExplained(e, ending, Cancel in last, after, l + [next], from);
    } else if Cancel in ops {
      Opens(l + [next], from, env.name);
      RunExplained(after, l + [next], from);
    } else {
      YieldFromExplained(e, steps[1..], last, ending, after, l + [next], from);
    }
  }

  /** A stretch of a coroutine comes to its end. */
  lemma AddNext(log: Log, from: nat, next: Event)
    requires from < |log| && Caused(log, from) && IsOpen(log[|log| - 1])
    requires next.CoroEnded? || next.Yielded?
    ensures Caused(log + [next], from)
  {
    hide Linked, Paired;
    Add(log, from, next);
  }

  lemma {:induction false} AfterCoroExplained(
    e: Entry, ending: Option<Exc>, cancelledNow: bool, env: Env, log: Log, from: nat)
    requires from < |log| && Caused(log, from) && log[|log| - 1] == CoroEnded(env.name + [e.id], ending)
    ensures Explained(AfterCoro(e, ending, cancelledNow, env, log), from, env.name)
    decreases QueueWeight(env.queue) + CallsWeight(e), 3
  {
    hide Linked, Paired;
    if !env.cancelled && IsError(ending) {
      OnErrorExplained(e, ending.value, env, log, from);
    } else if env.cancelled || e.callback.None? {
      if !IsError(ending) {
        assert MayGoOn(log, from, env.name);
        RunExplained(env, log, from);
      }
    } else {
      CallbackExplained(e, ending, env, log, from);
    }
  }

  lemma {:induction false} CallbackExplained(e: Entry, ending: Option<Exc>, env: Env, log: Log, from: nat)
    requires from < |log| && Caused(log, from) && log[|log| - 1] == CoroEnded(env.name + [e.id], ending)
    requires !env.cancelled && !IsError(ending) && e.callback.Some?
    ensures Explained(AfterCoro(e, ending, false, env, log), from, env.name)
    decreases QueueWeight(env.queue) + CallsWeight(e), 2
  {
    hide Linked, Paired;
    var value := ReturnValue(ending);
    var s := ScriptFor(e.callback.value, value);
    var call := CalledBack(env.name + [e.id], value);
    ScriptWeight(e.callback.value, value);
    AddCall(log, from, env.name, call, s);
    PerformName(s.ops, value, env);
    var after := Perform(s.ops, value, env);
    var log' := Ran(log, env.name, call, s);
    if s.code >= 0 {
      RunExplained(after, log', from);
    } else if s.exc.None? {
      FinishExplained(env, Some(SystemError), log', from);
    } else if s.code < -1 {
      FinishExplained(env, s.exc, log', from);
    } else if !after.cancelled {
      OnErrorExplained(e, s.exc.value, after, log', from);
    }
  }

  lemma {:induction false} OnErrorExplained(e: Entry, x: Exc, env: Env, log: Log, from: nat)
    requires from < |log| && Caused(log, from)
    requires MayAdd(log, from, CalledError(env.name + [e.id], x)) && MayAdd(log, from, Finished(env.name, Some(x)))
    ensures Explained(OnError(e, x, env, log), from, env.name)
    decreases QueueWeight(env.queue) + MaybeWeight(e.errCallback), 1
  {
    hide Linked, Paired;
    if e.errCallback.None? {
      FinishExplained(env, Some(x), log, from);
    } else {
      var s := ScriptFor(e.errCallback.value, ExcObj(x));
      var call := CalledError(env.name + [e.id], x);
      ScriptWeight(e.errCallback.value, ExcObj(x));
      AddCall(log, from, env.name, call, s);
      PerformName(s.ops, ExcObj(x), env);
      var log' := Ran(log, env.name, call, s);
      if s.code >= 0 {
        RunExplained(Perform(s.ops, ExcObj(x), env), log', from);
      } else {
        FinishExplained(env, if s.code == -1 then Some(x) else s.exc, log', from);
      }
    }
  }

  // ---- Results ----

  /** Error routing over the whole run of an awaitable built by any calls, with all awaitables nested in
      it: each event is followed only by what the rule allows; every return answers a call of the same
      callback, for the same exception if it is an error callback, with only its actions in between,
      and every call is answered; and the last event says how the run ended. */
  lemma WholeRunExplained(name: Path, build: seq<Op>)
    ensures var t := Drive(M.Await(M.Built(name, build)), []);
            && Linked(t.log, 0) && Paired(t.log, 0)
            && (t.outcome.Ended? ==> t.log != [] && t.log[|t.log| - 1] == Finished(name, t.outcome.exc))
  {
    PerformName(build, PyNone, Env(name, 0, [], None, false));
    RunExplained(Built(name, build), [], 0);
    WholeRun(name, build, []);
  }

  /** So, at every depth: a result callback is called only right after its coroutine ended without an
      error, and with its value; and an error callback only right after its coroutine ended with that
      exception, or `__await__` raised it, or its result callback returned -1 with it set. */
  lemma CallbacksHaveCauses(name: Path, build: seq<Op>, i: nat)
    requires i < |Drive(M.Await(M.Built(name, build)), []).log|
    ensures var log := Drive(M.Await(M.Built(name, build)), []).log;
            && (log[i].CalledBack? ==>
                  && i > 0 && log[i - 1].CoroEnded? && log[i - 1].who == log[i].who
                  && !IsError(log[i - 1].ending) && log[i].value == ReturnValue(log[i - 1].ending))
            && (log[i].CalledError? ==>
                  && i > 0
                  && (|| log[i - 1] == CoroEnded(log[i].who, Some(log[i].exc))
                      || log[i - 1] == AwaitFailed(log[i].who, log[i].exc)
                      || log[i - 1] == Returned(log[i].who, FromCallback, -1, Some(log[i].exc))))
  {
    var log := Drive(M.Await(M.Built(name, build)), []).log;
    WholeRunExplained(name, build);
    hide Paired;
    assert i > 0 ==> MayFollow(log[i - 1], log[i - 1 + 1]);
  }

  /** The value that a result callback is called with: what its coroutine returned, or None when that
      ended without an exception. */
  lemma CallbackGetsReturnValue(name: Path, build: seq<Op>, i: nat, w: Path, u: Value)
    requires var log := Drive(M.Await(M.Built(name, build)), []).log;
             i < |log| && log[i] == CalledBack(w, u)
    ensures var log := Drive(M.Await(M.Built(name, build)), []).log;
            i > 0 && (log[i - 1] == CoroEnded(w, Some(StopIteration(u)))
                      || (log[i - 1] == CoroEnded(w, None) && u == PyNone))
  {
    CallbacksHaveCauses(name, build, i);
  }

  /** And what an error callback decides: it was called with `x` at index `i`, it returns at index `j`
      having only acted, and then the awaitable goes on after 0 or more, ends with `x` after -1, and
      ends with what the callback left set after less. Nothing comes after the return only where the
      run leaves defined behaviour. */
  lemma ErrorCallbackDecides(name: Path, build: seq<Op>, i: nat) returns (j: nat)
    requires i < |Drive(M.Await(M.Built(name, build)), []).log|
    requires Drive(M.Await(M.Built(name, build)), []).log[i].CalledError?
    ensures var t := Drive(M.Await(M.Built(name, build)), []);
            var CalledError(w, x) := t.log[i];
            && w != [] && i < j < |t.log|
            && (forall k :: i < k < j ==> t.log[k].Acted? && t.log[k].aw == w[..|w| - 1])
            && t.log[j].Returned? && t.log[j].who == w && t.log[j].from == FromHandler(x)
            && (t.outcome.Ended? ==> j + 1 < |t.log|)
            && (j + 1 < |t.log| ==>
                  if t.log[j].code >= 0 then GoesOn(w[..|w| - 1], t.log[j + 1])
                  else if t.log[j].code == -1 then t.log[j + 1] == Finished(w[..|w| - 1], Some(x))
                  else t.log[j + 1] == Finished(w[..|w| - 1], t.log[j].left))
  {
    var t := Drive(M.Await(M.Built(name, build)), []);
    WholeRunExplained(name, build);
    assert HasReturn(t.log, i);
    j :| Answers(t.log, i, j);
    if j + 1 < |t.log| {
      assert MayFollow(t.log[j], t.log[j + 1]);
    }
  }
}
