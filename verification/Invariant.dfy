/** The invariant of the machine, kept by every call that user code makes and by every Next. */
module Invariant {
  import opened PyObjects
  import opened UserCode
  import opened Reference
  import M = Machine

  /** An entry that has been dealt with: its coroutine has been let go. */
  predicate Finished(e: Entry) {
    e.done && e.coro.None?
  }

  /** Every allocated entry is either deallocated or queued, in order of allocation; what lies from
      the state index on is untouched; and as long as no cancel has happened, what lies before
      `reached` is finished. */
  ghost predicate Queued(m: M.State, reached: nat) {
    && reached <= m.state <= |m.slots|
    && (forall i :: 0 <= i < |m.freed| ==> m.freed[i] == i)
    && (forall i :: 0 <= i < |m.slots| ==> m.slots[i].id == |m.freed| + i)
    && (forall i :: m.state <= i < |m.slots| ==> !m.slots[i].done)
    && (!m.cancelled ==> forall i :: 0 <= i < reached ==> Finished(m.slots[i]))
  }

  /** The entry last taken from the queue is being worked on. */
  ghost predicate Busy(m: M.State) {
    && M.InRange(m)
    && Queued(m, m.state - 1)
    && !m.slots[m.state - 1].done
  }

  /** The invariant between two calls of Next, before, during and after a run. */
  ghost predicate Valid(m: M.State) {
    && (m.alive ==> m.started)
    && (match m.current
        case None => Queued(m, m.state)
        case Some(Frame(_, _, _)) => m.alive && Busy(m) && m.slots[m.state - 1].coro.Some?
        case Some(Inner(im)) => m.alive && Busy(m) && m.slots[m.state - 1].coro.Some? && im.alive && Valid(im)
        case Some(Spent) => false)
  }

  // ---- User code ----

  lemma ApplyKeeps(op: Op, arg: Value, m: M.State, reached: nat)
    requires Queued(m, reached)
    ensures Queued(M.Apply(op, arg, m), if op.Cancel? then 0 else reached)
  {
  }

  lemma {:induction false} PerformKeeps(ops: seq<Op>, arg: Value, m: M.State, reached: nat)
    requires Queued(m, reached)
    ensures Queued(M.Perform(ops, arg, m), if Cancel in ops then 0 else reached)
  {
    if ops == [] {
    } else {
      ApplyKeeps(ops[0], arg, m, reached);
      PerformKeeps(ops[1..], arg, M.Apply(ops[0], arg, m), if ops[0].Cancel? then 0 else reached);
      assert Cancel in ops <==> ops[0].Cancel? || Cancel in ops[1..];
    }
  }

  /** Calls made between two calls of Next, from anywhere, keep the invariant. */
  lemma CallsKeepValid(ops: seq<Op>, arg: Value, m: M.State)
    requires Valid(m)
    ensures Valid(M.Perform(ops, arg, m))
  {
    M.PerformAfter(ops, arg, m);
    PerformKeeps(ops, arg, m, if m.current.None? then m.state else m.state - 1);
  }

  /** A callback run on behalf of the current entry. */
  lemma ScriptKeeps(ops: seq<Op>, arg: Value, m: M.State)
    requires Busy(m)
    ensures var r := M.Perform(ops, arg, m);
            M.After(ops, m, r) && (if Cancel in ops then Queued(r, r.state) else Busy(r))
  {
    M.PerformAfter(ops, arg, m);
    PerformKeeps(ops, arg, m, m.state - 1);
  }

  lemma DoneKeeps(m: M.State)
    requires Busy(m) || (m.cancelled && Queued(m, m.state))
    ensures Queued(M.DoneIfOk(m), m.state)
  {
  }

  // ---- Next ----

  /** `log` grew to `log'` without recording a yield. */
  ghost predicate Silent(log: Log, log': Log) {
    log <= log' && forall i :: |log| <= i < |log'| ==> !log'[i].Yielded?
  }

  lemma SilentActions(base: Log, log: Log, ops: seq<Op>, aw: Path)
    requires Silent(base, log)
    ensures Silent(base, log + Actions(ops, aw))
  {
    ActionsAreActed(ops, aw);
  }

  lemma SilentCall(base: Log, log: Log, call: Event, s: Script, aw: Path)
    requires Silent(base, log) && IsCallback(call)
    ensures Silent(base, Ran(log, aw, call, s))
  {
    SilentActions(base, log + [call], s.ops, aw);
  }

  /** A call of Next keeps the invariant, ends the run for good when it returns NULL, never reads
      outside the queue, and records no yield itself. */
  ghost predicate Keeps(log: Log, r: M.Res) {
    && Silent(log, r.log)
    && (match r.out
        case Yield(_) => Valid(r.m) && r.m.alive
        case Stop(Ended(_)) => Valid(r.m) && !r.m.alive && r.m.done
        case Stop(Faulted(kind)) => kind != OutOfRange)
  }

  lemma {:induction false} NextKeeps(m: M.State, base: Log, log: Log)
    requires Silent(base, log)
    requires Valid(m) && m.alive
    ensures Keeps(base, M.Next(m, log))
    decreases M.Weight(m), 0
  {
    if m.current.Some? {
      ResumeKeeps(m, base, log);
    } else if |m.slots| != m.state {
      BeginKeeps(m.(state := m.state + 1), base, log);
    }
  }

  /** After a callback, the run goes on or ends. */
  lemma {:induction false} GoesOn(m: M.State, base: Log, log: Log)
    requires Silent(base, log)
    requires m.alive && m.started && (m.cancelled ==> m.current.None?)
    requires Busy(m) || (m.cancelled && Queued(m, m.state))
    ensures Keeps(base, M.Next(M.DoneIfOk(m), log))
    ensures forall exc :: Keeps(base, M.Ending(M.DoneIfOk(m), exc, log))
    decreases M.Pending(m) + 1, 1
  {
    DoneKeeps(m);
    M.DoneWeight(m);
    assert Valid(M.DoneIfOk(m)) && Valid(M.AwDone(M.DoneIfOk(m)));
    NextKeeps(M.DoneIfOk(m), base, log);
  }

  lemma {:induction false} BeginKeeps(m: M.State, base: Log, log: Log)
    requires Silent(base, log)
    requires m.alive && m.started && m.current.None? && Busy(m)
    ensures Keeps(base, M.Begin(m, log))
    decreases M.Pending(m) + EntryWeight(m.slots[m.state - 1]), 5
  {
    var cb := m.slots[m.state - 1];
    var who := m.name + [cb.id];
    match cb.coro {
      case None =>
        if cb.callback.Some? {
          DeferKeeps(m, base, log);
        }
      case Some(NotAwaited(x)) =>
        FireKeeps(m, x, base, log + [Awaiting(who), AwaitFailed(who, x)]);
      case Some(Plain(steps, last, ending)) =>
        ResumeKeeps(m.(current := Some(M.Frame(steps, last, ending))), base, log + [Awaiting(who)]);
      case Some(Nested(build)) =>
        BuiltValid(who, build);
        ResumeKeeps(m.(current := Some(M.Inner(M.Await(M.Built(who, build))))), base, log + [Awaiting(who)]);
    }
  }

  lemma {:induction false} DeferKeeps(m: M.State, base: Log, log: Log)
    requires Silent(base, log)
    requires m.alive && m.started && m.current.None? && Busy(m) && m.slots[m.state - 1].callback.Some?
    ensures Keeps(base, M.FireDefer(m, log))
    decreases 1 + M.Pending(m) + M.Calls(m), 2
  {
    var cb := m.slots[m.state - 1];
    var s := ScriptFor(cb.callback.value, PyNone);
    M.CallWeight(cb.callback.value, PyNone, m);
    ScriptKeeps(s.ops, PyNone, m);
    SilentCall(base, log, Deferred(m.name + [cb.id]), s, m.name);
    GoesOn(M.Perform(s.ops, PyNone, m), base, Ran(log, m.name, Deferred(m.name + [cb.id]), s));
  }

  /** An awaitable built by any calls satisfies the invariant, before and after it is awaited. */
  lemma BuiltValid(name: Path, build: seq<Op>)
    ensures Valid(M.Built(name, build)) && Valid(M.Await(M.Built(name, build)))
    ensures M.Weight(M.Await(M.Built(name, build))) <= 1 + OpsWeight(build)
  {
    M.BuiltWeight(name, build);
    PerformKeeps(build, PyNone, M.Fresh(name), 0);
  }

  lemma {:induction false} ResumeKeeps(m: M.State, base: Log, log: Log)
    requires Silent(base, log)
    requires Valid(m) && m.current.Some?
    ensures Keeps(base, M.Resume(m, log))
    decreases M.Pending(m) + M.IterWeight(m.current.value) + M.Calls(m), 4
  {
    match m.current.value {
      case Frame(steps, last, ending) =>
        if steps != [] {
          StepKeeps(m, base, log);
        } else {
          var m0 := m.(current := Some(M.Spent));
          SilentActions(base, log, last, m.name);
          ScriptKeeps(last, PyNone, m0);
          SettleKeeps(M.Perform(last, PyNone, m0), ending, base,
                      log + Actions(last, m.name) + [CoroEnded(m.name + [m.slots[m.state - 1].id], ending)]);
        }
      case Inner(im) =>
        DelegateKeeps(m, im, base, log);
    }
  }

  lemma {:induction false} DelegateKeeps(m: M.State, im: M.State, base: Log, log: Log)
    requires Silent(base, log)
    requires Valid(m) && m.current == Some(M.Inner(im))
    ensures Keeps(base, M.Delegate(m, im, log))
    decreases M.Pending(m) + 1 + M.Weight(im) + M.Calls(m), 3
  {
    NextKeeps(im, base, log);
    var r := M.Next(im, log);
    hide M.Settle, M.Next, Queued;
    if r.out.Stop? && r.out.outcome.Ended? {
      SettleKeeps(m.(current := Some(M.Spent)), r.out.outcome.exc, base,
                  r.log + [CoroEnded(m.name + [m.slots[m.state - 1].id], r.out.outcome.exc)]);
    }
  }

  lemma StepKeeps(m: M.State, base: Log, log: Log)
    requires Silent(base, log)
    requires Valid(m) && m.current.Some? && m.current.value.Frame? && m.current.value.steps != []
    ensures Keeps(base, M.Resume(m, log))
  {
    var Frame(steps, last, ending) := m.current.value;
    var m0 := m.(current := Some(M.Frame(steps[1..], last, ending)));
    SilentActions(base, log, steps[0].ops, m.name);
    CallsKeepValid(steps[0].ops, PyNone, m0);
    M.PerformAfter(steps[0].ops, PyNone, m0);
  }

  lemma {:induction false} SettleKeeps(m: M.State, ending: Option<Exc>, base: Log, log: Log)
    requires Silent(base, log)
    requires m.alive && m.started
    requires Busy(m) || (m.cancelled && m.current.None? && Queued(m, m.state))
    ensures Keeps(base, M.Settle(m, ending, log))
    decreases 1 + M.Pending(m) + M.Calls(m), 3
  {
    if m.cancelled {
      if !IsError(ending) && m.current.None? {
        GoesOn(m, base, log);
      }
    } else if IsError(ending) {
      FireKeeps(m, ending.value, base, log);
    } else if m.slots[m.state - 1].callback.None? {
      GoesOn(m, base, log);
    } else {
      var cb := m.slots[m.state - 1];
      var value := ReturnValue(ending);
      var s := ScriptFor(cb.callback.value, value);
      M.CallWeight(cb.callback.value, value, m);
      ScriptKeeps(s.ops, value, m);
      SilentCall(base, log, CalledBack(m.name + [cb.id], value), s, m.name);
      var m' := M.Perform(s.ops, value, m);
      var log' := Ran(log, m.name, CalledBack(m.name + [cb.id], value), s);
      GoesOn(m', base, log');
      if s.code == -1 && s.exc.Some? && !m'.cancelled {
        FireKeeps(m', s.exc.value, base, log');
      }
    }
  }

  lemma {:induction false} FireKeeps(m: M.State, x: Exc, base: Log, log: Log)
    requires Silent(base, log)
    requires m.alive && m.started && Busy(m) && (m.cancelled ==> m.current.None?)
    ensures Keeps(base, M.FireErrorAndNext(m, x, log))
    decreases 1 + M.Pending(m) + MaybeWeight(m.slots[m.state - 1].errCallback), 2
  {
    var cb := m.slots[m.state - 1];
    if cb.errCallback.None? {
      RaiseKeeps(m, Some(x), base, log);
    } else {
      hide M.Next, Silent, Queued, Keeps;
      var s := ScriptFor(cb.errCallback.value, ExcObj(x));
      M.CallWeight(cb.errCallback.value, ExcObj(x), m);
      ScriptKeeps(s.ops, ExcObj(x), m);
      SilentCall(base, log, CalledError(m.name + [cb.id], x), s, m.name);
      GoesOn(M.Perform(s.ops, ExcObj(x), m), base,
             Ran(log, m.name, CalledError(m.name + [cb.id], x), s));
    }
  }

  /** The run ends while an entry is being worked on. */
  lemma RaiseKeeps(m: M.State, exc: Option<Exc>, base: Log, log: Log)
    requires Silent(base, log)
    requires m.alive && m.started && Busy(m) && (m.cancelled ==> m.current.None?)
    ensures Keeps(base, M.Ending(M.DoneIfOk(m), exc, log))
  {
    DoneKeeps(m);
    hide Queued;
    assert Valid(M.AwDone(M.DoneIfOk(m)));
  }
}
