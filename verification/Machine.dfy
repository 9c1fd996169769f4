/** The awaitable and its generator as one state, and `Next` as a function on it: the state index,
    the done flags and the suspended iterator are all here. The class GenWrapper is proved against
    this machine, and the machine against the reference interpreter. */
module Machine {
  import opened PyObjects
  import opened UserCode
  import opened Reference

  /** What the generator is suspended on: a coroutine with steps left, the generator of another
      awaitable, or an iterator that has ended but has not been let go yet. */
  datatype Iter =
    | Frame(steps: seq<Step>, last: seq<Op>, ending: Option<Exc>)
    | Inner(m: State)
    | Spent

  /** - freed: the ids of the deallocated entries, in order of deallocation
      - slots, state, result, cancelled, done: aw_callbacks, aw_state, aw_result,
        aw_recently_cancelled, aw_done
      - started: aw_gen is set
      - alive: the generator still points to the awaitable (gw_aw)
      - current: gw_current_await */
  datatype State = State(
    name: Path, freed: seq<nat>, slots: seq<Entry>, state: nat, result: Option<Value>,
    cancelled: bool, done: bool, started: bool, alive: bool, current: Option<Iter>)

  /** A call of Next yields a value, or returns NULL with an exception set or not, or leaves
      defined behaviour. */
  datatype Out = Yield(value: Value) | Stop(outcome: Outcome)

  datatype Res = Res(m: State, out: Out, log: Log)

  function Fresh(name: Path): State {
    State(name, [], [], 0, None, false, false, false, false, None)
  }

  // ---- The calls that user code makes on the awaitable ----

  function NextId(m: State): nat {
    |m.freed| + |m.slots|
  }

  function Apply(op: Op, arg: Value, m: State): State {
    match op
    case AddAwait(_, _, _) => m.(slots := m.slots + [EntryOf(op, NextId(m))])
    case DeferAwait(_) => m.(slots := m.slots + [EntryOf(op, NextId(m))])
    case SetResult(v) => m.(result := Some(v))
    case SetResultToArg => m.(result := Some(arg))
    case Cancel =>
      m.(freed := m.freed + Ids(m.slots), slots := [], state := 0, current := None, cancelled := true)
    case Act(_) => m
  }

  function Ids(slots: seq<Entry>): (r: seq<nat>)
    ensures |r| == |slots| && forall i :: 0 <= i < |slots| ==> r[i] == slots[i].id
  {
    seq(|slots|, i requires 0 <= i < |slots| => slots[i].id)
  }

  function Perform(ops: seq<Op>, arg: Value, m: State): State {
    if ops == [] then m else Perform(ops[1..], arg, Apply(ops[0], arg, m))
  }

  function Built(name: Path, build: seq<Op>): State {
    Perform(build, PyNone, Fresh(name))
  }

  /** `awaitable_next` on an awaitable that is not done: makes the generator. */
  function Await(m: State): State {
    m.(started := true, alive := true)
  }

  /** `awaitable_next`: refused once the awaitable is done. */
  function TryAwait(m: State): (State, Option<Exc>) {
    if m.done then (m, Some(RuntimeError)) else (Await(m), None)
  }

  /** `awaitable_close`: cancels, and refuses later awaits. */
  function Close(m: State): State {
    Apply(Cancel, PyNone, m).(done := true)
  }

  // ---- The macros ----

  /** The entry last taken from the queue can be read. */
  predicate InRange(m: State) {
    1 <= m.state <= |m.slots|
  }

  /** DONE: the entry is finished and the current await is let go. */
  function Done(m: State): State
    requires InRange(m)
  {
    m.(slots := m.slots[m.state - 1 := m.slots[m.state - 1].(done := true, coro := None)], current := None)
  }

  /** DONE_IF_OK and DONE_IF_OK_AND_CHECK: nothing once the awaitable has been cancelled. */
  function DoneIfOk(m: State): State
    requires m.cancelled || InRange(m)
  {
    if m.cancelled then m else Done(m)
  }

  /** AW_DONE: the run is over. */
  function AwDone(m: State): State {
    m.(done := true, alive := false)
  }

  function Ending(m: State, exc: Option<Exc>, log: Log): Res {
    Res(AwDone(m), Stop(Ended(exc)), log + [Finished(m.name, exc)])
  }

  function Failing(m: State, kind: Fault, log: Log): Res {
    Res(m, Stop(Faulted(kind)), log)
  }

  // ---- Weight: every call of Next that yields makes it smaller ----

  ghost function IterWeight(it: Iter): nat {
    match it
    case Frame(steps, last, _) => 2 + StepsWeight(steps) + OpsWeight(last)
    case Inner(m) => 1 + Weight(m)
    case Spent => 0
  }

  /** The entries that have not been reached. */
  ghost function Pending(m: State): nat {
    if m.state <= |m.slots| then QueueWeight(m.slots[m.state..]) else 0
  }

  /** What the callbacks of the current entry can still add. */
  ghost function Calls(m: State): nat {
    if InRange(m) then CallsWeight(m.slots[m.state - 1]) else 0
  }

  ghost function Weight(m: State): nat {
    if !m.alive then 0
    else 1 + Pending(m) + (match m.current case None => 0 case Some(it) => IterWeight(it) + Calls(m))
  }

  /** What a run of calls does to the state: it only appends, as long as it does not cancel; a
      cancel empties the queue, resets the index and drops the current await. */
  ghost predicate After(ops: seq<Op>, m: State, r: State) {
    && r.name == m.name && r.done == m.done && r.started == m.started && r.alive == m.alive
    && r.cancelled == (m.cancelled || Cancel in ops)
    && Pending(r) <= Pending(m) + OpsWeight(ops)
    && if Cancel in ops then
         r.current.None? && r.state == 0
       else
         && r.current == m.current && r.state == m.state && r.freed == m.freed
         && m.slots <= r.slots
         && (InRange(m) ==> InRange(r) && r.slots[r.state - 1] == m.slots[m.state - 1])
  }

  lemma ApplyAfter(op: Op, arg: Value, m: State)
    ensures After([op], m, Apply(op, arg, m))
  {
    if IsAdd(op) {
      AddAfter(op, arg, m);
    } else if op.Cancel? {
      CancelAfter(arg, m);
    } else {
      assert Pending(Apply(op, arg, m)) == Pending(m);
    }
  }

  lemma AddAfter(op: Op, arg: Value, m: State)
    requires IsAdd(op)
    ensures After([op], m, Apply(op, arg, m))
  {
    AddPending(op, arg, m);
    assert OpsWeight([op]) == OpWeight(op);
    hide Pending, OpsWeight, OpWeight;
  }

  lemma CancelAfter(arg: Value, m: State)
    ensures After([Cancel], m, Apply(Cancel, arg, m))
  {
    assert Pending(Apply(Cancel, arg, m)) == 0;
    hide Pending, OpsWeight;
  }

  /** One more entry to be reached. */
  lemma AddPending(op: Op, arg: Value, m: State)
    requires IsAdd(op)
    ensures Pending(Apply(op, arg, m)) <= Pending(m) + OpWeight(op)
  {
    var e := EntryOf(op, NextId(m));
    if m.state <= |m.slots| {
      assert (m.slots + [e])[m.state..] == m.slots[m.state..] + [e];
      QueueWeightAppend(m.slots[m.state..], e);
    } else if m.state == |m.slots| + 1 {
      assert (m.slots + [e])[m.state..] == [];
    }
  }

  lemma {:induction false} PerformAfter(ops: seq<Op>, arg: Value, m: State)
    ensures After(ops, m, Perform(ops, arg, m))
  {
    if ops == [] {
    } else {
      var m' := Apply(ops[0], arg, m);
      ApplyAfter(ops[0], arg, m);
      PerformAfter(ops[1..], arg, m');
      assert OpsWeight([ops[0]]) == OpWeight(ops[0]);
      assert Cancel in ops <==> Cancel in [ops[0]] || Cancel in ops[1..];
    }
  }

  lemma DoneWeight(m: State)
    requires m.cancelled || InRange(m)
    ensures Pending(DoneIfOk(m)) == Pending(m)
  {
    if !m.cancelled {
      assert Done(m).slots[m.state..] == m.slots[m.state..];
    }
  }

  /** A callback is run with `arg`: what is left to do afterwards, once the entry is done. */
  lemma CallWeight(cb: Callback, arg: Value, m: State)
    requires InRange(m)
    ensures var m' := Perform(ScriptFor(cb, arg).ops, arg, m);
            && After(ScriptFor(cb, arg).ops, m, m')
            && (m'.cancelled || InRange(m'))
            && Pending(m') <= Pending(m) + CallbackWeight(cb)
            && Pending(DoneIfOk(m')) <= Pending(m) + CallbackWeight(cb)
  {
    PerformAfter(ScriptFor(cb, arg).ops, arg, m);
    ScriptWeight(cb, arg);
    DoneWeight(Perform(ScriptFor(cb, arg).ops, arg, m));
  }

  lemma BuiltWeight(name: Path, build: seq<Op>)
    ensures After(build, Fresh(name), Built(name, build))
    ensures Weight(Await(Built(name, build))) <= 1 + OpsWeight(build)
  {
    PerformAfter(build, PyNone, Fresh(name));
    assert Pending(Fresh(name)) == 0;
  }

  /** A stretch of a coroutine up to a yield. */
  lemma StepWeight(m: State)
    requires m.alive && InRange(m) && m.current.Some? && m.current.value.Frame? && m.current.value.steps != []
    ensures var Frame(steps, last, ending) := m.current.value;
            var r := Perform(steps[0].ops, PyNone, m.(current := Some(Frame(steps[1..], last, ending))));
            r.started == m.started && Weight(r) < Weight(m)
  {
    var Frame(steps, last, ending) := m.current.value;
    var m0 := m.(current := Some(Frame(steps[1..], last, ending)));
    assert Pending(m0) == Pending(m) && Calls(m0) == Calls(m);
    assert StepsWeight(steps) == 1 + OpsWeight(steps[0].ops) + StepsWeight(steps[1..]);
    hide Perform, Pending, OpsWeight, StepsWeight;
    PerformAfter(steps[0].ops, PyNone, m0);
  }

  // ---- Next ----

  function Next(m: State, log: Log): (r: Res)
    ensures r.m.started == m.started
    ensures r.out.Yield? ==> Weight(r.m) < Weight(m)
    decreases Weight(m), 0
  {
    if !m.alive then
      Res(m, Stop(Ended(Some(RuntimeError))), log)
    else if m.current.Some? then
      if InRange(m) then Resume(m, log) else Failing(m, OutOfRange, log)
    else if |m.slots| == m.state then
      Ending(m, Some(FinalStop(m.result)), log)
    else if |m.slots| < m.state then
      Failing(m, OutOfRange, log)
    else
      Begin(m.(state := m.state + 1), log)
  }

  /** The entry before `state` has just been taken from the queue. */
  function Begin(m: State, log: Log): (r: Res)
    requires m.alive && m.current.None? && InRange(m)
    ensures r.m.started == m.started
    ensures r.out.Yield? ==> Weight(r.m) < 1 + Pending(m) + EntryWeight(m.slots[m.state - 1])
    decreases Pending(m) + EntryWeight(m.slots[m.state - 1]), 3
  {
    var cb := m.slots[m.state - 1];
    var who := m.name + [cb.id];
    match cb.coro
    case None => if cb.callback.None? then Failing(m, NullCoro, log) else FireDefer(m, log)
    case Some(NotAwaited(x)) => FireErrorAndNext(m, x, log + [Awaiting(who), AwaitFailed(who, x)])
    case Some(Plain(steps, last, ending)) =>
      Resume(m.(current := Some(Frame(steps, last, ending))), log + [Awaiting(who)])
    case Some(Nested(build)) =>
      BuiltWeight(who, build);
      Resume(m.(current := Some(Inner(Await(Built(who, build))))), log + [Awaiting(who)])
  }

  /** The entry is a deferred callback. */
  function FireDefer(m: State, log: Log): (r: Res)
    requires m.alive && m.current.None? && InRange(m) && m.slots[m.state - 1].callback.Some?
    ensures r.m.started == m.started
    ensures r.out.Yield? ==> Weight(r.m) < 1 + Pending(m) + Calls(m)
    decreases 1 + Pending(m) + Calls(m), 1
  {
    var cb := m.slots[m.state - 1];
    var s := ScriptFor(cb.callback.value, PyNone);
    CallWeight(cb.callback.value, PyNone, m);
    var m' := Perform(s.ops, PyNone, m);
    var log' := Ran(log, m.name, Deferred(m.name + [cb.id]), s);
    if s.code < 0 then Ending(DoneIfOk(m'), s.exc, log') else Next(DoneIfOk(m'), log')
  }

  /** One `tp_iternext` of the current await. */
  function Resume(m: State, log: Log): (r: Res)
    requires m.alive && m.current.Some? && InRange(m)
    ensures r.m.started == m.started
    ensures r.out.Yield? ==> Weight(r.m) < Weight(m)
    decreases Pending(m) + IterWeight(m.current.value) + Calls(m), 4
  {
    match m.current.value
    case Frame(steps, last, ending) =>
      if steps != [] then
        var m0 := m.(current := Some(Frame(steps[1..], last, ending)));
        StepWeight(m);
        Res(Perform(steps[0].ops, PyNone, m0), Yield(steps[0].value), log + Actions(steps[0].ops, m.name))
      else
        var m0 := m.(current := Some(Spent));
        PerformAfter(last, PyNone, m0);
        Settle(Perform(last, PyNone, m0), ending,
               log + Actions(last, m.name) + [CoroEnded(m.name + [m.slots[m.state - 1].id], ending)])
    case Inner(im) => Delegate(m, im, log)
    case Spent => Failing(m, StaleAwait, log)
  }

  /** The current await is the generator of another awaitable. */
  function Delegate(m: State, im: State, log: Log): (r: Res)
    requires m.alive && m.current == Some(Inner(im)) && InRange(m)
    ensures r.m.started == m.started
    ensures r.out.Yield? ==> Weight(r.m) < Weight(m)
    decreases Pending(m) + 1 + Weight(im) + Calls(m), 3
  {
    var r := Next(im, log);
    match r.out
    case Yield(v) => Res(m.(current := Some(Inner(r.m))), Yield(v), r.log)
    case Stop(Faulted(kind)) => Failing(m, kind, r.log)
    case Stop(Ended(ending)) =>
      Settle(m.(current := Some(Spent)), ending, r.log + [CoroEnded(m.name + [m.slots[m.state - 1].id], ending)])
  }

  /** The current await has returned NULL; `ending` is the exception it left. */
  function Settle(m: State, ending: Option<Exc>, log: Log): (r: Res)
    requires m.alive && (m.cancelled || InRange(m))
    ensures r.m.started == m.started
    ensures r.out.Yield? ==> Weight(r.m) < 1 + Pending(m) + Calls(m)
    decreases 1 + Pending(m) + Calls(m), 2
  {
    if m.cancelled then
      if IsError(ending) then Failing(m, NullEntry, log)
      else if m.current.Some? then Failing(m, StaleAwait, log)
      else Next(m, log)
    else
      var cb := m.slots[m.state - 1];
      if IsError(ending) then FireErrorAndNext(m, ending.value, log)
      else if cb.callback.None? then
        DoneWeight(m);
        Next(Done(m), log)
      else
        var value := ReturnValue(ending);
        var s := ScriptFor(cb.callback.value, value);
        CallWeight(cb.callback.value, value, m);
        var m' := Perform(s.ops, value, m);
        var log' := Ran(log, m.name, CalledBack(m.name + [cb.id], value), s);
        if s.code < 0 && s.exc.None? then
          if m'.cancelled then Failing(m', NullEntry, log') else Ending(Done(m'), Some(SystemError), log')
        else if s.code < -1 then Ending(DoneIfOk(m'), s.exc, log')
        else if s.code < 0 then
          if m'.cancelled then Failing(m', NullEntry, log') else FireErrorAndNext(m', s.exc.value, log')
        else Next(DoneIfOk(m'), log')
  }

  /** FIRE_ERROR_CALLBACK_AND_NEXT for the entry before `state`. */
  function FireErrorAndNext(m: State, x: Exc, log: Log): (r: Res)
    requires m.alive && InRange(m) && (m.cancelled ==> m.current.None?)
    ensures r.m.started == m.started
    ensures r.out.Yield? ==> Weight(r.m) < 1 + Pending(m) + MaybeWeight(m.slots[m.state - 1].errCallback)
    decreases 1 + Pending(m) + MaybeWeight(m.slots[m.state - 1].errCallback), 1
  {
    var cb := m.slots[m.state - 1];
    match cb.errCallback
    case None => Ending(DoneIfOk(m), Some(x), log)
    case Some(err) =>
      var s := ScriptFor(err, ExcObj(x));
      CallWeight(err, ExcObj(x), m);
      var m' := Perform(s.ops, ExcObj(x), m);
      var log' := Ran(log, m.name, CalledError(m.name + [cb.id], x), s);
      if s.code == -1 then Ending(DoneIfOk(m'), Some(x), log')
      else if s.code < 0 then Ending(DoneIfOk(m'), s.exc, log')
      else Next(DoneIfOk(m'), log')
  }

  // ---- The send front end ----

  /** `awaitable_send_with_arg`: the first send makes the generator and answers None; later sends
      ignore their value. */
  function Send(m: State, value: Value, log: Log): Res {
    if m.started then Next(m, log)
    else
      var (m', refused) := TryAwait(m);
      if refused.Some? then Res(m', Stop(Ended(refused)), log)
      else if value != PyNone then Res(m', Stop(Ended(Some(RuntimeError))), log)
      else Res(m', Yield(PyNone), log)
  }

  /** What `am_send` answers: NEXT, RETURN or ERROR; or defined behaviour was left. */
  datatype SendResult =
    | GenNext(value: Value)
    | GenReturn(value: Value)
    | GenError(exc: Option<Exc>)
    | GenFault(kind: Fault)

  /** `awaitable_am_send`: a StopIteration becomes a returned value again. */
  function AmSend(out: Out): SendResult {
    match out
    case Yield(v) => GenNext(v)
    case Stop(Ended(Some(StopIteration(v)))) => GenReturn(v)
    case Stop(Ended(exc)) => GenError(exc)
    case Stop(Faulted(kind)) => GenFault(kind)
  }
}
