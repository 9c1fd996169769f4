/** The awaitable object and its generator as objects, with the driver `Next` as a method that
    changes their fields in place. Nested awaitables are objects of their own. Every method is
    proved against the machine. */
module Driver {
  import opened PyObjects
  import opened UserCode
  import opened Reference
  import Invariant
  import M = Machine
  import Refinement
  import Runs
  import SendRuns
  import Nesting
  import opened Seqs
  import ValueStores

  /** The object that the generator is waiting for. A coroutine object is given by what it still
      has to do. */
  datatype Await =
    | Nothing
    | Coroutine(steps: seq<Step>, last: seq<Op>, ending: Option<Exc>)
    | Generator(gen: GenWrapper)
    | Exhausted

  /** What is passed to AddAwait. */
  datatype Target = Null | Self | NotAwaitable | Awaitable(coro: Coro)

  class Awaitable {
    ghost const name: Path
    ghost var Repr: set<object>
    var freed: seq<nat>  // the entries that callback_dealloc was called on
    var callbacks: seq<Entry>
    var state: nat
    var result: Option<Value>
    var recentlyCancelled: bool
    var done: bool
    var awaited: bool
    var gen: GenWrapper?
    const values: ValueStores.Stores  // aw_object_values and aw_arbitrary_values

    /** The objects form a chain: this awaitable, its generator, and the awaitable that the generator
        waits for, whose objects are none of ours. */
    ghost predicate Valid()
      reads this, Repr
      ensures Valid() ==> this in Repr
      decreases Repr
    {
      && this in Repr
      && (gen != null ==>
            && gen in Repr && gen.owner == this && (gen.aw == null || gen.aw == this)
            && (gen.current.Generator? ==>
                  var inner := gen.current.gen.owner;
                  && inner in Repr && inner.Repr <= Repr - {this, gen}
                  && inner.Valid() && inner.gen == gen.current.gen))
    }

    /** The state of the machine that these objects represent. */
    ghost function State(): M.State
      requires Valid()
      reads this, Repr
      decreases Repr
    {
      M.State(name, freed, callbacks, state, result, recentlyCancelled, done,
              gen != null, gen != null && gen.aw != null,
              if gen == null then None
              else match gen.current
                case Nothing => None
                case Coroutine(steps, last, ending) => Some(M.Frame(steps, last, ending))
                case Generator(g) => Some(M.Inner(g.owner.State()))
                case Exhausted => Some(M.Spent))
    }

    /** `awaitable_new_func`. */
    constructor (ghost name: Path)
      ensures Valid() && fresh(Repr) && State() == M.Fresh(name) && gen == null
    {
      this.name := name;
      freed, callbacks, state, result := [], [], 0, None;
      recentlyCancelled, done, awaited, gen := false, false, false, null;
      values := new ValueStores.Stores();
      Repr := {this};
    }

    /** `PyAwaitable_AddAwait`: appends an entry, or sets an exception and appends nothing. `memory`
        says whether both allocations succeed. */
    method AddAwait(target: Target, cb: Option<Callback>, err: Option<Callback>, memory: bool)
      returns (failure: Option<Exc>)
      requires Valid()
      modifies this`callbacks
      ensures Valid() && Repr == old(Repr)
      ensures failure == (match target
                          case Null => Some(ValueError)
                          case Self => Some(ValueError)
                          case NotAwaitable => Some(TypeError)
                          case Awaitable(_) => if memory then None else Some(MemoryError))
      ensures State() == if failure.Some? then old(State())
                         else M.Apply(Op.AddAwait(target.coro, cb, err), PyNone, old(State()))
    {
      if target.Null? || target.Self? {
        return Some(ValueError);
      }
      if target.NotAwaitable? {
        return Some(TypeError);
      }
      if !memory {
        return Some(MemoryError);
      }
      callbacks := callbacks + [Entry(|freed| + |callbacks|, Some(target.coro), cb, err, false)];
      return None;
    }

    /** `PyAwaitable_AddExpr`: NULL gives -1 without setting an exception of its own. */
    method AddExpr(expr: Target, cb: Option<Callback>, err: Option<Callback>, memory: bool)
      returns (code: int, failure: Option<Exc>)
      requires Valid()
      modifies this`callbacks
      ensures Valid() && Repr == old(Repr)
      ensures code == 0 <==> expr.Awaitable? && memory
      ensures code == -1 || code == 0
      ensures failure == (match expr
                          case Null => None
                          case Self => Some(ValueError)
                          case NotAwaitable => Some(TypeError)
                          case Awaitable(_) => if memory then None else Some(MemoryError))
      ensures State() == if code < 0 then old(State())
                         else M.Apply(Op.AddAwait(expr.coro, cb, err), PyNone, old(State()))
    {
      if expr.Null? {
        return -1, None;
      }
      failure := AddAwait(expr, cb, err, memory);
      code := if failure.Some? then -1 else 0;
    }

    /** `PyAwaitable_DeferAwait`. */
    method DeferAwait(body: Option<Callback>, memory: bool) returns (failure: Option<Exc>)
      requires Valid()
      modifies this`callbacks
      ensures Valid() && Repr == old(Repr)
      ensures failure == if memory then None else Some(MemoryError)
      ensures State() == if failure.Some? then old(State())
                         else M.Apply(Op.DeferAwait(body), PyNone, old(State()))
    {
      if !memory {
        return Some(MemoryError);
      }
      callbacks := callbacks + [Entry(|freed| + |callbacks|, None, body, None, false)];
      return None;
    }

    /** `PyAwaitable_SetResult`. */
    method SetResult(value: Value)
      requires Valid()
      modifies this`result
      ensures Valid() && Repr == old(Repr)
      ensures State() == M.Apply(Op.SetResult(value), PyNone, old(State()))
    {
      result := Some(value);
    }

    /** `PyAwaitable_Cancel`. The stored values stay. */
    method Cancel()
      requires Valid()
      modifies this, gen
      ensures Valid() && Repr == old(Repr) && gen == old(gen)
      ensures State() == M.Apply(Op.Cancel, PyNone, old(State()))
      ensures gen != null ==> gen.aw == old(gen.aw)
      ensures unchanged(values.objects) && (values.objects.items != null ==> unchanged(values.objects.items))
      ensures unchanged(values.arbitrary) && (values.arbitrary.items != null ==> unchanged(values.arbitrary.items))
    {
      freed := freed + M.Ids(callbacks);
      callbacks := [];
      state := 0;
      if gen != null {
        gen.current := Nothing;
      }
      recentlyCancelled := true;
      awaited := true;
    }

    /** `awaitable_close`. */
    method Close()
      requires Valid()
      modifies this, gen
      ensures Valid() && Repr == old(Repr) && State() == M.Close(old(State()))
    {
      Cancel();
      done := true;
    }

    /** `awaitable_next`: makes the generator, unless the awaitable is done. */
    method AwaitableNext() returns (failure: Option<Exc>)
      requires Valid() && (gen == null || done)
      modifies this
      ensures Valid() && fresh(Repr - old(Repr))
      ensures (State(), failure) == M.TryAwait(old(State()))
      ensures old(gen) == null ==> (failure.None? <==> gen != null)
    {
      if done {
        return Some(RuntimeError);
      }
      awaited := true;
      gen := new GenWrapper(this);
      Repr := Repr + {gen};
      return None;
    }

    /** The calls that a piece of user code makes on this awaitable, one after the other. */
    method Perform(ops: seq<Op>, arg: Value)
      requires Valid()
      modifies this, gen
      ensures Valid() && Repr == old(Repr) && gen == old(gen)
      ensures State() == M.Perform(ops, arg, old(State()))
      ensures gen != null ==> gen.aw == old(gen.aw)
    {
      var i := 0;
      while i < |ops|
        invariant 0 <= i <= |ops|
        invariant Valid() && Repr == old(Repr) && gen == old(gen) && (gen != null ==> gen.aw == old(gen.aw))
        invariant M.Perform(ops[i..], arg, State()) == M.Perform(ops, arg, old(State()))
      {
        assert ops[i..][0] == ops[i] && ops[i..][1..] == ops[i + 1..];
        match ops[i] {
          case AddAwait(coro, cb, err) => var _ := AddAwait(Target.Awaitable(coro), cb, err, true);
          case DeferAwait(body) => var _ := DeferAwait(body, true);
          case SetResult(v) => SetResult(v);
          case SetResultToArg => SetResult(arg);
          case Cancel => Cancel();
          case Act(_) =>
        }
        i := i + 1;
      }
    }

    /** `awaitable_send_with_arg`: the first send makes the generator and answers None. */
    method Send(value: Value, ghost log: Log) returns (out: M.Out, ghost log': Log)
      requires Valid()
      modifies Repr
      ensures Valid() && fresh(Repr - old(Repr))
      ensures var r := M.Send(old(State()), value, log);
              out == r.out && log' == r.log && (!(out.Stop? && out.outcome.Faulted?) ==> State() == r.m)
    {
      if gen == null {
        var failure := AwaitableNext();
        if failure.Some? {
          return M.Stop(Ended(failure)), log;
        }
        if value != PyNone {
          return M.Stop(Ended(Some(RuntimeError))), log;
        }
        return M.Yield(PyNone), log;
      }
      out, log' := gen.Next(log);
    }

    /** `awaitable_am_send`: NEXT with a value, or RETURN with the value of a StopIteration, or ERROR with
        the exception that is left set. */
    method AmSend(value: Value, ghost log: Log) returns (answer: M.SendResult, ghost log': Log)
      requires Valid()
      modifies Repr
      ensures Valid() && fresh(Repr - old(Repr))
      ensures var r := M.Send(old(State()), value, log);
              && log' == r.log && answer == M.AmSend(r.out)
              && (!(r.out.Stop? && r.out.outcome.Faulted?) ==> State() == r.m)
              && (r.out.Yield? ==> answer == M.GenNext(r.out.value))
              && (r.out.Stop? ==> SendRuns.Tells(answer, r.out.outcome))
    {
      var out;
      out, log' := Send(value, log);
      match out {
        case Yield(v) =>
          return M.GenNext(v), log';
        case Stop(Faulted(kind)) =>
          return M.GenFault(kind), log';
        case Stop(Ended(exc)) =>
          if exc.Some? && exc.value.StopIteration? {
            return M.GenReturn(exc.value.value), log';
          }
          return M.GenError(exc), log';
      }
    }
  }

  class GenWrapper {
    ghost const owner: Awaitable
    var aw: Awaitable?
    var current: Await

    /** `genwrapper_new`. */
    constructor (aw: Awaitable)
      ensures owner == aw && this.aw == aw && current == Nothing
    {
      this.owner, this.aw, current := aw, aw, Nothing;
    }

    /** This generator belongs to a valid awaitable. */
    ghost predicate Valid()
      reads owner, owner.Repr
    {
      owner.Valid() && owner.gen == this
    }

    ghost function State(): M.State
      requires Valid()
      reads owner, owner.Repr
    {
      owner.State()
    }

    /** DONE, unless the awaitable has been cancelled and the entry is gone. */
    method DoneIfOk()
      requires Valid() && aw != null && (State().cancelled || M.InRange(State()))
      modifies owner, this
      ensures Valid() && owner.Repr == old(owner.Repr) && State() == M.DoneIfOk(old(State()))
    {
      if !aw.recentlyCancelled {
        var cb := aw.callbacks[aw.state - 1];
        aw.callbacks := aw.callbacks[aw.state - 1 := cb.(done := true, coro := None)];
        current := Nothing;
      }
    }

    /** AW_DONE. */
    method AwDone()
      requires Valid() && aw != null
      modifies owner, this
      ensures Valid() && owner.Repr == old(owner.Repr) && State() == M.AwDone(old(State()))
    {
      aw.done := true;
      aw := null;
    }

    /** What a part of Next promises: the result, the log and, unless defined behaviour was left,
        the state are those of the machine. */
    ghost predicate Did(r: M.Res, out: M.Out, log: Log)
      requires Valid()
      reads owner, owner.Repr
    {
      out == r.out && log == r.log && (!(out.Stop? && out.outcome.Faulted?) ==> State() == r.m)
    }

    /** `_PyAwaitableGenWrapper_Next`. The parts of the C function that end in a call of itself are
        methods of their own below. `log` is the log so far, `log'` the log afterwards. */
    method Next(ghost log: Log) returns (out: M.Out, ghost log': Log)
      requires Valid()
      modifies owner.Repr
      ensures Valid() && fresh(owner.Repr - old(owner.Repr))
      ensures Did(M.Next(old(State()), log), out, log')
      decreases M.Weight(State()), 0
    {
      if aw == null {
        return M.Stop(Ended(Some(RuntimeError))), log;
      }
      if !current.Nothing? {
        // pyawaitable_array_ASSERT_INDEX
        if !(1 <= aw.state <= |aw.callbacks|) {
          return M.Stop(Faulted(OutOfRange)), log;
        }
        out, log' := Resume(log);
        return;
      }
      if |aw.callbacks| == aw.state {
        // maybe_set_result
        var stop := FinalStop(aw.result);
        AwDone();
        return M.Stop(Ended(Some(stop))), log + [Finished(owner.name, Some(stop))];
      }
      if |aw.callbacks| < aw.state {
        return M.Stop(Faulted(OutOfRange)), log;
      }
      aw.state := aw.state + 1;  // genwrapper_advance
      out, log' := Begin(log);
    }

    /** DONE_IF_OK and AW_DONE: the entry is done, and the run ends with `exc` set. */
    method Leave(exc: Option<Exc>, ghost log: Log) returns (out: M.Out, ghost log': Log)
      requires Valid() && aw != null && (State().cancelled || M.InRange(State()))
      modifies owner, this
      ensures Valid() && owner.Repr == old(owner.Repr)
      ensures Did(M.Ending(M.DoneIfOk(old(State())), exc, log), out, log')
    {
      DoneIfOk();
      AwDone();
      return M.Stop(Ended(exc)), log + [Finished(owner.name, exc)];
    }

    /** DONE_IF_OK and a call of Next: the entry is done, and the next one is taken. */
    method GoOn(ghost log: Log) returns (out: M.Out, ghost log': Log)
      requires Valid() && aw != null && (if State().cancelled then current.Nothing? else M.InRange(State()))
      modifies owner.Repr
      ensures Valid() && fresh(owner.Repr - old(owner.Repr))
      ensures Did(M.Next(M.DoneIfOk(old(State())), log), out, log')
      decreases 1 + M.Pending(State()), 1
    {
      M.DoneWeight(State());
      DoneIfOk();
      out, log' := Next(log);
    }

    /** The entry before the state index has just been taken. */
    method Begin(ghost log: Log) returns (out: M.Out, ghost log': Log)
      requires Valid() && aw != null && current.Nothing? && M.InRange(State())
      modifies owner.Repr
      ensures Valid() && fresh(owner.Repr - old(owner.Repr))
      ensures Did(M.Begin(old(State()), log), out, log')
      decreases M.Pending(State()) + EntryWeight(State().slots[State().state - 1]), 3
    {
      var cb := aw.callbacks[aw.state - 1];
      ghost var who := owner.name + [cb.id];
      match cb.coro {
        case None =>
          if cb.callback.None? {
            return M.Stop(Faulted(NullCoro)), log;
          }
          out, log' := FireDefer(log);
        case Some(NotAwaited(x)) =>
          out, log' := FireErrorAndNext(x, log + [Event.Awaiting(who), AwaitFailed(who, x)]);
        case Some(Plain(steps, last, ending)) =>
          current := Coroutine(steps, last, ending);
          out, log' := Resume(log + [Event.Awaiting(who)]);
        case Some(Nested(build)) =>
          M.BuiltWeight(who, build);
          AwaitNested(who, build);
          out, log' := Resume(log + [Event.Awaiting(who)]);
      }
    }

    /** `get_awaitable_iterator` of another awaitable, built by the calls `build`. */
    method AwaitNested(ghost who: Path, build: seq<Op>)
      requires Valid() && aw != null && current.Nothing?
      modifies owner, this
      ensures Valid() && fresh(owner.Repr - old(owner.Repr)) && aw == old(aw)
      ensures State() == old(State()).(current := Some(M.Inner(M.Await(M.Built(who, build)))))
    {
      var inner := new Awaitable(who);
      inner.Perform(build, PyNone);
      M.BuiltWeight(who, build);
      var failure := inner.AwaitableNext();
      current := Generator(inner.gen);
      owner.Repr := owner.Repr + inner.Repr;
    }

    /** The entry is a deferred callback. */
    method FireDefer(ghost log: Log) returns (out: M.Out, ghost log': Log)
      requires Valid() && aw != null && current.Nothing? && M.InRange(State())
      requires State().slots[State().state - 1].callback.Some?
      modifies owner.Repr
      ensures Valid() && fresh(owner.Repr - old(owner.Repr))
      ensures Did(M.FireDefer(old(State()), log), out, log')
      decreases 1 + M.Pending(State()) + M.Calls(State()), 2
    {
      var cb := aw.callbacks[aw.state - 1];
      var s := ScriptFor(cb.callback.value, PyNone);
      M.CallWeight(cb.callback.value, PyNone, State());
      aw.Perform(s.ops, PyNone);
      log' := Ran(log, owner.name, Event.Deferred(owner.name + [cb.id]), s);
      if s.code < 0 {
        out, log' := Leave(s.exc, log');
      } else {
        out, log' := GoOn(log');
      }
    }

    /** `tp_iternext` of the current await, and what follows. */
    method Resume(ghost log: Log) returns (out: M.Out, ghost log': Log)
      requires Valid() && aw != null && !current.Nothing? && M.InRange(State())
      modifies owner.Repr
      ensures Valid() && fresh(owner.Repr - old(owner.Repr))
      ensures Did(M.Resume(old(State()), log), out, log')
      decreases M.Pending(State()) + M.IterWeight(State().current.value) + M.Calls(State()), 6
    {
      match current {
        case Coroutine(steps, last, ending) =>
          if steps != [] {
            current := Coroutine(steps[1..], last, ending);
            aw.Perform(steps[0].ops, PyNone);
            return M.Yield(steps[0].value), log + Actions(steps[0].ops, owner.name);
          }
          current := Exhausted;
          ghost var who := owner.name + [aw.callbacks[aw.state - 1].id];
          M.PerformAfter(last, PyNone, State());
          aw.Perform(last, PyNone);
          out, log' := Settle(ending, log + Actions(last, owner.name) + [CoroEnded(who, ending)]);
        case Generator(inner) =>
          out, log' := Delegate(inner, log);
        case Exhausted =>
          return M.Stop(Faulted(StaleAwait)), log;
      }
    }

    /** The current await is the generator of another awaitable. */
    method Delegate(inner: GenWrapper, ghost log: Log) returns (out: M.Out, ghost log': Log)
      requires Valid() && aw != null && current == Generator(inner) && M.InRange(State())
      modifies owner.Repr
      ensures Valid() && fresh(owner.Repr - old(owner.Repr))
      ensures Did(M.Delegate(old(State()), old(inner.owner.State()), log), out, log')
      decreases M.Pending(State()) + 1 + M.Weight(inner.owner.State()) + M.Calls(State()), 5
    {
      hide M.Next, M.Settle;
      ghost var who := owner.name + [aw.callbacks[aw.state - 1].id];
      out, log' := inner.Next(log);
      owner.Repr := owner.Repr + inner.owner.Repr;
      if out.Stop? && out.outcome.Ended? {
        current := Exhausted;
        out, log' := Settle(out.outcome.exc, log' + [CoroEnded(who, out.outcome.exc)]);
      }
    }

    /** The current await has returned NULL, leaving `ending`. */
    method Settle(ending: Option<Exc>, ghost log: Log) returns (out: M.Out, ghost log': Log)
      requires Valid() && aw != null && (State().cancelled || M.InRange(State()))
      modifies owner.Repr
      ensures Valid() && fresh(owner.Repr - old(owner.Repr))
      ensures Did(M.Settle(old(State()), ending, log), out, log')
      decreases 1 + M.Pending(State()) + M.Calls(State()), 4
    {
      if aw.recentlyCancelled {
        // cb is NULL from here on
        if IsError(ending) {
          return M.Stop(Faulted(NullEntry)), log;
        }
        if !current.Nothing? {
          return M.Stop(Faulted(StaleAwait)), log;
        }
        out, log' := Next(log);
        return;
      }
      var cb := aw.callbacks[aw.state - 1];
      if IsError(ending) {
        out, log' := FireErrorAndNext(ending.value, log);
        return;
      }
      if cb.callback.None? {
        out, log' := GoOn(log);
        return;
      }
      out, log' := FireCallback(ReturnValue(ending), log);
    }

    /** The coroutine has ended with `value`: the result callback, and what follows for each return. */
    method FireCallback(value: Value, ghost log: Log) returns (out: M.Out, ghost log': Log)
      requires Valid() && aw != null && !State().cancelled && M.InRange(State())
      requires State().slots[State().state - 1].callback.Some?
      modifies owner.Repr
      ensures Valid() && fresh(owner.Repr - old(owner.Repr))
      ensures Did(M.Settle(old(State()), Some(StopIteration(value)), log), out, log')
      decreases 1 + M.Pending(State()) + M.Calls(State()), 3
    {
      var cb := aw.callbacks[aw.state - 1];
      var s := ScriptFor(cb.callback.value, value);
      M.CallWeight(cb.callback.value, value, State());
      aw.Perform(s.ops, value);
      assert State().cancelled || M.InRange(State());
      assert M.Pending(State()) <= old(M.Pending(State())) + MaybeWeight(cb.callback);
      hide M.Next, M.DoneIfOk, M.Ending, M.FireErrorAndNext, M.Perform, M.Pending;
      log' := Ran(log, owner.name, Event.CalledBack(owner.name + [cb.id], value), s);
      if s.code < 0 && s.exc.None? {
        // bad_callback
        if aw.recentlyCancelled {
          return M.Stop(Faulted(NullEntry)), log';
        }
        out, log' := Leave(Some(SystemError), log');
        return;
      }
      if s.code < -1 {
        out, log' := Leave(s.exc, log');
        return;
      }
      if s.code < 0 {
        if aw.recentlyCancelled {
          return M.Stop(Faulted(NullEntry)), log';
        }
        out, log' := FireErrorAndNext(s.exc.value, log');
        return;
      }
      out, log' := GoOn(log');
    }

    /** `_PyAwaitableGenWrapper_FireErrCallback`: -1 with the exception that is set afterwards, or 0. */
    method FireErrCallback(ghost who: Path, err: Option<Callback>, x: Exc, ghost log: Log)
      returns (res: int, exc: Option<Exc>, ghost log': Log)
      requires Valid() && aw != null
      modifies owner, this
      ensures Valid() && owner.Repr == old(owner.Repr) && aw == old(aw)
      ensures State() == if err.None? then old(State())
                         else M.Perform(ScriptFor(err.value, ExcObj(x)).ops, ExcObj(x), old(State()))
      ensures log' == if err.None? then log
                      else Ran(log, owner.name, Event.CalledError(who, x), ScriptFor(err.value, ExcObj(x)))
      ensures res == if err.None? || ScriptFor(err.value, ExcObj(x)).code < 0 then -1 else 0
      ensures exc == if res == 0 then None
                     else if err.None? || ScriptFor(err.value, ExcObj(x)).code == -1 then Some(x)
                     else ScriptFor(err.value, ExcObj(x)).exc
    {
      if err.None? {
        return -1, Some(x), log;
      }
      var s := ScriptFor(err.value, ExcObj(x));
      aw.Perform(s.ops, ExcObj(x));
      log' := Ran(log, owner.name, Event.CalledError(who, x), s);
      if s.code < 0 {
        // -1 restores the exception that was handled
        return -1, if s.code == -1 then Some(x) else s.exc, log';
      }
      return 0, None, log';
    }

    /** FIRE_ERROR_CALLBACK_AND_NEXT. */
    method FireErrorAndNext(x: Exc, ghost log: Log) returns (out: M.Out, ghost log': Log)
      requires Valid() && aw != null && M.InRange(State()) && (State().cancelled ==> current.Nothing?)
      modifies owner.Repr
      ensures Valid() && fresh(owner.Repr - old(owner.Repr))
      ensures Did(M.FireErrorAndNext(old(State()), x, log), out, log')
      decreases 1 + M.Pending(State()) + MaybeWeight(State().slots[State().state - 1].errCallback), 2
    {
      hide M.Next, M.Ending, M.DoneIfOk;
      var cb := aw.callbacks[aw.state - 1];
      if cb.errCallback.Some? {
        M.CallWeight(cb.errCallback.value, ExcObj(x), State());
      }
      var res, exc;
      res, exc, log' := FireErrCallback(owner.name + [cb.id], cb.errCallback, x, log);
      assert State().cancelled || M.InRange(State());
      assert 1 + M.Pending(State()) <= old(1 + M.Pending(State())) + MaybeWeight(cb.errCallback);
      hide M.Perform, M.Pending;
      if res < 0 {
        out, log' := Leave(exc, log');
      } else {
        out, log' := GoOn(log');
      }
    }

    /** What an event loop does: resume until a resumption returns NULL. `calls` counts the
        resumptions. */
    method Drive(ghost log: Log) returns (outcome: Outcome, calls: nat, ghost log': Log)
      requires Valid()
      modifies owner.Repr
      ensures Valid() && fresh(owner.Repr - old(owner.Repr))
      ensures Trace(log', outcome) == Refinement.Drive(old(State()), log)
      ensures calls == Runs.CallCount(old(State()), log)
    {
      var out;
      calls := 1;
      out, log' := Next(log);
      while out.Yield?
        invariant Valid() && fresh(owner.Repr - old(owner.Repr))
        invariant match out
                  case Yield(v) =>
                    && Refinement.Drive(State(), log' + [Yielded(v)]) == Refinement.Drive(old(State()), log)
                    && calls + Runs.CallCount(State(), log' + [Yielded(v)]) == Runs.CallCount(old(State()), log)
                  case Stop(o) =>
                    && Trace(log', o) == Refinement.Drive(old(State()), log)
                    && calls == Runs.CallCount(old(State()), log)
        decreases if out.Yield? then 1 + M.Weight(State()) else 0
      {
        ghost var before := State();
        calls := calls + 1;
        out, log' := Next(log' + [Yielded(out.value)]);
      }
      outcome := out.outcome;
    }
  }

  /** `PyAwaitable_New`: a new awaitable, or MemoryError. `memory` says whether the object and its three
      arrays are allocated. */
  method New(ghost name: Path, memory: bool) returns (aw: Awaitable?, failure: Option<Exc>)
    ensures memory ==> failure.None? && aw != null && aw.Valid() && fresh(aw.Repr) && aw.State() == M.Fresh(name)
    ensures !memory ==> failure == Some(MemoryError) && aw == null
  {
    if !memory {
      return null, Some(MemoryError);
    }
    aw := new Awaitable(name);
    failure := None;
  }

  /** Building an awaitable, awaiting it and driving it to the end: the objects give the trace of the
      reference interpreter, with one resumption for each value yielded and one more, and no entry is
      ever read outside the queue. */
  method AwaitToEnd(ghost name: Path, build: seq<Op>) returns (outcome: Outcome, calls: nat, ghost log: Log)
    ensures Trace(log, outcome) == Run(Built(name, build), [])
    ensures calls == Runs.YieldCount(log) + 1
    ensures outcome != Faulted(OutOfRange)
  {
    var aw := new Awaitable(name);
    aw.Perform(build, PyNone);
    Invariant.BuiltValid(name, build);
    M.BuiltWeight(name, build);
    var failure := aw.AwaitableNext();
    ghost var m := aw.State();
    outcome, calls, log := aw.gen.Drive([]);
    Refinement.WholeRun(name, build, []);
    Runs.OneCallPerYield(m, []);
    Runs.NeverOutOfRange(m, []);
  }

  /** Building an awaitable and driving it by `am_send`, with None first and then whatever `reply` says:
      NEXT None, NEXT with each value that the interpreter's run yields, and RETURN or ERROR as it ends. */
  method SendToEnd(ghost name: Path, build: seq<Op>, reply: nat -> Value) returns (answers: seq<M.SendResult>)
    ensures var t := Run(Built(name, build), []);
            && answers != [] && answers[0] == M.GenNext(PyNone)
            && SendRuns.Answered(answers[1..], Nesting.Yields(t.log), t.outcome)
  {
    var aw := new Awaitable(name);
    aw.Perform(build, PyNone);
    SendRuns.SendDrivenAnswers(name, build, reply);
    var first;
    ghost var log;
    first, log := aw.AmSend(PyNone, []);
    var later := SendOn(aw, reply, log);
    answers := [first] + later;
    assert answers[1..] == later;
  }

  /** The rest of it: `am_send` until it does not answer NEXT. */
  method SendOn(aw: Awaitable, reply: nat -> Value, ghost log: Log) returns (answers: seq<M.SendResult>)
    requires aw.Valid() && aw.State().started
    modifies aw.Repr
    ensures answers == SendRuns.Answers(old(aw.State()), reply, 1, log)
  {
    hide M.Send, M.AmSend, M.Weight, SendRuns.Answers, SendRuns.Tells;
    ghost var log' := log;
    ghost var expected := SendRuns.Answers(aw.State(), reply, 1, log);
    var k, running := 1, true;
    answers := [];
    while running
      invariant aw.Valid() && fresh(aw.Repr - old(aw.Repr))
      invariant running ==>
                  aw.State().started && answers + SendRuns.Answers(aw.State(), reply, k, log') == expected
      invariant !running ==> answers == expected
      decreases if running then 1 + M.Weight(aw.State()) else 0
    {
      ghost var sofar := answers;
      SendRuns.AnswersStep(aw.State(), reply, k, log');
      var answer;
      answer, log' := aw.AmSend(reply(k), log');
      answers := answers + [answer];
      if answer.GenNext? {
        log' := log' + [Yielded(answer.value)];
        k := k + 1;
        Assoc(sofar, [answer], SendRuns.Answers(aw.State(), reply, k, log'));
      } else {
        running := false;
      }
    }
  }
}
