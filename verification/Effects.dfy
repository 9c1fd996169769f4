/** The meaning of a queue without a run: for code that never cancels the awaitable it runs on, what
    an entry comes to depends on that entry alone, and a run takes the queue from the front and
    puts what each entry adds at the back. */
module Effects {
  import opened PyObjects
  import opened UserCode
  import opened Reference
  import opened Nesting
  import opened Safety
  import opened Refinement
  import M = Machine

  /** What awaiting something comes to: a value, an exception, or undefined behaviour. */
  datatype Conclusion = Returns(value: Value) | Throws(exc: Exc) | Breaks(kind: Fault)

  function Concluded(outcome: Outcome): Conclusion {
    match outcome
    case Faulted(kind) => Breaks(kind)
    case Ended(ending) => if IsError(ending) then Throws(ending.value) else Returns(ReturnValue(ending))
  }

  function Conclude(coro: Coro): Conclusion {
    match coro
    case Plain(_, _, ending) => Concluded(Ended(ending))
    case NotAwaited(x) => Throws(x)
    case Nested(build) => Concluded(NestedOutcome(build))
  }

  // ---- Code that does not cancel the awaitable it runs on ----

  ghost predicate CalmOps(ops: seq<Op>)
    decreases ops, 0
  {
    ops == [] || (CalmOp(ops[0]) && CalmOps(ops[1..]))
  }

  ghost predicate CalmOp(op: Op)
    decreases op, 0
  {
    match op
    case AddAwait(coro, cb, err) => CalmCoro(coro) && CalmMaybe(cb) && CalmMaybe(err)
    case DeferAwait(body) => CalmMaybe(body)
    case Cancel => false
    case _ => true
  }

  ghost predicate CalmMaybe(cb: Option<Callback>)
    decreases cb, 1
  {
    cb.None? || CalmCallback(cb.value)
  }

  ghost predicate CalmCallback(cb: Callback)
    decreases cb, 0
  {
    match cb
    case Always(body) => CalmOps(body.ops)
    case Case(_, body, otherwise) => CalmOps(body.ops) && CalmCallback(otherwise)
  }

  ghost predicate CalmSteps(steps: seq<Step>)
    decreases steps, 0
  {
    steps == [] || (CalmOps(steps[0].ops) && CalmSteps(steps[1..]))
  }

  /** A nested awaitable may cancel itself. */
  ghost predicate CalmCoro(coro: Coro)
    decreases coro, 0
  {
    coro.Plain? ==> CalmSteps(coro.steps) && CalmOps(coro.last)
  }

  ghost predicate CalmEntry(e: Entry) {
    (e.coro.Some? ==> CalmCoro(e.coro.value)) && CalmMaybe(e.callback) && CalmMaybe(e.errCallback)
  }

  ghost predicate CalmQueue(queue: seq<Entry>) {
    forall i :: 0 <= i < |queue| ==> CalmEntry(queue[i])
  }

  lemma {:induction false} CalmScript(cb: Callback, arg: Value)
    requires CalmCallback(cb)
    ensures CalmOps(ScriptFor(cb, arg).ops)
  {
    match cb
    case Always(_) =>
    case Case(_, _, otherwise) => CalmScript(otherwise, arg);
  }

  // ---- What one entry does to the queue ----

  /** The run goes on after the calls `ops`, or it ends. */
  datatype Effect = Goes(ops: seq<Op>) | Stops(end: End)

  /** How a run ends, for the one who waits for it. */
  datatype End = Normally | Failing(exc: Exc) | Undefined

  function Verdict(outcome: Outcome): End {
    match outcome
    case Faulted(_) => Undefined
    case Ended(end) => if IsError(end) then Failing(end.value) else Normally
  }

  function Raise(x: Option<Exc>): Effect {
    Stops(Verdict(Ended(x)))
  }

  function After(ops: seq<Op>, effect: Effect): Effect {
    match effect
    case Goes(later) => Goes(ops + later)
    case Stops(_) => effect
  }

  function ErrorEffect(err: Option<Callback>, x: Exc): Effect {
    match err
    case None => Raise(Some(x))
    case Some(cb) =>
      var s := ScriptFor(cb, ExcObj(x));
      if s.code >= 0 then Goes(s.ops) else Raise(if s.code == -1 then Some(x) else s.exc)
  }

  function ValueEffect(cb: Option<Callback>, err: Option<Callback>, value: Value): Effect {
    match cb
    case None => Goes([])
    case Some(body) =>
      var s := ScriptFor(body, value);
      if s.code >= 0 then Goes(s.ops)
      else if s.exc.None? then Raise(Some(SystemError))
      else if s.code < -1 then Raise(s.exc)
      else After(s.ops, ErrorEffect(err, s.exc.value))
  }

  function EndEffect(cb: Option<Callback>, err: Option<Callback>, c: Conclusion): Effect {
    match c
    case Returns(value) => ValueEffect(cb, err, value)
    case Throws(x) => ErrorEffect(err, x)
    case Breaks(_) => Stops(Undefined)
  }

  function StepsOps(steps: seq<Step>): seq<Op> {
    if steps == [] then [] else steps[0].ops + StepsOps(steps[1..])
  }

  /** The calls that a coroutine makes on the awaitable that awaits it. */
  function CoroOps(coro: Coro): seq<Op> {
    match coro
    case Plain(steps, last, _) => StepsOps(steps) + last
    case NotAwaited(_) => []
    case Nested(_) => []
  }

  function EffectOf(e: Entry): Effect {
    match e.coro
    case None =>
      if e.callback.None? then Stops(Undefined)
      else
        var s := ScriptFor(e.callback.value, PyNone);
        if s.code >= 0 then Goes(s.ops) else Raise(s.exc)
    case Some(coro) => After(CoroOps(coro), EndEffect(e.callback, e.errCallback, Conclude(coro)))
  }

  // ---- The meaning of a queue ----

  /** The entries that calls add, without their numbers. */
  function Entries(ops: seq<Op>): seq<Entry> {
    if ops == [] then []
    else (if IsAdd(ops[0]) then [EntryOf(ops[0], 0)] else []) + Entries(ops[1..])
  }

  function Bare(queue: seq<Entry>): (r: seq<Entry>)
    ensures |r| == |queue|
  {
    seq(|queue|, i requires 0 <= i < |queue| => queue[i].(id := 0))
  }

  /** The entries from the front, each with what it adds at the back, until one of them ends the run. */
  ghost function Fate(queue: seq<Entry>): End
    decreases QueueWeight(queue)
  {
    if queue == [] then Normally
    else
      match EffectOf(queue[0])
      case Stops(end) => end
      case Goes(ops) =>
        EffectWeight(queue[0]);
        EntriesWeight(ops);
        QueueWeightSum(queue[1..], Entries(ops));
        Fate(queue[1..] + Entries(ops))
  }

  /** What the entries of a queue add before any of that has its turn, or how they end the run. */
  datatype Pass = Adds(queue: seq<Entry>) | Ends(end: End)

  function FirstPass(queue: seq<Entry>): Pass {
    if queue == [] then Adds([])
    else
      match EffectOf(queue[0])
      case Stops(end) => Ends(end)
      case Goes(ops) =>
        match FirstPass(queue[1..])
        case Ends(end) => Ends(end)
        case Adds(later) => Adds(Entries(ops) + later)
  }

  /** What is queued behind others runs after all of them, and before anything that they add. */
  lemma {:induction false} FateSplits(front: seq<Entry>, back: seq<Entry>)
    ensures Fate(front + back) == match FirstPass(front)
                                  case Ends(end) => end
                                  case Adds(later) => Fate(back + later)
    decreases |front|
  {
    if front == [] {
      assert [] + back == back && back + [] == back;
    } else {
      assert (front + back)[1..] == front[1..] + back;
      match EffectOf(front[0])
      case Stops(_) =>
      case Goes(ops) =>
        FateSplits(front[1..], back + Entries(ops));
        assert front[1..] + back + Entries(ops) == front[1..] + (back + Entries(ops));
        match FirstPass(front[1..])
        case Ends(_) =>
        case Adds(later) => assert back + Entries(ops) + later == back + (Entries(ops) + later);
    }
  }

  // ---- Weights ----

  lemma {:induction false} QueueWeightSum(a: seq<Entry>, b: seq<Entry>)
    ensures QueueWeight(a + b) == QueueWeight(a) + QueueWeight(b)
  {
    if a == [] {
      assert a + b == b;
    } else {
      assert (a + b)[1..] == a[1..] + b;
      QueueWeightSum(a[1..], b);
    }
  }

  lemma {:induction false} OpsWeightSum(a: seq<Op>, b: seq<Op>)
    ensures OpsWeight(a + b) == OpsWeight(a) + OpsWeight(b)
  {
    if a == [] {
      assert a + b == b;
    } else {
      assert (a + b)[1..] == a[1..] + b;
      OpsWeightSum(a[1..], b);
    }
  }

  lemma {:induction false} EntriesWeight(ops: seq<Op>)
    ensures QueueWeight(Entries(ops)) <= OpsWeight(ops)
  {
    if ops == [] {
    } else {
      var first := if IsAdd(ops[0]) then [EntryOf(ops[0], 0)] else [];
      EntriesWeight(ops[1..]);
      QueueWeightSum(first, Entries(ops[1..]));
      assert QueueWeight(first) <= OpWeight(ops[0]) by {
        assert IsAdd(ops[0]) ==> first[1..] == [];
      }
    }
  }

  lemma {:induction false} StepsOpsWeight(steps: seq<Step>)
    ensures OpsWeight(StepsOps(steps)) <= StepsWeight(steps)
  {
    if steps == [] {
    } else {
      OpsWeightSum(steps[0].ops, StepsOps(steps[1..]));
      StepsOpsWeight(steps[1..]);
    }
  }

  lemma ErrorEffectWeight(err: Option<Callback>, x: Exc)
    ensures ErrorEffect(err, x).Goes? ==> OpsWeight(ErrorEffect(err, x).ops) <= MaybeWeight(err)
  {
    if err.Some? {
      ScriptWeight(err.value, ExcObj(x));
    }
  }

  lemma ValueEffectWeight(cb: Option<Callback>, err: Option<Callback>, value: Value)
    ensures ValueEffect(cb, err, value).Goes? ==>
              OpsWeight(ValueEffect(cb, err, value).ops) <= MaybeWeight(cb) + MaybeWeight(err)
  {
    if cb.Some? {
      var s := ScriptFor(cb.value, value);
      ScriptWeight(cb.value, value);
      if s.code == -1 && s.exc.Some? {
        ErrorEffectWeight(err, s.exc.value);
        if ErrorEffect(err, s.exc.value).Goes? {
          OpsWeightSum(s.ops, ErrorEffect(err, s.exc.value).ops);
        }
      }
    }
  }

  /** An entry adds less work than it is. */
  lemma EffectWeight(e: Entry)
    ensures EffectOf(e).Goes? ==> OpsWeight(EffectOf(e).ops) < EntryWeight(e)
  {
    match e.coro
    case None =>
      if e.callback.Some? {
        ScriptWeight(e.callback.value, PyNone);
      }
    case Some(coro) =>
      var end := EndEffect(e.callback, e.errCallback, Conclude(coro));
      match Conclude(coro) {
        case Returns(value) => ValueEffectWeight(e.callback, e.errCallback, value);
        case Throws(x) => ErrorEffectWeight(e.errCallback, x);
        case Breaks(_) =>
      }
      if coro.Plain? {
        StepsOpsWeight(coro.steps);
        OpsWeightSum(StepsOps(coro.steps), coro.last);
      }
      if end.Goes? {
        OpsWeightSum(CoroOps(coro), end.ops);
      }
  }

  // ---- Runs ----

  lemma {:induction false} EntriesAppend(a: seq<Op>, b: seq<Op>)
    ensures Entries(a + b) == Entries(a) + Entries(b)
  {
    if a == [] {
      assert a + b == b;
    } else {
      assert (a + b)[1..] == a[1..] + b;
      EntriesAppend(a[1..], b);
    }
  }

  lemma {:induction false} CalmPerform(ops: seq<Op>, arg: Value, env: Env)
    requires CalmOps(ops) && CalmQueue(env.queue) && !env.cancelled
    ensures var after := Perform(ops, arg, env);
            !after.cancelled && CalmQueue(after.queue) && Bare(after.queue) == Bare(env.queue) + Entries(ops)
  {
    hide CalmQueue, Bare, Apply, CalmOp;
    if ops == [] {
      assert Bare(env.queue) + [] == Bare(env.queue);
    } else {
      CalmApply(ops[0], arg, env);
      CalmPerform(ops[1..], arg, Apply(ops[0], arg, env));
      var first := if IsAdd(ops[0]) then [EntryOf(ops[0], 0)] else [];
      assert Bare(env.queue) + first + Entries(ops[1..]) == Bare(env.queue) + (first + Entries(ops[1..]));
    }
  }

  lemma CalmApply(op: Op, arg: Value, env: Env)
    requires CalmOp(op) && CalmQueue(env.queue) && !env.cancelled
    ensures var after := Apply(op, arg, env);
            && !after.cancelled && CalmQueue(after.queue)
            && Bare(after.queue) == Bare(env.queue) + if IsAdd(op) then [EntryOf(op, 0)] else []
  {
    if IsAdd(op) {
      assert CalmEntry(EntryOf(op, env.next));
    }
  }

  /** What is left of a run once an effect has taken place in front of `queue`. */
  ghost function Then(effect: Effect, queue: seq<Entry>): End {
    match effect
    case Stops(end) => end
    case Goes(ops) => Fate(queue + Entries(ops))
  }

  lemma ThenAfter(ops: seq<Op>, effect: Effect, queue: seq<Entry>)
    ensures Then(After(ops, effect), queue) == Then(effect, queue + Entries(ops))
  {
    hide Fate, Entries;
    if effect.Goes? {
      EntriesAppend(ops, effect.ops);
      assert queue + (Entries(ops) + Entries(effect.ops)) == queue + Entries(ops) + Entries(effect.ops);
    }
  }

  /** Where no queued code cancels, every run ends as the meaning of its queue says. */
  lemma {:induction false} RunFate(env: Env, log: Log)
    requires CalmQueue(env.queue) && !env.cancelled
    ensures Verdict(Run(env, log).outcome) == Fate(Bare(env.queue))
    decreases QueueWeight(env.queue), 0
  {
    if env.queue == [] {
      assert Bare(env.queue) == [];
    } else {
      var e, rest := env.queue[0], env.(queue := env.queue[1..]);
      var who := env.name + [e.id];
      assert Bare(env.queue)[1..] == Bare(rest.queue) && Bare(env.queue)[0] == e.(id := 0);
      assert EffectOf(e.(id := 0)) == EffectOf(e);
      assert CalmEntry(e) && CalmQueue(rest.queue);
      assert Fate(Bare(env.queue)) == Then(EffectOf(e), Bare(rest.queue));
      hide Fate, CalmQueue, Bare;
      match e.coro
      case None =>
        if e.callback.Some? {
          CallFate(e.callback.value, PyNone, Deferred(who), rest, log);
        }
      case Some(coro) =>
        ThenAfter(CoroOps(coro), EndEffect(e.callback, e.errCallback, Conclude(coro)), Bare(rest.queue));
        match coro
        case NotAwaited(x) =>
          OnErrorFate(e, x, rest, log + [Awaiting(who), AwaitFailed(who, x)]);
          assert Bare(rest.queue) + [] == Bare(rest.queue);
        case Plain(steps, last, ending) =>
          YieldFromFate(e, steps, last, ending, rest, log + [Awaiting(who)]);
        case Nested(build) =>
          NestedFate(e, build, rest, log + [Awaiting(who)]);
          assert Bare(rest.queue) + [] == Bare(rest.queue);
    }
  }

  lemma {:induction false} NestedFate(e: Entry, build: seq<Op>, env: Env, log: Log)
    requires CalmMaybe(e.callback) && CalmMaybe(e.errCallback) && CalmQueue(env.queue) && !env.cancelled
    ensures Verdict(Joined(e, env, Run(Built(env.name + [e.id], build), log)).outcome)
            == Then(EndEffect(e.callback, e.errCallback, Conclude(Nested(build))), Bare(env.queue))
    decreases QueueWeight(env.queue) + CallsWeight(e), 4
  {
    var who := env.name + [e.id];
    var t := Run(Built(who, build), log);
    BuiltAlike(who, [], build, log, []);
    if t.outcome.Ended? {
      AfterCoroFate(e, t.outcome.exc, env, t.log + [CoroEnded(who, t.outcome.exc)]);
    }
  }

  lemma {:induction false} CallFate(cb: Callback, arg: Value, call: Event, env: Env, log: Log)
    requires CalmCallback(cb) && CalmQueue(env.queue) && !env.cancelled && IsCallback(call)
    ensures var s := ScriptFor(cb, arg);
            var after := Perform(s.ops, arg, env);
            && CalmQueue(after.queue) && !after.cancelled
            && Bare(after.queue) == Bare(env.queue) + Entries(s.ops)
            && Verdict(Run(after, Ran(log, env.name, call, s)).outcome) == Fate(Bare(env.queue) + Entries(s.ops))
    decreases QueueWeight(env.queue) + CallbackWeight(cb), 1
  {
    var s := ScriptFor(cb, arg);
    ScriptWeight(cb, arg);
    CalmScript(cb, arg);
    CalmPerform(s.ops, arg, env);
    hide Fate, CalmQueue, Bare;
    RunFate(Perform(s.ops, arg, env), Ran(log, env.name, call, s));
  }

  lemma {:induction false} YieldFromFate(
    e: Entry, steps: seq<Step>, last: seq<Op>, ending: Option<Exc>, env: Env, log: Log)
    requires CalmSteps(steps) && CalmOps(last) && CalmMaybe(e.callback) && CalmMaybe(e.errCallback)
    requires CalmQueue(env.queue) && !env.cancelled
    ensures Verdict(YieldFrom(e, steps, last, ending, env, log).outcome)
            == Then(EndEffect(e.callback, e.errCallback, Concluded(Ended(ending))),
                    Bare(env.queue) + Entries(StepsOps(steps) + last))
    decreases QueueWeight(env.queue) + StepsWeight(steps) + OpsWeight(last) + CallsWeight(e), 4
  {
    hide Fate, CalmQueue, Bare, Then, Perform, Actions, Entries, EndEffect, CalmMaybe, CalmOp, AfterCoro;
    if steps == [] {
      var end := CoroEnded(env.name + [e.id], ending);
      CalmPerform(last, PyNone, env);
      CalmNoCancel(last);
      AfterCoroFate(e, ending, Perform(last, PyNone, env), log + Actions(last, env.name) + [end]);
      assert StepsOps(steps) + last == last;
    } else {
      var ops, after := steps[0].ops, Perform(steps[0].ops, PyNone, env);
      CalmPerform(ops, PyNone, env);
      CalmNoCancel(ops);
      YieldFromFate(e, steps[1..], last, ending, after, log + Actions(ops, env.name) + [Yielded(steps[0].value)]);
      var later := StepsOps(steps[1..]) + last;
      EntriesAppend(ops, later);
      assert StepsOps(steps) + last == ops + later;
      assert Bare(env.queue) + (Entries(ops) + Entries(later)) == Bare(env.queue) + Entries(ops) + Entries(later);
    }
  }

  lemma {:induction false} CalmNoCancel(ops: seq<Op>)
    requires CalmOps(ops)
    ensures Cancel !in ops
  {
    if ops == [] {
    } else {
      CalmNoCancel(ops[1..]);
      assert ops == [ops[0]] + ops[1..];
    }
  }

  lemma {:induction false} AfterCoroFate(e: Entry, ending: Option<Exc>, env: Env, log: Log)
    requires CalmMaybe(e.callback) && CalmMaybe(e.errCallback) && CalmQueue(env.queue) && !env.cancelled
    ensures Verdict(AfterCoro(e, ending, false, env, log).outcome)
            == Then(EndEffect(e.callback, e.errCallback, Concluded(Ended(ending))), Bare(env.queue))
    decreases QueueWeight(env.queue) + CallsWeight(e), 3
  {
    hide Fate, CalmQueue, Bare;
    if IsError(ending) {
      OnErrorFate(e, ending.value, env, log);
    } else if e.callback.None? {
      RunFate(env, log);
      assert Bare(env.queue) + [] == Bare(env.queue);
    } else {
      var value := ReturnValue(ending);
      var s := ScriptFor(e.callback.value, value);
      var call := CalledBack(env.name + [e.id], value);
      ScriptWeight(e.callback.value, value);
      CallFate(e.callback.value, value, call, env, log);
      if s.code == -1 && s.exc.Some? {
        OnErrorFate(e, s.exc.value, Perform(s.ops, value, env), Ran(log, env.name, call, s));
        ThenAfter(s.ops, ErrorEffect(e.errCallback, s.exc.value), Bare(env.queue));
      }
    }
  }

  lemma {:induction false} OnErrorFate(e: Entry, x: Exc, env: Env, log: Log)
    requires CalmMaybe(e.errCallback) && CalmQueue(env.queue) && !env.cancelled
    ensures Verdict(OnError(e, x, env, log).outcome) == Then(ErrorEffect(e.errCallback, x), Bare(env.queue))
    decreases QueueWeight(env.queue) + MaybeWeight(e.errCallback), 2
  {
    hide Fate, CalmQueue, Bare;
    if e.errCallback.Some? {
      CallFate(e.errCallback.value, ExcObj(x), CalledError(env.name + [e.id], x), env, log);
    }
  }

  /** The whole run of an awaitable built by calls that never cancel it: the queue it was built
      with says how it ends. */
  lemma WholeRunFate(name: Path, build: seq<Op>, log: Log)
    requires CalmOps(build)
    ensures Verdict(Drive(M.Await(M.Built(name, build)), log).outcome) == Fate(Entries(build))
  {
    WholeRun(name, build, log);
    CalmPerform(build, PyNone, Env(name, 0, [], None, false));
    assert Bare([]) + Entries(build) == Entries(build);
    RunFate(Built(name, build), log);
  }
}
