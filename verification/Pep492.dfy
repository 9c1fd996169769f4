/** `PyAwaitable_AsyncWith` against the meaning that PEP 492 gives to `async with`: when the two
    agree, for code that does not cancel the awaitables of the statement. */
module Pep492 {
  import opened PyObjects
  import opened UserCode
  import opened Reference
  import opened Refinement
  import opened AsyncWith
  import opened Effects
  import opened Nesting
  import opened Safety
  import M = Machine

  // ---- What PEP 492 asks for ----

  /** What calling `__aenter__` or `__aexit__` and awaiting the result comes to. */
  function Awaited(called: Called): Conclusion {
    match called
    case Gives(coro) => Conclude(coro)
    case GivesOther => Throws(TypeError)
    case Raises(x) => Throws(x)
  }

  /** The awaits that are queued when the code of the body has run. */
  function BlockQueue(man: Manager, body: Option<Callback>): seq<Entry>
    requires man.enter.Gives? && Conclude(man.enter.coro).Returns?
  {
    Entries(CoroOps(man.enter.coro) + BodyScript(body, Conclude(man.enter.coro).value).ops)
  }

  /** How the block ends: by the failure of its code, or else as its awaits do. */
  ghost function BlockEnd(man: Manager, body: Option<Callback>): End
    requires man.enter.Gives? && Conclude(man.enter.coro).Returns?
  {
    var s := BodyScript(body, Conclude(man.enter.coro).value);
    if s.code >= 0 then Fate(BlockQueue(man, body))
    else Failing(if s.exc.None? then SystemError else s.exc.value)
  }

  /** The section "Asynchronous Context Managers and 'async with'" of PEP 492: after the whole block,
      `__aexit__` is called with what the block raised and awaited; its exception replaces that of the
      block, which is raised again unless the value is true. `suppress` says which values are. */
  ghost function Asked(man: Manager, body: Option<Callback>, suppress: Value -> bool): End {
    if !man.hasEnter || !man.hasExit then Failing(TypeError)
    else
      match Awaited(man.enter)
      case Breaks(_) => Undefined
      case Throws(x) => Failing(x)
      case Returns(_) =>
        match BlockEnd(man, body)
        case Undefined => Undefined
        case Normally => ExitEnd(man.exit(None), Normally)
        case Failing(x) =>
          var exit := Awaited(man.exit(Some(x)));
          if exit.Returns? && !suppress(exit.value) then Failing(x) else ExitEnd(man.exit(Some(x)), Normally)
  }

  /** `__aexit__()` raises, or the statement ends as `otherwise` says. */
  function ExitEnd(exit: Called, otherwise: End): End {
    match Awaited(exit)
    case Throws(x) => Verdict(Ended(Some(x)))
    case Breaks(_) => Undefined
    case Returns(_) => otherwise
  }

  // ---- What the code does ----

  /** How the statement ends: with the exception that `PyAwaitable_AsyncWith` sets, or as the run of
      the awaitable that it was called on. */
  ghost function StatementEnd(man: Manager, body: Option<Callback>, name: Path, log: Log): End {
    var (ops, exc) := With(man, body, None);
    if exc.Some? then Verdict(Ended(exc)) else Verdict(Drive(M.Await(M.Built(name, ops)), log).outcome)
  }

  /** The end of the run without a run: `__aexit__` is called before any await of the block has its
      turn, with the exception of the body's code only; what it gives is awaited after the awaits that the code
      queued, and before those that these add; and its value is not looked at. */
  ghost function Done(man: Manager, body: Option<Callback>): End
    requires man.enter.Gives?
  {
    match Conclude(man.enter.coro)
    case Breaks(_) => Undefined
    case Throws(x) => Verdict(Ended(Some(x)))
    case Returns(value) =>
      var s := BodyScript(body, value);
      if s.code < 0 && s.exc.None? then Failing(SystemError)
      else
        var exit := man.exit(Failure(s));
        if !exit.Gives? then ExitEnd(exit, Normally)
        else
          match FirstPass(BlockQueue(man, body))
          case Ends(end) => end
          case Adds(later) => ExitEnd(exit, Fate(later))
  }

  /** Nobody cancels the awaitables of the statement, and `__aexit__()` adds nothing to them. */
  ghost predicate Calm(man: Manager, body: Option<Callback>) {
    && (man.enter.Gives? ==> CalmCoro(man.enter.coro)) && CalmMaybe(body)
    && forall x :: man.exit(x).Gives? ==> CalmCoro(man.exit(x).coro) && Entries(CoroOps(man.exit(x).coro)) == []
  }

  // ---- Calm code ----

  lemma {:induction false} CalmSum(a: seq<Op>, b: seq<Op>)
    requires CalmOps(a) && CalmOps(b)
    ensures CalmOps(a + b)
  {
    if a == [] {
      assert a + b == b;
    } else {
      assert (a + b)[1..] == a[1..] + b;
      CalmSum(a[1..], b);
    }
  }

  lemma {:induction false} CalmInner(man: Manager, body: Callback)
    requires Calm(man, Some(body))
    ensures CalmCallback(InnerCallback(man, body))
  {
    assert CalmCallback(body);
    CalmInnerScript(man, body.body);
    match body
    case Always(_) =>
    case Case(_, _, otherwise) => CalmInner(man, otherwise);
  }

  lemma CalmInnerScript(man: Manager, s: Script)
    requires Calm(man, None) && CalmOps(s.ops)
    ensures CalmOps(InnerScript(man, s).ops)
  {
    if s.code >= 0 || s.exc.Some? {
      var call := Act(CallExit(man.id, Failure(s)));
      var adds := AddExpr(man.exit(Failure(s)), None, None).0;
      assert [call][1..] == [] && CalmOp(call) && CalmOps([]);
      assert CalmOps(adds) by {
        if adds != [] {
          assert adds[1..] == [];
        }
      }
      CalmSum(s.ops, [call]);
      CalmSum(s.ops + [call], adds);
    }
  }

  lemma CalmEnter(man: Manager, body: Option<Callback>)
    requires Calm(man, body) && man.enter.Gives?
    ensures CalmOps([Enter(man, body)])
  {
    if body.Some? {
      CalmInner(man, body.value);
    } else {
      CalmInnerScript(man, Script([], 0, None));
    }
    assert CalmCallback(Inner(man, body));
    assert CalmMaybe(Some(Inner(man, body))) && CalmMaybe(None) && CalmCoro(man.enter.coro);
    assert CalmOp(Enter(man, body));
    assert [Enter(man, body)][1..] == [] && CalmOps([]);
  }

  // ---- The end of the run ----

  /** What `__aenter__()` and `async_with_inner` do to the inner queue. */
  lemma InnerFate(man: Manager, body: Option<Callback>)
    requires Calm(man, body) && man.enter.Gives?
    ensures Fate(Entries([Enter(man, body)])) == Done(man, body)
  {
    var e, coro := EntryOf(Enter(man, body), 0), man.enter.coro;
    OneEntry(Enter(man, body));
    FateOfOne(e, []);
    assert Fate(Entries([Enter(man, body)])) == Then(EffectOf(e), []);
    assert EffectOf(e) == After(CoroOps(coro), EndEffect(Some(Inner(man, body)), None, Conclude(coro)));
    hide Fate, CalmOps, CalmCoro, CalmMaybe;
    match Conclude(coro)
    case Breaks(_) =>
    case Throws(_) =>
    case Returns(value) =>
      var s := BodyScript(body, value);
      if body.Some? {
        InnerScriptFor(man, body.value, value);
      }
      assert ScriptFor(Inner(man, body), value) == InnerScript(man, s);
      if (s.code >= 0 || s.exc.Some?) && man.exit(Failure(s)).Gives? {
        ExitFate(man, body);
        assert EffectOf(e) == Goes(CoroOps(coro) + InnerScript(man, s).ops);
      } else {
        assert Then(EffectOf(e), []) == Done(man, body);
      }
  }

  /** `__aexit__()` behind the queue of the block. */
  lemma ExitFate(man: Manager, body: Option<Callback>)
    requires Calm(man, body) && man.enter.Gives? && Conclude(man.enter.coro).Returns?
    requires var s := BodyScript(body, Conclude(man.enter.coro).value);
             (s.code >= 0 || s.exc.Some?) && man.exit(Failure(s)).Gives?
    ensures var i := InnerScript(man, BodyScript(body, Conclude(man.enter.coro).value));
            Then(Goes(CoroOps(man.enter.coro) + i.ops), []) == Done(man, body)
  {
    var s := BodyScript(body, Conclude(man.enter.coro).value);
    var coro, queue := man.exit(Failure(s)).coro, BlockQueue(man, body);
    var x := EntryOf(AddAwait(coro, None, None), 0);
    ExitQueue(man, s);
    hide Fate, Entries, CalmOps, CalmCoro, CalmMaybe, FirstPass, EffectOf, CoroOps;
    assert [] + (queue + [x]) == queue + [x];
    FateSplits(queue, [x]);
    if FirstPass(queue).Adds? {
      FateOfOne(x, FirstPass(queue).queue);
      AloofEffect(coro, FirstPass(queue).queue);
    }
  }

  /** What is queued once the block's code has run: what came before, and `__aexit__()` behind it. */
  lemma ExitQueue(man: Manager, s: Script)
    requires man.enter.Gives? && (s.code >= 0 || s.exc.Some?) && man.exit(Failure(s)).Gives?
    ensures var exit := AddAwait(man.exit(Failure(s)).coro, None, None);
            Entries(CoroOps(man.enter.coro) + InnerScript(man, s).ops)
            == Entries(CoroOps(man.enter.coro) + s.ops) + [EntryOf(exit, 0)]
  {
    var before, call := CoroOps(man.enter.coro) + s.ops, Act(CallExit(man.id, Failure(s)));
    var exit := AddAwait(man.exit(Failure(s)).coro, None, None);
    assert CoroOps(man.enter.coro) + (s.ops + [call] + [exit]) == before + ([call] + [exit]);
    EntriesAppend(before, [call] + [exit]);
    EntriesAppend([call], [exit]);
    OneEntry(call);
    OneEntry(exit);
    assert Entries([call] + [exit]) == [EntryOf(exit, 0)];
  }

  /** A coroutine without callbacks that adds nothing: its value is thrown away, its error ends the run. */
  lemma AloofEffect(coro: Coro, queue: seq<Entry>)
    requires Entries(CoroOps(coro)) == []
    ensures Then(EffectOf(EntryOf(AddAwait(coro, None, None), 0)), queue) == ExitEnd(Gives(coro), Fate(queue))
  {
    ThenAfter(CoroOps(coro), EndEffect(None, None, Conclude(coro)), queue);
    hide Fate;
    assert queue + [] == queue;
  }

  lemma OneEntry(op: Op)
    ensures Entries([op]) == if IsAdd(op) then [EntryOf(op, 0)] else []
  {
    assert [op][1..] == [] && Entries([op][1..]) == [];
  }

  lemma FateOfOne(e: Entry, queue: seq<Entry>)
    ensures Fate([e] + queue) == Then(EffectOf(e), queue)
    ensures queue == [] ==> Fate([e]) == Then(EffectOf(e), queue)
  {
    assert ([e] + queue)[1..] == queue;
    assert [e] + [] == [e];
  }

  /** The outer run ends as the inner one does, and that as `Done` says. */
  lemma StatementDone(man: Manager, body: Option<Callback>, name: Path, log: Log)
    requires Calm(man, body) && man.hasEnter && man.hasExit && man.enter.Gives?
    ensures StatementEnd(man, body, name, log) == Done(man, body)
  {
    var inner := [Enter(man, body)];
    var op := AddAwait(Nested(inner), None, None);
    CalmEnter(man, body);
    assert With(man, body, None) == ([op], None);
    assert [op][1..] == [] && CalmOps([op]);
    WholeRunFate(name, [op], log);
    OneEntry(op);
    FateOfOne(EntryOf(op, 0), []);
    InnerFate(man, body);
    CalmPerform(inner, PyNone, Env([], 0, [], None, false));
    assert Bare([]) + Entries(inner) == Entries(inner);
    RunFate(Built([], inner), []);
    assert EffectOf(EntryOf(op, 0)) == After([], EndEffect(None, None, Conclude(op.coro)));
    ThenAfter([], EndEffect(None, None, Conclude(op.coro)), []);
  }

  // ---- When the code meets PEP 492 ----

  /** Inside defined behaviour, and StopIteration is not used as an error. */
  ghost predicate Proper(man: Manager, body: Option<Callback>) {
    && Stopless(Awaited(man.enter))
    && (forall x :: Stopless(Awaited(man.exit(x))))
    && (Awaited(man.enter).Returns? ==>
          var s := BodyScript(body, Awaited(man.enter).value);
          s.code < 0 && s.exc.Some? ==> IsError(s.exc))
  }

  predicate Stopless(c: Conclusion) {
    !c.Breaks? && (c.Throws? ==> !c.exc.StopIteration?)
  }

  /** The statement is entered, and its code succeeds or fails with an exception. */
  ghost predicate Entered(man: Manager, body: Option<Callback>) {
    && man.hasEnter && man.hasExit && Awaited(man.enter).Returns?
    && CallsExit(body, Awaited(man.enter).value)
  }

  /** Without `__aenter__` and `__aexit__`, or when `__aenter__` fails, the statement always ends as asked. */
  lemma NotEnteredMeetsPep492(man: Manager, body: Option<Callback>, suppress: Value -> bool, name: Path, log: Log)
    requires Calm(man, body) && Proper(man, body)
    requires !man.hasEnter || !man.hasExit || !Awaited(man.enter).Returns?
    ensures StatementEnd(man, body, name, log) == Asked(man, body, suppress)
  {
    if man.hasEnter && man.hasExit && man.enter.Gives? {
      StatementDone(man, body, name, log);
    }
  }

  /** Where the awaits of the block go through, the statement ends as asked if and only if the block
      succeeds, or `__aexit__()` fails, or its value suppresses the exception of the block. */
  lemma MeetsPep492Iff(man: Manager, body: Option<Callback>, suppress: Value -> bool, name: Path, log: Log)
    requires Calm(man, body) && Proper(man, body) && Entered(man, body)
    requires FirstPass(BlockQueue(man, body)).Adds? && Fate(BlockQueue(man, body)) == Normally
    ensures var s := BodyScript(body, Awaited(man.enter).value);
            var exit := Awaited(man.exit(Failure(s)));
            StatementEnd(man, body, name, log) == Asked(man, body, suppress)
            <==> s.code >= 0 || exit.Throws? || suppress(exit.value)
  {
    StatementDone(man, body, name, log);
    FateGoesOn(BlockQueue(man, body));
  }

  lemma FateGoesOn(queue: seq<Entry>)
    ensures Fate(queue) == match FirstPass(queue) case Ends(end) => end case Adds(later) => Fate(later)
  {
    FateSplits(queue, []);
    assert queue + [] == queue;
    assert FirstPass(queue).Adds? ==> [] + FirstPass(queue).queue == FirstPass(queue).queue;
  }

  /** Where an await of the block fails with `y`, the statement raises what `__aexit__()` raised if that
      came first, and else `y`; this is as asked if and only if `__aexit__()`, told what the block
      raised, raises the same, or returns a value that does not suppress it. */
  lemma FailedAwaitMeetsPep492Iff(
    man: Manager, body: Option<Callback>, suppress: Value -> bool, y: Exc, name: Path, log: Log)
    requires Calm(man, body) && Proper(man, body) && Entered(man, body)
    requires Fate(BlockQueue(man, body)) == Failing(y)
    ensures var s := BodyScript(body, Awaited(man.enter).value);
            var exit := man.exit(Failure(s));
            var first := Awaited(exit).Throws? && (!exit.Gives? || FirstPass(BlockQueue(man, body)).Adds?);
            var raised := if first then Awaited(exit).exc else y;
            var failure := if s.code < 0 then s.exc.value else y;
            && StatementEnd(man, body, name, log) == Failing(raised)
            && (StatementEnd(man, body, name, log) == Asked(man, body, suppress)
                <==> match Awaited(man.exit(Some(failure)))
                     case Throws(x) => x == raised
                     case Returns(v) => !suppress(v) && failure == raised
                     case Breaks(_) => false)
  {
    StatementDone(man, body, name, log);
    FateGoesOn(BlockQueue(man, body));
  }

  /** Where a callback of the block ends the inner run without an error, `__aexit__()` is called and
      not awaited. */
  lemma CutShortMeetsPep492Iff(man: Manager, body: Option<Callback>, suppress: Value -> bool, name: Path, log: Log)
    requires Calm(man, body) && Proper(man, body) && Entered(man, body)
    requires FirstPass(BlockQueue(man, body)) == Ends(Normally)
    ensures var s := BodyScript(body, Awaited(man.enter).value);
            var exit := man.exit(Failure(s));
            && (exit.Gives? ==> StatementEnd(man, body, name, log) == Normally)
            && (StatementEnd(man, body, name, log) == Asked(man, body, suppress)
                <==> !exit.Gives? || (Awaited(exit).Returns? && (s.code >= 0 || suppress(Awaited(exit).value))))
  {
    StatementDone(man, body, name, log);
    FateGoesOn(BlockQueue(man, body));
  }

  /** Where the code of the block fails without an exception, the statement raises SystemError and
      `__aexit__` is not called. */
  lemma NoExceptionMeetsPep492Iff(man: Manager, body: Option<Callback>, suppress: Value -> bool, name: Path, log: Log)
    requires Calm(man, body) && Proper(man, body) && man.hasEnter && man.hasExit && Awaited(man.enter).Returns?
    requires !CallsExit(body, Awaited(man.enter).value)
    ensures && StatementEnd(man, body, name, log) == Failing(SystemError)
            && (StatementEnd(man, body, name, log) == Asked(man, body, suppress)
                <==> match Awaited(man.exit(Some(SystemError)))
                     case Throws(x) => x == SystemError
                     case Returns(v) => !suppress(v)
                     case Breaks(_) => false)
  {
    StatementDone(man, body, name, log);
  }

  /** The code does not meet PEP 492: the body raises, `__aexit__()` returns None, and nothing is
      raised. */
  lemma SwallowedException(name: Path)
    ensures var value := Gives(Plain([], [], Some(StopIteration(PyNone))));
            var man := Manager(0, true, true, value, _ => value);
            var body := Some(Always(Script([], -1, Some(User(1)))));
            && StatementEnd(man, body, name, []) == Normally
            && Asked(man, body, v => v != PyNone) == Failing(User(1))
  {
    var value := Gives(Plain([], [], Some(StopIteration(PyNone))));
    var man := Manager(0, true, true, value, _ => value);
    var body := Some(Always(Script([], -1, Some(User(1)))));
    StatementDone(man, body, name, []);
    assert CoroOps(value.coro) + BodyScript(body, PyNone).ops == [];
  }
}
