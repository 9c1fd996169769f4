/** Whole runs driven by `am_send`: what the caller is answered, one call after the other. */
module SendRuns {
  import opened PyObjects
  import opened UserCode
  import opened Reference
  import opened Refinement
  import opened Invariant
  import opened Nesting
  import opened Seqs
  import M = Machine

  /** The answers of a started awaitable to one `am_send` after the other, up to the first that is not
      NEXT. `reply` is what is sent, by number of the call. */
  function Answers(m: M.State, reply: nat -> Value, k: nat, log: Log): seq<M.SendResult>
    requires m.started
    decreases M.Weight(m)
  {
    var r := M.Send(m, reply(k), log);
    match r.out
    case Yield(v) => [M.AmSend(r.out)] + Answers(r.m, reply, k + 1, r.log + [Yielded(v)])
    case Stop(_) => [M.AmSend(r.out)]
  }

  /** One call, and the answers that are left. */
  lemma AnswersStep(m: M.State, reply: nat -> Value, k: nat, log: Log)
    requires m.started
    ensures var r := M.Send(m, reply(k), log);
            && r.m.started
            && (r.out.Yield? ==>
                  && M.Weight(r.m) < M.Weight(m)
                  && Answers(m, reply, k, log)
                     == [M.GenNext(r.out.value)] + Answers(r.m, reply, k + 1, r.log + [Yielded(r.out.value)]))
            && (r.out.Stop? ==> Answers(m, reply, k, log) == [M.AmSend(r.out)] && !M.AmSend(r.out).GenNext?)
  {
  }

  /** The last answer tells how the run ended: RETURN with the value of a StopIteration, ERROR with any other
      exception or with none, or defined behaviour was left. */
  ghost predicate Tells(answer: M.SendResult, outcome: Outcome) {
    && (forall v :: answer == M.GenReturn(v) <==> outcome == Ended(Some(StopIteration(v))))
    && (forall x: Exc :: answer == M.GenError(Some(x)) <==> outcome == Ended(Some(x)) && !x.StopIteration?)
    && (answer == M.GenError(None) <==> outcome == Ended(None))
    && (forall kind :: answer == M.GenFault(kind) <==> outcome == Faulted(kind))
  }

  /** NEXT with each value, in order, and then an answer that tells how the run ended. */
  ghost predicate Answered(answers: seq<M.SendResult>, values: seq<Value>, outcome: Outcome) {
    && |answers| == |values| + 1
    && (forall i :: 0 <= i < |values| ==> answers[i] == M.GenNext(values[i]))
    && Tells(answers[|values|], outcome)
  }

  function YieldsOf(ev: Event): seq<Value> {
    if ev.Yielded? then [ev.value] else []
  }

  lemma YieldsFirst(log: Log)
    requires log != []
    ensures Yields(log) == YieldsOf(log[0]) + Yields(log[1..])
  {
  }

  lemma {:induction false} YieldsAppend(a: Log, b: Log)
    ensures Yields(a + b) == Yields(a) + Yields(b)
  {
    if a == [] {
      assert a + b == b;
    } else {
      YieldsAppend(a[1..], b);
      YieldsFirst(a);
      YieldsFirst(a + b);
      hide Yields, YieldsOf;
      assert (a + b)[0] == a[0] && (a + b)[1..] == a[1..] + b;
      Assoc(YieldsOf(a[0]), Yields(a[1..]), Yields(b));
    }
  }

  lemma {:induction false} NoYields(log: Log)
    requires forall i :: 0 <= i < |log| ==> !log[i].Yielded?
    ensures Yields(log) == []
  {
    if log == [] {
    } else {
      NoYields(log[1..]);
    }
  }

  lemma OneYield(v: Value)
    ensures Yields([Yielded(v)]) == [v]
  {
    assert [Yielded(v)][1..] == [];
  }

  /** What a call of Next logs by itself adds no value. */
  lemma SilentYields(base: Log, log: Log)
    requires Silent(base, log)
    ensures Yields(log) == Yields(base)
  {
    assert log == base + log[|base|..];
    YieldsAppend(base, log[|base|..]);
    NoYields(log[|base|..]);
  }

  /** The answers from any state of a run. */
  lemma {:induction false} AnswersOfRun(m: M.State, reply: nat -> Value, k: nat, log: Log) returns (values: seq<Value>)
    requires Valid(m) && m.alive
    ensures Yields(Drive(m, log).log) == Yields(log) + values
    ensures Answered(Answers(m, reply, k, log), values, Drive(m, log).outcome)
    decreases M.Weight(m)
  {
    var r := M.Next(m, log);
    NextKeeps(m, log, log);
    SilentYields(log, r.log);
    hide Valid, Silent, Yields, M.Next, Tells;
    match r.out
    case Stop(outcome) =>
      values := [];
      AnswerTells(r.out);
    case Yield(v) =>
      YieldsAppend(r.log, [Yielded(v)]);
      OneYield(v);
      var later := AnswersOfRun(r.m, reply, k + 1, r.log + [Yielded(v)]);
      values := [v] + later;
      Assoc(Yields(log), [v], later);
      hide Answered;
      OneMoreAnswer(v, Answers(r.m, reply, k + 1, r.log + [Yielded(v)]), later, Drive(m, log).outcome);
  }

  lemma AnswerTells(out: M.Out)
    requires out.Stop?
    ensures Tells(M.AmSend(out), out.outcome)
  {
  }

  lemma OneMoreAnswer(v: Value, answers: seq<M.SendResult>, values: seq<Value>, outcome: Outcome)
    requires Answered(answers, values, outcome)
    ensures Answered([M.GenNext(v)] + answers, [v] + values, outcome)
  {
    hide Tells;
  }

  /** The whole run of an awaitable built by any calls and driven by `am_send`, with None sent first and
      anything later: NEXT None, NEXT with every value that the run of the interpreter yields, and last
      RETURN or ERROR as that run ends. */
  lemma SendDrivenAnswers(name: Path, build: seq<Op>, reply: nat -> Value)
    ensures var first := M.Send(M.Built(name, build), PyNone, []);
            var t := Run(Built(name, build), []);
            && first.m.started && M.AmSend(first.out) == M.GenNext(PyNone)
            && Answered(Answers(first.m, reply, 1, first.log), Yields(t.log), t.outcome)
  {
    M.BuiltWeight(name, build);
    BuiltValid(name, build);
    var values := AnswersOfRun(M.Await(M.Built(name, build)), reply, 1, []);
    WholeRun(name, build, []);
    assert [] + values == values;
  }

  /** An awaitable whose coroutine yields `v` and then raises `x`: NEXT None, NEXT `v`, ERROR with `x`. */
  lemma YieldThenError(name: Path, v: Value, x: Exc, reply: nat -> Value)
    requires !x.StopIteration?
    ensures var build := [AddAwait(Plain([Step([], v)], [], Some(x)), None, None)];
            var first := M.Send(M.Built(name, build), PyNone, []);
            && first.m.started && M.AmSend(first.out) == M.GenNext(PyNone)
            && Answers(first.m, reply, 1, first.log) == [M.GenNext(v), M.GenError(Some(x))]
  {
    var build := [AddAwait(Plain([Step([], v)], [], Some(x)), None, None)];
    var w := name + [0];
    SendDrivenAnswers(name, build, reply);
    YieldThenErrorRun(name, v, x);
    hide Answers, Run, M.Send, M.AmSend, Built;
    assert [Awaiting(w), Yielded(v), CoroEnded(w, Some(x)), Finished(name, Some(x))]
        == [Awaiting(w)] + ([Yielded(v)] + [CoroEnded(w, Some(x)), Finished(name, Some(x))]);
    YieldsAppend([Awaiting(w)], [Yielded(v)] + [CoroEnded(w, Some(x)), Finished(name, Some(x))]);
    YieldsAppend([Yielded(v)], [CoroEnded(w, Some(x)), Finished(name, Some(x))]);
    NoYields([Awaiting(w)]);
    NoYields([CoroEnded(w, Some(x)), Finished(name, Some(x))]);
    OneYield(v);
  }

  /** The same run, as the interpreter has it. */
  lemma YieldThenErrorRun(name: Path, v: Value, x: Exc)
    requires !x.StopIteration?
    ensures var w := name + [0];
            Run(Built(name, [AddAwait(Plain([Step([], v)], [], Some(x)), None, None)]), [])
            == Trace([Awaiting(w), Yielded(v), CoroEnded(w, Some(x)), Finished(name, Some(x))], Ended(Some(x)))
  {
    var build := [AddAwait(Plain([Step([], v)], [], Some(x)), None, None)];
    var e, rest, w := EntryOf(build[0], 0), Env(name, 1, [], None, false), name + [0];
    PerformOne(build[0], PyNone, Env(name, 0, [], None, false));
    var env := Built(name, build);
    assert env.queue == [e] && env.(queue := env.queue[1..]) == rest;
    RunFront(env, e.coro.value, []);
    assert Perform([], PyNone, rest) == rest && Actions([], name) == [] && Cancel !in [];
    var l := [] + [Awaiting(w)];
    assert l + [] + [Yielded(v)] == [Awaiting(w), Yielded(v)];
    assert YieldFrom(e, [Step([], v)], [], Some(x), rest, l)
        == YieldFrom(e, [], [], Some(x), rest, [Awaiting(w), Yielded(v)]);
    var end := [Awaiting(w), Yielded(v), CoroEnded(w, Some(x))];
    assert [Awaiting(w), Yielded(v)] + [] + [CoroEnded(w, Some(x))] == end;
    assert YieldFrom(e, [], [], Some(x), rest, [Awaiting(w), Yielded(v)]) == AfterCoro(e, Some(x), false, rest, end);
    assert AfterCoro(e, Some(x), false, rest, end) == Trace(end + [Finished(name, Some(x))], Ended(Some(x)));
  }
}
