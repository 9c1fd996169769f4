/** The code the library runs on behalf of its user, as finite data: coroutines, callbacks, and
    the calls both make on the awaitable that runs them. */
module UserCode {
  import opened PyObjects

  /** A visible action that is not a call on the awaitable. CallExit is a call of `__aexit__`, with
      three Nones or with the exception triple of `failure`. */
  datatype Action =
    | Print(id: int)
    | CallExit(manager: int, failure: Option<Exc>)

  /** One call made by user code on its own awaitable, or a visible action. */
  datatype Op =
    | AddAwait(coro: Coro, callback: Option<Callback>, errCallback: Option<Callback>)
    | DeferAwait(body: Option<Callback>)
    | SetResult(value: Value)
    | SetResultToArg
    | Cancel
    | Act(what: Action)

  /** The calls a callback makes, the code it returns, and the exception it leaves set when that
      code is negative. A callback that returns 0 or more leaves no exception set. */
  datatype Script = Script(ops: seq<Op>, code: int, exc: Option<Exc>)

  /** A callback picks a script by looking at its argument. */
  datatype Callback =
    | Always(body: Script)
    | Case(on: Value, body: Script, otherwise: Callback)

  /** A stretch of coroutine code that ends in a yield. */
  datatype Step = Step(ops: seq<Op>, value: Value)

  /** Something that can be awaited.
      - Plain: runs the steps, then `last`, then ends with `ending`
        (nothing, StopIteration for a return, or an error).
      - NotAwaited: `__await__` raises.
      - Nested: another PyAwaitable, given by the calls that built it. */
  datatype Coro =
    | Plain(steps: seq<Step>, last: seq<Op>, ending: Option<Exc>)
    | NotAwaited(exc: Exc)
    | Nested(build: seq<Op>)

  /** An entry of the queue. `id` counts the entries of one awaitable in order of allocation. */
  datatype Entry = Entry(
    id: nat, coro: Option<Coro>, callback: Option<Callback>, errCallback: Option<Callback>, done: bool)

  /** An awaitable is named by the path of entry ids that leads to it. */
  type Path = seq<nat>

  /** What a callback was called for. */
  datatype From = FromDefer | FromCallback | FromHandler(handled: Exc)

  /** What a run leaves in the log. `who` is the path of the entry, `aw` that of the awaitable.
      - Awaiting: the coroutine of the entry is about to be awaited
      - AwaitFailed: `__await__` raised
      - CoroEnded: the coroutine ended, with nothing, StopIteration or an error
      - Deferred, CalledBack, CalledError: a callback is called
      - Returned: it has returned `code` and left `left` set
      - Yielded, Acted: a value was yielded, a visible action was done
      - Finished: the run of the awaitable ended, with `end` set */
  datatype Event =
    | Awaiting(who: Path)
    | AwaitFailed(who: Path, exc: Exc)
    | CoroEnded(who: Path, ending: Option<Exc>)
    | Deferred(who: Path)
    | CalledBack(who: Path, value: Value)
    | CalledError(who: Path, exc: Exc)
    | Returned(who: Path, from: From, code: int, left: Option<Exc>)
    | Yielded(value: Value)
    | Acted(aw: Path, what: Action)
    | Finished(aw: Path, end: Option<Exc>)

  type Log = seq<Event>

  function ScriptFor(cb: Callback, arg: Value): Script {
    match cb
    case Always(body) => body
    case Case(on, body, otherwise) => if arg == on then body else ScriptFor(otherwise, arg)
  }

  /** The event is the call of a callback. */
  predicate IsCallback(call: Event) {
    call.Deferred? || call.CalledBack? || call.CalledError?
  }

  /** The return of the callback that was called, after it ran script `s`. */
  function ReturnOf(call: Event, s: Script): Event
    requires IsCallback(call)
  {
    match call
    case Deferred(who) => Returned(who, FromDefer, s.code, s.exc)
    case CalledBack(who, _) => Returned(who, FromCallback, s.code, s.exc)
    case CalledError(who, x) => Returned(who, FromHandler(x), s.code, s.exc)
  }

  predicate IsAdd(op: Op) {
    op.AddAwait? || op.DeferAwait?
  }

  /** The entry that an AddAwait or DeferAwait call appends. */
  function EntryOf(op: Op, id: nat): Entry
    requires IsAdd(op)
  {
    match op
    case AddAwait(coro, cb, err) => Entry(id, Some(coro), cb, err, false)
    case DeferAwait(body) => Entry(id, None, body, None, false)
  }

  /** What a call leaves in the log by itself. */
  function Seen(op: Op, aw: Path): Log {
    if op.Act? then [Acted(aw, op.what)] else []
  }

  // ---- Weight: an upper bound on the work a piece of user code can still cause ----

  ghost function OpWeight(op: Op): nat
    decreases op, 0
  {
    match op
    case AddAwait(coro, cb, err) => 1 + CoroWeight(coro) + MaybeWeight(cb) + MaybeWeight(err)
    case DeferAwait(body) => 1 + MaybeWeight(body)
    case _ => 0
  }

  ghost function OpsWeight(ops: seq<Op>): nat
    decreases ops, 0
  {
    if ops == [] then 0 else OpWeight(ops[0]) + OpsWeight(ops[1..])
  }

  ghost function CallbackWeight(cb: Callback): nat
    decreases cb, 0
  {
    match cb
    case Always(body) => OpsWeight(body.ops)
    case Case(_, body, otherwise) => OpsWeight(body.ops) + CallbackWeight(otherwise)
  }

  ghost function MaybeWeight(cb: Option<Callback>): nat
    decreases cb, 1
  {
    match cb
    case None => 0
    case Some(c) => CallbackWeight(c)
  }

  ghost function StepsWeight(steps: seq<Step>): nat
    decreases steps, 0
  {
    if steps == [] then 0 else 1 + OpsWeight(steps[0].ops) + StepsWeight(steps[1..])
  }

  ghost function CoroWeight(coro: Coro): nat
    decreases coro, 0
  {
    match coro
    case Plain(steps, last, _) => 2 + StepsWeight(steps) + OpsWeight(last)
    case NotAwaited(_) => 1
    case Nested(build) => 2 + OpsWeight(build)
  }

  ghost function CallsWeight(e: Entry): nat {
    MaybeWeight(e.callback) + MaybeWeight(e.errCallback)
  }

  ghost function EntryWeight(e: Entry): nat {
    1 + (match e.coro case None => 0 case Some(c) => CoroWeight(c)) + CallsWeight(e)
  }

  ghost function QueueWeight(queue: seq<Entry>): nat {
    if queue == [] then 0 else EntryWeight(queue[0]) + QueueWeight(queue[1..])
  }

  lemma {:induction false} QueueWeightAppend(queue: seq<Entry>, e: Entry)
    ensures QueueWeight(queue + [e]) == QueueWeight(queue) + EntryWeight(e)
  {
    if queue == [] {
      assert (queue + [e])[1..] == [];
    } else {
      QueueWeightAppend(queue[1..], e);
      assert (queue + [e])[1..] == queue[1..] + [e];
    }
  }

  lemma {:induction false} ScriptWeight(cb: Callback, arg: Value)
    ensures OpsWeight(ScriptFor(cb, arg).ops) <= CallbackWeight(cb)
  {
    match cb {
      case Always(_) =>
      case Case(on, body, otherwise) => ScriptWeight(otherwise, arg);
    }
  }
}
