# PyAwaitable: a verified model

PyAwaitable lets C code build awaitable objects: a queue of entries, each a coroutine with a result
callback and an error callback, or a deferred callback. Awaiting the object makes a generator whose
`Next` walks the queue, emulates `yield from` over each coroutine, calls the callbacks, routes
exceptions by the return codes 0 / -1 / -2, and calls itself to move on. The user code that it runs on
the way may add entries, set the result or cancel the awaitable, and cancelling frees the entry that
is being worked on. This project models that driver, the array and the value stores under it, the
`async with` helper built on it, and the renaming done by the vendoring script, and proves what runs
of them do.

## How it is built

- `PyObjects.dfy`, `UserCode.dfy`: values, exceptions, and user code as finite data. A coroutine is a
  list of stretches of code, each ending in a yield, and an ending (nothing, a return, an error); or
  it fails at `__await__`; or it is another PyAwaitable. A callback picks a script by its argument; a
  script is a list of calls on the awaitable and of visible actions, a return code and an exception.
- `Reference.dfy`: the reference interpreter, a small recursive
  `try: v = yield from c; cb(v) except e: err(e)` over a queue, with no state index, no flags and no
  suspended iterators. It follows the "Formal Semantics" section of PEP 380 for None sends.
- `Machine.dfy`: the awaitable with its generator as one state, with the index, the done flags and the
  current await of the C structures, and `Next` as a total function on it.
- `Driver.dfy`: the classes `Awaitable` and `GenWrapper` with the fields of the C structures. Nested
  awaitables are objects of their own, to any depth. Each method is proved against the machine.
- `Refinement.dfy`: driving the machine gives the trace of the interpreter. `Invariant.dfy`,
  `Runs.dfy`, `SendRuns.dfy`, `Arguments.dfy`, `Safety.dfy`, `Routing.dfy`, `Causes.dfy`,
  `Provenance.dfy`, `Nesting.dfy`: what follows for runs.
- `Effects.dfy`: for code that does not cancel, the end of a run as a function of its queue alone.
- `AsyncWith.dfy`, `ExitCalls.dfy`, `Pep492.dfy`: the `async with` helper, the calls of `__aexit__` over
  whole runs, and how the helper compares with PEP 492.
- `DynArray.dfy`, `ValueStores.dfy`: the array as a class that changes its allocation in place, and the
  two value stores on it.
- `Text.dfy`, `Mangler.dfy`: string replacement, the order of the names, the fold over the files.

The log of a run records what an observer sees: an entry being started, `__await__` failing, a coroutine
ending and how, a deferred, result or error callback being called and with what, its return code and
the exception it leaves set, a value being yielded, a visible action, and the end of the run of an
awaitable. An entry is named by the path of entry ids that leads to it.

No condition is put on the calls that user code makes on its awaitable, or on the codes it returns;
a callback that returns 0 or more leaves no exception set. Where the C code leaves defined behaviour,
the machine and the interpreter both end the run with a *fault*: the entry is read through a pointer
that a cancel has set to NULL (`NullEntry`), a finished coroutine is left as the current await and
resumed again (`StaleAwait`), an entry has neither a coroutine nor a callback (`NullCoro`), or the
queue is read outside its length (`OutOfRange`). The refinement covers these runs too; `Safety.dfy`
says exactly when they happen, and `Runs.NeverOutOfRange` that the last one never does.

## Where the code and its documentation differ

- `docs/reference.rst` says that the value given to `PyAwaitable_SetResult` is returned to the `await`.
  The code raises it with `PyErr_SetObject(PyExc_StopIteration, result)`, and that call spreads a tuple
  over the arguments of the exception and takes a StopIteration object as the exception itself. A tuple
  comes back as its first item, or as None when it is empty. `Runs.LastResultComesBackIff` is the
  exact condition, `Runs.StoredComesBack` says what comes back in each case, and
  `Runs.PairComesBackAsFirst` is an input.
- `include/pyawaitable/awaitableobject.h` calls the cancel mark "recently" cancelled, but it is never
  taken back. A coroutine that is added after a cancel cannot be run to its end, unless it cancels
  again, and another awaitable never can: `Safety.AddedAfterCancelFaultsIff`, with the input
  `Safety.AddAfterCancel`.
- A result callback that cancels and then returns -1, or fails without an exception, makes the driver
  read the entry through the NULL pointer that the cancel left, although the code sets the error
  callback aside for that case (lines 329 and 330 of `src/_pyawaitable/genwrapper.c`) and does not use
  it: `Safety.EntryFaultsIff`, with the input `Safety.CancelAndFail`.
- `async with` calls `__aexit__` before the awaits that its body queued have run, and forgets the
  exception of the body, whatever `__aexit__` returns. Section "Asynchronous Context Managers and
  'async with'" of PEP 492 asks for `__aexit__` after the whole block, and raises the exception again
  unless `__aexit__` returns a true value. `Pep492.MeetsPep492Iff` and the three lemmas after it say
  exactly when the two end alike, and `Pep492.SwallowedException` is an input where they do not.

## Model

| member | source | states |
|---|---|---|
| Refinement.WholeRun | src/_pyawaitable/genwrapper.c:237-361 | for every series of calls that builds an awaitable, calling Next until it stops returning values gives the trace of the recursive interpreter: the same yields, callback calls, actions and outcome, in the same order |
| Refinement.DriveMeaning | src/_pyawaitable/genwrapper.c:237-361 | the same from every point at which a run can be suspended, with any nested runs suspended inside it |
| Refinement.NextAgrees | src/_pyawaitable/genwrapper.c:237-361 | one call of Next produces exactly the next part of what the interpreter would still do, up to a yield or the end |
| Refinement.PerformAbs | src/_pyawaitable/awaitable.c:138-262 | any calls of user code keep the index, the array and the interpreter's queue in step |
| Machine.Next | src/_pyawaitable/genwrapper.c:45-49 | the self-recursion ends, and a call that yields leaves strictly less work, counting what callbacks can still add |
| Driver.AwaitToEnd | src/_pyawaitable/genwrapper.c:237-361 | building the objects, awaiting them and resuming to the end gives the trace of the interpreter, with one resumption for each value yielded and one more, and never reads outside the queue |
| Driver.GenWrapper.Next | src/_pyawaitable/genwrapper.c:237-285 | the objects after a call, its result and what it logged are those of the machine, with nested generators resumed as objects |
| Driver.GenWrapper.Begin | src/_pyawaitable/genwrapper.c:260-282 | a freshly taken entry is a deferred callback, fails at `__await__`, or becomes the current await |
| Driver.GenWrapper.FireDefer | src/_pyawaitable/genwrapper.c:264-275 | a deferred callback runs once; a negative code ends the run with its exception, also after a cancel |
| Driver.GenWrapper.AwaitNested | src/_pyawaitable/genwrapper.c:213-235 | awaiting another awaitable gives a new generator over it, as the current await |
| Driver.GenWrapper.Resume | src/_pyawaitable/genwrapper.c:287-294 | a resumption runs one stretch of the coroutine, passes its yield through, or goes on to its ending |
| Driver.GenWrapper.Delegate | src/_pyawaitable/genwrapper.c:287-300 | a resumption of a nested generator passes its yield through, or treats its end as that of a coroutine |
| Driver.GenWrapper.Settle | src/_pyawaitable/genwrapper.c:296-360 | what follows the end of a coroutine: result callback, error routing by 0 / -1 / -2, SystemError, or a fault after a cancel |
| Driver.GenWrapper.FireErrCallback | src/_pyawaitable/genwrapper.c:117-155 | without a callback or after -1 the exception is set again; after a lower code the one the callback left; otherwise none |
| Driver.GenWrapper.FireErrorAndNext | src/_pyawaitable/genwrapper.c:34-46 | a failure goes to the error callback, and ends the run or goes on with the next entry |
| Driver.GenWrapper.DoneIfOk | src/_pyawaitable/genwrapper.c:8-27 | the entry is marked done, its coroutine and the current await are let go, unless a cancel has freed it |
| Driver.GenWrapper.AwDone | src/_pyawaitable/genwrapper.c:12-16 | the awaitable is done and the generator lets go of it |
| Driver.GenWrapper.Drive | src/_pyawaitable/genwrapper.c:237-361 | resuming until NULL gives the run of the machine and its number of calls |
| Driver.New | src/_pyawaitable/awaitable.c:21-61 | a new awaitable is empty, not started, not done; or MemoryError and no awaitable |
| Driver.Awaitable.AddAwait | src/_pyawaitable/awaitable.c:154-210 | appends one untouched entry, or fails with the exception of the case and appends nothing |
| Driver.Awaitable.AddExpr | src/_pyawaitable/awaitable.c:212-228 | the same, with -1 and no exception of its own for NULL |
| Driver.Awaitable.DeferAwait | src/_pyawaitable/awaitable.c:230-253 | appends one entry without a coroutine, or fails and appends nothing |
| Driver.Awaitable.SetResult | src/_pyawaitable/awaitable.c:255-262 | replaces the stored result and changes nothing else |
| Driver.Awaitable.Cancel | src/_pyawaitable/awaitable.c:138-152 | deallocates every queued entry, resets the index, drops the current await, sets the mark; both value stores are unchanged |
| Driver.Awaitable.AwaitableNext | src/_pyawaitable/awaitable.c:63-78 | makes the generator, or RuntimeError when the awaitable is done, also for a second await after the run ended |
| Driver.Awaitable.Close | src/_pyawaitable/coro.c:39-46 | cancels and makes later awaits fail |
| Driver.Awaitable.Send | src/_pyawaitable/coro.c:8-31 | the first send makes the generator and answers None, or RuntimeError for another value; later sends resume |
| Driver.Awaitable.AmSend | src/_pyawaitable/coro.c:106-130 | NEXT with the value yielded; RETURN with the value of a StopIteration; ERROR with any other exception |
| Driver.SendToEnd | src/_pyawaitable/coro.c:106-130 | driving the objects by am_send answers NEXT None, NEXT with each value of the interpreter's run in order, and RETURN or ERROR as that run ends |
| Invariant.NextKeeps | src/_pyawaitable/genwrapper.c:157-164 | Next keeps the invariant: index within the queue, earlier entries done with their coroutine let go, later ones untouched, every allocated entry either queued or deallocated, in order; and a NULL ends the generator |
| Invariant.CallsKeepValid | src/_pyawaitable/awaitable.c:138-262 | calls made from anywhere, at any point of a run, keep the invariant |
| Invariant.BuiltValid | src/_pyawaitable/awaitable.c:21-78 | an awaitable built by any calls satisfies the invariant before and after it is awaited |
| Runs.NeverOutOfRange | src/_pyawaitable/genwrapper.c:157-164 | no run reads the queue outside its length |
| Runs.OneCallPerYield | src/_pyawaitable/genwrapper.c:237-361 | a run driven to its end makes as many calls as it yields values, plus one |
| Runs.StopIsEnd | src/_pyawaitable/genwrapper.c:12-16 | a call that returns NULL inside defined behaviour has ended the run |
| Runs.EndIsFinal | src/_pyawaitable/genwrapper.c:243-249 | after the end, whatever is called in whatever order: every resumption is a RuntimeError, nothing runs, a new await is refused, entries left behind stay |
| Runs.CancelDrains | src/_pyawaitable/awaitable.c:138-152 | a cancel before the awaitable is awaited or in any state of its run, with no add after it: every entry ever allocated is deallocated exactly once, nothing more runs, and the run ends with the last result that was set |
| Runs.CancelInCoroutine | src/_pyawaitable/genwrapper.c:291-306 | a coroutine that cancels before a yield: the value is yielded and nothing queued runs any more |
| Runs.CancelInDefer | src/_pyawaitable/genwrapper.c:264-275 | a deferred callback that cancels, with any return code: no fault, and nothing queued runs |
| Runs.CancelInCallback | src/_pyawaitable/genwrapper.c:329-360 | a result callback that cancels: how the run ends for each return, the faulty ones included |
| Runs.CancelInHandler | src/_pyawaitable/genwrapper.c:137-154 | an error callback that cancels, with any return code: no fault, and nothing queued runs |
| Runs.CloseEnds | src/_pyawaitable/coro.c:39-46 | close before or during a run: every entry ever allocated is deallocated exactly once, no await is accepted afterwards, and a generator already there ends with the stored result |
| Runs.SendsAfterClose | src/_pyawaitable/coro.c:8-31 | an awaitable closed before it was started answers every send with RuntimeError and does not change |
| Runs.SendsLikeNexts | src/_pyawaitable/coro.c:8-31 | any series of sends on a fresh awaitable: first None or RuntimeError, then what as many resumptions give, whatever is sent |
| Runs.SendDrivenRun | src/_pyawaitable/coro.c:8-31 | driving by send, with any replies, is the run of the interpreter with one more None in front |
| SendRuns.SendDrivenAnswers | src/_pyawaitable/coro.c:106-130 | a whole run driven by am_send, whatever is sent: NEXT None, NEXT with each value yielded, in order; then RETURN with v if and only if the run ends with StopIteration(v), and ERROR with the exception otherwise |
| SendRuns.YieldThenError | src/_pyawaitable/coro.c:106-130 | a coroutine that yields and then raises: NEXT None, NEXT with its value, ERROR with its exception |
| Arguments.ResultCallbackRuns | src/_pyawaitable/genwrapper.c:166-187 | a coroutine returns v, or ends without an exception and v is None: its result callback is called with v and does what it does for v, and the run goes on with whatever is queued |
| Arguments.OtherwiseRuns | src/_pyawaitable/genwrapper.c:320-332 | a callback that looks for another value does the rest of what it says |
| Arguments.ErrorCallbackRuns | src/_pyawaitable/genwrapper.c:117-155 | a coroutine raises x: its error callback is called with x and does what it does for x, whether or not there is a result callback, and its code decides |
| Arguments.ReturnValueReachesResult | src/_pyawaitable/genwrapper.c:320-332 | a result callback that stores its argument makes what the coroutine returned the result of the await |
| Arguments.CallbackChooses | src/_pyawaitable/genwrapper.c:320-332 | a result callback that looks at its argument decides the result by it |
| Arguments.ExceptionReachesHandler | src/_pyawaitable/genwrapper.c:117-155 | the whole trace of a raising coroutine with an error callback, for every return code and with any result callback |
| Arguments.AwaitErrorReachesHandler | src/_pyawaitable/genwrapper.c:277-282 | the same where `__await__` raises |
| Arguments.CallbackErrorReachesHandler | src/_pyawaitable/genwrapper.c:329-360 | the same where the result callback returns -1 |
| Runs.LastResultComesBackIff | src/_pyawaitable/genwrapper.c:189-201 | a run that comes to the end of its queue, from any state, raises the result stored last; am_send returns that value if and only if it is neither a tuple nor a StopIteration object |
| Runs.StoredComesBack | src/_pyawaitable/genwrapper.c:189-201 | what the await gives for a stored value: the first item of a tuple, None for an empty one, what a StopIteration object carries, and any other value itself |
| Runs.NothingComesBackAsNone | src/_pyawaitable/genwrapper.c:189-201 | without a stored value the await gives None |
| Runs.LastStoredWins | src/_pyawaitable/awaitable.c:255-262 | of several stored values the last one counts, also where a cancel comes before or after it |
| Runs.PairComesBackAsFirst | src/_pyawaitable/genwrapper.c:189-201 | a pair given to SetResult comes back as its first item |
| Safety.TameIsSafe | src/_pyawaitable/genwrapper.c:17-33 | user code that adds nothing after a cancel, does not fail after one in the two bad ways and gives every deferred entry a callback never makes a run fault, at any depth: the freed entry is not used |
| Safety.EntryFaultsIff | src/_pyawaitable/genwrapper.c:296-360 | among otherwise tame code, an entry with a coroutine or awaitable of any kind faults if and only if its coroutine gets to its last stretch, cancels there and ends with an error, or its result callback cancels and returns -1 or fails without an exception |
| Safety.AddedAfterCancelFaultsIff | src/_pyawaitable/genwrapper.c:296-318 | a coroutine added after a cancel makes the run fault if and only if it does not cancel again before a yield and either does not cancel in its last stretch or ends with an error; another awaitable always does |
| Safety.CancelAndFail | src/_pyawaitable/genwrapper.c:329-360 | one entry whose result callback cancels and returns -1 faults, whatever the exception and the error callback |
| Safety.AddAfterCancel | src/_pyawaitable/genwrapper.c:296-318 | a cancel followed by a coroutine that does nothing faults |
| Routing.WholeRunRouted | src/_pyawaitable/genwrapper.c:253-361 | over a whole run with all nested runs: each entry starts at most once, its coroutine ends at most once, each callback is called at most once, never the result callback after the error callback; the entries of one awaitable run one after the other in order of allocation, with all that is nested in an entry at its place among them |
| Routing.NestedRunsInside | src/_pyawaitable/genwrapper.c:213-300 | whatever happens in a nested awaitable, to any depth, lies between the start of the entry that waits for it and the end of its coroutine, and before anything of a later entry |
| Causes.WholeRunExplained | src/_pyawaitable/genwrapper.c:117-155 | over a whole run with all nested runs, each event is followed only by what the codes 0 / -1 / -2 allow: a coroutine's error, a failing `__await__` or a result callback's -1 goes to the error callback or ends the run with it; after an error callback's -1 the run ends with the exception it was called with, after less with the callback's own; after 0 the next entry starts or the run ends with the result; the end of a nested run is the end of its entry's coroutine; every return answers one call of the same callback, with only its actions in between, and every call is answered |
| Causes.CallbacksHaveCauses | src/_pyawaitable/genwrapper.c:296-360 | a result callback is called only right after its coroutine ended without an error, with its value; an error callback only right after its coroutine or `__await__` raised that exception, or its result callback returned -1 with it |
| Causes.CallbackGetsReturnValue | src/_pyawaitable/genwrapper.c:166-187 | at every depth, a result callback called with u comes right after its coroutine ended with StopIteration(u), or without an exception and u is None |
| Causes.ErrorCallbackDecides | src/_pyawaitable/genwrapper.c:117-155 | an error callback called with an exception returns having only acted, and then: 0 or more, the awaitable goes on; -1, its run ends with that exception; less, with what the callback left set |
| Provenance.RunSays | src/_pyawaitable/genwrapper.c:237-361 | every action that a run shows was written somewhere in the code of its queue, at any depth |
| Nesting.NestedIsACoroutine | src/_pyawaitable/genwrapper.c:213-235 | the yields and the outcome of an awaitable do not depend on where it runs |
| Nesting.FlatteningPreservesMeaning | src/_pyawaitable/genwrapper.c:213-235 | replacing every nested awaitable, at any depth and in all callbacks, by a plain coroutine with the yields and outcome of its own run changes nothing that the outer awaitable shows |
| Effects.WholeRunFate | src/_pyawaitable/genwrapper.c:237-361 | where no queued code cancels, a run ends as its queue says: entries from the front, what each adds at the back, each decided by its own code alone, up to the first that ends the run |
| Effects.FateSplits | src/_pyawaitable/genwrapper.c:253-282 | what is queued behind other entries runs after all of them and before anything that they add |
| AsyncWith.ExitFollowsBody | src/_pyawaitable/with.c:6-71 | after the body succeeds or fails with an exception, `__aexit__` is called at once with Nones or with that exception, and what it gives is queued behind everything the body queued |
| AsyncWith.ExitFails | src/_pyawaitable/with.c:32-70 | a body that fails without an exception never gets to `__aexit__`; an `__aexit__` that raises or gives no awaitable ends the inner run with that exception |
| ExitCalls.ExitOverInnerRun | src/_pyawaitable/with.c:6-71 | over the whole run of the inner awaitable, for every manager, body and coroutine of any shape: `__aexit__` is called exactly once, and told the exception of the body or three Nones, when `__aenter__()` completes without a cancel and the body succeeds or fails with an exception; and never otherwise |
| ExitCalls.ExitOverOuterRun | src/_pyawaitable/with.c:73-144 | the same over the whole run of an awaitable on which `PyAwaitable_AsyncWith` is called anywhere among other code, which may add, cancel and raise: the same calls if the statement is entered and its turn comes, none otherwise |
| ExitCalls.NoBodyOverInnerRun | src/_pyawaitable/with.c:18-50 | without a body, `__aexit__` is called with three Nones |
| ExitCalls.FailingBodyOverInnerRun | src/_pyawaitable/with.c:18-50 | a body that gets the value of `__aenter__()` and raises x for it: `__aexit__` is told x |
| Pep492.StatementDone | src/_pyawaitable/with.c:6-144 | how a statement that nobody cancels ends: `__aexit__` is called before the awaits of the block run and told the exception of the body's code only; what it gives is awaited behind the awaits the code queued and before those that these add; its value is ignored |
| Pep492.MeetsPep492Iff | src/_pyawaitable/with.c:6-71 | where the awaits of the block go through, the statement ends as PEP 492 asks if and only if the block succeeds, or `__aexit__()` fails, or its value suppresses the exception |
| Pep492.FailedAwaitMeetsPep492Iff | src/_pyawaitable/with.c:52-71 | where an await of the block fails, which exception the statement raises, and that this is as asked if and only if `__aexit__()`, told what the block raised, raises the same or does not suppress it |
| Pep492.CutShortMeetsPep492Iff | src/_pyawaitable/with.c:52-71 | where a callback ends the inner run without an error, `__aexit__()` is not awaited, and exactly when this ends as asked |
| Pep492.NoExceptionMeetsPep492Iff | src/_pyawaitable/with.c:32-39 | where the body fails without an exception, the statement raises SystemError, and exactly when this is as asked |
| Pep492.NotEnteredMeetsPep492 | src/_pyawaitable/with.c:81-137 | a statement that is not entered always ends as asked |
| Pep492.SwallowedException | src/_pyawaitable/with.c:6-71 | a body that raises and an `__aexit__()` that returns None: nothing is raised, where PEP 492 asks for the exception |
| DynArray.Play | src/_pyawaitable/array.c:55-140 | any series of operations, allocations failing or not: the array holds what they make of a sequence, a refused append or insert leaves it as it is; what was put in and what was popped are what the calls put in and popped, and each item put in is live, popped or deallocated, exactly once; all copying is below two slots for each item put in |
| DynArray.NonNullCounts | src/_pyawaitable/array.c:4-11 | what the ledger counts: each item as often as it stands in the array |
| DynArray.DynArray.InitWithSize | src/_pyawaitable/array.c:13-33 | an empty array of the given capacity, or nothing changed |
| DynArray.DynArray.ResizeIfNeeded | src/_pyawaitable/array.c:35-53 | doubles a full array and keeps its contents; a failure leaves contents and allocation, but the doubled capacity |
| DynArray.DynArray.Append | src/_pyawaitable/array.c:55-65 | appends, or leaves the visible sequence and deallocates nothing |
| DynArray.DynArray.Insert | src/_pyawaitable/array.c:67-91 | splices the item in, or leaves the visible sequence and deallocates nothing |
| DynArray.DynArray.ShiftUp | src/_pyawaitable/array.c:85-87 | the shifting loop moves everything from the index on up by one |
| DynArray.DynArray.Set | src/_pyawaitable/array.c:93-100 | replaces the item and deallocates the old one if it is not NULL |
| DynArray.DynArray.CallDeallocatorMaybe | src/_pyawaitable/array.c:4-11 | deallocates a non-NULL item once and clears its slot |
| DynArray.DynArray.RemoveNoDealloc | src/_pyawaitable/array.c:102-109 | the shifting loop closes the gap |
| DynArray.DynArray.Remove | src/_pyawaitable/array.c:111-118 | deletes the item and deallocates it |
| DynArray.DynArray.Pop | src/_pyawaitable/array.c:120-128 | deletes the item and hands it back without deallocating it |
| DynArray.DynArray.PopTop | include/pyawaitable/array.h:250-258 | hands back the last item |
| DynArray.DynArray.GetItem | include/pyawaitable/array.h:227-238 | the item at the index |
| DynArray.DynArray.ClearItems | src/_pyawaitable/array.c:130-140 | empties the array and deallocates every non-NULL item once |
| DynArray.DynArray.Clear | src/_pyawaitable/array.c:142-155 | the same, and frees the allocation; everything put in was popped or deallocated |
| DynArray.DynArray.AmortisedCopying | src/_pyawaitable/array.c:35-53 | the slots copied by all reallocations are fewer than twice the items put in |
| ValueStores.Save | src/_pyawaitable/values.c:12-27 | appends all arguments, or MemoryError with a prefix of them saved |
| ValueStores.Unpack | src/_pyawaitable/values.c:29-49 | writes the stored values through the targets in order, skipping NULL; RuntimeError for an empty store |
| ValueStores.FinalIsLast | src/_pyawaitable/values.c:41-47 | a variable ends with the value at the last place where it was a target |
| ValueStores.FinalKept | src/_pyawaitable/values.c:41-47 | a variable that was no target keeps its own value |
| ValueStores.SetAt | src/_pyawaitable/values.c:51-59 | replaces one value, or IndexError and no change exactly when the index is negative or not below the length |
| ValueStores.GetAt | src/_pyawaitable/values.c:61-91 | the value at the index, or IndexError exactly when the index is negative or not below the length |
| ValueStores.StoredIsSaved | src/_pyawaitable/values.c:12-59 | after any mix of Save and Set, an index at which no Set found a value holds what was saved there |
| ValueStores.StoredIsLastSet | src/_pyawaitable/values.c:12-59 | after any mix of Save and Set, an index that was set holds the value of the last Set that found it |
| ValueStores.Stores.ObjectRoundTrip | src/_pyawaitable/values.c:93-122 | any mix of object Save and Set, then Unpack, delivers the stored values; the arbitrary store is unchanged |
| ValueStores.Stores.ArbitraryRoundTrip | src/_pyawaitable/values.c:126-155 | the same for arbitrary values; the object store is unchanged |
| Mangler.AmountMonotone | hatch_build.py:243-250 | a key has a strictly smaller count than every other key that contains it |
| Mangler.MoveExplicit | hatch_build.py:253-257 | popping and reinserting while a copy is enumerated reverses the explicit items in front of the others: all items whose new name begins with the mark stand first |
| Mangler.AmountCounts | hatch_build.py:243-250 | the count of a key is the number of keys that occur in it |
| Mangler.Orderize | hatch_build.py:239-262 | the same dictionary, in exactly this order: keys with an unmarked new name first, by descending count and then descending place; then those with a marked new name, by ascending count and then ascending place |
| Mangler.OrderIsOrdered | hatch_build.py:252-262 | the order of replacement is the one just said, and no other |
| Mangler.OrderRespectsContainment | hatch_build.py:239-262 | the order is a permutation; keys with an unmarked new name before those with a marked one; among the former containing before contained, among the latter contained before containing |
| Mangler.NameIsWholeAtItsTurn | hatch_build.py:259-260 | what the order is for: a name that is not explicit is still in one piece when its turn comes and is replaced as a whole |
| Mangler.ExplicitNameIsMarkedOnce | hatch_build.py:266-270 | what clean_mangled is for: an explicit name is marked exactly once, however many explicit names it begins with, if every name that occurs in the marked name is explicit and occurs there only right after the mark |
| Mangler.RenameFiles | hatch_build.py:310-314 | every file gets all replacements, in exactly that order |
| Mangler.RenamingIsConsistent | hatch_build.py:310-314 | for names of identifier characters, delimiters stay and each identifier becomes what it becomes on its own, wherever it stands |
| Text.ReplaceIsSplitAndJoin | hatch_build.py:314 | replacing a name is splitting the text at its leftmost occurrences, one behind the other, and joining the parts with the new name |
| Text.HasCut | hatch_build.py:314 | every text can be split so |
| Text.ReplaceRespectsDelimitersIff | hatch_build.py:314 | replacing a name works part by part between delimiters if and only if the name has no delimiter in it |
| Text.SplitUnique | hatch_build.py:314 | a text is cut into identifiers and delimiters in one way only, so the identifiers of a renamed text are well defined |

## Left out

- `awaitable_throw` (src/_pyawaitable/coro.c:48-104): throwing into a running awaitable; its success path asserts a pending exception after the error callback has consumed it.
- Reference counts, garbage collection, type objects and init.c: interpreter plumbing; ownership is modelled for array items and queue entries only.
- The warning for awaitables that were never awaited: the flag is kept, the warning is not modelled.
- User code runs on the awaitable whose queue it is in: a coroutine nested in an inner awaitable does not cancel the outer one, and `__await__` itself makes no calls on the awaitable.
- Several generators on one awaitable, a generator resumed from inside itself, and cycles of awaitables: the objects form a tree.
- Failed calls made by user code: a script lists the calls that succeed; how AddAwait, AddExpr and DeferAwait fail is stated on the methods.
- Driver.Awaitable.AwaitableNext: a second await while the first is still running is not modelled, because it makes a second generator.
- The queue in Driver is a sequence and not the array of DynArray.dfy; that such an array is a sequence is what DynArray proves.
- DynArray.Play: an array is not grown again after a failed reallocation, because the doubled capacity is not restored and the allocation is smaller than it says.
- A callback that returns 0 or more with an exception set: the model has no such callback.
- Pep492.StatementDone, and the lemmas after it: nobody cancels the awaitables of the statement and `__aexit__()` adds nothing to them, because PEP 492 has no counterpart of either; StopIteration is not raised as an error.
- ExitCalls.ExitOverInnerRun, and the lemma for the outer run: no other code calls `__aexit__` of the same manager, because the calls are counted by manager.
- The functions that an `async with` body could use to read the stores of the inner awaitable: the saved callbacks and the exit method are parameters of the model.
- Debug assertions, such as the one of Save that no argument is NULL (which with.c does not respect for missing callbacks).
- In hatch_build.py: discovery of names by regular expressions, include handling, file access, logging, version strings; the name map and the texts are inputs.
- `list.sort` is modelled by a stable insertion sort.
