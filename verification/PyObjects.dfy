/** The few Python objects the driver looks at: values, exceptions, and how an
    exception delivers the result of an awaitable. */
module PyObjects {

  datatype Option<+T> = None | Some(value: T)

  datatype Value =
    | PyNone
    | Obj(id: int)
    | Tuple(items: seq<Value>)
    | ExcObj(exc: Exc)

  datatype Exc =
    | StopIteration(value: Value)
    | RuntimeError
    | SystemError
    | ValueError
    | TypeError
    | MemoryError
    | IndexError
    | User(id: int)

  /** A coroutine ends with no exception or with StopIteration; anything else is an error. */
  predicate IsError(ending: Option<Exc>) {
    ending.Some? && !ending.value.StopIteration?
  }

  /** The value of a coroutine that ended without an error. */
  function ReturnValue(ending: Option<Exc>): Value
    requires !IsError(ending)
  {
    match ending
    case None => PyNone
    case Some(x) => x.value
  }

  /** What `StopIteration.value` holds after `PyErr_SetObject(PyExc_StopIteration, v)`:
      a tuple is spread over the arguments of the exception, and an object that already
      is a StopIteration is raised as it stands. */
  function Delivered(v: Value): Value {
    match v
    case PyNone => PyNone
    case Obj(_) => v
    case Tuple(items) => if items == [] then PyNone else items[0]
    case ExcObj(StopIteration(w)) => w
    case ExcObj(_) => v
  }

  /** The StopIteration that ends a run whose last stored result is `result`. */
  function FinalStop(result: Option<Value>): Exc {
    StopIteration(match result case None => PyNone case Some(v) => Delivered(v))
  }
}
