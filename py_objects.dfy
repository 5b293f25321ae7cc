/**
 * The Python side of the boundary, reduced to what the marshaler observes
 * through the C API: the type checks it makes and the values it reads back.
 */
module PyObjects {
  import NativeTypes

  /** A `PyObject*` as the binder sees it. */
  datatype PyObject =
    | Null                            // a NULL pointer: no object
    | PyNone
    | PyBool(b: bool)
    | PyInt(n: int)
    | PyFloat                         // only the type of a float is tracked
    | PyStr(s: string)
    | PyTuple(items: seq<PyObject>)
    | PyOpaque                        // any other object

  /** `PyLong_Check`: `bool` is a subclass of `int`, so True and False pass. */
  predicate LongCheck(o: PyObject) {
    o.PyInt? || o.PyBool?
  }

  /** `PyFloat_Check`. */
  predicate FloatCheck(o: PyObject) {
    o.PyFloat?
  }

  /** `PyTuple_Check`. */
  predicate TupleCheck(o: PyObject) {
    o.PyTuple?
  }

  /**
   * `PyLong_AsLong`: the value when it fits in a C `long`, otherwise -1
   * (the OverflowError it leaves pending is not tracked).
   */
  function AsLong(o: PyObject): (r: int)
    requires LongCheck(o)
    ensures NativeTypes.InRange(NativeTypes.Long, r)
  {
    match o
    case PyBool(b) => if b then 1 else 0
    case PyInt(n) => if NativeTypes.InRange(NativeTypes.Long, n) then n else -1
  }

  /** `PyTuple_GetItem`: NULL when `o` is not a tuple or `i` is out of range. */
  function TupleGetItem(o: PyObject, i: nat): (r: PyObject)
    ensures o.PyTuple? && i < |o.items| ==> r == o.items[i]
    ensures !(o.PyTuple? && i < |o.items|) ==> r == Null
  {
    if o.PyTuple? && i < |o.items| then o.items[i] else Null
  }
}
