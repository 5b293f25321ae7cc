/**
 * The call protocol and function discovery: `function_traits`, the
 * type-erased wrapper `CallableInfo::pyWrapper` behind `trampoline`, and
 * `getMethod` / `collectFunctions`, which turn a namespace's member list into
 * the tuple of callables. The native function is an abstract function value;
 * each call reports how many times it was invoked.
 */
module Rebind {
  import opened Results
  import opened NativeTypes
  import opened PyObjects
  import opened Cast

  // ---------------------------------------------------------------------------
  // Signatures and function_traits
  // ---------------------------------------------------------------------------

  datatype ReturnType = Void | Returns(t: NativeType)

  datatype Signature = Signature(ret: ReturnType, params: seq<NativeType>)

  /** The three forms `function_traits` is specialised for: `R(Args...)`, `R(*)(Args...)`, `R(&)(Args...)`. */
  datatype FunctionType = Plain(sig: Signature) | Pointer(sig: Signature) | Reference(sig: Signature)

  datatype Traits = Traits(returnType: ReturnType, argsTuple: seq<NativeType>, arity: nat)

  /** `function_traits<R(Args...)>`. */
  function PlainTraits(s: Signature): Traits {
    Traits(s.ret, s.params, |s.params|)
  }

  /** Pointer and reference forms inherit the traits of the plain form. */
  function FunctionTraits(f: FunctionType): Traits {
    match f
    case Plain(s) => PlainTraits(s)
    case Pointer(s) => PlainTraits(s)
    case Reference(s) => PlainTraits(s)
  }

  /** `arity` counts the parameter types, whatever the form of the function type. */
  lemma TraitsOfEveryForm(s: Signature)
    ensures FunctionTraits(Pointer(s)) == FunctionTraits(Plain(s)) == FunctionTraits(Reference(s))
    ensures FunctionTraits(Plain(s)).arity == |s.params|
    ensures FunctionTraits(Plain(s)).argsTuple == s.params && FunctionTraits(Plain(s)).returnType == s.ret
  {
  }

  // ---------------------------------------------------------------------------
  // Native functions and their descriptors
  // ---------------------------------------------------------------------------

  /** An exception a native function throws. */
  datatype NativeException = NativeException(what: string)

  /** A native function: its signature and, for given arguments, its result or the exception it throws. */
  datatype NativeFunction = NativeFunction(sig: Signature, body: seq<NativeValue> -> Result<NativeValue, NativeException>)

  /**
   * The wrapper compiles only when a `void` function takes no parameters:
   * the `void` branch passes an empty index sequence to the call.
   */
  predicate Supported(sig: Signature) {
    sig.ret.Void? ==> |sig.params| == 0
  }

  /** A result has the declared return type and can be handed to `cast_to_python`. */
  predicate ResultFits(ret: ReturnType, v: NativeValue) {
    ret.Returns? ==> TypeOf(v) == ret.t && Marshallable(v)
  }

  ghost predicate ValidFunction(f: NativeFunction) {
    Supported(f.sig) && forall args :: f.body(args).Ok? ==> ResultFits(f.sig.ret, f.body(args).value)
  }

  const DefaultDoc: string := "doc"

  /** `CallableInfo<Fn>`: name, doc string and the bound native function. */
  datatype CallableInfo = CallableInfo(name: string, doc: string, fn: NativeFunction)

  /**
   * The traits the wrapper reads. `getMethod` constructs `CallableInfo` from a
   * function, and class template argument deduction makes `Fn` the pointer
   * form `R(*)(Args...)`.
   */
  function WrapperTraits(info: CallableInfo): (t: Traits)
    ensures t == FunctionTraits(Plain(info.fn.sig))
  {
    FunctionTraits(Pointer(info.fn.sig))
  }

  // ---------------------------------------------------------------------------
  // pyWrapper
  // ---------------------------------------------------------------------------

  datatype PyError = ValueError(message: string) | CapsuleError

  /**
   * What one call through the wrapper ends in: the object returned together
   * with the error indicator left set, or `std::terminate`, reached when a
   * cast exception escapes the `noexcept` wrapper.
   */
  datatype Outcome = Returned(value: PyObject, raised: Option<PyError>) | Terminated

  /** An outcome and how many times the native function ran to produce it. */
  datatype Call = Call(outcome: Outcome, invocations: nat)

  const ArgsNotTupleMessage: string := "Args must be a tuple type"
  const ArityMismatchMessage: string := "Mismatch number of arguments"
  const ResultCastMessage: string := "failed to cast to python object"

  /**
   * Decode positional slot `i` with parameter type `i`, for every slot. C++
   * leaves the order in which the slots are decoded unspecified; this
   * definition goes left to right and its contract names only SOME failing slot.
   */
  function DecodeArgs(args: PyObject, params: seq<NativeType>): (r: Result<seq<NativeValue>, CastError>)
    ensures r.Ok? <==> forall i :: 0 <= i < |params| ==> TupleItemToNative(params[i], args, i).Ok?
    ensures r.Ok? ==> |r.value| == |params|
    ensures r.Ok? ==> forall i :: 0 <= i < |params| ==> Ok(r.value[i]) == TupleItemToNative(params[i], args, i)
    ensures r.Err? ==> exists i :: 0 <= i < |params| && TupleItemToNative(params[i], args, i) == Err(r.error)
  {
    if |params| == 0 then Ok([])
    else
      var n := |params| - 1;
      match DecodeArgs(args, params[..n])
      case Err(e) => Err(e)
      case Ok(front) =>
        match TupleItemToNative(params[n], args, n)
        case Err(e) => Err(e)
        case Ok(v) => Ok(front + [v])
  }

  /** `CallableInfo::pyWrapper`; keyword arguments are accepted and ignored. */
  function PyWrapper(info: CallableInfo, args: PyObject): (c: Call)
    requires ValidFunction(info.fn)
    ensures c.invocations <= 1
    ensures c.invocations == 1 <==>
      args.PyTuple? && |args.items| == |info.fn.sig.params| && DecodeArgs(args, info.fn.sig.params).Ok?
    ensures c.outcome == Terminated && c.invocations == 1 <==>
      args.PyTuple? && |args.items| == |info.fn.sig.params| && DecodeArgs(args, info.fn.sig.params).Ok? &&
      info.fn.body(DecodeArgs(args, info.fn.sig.params).value).Err?
    ensures c.outcome.Returned? && c.outcome.raised.Some? ==> c.outcome.value == PyNone
    ensures c.outcome.Returned? && c.outcome.raised.None? ==> c.outcome.value != Null
  {
    var traits := WrapperTraits(info);
    if !TupleCheck(args) then
      Call(Returned(PyNone, Some(ValueError(ArgsNotTupleMessage))), 0)
    else if |args.items| != traits.arity then
      Call(Returned(PyNone, Some(ValueError(ArityMismatchMessage))), 0)
    else if traits.returnType.Void? then
      // The result of a void call is discarded; an exception escapes the noexcept wrapper.
      match info.fn.body([])
      case Err(_) => Call(Terminated, 1)
      case Ok(_) => Call(Returned(PyNone, None), 1)
    else
      match DecodeArgs(args, traits.argsTuple)
      case Err(_) => Call(Terminated, 0)
      case Ok(values) =>
        match info.fn.body(values)
        case Err(_) => Call(Terminated, 1)
        case Ok(result) =>
          var pyResult := ToPython(result);
          if pyResult == Null then Call(Returned(PyNone, Some(ValueError(ResultCastMessage))), 1)
          else Call(Returned(pyResult, None), 1)
  }

  /** Arguments that are not a tuple are refused before anything runs. */
  lemma NotTupleRefused(info: CallableInfo, args: PyObject)
    requires ValidFunction(info.fn)
    requires !args.PyTuple?
    ensures PyWrapper(info, args) == Call(Returned(PyNone, Some(ValueError(ArgsNotTupleMessage))), 0)
  {
  }

  /** A tuple of the wrong length is refused before any slot is decoded. */
  lemma ArityMismatchRefused(info: CallableInfo, args: PyObject)
    requires ValidFunction(info.fn)
    requires args.PyTuple? && |args.items| != |info.fn.sig.params|
    ensures PyWrapper(info, args) == Call(Returned(PyNone, Some(ValueError(ArityMismatchMessage))), 0)
  {
  }

  /** One slot that does not decode is enough: the native function is never invoked. */
  lemma DecodeFailureNeverInvokes(info: CallableInfo, args: PyObject, i: nat)
    requires ValidFunction(info.fn)
    requires args.PyTuple? && |args.items| == |info.fn.sig.params|
    requires i < |info.fn.sig.params| && TupleItemToNative(info.fn.sig.params[i], args, i).Err?
    ensures PyWrapper(info, args) == Call(Terminated, 0)
  {
    assert DecodeArgs(args, info.fn.sig.params).Err?;
  }

  /**
   * A `void` function has no slots to decode: it runs once, and None comes
   * back unless it throws, which terminates the process.
   */
  lemma VoidCallRunsOnce(info: CallableInfo)
    requires ValidFunction(info.fn) && info.fn.sig.ret.Void?
    ensures PyWrapper(info, PyTuple([])) ==
      if info.fn.body([]).Ok? then Call(Returned(PyNone, None), 1) else Call(Terminated, 1)
  {
  }

  /**
   * A well-formed call to a value-returning function runs it once on the
   * decoded slots. An exception it throws terminates the process; otherwise
   * its result is marshalled, or a ValueError is raised when marshaling gives
   * NULL: a return type with no rule, or string bytes that are not UTF-8.
   */
  lemma WellFormedCallMarshalsResult(info: CallableInfo, args: PyObject)
    requires ValidFunction(info.fn) && info.fn.sig.ret.Returns?
    requires args.PyTuple? && |args.items| == |info.fn.sig.params|
    requires forall i :: 0 <= i < |info.fn.sig.params| ==> TupleItemToNative(info.fn.sig.params[i], args, i).Ok?
    ensures var values := DecodeArgs(args, info.fn.sig.params).value;
            && |values| == |args.items|
            && (forall i :: 0 <= i < |values| ==> ToNative(info.fn.sig.params[i], args.items[i]) == Ok(values[i]))
            && (info.fn.body(values).Ok? ==> Marshallable(info.fn.body(values).value))
    ensures var values := DecodeArgs(args, info.fn.sig.params).value;
            var result := info.fn.body(values);
            PyWrapper(info, args) ==
              if result.Err? then Call(Terminated, 1)
              else if MarshalFails(result.value) then Call(Returned(PyNone, Some(ValueError(ResultCastMessage))), 1)
              else Call(Returned(ToPython(result.value), None), 1)
  {
    var values := DecodeArgs(args, info.fn.sig.params).value;
    if info.fn.body(values).Ok? {
      assert ResultFits(info.fn.sig.ret, info.fn.body(values).value);
    }
    forall i | 0 <= i < |values|
      ensures ToNative(info.fn.sig.params[i], args.items[i]) == Ok(values[i])
    {
      assert TupleGetItem(args, i) == args.items[i];
    }
  }

  /** A native function that throws ends the process after its one invocation. */
  lemma ThrowingFunctionTerminates(info: CallableInfo, args: PyObject)
    requires ValidFunction(info.fn)
    requires args.PyTuple? && |args.items| == |info.fn.sig.params|
    requires DecodeArgs(args, info.fn.sig.params).Ok?
    requires info.fn.body(DecodeArgs(args, info.fn.sig.params).value).Err?
    ensures PyWrapper(info, args) == Call(Terminated, 1)
  {
  }

  /**
   * Integer arguments that fit their parameter types and `long` reach the
   * native function unchanged.
   */
  lemma IntArgumentsArriveUnchanged(args: PyObject, params: seq<NativeType>)
    requires args.PyTuple? && |args.items| == |params|
    requires forall i :: 0 <= i < |params| ==>
      params[i].Integer? && args.items[i].PyInt? &&
      InRange(params[i].kind, args.items[i].n) && InRange(Long, args.items[i].n)
    ensures DecodeArgs(args, params).Ok?
    ensures forall i :: 0 <= i < |params| ==>
      DecodeArgs(args, params).value[i] == IntValue(params[i].kind, args.items[i].n)
  {
    forall i | 0 <= i < |params|
      ensures TupleItemToNative(params[i], args, i) == Ok(IntValue(params[i].kind, args.items[i].n))
    {
      assert TupleGetItem(args, i) == args.items[i];
      IntRoundTrip(params[i].kind, args.items[i].n);
    }
  }

  // ---------------------------------------------------------------------------
  // trampoline
  // ---------------------------------------------------------------------------

  const CapsuleName: string := "callable"

  /** The `self` object the host passes to `trampoline`. */
  datatype Capsule = Capsule(name: string, pointer: CallableInfo) | NotACapsule

  /** `PyCapsule_GetPointer`: NULL for a non-capsule or a capsule of another name. */
  function CapsuleGetPointer(self: Capsule, name: string): (r: Option<CallableInfo>)
    ensures r.Some? <==> self.Capsule? && self.name == name
    ensures r.Some? ==> r.value == self.pointer
  {
    if self.Capsule? && self.name == name then Some(self.pointer) else None
  }

  /** `pyWrapperThunk`, the function the type-erased `invoke` pointer holds. */
  function PyWrapperThunk(base: CallableInfo, args: PyObject, kwargs: PyObject): Call
    requires ValidFunction(base.fn)
  {
    PyWrapper(base, args)
  }

  /** `trampoline`: recover the descriptor from the capsule and call through its thunk. */
  function Trampoline(self: Capsule, args: PyObject, kwargs: PyObject): (c: Call)
    requires self.Capsule? ==> ValidFunction(self.pointer.fn)
    ensures CapsuleGetPointer(self, CapsuleName).None? ==> c == Call(Returned(Null, Some(CapsuleError)), 0)
    ensures CapsuleGetPointer(self, CapsuleName).Some? ==> c == PyWrapper(self.pointer, args)
  {
    match CapsuleGetPointer(self, CapsuleName)
    case None => Call(Returned(Null, Some(CapsuleError)), 0)
    case Some(cb) => PyWrapperThunk(cb, args, kwargs)
  }

  // ---------------------------------------------------------------------------
  // getMethod / collectFunctions
  // ---------------------------------------------------------------------------

  /** A member of the reflected namespace: a function, or anything else (`int a`). */
  datatype Member = FunctionMember(name: string, fn: NativeFunction) | OtherMember(name: string)

  /** The descriptor `getMethod` builds for a function member. */
  function Describe(m: Member): CallableInfo
    requires m.FunctionMember?
  {
    CallableInfo(m.name, DefaultDoc, m.fn)
  }

  /** `getMethod<Type, I>`: a one-element tuple for a function member, an empty one otherwise. */
  function GetMethod(m: Member): (r: seq<CallableInfo>)
    ensures |r| == (if m.FunctionMember? then 1 else 0)
    ensures m.FunctionMember? ==> r[0].name == m.name && r[0].doc == DefaultDoc && r[0].fn == m.fn
  {
    if m.FunctionMember? then [Describe(m)] else []
  }

  /** The positions of the function members, in increasing order. */
  function FunctionIndices(members: seq<Member>): (idx: seq<nat>)
    ensures forall j :: 0 <= j < |idx| ==> idx[j] < |members| && members[idx[j]].FunctionMember?
    ensures forall i :: 0 <= i < |members| && members[i].FunctionMember? ==> i in idx
    ensures forall j, k :: 0 <= j < k < |idx| ==> idx[j] < idx[k]
  {
    if |members| == 0 then []
    else
      var n := |members| - 1;
      FunctionIndices(members[..n]) + (if members[n].FunctionMember? then [n] else [])
  }

  /**
   * `collectFunctions<Type>`: `tuple_cat` of `getMethod<Type, I>` for every
   * index `I` of `members_of(Type)`.
   */
  function CollectFunctions(members: seq<Member>): (r: seq<CallableInfo>)
    ensures |r| <= |members|
  {
    if |members| == 0 then []
    else
      var n := |members| - 1;
      CollectFunctions(members[..n]) + GetMethod(members[n])
  }

  /** `collectFunctions` yields exactly the function members, in their declaration order. */
  lemma {:induction false} CollectFunctionsExact(members: seq<Member>)
    ensures |CollectFunctions(members)| == |FunctionIndices(members)|
    ensures forall j :: 0 <= j < |CollectFunctions(members)| ==>
      CollectFunctions(members)[j] == Describe(members[FunctionIndices(members)[j]])
  {
    if |members| > 0 {
      var n := |members| - 1;
      var front, idx := members[..n], FunctionIndices(members[..n]);
      CollectFunctionsExact(front);
      assert CollectFunctions(members) == CollectFunctions(front) + GetMethod(members[n]);
      assert FunctionIndices(members) == idx + (if members[n].FunctionMember? then [n] else []);
      forall j | 0 <= j < |idx|
        ensures CollectFunctions(members)[j] == Describe(members[FunctionIndices(members)[j]])
      {
        assert front[idx[j]] == members[idx[j]];
      }
    }
  }

  /** Descriptors of valid functions are all valid, and their names are the function members' names. */
  lemma {:induction false} CollectedAreFunctionMembers(members: seq<Member>)
    requires forall i :: 0 <= i < |members| && members[i].FunctionMember? ==> ValidFunction(members[i].fn)
    ensures forall c :: c in CollectFunctions(members) ==>
      ValidFunction(c.fn) && c.doc == DefaultDoc &&
      exists i :: 0 <= i < |members| && members[i] == FunctionMember(c.name, c.fn)
  {
    var r := CollectFunctions(members);
    var idx := FunctionIndices(members);
    CollectFunctionsExact(members);
    forall c | c in r
      ensures ValidFunction(c.fn) && c.doc == DefaultDoc
      ensures exists i :: 0 <= i < |members| && members[i] == FunctionMember(c.name, c.fn)
    {
      var j :| 0 <= j < |r| && r[j] == c;
      assert members[idx[j]] == FunctionMember(c.name, c.fn);
    }
  }
}
