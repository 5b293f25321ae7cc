/**
 * Value marshaling between native values and Python objects
 * (`cast_to_python`, `cast_to_cpp`, `cast_tuple_item_to_cpp`).
 * Both directions dispatch on a STATIC native type, never on a runtime value.
 */
module Cast {
  import opened Results
  import opened NativeTypes
  import opened PyObjects
  import opened Utf8

  /** The exceptions `cast_to_cpp` and `cast_tuple_item_to_cpp` throw. */
  datatype CastError = ObjectNotSet | NotCompatibleWithLong | NotCompatibleWithFloat | TupleElementNull
  {
    function Message(): string {
      match this
      case ObjectNotSet => "python object must be set"
      case NotCompatibleWithLong => "type is not compatible with C++ long"
      case NotCompatibleWithFloat => "type is not compatible with C++ floating point"
      case TupleElementNull => "tuple element is null"
    }
  }

  // ---------------------------------------------------------------------------
  // Native -> Python
  // ---------------------------------------------------------------------------

  /** The `PyLong_From*` constructors reachable on LP64. */
  datatype LongConstructor = FromLong | FromUnsignedLong | FromLongLong | FromUnsignedLongLong | FromUInt32

  /** The C parameter type of each constructor; the argument is converted to it. */
  function ParameterKind(c: LongConstructor): IntKind {
    match c
    case FromLong => Long
    case FromUnsignedLong => UnsignedLong
    case FromLongLong => LongLong
    case FromUnsignedLongLong => UnsignedLongLong
    case FromUInt32 => UnsignedInt
  }

  /**
   * The first branch of the integer chain that matches `k`. The `int64_t`,
   * `uint64_t`, `size_t` and `ssize_t` tests name `long` and `unsigned long`
   * here, which the earlier tests already caught; `int32_t` is commented out
   * in the chain, so `int` reaches the `is_integral_v` fallback.
   */
  function IntConstructor(k: IntKind): LongConstructor {
    if k == Long then FromLong
    else if k == UnsignedLong then FromUnsignedLong
    else if k == LongLong then FromLongLong
    else if k == UnsignedLongLong then FromUnsignedLongLong
    else if k == UnsignedInt then FromUInt32
    else FromLong
  }

  /** Every integer type is passed to a constructor whose parameter type holds all its values. */
  lemma ConstructorParameterWidens(k: IntKind)
    ensures Min(ParameterKind(IntConstructor(k))) <= Min(k)
    ensures Max(k) <= Max(ParameterKind(IntConstructor(k)))
    ensures k == Int ==> IntConstructor(k) == FromLong
  {
  }

  /** The bytes `PyUnicode_FromString` reads: everything before the first zero byte. */
  function CStringContents(buf: seq<byte>): (s: seq<byte>)
    requires 0 in buf
    ensures |s| < |buf| && buf[|s|] == 0
    ensures s == buf[..|s|]
    ensures 0 !in s
  {
    if buf[0] == 0 then [] else [buf[0]] + CStringContents(buf[1..])
  }

  /**
   * What `cast_to_python` needs of its argument beyond its type: a
   * `const char*` must point at a NUL-terminated string.
   */
  predicate Marshallable(v: NativeValue) {
    WellFormed(v) && (v.CStringValue? ==> v.ptr.Some? && 0 in v.ptr.value)
  }

  predicate IsText(v: NativeValue) {
    v.StringValue? || v.CStringValue?
  }

  /** The bytes the host decodes for a string value: all `size()` of them, or those before the NUL. */
  function TextBytes(v: NativeValue): seq<byte>
    requires IsText(v) && Marshallable(v)
  {
    if v.StringValue? then v.bytes else CStringContents(v.ptr.value)
  }

  /** `cast_to_python` yields NULL: a type with no rule, or string bytes that are not UTF-8. */
  predicate MarshalFails(v: NativeValue)
    requires Marshallable(v)
  {
    TypeOf(v).Other? || (IsText(v) && Decode(TextBytes(v)).None?)
  }

  /** `cast_to_python`: the Python object for a native value, or NULL. */
  function ToPython(v: NativeValue): (r: PyObject)
    requires Marshallable(v)
    ensures r == Null <==> MarshalFails(v)
    ensures r.PyFloat? <==> TypeOf(v).Floating?
    ensures r.PyBool? <==> TypeOf(v) == Bool
    ensures r.PyInt? <==> TypeOf(v).Integer?
    ensures r.PyStr? <==> IsText(v) && !MarshalFails(v)
    ensures v.BoolValue? ==> r == PyBool(v.b)
    ensures v.IntValue? ==> r == PyInt(v.n)
    ensures r.PyStr? ==> Encode(r.s) == TextBytes(v)
  {
    match v
    case FloatValue(_) => PyFloat
    case IntValue(k, n) =>
      ConstructorParameterWidens(k);
      PyInt(Wrap(ParameterKind(IntConstructor(k)), n))
    case BoolValue(b) => if b then PyBool(true) else PyBool(false)
    case OtherValue(_) => Null
    case StringValue(_, _) | CStringValue(_) =>
      match Decode(TextBytes(v))
      case None => Null
      case Some(s) => EncodeDecode(TextBytes(v)); PyStr(s)
  }

  // ---------------------------------------------------------------------------
  // Python -> native
  // ---------------------------------------------------------------------------

  /** `static_cast<CType>(long)` for an integral `CType`. */
  function IntegralCast(t: NativeType, n: int): (v: NativeValue)
    requires IsIntegral(t)
    ensures TypeOf(v) == t && WellFormed(v)
  {
    if t.Bool? then BoolValue(n != 0) else IntValue(t.kind, Wrap(t.kind, n))
  }

  /**
   * `cast_to_cpp<CType>`: dispatch on the requested target type. An integral
   * target reads the object through `PyLong_AsLong` and truncates; a floating
   * target needs a float; any other target yields `CType{}` and ignores the object.
   */
  function ToNative(t: NativeType, o: PyObject): (r: Result<NativeValue, CastError>)
    ensures o == Null ==> r == Err(ObjectNotSet)
    ensures r.Err? <==> o == Null || (IsIntegral(t) && !LongCheck(o)) || (t.Floating? && !FloatCheck(o))
    ensures r.Err? && o != Null ==> r.error == (if IsIntegral(t) then NotCompatibleWithLong else NotCompatibleWithFloat)
    ensures r.Ok? ==> TypeOf(r.value) == t && WellFormed(r.value)
    ensures r.Ok? && t.Integer? ==> (r.value.n - AsLong(o)) % Modulus(t.kind) == 0
    ensures r.Ok? && t.Bool? ==> r.value.b == (AsLong(o) != 0)
    ensures r.Ok? && !IsIntegral(t) && !t.Floating? ==> r.value == Default(t)
  {
    if o == Null then Err(ObjectNotSet)
    else if IsIntegral(t) then
      if !LongCheck(o) then Err(NotCompatibleWithLong) else Ok(IntegralCast(t, AsLong(o)))
    else if t.Floating? then
      if !FloatCheck(o) then Err(NotCompatibleWithFloat) else Ok(FloatValue(t.fkind))
    else Ok(Default(t))
  }

  /** `cast_tuple_item_to_cpp<CType>(args, id)`. */
  function TupleItemToNative(t: NativeType, args: PyObject, id: nat): (r: Result<NativeValue, CastError>)
    ensures TupleGetItem(args, id) == Null <==> r == Err(TupleElementNull)
    ensures TupleGetItem(args, id) != Null ==> r == ToNative(t, TupleGetItem(args, id))
    ensures r != Err(ObjectNotSet)
  {
    var item := TupleGetItem(args, id);
    if item == Null then Err(TupleElementNull) else ToNative(t, item)
  }

  // ---------------------------------------------------------------------------
  // Properties of the two directions together
  // ---------------------------------------------------------------------------

  /** A Python int that fits both the target type and `long` survives the round trip. */
  lemma IntRoundTrip(k: IntKind, n: int)
    requires InRange(k, n) && InRange(Long, n)
    ensures ToNative(Integer(k), PyInt(n)) == Ok(IntValue(k, n))
    ensures ToPython(IntValue(k, n)) == PyInt(n)
  {
  }

  /**
   * Above LONG_MAX `PyLong_AsLong` answers -1, so an unsigned 64-bit target
   * receives its maximum value instead of the Python int.
   */
  lemma UnsignedAboveLongMaxWraps(k: IntKind, n: int)
    requires k == UnsignedLong || k == UnsignedLongLong
    requires Max(Long) < n <= Max(k)
    ensures ToNative(Integer(k), PyInt(n)) == Ok(IntValue(k, Max(k)))
    ensures n < Max(k) ==> ToPython(ToNative(Integer(k), PyInt(n)).value) != PyInt(n)
  {
    assert AsLong(PyInt(n)) == -1;
    assert Modulus(k) == 0x1_0000_0000_0000_0000 && Min(k) == 0;
    assert -1 % 0x1_0000_0000_0000_0000 == 0xffff_ffff_ffff_ffff;
  }

  /** Native -> Python -> native is the identity on numbers that fit in `long`. */
  lemma NumericRoundTrip(v: NativeValue)
    requires Marshallable(v)
    requires v.BoolValue? || v.FloatValue? || (v.IntValue? && InRange(Long, v.n))
    ensures ToNative(TypeOf(v), ToPython(v)) == Ok(v)
  {
  }

  /** A bool parameter accepts any int and reads it as `n != 0`; bools round-trip. */
  lemma BoolTargetReadsTruth(o: PyObject)
    requires LongCheck(o)
    ensures ToNative(Bool, o) == Ok(BoolValue(AsLong(o) != 0))
    ensures o.PyBool? ==> ToPython(ToNative(Bool, o).value) == o
  {
  }

  /** A string target never fails and never reads the object: its text is lost. */
  lemma StringTargetDropsText(sk: StringKind, s: string)
    ensures ToNative(String(sk), PyStr(s)) == Ok(StringValue(sk, []))
    ensures ToNative(CString, PyStr(s)) == Ok(CStringValue(None))
  {
  }

  /** The encoding of a text marshals back to that text, by either string form. */
  lemma TextRoundTrip(sk: StringKind, s: string)
    ensures ToPython(StringValue(sk, Encode(s))) == PyStr(s)
    ensures '\0' !in s ==> ToPython(CStringValue(Some(Encode(s) + [0]))) == PyStr(s)
  {
    DecodeEncode(s);
    if '\0' !in s {
      NoZeroByteWithoutNul(s);
      CStringBeforeTerminator(Encode(s));
    }
  }

  /** The bytes before a first zero byte are what `PyUnicode_FromString` reads. */
  lemma {:induction false} CStringBeforeTerminator(b: seq<byte>)
    requires 0 !in b
    ensures CStringContents(b + [0]) == b
  {
    if |b| > 0 {
      assert (b + [0])[1..] == b[1..] + [0];
      CStringBeforeTerminator(b[1..]);
    }
  }

  /**
   * Bytes that are not UTF-8 give NULL: a lone continuation byte, an overlong
   * NUL and an encoded surrogate.
   */
  lemma IllFormedBytesGiveNull(sk: StringKind)
    ensures ToPython(StringValue(sk, [0x80])) == Null
    ensures ToPython(StringValue(sk, [0xC0, 0x80])) == Null
    ensures ToPython(StringValue(sk, [0xED, 0xA0, 0x80])) == Null
    ensures ToPython(CStringValue(Some([0xFF, 0]))) == Null
  {
    assert CStringContents([0xFF, 0]) == [0xFF];
  }

  /** `std::string` keeps an embedded NUL and every later character; `const char*` stops at it. */
  lemma EmbeddedNulKeptOnlyByLengthForm(sk: StringKind, s: string, t: string)
    requires '\0' !in s
    ensures Encode(s + "\0" + t) == Encode(s) + [0] + Encode(t) && 0 !in Encode(s)
    ensures ToPython(StringValue(sk, Encode(s + "\0" + t))) == PyStr(s + "\0" + t)
    ensures ToPython(CStringValue(Some(Encode(s + "\0" + t)))) == PyStr(s)
  {
    TextRoundTrip(sk, s + "\0" + t);
    EncodeAppend(s + "\0", t);
    EncodeAppend(s, "\0");
    var e := Encode(s);
    assert Encode("\0") == [0];
    NoZeroByteWithoutNul(s);
    assert Encode(s + "\0" + t) == (e + [0]) + Encode(t);
    PrefixBeforeTerminator(e, Encode(t));
    DecodeEncode(s);
  }

  /** Whatever follows the first zero byte is not read. */
  lemma {:induction false} PrefixBeforeTerminator(b: seq<byte>, rest: seq<byte>)
    requires 0 !in b
    ensures CStringContents(b + [0] + rest) == b
  {
    if |b| > 0 {
      assert (b + [0] + rest)[1..] == b[1..] + [0] + rest;
      PrefixBeforeTerminator(b[1..], rest);
    }
  }
}
