/**
 * The C++ side of the boundary: static type tags and the values of those
 * types, on x86-64 Linux (LP64, plain `char` signed): `long` is 64 bits wide, `int64_t` and
 * `ssize_t` are `long`, `uint64_t` and `size_t` are `unsigned long`, and
 * `uint32_t` is `unsigned int`.
 */
module NativeTypes {
  import opened Results
  import opened Utf8

  /** The fundamental integer types other than `bool`. */
  datatype IntKind =
    | Char | SignedChar | UnsignedChar
    | Short | UnsignedShort
    | Int | UnsignedInt
    | Long | UnsignedLong
    | LongLong | UnsignedLongLong
    | WChar | Char8 | Char16 | Char32

  datatype FloatKind = Float | Double | LongDouble

  datatype StringKind = StdString | StringView

  /** A static native type, after `std::remove_cvref_t`. */
  datatype NativeType =
    | Bool
    | Integer(kind: IntKind)
    | Floating(fkind: FloatKind)
    | String(skind: StringKind)
    | CString                      // const char*
    | Other(typeName: string)      // any type the marshaler has no rule for

  /** `std::is_integral_v`: `bool` is an integral type in C++. */
  predicate IsIntegral(t: NativeType) {
    t.Bool? || t.Integer?
  }

  predicate IsSigned(k: IntKind) {
    k in {Char, SignedChar, Short, Int, Long, LongLong, WChar}
  }

  /** 2^width of the integer type. */
  function Modulus(k: IntKind): (m: int)
    ensures m >= 0x100
  {
    match k
    case Char | SignedChar | UnsignedChar | Char8 => 0x100
    case Short | UnsignedShort | Char16 => 0x1_0000
    case Int | UnsignedInt | WChar | Char32 => 0x1_0000_0000
    case Long | UnsignedLong | LongLong | UnsignedLongLong => 0x1_0000_0000_0000_0000
  }

  function Min(k: IntKind): int {
    if IsSigned(k) then -(Modulus(k) / 2) else 0
  }

  function Max(k: IntKind): int {
    Min(k) + Modulus(k) - 1
  }

  predicate InRange(k: IntKind, n: int) {
    Min(k) <= n <= Max(k)
  }

  /**
   * The integral conversion to `k` (C++20 [conv.integral]): the unique value
   * of `k` congruent to `n` modulo 2^width.
   */
  function Wrap(k: IntKind, n: int): (r: int)
    ensures InRange(k, r)
    ensures (r - n) % Modulus(k) == 0
    ensures InRange(k, n) ==> r == n
  {
    var m := Modulus(k);
    var d := n - Min(k);
    assert d == m * (d / m) + d % m;
    assert (d % m - d) == m * (-(d / m));
    Min(k) + d % m
  }

  /** A value of some native type; the constructor carries the static type. */
  datatype NativeValue =
    | BoolValue(b: bool)
    | IntValue(kind: IntKind, n: int)
    | FloatValue(fkind: FloatKind)            // only the type of a float is tracked
    | StringValue(skind: StringKind, bytes: seq<byte>)   // the `size()` bytes of the string
    | CStringValue(ptr: Option<seq<byte>>)              // the memory a const char* points at; None is nullptr
    | OtherValue(typeName: string)

  function TypeOf(v: NativeValue): NativeType {
    match v
    case BoolValue(_) => Bool
    case IntValue(k, _) => Integer(k)
    case FloatValue(f) => Floating(f)
    case StringValue(sk, _) => String(sk)
    case CStringValue(_) => CString
    case OtherValue(name) => Other(name)
  }

  /** What the C++ type system guarantees of a value: an integer lies in its type's range. */
  predicate WellFormed(v: NativeValue) {
    v.IntValue? ==> InRange(v.kind, v.n)
  }

  /** `CType{}`: the value-initialised value of a type. */
  function Default(t: NativeType): (v: NativeValue)
    ensures TypeOf(v) == t && WellFormed(v)
  {
    match t
    case Bool => BoolValue(false)
    case Integer(k) => IntValue(k, 0)
    case Floating(f) => FloatValue(f)
    case String(sk) => StringValue(sk, [])
    case CString => CStringValue(None)
    case Other(name) => OtherValue(name)
  }
}
