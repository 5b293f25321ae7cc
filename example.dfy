/**
 * The demonstration namespace `test` of test.cpp as concrete instances: its
 * member list, the descriptors collected from it, and the scenarios of
 * calling `sum`, `greeting`, `pi` and `foo` through the wrapper.
 * Printing is not modelled; `is_zero`'s float comparison is a parameter.
 */
module Example {
  import opened Results
  import opened Utf8
  import opened NativeTypes
  import opened PyObjects
  import opened Cast
  import opened Rebind
  import opened Registry

  /** `greeting`'s string literal, in parts of eight characters each. */
  const GreetingPart0: string := "hello fr"
  const GreetingPart1: string := "om C++ w"
  const GreetingPart2: string := "ith Refl"
  const GreetingPart3: string := "ection. "
  const GreetingPart4: string := "This's c"
  const GreetingPart5: string := "ool feat"
  const GreetingPart6: string := "ure! C++"
  const GreetingPart7: string := " ❤Python"

  const GreetingText: string :=
    GreetingPart0 + GreetingPart1 + GreetingPart2 + GreetingPart3 +
    GreetingPart4 + GreetingPart5 + GreetingPart6 + GreetingPart7

  /** The literal's bytes in a UTF-8 execution character set: the heart takes three. */
  const GreetingBytes: seq<byte> :=
    [0x68, 0x65, 0x6C, 0x6C, 0x6F, 0x20, 0x66, 0x72]
    + [0x6F, 0x6D, 0x20, 0x43, 0x2B, 0x2B, 0x20, 0x77]
    + [0x69, 0x74, 0x68, 0x20, 0x52, 0x65, 0x66, 0x6C]
    + [0x65, 0x63, 0x74, 0x69, 0x6F, 0x6E, 0x2E, 0x20]
    + [0x54, 0x68, 0x69, 0x73, 0x27, 0x73, 0x20, 0x63]
    + [0x6F, 0x6F, 0x6C, 0x20, 0x66, 0x65, 0x61, 0x74]
    + [0x75, 0x72, 0x65, 0x21, 0x20, 0x43, 0x2B, 0x2B]
    + [0x20, 0xE2, 0x9D, 0xA4, 0x50, 0x79, 0x74, 0x68, 0x6F, 0x6E]

  /** `void foo()` and `void bar()`: what they print is not modelled. */
  const Printer: NativeFunction := NativeFunction(Signature(Void, []), _ => Ok(OtherValue("void")))

  const Greeting: NativeFunction :=
    NativeFunction(Signature(Returns(String(StdString)), []), _ => Ok(StringValue(StdString, GreetingBytes)))

  const Pi: NativeFunction := NativeFunction(Signature(Returns(Floating(Float)), []), _ => Ok(FloatValue(Float)))

  const SpeedOfLight: NativeFunction :=
    NativeFunction(Signature(Returns(Integer(LongLong)), []), _ => Ok(IntValue(LongLong, 300_000_000)))

  /** `int sum(int a, int b)`; the sum is taken modulo 2^32. */
  const Sum: NativeFunction :=
    NativeFunction(
      Signature(Returns(Integer(Int)), [Integer(Int), Integer(Int)]),
      (args: seq<NativeValue>) =>
        if |args| == 2 && args[0].IntValue? && args[1].IntValue?
        then Ok(IntValue(Int, Wrap(Int, args[0].n + args[1].n)))
        else Ok(IntValue(Int, 0)))

  /** `bool is_zero(float f)`, with the comparison's answer given. */
  function IsZero(answer: bool): NativeFunction {
    NativeFunction(Signature(Returns(Bool), [Floating(Float)]), _ => Ok(BoolValue(answer)))
  }

  /** The function members of namespace `test`, in declaration order. */
  function TestFunctions(isZeroAnswer: bool): seq<Member> {
    [ FunctionMember("foo", Printer),
      FunctionMember("bar", Printer),
      FunctionMember("greeting", Greeting),
      FunctionMember("pi", Pi),
      FunctionMember("speed_of_light", SpeedOfLight),
      FunctionMember("sum", Sum),
      FunctionMember("is_zero", IsZero(isZeroAnswer)) ]
  }

  /** The members of namespace `test`: `int a` first, then the functions. */
  function TestMembers(isZeroAnswer: bool): seq<Member> {
    [OtherMember("a")] + TestFunctions(isZeroAnswer)
  }

  const ExpectedNames: seq<string> := ["foo", "bar", "greeting", "pi", "speed_of_light", "sum", "is_zero"]

  /** Behind a prefix with no functions, a run of function members is collected one for one. */
  lemma {:induction false} CollectFunctionRun(pre: seq<Member>, fs: seq<Member>)
    requires CollectFunctions(pre) == []
    requires forall i :: 0 <= i < |fs| ==> fs[i].FunctionMember?
    ensures |CollectFunctions(pre + fs)| == |fs|
    ensures forall j :: 0 <= j < |fs| ==> CollectFunctions(pre + fs)[j] == Describe(fs[j])
  {
    if |fs| > 0 {
      var n := |fs| - 1;
      var front := pre + fs[..n];
      CollectFunctionRun(pre, fs[..n]);
      assert (pre + fs)[..|pre + fs| - 1] == front;
      assert (pre + fs)[|pre + fs| - 1] == fs[n];
      assert CollectFunctions(pre + fs) == CollectFunctions(front) + [Describe(fs[n])];
      forall j | 0 <= j < n
        ensures CollectFunctions(pre + fs)[j] == Describe(fs[j])
      {
        assert fs[..n][j] == fs[j];
      }
    } else {
      assert pre + fs == pre;
    }
  }

  /** The names collected behind such a prefix are the run's names, one for one. */
  lemma NamesOfRun(pre: seq<Member>, fs: seq<Member>)
    requires CollectFunctions(pre) == []
    requires forall i :: 0 <= i < |fs| ==> fs[i].FunctionMember?
    ensures |Names(CollectFunctions(pre + fs))| == |fs|
    ensures forall j :: 0 <= j < |fs| ==> Names(CollectFunctions(pre + fs))[j] == fs[j].name
  {
    CollectFunctionRun(pre, fs);
    NamesAt(CollectFunctions(pre + fs));
  }

  /** Behind one non-function member, the names collected are those of the function run. */
  lemma NamesBehindOther(x: string, fs: seq<Member>, names: seq<string>)
    requires forall i :: 0 <= i < |fs| ==> fs[i].FunctionMember?
    requires |names| == |fs| && forall i :: 0 <= i < |fs| ==> fs[i].name == names[i]
    ensures Names(CollectFunctions([OtherMember(x)] + fs)) == names
  {
    var pre: seq<Member> := [OtherMember(x)];
    assert CollectFunctions(pre) == [] by {
      assert pre[..0] == [];
    }
    NamesOfRun(pre, fs);
  }

  /** The functions of `test` carry the expected names, in order. */
  lemma TestFunctionNames(answer: bool)
    ensures |TestFunctions(answer)| == |ExpectedNames|
    ensures forall i :: 0 <= i < |ExpectedNames| ==>
      TestFunctions(answer)[i].FunctionMember? && TestFunctions(answer)[i].name == ExpectedNames[i]
  {
  }

  /** `int a` is dropped; the seven functions are collected in declaration order. */
  lemma CollectTestNamespace(answer: bool)
    ensures Names(CollectFunctions(TestMembers(answer))) == ExpectedNames
  {
    TestFunctionNames(answer);
    NamesBehindOther("a", TestFunctions(answer), ExpectedNames);
  }

  /** Every function of the namespace is one the wrapper accepts. */
  lemma TestFunctionsValid(answer: bool)
    ensures forall c :: c in CollectFunctions(TestMembers(answer)) ==> ValidFunction(c.fn)
  {
    var ms := TestMembers(answer);
    ValidFunctions(answer);
    assert forall i :: 0 <= i < |ms| && ms[i].FunctionMember? ==> ValidFunction(ms[i].fn);
    CollectedAreFunctionMembers(ms);
  }

  /**
   * Loading module `example` appends the names of the functions whose host
   * steps succeed, in declaration order, after the five standard module
   * attributes; when every step succeeds those are the seven names.
   */
  lemma ExampleModuleKeys(answer: bool, outcomes: seq<HostOutcome>)
    requires |outcomes| == |ExpectedNames|
    ensures var cbs := CollectFunctions(TestMembers(answer));
            |cbs| == |outcomes| &&
            Install(InitialDict("example"), cbs, outcomes).keys == ModuleAttributes + Names(Succeeded(cbs, outcomes))
    ensures var cbs := CollectFunctions(TestMembers(answer));
            AllCreated(outcomes) ==> Install(InitialDict("example"), cbs, outcomes).keys == ModuleAttributes + ExpectedNames
  {
    var cbs := CollectFunctions(TestMembers(answer));
    CollectTestNamespace(answer);
    NamesAt(cbs);
    ExpectedNamesDistinct();
    NamesKeepOrder(InitialDict("example"), cbs, outcomes, ExpectedNames);
    if AllCreated(outcomes) {
      AllSucceeded(cbs, outcomes);
    }
  }

  /** The seven names are distinct and none is a standard module attribute. */
  lemma ExpectedNamesDistinct()
    ensures forall i, j :: 0 <= i < j < |ExpectedNames| ==> ExpectedNames[i] != ExpectedNames[j]
    ensures forall i :: 0 <= i < |ExpectedNames| ==> ExpectedNames[i] !in ModuleAttributes
  {
  }

  /** Installing callables whose names are the distinct `names`, none of them bound already. */
  lemma NamesKeepOrder(d: ModuleDict, cbs: seq<CallableInfo>, outcomes: seq<HostOutcome>, names: seq<string>)
    requires d.Valid() && |outcomes| == |cbs|
    requires Names(cbs) == names
    requires forall i, j :: 0 <= i < j < |names| ==> names[i] != names[j]
    requires forall i :: 0 <= i < |names| ==> names[i] !in d.keys
    ensures Install(d, cbs, outcomes).keys == d.keys + Names(Succeeded(cbs, outcomes))
  {
    NamesAt(cbs);
    assert forall k :: 0 <= k < |cbs| ==> cbs[k].name == names[k];
    InstallKeepsOrder(d, cbs, outcomes);
  }

  lemma SumValid()
    ensures ValidFunction(Sum)
  {
    forall args: seq<NativeValue> | Sum.body(args).Ok?
      ensures ResultFits(Sum.sig.ret, Sum.body(args).value)
    {
      if |args| == 2 && args[0].IntValue? && args[1].IntValue? {
        var r := Wrap(Int, args[0].n + args[1].n);
        assert InRange(Int, r);
      }
    }
  }

  lemma GreetingValid()
    ensures ValidFunction(Greeting)
  {
    forall args: seq<NativeValue> | Greeting.body(args).Ok?
      ensures ResultFits(Greeting.sig.ret, Greeting.body(args).value)
    {
      assert Greeting.body(args) == Ok(StringValue(StdString, GreetingBytes));
    }
  }

  lemma SpeedOfLightValid()
    ensures ValidFunction(SpeedOfLight)
  {
    forall args: seq<NativeValue> | SpeedOfLight.body(args).Ok?
      ensures ResultFits(SpeedOfLight.sig.ret, SpeedOfLight.body(args).value)
    {
      assert SpeedOfLight.body(args) == Ok(IntValue(LongLong, 300_000_000));
    }
  }

  /** Every function of namespace `test` is one the wrapper accepts. */
  lemma ValidFunctions(answer: bool)
    ensures ValidFunction(Printer) && ValidFunction(Greeting) && ValidFunction(Pi)
    ensures ValidFunction(SpeedOfLight) && ValidFunction(Sum) && ValidFunction(IsZero(answer))
  {
    GreetingValid();
    SpeedOfLightValid();
    SumValid();
  }

  const SumInfo: CallableInfo := CallableInfo("sum", DefaultDoc, Sum)

  lemma SumDecodesSmallInts()
    ensures DecodeArgs(PyTuple([PyInt(2), PyInt(3)]), Sum.sig.params) == Ok([IntValue(Int, 2), IntValue(Int, 3)])
  {
    var good := PyTuple([PyInt(2), PyInt(3)]);
    IntArgumentsArriveUnchanged(good, Sum.sig.params);
    var r := DecodeArgs(good, Sum.sig.params);
    assert |r.value| == 2 && r.value[0] == IntValue(Int, 2) && r.value[1] == IntValue(Int, 3);
    assert r.value == [IntValue(Int, 2), IntValue(Int, 3)];
  }

  /** `sum(2, 3)` runs `sum` once and returns 5. */
  lemma SumAddsIntegers()
    ensures ValidFunction(Sum)
    ensures PyWrapper(SumInfo, PyTuple([PyInt(2), PyInt(3)])) == Call(Returned(PyInt(5), None), 1)
  {
    SumValid();
    var values := [IntValue(Int, 2), IntValue(Int, 3)];
    SumDecodesSmallInts();
    assert Sum.body(values) == Ok(IntValue(Int, 5)) by {
      assert Wrap(Int, 5) == 5;
    }
  }

  /** `sum(2)` is refused with the arity message and `sum` does not run. */
  lemma SumWrongArity()
    ensures ValidFunction(Sum)
    ensures PyWrapper(SumInfo, PyTuple([PyInt(2)])) == Call(Returned(PyNone, Some(ValueError(ArityMismatchMessage))), 0)
  {
    SumValid();
    ArityMismatchRefused(SumInfo, PyTuple([PyInt(2)]));
  }

  /** `sum("a", "b")` throws inside the `noexcept` wrapper: the process terminates and `sum` does not run. */
  lemma SumRefusesStrings()
    ensures ValidFunction(Sum)
    ensures PyWrapper(SumInfo, PyTuple([PyStr("a"), PyStr("b")])) == Call(Terminated, 0)
  {
    SumValid();
    DecodeFailureNeverInvokes(SumInfo, PyTuple([PyStr("a"), PyStr("b")]), 0);
  }

  /** `greeting()` returns the text its UTF-8 bytes encode: a str of 64 characters from 66 bytes. */
  lemma GreetingReturnsText()
    ensures ValidFunction(Greeting)
    ensures PyWrapper(CallableInfo("greeting", DefaultDoc, Greeting), PyTuple([])) == Call(Returned(PyStr(GreetingText), None), 1)
  {
    GreetingValid();
    GreetingEncoding();
    TextRoundTrip(StdString, GreetingText);
    assert DecodeArgs(PyTuple([]), []) == Ok([]);
  }

  /** The literal's bytes are the UTF-8 encoding of the greeting: 66 bytes for 64 characters. */
  lemma GreetingEncoding()
    ensures |GreetingText| == 64 && |GreetingBytes| == 66
    ensures Encode(GreetingText) == GreetingBytes
  {
    GreetingPart0Bytes(); GreetingPart1Bytes(); GreetingPart2Bytes(); GreetingPart3Bytes();
    GreetingPart4Bytes(); GreetingPart5Bytes(); GreetingPart6Bytes(); GreetingPart7Bytes();
    var p0, p1, p2, p3 := GreetingPart0, GreetingPart1, GreetingPart2, GreetingPart3;
    var p4, p5, p6, p7 := GreetingPart4, GreetingPart5, GreetingPart6, GreetingPart7;
    EncodeAppend(p0, p1);
    EncodeAppend(p0 + p1, p2);
    EncodeAppend(p0 + p1 + p2, p3);
    EncodeAppend(p0 + p1 + p2 + p3, p4);
    EncodeAppend(p0 + p1 + p2 + p3 + p4, p5);
    EncodeAppend(p0 + p1 + p2 + p3 + p4 + p5, p6);
    EncodeAppend(p0 + p1 + p2 + p3 + p4 + p5 + p6, p7);
  }

  // The encoding of each part, one part per lemma to keep each proof small.
  lemma GreetingPart0Bytes() ensures Encode(GreetingPart0) == [0x68, 0x65, 0x6C, 0x6C, 0x6F, 0x20, 0x66, 0x72] {}
  lemma GreetingPart1Bytes() ensures Encode(GreetingPart1) == [0x6F, 0x6D, 0x20, 0x43, 0x2B, 0x2B, 0x20, 0x77] {}
  lemma GreetingPart2Bytes() ensures Encode(GreetingPart2) == [0x69, 0x74, 0x68, 0x20, 0x52, 0x65, 0x66, 0x6C] {}
  lemma GreetingPart3Bytes() ensures Encode(GreetingPart3) == [0x65, 0x63, 0x74, 0x69, 0x6F, 0x6E, 0x2E, 0x20] {}
  lemma GreetingPart4Bytes() ensures Encode(GreetingPart4) == [0x54, 0x68, 0x69, 0x73, 0x27, 0x73, 0x20, 0x63] {}
  lemma GreetingPart5Bytes() ensures Encode(GreetingPart5) == [0x6F, 0x6F, 0x6C, 0x20, 0x66, 0x65, 0x61, 0x74] {}
  lemma GreetingPart6Bytes() ensures Encode(GreetingPart6) == [0x75, 0x72, 0x65, 0x21, 0x20, 0x43, 0x2B, 0x2B] {}
  lemma GreetingPart7Bytes() ensures Encode(GreetingPart7) == [0x20, 0xE2, 0x9D, 0xA4, 0x50, 0x79, 0x74, 0x68, 0x6F, 0x6E] {}

  /** `pi()` returns a float, not an int; `speed_of_light()` its value; `foo()` None. */
  lemma NullaryScenarios()
    ensures ValidFunction(Pi) && ValidFunction(SpeedOfLight) && ValidFunction(Printer)
    ensures PyWrapper(CallableInfo("pi", DefaultDoc, Pi), PyTuple([])) == Call(Returned(PyFloat, None), 1)
    ensures PyWrapper(CallableInfo("speed_of_light", DefaultDoc, SpeedOfLight), PyTuple([]))
            == Call(Returned(PyInt(300_000_000), None), 1)
    ensures PyWrapper(CallableInfo("foo", DefaultDoc, Printer), PyTuple([])) == Call(Returned(PyNone, None), 1)
  {
    SpeedOfLightValid();
    assert DecodeArgs(PyTuple([]), []) == Ok([]);
  }

  /** `is_zero` takes a float: a Python int argument is refused and the function never runs. */
  lemma IsZeroRefusesInt(answer: bool, n: int)
    ensures ValidFunction(IsZero(answer))
    ensures PyWrapper(CallableInfo("is_zero", DefaultDoc, IsZero(answer)), PyTuple([PyInt(n)])) == Call(Terminated, 0)
    ensures PyWrapper(CallableInfo("is_zero", DefaultDoc, IsZero(answer)), PyTuple([PyFloat]))
            == Call(Returned(PyBool(answer), None), 1)
  {
    DecodeFailureNeverInvokes(CallableInfo("is_zero", DefaultDoc, IsZero(answer)), PyTuple([PyInt(n)]), 0);
    assert DecodeArgs(PyTuple([PyFloat]), [Floating(Float)]).value == [FloatValue(Float)];
  }
}
