# rebind — a Dafny model of the C++-to-Python binder core

`rebind` exposes the free functions of a C++ namespace as a Python extension
module. Compile-time reflection lists the namespace's members. Each function
member becomes a `CallableInfo` descriptor. A single C entry point,
`trampoline`, recovers the descriptor from a capsule and runs its type-erased
wrapper. The wrapper decodes the positional arguments with `cast_to_cpp`,
calls the native function and marshals the result back with `cast_to_python`.

The model has seven modules plus the example namespace:

- `Results` (results.dfy): the `Option` and `Result` wrappers.
- `Utf8` (utf8.dfy): strict UTF-8 as RFC 3629, section 4 defines it, which
  is how `PyUnicode_FromStringAndSize` and `PyUnicode_FromString` read the
  bytes of a native string. Decoding and encoding are proved inverse.
- `NativeTypes` (native_types.dfy): the static C++ types the marshaler
  dispatches on, their widths on x86-64 Linux (LP64, plain `char` signed),
  and values of those types. A native string is its bytes. The module
  includes `Wrap`, the modular integral conversion.
- `PyObjects` (py_objects.dfy): Python objects as the C API shows them to the
  binder, with `PyLong_Check` (true for `bool` too), `PyFloat_Check`,
  `PyTuple_Check`, `PyLong_AsLong` (-1 on overflow) and `PyTuple_GetItem`
  (NULL out of range).
- `Cast` (cast.dfy): `cast_to_python` (`ToPython`), `cast_to_cpp`
  (`ToNative`), `cast_tuple_item_to_cpp` (`TupleItemToNative`) and the
  round-trip properties of the two directions.
- `Rebind` (rebind.dfy): `function_traits` and `pyWrapper`. A native function
  is an abstract function value. Every call reports how often that function
  ran, which is how "never invoked on error" and "invoked exactly once" are
  stated. This module also holds `trampoline` and `getMethod` /
  `collectFunctions`, which filter a member list down to its function
  members. A native function may throw; it then returns an exception value.
- `Registry` (registry.dfy): the host module as a class whose attribute
  dictionary `addFunction` and `addFunctionsWithTuple` update in place. The
  dictionary starts with the five standard module attributes. Every host-API
  step that can fail is an input outcome, and a failure leaves the
  interpreter's error indicator set.
- `Example` (example.dfy): the `test` namespace of test.cpp as concrete
  instances, with the calls `sum(2, 3)`, `sum(2)`, `sum("a", "b")`,
  `greeting()`, `pi()` and `is_zero(1)`.

Choices the model makes where the code is specific:

- The platform is x86-64 Linux (LP64): `int64_t`/`ssize_t` are `long`, and
  `uint64_t`/`size_t` are `unsigned long`. The `int64_t`, `uint64_t`,
  `size_t` and `ssize_t` branches of `cast_to_python` therefore never fire.
- The `int32_t` branch is commented out, so `int` takes the
  `is_integral_v` fallback, `PyLong_FromLong`.
- A `cast_to_cpp` exception inside the `noexcept` wrapper ends the process.
  The outcome `Terminated` stands for that, with zero invocations. An
  exception thrown by the native function itself ends it the same way, after
  its one invocation.
- Strings are bytes on the C++ side. `std::string` and `std::string_view`
  pass all `size()` bytes, `const char*` the bytes before the first NUL, and
  the host decodes them as strict UTF-8. Bytes that are not UTF-8 give NULL,
  so a `str` result's length counts characters, not bytes.
- Registering a second callable under an existing name is not an error.
  `PyModule_AddObject` replaces the attribute, and the key keeps its first
  position.

## Model

| member | source | states |
|---|---|---|
| NativeTypes.Wrap | cast.hpp:87 | `static_cast` to an integer type yields the unique value of that type congruent to the input modulo 2^width, and leaves in-range values unchanged |
| NativeTypes.Default | cast.hpp:95 | `CType{}` has the requested type and is a valid value of it (false, 0, empty string, nullptr) |
| PyObjects.AsLong | cast.hpp:87 | `PyLong_AsLong` always answers a value in the range of `long` |
| Cast.ConstructorParameterWidens | cast.hpp:20-66 | the first matching branch of the integer chain takes a parameter type that holds every value of the argument's type; `int` reaches `PyLong_FromLong` |
| Cast.CStringContents | cast.hpp:72-74 | the text read from a `const char*` is the longest NUL-free prefix of the buffer, and a NUL follows it |
| Cast.ToPython | cast.hpp:11-76 | float types give a float; bool gives True/False by its value; every integer type gives an int of the same value; string and string_view give the str whose UTF-8 encoding is all their bytes, `const char*` the str whose encoding is the bytes before the first NUL; the result is NULL exactly for a type with no rule or string bytes that are not UTF-8 |
| Cast.TextRoundTrip | cast.hpp:69-74 | the UTF-8 encoding of any text marshals back to that text as `std::string`, and as `const char*` when the text has no NUL |
| Cast.IllFormedBytesGiveNull | cast.hpp:69-74 | a lone continuation byte, an overlong NUL, an encoded surrogate and a byte 0xFF each give NULL |
| Cast.CStringBeforeTerminator | cast.hpp:72-74 | a `const char*` buffer whose only zero byte is its last reads as everything before it |
| Cast.PrefixBeforeTerminator | cast.hpp:72-74 | whatever follows the first zero byte of a `const char*` buffer is not read |
| Cast.IntegralCast | cast.hpp:83-88 | truncating the `long` to an integral target yields a valid value of that target type |
| Cast.ToNative | cast.hpp:78-96 | a NULL object is "python object must be set" for every target; an integral target fails exactly on an object that is not int or bool, and a float target exactly on a non-float, each with its own message; on success the value has the target type, an integer is congruent to `PyLong_AsLong` modulo 2^width, a bool is its truth, and any other target is `CType{}` |
| Cast.TupleItemToNative | cast.hpp:98-105 | a missing tuple item is "tuple element is null" and nothing else is; otherwise the item is converted unchanged by `cast_to_cpp`; it never reports an unset object |
| Cast.IntRoundTrip | cast.hpp:83-88 | an int that fits the target type and `long` converts to that value and marshals back to the same int |
| Cast.UnsignedAboveLongMaxWraps | cast.hpp:87 | for `unsigned long` and `unsigned long long` targets, ints above LONG_MAX arrive as the type's maximum, so the round trip loses them |
| Cast.NumericRoundTrip | cast.hpp:16-88 | native to Python to native is the identity on bools, floats and integers within `long` |
| Cast.BoolTargetReadsTruth | cast.hpp:83-88 | a bool parameter accepts every int and reads it as `n != 0`; Python bools round-trip |
| Cast.StringTargetDropsText | cast.hpp:95 | string and `const char*` parameters never fail and receive an empty string or nullptr, whatever str was passed |
| Cast.EmbeddedNulKeptOnlyByLengthForm | cast.hpp:69-74 | a text with an embedded NUL encodes to the bytes of its two parts around a zero byte; `std::string` marshals every character including the NUL; `const char*` stops at it |
| Utf8.DecodeFirst | cast.hpp:69-74 | the decoder reads one well-formed sequence of one to four bytes at the front (shortest form, no surrogate, nothing above U+10FFFF), never past the end, or reports an ill-formed front |
| Utf8.EncodeChar | cast.hpp:69-74 | a character takes one to four bytes, the later ones continuation bytes, and its first byte is zero only for NUL |
| Utf8.DecodeFirstOfEncodeChar | cast.hpp:69-74 | the decoder reads back the character at the front of its own encoding, and exactly that many bytes |
| Utf8.DecodeFirstIsEncoding | cast.hpp:69-74 | whatever sequence the decoder accepts at the front is exactly the encoding of the character it yields |
| Utf8.DecodeSplit | cast.hpp:69-74 | a successful decoding is the encoding of its first character followed by a successful decoding of the rest |
| Utf8.EncodeAppend | cast.hpp:69-74 | encoding distributes over concatenation |
| Utf8.DecodeEncode | cast.hpp:69-74 | every text survives encoding then strict decoding |
| Utf8.EncodeDecode | cast.hpp:69-74 | strict decoding succeeds only on an encoding: the text it yields encodes back to exactly the bytes |
| Utf8.NoZeroByteWithoutNul | cast.hpp:72-74 | a text without NUL encodes without a zero byte |
| PyObjects.TupleGetItem | cast.hpp:100 | `PyTuple_GetItem` yields the item at an index inside a tuple, and NULL for an index out of range or an object that is not a tuple |
| Rebind.TraitsOfEveryForm | rebind.hpp:37-54 | `arity` is the number of parameter types, and the pointer and reference forms have the traits of the plain form |
| Rebind.WrapperTraits | rebind.hpp:65-67 | the traits the wrapper reads, those of the function-pointer type the descriptor is deduced with, are those of the plain signature |
| Rebind.DecodeArgs | rebind.hpp:105-116 | decoding succeeds exactly when every slot decodes with its own parameter type; then the values are the slots' conversions, one per parameter; on failure the error is that of some failing slot |
| Rebind.PyWrapper | rebind.hpp:82-134 | the native function runs at most once, and exactly when args is a tuple of the right length whose every slot decodes; the process terminates after that one run exactly when the function throws; a raised error comes with None; otherwise the object returned is never NULL |
| Rebind.NotTupleRefused | rebind.hpp:95-98 | non-tuple args give ValueError "Args must be a tuple type" and None with zero invocations |
| Rebind.ArityMismatchRefused | rebind.hpp:100-103 | a tuple of the wrong length gives ValueError "Mismatch number of arguments" and None with zero invocations |
| Rebind.DecodeFailureNeverInvokes | rebind.hpp:105-116 | one slot that does not decode terminates the call before the native function runs |
| Rebind.VoidCallRunsOnce | rebind.hpp:119-121 | a well-formed call to a void function runs it exactly once and returns None with no error, or terminates when it throws |
| Rebind.WellFormedCallMarshalsResult | rebind.hpp:125-131 | when every slot decodes, each argument is `cast_to_cpp` of its slot; the function runs once; a throw terminates; otherwise the result is marshalled, or ValueError "failed to cast to python object" when marshaling gives NULL (a return type with no rule, or string bytes that are not UTF-8) |
| Rebind.ThrowingFunctionTerminates | rebind.hpp:82 | an exception from the native function leaves the `noexcept` wrapper: the process terminates after its one invocation |
| Rebind.IntArgumentsArriveUnchanged | rebind.hpp:112-114 | int arguments within their parameter types and `long` reach the native function unchanged |
| Rebind.CapsuleGetPointer | rebind.hpp:188 | the capsule yields its pointer exactly when it is a capsule of the requested name |
| Rebind.Trampoline | rebind.hpp:187-194 | when the capsule yields no pointer, the result is NULL with the capsule error and nothing runs; otherwise it is exactly the descriptor's wrapper call |
| Rebind.GetMethod | rebind.hpp:153-164 | a function member gives a one-element tuple holding its descriptor (member name, doc "doc", the function itself); any other member gives the empty tuple |
| Rebind.CollectFunctions | rebind.hpp:166-180 | concatenating `getMethod` over the members yields at most one descriptor per member |
| Rebind.FunctionIndices | rebind.hpp:153-164 | the positions where `is_function` holds, all of them, in increasing order |
| Rebind.CollectFunctionsExact | rebind.hpp:166-180 | `collectFunctions` yields one descriptor per function member, in member order, named after the member with doc "doc" |
| Rebind.CollectedAreFunctionMembers | rebind.hpp:153-170 | every collected descriptor comes from a function member with that name and function, and carries the default doc |
| Registry.ModuleDict.Insert | rebind.hpp:216 | adding an attribute binds the name to the new object; a new name goes last, and an existing name keeps its place |
| Registry.InitialDict | rebind.hpp:240 | a new module's dictionary holds exactly `__name__` (the module name), `__doc__`, `__package__`, `__loader__` and `__spec__` (None), in that order, with distinct keys |
| Registry.Install | rebind.hpp:227-235 | installing a sequence of callables keeps the dictionary well formed |
| Registry.InstallBinds | rebind.hpp:227-235 | afterwards a name is bound exactly when it was bound before or some callable of that name was added successfully; a failed step binds nothing and unbinds nothing |
| Registry.InstallLastWins | rebind.hpp:227-235 | a name is bound to the last successfully added callable of that name |
| Registry.InstallKeepsOthers | rebind.hpp:227-235 | a name no successful step touches keeps its old binding |
| Registry.Succeeded | rebind.hpp:227-235 | the callables whose steps all succeeded, in tuple order, are never more than those tried |
| Registry.SucceededNames | rebind.hpp:227-235 | each name among them belongs to a callable whose steps succeeded |
| Registry.AllSucceeded | rebind.hpp:227-235 | when every step succeeds, every callable has succeeded |
| Registry.InstallKeepsOrder | rebind.hpp:227-235 | when the names that succeed are new and distinct, exactly the names of the succeeded callables are appended, in tuple order; a failed callable leaves no trace |
| Registry.InstalledNameCallsItsWrapper | rebind.hpp:197-224 | calling a name whose last successful installation was a given callable goes through `trampoline` to that callable's own wrapper |
| Registry.CallableShadowsModuleAttribute | rebind.hpp:216 | a callable named after a standard module attribute replaces that attribute's value and keeps its place |
| Registry.HostModule.constructor | rebind.hpp:237-242 | a created module has the given name, the standard attributes of `InitialDict` and no error set |
| Registry.HostModule.AddFunction | rebind.hpp:196-224 | when the capsule, the function object or the `PyModule_AddObject` step fails, the result is NULL, the dictionary is unchanged and the error indicator is set; otherwise the bound function object is returned and added under the callable's name |
| Registry.HostModule.AddFunctionsWithTuple | rebind.hpp:226-235 | every callable is tried in tuple order, each failure being ignored; the new dictionary is `Install` of the old one, and the error indicator is set afterwards exactly when it was before or some step failed |
| Registry.InitModule | rebind.hpp:237-244 | a fresh module of that name with the standard attributes and no error set exactly when creation succeeds; otherwise the "failed to create module" error |
| Example.TestFunctionNames | test.cpp:10-24 | the function members of `test` are foo, bar, greeting, pi, speed_of_light, sum and is_zero, in that order |
| Example.CollectTestNamespace | test.cpp:10-24 | collecting `test` drops `int a` and keeps the seven functions in declaration order |
| Example.SumValid | test.cpp:22 | `sum` always returns a valid `int` |
| Example.GreetingValid | test.cpp:16 | `greeting` returns a `std::string` |
| Example.GreetingEncoding | test.cpp:16 | the literal's 66 bytes are the UTF-8 encoding of its 64 characters |
| Example.GreetingReturnsText | test.cpp:16 | `greeting()` runs once and returns the 64-character str its bytes encode |
| Example.SpeedOfLightValid | test.cpp:20 | `speed_of_light` returns a `long long` |
| Example.ValidFunctions | test.cpp:12-24 | every function of `test` has a signature the wrapper accepts and results of its declared type |
| Example.TestFunctionsValid | test.cpp:10-24 | every collected descriptor of `test` wraps such a function |
| Example.ExampleModuleKeys | test.cpp:10-28 | loading module `example` appends, after the five standard attributes, the names of the functions whose host steps succeed, in declaration order; with every step succeeding, exactly the seven names |
| Example.ExpectedNamesDistinct | test.cpp:12-24 | the seven names are distinct and none is a standard module attribute |
| Example.NamesKeepOrder | rebind.hpp:227-235 | callables with distinct names not yet bound are appended as `Succeeded` lists them |
| Example.SumAddsIntegers | test.cpp:22 | `sum(2, 3)` runs `sum` once and returns 5 |
| Example.SumWrongArity | test.cpp:22 | `sum(2)` is refused with the arity message and `sum` does not run |
| Example.SumRefusesStrings | test.cpp:22 | `sum("a", "b")` terminates and `sum` does not run |
| Example.NullaryScenarios | test.cpp:12-20 | `pi()` returns a float (not an int), `speed_of_light()` 300000000, and `foo()` None, each running once |
| Example.IsZeroRefusesInt | test.cpp:24 | `is_zero(1)` terminates without running; `is_zero(1.0)` returns the comparison's answer as a bool |

## Left out

- Floating-point values: only the float tag is kept. Arithmetic, precision and the float-to-double widening in `PyFloat_FromDouble` are not modelled.
- `PyLong_AsLong` leaves an OverflowError pending when it answers -1. The pending exception is not tracked; only the -1 value is.
- Reference counting (`Py_DECREF`) and the deliberately leaked `PyMethodDef` and `PyModuleDef` have no observable logic here.
- Creating a capsule, creating a function object, `PyModule_AddObject` and `PyModule_Create` are foreign calls. Each is an input outcome that succeeds or fails.
- The `std::meta` reflection (`members_of`, `identifier_of`, splicing, `define_static_array`, `numOfMembers`) is not modelled. The member list is an input sequence, and its length plays the part of `numOfMembers`.
- `functionsStorage`, `REFLB_MODULE` and `REFLB_CONCAT` are compile-time storage and preprocessor glue.
- An exception from `initModule` escaping the `extern "C"` `PyInit_` function is not followed past the error result.
- Names are the members' identifiers. Whether `identifier_of` data is NUL-terminated is not modelled.
- `getName`/`getDoc` assert that their strings are non-null. Descriptors always carry a name and a doc here.
- Rebind.PyWrapper: after a ValueError it returns None, and the interpreter then reports a SystemError. That conversion is host behaviour and not modelled.
- Rebind.PyWrapper: requires `ValidFunction`. A `void` function with parameters does not compile, because the `void` branch passes an empty index sequence. A native function is also assumed to return a value of its declared type.
- Rebind.PyWrapper: a `const char*` result that is nullptr or not NUL-terminated is a legal value of that type, but `PyUnicode_FromString` has undefined behaviour on it. `Marshallable` excludes both, so the model says nothing about such a function.
- Registry.HostModule.AddFunctionsWithTuple: the error indicator a failed step leaves set is tracked (`errorSet`), but not what follows. The init function returns the module with the error still set, and the interpreter then fails the import with SystemError. That import machinery is host behaviour and not modelled.
- A thrown exception is a value with a message. Which exception type is thrown, and what `std::terminate` prints, is not modelled.
- Rebind.PyWrapper: `kwargs` is ignored, as in the code.
- Rebind.DecodeArgs: C++ leaves the evaluation order of the slot conversions unspecified. The contract therefore names only some failing slot, not the first one.
- Rebind.PyWrapperThunk: no contract of its own. `Trampoline`'s contract states the whole call path through it.
- Rebind.Trampoline: the error `PyCapsule_GetPointer` sets is one tag, `CapsuleError`, without its message.
- `foo` and `bar` print a line. Printing is not modelled; they are void functions with no observable result.
- `is_zero` compares a float, so the comparison's answer is a parameter.
- `sum` adds two `int`s, and signed overflow is undefined in C++. The model wraps modulo 2^32.
- mylib.h, which test.cpp includes into namespace `test`, is not part of this model. Its members are not in the example member list.
