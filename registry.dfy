/**
 * Installing descriptors into a host module (`addFunction`,
 * `addFunctionsWithTuple`, `initModule`). Each host-API step that can fail
 * (capsule creation, function creation, `PyModule_AddObject`, module
 * creation) is an input outcome.
 */
module Registry {
  import opened Results
  import opened PyObjects
  import opened Rebind

  /** How the host API answers the three steps of installing one function. */
  datatype HostOutcome = Created | CapsuleFails | FunctionFails | AddObjectFails

  /** The function object `PyCFunction_NewEx` makes: method-table name and doc, capsule as `self`. */
  datatype BuiltinFunction = BuiltinFunction(name: string, doc: string, self: Capsule)

  /** The function object that installs `cb`. */
  function Bind(cb: CallableInfo): BuiltinFunction {
    BuiltinFunction(cb.name, cb.doc, Capsule(CapsuleName, cb))
  }

  /** Calling a function object: the host hands its `self` capsule to `trampoline`. */
  function CallBuiltin(f: BuiltinFunction, args: PyObject, kwargs: PyObject): Call
    requires f.self.Capsule? ==> ValidFunction(f.self.pointer.fn)
  {
    Trampoline(f.self, args, kwargs)
  }

  /** A module attribute's value: a str, None, or a function object. */
  datatype Attribute = Text(s: string) | NoneObject | Function(f: BuiltinFunction)

  /** A module's attribute dictionary: keys in insertion order, and their values. */
  datatype ModuleDict = ModuleDict(keys: seq<string>, entries: map<string, Attribute>)
  {
    ghost predicate Valid() {
      && (forall i, j :: 0 <= i < j < |keys| ==> keys[i] != keys[j])
      && (forall k :: k in entries <==> k in keys)
    }

    /** Setting an attribute: a new name goes last, an existing one keeps its place and gets the new value. */
    function Insert(name: string, f: Attribute): (d: ModuleDict)
      requires Valid()
      ensures d.Valid()
      ensures d.entries == entries[name := f]
      ensures d.keys == if name in entries then keys else keys + [name]
    {
      if name in entries then ModuleDict(keys, entries[name := f])
      else ModuleDict(keys + [name], entries[name := f])
    }
  }

  /** The attributes every new module object starts with, in the order the host sets them. */
  const ModuleAttributes: seq<string> := ["__name__", "__doc__", "__package__", "__loader__", "__spec__"]

  /**
   * The dictionary of a module made from a definition with no doc string and
   * no method table: `__name__` holds the module name and the other standard
   * attributes hold None.
   */
  function InitialDict(name: string): (d: ModuleDict)
    ensures d.Valid() && d.keys == ModuleAttributes
    ensures d.entries["__name__"] == Text(name)
    ensures forall k :: k in d.entries && k != "__name__" ==> d.entries[k] == NoneObject
  {
    ModuleDict(ModuleAttributes, map["__name__" := Text(name), "__doc__" := NoneObject,
      "__package__" := NoneObject, "__loader__" := NoneObject, "__spec__" := NoneObject])
  }

  /** The dictionary after trying to install each callable in order with the given outcomes. */
  function Install(d: ModuleDict, cbs: seq<CallableInfo>, outcomes: seq<HostOutcome>): (r: ModuleDict)
    requires d.Valid() && |outcomes| == |cbs|
    ensures r.Valid()
  {
    if |cbs| == 0 then d
    else
      var n := |cbs| - 1;
      var prev := Install(d, cbs[..n], outcomes[..n]);
      if outcomes[n] == Created then prev.Insert(cbs[n].name, Function(Bind(cbs[n]))) else prev
  }

  /** One more callable: its function object is inserted when its steps succeed. */
  lemma InstallStep(d: ModuleDict, cbs: seq<CallableInfo>, outcomes: seq<HostOutcome>, i: nat)
    requires d.Valid() && |outcomes| == |cbs| && i < |cbs|
    ensures var prev := Install(d, cbs[..i], outcomes[..i]);
      Install(d, cbs[..i + 1], outcomes[..i + 1]) ==
        if outcomes[i] == Created then prev.Insert(cbs[i].name, Function(Bind(cbs[i]))) else prev
  {
    assert cbs[..i + 1][..i] == cbs[..i] && outcomes[..i + 1][..i] == outcomes[..i];
  }

  /**
   * A name is bound afterwards exactly when it was bound before or some
   * callable of that name was installed: a failure costs only its own name.
   */
  lemma {:induction false} InstallBinds(d: ModuleDict, cbs: seq<CallableInfo>, outcomes: seq<HostOutcome>, x: string)
    requires d.Valid() && |outcomes| == |cbs|
    ensures x in Install(d, cbs, outcomes).entries <==>
      x in d.entries || exists j :: 0 <= j < |cbs| && outcomes[j] == Created && cbs[j].name == x
  {
    if |cbs| > 0 {
      var n := |cbs| - 1;
      InstallBinds(d, cbs[..n], outcomes[..n], x);
      if x in Install(d, cbs, outcomes).entries && x !in d.entries {
        if outcomes[n] == Created && cbs[n].name == x {
        } else {
          var j :| 0 <= j < n && outcomes[..n][j] == Created && cbs[..n][j].name == x;
          assert outcomes[j] == Created && cbs[j].name == x;
        }
      }
      if exists j :: 0 <= j < |cbs| && outcomes[j] == Created && cbs[j].name == x {
        var j :| 0 <= j < |cbs| && outcomes[j] == Created && cbs[j].name == x;
        if j < n {
          assert outcomes[..n][j] == Created && cbs[..n][j].name == x;
        }
      }
    }
  }

  /** The last installed callable of a name is the one the name is bound to. */
  lemma {:induction false} InstallLastWins(d: ModuleDict, cbs: seq<CallableInfo>, outcomes: seq<HostOutcome>, j: nat)
    requires d.Valid() && |outcomes| == |cbs|
    requires j < |cbs| && outcomes[j] == Created
    requires forall k :: j < k < |cbs| && outcomes[k] == Created ==> cbs[k].name != cbs[j].name
    ensures cbs[j].name in Install(d, cbs, outcomes).entries
    ensures Install(d, cbs, outcomes).entries[cbs[j].name] == Function(Bind(cbs[j]))
  {
    var n := |cbs| - 1;
    if j < n {
      InstallLastWins(d, cbs[..n], outcomes[..n], j);
    }
  }

  /** A name no callable installs keeps its old binding. */
  lemma {:induction false} InstallKeepsOthers(d: ModuleDict, cbs: seq<CallableInfo>, outcomes: seq<HostOutcome>, x: string)
    requires d.Valid() && |outcomes| == |cbs| && x in d.entries
    requires forall k :: 0 <= k < |cbs| && outcomes[k] == Created ==> cbs[k].name != x
    ensures x in Install(d, cbs, outcomes).entries && Install(d, cbs, outcomes).entries[x] == d.entries[x]
  {
    if |cbs| > 0 {
      InstallKeepsOthers(d, cbs[..|cbs| - 1], outcomes[..|cbs| - 1], x);
    }
  }

  /** The names of the callables, in order. */
  function Names(cbs: seq<CallableInfo>): seq<string> {
    if |cbs| == 0 then [] else Names(cbs[..|cbs| - 1]) + [cbs[|cbs| - 1].name]
  }

  /** `Names` lists each callable's name at its own position. */
  lemma {:induction false} NamesAt(cbs: seq<CallableInfo>)
    ensures |Names(cbs)| == |cbs|
    ensures forall j :: 0 <= j < |cbs| ==> Names(cbs)[j] == cbs[j].name
  {
    if |cbs| > 0 {
      NamesAt(cbs[..|cbs| - 1]);
    }
  }

  /** The callables whose installation succeeded, in order. */
  function Succeeded(cbs: seq<CallableInfo>, outcomes: seq<HostOutcome>): (r: seq<CallableInfo>)
    requires |outcomes| == |cbs|
    ensures |r| <= |cbs|
  {
    if |cbs| == 0 then []
    else
      var n := |cbs| - 1;
      Succeeded(cbs[..n], outcomes[..n]) + (if outcomes[n] == Created then [cbs[n]] else [])
  }

  /** Every name among the succeeded callables is that of a callable whose steps all succeeded. */
  lemma {:induction false} SucceededNames(cbs: seq<CallableInfo>, outcomes: seq<HostOutcome>, x: string)
    requires |outcomes| == |cbs| && x in Names(Succeeded(cbs, outcomes))
    ensures exists k :: 0 <= k < |cbs| && outcomes[k] == Created && cbs[k].name == x
  {
    var n := |cbs| - 1;
    var s := Succeeded(cbs[..n], outcomes[..n]);
    if outcomes[n] == Created && x == cbs[n].name {
    } else {
      if outcomes[n] == Created {
        assert (s + [cbs[n]])[..|s|] == s;
        assert Names(s + [cbs[n]]) == Names(s) + [cbs[n].name];
      } else {
        assert s + [] == s;
      }
      SucceededNames(cbs[..n], outcomes[..n], x);
      var k :| 0 <= k < n && outcomes[..n][k] == Created && cbs[..n][k].name == x;
      assert outcomes[k] == Created && cbs[k].name == x;
    }
  }

  /** When every step succeeds, every callable has succeeded. */
  lemma {:induction false} AllSucceeded(cbs: seq<CallableInfo>, outcomes: seq<HostOutcome>)
    requires |outcomes| == |cbs|
    requires forall k :: 0 <= k < |cbs| ==> outcomes[k] == Created
    ensures Succeeded(cbs, outcomes) == cbs
  {
    if |cbs| > 0 {
      var n := |cbs| - 1;
      AllSucceeded(cbs[..n], outcomes[..n]);
      assert cbs[..n] + [cbs[n]] == cbs;
    }
  }

  /**
   * When the names installed are new and distinct, they are appended in
   * discovery order, and a failed callable leaves no trace in the order.
   */
  lemma {:induction false} InstallKeepsOrder(d: ModuleDict, cbs: seq<CallableInfo>, outcomes: seq<HostOutcome>)
    requires d.Valid() && |outcomes| == |cbs|
    requires forall k :: 0 <= k < |cbs| && outcomes[k] == Created ==> cbs[k].name !in d.entries
    requires forall i, j :: 0 <= i < j < |cbs| && outcomes[i] == Created && outcomes[j] == Created ==> cbs[i].name != cbs[j].name
    ensures Install(d, cbs, outcomes).keys == d.keys + Names(Succeeded(cbs, outcomes))
  {
    if |cbs| > 0 {
      var n := |cbs| - 1;
      var front, early := cbs[..n], outcomes[..n];
      FreshDistinctPrefix(d, cbs, outcomes);
      InstallKeepsOrder(d, front, early);
      InstallAppendsFresh(d, cbs, outcomes);
    }
  }

  /** The requirements of `InstallKeepsOrder` hold of every prefix, and a last name installed is new. */
  lemma FreshDistinctPrefix(d: ModuleDict, cbs: seq<CallableInfo>, outcomes: seq<HostOutcome>)
    requires d.Valid() && |outcomes| == |cbs| > 0
    requires forall k :: 0 <= k < |cbs| && outcomes[k] == Created ==> cbs[k].name !in d.entries
    requires forall i, j :: 0 <= i < j < |cbs| && outcomes[i] == Created && outcomes[j] == Created ==> cbs[i].name != cbs[j].name
    ensures var n := |cbs| - 1;
      forall k :: 0 <= k < n && outcomes[..n][k] == Created ==> cbs[..n][k].name !in d.entries
    ensures var n := |cbs| - 1;
      forall i, j :: 0 <= i < j < n && outcomes[..n][i] == Created && outcomes[..n][j] == Created ==> cbs[..n][i].name != cbs[..n][j].name
    ensures var n := |cbs| - 1;
      outcomes[n] == Created ==> cbs[n].name !in d.keys + Names(Succeeded(cbs[..n], outcomes[..n]))
  {
    var n := |cbs| - 1;
    if outcomes[n] == Created {
      forall x | x in Names(Succeeded(cbs[..n], outcomes[..n]))
        ensures x != cbs[n].name
      {
        SucceededNames(cbs[..n], outcomes[..n], x);
      }
    }
  }

  /** One more callable either appends its fresh name to the keys or, when a step fails, changes nothing. */
  lemma InstallAppendsFresh(d: ModuleDict, cbs: seq<CallableInfo>, outcomes: seq<HostOutcome>)
    requires d.Valid() && |outcomes| == |cbs| > 0
    requires Install(d, cbs[..|cbs| - 1], outcomes[..|cbs| - 1]).keys == d.keys + Names(Succeeded(cbs[..|cbs| - 1], outcomes[..|cbs| - 1]))
    requires outcomes[|cbs| - 1] == Created ==> cbs[|cbs| - 1].name !in d.keys + Names(Succeeded(cbs[..|cbs| - 1], outcomes[..|cbs| - 1]))
    ensures Install(d, cbs, outcomes).keys == d.keys + Names(Succeeded(cbs, outcomes))
  {
    var n := |cbs| - 1;
    var prev := Install(d, cbs[..n], outcomes[..n]);
    var s := Succeeded(cbs[..n], outcomes[..n]);
    if outcomes[n] == Created {
      assert cbs[n].name !in prev.entries;
      assert Install(d, cbs, outcomes) == prev.Insert(cbs[n].name, Function(Bind(cbs[n])));
      assert (s + [cbs[n]])[..|s|] == s;
    } else {
      assert s + [] == s;
    }
  }

  /**
   * Calling a name whose last successful installation was callable `j` runs
   * the wrapper of that callable.
   */
  lemma InstalledNameCallsItsWrapper(d: ModuleDict, cbs: seq<CallableInfo>, outcomes: seq<HostOutcome>, j: nat, args: PyObject, kwargs: PyObject)
    requires d.Valid() && |outcomes| == |cbs|
    requires j < |cbs| && outcomes[j] == Created && ValidFunction(cbs[j].fn)
    requires forall k :: j < k < |cbs| && outcomes[k] == Created ==> cbs[k].name != cbs[j].name
    ensures cbs[j].name in Install(d, cbs, outcomes).entries
    ensures Install(d, cbs, outcomes).entries[cbs[j].name] == Function(Bind(cbs[j]))
    ensures CallBuiltin(Install(d, cbs, outcomes).entries[cbs[j].name].f, args, kwargs) == PyWrapper(cbs[j], args)
  {
    InstallLastWins(d, cbs, outcomes, j);
  }

  /** A callable named after a standard module attribute replaces that attribute's value in its place. */
  lemma CallableShadowsModuleAttribute(name: string, cb: CallableInfo)
    requires cb.name in ModuleAttributes
    ensures InitialDict(name).Insert(cb.name, Function(Bind(cb))).keys == ModuleAttributes
    ensures InitialDict(name).Insert(cb.name, Function(Bind(cb))).entries[cb.name] == Function(Bind(cb))
  {
  }

  datatype ModuleError = ModuleCreationFailed
  {
    function Message(): string { "failed to create module" }
  }

  /** Whether every host step succeeded. */
  predicate AllCreated(outcomes: seq<HostOutcome>) {
    forall k :: 0 <= k < |outcomes| ==> outcomes[k] == Created
  }

  /** A prefix one longer has every step succeed when the shorter one does and so does the new step. */
  lemma AllCreatedStep(outcomes: seq<HostOutcome>, i: nat)
    requires i < |outcomes|
    ensures AllCreated(outcomes[..i + 1]) <==> AllCreated(outcomes[..i]) && outcomes[i] == Created
  {
    assert outcomes[..i + 1] == outcomes[..i] + [outcomes[i]];
  }

  /**
   * A host module object: its name, its attribute dictionary, and whether the
   * interpreter's error indicator has been left set while it was initialised.
   */
  class HostModule {
    const name: string
    var dict: ModuleDict
    var errorSet: bool

    ghost predicate Valid()
      reads this
    {
      dict.Valid()
    }

    /** `PyModule_Create` with no doc string and an empty method table of its own. */
    constructor (name: string)
      ensures Valid() && this.name == name && dict == InitialDict(name) && !errorSet
    {
      this.name := name;
      dict := InitialDict(name);
      errorSet := false;
    }

    /**
     * `addFunction`: make the capsule, then the function object, then add it
     * under the callable's name; NULL (None here) as soon as a step fails,
     * with the host's exception for that step left set.
     */
    method AddFunction(cb: CallableInfo, outcome: HostOutcome) returns (f: Option<BuiltinFunction>)
      requires Valid()
      modifies this
      ensures Valid()
      ensures f == if outcome == Created then Some(Bind(cb)) else None
      ensures dict == if outcome == Created then old(dict).Insert(cb.name, Function(Bind(cb))) else old(dict)
      ensures errorSet == (old(errorSet) || outcome != Created)
    {
      if outcome == CapsuleFails {
        errorSet := true;
        return None;
      }
      var fn := Bind(cb);
      if outcome == FunctionFails {
        errorSet := true;
        return None;
      }
      if outcome == AddObjectFails {
        errorSet := true;
        return None;
      }
      dict := dict.Insert(cb.name, Function(fn));
      return Some(fn);
    }

    /**
     * `addFunctionsWithTuple`: every callable in tuple order; each result is
     * discarded, so an exception from a failed step stays set.
     */
    method AddFunctionsWithTuple(cbs: seq<CallableInfo>, outcomes: seq<HostOutcome>)
      requires Valid() && |outcomes| == |cbs|
      modifies this
      ensures Valid()
      ensures dict == Install(old(dict), cbs, outcomes)
      ensures errorSet == (old(errorSet) || !AllCreated(outcomes))
    {
      for i := 0 to |cbs|
        invariant Valid()
        invariant dict == Install(old(dict), cbs[..i], outcomes[..i])
        invariant errorSet == (old(errorSet) || !AllCreated(outcomes[..i]))
      {
        InstallStep(old(dict), cbs, outcomes, i);
        AllCreatedStep(outcomes, i);
        var _ := AddFunction(cbs[i], outcomes[i]);
      }
      assert cbs[..|cbs|] == cbs && outcomes[..|cbs|] == outcomes;
    }
  }

  /** `initModule`: a new module of that name, or the exception when creation fails. */
  method InitModule(name: string, created: bool) returns (r: Result<HostModule, ModuleError>)
    ensures r.Ok? <==> created
    ensures r.Ok? ==> fresh(r.value) && r.value.Valid() && r.value.name == name
    ensures r.Ok? ==> r.value.dict == InitialDict(name) && !r.value.errorSet
    ensures r.Err? ==> r.error == ModuleCreationFailed
  {
    if created {
      var m := new HostModule(name);
      return Ok(m);
    }
    return Err(ModuleCreationFailed);
  }
}
