/**
 * `WMIHelper` and `CObjectSink`: loops that drain a provider enumerator into a
 * vector, stopping at the first `Next` that does not return `S_OK`, and the
 * callback object that buffers the objects of an asynchronous enumeration.
 */
module WmiHelper {
  import opened Wrappers
  import opened Text
  import opened WmiProvider

  /** The items an enumerator yields before its first `Next` that is not `S_OK`. */
  function Yielded<T>(steps: seq<Fetch<T>>): (r: seq<T>)
    ensures |r| <= |steps|
    ensures forall i :: 0 <= i < |r| ==> steps[i].hr == S_OK && r[i] == steps[i].item
    ensures |r| < |steps| ==> steps[|r|].hr != S_OK
  {
    if steps == [] || steps[0].hr != S_OK then [] else [steps[0].item] + Yielded(steps[1..])
  }

  /** `GetStringProperty(obj, name)`: the string value, or "" when `Get` fails or the value is not a `BSTR`. */
  function GetStringProperty(p: Provider, obj: Handle, name: string): (r: string)
    ensures p.get(obj, name).None? ==> r == ""
    ensures p.get(obj, name).Some? && !p.get(obj, name).value.VString? ==> r == ""
    ensures p.get(obj, name).Some? && p.get(obj, name).value.VString? ==> r == p.get(obj, name).value.s
  {
    match p.get(obj, name)
    case None => ""
    case Some(VString(s)) => s
    case Some(_) => ""
  }

  /** A class whose `__DYNASTY` is `__SystemClass`, compared ignoring case. */
  predicate IsSystemClass(p: Provider, cls: Handle)
  {
    EqualsNoCase(GetStringProperty(p, cls, "__DYNASTY"), "__SystemClass")
  }

  /** The classes `EnumClasses` keeps, in provider order. */
  function KeepClasses(p: Provider, classes: seq<Handle>, includeSystemClasses: bool): seq<Handle>
  {
    if classes == [] then []
    else if !includeSystemClasses && IsSystemClass(p, classes[0]) then KeepClasses(p, classes[1..], includeSystemClasses)
    else [classes[0]] + KeepClasses(p, classes[1..], includeSystemClasses)
  }

  /** `WMIMethod` as filled by `EnumMethods`: the origin class is asked of the provider by method name. */
  function MethodRecord(p: Provider, obj: Handle, m: MethodEntry): WmiMethod
  {
    WmiMethod(m.name, m.inParams, m.outParams, p.methodOrigin(obj, m.name))
  }

  function MethodRecords(p: Provider, obj: Handle, ms: seq<MethodEntry>): (r: seq<WmiMethod>)
    ensures |r| == |ms|
    ensures forall i :: 0 <= i < |ms| ==> r[i] == MethodRecord(p, obj, ms[i])
  {
    seq(|ms|, i requires 0 <= i < |ms| => MethodRecord(p, obj, ms[i]))
  }

  /** The draining loop of every `Enum*`: `while (S_OK == spEnum->Next(...)) v.push_back(obj);`. */
  method Drain<T>(steps: seq<Fetch<T>>) returns (items: seq<T>)
    ensures items == Yielded(steps)
  {
    items := [];
    var i := 0;
    while i < |steps| && steps[i].hr == S_OK
      invariant 0 <= i <= |steps|
      invariant items + Yielded(steps[i..]) == Yielded(steps)
    {
      assert steps[i..][1..] == steps[i + 1..];
      items := items + [steps[i].item];
      i := i + 1;
    }
  }

  /** `EnumNamespaces(svc)`: the `__NAMESPACE` instances, or nothing when the enumerator cannot be created. */
  method EnumNamespaces(p: Provider, svc: Handle) returns (ns: seq<Handle>)
    ensures p.createInstanceEnum(svc, "__NAMESPACE", false).None? ==> ns == []
    ensures p.createInstanceEnum(svc, "__NAMESPACE", false).Some? ==>
              ns == Yielded(p.createInstanceEnum(svc, "__NAMESPACE", false).value)
  {
    var e := p.createInstanceEnum(svc, "__NAMESPACE", false);
    if e.None? {
      return [];
    }
    ns := Drain(e.value);
  }

  /** `EnumClasses(svc, deep, includeSystemClasses)`: the classes in provider order, system classes dropped unless asked for. */
  method EnumClasses(p: Provider, svc: Handle, deep: bool, includeSystemClasses: bool) returns (classes: seq<Handle>)
    ensures p.createClassEnum(svc, deep).None? ==> classes == []
    ensures p.createClassEnum(svc, deep).Some? ==>
              classes == KeepClasses(p, Yielded(p.createClassEnum(svc, deep).value), includeSystemClasses)
  {
    var e := p.createClassEnum(svc, deep);
    if e.None? {
      return [];
    }
    var steps := e.value;
    classes := [];
    var i := 0;
    while i < |steps| && steps[i].hr == S_OK
      invariant 0 <= i <= |steps|
      invariant classes + KeepClasses(p, Yielded(steps[i..]), includeSystemClasses)
                == KeepClasses(p, Yielded(steps), includeSystemClasses)
    {
      YieldedCons(steps, i);
      var obj := steps[i].item;
      assert KeepClasses(p, [obj] + Yielded(steps[i + 1..]), includeSystemClasses)
             == KeepClasses(p, [obj], includeSystemClasses) + KeepClasses(p, Yielded(steps[i + 1..]), includeSystemClasses)
        by { KeepClassesAppend(p, [obj], Yielded(steps[i + 1..]), includeSystemClasses); }
      if !includeSystemClasses {
        var dynasty := GetStringProperty(p, obj, "__DYNASTY");
        if EqualsNoCase(dynasty, "__SystemClass") {
          i := i + 1;
          continue;
        }
      }
      classes := classes + [obj];
      i := i + 1;
    }
  }

  /** `EnumInstances(name, svc, deep)`: the instances of the class, or nothing when the enumerator cannot be created. */
  method EnumInstances(p: Provider, name: string, svc: Handle, deep: bool) returns (instances: seq<Handle>)
    ensures p.createInstanceEnum(svc, name, deep).None? ==> instances == []
    ensures p.createInstanceEnum(svc, name, deep).Some? ==>
              instances == Yielded(p.createInstanceEnum(svc, name, deep).value)
  {
    var e := p.createInstanceEnum(svc, name, deep);
    if e.None? {
      return [];
    }
    instances := Drain(e.value);
  }

  /** `EnumProperties(obj)`: every property the enumeration yields, in order. */
  method EnumProperties(p: Provider, obj: Handle) returns (props: seq<WmiProperty>)
    ensures props == Yielded(p.properties(obj))
  {
    props := Drain(p.properties(obj));
  }

  /** `EnumMethods(obj, localOnly, inheritedOnly)`: each method's name, parameters and origin class, in order. */
  method EnumMethods(p: Provider, obj: Handle, localOnly: bool, inheritedOnly: bool) returns (methods: seq<WmiMethod>)
    ensures methods == MethodRecords(p, obj, Yielded(p.methods(obj, localOnly, inheritedOnly)))
  {
    var steps := p.methods(obj, localOnly, inheritedOnly);
    methods := [];
    var i := 0;
    while i < |steps| && steps[i].hr == S_OK
      invariant 0 <= i <= |steps| && |methods| == i
      invariant forall k :: 0 <= k < i ==> steps[k].hr == S_OK
      invariant forall k :: 0 <= k < i ==> methods[k] == MethodRecord(p, obj, steps[k].item)
    {
      var entry := steps[i].item;
      var origin := p.methodOrigin(obj, entry.name);
      methods := methods + [WmiMethod(entry.name, entry.inParams, entry.outParams, origin)];
      i := i + 1;
    }
    YieldedLength(steps, i);
  }

  // ---------------------------------------------------------------------------
  // Properties of the draining loops

  /** An enumeration whose first `i` steps succeed and whose next one does not (or does not exist) yields `i` items. */
  lemma YieldedLength<T>(steps: seq<Fetch<T>>, i: nat)
    requires i <= |steps|
    requires forall k :: 0 <= k < i ==> steps[k].hr == S_OK
    requires i == |steps| || steps[i].hr != S_OK
    ensures |Yielded(steps)| == i
  {
  }

  lemma YieldedCons<T>(steps: seq<Fetch<T>>, i: nat)
    requires i < |steps| && steps[i].hr == S_OK
    ensures Yielded(steps[i..]) == [steps[i].item] + Yielded(steps[i + 1..])
  {
    assert steps[i..][1..] == steps[i + 1..];
  }

  lemma {:induction false} KeepClassesAppend(p: Provider, xs: seq<Handle>, ys: seq<Handle>, includeSystemClasses: bool)
    ensures KeepClasses(p, xs + ys, includeSystemClasses)
            == KeepClasses(p, xs, includeSystemClasses) + KeepClasses(p, ys, includeSystemClasses)
  {
    if xs == [] {
      assert xs + ys == ys;
    } else {
      assert (xs + ys)[0] == xs[0];
      assert (xs + ys)[1..] == xs[1..] + ys;
      KeepClassesAppend(p, xs[1..], ys, includeSystemClasses);
    }
  }

  /** A class is kept exactly when the provider yielded it and it is not a system class (or system classes are wanted). */
  lemma {:induction false} KeepClassesMembers(p: Provider, classes: seq<Handle>, includeSystemClasses: bool, c: Handle)
    ensures c in KeepClasses(p, classes, includeSystemClasses) <==>
              c in classes && (includeSystemClasses || !IsSystemClass(p, c))
  {
    if classes != [] {
      KeepClassesMembers(p, classes[1..], includeSystemClasses, c);
      assert classes == [classes[0]] + classes[1..];
    }
  }

  /** With system classes wanted, nothing is dropped. */
  lemma {:induction false} KeepAllClasses(p: Provider, classes: seq<Handle>)
    ensures KeepClasses(p, classes, true) == classes
  {
    if classes != [] {
      KeepAllClasses(p, classes[1..]);
    }
  }

  /** Dropping system classes never adds a class, and keeps every class when none of them is a system class. */
  lemma {:induction false} KeepClassesSubsequence(p: Provider, classes: seq<Handle>, includeSystemClasses: bool)
    ensures |KeepClasses(p, classes, includeSystemClasses)| <= |classes|
    ensures (forall i :: 0 <= i < |classes| ==> !IsSystemClass(p, classes[i])) ==>
              KeepClasses(p, classes, includeSystemClasses) == classes
  {
    if classes != [] {
      KeepClassesSubsequence(p, classes[1..], includeSystemClasses);
    }
  }

  // ---------------------------------------------------------------------------
  // CObjectSink

  /**
   * `CObjectSink`: the `IWbemObjectSink` given to `CreateInstanceEnumAsync`. It
   * buffers every indicated object and, on successful completion, takes a
   * reference on itself and posts itself to the window.
   */
  class ObjectSink {
    var window: int
    var message: int
    /** `m_Objects`. */
    var objects: seq<Handle>
    /** References held on the sink (`AddRef` / `Release`). */
    var refs: int
    /** The completion messages posted to `window` so far. */
    var posted: nat

    /** `CComObject<CObjectSink>::CreateInstance`: an empty sink with no reference taken. */
    constructor ()
      ensures objects == [] && refs == 0 && posted == 0
    {
      objects := [];
      refs := 0;
      posted := 0;
    }

    /** `Init(hWnd, msg)`. */
    method Init(hWnd: int, msg: int)
      modifies this
      ensures window == hWnd && message == msg
      ensures objects == old(objects) && refs == old(refs) && posted == old(posted)
    {
      window := hWnd;
      message := msg;
    }

    /** `GetObjectCount()`: the number of objects indicated so far. */
    function GetObjectCount(): (n: int)
      reads this
      ensures n == |objects|
    {
      |objects|
    }

    /** `GetItem(i)`: the i-th object indicated. */
    function GetItem(i: int): (h: Handle)
      reads this
      requires 0 <= i < |objects|
      ensures h == objects[i]
    {
      objects[i]
    }

    /** `Indicate(lObjectCount, apObjArray)`: appends all objects of the batch, in order. */
    method Indicate(batch: seq<Handle>) returns (hr: int)
      modifies this
      ensures hr == S_OK
      ensures objects == old(objects) + batch
      ensures window == old(window) && message == old(message) && refs == old(refs) && posted == old(posted)
    {
      var i := 0;
      while i < |batch|
        invariant 0 <= i <= |batch|
        invariant objects == old(objects) + batch[..i]
        invariant window == old(window) && message == old(message) && refs == old(refs) && posted == old(posted)
      {
        objects := objects + [batch[i]];
        i := i + 1;
      }
      assert batch[..|batch|] == batch;
      hr := S_OK;
    }

    /** `SetStatus(lFlags, hr, ...)`: only a successful completion takes a reference and posts the message. */
    method SetStatus(flags: int, status: int) returns (hr: int)
      modifies this
      ensures hr == S_OK
      ensures objects == old(objects) && window == old(window) && message == old(message)
      ensures status == S_OK && flags == WBEM_STATUS_COMPLETE ==> refs == old(refs) + 1 && posted == old(posted) + 1
      ensures !(status == S_OK && flags == WBEM_STATUS_COMPLETE) ==> refs == old(refs) && posted == old(posted)
    {
      if status == S_OK && flags == WBEM_STATUS_COMPLETE {
        refs := refs + 1;
        posted := posted + 1;
      }
      hr := S_OK;
    }

    /** `IObjectsCallback::Release()`. */
    method Release()
      modifies this
      ensures refs == old(refs) - 1
      ensures objects == old(objects) && window == old(window) && message == old(message) && posted == old(posted)
    {
      refs := refs - 1;
    }
  }

  /** `EnumInstancesAsync(hWnd, msg, name, svc, deep)`: creates a sink and returns false exactly when the request is not issued. */
  method EnumInstancesAsync(p: Provider, hWnd: int, msg: int, name: string, svc: Handle, deep: bool)
    returns (issued: bool, sink: ObjectSink)
    ensures issued == p.createInstanceEnumAsync(svc, name, deep)
    ensures fresh(sink)
    ensures sink.objects == [] && sink.refs == 0 && sink.posted == 0
    ensures sink.window == hWnd && sink.message == msg
  {
    sink := new ObjectSink();
    sink.Init(hWnd, msg);
    issued := p.createInstanceEnumAsync(svc, name, deep);
  }
}
