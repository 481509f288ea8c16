/**
 * The WMI provider the explorer talks to, reduced to what its callers can
 * observe. Every COM object (`IWbemServices`, `IWbemClassObject`) is an opaque
 * handle; every call is a total function of its arguments; an enumerator is the
 * sequence of results its `Next` calls return, one per call.
 */
module WmiProvider {
  import opened Wrappers
  import opened Bytes

  /** An `IWbemServices*` or `IWbemClassObject*`. */
  type Handle = nat

  const S_OK: int := 0
  /** `WBEM_S_FALSE`: what `Next` returns once an enumerator is exhausted. */
  const WBEM_S_FALSE: int := 1
  /** `WBEM_STATUS_COMPLETE`, the `lFlags` of the final `SetStatus` call. */
  const WBEM_STATUS_COMPLETE: int := 0

  /**
   * The element storage of a `SAFEARRAY`: `BSTR`s, `VT_UI1` bytes, or any other
   * element type (such as the `VT_I2` WMI uses for `CIM_SINT8` values).
   */
  datatype SafeArray = StringElements(strings: seq<string>) | ByteElements(bytes: seq<byte>) | OtherElements

  /** A `VARIANT` as the explorer inspects it. `VArray(None)` is an array variant with a null `parray`. */
  datatype Variant =
    | VNull
    | VBool(b: bool)
    | VString(s: string)
    | VArray(elements: Option<SafeArray>)
    | VOther(vt: int)

  /** One call of an enumerator's `Next`: its HRESULT and, when that is `S_OK`, the item it produced. */
  datatype Fetch<T> = Fetch(hr: int, item: T)

  /** `struct WMIProperty`. */
  datatype WmiProperty = WmiProperty(name: string, value: Variant, cimType: int, flavor: int)

  /** What one `NextMethod` call returns: the name and the two parameter objects. */
  datatype MethodEntry = MethodEntry(name: string, inParams: Option<Handle>, outParams: Option<Handle>)

  /** `struct WMIMethod`. */
  datatype WmiMethod = WmiMethod(name: string, inParams: Option<Handle>, outParams: Option<Handle>, className: string)

  datatype Provider = Provider(
    /** `IWbemServices::CreateInstanceEnum(class, deep?)`: None when it fails. */
    createInstanceEnum: (Handle, string, bool) -> Option<seq<Fetch<Handle>>>,
    /** `IWbemServices::CreateClassEnum(nullptr, deep?)`: None when it fails. */
    createClassEnum: (Handle, bool) -> Option<seq<Fetch<Handle>>>,
    /** `IWbemServices::CreateInstanceEnumAsync(class, deep?, sink)`: whether the request was issued. */
    createInstanceEnumAsync: (Handle, string, bool) -> bool,
    /** `IWbemServices::OpenNamespace(path)`: None when it fails. */
    openNamespace: (Handle, string) -> Option<Handle>,
    /** `IWbemServices::GetObject(path)`: None when it fails. */
    getObject: (Handle, string) -> Option<Handle>,
    /** `IWbemClassObject::Get(name)`: None when it fails. */
    get: (Handle, string) -> Option<Variant>,
    /** `BeginEnumeration` then `Next` over an object's properties. */
    properties: Handle -> seq<Fetch<WmiProperty>>,
    /** `BeginMethodEnumeration(localOnly?, propagatedOnly?)` then `NextMethod`. */
    methods: (Handle, bool, bool) -> seq<Fetch<MethodEntry>>,
    /** `IWbemClassObject::GetMethodOrigin(name)`. */
    methodOrigin: (Handle, string) -> string,
    /** `IWbemClassObject::GetObjectText(0)`. */
    objectText: Handle -> string
  )
}
