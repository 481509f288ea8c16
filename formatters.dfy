/**
 * The text and icon the explorer's list shows for one `WmiItem`:
 * `NodeTypeToText`, `CimTypeToString`, `GetArrayValue`, `GetObjectValue`,
 * `GetObjectDetails`, `GetRowImage` and the column dispatch of `GetColumnText`.
 */
module Formatters {
  import opened Wrappers
  import opened Bytes
  import opened Text
  import opened WmiProvider

  /** `CMainFrame::NodeType` (Computer = 0 ... Instance = 5, HasChildren = 0x80). */
  datatype NodeType = Computer | Namespace | Class | Property | Method | Instance | HasChildren

  /** `CMainFrame::WmiItem`. A `CimType` the source leaves uninitialised is 0 here. */
  datatype WmiItem = WmiItem(name: string, obj: Option<Handle>, obj2: Option<Handle>, cimType: int, kind: NodeType, value: Variant)

  /** `CMainFrame::ColumnType`. */
  datatype ColumnType = NameColumn | ValueColumn | TypeColumn | SizeColumn | CimTypeColumn | DetailsColumn

  // CIMTYPE values of the Windows SDK.
  const CIM_EMPTY := 0
  const CIM_SINT16 := 2
  const CIM_SINT32 := 3
  const CIM_REAL32 := 4
  const CIM_REAL64 := 5
  const CIM_STRING := 8
  const CIM_BOOLEAN := 11
  const CIM_OBJECT := 13
  const CIM_SINT8 := 16
  const CIM_UINT8 := 17
  const CIM_UINT16 := 18
  const CIM_UINT32 := 19
  const CIM_SINT64 := 20
  const CIM_UINT64 := 21
  const CIM_DATETIME := 101
  const CIM_REFERENCE := 102
  const CIM_CHAR16 := 103
  const CIM_FLAG_ARRAY := 0x2000

  /** `type & 0xff` (on a two's-complement `long`, the remainder modulo 256). */
  function BaseType(t: int): (b: int)
    ensures 0 <= b < 0x100
  {
    t % 0x100
  }

  /** `type & CIM_FLAG_ARRAY` is non-zero. */
  predicate IsArray(t: int)
  {
    (t / CIM_FLAG_ARRAY) % 2 == 1
  }

  /** `NodeTypeToText`. */
  function NodeTypeToText(kind: NodeType): (r: string)
    ensures r == "" <==> kind == Computer || kind == HasChildren
  {
    match kind
    case Class => "Class"
    case Namespace => "Namespace"
    case Method => "Method"
    case Property => "Property"
    case Instance => "Object"
    case _ => ""
  }

  /** Computer and the placeholder kind have no text; every other kind has its own. */
  lemma NodeTypeTextDistinct(a: NodeType, b: NodeType)
    ensures NodeTypeToText(a) == "" <==> a == Computer || a == HasChildren
    ensures NodeTypeToText(a) == NodeTypeToText(b) && NodeTypeToText(a) != "" ==> a == b
  {
  }

  /** The name `CimTypeToString`'s switch chooses for a base type; "" for any other value. */
  function CimBaseName(base: int): (r: string)
    ensures r != "" <==> KnownBase(base)
    ensures !EndsWith(r, ArraySuffix)
  {
    if base == CIM_EMPTY then "Empty"
    else if base == CIM_SINT8 then "Signed Byte (8 bit)"
    else if base == CIM_UINT8 then "Byte (8 bit)"
    else if base == CIM_SINT16 then "Signed Word (16 bit)"
    else if base == CIM_UINT16 then "Word (16 bit)"
    else if base == CIM_SINT32 then "Signed Int (32 bit)"
    else if base == CIM_UINT32 then "Int (32 bit)"
    else if base == CIM_SINT64 then "Signed QWord (64 bit)"
    else if base == CIM_UINT64 then "QWord (64 bit)"
    else if base == CIM_REAL32 then "Real (32 bit)"
    else if base == CIM_REAL64 then "Real (64 bit)"
    else if base == CIM_BOOLEAN then "Boolean"
    else if base == CIM_STRING then "String"
    else if base == CIM_DATETIME then "Date Time"
    else if base == CIM_REFERENCE then "Reference"
    else if base == CIM_CHAR16 then "Character"
    else if base == CIM_OBJECT then "Object"
    else ""
  }

  /** The base types `CimTypeToString` names. */
  predicate KnownBase(base: int)
  {
    base in {CIM_EMPTY, CIM_SINT8, CIM_UINT8, CIM_SINT16, CIM_UINT16, CIM_SINT32, CIM_UINT32, CIM_SINT64,
             CIM_UINT64, CIM_REAL32, CIM_REAL64, CIM_BOOLEAN, CIM_STRING, CIM_DATETIME, CIM_REFERENCE,
             CIM_CHAR16, CIM_OBJECT}
  }

  const ArraySuffix := " [Array]"

  /** `CimTypeToString`: the base type's name, followed by " [Array]" when the array flag is set. */
  function CimTypeToString(t: int): (r: string)
    ensures EndsWith(r, ArraySuffix) <==> IsArray(t)
  {
    var name := CimBaseName(BaseType(t));
    if IsArray(t) then
      assert (name + ArraySuffix)[|name|..] == ArraySuffix;
      name + ArraySuffix
    else name
  }

  predicate EndsWith(s: string, suffix: string)
  {
    |suffix| <= |s| && s[|s| - |suffix|..] == suffix
  }

  /** An unknown base type has no name; a known one has a non-empty name. */
  lemma CimTypeUnknownIsEmpty(t: int)
    ensures KnownBase(BaseType(t)) <==> CimBaseName(BaseType(t)) != ""
    ensures !KnownBase(BaseType(t)) && !IsArray(t) ==> CimTypeToString(t) == ""
  {
  }

  /** Only the low eight bits and the array flag matter. */
  lemma CimTypeDependsOnBaseAndFlag(t1: int, t2: int)
    requires BaseType(t1) == BaseType(t2) && IsArray(t1) == IsArray(t2)
    ensures CimTypeToString(t1) == CimTypeToString(t2)
  {
  }

  // ---------------------------------------------------------------------------
  // GetArrayValue

  /** The strings separated by ", ", with no separator after the last. */
  function JoinComma(strings: seq<string>): string
  {
    if strings == [] then ""
    else if |strings| == 1 then strings[0]
    else strings[0] + ", " + JoinComma(strings[1..])
  }

  /** What the loop builds before trimming: every string followed by ", ". */
  function EachWithComma(strings: seq<string>): (r: string)
    ensures |r| >= 2 * |strings|
  {
    if strings == [] then "" else strings[0] + ", " + EachWithComma(strings[1..])
  }

  lemma {:induction false} EachWithCommaSnoc(strings: seq<string>, s: string)
    ensures EachWithComma(strings + [s]) == EachWithComma(strings) + s + ", "
  {
    if strings == [] {
      assert strings + [s] == [s];
    } else {
      assert (strings + [s])[1..] == strings[1..] + [s];
      EachWithCommaSnoc(strings[1..], s);
    }
  }

  /** Dropping the last two characters of the built text gives the joined text. */
  lemma {:induction false} EachWithCommaIsJoin(strings: seq<string>)
    requires strings != []
    ensures EachWithComma(strings) == JoinComma(strings) + ", "
  {
    if |strings| > 1 {
      EachWithCommaIsJoin(strings[1..]);
    }
  }

  function HexDigit(n: int): char
    requires 0 <= n < 16
  {
    if n < 10 then ('0' as int + n) as char else ('A' as int + n - 10) as char
  }

  /** A digit of `%X`: `0`-`9` or an upper-case `A`-`F`. */
  predicate IsUpperHex(c: char)
  {
    '0' <= c <= '9' || 'A' <= c <= 'F'
  }

  function HexValue(c: char): int
  {
    if '0' <= c <= '9' then c as int - '0' as int
    else if 'A' <= c <= 'F' then c as int - 'A' as int + 10
    else 0
  }

  /** `Format(L"%02X ", b)`: two upper-case hex digits and a space. */
  function HexByte(b: byte): (r: string)
    ensures |r| == 3 && IsUpperHex(r[0]) && IsUpperHex(r[1]) && r[2] == ' '
  {
    [HexDigit(b as int / 16), HexDigit(b as int % 16), ' ']
  }

  function HexDump(bytes: seq<byte>): (r: string)
    ensures |r| == 3 * |bytes|
  {
    if bytes == [] then "" else HexByte(bytes[0]) + HexDump(bytes[1..])
  }

  /** Reads a hex dump back, three characters per byte. */
  function ParseHexDump(s: string): seq<byte>
  {
    if |s| < 3 then []
    else
      var v := HexValue(s[0]) * 16 + HexValue(s[1]);
      [(if 0 <= v < 0x100 then v else 0) as byte] + ParseHexDump(s[3..])
  }

  lemma HexByteRoundTrip(b: byte)
    ensures HexValue(HexByte(b)[0]) * 16 + HexValue(HexByte(b)[1]) == b as int
  {
  }

  /** The hex dump can be read back: it loses no byte and mixes up none. */
  lemma {:induction false} HexDumpRoundTrip(bytes: seq<byte>)
    ensures ParseHexDump(HexDump(bytes)) == bytes
  {
    if bytes != [] {
      HexByteRoundTrip(bytes[0]);
      assert HexDump(bytes)[3..] == HexDump(bytes[1..]);
      HexDumpRoundTrip(bytes[1..]);
    }
  }

  /** Every byte shows as two upper-case hex digits followed by a space. */
  lemma {:induction false} HexDumpShape(bytes: seq<byte>)
    ensures forall i :: 0 <= i < |HexDump(bytes)| ==>
              if i % 3 == 2 then HexDump(bytes)[i] == ' ' else IsUpperHex(HexDump(bytes)[i])
  {
    if bytes != [] {
      HexDumpShape(bytes[1..]);
      var head, rest := HexByte(bytes[0]), HexDump(bytes[1..]);
      assert HexDump(bytes) == head + rest;
      forall i | 3 <= i < |HexDump(bytes)|
        ensures HexDump(bytes)[i] == rest[i - 3] && (i - 3) % 3 == i % 3
      {
      }
    }
  }

  lemma {:induction false} HexDumpSnoc(bytes: seq<byte>, b: byte)
    ensures HexDump(bytes + [b]) == HexDump(bytes) + HexByte(b)
  {
    if bytes == [] {
      assert bytes + [b] == [b];
    } else {
      assert (bytes + [b])[1..] == bytes[1..] + [b];
      HexDumpSnoc(bytes[1..], b);
    }
  }

  /** At most this many bytes of a byte array are shown. */
  const MaxBytesShown := 64

  function Min(a: int, b: int): int
  {
    if a < b then a else b
  }

  /**
   * Whether the `CComSafeArray<T>` the switch builds accepts the array: ATL's
   * `CComSafeArray` checks the element type when it copies the array, so a
   * string array must hold `BSTR`s and a `CIM_SINT8` or `CIM_UINT8` array
   * must hold `VT_UI1` bytes. WMI stores `CIM_SINT8` values as `VT_I2`, which
   * is `OtherElements` here. Other base types build no `CComSafeArray`.
   */
  predicate ElementsAccepted(arr: SafeArray, t: int)
  {
    && (BaseType(t) == CIM_STRING ==> arr.StringElements?)
    && (BaseType(t) == CIM_SINT8 || BaseType(t) == CIM_UINT8 ==> arr.ByteElements?)
  }

  /**
   * The text `GetArrayValue` builds, by element type. None when the
   * `CComSafeArray` constructor rejects the array and throws `E_INVALIDARG`,
   * so that no text is returned.
   */
  function ArrayText(arr: SafeArray, t: int): (r: Option<string>)
    ensures r.None? <==> !ElementsAccepted(arr, t)
    ensures r.Some? && BaseType(t) != CIM_STRING && BaseType(t) != CIM_SINT8 && BaseType(t) != CIM_UINT8 ==>
              r.value == ""
  {
    if !ElementsAccepted(arr, t) then None
    else if BaseType(t) == CIM_STRING then Some(JoinComma(arr.strings))
    else if BaseType(t) == CIM_SINT8 || BaseType(t) == CIM_UINT8 then
      Some(HexDump(arr.bytes[..Min(|arr.bytes|, MaxBytesShown)]))
    else Some("")
  }

  /**
   * `GetArrayValue(value, type)`. None stands for the exception the
   * `CComSafeArray` constructor throws on an array of another element type.
   */
  method GetArrayValue(arr: SafeArray, t: int) returns (text: Option<string>)
    ensures text.None? <==> !ElementsAccepted(arr, t)
    ensures BaseType(t) == CIM_STRING && arr.StringElements? ==> text == Some(JoinComma(arr.strings))
    ensures (BaseType(t) == CIM_SINT8 || BaseType(t) == CIM_UINT8) && arr.ByteElements? ==>
              text.Some? &&
              |text.value| == 3 * Min(|arr.bytes|, MaxBytesShown) &&
              ParseHexDump(text.value) == arr.bytes[..Min(|arr.bytes|, MaxBytesShown)]
    ensures text == ArrayText(arr, t)
  {
    var base := BaseType(t);
    if base == CIM_STRING {
      if !arr.StringElements? {
        return None;
      }
      var strings := arr.strings;
      var s := "";
      var i := 0;
      while i < |strings|
        invariant 0 <= i <= |strings|
        invariant s == EachWithComma(strings[..i])
      {
        assert strings[..i + 1] == strings[..i] + [strings[i]];
        EachWithCommaSnoc(strings[..i], strings[i]);
        s := s + strings[i] + ", ";
        i := i + 1;
      }
      assert strings[..|strings|] == strings;
      if s != "" {
        EachWithCommaIsJoin(strings);
        s := s[..|s| - 2];
      }
      text := Some(s);
    } else if base == CIM_SINT8 || base == CIM_UINT8 {
      if !arr.ByteElements? {
        return None;
      }
      var data := arr.bytes;
      var count := Min(|data|, MaxBytesShown);
      var s := "";
      var i := 0;
      while i < count
        invariant 0 <= i <= count
        invariant s == HexDump(data[..i])
      {
        assert data[..i + 1] == data[..i] + [data[i]];
        HexDumpSnoc(data[..i], data[i]);
        s := s + HexByte(data[i]);
        i := i + 1;
      }
      HexDumpRoundTrip(data[..count]);
      text := Some(s);
    } else {
      text := Some("");
    }
  }

  // ---------------------------------------------------------------------------
  // GetObjectValue, GetObjectDetails, GetRowImage, GetColumnText

  /** The array branch of `GetObjectValue`: a property typed as an array whose variant holds a non-null `parray`. */
  predicate TakesArrayBranch(item: WmiItem)
  {
    item.kind == Property && IsArray(item.cimType) && item.value.VArray? && item.value.elements.Some?
  }

  /**
   * `GetObjectValue(item)`. `changeType` stands for `VARIANT::ChangeType(VT_BSTR)`
   * on the values the function does not format itself (numbers, dates and so on).
   * None stands for the exception `GetArrayValue` lets escape.
   */
  function GetObjectValue(item: WmiItem, changeType: Variant -> Option<string>): (r: Option<string>)
    ensures r.None? <==> TakesArrayBranch(item) && !ElementsAccepted(item.value.elements.value, item.cimType)
    ensures item.kind != Property ==> r == Some("")
    ensures item.kind == Property && item.value.VNull? ==> r == Some("")
    ensures TakesArrayBranch(item) ==> r == ArrayText(item.value.elements.value, item.cimType)
    ensures item.kind == Property && item.value.VBool? ==> r == Some(if item.value.b then "True" else "False")
    ensures item.kind == Property && item.value.VString? ==> r == Some(item.value.s)
  {
    if item.kind != Property then Some("")
    else
      match item.value
      case VNull => Some("")
      case VArray(Some(arr)) =>
        if IsArray(item.cimType) then ArrayText(arr, item.cimType) else Some(changeType(item.value).GetOr(""))
      case VBool(b) => Some(if b then "True" else "False")
      case VString(s) => Some(s)
      case _ => Some(changeType(item.value).GetOr(""))
  }

  /** A `sint8[]` property as WMI delivers it (`VT_I2` elements) makes the value column throw instead of showing text. */
  lemma Sint8ArrayRejected(item: WmiItem, changeType: Variant -> Option<string>)
    requires item.kind == Property && BaseType(item.cimType) == CIM_SINT8 && IsArray(item.cimType)
    requires item.value == VArray(Some(OtherElements))
    ensures GetObjectValue(item, changeType).None?
  {
  }

  /** `GetObjectDetails(item)`: a method names the class it comes from; nothing else has details. */
  function GetObjectDetails(item: WmiItem): (r: string)
    requires item.kind == Method ==> item.value.VString?
    ensures item.kind == Method ==> r == "Class: " + item.value.s
    ensures item.kind != Method ==> r == ""
  {
    if item.kind == Method then "Class: " + item.value.s else ""
  }

  /** `GetRowImage(row)`: the image-list index of the row's icon, -1 for kinds the list never shows. */
  function GetRowImage(item: WmiItem): (r: int)
    ensures r == -1 <==> item.kind == Computer || item.kind == HasChildren
    ensures item.kind == Property ==> (r == 4 <==> LeftEquals(item.name, "__"))
    ensures item.kind == Property ==> r == 2 || r == 4
  {
    match item.kind
    case Namespace => 0
    case Class => 1
    case Instance => 5
    case Property => if LeftEquals(item.name, "__") then 4 else 2
    case Method => 3
    case _ => -1
  }

  /** Two items of different listed kinds get different icons, except system and ordinary properties. */
  lemma RowImagesDistinct(a: WmiItem, b: WmiItem)
    requires a.kind != b.kind
    requires GetRowImage(a) != -1
    ensures GetRowImage(a) != GetRowImage(b)
  {
  }

  /** `GetColumnText(m_List, row, col)`. */
  function GetColumnText(item: WmiItem, column: ColumnType, changeType: Variant -> Option<string>): (r: Option<string>)
    requires item.kind == Method ==> item.value.VString?
    ensures r.None? <==> column == ValueColumn && GetObjectValue(item, changeType).None?
    ensures column == NameColumn ==> r == Some(item.name)
    ensures column == TypeColumn ==> r == Some(NodeTypeToText(item.kind))
    ensures column == CimTypeColumn ==> r == Some(if item.kind == Property then CimTypeToString(item.cimType) else "")
    ensures column == ValueColumn ==> r == GetObjectValue(item, changeType)
    ensures column == DetailsColumn ==> r == Some(GetObjectDetails(item))
    ensures column == SizeColumn ==> r == Some("")
  {
    match column
    case NameColumn => Some(item.name)
    case TypeColumn => Some(NodeTypeToText(item.kind))
    case CimTypeColumn => Some(if item.kind == Property then CimTypeToString(item.cimType) else "")
    case ValueColumn => GetObjectValue(item, changeType)
    case DetailsColumn => Some(GetObjectDetails(item))
    case SizeColumn => Some("")
  }
}
