/**
 * One named entry of the settings store (`struct Setting`): a type tag, a heap
 * buffer of raw bytes and a separately kept `Size`. Its constructors lay out
 * strings as little-endian UTF-16 with a terminating NUL unit, and lists of
 * strings as NUL-separated units closed by one more NUL unit.
 */
module SettingBuffers {
  import opened Bytes
  import opened Wrappers

  /** The registry value kinds; `Bool` is declared with the value of `Int32` (REG_DWORD). */
  datatype SettingType = String | Int32 | Int64 | Binary | MultiString

  const Bool: SettingType := Int32

  datatype Setting = Setting(name: string, kind: SettingType, buffer: seq<byte>, size: nat)

  type WString = seq<wchar>

  /** The two bytes of one UTF-16 unit, low byte first. */
  function UnitBytes(c: wchar): (r: seq<byte>)
    ensures |r| == 2
  {
    [(c as int % 0x100) as byte, (c as int / 0x100) as byte]
  }

  function UnitOf(lo: byte, hi: byte): wchar
  {
    (lo as int + 0x100 * hi as int) as wchar
  }

  /** The bytes `memcpy` copies out of a `std::wstring`'s characters (without the terminator). */
  function WideBytes(s: WString): (r: seq<byte>)
    ensures |r| == 2 * |s|
  {
    if s == [] then [] else UnitBytes(s[0]) + WideBytes(s[1..])
  }

  /** `c_str()` as bytes: the characters and one NUL unit. */
  function Terminated(s: WString): (r: seq<byte>)
    ensures |r| == 2 * (|s| + 1)
  {
    WideBytes(s) + [0, 0]
  }

  predicate NoNul(s: WString)
  {
    forall i :: 0 <= i < |s| ==> s[i] != 0
  }

  /** `Setting(name, const std::wstring&)`: the characters plus a NUL, type left at its default String. */
  function StringSetting(name: string, value: WString): (s: Setting)
    ensures s.name == name && s.kind == String
    ensures s.size == 2 * (|value| + 1) && |s.buffer| == s.size
    ensures s.buffer[s.size - 2..] == [0, 0]
    ensures s.buffer[..2 * |value|] == WideBytes(value)
  {
    Setting(name, String, Terminated(value), 2 * (|value| + 1))
  }

  /** `Setting(name, const T&, type)`: the object representation of the value, `sizeof(T)` bytes. */
  function ValueSetting(name: string, value: seq<byte>, kind: SettingType): (s: Setting)
    ensures s.name == name && s.kind == kind
    ensures s.buffer == value && s.size == |value|
  {
    Setting(name, kind, value, |value|)
  }

  /** `Setting(name, const void*, int size, type = Binary)`: the first `size` bytes at `value`. */
  function BinarySetting(name: string, value: seq<byte>, size: nat, kind: SettingType := Binary): (s: Setting)
    requires size <= |value|
    ensures s.name == name && s.kind == kind
    ensures s.size == size && |s.buffer| == size
    ensures forall i :: 0 <= i < size ==> s.buffer[i] == value[i]
  {
    Setting(name, kind, value[..size], size)
  }

  /** `Setting::Set<T>(value)`: a fresh buffer of `sizeof(T)` bytes; `Size` is NOT updated. */
  function SetValue(s: Setting, value: seq<byte>): (r: Setting)
    ensures r.buffer == value
    ensures r.name == s.name && r.kind == s.kind && r.size == s.size
  {
    s.(buffer := value)
  }

  /** `Setting::Set(const void*, int size)`: a fresh buffer of `size` bytes, and `Size` follows. */
  function SetBytes(s: Setting, value: seq<byte>, size: nat): (r: Setting)
    requires size <= |value|
    ensures r.size == size && |r.buffer| == size
    ensures forall i :: 0 <= i < size ==> r.buffer[i] == value[i]
    ensures r.name == s.name && r.kind == s.kind
  {
    s.(buffer := value[..size], size := size)
  }

  // ---------------------------------------------------------------------------
  // REG_MULTI_SZ layout

  /** The bytes written for a list of strings before the closing NUL unit. */
  function EncodeItems(values: seq<WString>): (r: seq<byte>)
  {
    if values == [] then [] else Terminated(values[0]) + EncodeItems(values[1..])
  }

  /** The whole multi-string buffer: every string NUL-terminated, then one extra NUL unit. */
  function EncodeMulti(values: seq<WString>): (r: seq<byte>)
    ensures |r| >= 2 && r[|r| - 2..] == [0, 0]
  {
    EncodeItems(values) + [0, 0]
  }

  /** Total length in UTF-16 units of the strings and their terminators. */
  function UnitCount(values: seq<WString>): nat
  {
    if values == [] then 0 else |values[0]| + 1 + UnitCount(values[1..])
  }

  lemma {:induction false} EncodeItemsLength(values: seq<WString>)
    ensures |EncodeItems(values)| == 2 * UnitCount(values)
  {
    if values != [] {
      EncodeItemsLength(values[1..]);
    }
  }

  /** The multi-string buffer holds `2 * (1 + sum(len_i + 1))` bytes. */
  lemma MultiStringSize(values: seq<WString>)
    ensures |EncodeMulti(values)| == 2 * (1 + UnitCount(values))
  {
    EncodeItemsLength(values);
  }

  lemma {:induction false} EncodeItemsAppend(values: seq<WString>, s: WString)
    ensures EncodeItems(values + [s]) == EncodeItems(values) + Terminated(s)
  {
    if values == [] {
      assert values + [s] == [s];
    } else {
      assert (values + [s])[1..] == values[1..] + [s];
      EncodeItemsAppend(values[1..], s);
    }
  }

  lemma {:induction false} UnitCountAppend(values: seq<WString>, s: WString)
    ensures UnitCount(values + [s]) == UnitCount(values) + |s| + 1
  {
    if values == [] {
      assert values + [s] == [s];
    } else {
      assert (values + [s])[1..] == values[1..] + [s];
      UnitCountAppend(values[1..], s);
    }
  }

  /**
   * `Setting(name, const std::vector<std::wstring>&)`: sizes the buffer, then
   * copies each string with its terminator through a moving pointer and writes
   * the final NUL unit.
   */
  method NewMultiStringSetting(name: string, values: seq<WString>) returns (s: Setting)
    ensures s.name == name && s.kind == MultiString
    ensures s.buffer == EncodeMulti(values) && s.size == |s.buffer|
  {
    var size := 2;
    var i := 0;
    while i < |values|
      invariant 0 <= i <= |values|
      invariant size == 2 * (1 + UnitCount(values[..i]))
    {
      assert values[..i + 1] == values[..i] + [values[i]];
      UnitCountAppend(values[..i], values[i]);
      size := size + 2 * (1 + |values[i]|);
      i := i + 1;
    }
    assert values[..|values|] == values;
    MultiStringSize(values);
    var buf := new byte[size];
    var p := 0;
    i := 0;
    while i < |values|
      invariant 0 <= i <= |values|
      invariant p == |EncodeItems(values[..i])| && p + 2 <= size
      invariant buf[..p] == EncodeItems(values[..i])
    {
      var bytes := Terminated(values[i]);
      assert values[..i + 1] == values[..i] + [values[i]];
      EncodeItemsAppend(values[..i], values[i]);
      EncodeItemsLength(values[..i + 1]);
      UnitCountPrefix(values, i + 1);
      CopyAt(buf, p, bytes);
      p := p + |bytes|;
      i := i + 1;
    }
    buf[p] := 0;
    buf[p + 1] := 0;
    assert buf[..] == buf[..p] + [0, 0];
    s := Setting(name, MultiString, buf[..], size);
  }

  /** `memcpy(p, src, count)` into `buf` at offset `p`. */
  method CopyAt(buf: array<byte>, p: nat, bytes: seq<byte>)
    requires p + |bytes| <= buf.Length
    modifies buf
    ensures buf[..p + |bytes|] == old(buf[..p]) + bytes
  {
    var j := 0;
    while j < |bytes|
      invariant 0 <= j <= |bytes|
      invariant buf[..p] == old(buf[..p])
      invariant buf[p..p + j] == bytes[..j]
    {
      buf[p + j] := bytes[j];
      j := j + 1;
    }
    assert buf[..p + |bytes|] == buf[..p] + buf[p..p + |bytes|];
  }

  lemma {:induction false} UnitCountPrefix(values: seq<WString>, k: nat)
    requires k <= |values|
    ensures UnitCount(values[..k]) <= UnitCount(values)
  {
    if k > 0 {
      UnitCountPrefix(values[1..], k - 1);
      assert values[..k][1..] == values[1..][..k - 1];
    }
  }

  // ---------------------------------------------------------------------------
  // Reading a REG_MULTI_SZ buffer back

  lemma UnitRoundTrip(c: wchar)
    ensures UnitOf(UnitBytes(c)[0], UnitBytes(c)[1]) == c
  {
  }

  /**
   * The string that starts at the front of `buf`: its UTF-16 units up to the
   * first NUL unit (what `std::wstring((PCWSTR)p)` and `wcslen` read), or None
   * when the buffer ends before a NUL unit.
   */
  function WideStringAt(buf: seq<byte>): (r: Option<WString>)
    ensures r.Some? ==> NoNul(r.value) && 2 * (|r.value| + 1) <= |buf|
    ensures r.Some? ==> buf[..2 * (|r.value| + 1)] == Terminated(r.value)
  {
    if |buf| < 2 then None
    else if UnitOf(buf[0], buf[1]) == 0 then Some([])
    else
      match WideStringAt(buf[2..])
      case None => None
      case Some(rest) => Some([UnitOf(buf[0], buf[1])] + rest)
  }

  /**
   * `Settings::GetMultiString` as written: the loop goes on while the byte at the
   * cursor is non-zero, which is only the low byte of the next UTF-16 unit. A buffer
   * that ends without a terminator stops the walk (the source would read past it).
   */
  function DecodeMulti(buf: seq<byte>): (r: seq<WString>)
    ensures forall i :: 0 <= i < |r| ==> r[i] != [] && NoNul(r[i])
    decreases |buf|
  {
    if |buf| == 0 || buf[0] == 0 then []
    else
      match WideStringAt(buf)
      case None => []
      case Some(s) => [s] + DecodeMulti(buf[2 * (|s| + 1)..])
  }

  /** The decoder with the end test on the whole UTF-16 unit, as the layout intends. */
  function DecodeMultiByUnit(buf: seq<byte>): seq<WString>
    decreases |buf|
  {
    if |buf| < 2 || UnitOf(buf[0], buf[1]) == 0 then []
    else
      match WideStringAt(buf)
      case None => []
      case Some(s) => [s] + DecodeMultiByUnit(buf[2 * (|s| + 1)..])
  }

  /** The strings before the first empty one. */
  function UntilEmpty(values: seq<WString>): (r: seq<WString>)
  {
    if values == [] || values[0] == [] then [] else [values[0]] + UntilEmpty(values[1..])
  }

  /** The strings before the first one that is empty or whose first unit has a zero low byte. */
  function UntilLowByteZero(values: seq<WString>): (r: seq<WString>)
  {
    if values == [] || values[0] == [] || values[0][0] as int % 0x100 == 0 then []
    else [values[0]] + UntilLowByteZero(values[1..])
  }

  predicate AllNoNul(values: seq<WString>)
  {
    forall i :: 0 <= i < |values| ==> NoNul(values[i])
  }

  lemma {:induction false} WideStringOfTerminated(s: WString, rest: seq<byte>)
    requires NoNul(s)
    ensures WideStringAt(Terminated(s) + rest) == Some(s)
  {
    var buf := Terminated(s) + rest;
    if s != [] {
      UnitRoundTrip(s[0]);
      assert buf[..2] == UnitBytes(s[0]);
      assert buf[2..] == Terminated(s[1..]) + rest;
      WideStringOfTerminated(s[1..], rest);
      assert [s[0]] + s[1..] == s;
    }
  }

  lemma EncodeMultiCons(values: seq<WString>)
    requires values != []
    ensures EncodeMulti(values) == Terminated(values[0]) + EncodeMulti(values[1..])
  {
  }

  /** Decoding by whole units gives back every string up to the first empty one. */
  lemma {:induction false} DecodeByUnitRoundTrip(values: seq<WString>)
    requires AllNoNul(values)
    ensures DecodeMultiByUnit(EncodeMulti(values)) == UntilEmpty(values)
  {
    var buf := EncodeMulti(values);
    if values != [] {
      EncodeMultiCons(values);
      var s := values[0];
      if s != [] {
        UnitRoundTrip(s[0]);
        assert buf[..2] == UnitBytes(s[0]);
        WideStringOfTerminated(s, EncodeMulti(values[1..]));
        assert buf[2 * (|s| + 1)..] == EncodeMulti(values[1..]);
        DecodeByUnitRoundTrip(values[1..]);
      }
    }
  }

  /** The decoder as written gives back every string up to the first empty one or the first whose leading unit has a zero low byte. */
  lemma {:induction false} DecodeRoundTrip(values: seq<WString>)
    requires AllNoNul(values)
    ensures DecodeMulti(EncodeMulti(values)) == UntilLowByteZero(values)
  {
    var buf := EncodeMulti(values);
    if values != [] {
      EncodeMultiCons(values);
      var s := values[0];
      if s != [] {
        assert buf[0] == UnitBytes(s[0])[0];
        if s[0] as int % 0x100 != 0 {
          WideStringOfTerminated(s, EncodeMulti(values[1..]));
          assert buf[2 * (|s| + 1)..] == EncodeMulti(values[1..]);
          DecodeRoundTrip(values[1..]);
        }
      }
    }
  }

  lemma {:induction false} UntilEmptyAllNonEmpty(values: seq<WString>)
    requires forall i :: 0 <= i < |values| ==> values[i] != []
    ensures UntilEmpty(values) == values
  {
    if values != [] {
      UntilEmptyAllNonEmpty(values[1..]);
    }
  }

  /** With every string non-empty the whole-unit decoder inverts the encoder. */
  lemma MultiStringRoundTrip(values: seq<WString>)
    requires AllNoNul(values)
    requires forall i :: 0 <= i < |values| ==> values[i] != []
    ensures DecodeMultiByUnit(EncodeMulti(values)) == values
  {
    DecodeByUnitRoundTrip(values);
    UntilEmptyAllNonEmpty(values);
  }

  /**
   * The list holding the single string "\u0100" (one unit, low byte zero) is lost by
   * the decoder as written, and recovered by the whole-unit decoder.
   */
  lemma LowByteCounterexample()
    ensures DecodeMulti(EncodeMulti([[0x100 as wchar]])) == []
    ensures DecodeMultiByUnit(EncodeMulti([[0x100 as wchar]])) == [[0x100 as wchar]]
  {
    var values: seq<WString> := [[0x100 as wchar]];
    DecodeRoundTrip(values);
    MultiStringRoundTrip(values);
  }
}
