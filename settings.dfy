/**
 * `class Settings`: the map from setting name to `Setting`, ordered by the
 * case-insensitive `LessNoCase`. Two names that are equal ignoring case are the
 * same key of that map, so the model keys the map by the folded name and keeps
 * the name as first inserted inside the entry.
 */
module SettingsStore {
  import opened Wrappers
  import opened Bytes
  import opened Text
  import opened SettingBuffers

  /** Every entry sits under the folded form of its own name. */
  ghost predicate WellKeyed(entries: map<string, Setting>)
  {
    forall k :: k in entries ==> FoldCase(entries[k].name) == k
  }

  /** `Settings::Set<T>(name, value, type)`: update the buffer of the entry found, or insert a new one. */
  function Put(entries: map<string, Setting>, name: string, value: seq<byte>, kind: SettingType): map<string, Setting>
  {
    var key := FoldCase(name);
    if key in entries then entries[key := SetValue(entries[key], value)]
    else entries[key := ValueSetting(name, value, kind)]
  }

  class Settings {
    /** `m_settings`, keyed by `FoldCase` of the name. */
    var entries: map<string, Setting>

    ghost predicate Valid()
      reads this
    {
      WellKeyed(entries)
    }

    /** `Settings() = default`: no entries. */
    constructor ()
      ensures Valid() && entries == map[]
    {
      entries := map[];
    }

    /** `m_settings.insert({ name, setting })`: a name already present (ignoring case) keeps its entry. */
    method Insert(s: Setting)
      requires Valid()
      modifies this
      ensures Valid()
      ensures entries == if FoldCase(s.name) in old(entries) then old(entries) else old(entries)[FoldCase(s.name) := s]
    {
      var key := FoldCase(s.name);
      if key !in entries {
        FoldCaseIdempotent(s.name);
        entries := entries[key := s];
      }
    }

    /** `m_settings.find(name)`. */
    function Find(name: string): (r: Option<Setting>)
      reads this
      ensures r.Some? <==> FoldCase(name) in entries
      ensures r.Some? ==> r.value == entries[FoldCase(name)]
      ensures Valid() && r.Some? ==> EqualsNoCase(r.value.name, name)
    {
      var key := FoldCase(name);
      if key in entries then Some(entries[key]) else None
    }

    method Set(name: string, value: seq<byte>, kind: SettingType := Binary)
      requires Valid()
      modifies this
      ensures Valid()
      ensures entries == Put(old(entries), name, value, kind)
    {
      var key := FoldCase(name);
      if key in entries {
        entries := entries[key := SetValue(entries[key], value)];
      } else {
        FoldCaseIdempotent(name);
        entries := entries[key := ValueSetting(name, value, kind)];
      }
    }

    /**
     * `GetValueOrDefault<T>(name, def)`: the first `sizeof(T)` bytes of the entry's
     * buffer, or `def` when there is no such entry. The source asserts `Size >= sizeof(T)`.
     */
    function GetValueOrDefault(name: string, width: nat, def: seq<byte>): (r: seq<byte>)
      reads this
      requires |def| == width
      requires Find(name).Some? ==> Find(name).value.size >= width && |Find(name).value.buffer| >= width
      ensures |r| == width
      ensures FoldCase(name) !in entries ==> r == def
      ensures FoldCase(name) in entries ==> r == entries[FoldCase(name)].buffer[..width]
    {
      match Find(name)
      case None => def
      case Some(s) => s.buffer[..width]
    }

    /** `GetValue<T>(name)`: the source asserts the entry exists and that `Size == sizeof(T)`. */
    function GetValue(name: string, width: nat): (r: seq<byte>)
      reads this
      requires Find(name).Some? && Find(name).value.size == width && |Find(name).value.buffer| >= width
      ensures |r| == width && r == entries[FoldCase(name)].buffer[..width]
    {
      Find(name).value.buffer[..width]
    }

    /** `GetBinary<T>(name)`: null when the name is absent, otherwise (what the pointer gives access to) the buffer. */
    function GetBinary(name: string, width: nat): (r: Option<seq<byte>>)
      reads this
      requires Find(name).Some? ==> Find(name).value.size == width && |Find(name).value.buffer| >= width
      ensures r.None? <==> FoldCase(name) !in entries
      ensures r.Some? ==> |r.value| == width && r.value == entries[FoldCase(name)].buffer[..width]
    {
      match Find(name)
      case None => None
      case Some(s) => Some(s.buffer[..width])
    }

    /** `GetMultiString(name)`: the empty list when absent, else the strings read from the buffer one by one. */
    method GetMultiString(name: string) returns (values: seq<WString>)
      ensures FoldCase(name) !in entries ==> values == []
      ensures FoldCase(name) in entries ==> values == DecodeMulti(entries[FoldCase(name)].buffer)
    {
      var found := Find(name);
      if found.None? {
        return [];
      }
      values := ReadMultiString(found.value.buffer);
    }
  }

  /**
   * The loop of `GetMultiString`: while the byte at the cursor is non-zero, read the
   * terminated string there and move the cursor past it. `rest` is the buffer from the cursor on.
   */
  method ReadMultiString(buf: seq<byte>) returns (values: seq<WString>)
    ensures values == DecodeMulti(buf)
  {
    var rest := buf;
    values := [];
    while |rest| > 0 && rest[0] != 0
      invariant values + DecodeMulti(rest) == DecodeMulti(buf)
      decreases |rest|
    {
      var s := WideStringAt(rest);
      if s.None? {
        break;
      }
      DecodeMultiStep(rest, s.value, values, DecodeMulti(buf));
      values := values + [s.value];
      rest := rest[2 * (|s.value| + 1)..];
    }
  }

  // ---------------------------------------------------------------------------
  // Properties of the store

  /** One turn of `GetMultiString`'s loop: a string read at the cursor is the next string decoded. */
  lemma DecodeMultiStep(rest: seq<byte>, s: WString, done: seq<WString>, all: seq<WString>)
    requires |rest| > 0 && rest[0] != 0 && WideStringAt(rest) == Some(s)
    requires done + DecodeMulti(rest) == all
    ensures 2 * (|s| + 1) <= |rest|
    ensures (done + [s]) + DecodeMulti(rest[2 * (|s| + 1)..]) == all
  {
  }

  /** Names that differ only in case address the same entry. */
  lemma CaseInsensitiveFind(st: Settings, a: string, b: string)
    requires !LessNoCase(a, b) && !LessNoCase(b, a)
    ensures st.Find(a) == st.Find(b)
  {
    SameKeyIffEqualsNoCase(a, b);
  }

  /** Set on a present name keeps the entry's name, type and Size and replaces only its buffer. */
  lemma PutExisting(entries: map<string, Setting>, name: string, value: seq<byte>, kind: SettingType)
    requires FoldCase(name) in entries
    ensures var e := Put(entries, name, value, kind);
      && e.Keys == entries.Keys
      && e[FoldCase(name)] == entries[FoldCase(name)].(buffer := value)
  {
  }

  /** Set on an absent name inserts exactly one entry, with the given type and a Size of the value's width. */
  lemma PutAbsent(entries: map<string, Setting>, name: string, value: seq<byte>, kind: SettingType)
    requires FoldCase(name) !in entries
    ensures var e := Put(entries, name, value, kind);
      && e.Keys == entries.Keys + {FoldCase(name)}
      && |e| == |entries| + 1
      && e[FoldCase(name)] == Setting(name, kind, value, |value|)
  {
  }

  /** Set leaves every entry under another name as it was, and keeps the map well keyed. */
  lemma PutFrame(entries: map<string, Setting>, name: string, value: seq<byte>, kind: SettingType, other: string)
    requires WellKeyed(entries)
    requires FoldCase(other) != FoldCase(name)
    ensures WellKeyed(Put(entries, name, value, kind))
    ensures FoldCase(other) in Put(entries, name, value, kind) <==> FoldCase(other) in entries
    ensures FoldCase(other) in entries ==> Put(entries, name, value, kind)[FoldCase(other)] == entries[FoldCase(other)]
  {
    FoldCaseIdempotent(name);
  }

  /** After `Set(name, v)` the entry under `name` (or any name equal to it ignoring case) holds `v`. */
  lemma SetThenGet(st: Settings, before: map<string, Setting>, name: string, alias: string, value: seq<byte>, kind: SettingType, def: seq<byte>)
    requires st.entries == Put(before, name, value, kind)
    requires EqualsNoCase(alias, name)
    requires |def| == |value|
    requires FoldCase(name) in before ==> before[FoldCase(name)].size >= |value|
    ensures st.Find(alias).Some?
    ensures st.GetValueOrDefault(alias, |value|, def) == value
  {
  }
}
