/**
 * `struct AppSettings`: the explorer's settings, six entries registered by
 * `InitSettings` (expanded from `BEGIN_SETTINGS` / `SETTING`), a getter and a
 * setter per entry (expanded from `DEF_SETTING`), and the static `_instance`
 * that the first constructed object claims.
 */
module AppSettingsModel {
  import opened Bytes
  import opened Text
  import opened SettingBuffers
  import opened SettingsStore

  const MainWindowPlacementName := "MainWindowPlacement"
  const AlwaysOnTopName := "AlwaysOnTop"
  const SingleInstanceName := "SingleInstance"
  const ViewSystemClassesName := "ViewSystemClasses"
  const ViewSystemPropertiesName := "ViewSystemProperties"
  const ShowNamespacesInListName := "ShowNamespacesInList"

  /** The five settings declared with `DEF_SETTING(name, int)`. */
  const FlagNames: set<string> := {AlwaysOnTopName, SingleInstanceName, ViewSystemClassesName,
                                   ViewSystemPropertiesName, ShowNamespacesInListName}

  /** `sizeof(WINDOWPLACEMENT)`: length, flags, showCmd, two POINTs and a RECT. */
  const PlacementSize := 44

  /** `WINDOWPLACEMENT{}`: every byte zero. */
  function ZeroPlacement(): (r: seq<byte>)
  {
    seq(PlacementSize, _ => 0 as byte)
  }

  /** `Setting(L#name, 0, SettingType::Bool)`. */
  function FlagDefault(name: string): Setting
  {
    ValueSetting(name, Int32ToBytes(0), Bool)
  }

  /** `Setting(L"MainWindowPlacement", WINDOWPLACEMENT{}, SettingType::Binary)`. */
  function PlacementDefault(): Setting
  {
    ValueSetting(MainWindowPlacementName, ZeroPlacement(), Binary)
  }

  /** The map `InitSettings` leaves in a freshly constructed object. */
  function Defaults(): map<string, Setting>
  {
    map[FoldCase(MainWindowPlacementName) := PlacementDefault(),
        FoldCase(AlwaysOnTopName) := FlagDefault(AlwaysOnTopName),
        FoldCase(SingleInstanceName) := FlagDefault(SingleInstanceName),
        FoldCase(ViewSystemClassesName) := FlagDefault(ViewSystemClassesName),
        FoldCase(ViewSystemPropertiesName) := FlagDefault(ViewSystemPropertiesName),
        FoldCase(ShowNamespacesInListName) := FlagDefault(ShowNamespacesInListName)]
  }

  /** `m_settings.insert({ name, setting })` on a map: a name already present keeps its entry. */
  function Inserted(entries: map<string, Setting>, s: Setting): map<string, Setting>
  {
    if FoldCase(s.name) in entries then entries else entries[FoldCase(s.name) := s]
  }

  /** The six inserts of `InitSettings`, in declaration order, on an empty store. */
  function InitSettings(): (r: map<string, Setting>)
    ensures WellKeyed(r)
  {
    FoldCaseIdempotent(MainWindowPlacementName);
    FoldCaseIdempotent(AlwaysOnTopName);
    FoldCaseIdempotent(SingleInstanceName);
    FoldCaseIdempotent(ViewSystemClassesName);
    FoldCaseIdempotent(ViewSystemPropertiesName);
    FoldCaseIdempotent(ShowNamespacesInListName);
    var e1 := Inserted(map[], PlacementDefault());
    var e2 := Inserted(e1, FlagDefault(AlwaysOnTopName));
    var e3 := Inserted(e2, FlagDefault(SingleInstanceName));
    var e4 := Inserted(e3, FlagDefault(ViewSystemClassesName));
    var e5 := Inserted(e4, FlagDefault(ViewSystemPropertiesName));
    Inserted(e5, FlagDefault(ShowNamespacesInListName))
  }

  /** Every entry a getter reads is wide enough for the value it reads. */
  ghost predicate WidthsOk(entries: map<string, Setting>)
  {
    && (forall n :: n in FlagNames && FoldCase(n) in entries ==>
          entries[FoldCase(n)].size >= 4 && |entries[FoldCase(n)].buffer| >= 4)
    && (FoldCase(MainWindowPlacementName) in entries ==>
          entries[FoldCase(MainWindowPlacementName)].size >= PlacementSize &&
          |entries[FoldCase(MainWindowPlacementName)].buffer| >= PlacementSize)
  }

  /** Where `AppSettings::_instance` lives: one per program. */
  class AppSettingsInstance {
    var instance: AppSettings?

    constructor ()
      ensures instance == null
    {
      instance := null;
    }

    /** `AppSettings::Get()`: dereferences `_instance`. */
    function Get(): (r: AppSettings)
      reads this
      requires instance != null
      ensures r == instance
    {
      instance
    }
  }

  class AppSettings {
    /** The `Settings` base part. */
    const store: Settings

    ghost predicate Valid()
      reads this, store
    {
      store.Valid() && WidthsOk(store.entries)
    }

    /** `AppSettings()`: claims `_instance` if it is still null, then runs `InitSettings`. */
    constructor (registry: AppSettingsInstance)
      modifies registry
      ensures Valid() && fresh(store)
      ensures store.entries == Defaults()
      ensures registry.instance == if old(registry.instance) == null then this else old(registry.instance)
    {
      store := new Settings();
      new;
      if registry.instance == null {
        registry.instance := this;
      }
      store.Insert(PlacementDefault());
      store.Insert(FlagDefault(AlwaysOnTopName));
      store.Insert(FlagDefault(SingleInstanceName));
      store.Insert(FlagDefault(ViewSystemClassesName));
      store.Insert(FlagDefault(ViewSystemPropertiesName));
      store.Insert(FlagDefault(ShowNamespacesInListName));
      assert store.entries == InitSettings();
      InitSettingsIsDefaults();
      DefaultsWide();
    }

    /** The generated `int name() const`: the stored `int`, or `int()` (zero) when the entry is missing. */
    function Flag(name: string): (r: int32)
      reads this, store
      requires Valid() && name in FlagNames
      ensures FoldCase(name) !in store.entries ==> r == 0
      ensures FoldCase(name) in store.entries ==> r == BytesToInt32(store.entries[FoldCase(name)].buffer)
    {
      BytesToInt32(store.GetValueOrDefault(name, 4, Int32ToBytes(0)))
    }

    /** The generated `void name(const int&)`: `Set<int>(name, value)`, whose type argument defaults to Binary. */
    method SetFlag(name: string, value: int32)
      requires Valid() && name in FlagNames
      modifies store
      ensures Valid()
      ensures store.entries == Put(old(store.entries), name, Int32ToBytes(value), Binary)
      ensures Flag(name) == value
    {
      store.Set(name, Int32ToBytes(value), Binary);
      Int32RoundTrip(value);
      PutFrameWidths(old(store.entries), name, Int32ToBytes(value), 4);
    }

    /** The generated `WINDOWPLACEMENT MainWindowPlacement() const`. */
    function MainWindowPlacement(): (r: seq<byte>)
      reads this, store
      requires Valid()
      ensures |r| == PlacementSize
      ensures FoldCase(MainWindowPlacementName) !in store.entries ==> r == ZeroPlacement()
      ensures FoldCase(MainWindowPlacementName) in store.entries ==>
                r == store.entries[FoldCase(MainWindowPlacementName)].buffer[..PlacementSize]
    {
      store.GetValueOrDefault(MainWindowPlacementName, PlacementSize, ZeroPlacement())
    }

    /** The generated `void MainWindowPlacement(const WINDOWPLACEMENT&)`. */
    method SetMainWindowPlacement(placement: seq<byte>)
      requires Valid() && |placement| == PlacementSize
      modifies store
      ensures Valid()
      ensures store.entries == Put(old(store.entries), MainWindowPlacementName, placement, Binary)
      ensures MainWindowPlacement() == placement
    {
      store.Set(MainWindowPlacementName, placement, Binary);
      PutFrameWidths(old(store.entries), MainWindowPlacementName, placement, PlacementSize);
    }
  }

  /** The keys the six names are filed under. */
  lemma FoldedNames()
    ensures FoldCase(MainWindowPlacementName) == "mainwindowplacement"
    ensures FoldCase(AlwaysOnTopName) == "alwaysontop"
    ensures FoldCase(SingleInstanceName) == "singleinstance"
    ensures FoldCase(ViewSystemClassesName) == "viewsystemclasses"
    ensures FoldCase(ViewSystemPropertiesName) == "viewsystemproperties"
    ensures FoldCase(ShowNamespacesInListName) == "shownamespacesinlist"
  {
    FoldedMainWindowPlacement();
    FoldedAlwaysOnTop();
    FoldedSingleInstance();
    FoldedViewSystemClasses();
    FoldedViewSystemProperties();
    FoldedShowNamespacesInList();
  }

  lemma FoldedMainWindowPlacement()
    ensures FoldCase(MainWindowPlacementName) == "mainwindowplacement"
  {
  }

  lemma FoldedAlwaysOnTop()
    ensures FoldCase(AlwaysOnTopName) == "alwaysontop"
  {
  }

  lemma FoldedSingleInstance()
    ensures FoldCase(SingleInstanceName) == "singleinstance"
  {
  }

  lemma FoldedViewSystemClasses()
    ensures FoldCase(ViewSystemClassesName) == "viewsystemclasses"
  {
  }

  lemma FoldedViewSystemProperties()
    ensures FoldCase(ViewSystemPropertiesName) == "viewsystemproperties"
  {
  }

  lemma FoldedShowNamespacesInList()
    ensures FoldCase(ShowNamespacesInListName) == "shownamespacesinlist"
  {
  }

  /** The six names fold to six distinct keys, so every insert of `InitSettings` adds its entry. */
  lemma InitSettingsIsDefaults()
    ensures InitSettings() == Defaults()
  {
    FoldedNames();
  }

  lemma DefaultsWide()
    ensures WidthsOk(Defaults())
  {
  }

  /** A set of a value as wide as the getter reads keeps every entry readable. */
  lemma PutFrameWidths(entries: map<string, Setting>, name: string, value: seq<byte>, width: nat)
    requires WidthsOk(entries)
    requires |value| == width
    requires name in FlagNames ==> width == 4
    requires name == MainWindowPlacementName ==> width == PlacementSize
    requires name in FlagNames || name == MainWindowPlacementName
    ensures WidthsOk(Put(entries, name, value, Binary))
  {
  }

  /** Construction registers exactly the six names, each under its own key. */
  lemma DefaultsRegisterSixNames()
    ensures Defaults().Keys == {FoldCase(MainWindowPlacementName), FoldCase(AlwaysOnTopName),
                                FoldCase(SingleInstanceName), FoldCase(ViewSystemClassesName),
                                FoldCase(ViewSystemPropertiesName), FoldCase(ShowNamespacesInListName)}
    ensures |Defaults()| == 6
    ensures forall k :: k in Defaults() ==> FoldCase(Defaults()[k].name) == k
  {
    FoldedNames();
    var keys := Defaults().Keys;
    assert keys == {"mainwindowplacement", "alwaysontop", "singleinstance", "viewsystemclasses",
                    "viewsystemproperties", "shownamespacesinlist"};
    FoldCaseIdempotent(MainWindowPlacementName);
    FoldCaseIdempotent(AlwaysOnTopName);
    FoldCaseIdempotent(SingleInstanceName);
    FoldCaseIdempotent(ViewSystemClassesName);
    FoldCaseIdempotent(ViewSystemPropertiesName);
    FoldCaseIdempotent(ShowNamespacesInListName);
  }

  /** Each flag starts as the `int` 0, typed Bool, in a 4-byte buffer. */
  lemma FlagDefaultsAreZero(name: string)
    requires name in FlagNames
    ensures FoldCase(name) in Defaults()
    ensures var s := Defaults()[FoldCase(name)];
      s.name == name && s.kind == Bool && s.size == 4 && s.buffer == [0, 0, 0, 0] && BytesToInt32(s.buffer) == 0
  {
    FoldedNames();
    assert Int32ToBytes(0) == [0, 0, 0, 0];
    var d := Defaults();
    if name == AlwaysOnTopName {
      assert d[FoldCase(name)] == FlagDefault(AlwaysOnTopName);
    } else if name == SingleInstanceName {
      assert d[FoldCase(name)] == FlagDefault(SingleInstanceName);
    } else if name == ViewSystemClassesName {
      assert d[FoldCase(name)] == FlagDefault(ViewSystemClassesName);
    } else if name == ViewSystemPropertiesName {
      assert d[FoldCase(name)] == FlagDefault(ViewSystemPropertiesName);
    } else {
      assert d[FoldCase(name)] == FlagDefault(ShowNamespacesInListName);
    }
  }

  /** The window placement starts as an all-zero `WINDOWPLACEMENT`, typed Binary. */
  lemma PlacementDefaultIsZero()
    ensures FoldCase(MainWindowPlacementName) in Defaults()
    ensures var s := Defaults()[FoldCase(MainWindowPlacementName)];
      s.kind == Binary && s.size == PlacementSize && |s.buffer| == PlacementSize &&
      forall i :: 0 <= i < PlacementSize ==> s.buffer[i] == 0
  {
    FoldedNames();
  }
}
