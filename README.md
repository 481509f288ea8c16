# WMI Explorer core, modelled in Dafny

This project models the logic at the centre of WMI Explorer, a Win32 browser for
the WMI namespaces, classes and instances of a computer. It covers three parts:

- **The typed settings store** (`Settings.h`, instantiated by `AppSettings.h`).
  - A map from setting name to a byte buffer with a type tag, ordered by a
    case-insensitive comparison.
  - The `Setting` constructors and setters, including the serialiser for a
    multi-string (`REG_MULTI_SZ`) buffer and the `GetMultiString` parser.
  - The getters with and without a default, and the six-entry `AppSettings`
    table with its first-constructed singleton.
- **The explorer's tree/list projection** (`MainFrm.cpp`).
  - The namespace/class tree, built one level at a time. A placeholder child
    (two backslashes) marks a namespace that still has to be loaded.
  - The path of a tree item.
  - The item list that a selection rebuilds, and that asynchronously delivered
    instances are appended to.
  - The pure cell formatters of the list.
- **The WMI enumeration helpers** (`WMIHelper.cpp`).
  - Every `Enum*` loop, which collects what the provider yields up to the first
    result that is not `S_OK`.
  - The system-class filter.
  - `CObjectSink`, which accumulates objects and signals only on a successful
    completion.

The WMI provider is not modelled. It is a `Provider` value whose fields are
total functions: opening a namespace, creating an enumerator (`None` when
creation fails), the sequence of `Next` results, reading a property, a method's
origin, and an object's MOF text. Every operation that calls the provider takes
it as a parameter.

Files (each one module):

| file | module | models |
|---|---|---|
| wrappers.dfy | Wrappers | `Option` |
| text.dfy | Text | `_wcsicmp` ordering (ASCII case folding), `CString::TrimRight`, `CString::Left(n) ==` |
| bytes.dfy | Bytes | bytes, UTF-16 units, little-endian `int` storage |
| setting.dfy | SettingBuffers | `struct Setting`, the multi-string encoding and decoding |
| settings.dfy | SettingsStore | `class Settings` |
| app_settings.dfy | AppSettingsModel | `struct AppSettings`, `BEGIN_SETTINGS` / `SETTING` / `DEF_SETTING` |
| wmi_provider.dfy | WmiProvider | the provider interface, `VARIANT`, `WMIProperty`, `WMIMethod` |
| wmi_helper.dfy | WmiHelper | `WMIHelper::Enum*`, `GetStringProperty`, `CObjectSink` |
| formatters.dfy | Formatters | `NodeTypeToText`, `CimTypeToString`, `GetArrayValue`, `GetObjectValue`, `GetObjectDetails`, `GetRowImage`, `GetColumnText` |
| tree_control.dfy | TreeControl | the tree view: insert, delete, first child, text, sort children, item paths |
| main_frame.dfy | MainFrame | `CMainFrame`: `InitTree`, `BuildTree`, `OnTreeItemExpanding`, `TreeItemSelected`, `UpdateList`, `OnAddInstances`, `GetFullPath` |

How the model represents the source:

- **Case-insensitive keys.** `std::map<std::wstring, Setting, LessNoCase>`
  becomes a `map` keyed by the case-folded name, and each entry keeps the name
  it was inserted with. `Text.SameKeyIffEqualsNoCase` shows the two agree: two
  names are the same key of the `std::map` (neither is less than the other)
  exactly when their folded forms are equal.
- **Buffers.** Setting buffers are `seq<byte>`. Strings are little-endian
  UTF-16, and an `int` is stored as four bytes of two's complement.
- **The tree view.** The tree is a value (`TreeControl.Tree`). Handles are
  issued in increasing order, so a parent is always older than its children.
  `CMainFrame` is the class `MainFrame.Frame`, whose fields are the tree, the
  root and selected handles, `m_Items`, `m_NamespacePath`, `m_spWmi`,
  `m_spCurrentNamespace` and `m_spCurrentClass`. Its invariant is that the
  tree is well formed and linked both ways: every child an item lists is a live
  item whose parent is that item.

`OnAddInstances` appends every batch it receives, whatever is selected; nothing
checks that a batch belongs to the current selection (WMIExp/MainFrm.cpp:230-248).
`MainFrame.Frame.OnAddInstances` states exactly that.

## Model

| member | source | states |
|---|---|---|
| Text.SameKeyIffEqualsNoCase | WTLHelper/WTLHelper/Settings.h:176-181 | Two names are equivalent under `LessNoCase` (neither less than the other) exactly when they are equal ignoring case |
| Text.LessNoCase | WTLHelper/WTLHelper/Settings.h:176-181 | A strict order, as `std::map` needs: a name is never less than one equal to it ignoring case, and when one name is less than another the other is not less than it |
| Text.LexLessIrreflexive | WTLHelper/WTLHelper/Settings.h:176-181 | The comparison under `LessNoCase` never puts a name before itself |
| Text.LexLessTotal | WTLHelper/WTLHelper/Settings.h:176-181 | Of two different (folded) names, one is less than the other |
| Text.FoldCaseIdempotent | WTLHelper/WTLHelper/Settings.h:176-181 | Folding a folded name changes nothing, so an entry's key is its own folded key |
| Text.TrimRight | WMIExp/MainFrm.cpp:612 | The result is a prefix of the input, with no trailing instance of the character, and only that character was removed |
| Bytes.Int32RoundTrip | WTLHelper/WTLHelper/Settings.h:26-30 | Reading an `int` back from the four bytes it was stored as gives the same `int` |
| Bytes.BytesRoundTrip | WTLHelper/WTLHelper/Settings.h:141-148 | Any four stored bytes, read as an `int` and stored again, are the same bytes |
| SettingBuffers.StringSetting | WTLHelper/WTLHelper/Settings.h:22-25 | Type String, `Size == 2*(len+1)`, the buffer holds the characters followed by one NUL unit |
| SettingBuffers.ValueSetting | WTLHelper/WTLHelper/Settings.h:26-30 | Name and type as given; the buffer is the value's bytes and `Size` is their count |
| SettingBuffers.BinarySetting | WTLHelper/WTLHelper/Settings.h:32-35 | The first `size` bytes of the value, with `Size == size` and the given type (Binary by default) |
| SettingBuffers.SetValue | WTLHelper/WTLHelper/Settings.h:50-54 | `Set<T>` replaces the buffer and keeps the name, type and the old `Size` |
| SettingBuffers.SetBytes | WTLHelper/WTLHelper/Settings.h:58-61 | `Set(value, size)` replaces the buffer with `size` bytes of the value and sets `Size` to `size` |
| SettingBuffers.NewMultiStringSetting | WTLHelper/WTLHelper/Settings.h:37-48 | The buffer written through the moving pointer is each string followed by a NUL unit, then one more NUL unit; `Size` is its length; type MultiString |
| SettingBuffers.MultiStringSize | WTLHelper/WTLHelper/Settings.h:38-40 | The multi-string buffer is `2*(1 + Σ(len_i+1))` bytes long |
| SettingBuffers.EncodeMulti | WTLHelper/WTLHelper/Settings.h:37-48 | The buffer always ends with the extra NUL unit that closes the list |
| SettingBuffers.EncodeItemsAppend | WTLHelper/WTLHelper/Settings.h:42-46 | Encoding one more string appends exactly that string and its NUL unit |
| SettingBuffers.WideStringAt | WTLHelper/WTLHelper/Settings.h:160-161 | The string read at a position has no NUL unit, and it and its terminator are exactly the bytes skipped |
| SettingBuffers.WideStringOfTerminated | WTLHelper/WTLHelper/Settings.h:160-161 | Reading a NUL-free string written with its terminator gives that string back, whatever follows |
| SettingBuffers.DecodeMulti | WTLHelper/WTLHelper/Settings.h:152-164 | Every string read back is non-empty and holds no NUL unit |
| SettingBuffers.DecodeRoundTrip | WTLHelper/WTLHelper/Settings.h:152-164 | Decoding as written an encoded list gives the list up to the first string that is empty or whose first unit has a zero low byte |
| SettingBuffers.DecodeByUnitRoundTrip | WTLHelper/WTLHelper/Settings.h:37-48 | Decoding with the whole-unit end test gives the encoded list up to its first empty string |
| SettingBuffers.MultiStringRoundTrip | WTLHelper/WTLHelper/Settings.h:37-48 | When no string is empty or holds a NUL, decoding the encoded buffer gives the original list |
| SettingBuffers.LowByteCounterexample | WTLHelper/WTLHelper/Settings.h:159 | The list `["Ā"]` decodes as written to the empty list, and with the whole-unit test to itself |
| SettingsStore.Settings.constructor | WTLHelper/WTLHelper/Settings.h:96 | A new store has no entries |
| SettingsStore.Settings.Insert | WTLHelper/WTLHelper/Settings.h:77-78 | `m_settings.insert` adds the entry under its folded name, and a name already present (ignoring case) keeps its entry |
| SettingsStore.Settings.Set | WTLHelper/WTLHelper/Settings.h:105-115 | The new map is `Put` of the old one: the entry found has its buffer replaced, otherwise one new entry is added; the map stays keyed by folded name |
| SettingsStore.Settings.Find | WTLHelper/WTLHelper/Settings.h:107 | `m_settings.find(name)` finds an entry exactly when the folded name is a key, and the entry found carries a name equal to the one asked for, ignoring case |
| SettingsStore.PutExisting | WTLHelper/WTLHelper/Settings.h:107-110 | On a present name only that entry's buffer changes; its name, type and `Size` stay, and no key is added |
| SettingsStore.PutAbsent | WTLHelper/WTLHelper/Settings.h:111-114 | On an absent name exactly one entry is added, with the given type and a `Size` of the value's width |
| SettingsStore.PutFrame | WTLHelper/WTLHelper/Settings.h:105-115 | Every entry under another name is untouched, and the map stays keyed by folded name |
| SettingsStore.Settings.GetValueOrDefault | WTLHelper/WTLHelper/Settings.h:141-148 | The default when the name is absent, otherwise the first `sizeof(T)` bytes of the stored buffer |
| SettingsStore.Settings.GetValue | WTLHelper/WTLHelper/Settings.h:125-131 | For a present name of exactly `sizeof(T)` bytes, those bytes |
| SettingsStore.Settings.GetBinary | WTLHelper/WTLHelper/Settings.h:166-173 | Null exactly when the name is absent, otherwise the stored bytes |
| SettingsStore.Settings.GetMultiString | WTLHelper/WTLHelper/Settings.h:152-164 | The empty list for an absent name, otherwise the strings the pointer walk reads from the buffer (`DecodeMulti`) |
| SettingsStore.ReadMultiString | WTLHelper/WTLHelper/Settings.h:157-162 | The pointer walk yields exactly the strings `DecodeMulti` decodes: while the byte at the cursor is non-zero, the terminated string there, then the cursor moves past its NUL |
| SettingsStore.CaseInsensitiveFind | WTLHelper/WTLHelper/Settings.h:176-181 | Names that are equivalent under `LessNoCase` find the same entry |
| SettingsStore.SetThenGet | WTLHelper/WTLHelper/Settings.h:105-115 | After `Set(name, v)`, a lookup of `name` under any casing finds the entry and yields `v` |
| AppSettingsModel.AppSettingsInstance.Get | WTLHelper/WTLHelper/Settings.h:70-72 | `Get()` returns the registered instance |
| AppSettingsModel.AppSettings.constructor | WTLHelper/WTLHelper/Settings.h:65-69 | The object claims `_instance` only if it is still null, then `InitSettings` leaves exactly the six default entries |
| AppSettingsModel.InitSettings | WMIExp/AppSettings.h:6-13 | The six inserts leave every entry filed under the folded form of its own name |
| AppSettingsModel.InitSettingsIsDefaults | WMIExp/AppSettings.h:6-13 | The six `SETTING` inserts, run in order on an empty map, each add their entry (no two names collide ignoring case), leaving exactly the default map |
| AppSettingsModel.DefaultsRegisterSixNames | WMIExp/AppSettings.h:6-13 | The defaults hold exactly the six names, each filed under its own folded key |
| AppSettingsModel.FlagDefaultsAreZero | WMIExp/AppSettings.h:8-12 | Each of the five flags starts as the `int` 0, type Bool, in a 4-byte buffer |
| AppSettingsModel.PlacementDefaultIsZero | WMIExp/AppSettings.h:7 | MainWindowPlacement starts as a zero-filled `WINDOWPLACEMENT`, type Binary |
| AppSettingsModel.AppSettings.Flag | WMIExp/AppSettings.h:15-20 | A flag getter yields the stored `int`, or 0 when the entry is missing |
| AppSettingsModel.AppSettings.SetFlag | WMIExp/AppSettings.h:15-20 | A flag setter is `Set<int>` with the Binary default type, and the getter then returns the value just set |
| AppSettingsModel.AppSettings.MainWindowPlacement | WMIExp/AppSettings.h:16 | The stored placement, or a zero `WINDOWPLACEMENT` when missing |
| AppSettingsModel.AppSettings.SetMainWindowPlacement | WMIExp/AppSettings.h:16 | The setter stores the placement, and the getter then returns it |
| WmiHelper.Yielded | WMIExp/WMIHelper.cpp:65-68 | The items before the first `Next` that is not `S_OK`, in order |
| WmiHelper.Drain | WMIExp/WMIHelper.cpp:104-107 | The collection loop returns exactly what the enumerator yields before its first non-`S_OK` result |
| WmiHelper.GetStringProperty | WMIExp/WMIHelper.cpp:166-174 | "" when the read fails or the value is not a string, otherwise the string |
| WmiHelper.EnumNamespaces | WMIExp/WMIHelper.cpp:55-70 | Empty when the `__NAMESPACE` enumerator cannot be created, otherwise the yielded namespaces in order |
| WmiHelper.EnumClasses | WMIExp/WMIHelper.cpp:72-93 | Empty when the class enumerator cannot be created, otherwise the yielded classes in order, without system classes unless they are asked for |
| WmiHelper.KeepClassesMembers | WMIExp/WMIHelper.cpp:82-89 | A class is kept exactly when it was yielded and either system classes are included or its `__DYNASTY` is not `__SystemClass` (ignoring case) |
| WmiHelper.KeepAllClasses | WMIExp/WMIHelper.cpp:82 | With system classes included nothing is dropped |
| WmiHelper.KeepClassesSubsequence | WMIExp/WMIHelper.cpp:81-91 | The filter never adds classes, and keeps the list as it is when it holds no system class |
| WmiHelper.KeepClassesAppend | WMIExp/WMIHelper.cpp:81-91 | Filtering is element by element, so it distributes over concatenation |
| WmiHelper.EnumInstances | WMIExp/WMIHelper.cpp:95-109 | Empty when the instance enumerator cannot be created, otherwise the yielded instances in order |
| WmiHelper.EnumProperties | WMIExp/WMIHelper.cpp:122-132 | The properties yielded before the first non-`S_OK` `Next`, in order |
| WmiHelper.EnumMethods | WMIExp/WMIHelper.cpp:134-147 | For each method yielded, its name, parameter objects and origin class, in order |
| WmiHelper.ObjectSink.constructor | WMIExp/WMIHelper.cpp:111-113 | A new sink holds no objects, no references and has posted nothing |
| WmiHelper.ObjectSink.Init | WMIExp/WMIHelper.cpp:13-16 | Records the window and message and changes nothing else |
| WmiHelper.ObjectSink.GetObjectCount | WMIExp/WMIHelper.cpp:18-20 | The number of objects indicated so far |
| WmiHelper.ObjectSink.GetItem | WMIExp/WMIHelper.cpp:21-23 | The i-th object indicated |
| WmiHelper.ObjectSink.Indicate | WMIExp/WMIHelper.cpp:27-31 | Appends the whole batch in order and returns `S_OK` |
| WmiHelper.ObjectSink.SetStatus | WMIExp/WMIHelper.cpp:32-38 | Adds a reference and posts once exactly when the status is `S_OK` and the flags are `WBEM_STATUS_COMPLETE`; otherwise nothing changes; always returns `S_OK` |
| WmiHelper.ObjectSink.Release | WMIExp/MainFrm.cpp:244 | Drops one reference and changes nothing else |
| WmiHelper.EnumInstancesAsync | WMIExp/WMIHelper.cpp:111-120 | Returns whether the asynchronous request was issued, with a fresh, empty sink bound to the window and message |
| Formatters.BaseType | WMIExp/MainFrm.cpp:318 | The low 8 bits of a CIM type |
| Formatters.NodeTypeToText | WMIExp/MainFrm.cpp:305-314 | "" exactly for Computer and HasChildren |
| Formatters.NodeTypeTextDistinct | WMIExp/MainFrm.cpp:305-314 | "" exactly for Computer and HasChildren, and different kinds with text get different texts |
| Formatters.CimTypeToString | WMIExp/MainFrm.cpp:316-340 | The text ends in " [Array]" exactly when `CIM_FLAG_ARRAY` is set |
| Formatters.CimBaseName | WMIExp/MainFrm.cpp:318-336 | A base type has a non-empty name exactly when the switch names it, and no name ends in " [Array]" |
| Formatters.CimTypeUnknownIsEmpty | WMIExp/MainFrm.cpp:318-336 | An unknown base type without the array flag gives "" |
| Formatters.CimTypeDependsOnBaseAndFlag | WMIExp/MainFrm.cpp:316-340 | The text depends only on the low 8 bits and the array flag |
| Formatters.EachWithCommaIsJoin | WMIExp/MainFrm.cpp:346-352 | Appending ", " after each string, then cutting two characters, is the strings joined with ", " and nothing trailing |
| Formatters.EachWithCommaSnoc | WMIExp/MainFrm.cpp:349-350 | Each loop step appends the next string and ", " |
| Formatters.HexByte | WMIExp/MainFrm.cpp:366-368 | `%02X ` gives two upper-case hex digits and a space |
| Formatters.HexDumpRoundTrip | WMIExp/MainFrm.cpp:363-371 | The bytes can be read back from the hex dump: it loses no byte and mixes up none |
| Formatters.HexDumpShape | WMIExp/MainFrm.cpp:363-371 | Every byte shows as two upper-case hex digits and a space, so with the round trip each byte appears as its own two digits, in order |
| Formatters.HexDumpSnoc | WMIExp/MainFrm.cpp:365-369 | Each loop step appends one byte's text |
| Formatters.ArrayText | WMIExp/MainFrm.cpp:342-375 | No text exactly when the `CComSafeArray` of the branch would reject the array (a string array not holding `BSTR`s, a `sint8`/`uint8` array not holding bytes); an empty text for any other base type |
| Formatters.GetArrayValue | WMIExp/MainFrm.cpp:342-375 | No text (the `CComSafeArray` constructor throws) exactly for an array whose elements are not of the type the branch reads; otherwise string arrays joined by ", " with no trailing separator, byte arrays as hex of at most the first 64 elements, and "" for any other base type |
| Formatters.GetObjectValue | WMIExp/MainFrm.cpp:537-554 | No text exactly when the array branch is taken and the array is rejected; otherwise "" for a non-property or a NULL value, the array text for an array, "True"/"False" for a boolean, and a string as is |
| Formatters.Sint8ArrayRejected | WMIExp/MainFrm.cpp:545-546 | A `sint8[]` property holding `VT_I2` elements, as WMI delivers it, yields no text: the exception escapes `GetObjectValue` |
| Formatters.GetObjectDetails | WMIExp/MainFrm.cpp:529-535 | "Class: " and the origin class for a method, "" otherwise |
| Formatters.GetRowImage | WMIExp/MainFrm.cpp:43-56 | -1 exactly for Computer and HasChildren; a property shows image 4 exactly when its name starts with "__", else 2 |
| Formatters.RowImagesDistinct | WMIExp/MainFrm.cpp:43-56 | Different kinds with an image get different images |
| Formatters.GetColumnText | WMIExp/MainFrm.cpp:23-41 | Name shows the name, Type the kind's text, CimType the type text for a property only, Value and Details their formatters, and Size nothing; only the Value column can fail to return a text, exactly when `GetObjectValue` throws |
| TreeControl.Empty | WMIExp/MainFrm.cpp:144-145 | A new tree view has no items, and is trivially well formed and linked |
| TreeControl.InsertItem | WMIExp/MainFrm.cpp:615-620 | A new handle, not used before, holding the text and kind, appended last under its parent; every other item unchanged |
| TreeControl.DeleteItem | WMIExp/MainFrm.cpp:293 | The item is gone, and so is its entry in its parent's child list; everything else unchanged |
| TreeControl.Without | WMIExp/MainFrm.cpp:293 | Exactly the other entries of the child list remain; a list without the entry is returned as it is |
| TreeControl.WithoutAppend | WMIExp/MainFrm.cpp:293 | Removal works piecewise, so the remaining siblings keep their order and their number |
| TreeControl.WithoutHead | WMIExp/MainFrm.cpp:293 | Deleting a first child listed once leaves exactly the siblings after it |
| TreeControl.DeleteChildFrame | WMIExp/MainFrm.cpp:293 | In a linked tree, deleting a listed child changes only that child (gone) and its parent's child list |
| TreeControl.InsertItemLinked | WMIExp/MainFrm.cpp:615-620 | Inserting under a live parent keeps the tree linked both ways |
| TreeControl.DeleteItemLinked | WMIExp/MainFrm.cpp:293 | Deleting an item keeps the tree linked both ways |
| TreeControl.SortChildrenLinked | WMIExp/MainFrm.cpp:460 | Sorting a child list keeps the tree linked both ways |
| TreeControl.GetItemText | WMIExp/MainFrm.cpp:284 | Fails exactly on a null or dead handle, otherwise yields the item's text |
| TreeControl.GetChildItem | WMIExp/MainFrm.cpp:284 | Null exactly for a dead or childless item, otherwise the first child, which in a linked tree is a live item whose parent is the item |
| TreeControl.SortChildren | WMIExp/MainFrm.cpp:460 | Only the item's child list changes, and it becomes the sorted permutation `SortByLabel` |
| TreeControl.SortByLabelSorted | WMIExp/MainFrm.cpp:460 | The sorted children are a permutation of the old ones, ordered by label ignoring case |
| TreeControl.LabelLeTransitive | WMIExp/MainFrm.cpp:460 | The label order used for sorting is transitive |
| TreeControl.LabelLeTotal | WMIExp/MainFrm.cpp:460 | Any two labels are ordered one way or the other |
| TreeControl.RootPathEmpty | WMIExp/MainFrm.cpp:603-613 | The "ROOT" item has the empty path |
| TreeControl.FullPathIsJoin | WMIExp/MainFrm.cpp:603-613 | An item's path is its labels below "ROOT", outermost first, joined by single backslashes |
| TreeControl.PathLabelsChild | WMIExp/MainFrm.cpp:605-610 | Below a non-ROOT item, the path labels are the parent's followed by the item's own |
| TreeControl.WithBackslashesJoin | WMIExp/MainFrm.cpp:608-612 | Prefixing each label plus a backslash builds the joined path followed by one backslash |
| MainFrame.Frame.GetFullPath | WMIExp/MainFrm.cpp:603-613 | The loop returns `FullPath`: the labels up to the first "ROOT" ancestor, joined by backslashes, trailing backslashes trimmed |
| MainFrame.Frame.InsertTreeItem | WMIExp/MainFrm.cpp:615-620 | The tree after one `InsertItem` under the parent; no other field changes |
| MainFrame.Frame.InsertClasses | WMIExp/MainFrm.cpp:441-445 | One childless Class node per class, named by `__CLASS`, appended in order under the parent; nothing else changes |
| MainFrame.Frame.InsertNamespace | WMIExp/MainFrm.cpp:449-459 | A Namespace node named as given, with one placeholder child exactly when the namespace opens and its `__NAMESPACE` probe yields an enumerator |
| MainFrame.Frame.InsertNamespaces | WMIExp/MainFrm.cpp:447-459 | One namespace node per namespace, in order under the parent, each with its placeholder rule, at fresh increasing ids |
| MainFrame.NamespaceNodesKept | WMIExp/MainFrm.cpp:447-460 | Later insertions and the sort do not disturb the namespace nodes already built or their placeholders |
| MainFrame.Frame.InsertLevel | WMIExp/MainFrm.cpp:441-459 | All class nodes are appended before any namespace node; the class ids are the next free ids in order, the namespace ids increase above them |
| MainFrame.Frame.BuildTree | WMIExp/MainFrm.cpp:440-461 | `LevelBuilt`: one node per non-system class and per child namespace, placeholders as probed, at fresh ids; the parent keeps its fields and its children are the old ones plus the new ones, sorted by label; every other item unchanged |
| MainFrame.FreshLevelIds | WMIExp/MainFrm.cpp:441-459 | The ids of a built level are pairwise distinct and none was a live item before |
| MainFrame.LevelBuiltChildren | WMIExp/MainFrm.cpp:440-461 | After the build the parent has its old children plus exactly one more per class and per namespace, each new node listed once |
| MainFrame.SortLevel | WMIExp/MainFrm.cpp:460 | Sorting the parent's children after the two loops completes the level: the nodes built keep their texts, kinds and placeholders, and the children become sorted |
| MainFrame.SortedAfterSort | WMIExp/MainFrm.cpp:460 | After the sort the parent's children are in label order |
| MainFrame.Frame.InitTree | WMIExp/MainFrm.cpp:426-438 | The connection becomes `m_spWmi` and the current namespace; a new "ROOT" item is inserted and selected; with a connection one level is built below it (`LevelBuilt`), without one nothing else changes |
| MainFrame.InitTreeRoot | WMIExp/MainFrm.cpp:426-438 | The tree `InitTree` leaves has a fresh, parentless "ROOT" item with the empty path and sorted children, and every earlier item is kept |
| MainFrame.RootExpandLoadsNothing | WMIExp/MainFrm.cpp:433 | Right after the build, ROOT's first child is not the placeholder unless a class or namespace is named like it, so expanding ROOT then loads nothing |
| MainFrame.Frame.OnTreeItemExpanding | WMIExp/MainFrm.cpp:280-298 | No change unless the first child is the placeholder (or cannot be read) and the path opens; then `m_NamespacePath` is "ROOT\" + path, the opened namespace is current and `LevelLoaded` holds: the placeholder is gone, the item keeps its fields, one level is built below it, and every other item is unchanged |
| MainFrame.Frame.LoadLevel | WMIExp/MainFrm.cpp:293-295 | `LevelLoaded`: the first child deleted, then one level built below the item at fresh ids; every other item unchanged |
| MainFrame.LevelLoadedChildren | WMIExp/MainFrm.cpp:293-295 | A first expansion replaces the placeholder, listed once, by one node per class and per namespace |
| MainFrame.PlaceholderFirstChild | WMIExp/MainFrm.cpp:284-286 | A namespace built with a placeholder shows it as its first child's text, so its first expansion loads it |
| MainFrame.IsChildNamespaceOrClass | WMIExp/MainFrm.cpp:463-467 | When the `__NAMESPACE` probe fails, the namespace has no child namespaces |
| MainFrame.NamespaceNodePath | WMIExp/MainFrm.cpp:287-288 | The path opened for a namespace node is its parent's path followed by its own name |
| MainFrame.PushProperties | WMIExp/MainFrm.cpp:475-482 | One Property row per property, carrying its name, CIM type and value, in order |
| MainFrame.PushMethods | WMIExp/MainFrm.cpp:483-491 | One Method row per method, carrying its name, parameter objects and origin class, in order |
| MainFrame.ClassRows | WMIExp/MainFrm.cpp:473-492 | The rows pushed for a class: its properties, then its methods, in enumeration order |
| MainFrame.PushNamespaces | WMIExp/MainFrm.cpp:500-507 | One Namespace row per child namespace, named by `NAME`, in order |
| MainFrame.PushClasses | WMIExp/MainFrm.cpp:509-516 | One Class row per class, named by `__CLASS`, in order |
| MainFrame.NamespaceRows | WMIExp/MainFrm.cpp:496-517 | The rows pushed for a namespace: its child namespaces, then its non-system classes |
| MainFrame.ClassListingShape | WMIExp/MainFrm.cpp:473-492 | A class's list is its properties followed by its methods, with their names, and nothing else |
| MainFrame.NamespaceListingShape | WMIExp/MainFrm.cpp:496-517 | A namespace's list is all namespace rows followed by all class rows |
| MainFrame.NamespaceListingHasNoSystemClass | WMIExp/MainFrm.cpp:509 | No system class is listed for a namespace |
| MainFrame.Frame.UpdateList | WMIExp/MainFrm.cpp:469-527 | The list is rebuilt from empty: a class's listing plus an instance request named by the selected item's text; or a namespace's listing; or, with neither current, nothing |
| MainFrame.Frame.OnAddInstances | WMIExp/MainFrm.cpp:230-248 | Every buffered object is appended, in order, as an Instance row named by its MOF text, after the rows already there; the sink loses one reference and is otherwise unchanged |
| MainFrame.Frame.TreeItemSelected | WMIExp/MainFrm.cpp:556-596 | The selected item's kind decides the current namespace, class and path, then the list is rebuilt; for a class that opens, an asynchronous non-deep request for the instances of the class named by the item's text in the current namespace, through a fresh empty sink bound to the frame's window and `WM_INSTANCES`; no selection clears both; any other kind changes nothing |

## Left out

- The WMI provider (`ConnectServer`, `OpenNamespace`, `CreateClassEnum`, `CreateInstanceEnum(Async)`, `GetObject`, `Next`, `Get`, `GetMethodOrigin`, `GetObjectText`) is a parameter of total functions. Its behaviour lives in Windows.
- `WMIHelper::Init` (connecting to ROOT) is not modelled. `InitTree` receives the connection it would yield.
- Cross-thread delivery is not modelled: `PostMessage` from the provider's thread is a counter of posts. Sink accumulation and `OnAddInstances` are separate sequential steps.
- COM reference counting is a plain counter (`refs`). Object lifetime and `CComPtr` semantics are not modelled.
- Window, toolbar, command bar, splitter, image lists, custom draw, the timer debounce of selection changes, and `RefreshList` redraws are not modelled. These are UI plumbing.
- `WMIHelper::GetNames` is not modelled. It relies on SAFEARRAY internals and nothing calls it.
- Persistence to the registry or a file is not modelled, and neither are `SetString`, `GetString`, `GetInt32`, `Save*`, `Load*` and `*WindowPosition`. Their bodies are not part of the source, and they are I/O.
- `GetValueRef` and `DEF_SETTING_REF` are not modelled. They return a reference into the buffer, which a value model cannot express, and no setting uses them.
- Formatters.GetObjectValue: the general branch (`VARIANT::ChangeType` to a string, including floating-point formatting) is a parameter `changeType`. Its result is not constrained.
- Formatters.GetArrayValue: a failing `SafeArrayAccessData` is not modelled. The byte case always reads the data.
- Formatters.GetArrayValue: the `CAtlException` the `CComSafeArray` constructor throws on a mismatched element type is a result with no text. Where it is caught past `GetColumnText`, and what the list then shows, is not modelled. The same holds for GetObjectValue and GetColumnText.
- SettingBuffers.NewMultiStringSetting: the `uint32_t` cast of the size is not modelled. A buffer of 4 GiB or more would wrap.
- Text.LessNoCase: only ASCII letters are folded, as `_wcsicmp` does in the C locale. Locale-dependent folding of other characters is not modelled.
- TreeControl.SortChildren: the tree view compares labels with the locale's case-insensitive word sort (`lstrcmpi`), whose order itself can differ from code-unit order (punctuation such as `_` sorts differently against letters and digits). The model sorts by the ASCII case-insensitive code-unit order of the settings keys, so it guarantees a sorted permutation under that order, not the tree view's order.
- TreeControl.DeleteItem: only the item itself is removed. The tree view also deletes its descendants, but the only item deleted here is a leaf placeholder.
- SettingsStore.Settings.GetMultiString: a buffer whose last string has no terminating NUL ends decoding there. The source would read past the buffer.
- MainFrame.Frame.OnTreeItemExpanding: requires the item to have a child. The tree view only sends the expanding notification for items that have children. With no child the source would call `DeleteItem(NULL)`, which deletes every item.
- MainFrame.Frame.OnTreeItemExpanding: requires a connection (`m_spWmi`). Without one `InitTree` builds no level, ROOT has no child, and the tree view never sends the notification.
- MainFrame.Frame.InitTree: the `Expand` of ROOT after the build (WMIExp/MainFrm.cpp:433) is not modelled. `MainFrame.RootExpandLoadsNothing` shows it loads nothing unless a class or child namespace of ROOT is named like the placeholder.
- MainFrame.Frame.TreeItemSelected: requires an open connection when a non-ROOT namespace is selected, and a current namespace when a class is selected. The source dereferences both without a check.

## Findings

| source | as written | input that shows it | evidently intended | confidence | as-written member | corrected member |
|---|---|---|---|---|---|---|
| WTLHelper/WTLHelper/Settings.h:159 | `while (*p)` tests only the first (low) byte of the next UTF-16 unit, because `p` is a `uint8_t*` | `GetMultiString` on the buffer written for `["Ā"]`, whose first unit is bytes `00 01`: it returns the empty list | The loop ends only on a whole NUL unit, so every non-empty, NUL-free list round-trips | not executed | SettingBuffers.LowByteCounterexample | SettingBuffers.MultiStringRoundTrip |
