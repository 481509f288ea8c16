/**
 * `CMainFrame`'s explorer state: the namespace/class tree, built one level at a
 * time with a placeholder child standing for an unexpanded namespace, and the
 * item list (`m_Items`) that a selection rebuilds and that asynchronously
 * delivered instances are appended to.
 */
module MainFrame {
  import opened Wrappers
  import opened Text
  import opened WmiProvider
  import opened WmiHelper
  import opened Formatters
  import opened TreeControl

  /** The label of the placeholder child: two backslash characters. */
  const PlaceholderText := "\\\\"

  /** `WM_INSTANCES = WM_APP + 6`. */
  const WM_INSTANCES := 0x8000 + 6

  // ---------------------------------------------------------------------------
  // The rows the list shows

  /** `VT_EMPTY`: the value of an item that has none. */
  const EmptyValue := VOther(0)

  function PropertyItem(prop: WmiProperty): WmiItem
  {
    WmiItem(prop.name, None, None, prop.cimType, Property, prop.value)
  }

  function MethodItem(m: WmiMethod): WmiItem
  {
    WmiItem(m.name, m.inParams, m.outParams, 0, Method, VString(m.className))
  }

  function NamespaceItem(p: Provider, ns: Handle): WmiItem
  {
    WmiItem(GetStringProperty(p, ns, "NAME"), Some(ns), None, 0, Namespace, EmptyValue)
  }

  function ClassItem(p: Provider, cls: Handle): WmiItem
  {
    WmiItem(GetStringProperty(p, cls, "__CLASS"), Some(cls), None, 0, Class, EmptyValue)
  }

  /** `OnAddInstances`' row: the instance named by its MOF text. */
  function InstanceItem(p: Provider, obj: Handle): WmiItem
  {
    WmiItem(p.objectText(obj), Some(obj), None, 0, Instance, EmptyValue)
  }

  function PropertyItems(props: seq<WmiProperty>): (r: seq<WmiItem>)
    ensures |r| == |props| && forall i :: 0 <= i < |props| ==> r[i] == PropertyItem(props[i])
  {
    seq(|props|, i requires 0 <= i < |props| => PropertyItem(props[i]))
  }

  function MethodItems(ms: seq<WmiMethod>): (r: seq<WmiItem>)
    ensures |r| == |ms| && forall i :: 0 <= i < |ms| ==> r[i] == MethodItem(ms[i])
  {
    seq(|ms|, i requires 0 <= i < |ms| => MethodItem(ms[i]))
  }

  function NamespaceItems(p: Provider, nss: seq<Handle>): (r: seq<WmiItem>)
    ensures |r| == |nss| && forall i :: 0 <= i < |nss| ==> r[i] == NamespaceItem(p, nss[i])
  {
    seq(|nss|, i requires 0 <= i < |nss| => NamespaceItem(p, nss[i]))
  }

  function ClassItems(p: Provider, classes: seq<Handle>): (r: seq<WmiItem>)
    ensures |r| == |classes| && forall i :: 0 <= i < |classes| ==> r[i] == ClassItem(p, classes[i])
  {
    seq(|classes|, i requires 0 <= i < |classes| => ClassItem(p, classes[i]))
  }

  function InstanceItems(p: Provider, objs: seq<Handle>): (r: seq<WmiItem>)
    ensures |r| == |objs| && forall i :: 0 <= i < |objs| ==> r[i] == InstanceItem(p, objs[i])
  {
    seq(|objs|, i requires 0 <= i < |objs| => InstanceItem(p, objs[i]))
  }

  /** What `EnumNamespaces(svc)` returns. */
  function NamespacesOf(p: Provider, svc: Handle): seq<Handle>
  {
    match p.createInstanceEnum(svc, "__NAMESPACE", false)
    case None => []
    case Some(steps) => Yielded(steps)
  }

  /** What `EnumClasses(svc, true)` returns: a deep enumeration without system classes. */
  function ClassesOf(p: Provider, svc: Handle): seq<Handle>
  {
    match p.createClassEnum(svc, true)
    case None => []
    case Some(steps) => KeepClasses(p, Yielded(steps), false)
  }

  /** The list for a selected class: its properties, then its methods, in enumeration order. */
  function ClassListing(p: Provider, cls: Handle): seq<WmiItem>
  {
    PropertyItems(Yielded(p.properties(cls))) + MethodItems(MethodRecords(p, cls, Yielded(p.methods(cls, false, false))))
  }

  /** The list for a selected namespace: its child namespaces, then its classes. */
  function NamespaceListing(p: Provider, ns: Handle): seq<WmiItem>
  {
    NamespaceItems(p, NamespacesOf(p, ns)) + ClassItems(p, ClassesOf(p, ns))
  }

  /** `IsChildNamespaceOrClass(svc)`: the probe succeeds when a `__NAMESPACE` enumerator can be created. */
  predicate IsChildNamespaceOrClass(p: Provider, svc: Handle)
    ensures !IsChildNamespaceOrClass(p, svc) ==> NamespacesOf(p, svc) == []
  {
    p.createInstanceEnum(svc, "__NAMESPACE", false).Some?
  }

  /** A namespace node gets a placeholder when opening it succeeds and the probe yields an enumerator. */
  predicate HasPlaceholder(p: Provider, svc: Handle, name: string)
  {
    match p.openNamespace(svc, name)
    case None => false
    case Some(child) => IsChildNamespaceOrClass(p, child)
  }

  ghost predicate ClassNode(t: Tree, id: NodeId, parent: NodeId, name: string)
  {
    id in t.nodes && t.nodes[id] == TreeNode(name, Class, Some(parent), [])
  }

  /** `t` is `t0` with one class leaf per name appended under `parent`, at the ids `added`. */
  ghost predicate ClassesInserted(t0: Tree, t: Tree, parent: NodeId, added: seq<NodeId>, names: seq<string>)
  {
    && WellFormed(t) && parent in t0.nodes && parent in t.nodes
    && |added| == |names| && t.next == t0.next + |added|
    && (forall k :: 0 <= k < |added| ==> added[k] == t0.next + k)
    && (forall n :: n in t.nodes <==> n in t0.nodes || t0.next <= n < t.next)
    && (forall k :: 0 <= k < |added| ==> ClassNode(t, added[k], parent, names[k]))
    && t.nodes[parent] == t0.nodes[parent].(children := t0.nodes[parent].children + added)
    && (forall n :: n in t0.nodes && n != parent ==> t.nodes[n] == t0.nodes[n])
  }

  /** One more class leaf keeps `ClassesInserted`. */
  lemma ClassesInsertedStep(t0: Tree, t: Tree, parent: NodeId, added: seq<NodeId>, names: seq<string>, name: string)
    requires WellFormed(t0) && ClassesInserted(t0, t, parent, added, names)
    ensures var r := InsertItem(t, name, Some(parent), Class);
      ClassesInserted(t0, r.0, parent, added + [r.1], names + [name])
  {
    var r := InsertItem(t, name, Some(parent), Class);
    forall k | 0 <= k < |added|
      ensures ClassNode(r.0, added[k], parent, names[k])
    {
      assert added[k] in t.nodes && added[k] != parent;
    }
    forall n | n in t0.nodes && n != parent
      ensures r.0.nodes[n] == t0.nodes[n]
    {
      assert n in t.nodes;
    }
  }

  /** A namespace node, and below it exactly one placeholder leaf or nothing. */
  ghost predicate NamespaceNode(t: Tree, id: NodeId, parent: NodeId, name: string, placeholder: bool)
  {
    && id in t.nodes
    && t.nodes[id].text == name && t.nodes[id].kind == Namespace && t.nodes[id].parent == Some(parent)
    && (if placeholder then
          |t.nodes[id].children| == 1 && t.nodes[id].children[0] in t.nodes &&
          t.nodes[t.nodes[id].children[0]] == TreeNode(PlaceholderText, HasChildren, Some(id), [])
        else t.nodes[id].children == [])
  }

  lemma WithBackslashesSnoc(labels: seq<string>, l: string)
    ensures WithBackslashes(labels + [l]) == WithBackslashes(labels) + l + "\\"
  {
    if labels != [] {
      assert (labels + [l])[1..] == labels[1..] + [l];
      WithBackslashesSnoc(labels[1..], l);
    }
  }

  /** Sorting only reorders children: every label, and so every label order, is as before. */
  lemma SortedAfterSort(t: Tree, id: NodeId)
    requires WellFormed(t) && id in t.nodes
    ensures SortedByLabel(SortChildren(t, id), SortChildren(t, id).nodes[id].children)
  {
    var r := SortChildren(t, id);
    SortByLabelSorted(t, t.nodes[id].children);
    forall n
      ensures LabelOf(r, n) == LabelOf(t, n)
    {
    }
  }

  /** The namespace nodes `added` stand, in order, for the namespaces `nss` of `svc`. */
  ghost predicate NamespacesBuilt(t: Tree, added: seq<NodeId>, nss: seq<Handle>, p: Provider, svc: Handle, parent: NodeId)
  {
    |added| <= |nss| &&
    forall k :: 0 <= k < |added| ==>
      NamespaceNode(t, added[k], parent, GetStringProperty(p, nss[k], "NAME"),
                    HasPlaceholder(p, svc, GetStringProperty(p, nss[k], "NAME")))
  }

  /** `t` is `t0` with the namespace nodes `added` (and their placeholders) appended under `parent`. */
  ghost predicate NamespacesInserted(t0: Tree, t: Tree, parent: NodeId, added: seq<NodeId>, nss: seq<Handle>, p: Provider, svc: Handle)
  {
    && WellFormed(t) && parent in t0.nodes && parent in t.nodes && t0.next <= t.next
    && (forall n :: n in t.nodes <==> n in t0.nodes || t0.next <= n < t.next)
    && (forall k :: 0 <= k < |added| ==> t0.next <= added[k] < t.next && parent < added[k])
    && (forall k, j :: 0 <= k < j < |added| ==> added[k] < added[j])
    && NamespacesBuilt(t, added, nss, p, svc, parent)
    && t.nodes[parent] == t0.nodes[parent].(children := t0.nodes[parent].children + added)
    && (forall n :: n in t0.nodes && n != parent ==> t.nodes[n] == t0.nodes[n])
  }

  /** One more namespace node, built as `InsertNamespace` promises, keeps `NamespacesInserted`. */
  lemma NamespacesInsertedStep(t0: Tree, t: Tree, t': Tree, parent: NodeId, added: seq<NodeId>, nss: seq<Handle>,
                               p: Provider, svc: Handle, id: NodeId)
    requires WellFormed(t0) && NamespacesInserted(t0, t, parent, added, nss, p, svc) && |added| < |nss|
    requires WellFormed(t') && id == t.next && t.next < t'.next
    requires forall n :: n in t'.nodes <==> n in t.nodes || t.next <= n < t'.next
    requires NamespaceNode(t', id, parent, GetStringProperty(p, nss[|added|], "NAME"),
                           HasPlaceholder(p, svc, GetStringProperty(p, nss[|added|], "NAME")))
    requires t'.nodes[parent] == t.nodes[parent].(children := t.nodes[parent].children + [id])
    requires forall n :: n in t.nodes && n != parent ==> t'.nodes[n] == t.nodes[n]
    ensures NamespacesInserted(t0, t', parent, added + [id], nss, p, svc)
  {
    assert parent < id by {
      assert parent in t.nodes;
    }
    NamespaceNodesKept(t, t', added, nss, p, svc, parent);
    assert NamespacesBuilt(t', added + [id], nss, p, svc, parent);
    forall n | n in t0.nodes && n != parent
      ensures t'.nodes[n] == t0.nodes[n]
    {
      assert n in t.nodes;
    }
  }

  /** A later insertion under `parent` leaves the namespace nodes already built, and their placeholders, as they were. */
  lemma NamespaceNodesKept(t: Tree, t': Tree, added: seq<NodeId>, nss: seq<Handle>, p: Provider, svc: Handle, parent: NodeId)
    requires WellFormed(t) && NamespacesBuilt(t, added, nss, p, svc, parent)
    requires forall n :: n in t.nodes ==> n in t'.nodes
    requires forall n :: n in t.nodes && n != parent ==> t'.nodes[n] == t.nodes[n]
    requires forall k :: 0 <= k < |added| ==> parent < added[k]
    ensures NamespacesBuilt(t', added, nss, p, svc, parent)
  {
    forall k | 0 <= k < |added|
      ensures NamespaceNode(t', added[k], parent, GetStringProperty(p, nss[k], "NAME"),
                            HasPlaceholder(p, svc, GetStringProperty(p, nss[k], "NAME")))
    {
      var id := added[k];
      if t.nodes[id].children != [] {
        var c := t.nodes[id].children[0];
        assert t.nodes[c].parent == Some(id);
        assert c != parent;
      }
    }
  }

  /** The ids of one built level: the class nodes numbered on from `base`, then the namespace nodes above them, increasing. */
  ghost predicate FreshLevel(base: nat, classNodes: seq<NodeId>, namespaceNodes: seq<NodeId>)
  {
    && (forall i :: 0 <= i < |classNodes| ==> classNodes[i] == base + i)
    && (forall k :: 0 <= k < |namespaceNodes| ==> base + |classNodes| <= namespaceNodes[k])
    && (forall k, j :: 0 <= k < j < |namespaceNodes| ==> namespaceNodes[k] < namespaceNodes[j])
  }

  /** The nodes of a level built on a tree whose next id is `base` are new to it and pairwise distinct. */
  lemma FreshLevelIds(t: Tree, base: nat, classNodes: seq<NodeId>, namespaceNodes: seq<NodeId>)
    requires WellFormed(t) && t.next <= base && FreshLevel(base, classNodes, namespaceNodes)
    ensures forall i, j :: 0 <= i < j < |classNodes + namespaceNodes| ==>
              (classNodes + namespaceNodes)[i] < (classNodes + namespaceNodes)[j]
    ensures forall x :: x in classNodes + namespaceNodes ==> x !in t.nodes
  {
    var all := classNodes + namespaceNodes;
    forall i, j | 0 <= i < j < |all|
      ensures all[i] < all[j]
    {
      if j < |classNodes| {
        assert all[i] == base + i && all[j] == base + j;
      } else if i < |classNodes| {
        assert all[i] == base + i && base + |classNodes| <= all[j];
      } else {
        assert all[i] == namespaceNodes[i - |classNodes|] && all[j] == namespaceNodes[j - |classNodes|];
      }
    }
    forall x | x in all
      ensures x !in t.nodes
    {
      var i :| 0 <= i < |all| && all[i] == x;
      if i < |classNodes| {
        assert x == base + i;
      } else {
        assert base <= namespaceNodes[i - |classNodes|];
      }
    }
  }

  /**
   * `t` is `t0` with `BuildTree`'s two loops run below `parent`: the class leaves,
   * then the namespace nodes, appended at fresh ids; every other node as it was.
   */
  ghost predicate LevelInserted(t0: Tree, t: Tree, parent: NodeId, p: Provider, svc: Handle,
                                classNodes: seq<NodeId>, namespaceNodes: seq<NodeId>)
  {
    && parent in t0.nodes && parent in t.nodes
    && FreshLevel(t0.next, classNodes, namespaceNodes)
    && |classNodes| == |ClassesOf(p, svc)|
    && (forall i :: 0 <= i < |classNodes| ==>
          ClassNode(t, classNodes[i], parent, GetStringProperty(p, ClassesOf(p, svc)[i], "__CLASS")))
    && |namespaceNodes| == |NamespacesOf(p, svc)| && (forall i :: 0 <= i < |namespaceNodes| ==> parent < namespaceNodes[i])
    && NamespacesBuilt(t, namespaceNodes, NamespacesOf(p, svc), p, svc, parent)
    && t.nodes[parent] == t0.nodes[parent].(children := t0.nodes[parent].children + classNodes + namespaceNodes)
    && (forall n :: n in t.nodes <==> n in t0.nodes || t0.next <= n < t.next)
    && (forall n :: n in t0.nodes && n != parent ==> t.nodes[n] == t0.nodes[n])
  }

  /** Sorting the parent's children after the two loops completes the level. */
  lemma SortLevel(t0: Tree, t: Tree, parent: NodeId, p: Provider, svc: Handle,
                  classNodes: seq<NodeId>, namespaceNodes: seq<NodeId>)
    requires WellFormed(t) && LevelInserted(t0, t, parent, p, svc, classNodes, namespaceNodes)
    ensures LevelBuilt(t0, SortChildren(t, parent), parent, p, svc, classNodes, namespaceNodes)
  {
    var r := SortChildren(t, parent);
    SortedAfterSort(t, parent);
    NamespaceNodesKept(t, r, namespaceNodes, NamespacesOf(p, svc), p, svc, parent);
    forall i | 0 <= i < |classNodes|
      ensures ClassNode(r, classNodes[i], parent, GetStringProperty(p, ClassesOf(p, svc)[i], "__CLASS"))
    {
      assert ClassNode(t, classNodes[i], parent, GetStringProperty(p, ClassesOf(p, svc)[i], "__CLASS"));
    }
  }

  /**
   * `t` is `t0` with one level built below `parent` (what `BuildTree` does): a class
   * leaf per class of `svc` and a namespace node per child namespace, at fresh ids;
   * the parent keeps its own fields and gets its children, old and new, sorted by
   * label; every other node is as it was.
   */
  ghost predicate LevelBuilt(t0: Tree, t: Tree, parent: NodeId, p: Provider, svc: Handle,
                             classNodes: seq<NodeId>, namespaceNodes: seq<NodeId>)
  {
    && parent in t0.nodes && parent in t.nodes
    && FreshLevel(t0.next, classNodes, namespaceNodes)
    && |classNodes| == |ClassesOf(p, svc)|
    && (forall i :: 0 <= i < |classNodes| ==>
          ClassNode(t, classNodes[i], parent, GetStringProperty(p, ClassesOf(p, svc)[i], "__CLASS")))
    && |namespaceNodes| == |NamespacesOf(p, svc)|
    && NamespacesBuilt(t, namespaceNodes, NamespacesOf(p, svc), p, svc, parent)
    && multiset(t.nodes[parent].children) == multiset(t0.nodes[parent].children + classNodes + namespaceNodes)
    && SortedByLabel(t, t.nodes[parent].children)
    && t.nodes[parent].(children := []) == t0.nodes[parent].(children := [])
    && (forall n :: n in t.nodes <==> n in t0.nodes || t0.next <= n < t.next)
    && (forall n :: n in t0.nodes && n != parent ==> t.nodes[n] == t0.nodes[n])
  }

  /**
   * `t` is `t0` after a first expansion of `item` (what `OnTreeItemExpanding` does
   * when it loads): the placeholder `first` deleted, then one level built below `item`.
   */
  ghost predicate LevelLoaded(t0: Tree, t: Tree, item: NodeId, first: NodeId, p: Provider, svc: Handle,
                              classNodes: seq<NodeId>, namespaceNodes: seq<NodeId>)
  {
    && WellFormed(t0) && item in t0.nodes && first in t0.nodes && first !in t.nodes && item in t.nodes
    && LevelBuilt(DeleteItem(t0, first), t, item, p, svc, classNodes, namespaceNodes)
    && t.nodes[item].(children := []) == t0.nodes[item].(children := [])
    && multiset(t.nodes[item].children) == multiset(Without(t0.nodes[item].children, first) + classNodes + namespaceNodes)
    && (forall n :: n in t.nodes <==> (n in t0.nodes && n != first) || t0.next <= n < t.next)
    && (forall n :: n in t0.nodes && n != item && n != first ==> t.nodes[n] == t0.nodes[n])
  }

  /** A strictly increasing list holds each of its elements once. */
  lemma {:induction false} IncreasingOnce(s: seq<NodeId>, x: NodeId)
    requires forall i, j :: 0 <= i < j < |s| ==> s[i] < s[j]
    requires x in s
    ensures multiset(s)[x] == 1
  {
    assert s == [s[0]] + s[1..];
    if s[0] == x {
      assert x !in s[1..];
    } else {
      IncreasingOnce(s[1..], x);
    }
  }

  /** Children that are all live items, plus fresh increasing ids: the fresh ids are listed once each. */
  lemma FreshChildrenOnce(t0: Tree, kids: seq<NodeId>, children: seq<NodeId>, classNodes: seq<NodeId>, namespaceNodes: seq<NodeId>)
    requires WellFormed(t0) && (forall c :: c in kids ==> c in t0.nodes)
    requires FreshLevel(t0.next, classNodes, namespaceNodes)
    requires multiset(children) == multiset(kids + classNodes + namespaceNodes)
    ensures |children| == |kids| + |classNodes| + |namespaceNodes|
    ensures forall x :: x in classNodes + namespaceNodes ==> x !in t0.nodes && multiset(children)[x] == 1
  {
    var all := classNodes + namespaceNodes;
    assert kids + classNodes + namespaceNodes == kids + all;
    assert |multiset(children)| == |kids| + |all|;
    FreshLevelIds(t0, t0.next, classNodes, namespaceNodes);
    forall x | x in all
      ensures x !in t0.nodes && multiset(children)[x] == 1
    {
      assert x !in multiset(kids);
      IncreasingOnce(all, x);
    }
  }

  /** After a level is built, the parent lists its old children and every new node, once each. */
  lemma LevelBuiltChildren(t0: Tree, t: Tree, parent: NodeId, p: Provider, svc: Handle,
                           classNodes: seq<NodeId>, namespaceNodes: seq<NodeId>)
    requires WellFormed(t0) && Linked(t0) && LevelBuilt(t0, t, parent, p, svc, classNodes, namespaceNodes)
    ensures |t.nodes[parent].children| == |t0.nodes[parent].children| + |ClassesOf(p, svc)| + |NamespacesOf(p, svc)|
    ensures forall x :: x in classNodes + namespaceNodes ==> x !in t0.nodes && multiset(t.nodes[parent].children)[x] == 1
  {
    assert ChildrenPointBack(t0, parent);
    FreshChildrenOnce(t0, t0.nodes[parent].children, t.nodes[parent].children, classNodes, namespaceNodes);
  }

  /** A first expansion replaces the placeholder, listed once, by the new level. */
  lemma LevelLoadedChildren(t0: Tree, t: Tree, item: NodeId, first: NodeId, p: Provider, svc: Handle,
                            classNodes: seq<NodeId>, namespaceNodes: seq<NodeId>)
    requires WellFormed(t0) && LevelLoaded(t0, t, item, first, p, svc, classNodes, namespaceNodes)
    requires t0.nodes[item].children != [] && t0.nodes[item].children[0] == first && first !in t0.nodes[item].children[1..]
    ensures first !in t.nodes[item].children
    ensures |t.nodes[item].children| == |t0.nodes[item].children| - 1 + |ClassesOf(p, svc)| + |NamespacesOf(p, svc)|
  {
    var kids := t0.nodes[item].children;
    WithoutHead(kids);
    assert |multiset(t.nodes[item].children)| == |kids[1..]| + |classNodes| + |namespaceNodes|;
    assert first !in classNodes + namespaceNodes by {
      FreshLevelIds(t0, t0.next, classNodes, namespaceNodes);
    }
    assert first !in multiset(Without(kids, first) + classNodes + namespaceNodes);
  }

  /**
   * The tree `InitTree` leaves: a fresh ROOT item at the top, with an empty path,
   * its children (none, or the level built) sorted, and every earlier item kept.
   */
  lemma InitTreeRoot(t0: Tree, t: Tree, p: Provider, connection: Option<Handle>,
                     classNodes: seq<NodeId>, namespaceNodes: seq<NodeId>)
    requires WellFormed(t0)
    requires var r := InsertItem(t0, RootLabel, None, Namespace);
             && (connection.None? ==> t == r.0)
             && (connection.Some? ==> WellFormed(t) && LevelBuilt(r.0, t, r.1, p, connection.value, classNodes, namespaceNodes))
    ensures var root := t0.next;
            && root in t.nodes && root !in t0.nodes
            && t.nodes[root].text == RootLabel && t.nodes[root].kind == Namespace && t.nodes[root].parent == None
            && FullPath(t, root) == ""
            && SortedByLabel(t, t.nodes[root].children)
            && (forall n :: n in t0.nodes ==> n in t.nodes && t.nodes[n] == t0.nodes[n])
  {
    var r := InsertItem(t0, RootLabel, None, Namespace);
    if connection.Some? {
      assert t.nodes[r.1].(children := []) == r.0.nodes[r.1].(children := []);
    }
    RootPathEmpty(t, r.1);
  }

  /**
   * Expanding ROOT right after its level is built loads nothing unless some class
   * or child namespace is named like the placeholder: ROOT's first child is then
   * never the placeholder.
   */
  lemma RootExpandLoadsNothing(t0: Tree, t: Tree, root: NodeId, p: Provider, svc: Handle,
                               classNodes: seq<NodeId>, namespaceNodes: seq<NodeId>)
    requires LevelBuilt(t0, t, root, p, svc, classNodes, namespaceNodes) && t0.nodes[root].children == []
    requires forall c :: c in ClassesOf(p, svc) ==> GetStringProperty(p, c, "__CLASS") != PlaceholderText
    requires forall n :: n in NamespacesOf(p, svc) ==> GetStringProperty(p, n, "NAME") != PlaceholderText
    ensures GetItemText(t, GetChildItem(t, root)) != Some(PlaceholderText)
  {
    var kids := t.nodes[root].children;
    if kids != [] {
      var x := kids[0];
      assert x in multiset(t0.nodes[root].children + classNodes + namespaceNodes);
      assert x in t0.nodes[root].children + classNodes + namespaceNodes;
      if x in classNodes {
        var i :| 0 <= i < |classNodes| && classNodes[i] == x;
        assert ClassesOf(p, svc)[i] in ClassesOf(p, svc);
      } else {
        var k :| 0 <= k < |namespaceNodes| && namespaceNodes[k] == x;
        assert NamespacesOf(p, svc)[k] in NamespacesOf(p, svc);
      }
    }
  }

  /** `UpdateList`'s first loop for a class: one row per property. */
  method PushProperties(props: seq<WmiProperty>) returns (list: seq<WmiItem>)
    ensures list == PropertyItems(props)
  {
    list := [];
    var i := 0;
    while i < |props|
      invariant 0 <= i <= |props| && |list| == i
      invariant forall k :: 0 <= k < i ==> list[k] == PropertyItem(props[k])
    {
      list := list + [PropertyItem(props[i])];
      i := i + 1;
    }
  }

  /** `UpdateList`'s second loop for a class: one row per method. */
  method PushMethods(methods: seq<WmiMethod>) returns (list: seq<WmiItem>)
    ensures list == MethodItems(methods)
  {
    list := [];
    var i := 0;
    while i < |methods|
      invariant 0 <= i <= |methods| && |list| == i
      invariant forall k :: 0 <= k < i ==> list[k] == MethodItem(methods[k])
    {
      list := list + [MethodItem(methods[i])];
      i := i + 1;
    }
  }

  /** The rows `UpdateList` pushes for a class: one per property, then one per method. */
  method ClassRows(p: Provider, cls: Handle) returns (list: seq<WmiItem>)
    ensures list == ClassListing(p, cls)
  {
    var props := EnumProperties(p, cls);
    var propertyRows := PushProperties(props);
    var methods := EnumMethods(p, cls, false, false);
    var methodRows := PushMethods(methods);
    list := propertyRows + methodRows;
  }

  /** `UpdateList`'s first loop for a namespace: one row per child namespace. */
  method PushNamespaces(p: Provider, nss: seq<Handle>) returns (list: seq<WmiItem>)
    ensures list == NamespaceItems(p, nss)
  {
    list := [];
    var i := 0;
    while i < |nss|
      invariant 0 <= i <= |nss| && |list| == i
      invariant forall k :: 0 <= k < i ==> list[k] == NamespaceItem(p, nss[k])
    {
      list := list + [NamespaceItem(p, nss[i])];
      i := i + 1;
    }
  }

  /** `UpdateList`'s second loop for a namespace: one row per class. */
  method PushClasses(p: Provider, classes: seq<Handle>) returns (list: seq<WmiItem>)
    ensures list == ClassItems(p, classes)
  {
    list := [];
    var i := 0;
    while i < |classes|
      invariant 0 <= i <= |classes| && |list| == i
      invariant forall k :: 0 <= k < i ==> list[k] == ClassItem(p, classes[k])
    {
      list := list + [ClassItem(p, classes[i])];
      i := i + 1;
    }
  }

  /** The rows `UpdateList` pushes for a namespace: one per child namespace, then one per class. */
  method NamespaceRows(p: Provider, ns: Handle) returns (list: seq<WmiItem>)
    ensures list == NamespaceListing(p, ns)
  {
    var nss := EnumNamespaces(p, ns);
    assert nss == NamespacesOf(p, ns);
    var namespaceRows := PushNamespaces(p, nss);
    var classes := EnumClasses(p, ns, true, false);
    assert classes == ClassesOf(p, ns);
    var classRows := PushClasses(p, classes);
    list := namespaceRows + classRows;
  }

  /** The list for a class has one row per property, then one row per method, and nothing else. */
  lemma ClassListingShape(p: Provider, cls: Handle)
    ensures var props := Yielded(p.properties(cls));
            var methods := MethodRecords(p, cls, Yielded(p.methods(cls, false, false)));
            && |ClassListing(p, cls)| == |props| + |methods|
            && (forall i :: 0 <= i < |props| ==> ClassListing(p, cls)[i].kind == Property && ClassListing(p, cls)[i].name == props[i].name)
            && (forall i :: |props| <= i < |ClassListing(p, cls)| ==>
                  ClassListing(p, cls)[i].kind == Method && ClassListing(p, cls)[i].name == methods[i - |props|].name)
  {
  }

  /** The list for a namespace has one row per child namespace, then one row per class. */
  lemma NamespaceListingShape(p: Provider, ns: Handle)
    ensures && |NamespaceListing(p, ns)| == |NamespacesOf(p, ns)| + |ClassesOf(p, ns)|
            && (forall i :: 0 <= i < |NamespacesOf(p, ns)| ==> NamespaceListing(p, ns)[i].kind == Namespace)
            && (forall i :: |NamespacesOf(p, ns)| <= i < |NamespaceListing(p, ns)| ==> NamespaceListing(p, ns)[i].kind == Class)
  {
  }

  /** No system class (one whose `__DYNASTY` is `__SystemClass`) is listed for a namespace. */
  lemma NamespaceListingHasNoSystemClass(p: Provider, ns: Handle, c: Handle)
    requires c in ClassesOf(p, ns)
    ensures !IsSystemClass(p, c)
  {
    match p.createClassEnum(ns, true)
    case None =>
    case Some(steps) => KeepClassesMembers(p, Yielded(steps), false, c);
  }

  /**
   * The path `OnTreeItemExpanding` opens for a namespace node built under `parent`
   * is the parent's path followed by the node's own name: the namespace `BuildTree`
   * probed relative to the parent's namespace.
   */
  lemma NamespaceNodePath(t: Tree, id: NodeId, parent: NodeId, name: string, placeholder: bool)
    requires WellFormed(t) && NamespaceNode(t, id, parent, name, placeholder)
    requires name != RootLabel && name != [] && name[|name| - 1] != '\\'
    ensures FullPath(t, id) == JoinBackslash(PathLabels(t, Some(parent)) + [name])
  {
    PathLabelsChild(t, id);
    FullPathIsJoin(t, id);
  }

  /** A namespace built with a placeholder has it as its first child, so its first expansion loads it. */
  lemma PlaceholderFirstChild(t: Tree, id: NodeId, parent: NodeId, name: string)
    requires NamespaceNode(t, id, parent, name, true)
    ensures GetItemText(t, GetChildItem(t, id)) == Some(PlaceholderText)
  {
  }

  class Frame {
    /** `m_Tree`. */
    var tree: Tree
    /** `m_hRoot`. */
    var root: NodeId
    /** The tree's selected item. */
    var selected: Option<NodeId>
    /** `m_Items`. */
    var items: seq<WmiItem>
    /** `m_NamespacePath`. */
    var namespacePath: string
    /** `m_spWmi`, the connection to ROOT. */
    var wmi: Option<Handle>
    /** `m_spCurrentNamespace`. */
    var currentNamespace: Option<Handle>
    /** `m_spCurrentClass`. */
    var currentClass: Option<Handle>
    /** The frame's window handle, where instance batches are posted. */
    var window: int

    ghost predicate Valid()
      reads this
    {
      WellFormed(tree) && Linked(tree)
    }

    constructor (hWnd: int)
      ensures Valid()
      ensures tree == Empty() && selected == None && items == [] && namespacePath == ""
      ensures wmi == None && currentNamespace == None && currentClass == None && window == hWnd
    {
      tree := Empty();
      root := 0;
      selected := None;
      items := [];
      namespacePath := "";
      wmi := None;
      currentNamespace := None;
      currentClass := None;
      window := hWnd;
    }

    /** `InsertTreeItem(text, image, hParent, type)`. */
    method InsertTreeItem(text: string, parent: NodeId, kind: NodeType) returns (id: NodeId)
      requires Valid() && parent in tree.nodes
      modifies this
      ensures Valid()
      ensures (tree, id) == InsertItem(old(tree), text, Some(parent), kind)
      ensures root == old(root) && selected == old(selected) && items == old(items)
      ensures namespacePath == old(namespacePath) && wmi == old(wmi)
      ensures currentNamespace == old(currentNamespace) && currentClass == old(currentClass)
    {
      var r := InsertItem(tree, text, Some(parent), kind);
      InsertItemLinked(tree, text, Some(parent), kind);
      tree := r.0;
      id := r.1;
    }

    /** The first loop of `BuildTree`: one class node per class, in enumeration order, appended under the parent. */
    method InsertClasses(p: Provider, classes: seq<Handle>, parent: NodeId) returns (added: seq<NodeId>)
      requires Valid() && parent in tree.nodes
      modifies this
      ensures Valid()
      ensures |added| == |classes| && tree.next == old(tree.next) + |classes|
      ensures forall i :: 0 <= i < |added| ==> added[i] == old(tree.next) + i
      ensures forall n :: n in tree.nodes <==> n in old(tree.nodes) || old(tree.next) <= n < tree.next
      ensures forall i :: 0 <= i < |added| ==> ClassNode(tree, added[i], parent, GetStringProperty(p, classes[i], "__CLASS"))
      ensures tree.nodes[parent] == old(tree.nodes[parent]).(children := old(tree.nodes[parent].children) + added)
      ensures forall n :: n in old(tree.nodes) && n != parent ==> tree.nodes[n] == old(tree.nodes[n])
      ensures root == old(root) && selected == old(selected) && items == old(items)
      ensures namespacePath == old(namespacePath) && wmi == old(wmi)
      ensures currentNamespace == old(currentNamespace) && currentClass == old(currentClass)
    {
      var t0 := tree;
      var t := tree;
      ghost var names: seq<string> := [];
      added := [];
      var i := 0;
      while i < |classes|
        invariant 0 <= i <= |classes| && |names| == i
        invariant forall k :: 0 <= k < i ==> names[k] == GetStringProperty(p, classes[k], "__CLASS")
        invariant unchanged(this) && WellFormed(t0) && ClassesInserted(t0, t, parent, added, names) && Linked(t)
      {
        var name := GetStringProperty(p, classes[i], "__CLASS");
        ClassesInsertedStep(t0, t, parent, added, names, name);
        InsertItemLinked(t, name, Some(parent), Class);
        var r := InsertItem(t, name, Some(parent), Class);
        t := r.0;
        added := added + [r.1];
        names := names + [name];
        i := i + 1;
      }
      tree := t;
    }

    /** One pass of `BuildTree`'s second loop: the namespace node, then its placeholder when the probe succeeds. */
    method InsertNamespace(p: Provider, svc: Handle, name: string, parent: NodeId) returns (id: NodeId)
      requires Valid() && parent in tree.nodes
      modifies this
      ensures Valid()
      ensures id == old(tree.next) && old(tree.next) < tree.next
      ensures forall n :: n in tree.nodes <==> n in old(tree.nodes) || old(tree.next) <= n < tree.next
      ensures NamespaceNode(tree, id, parent, name, HasPlaceholder(p, svc, name))
      ensures tree.nodes[parent] == old(tree.nodes[parent]).(children := old(tree.nodes[parent].children) + [id])
      ensures forall n :: n in old(tree.nodes) && n != parent ==> tree.nodes[n] == old(tree.nodes[n])
      ensures root == old(root) && selected == old(selected) && items == old(items)
      ensures namespacePath == old(namespacePath) && wmi == old(wmi)
      ensures currentNamespace == old(currentNamespace) && currentClass == old(currentClass)
    {
      id := InsertTreeItem(name, parent, Namespace);
      var child := p.openNamespace(svc, name);
      if child.Some? && IsChildNamespaceOrClass(p, child.value) {
        var ph := InsertTreeItem(PlaceholderText, id, HasChildren);
      }
    }

    /**
     * The second loop of `BuildTree`: one namespace node per child namespace, in
     * enumeration order, each with a placeholder child when it can be opened and probed.
     */
    method InsertNamespaces(p: Provider, svc: Handle, nss: seq<Handle>, parent: NodeId) returns (added: seq<NodeId>)
      requires Valid() && parent in tree.nodes
      modifies this
      ensures Valid()
      ensures |added| == |nss| && old(tree.next) <= tree.next
      ensures forall n :: n in tree.nodes <==> n in old(tree.nodes) || old(tree.next) <= n < tree.next
      ensures forall i :: 0 <= i < |added| ==> old(tree.next) <= added[i] < tree.next
      ensures forall i, j :: 0 <= i < j < |added| ==> added[i] < added[j]
      ensures |added| == |nss| && NamespacesBuilt(tree, added, nss, p, svc, parent)
      ensures tree.nodes[parent] == old(tree.nodes[parent]).(children := old(tree.nodes[parent].children) + added)
      ensures forall n :: n in old(tree.nodes) && n != parent ==> tree.nodes[n] == old(tree.nodes[n])
      ensures root == old(root) && selected == old(selected) && items == old(items)
      ensures namespacePath == old(namespacePath) && wmi == old(wmi)
      ensures currentNamespace == old(currentNamespace) && currentClass == old(currentClass)
    {
      ghost var t0 := tree;
      added := [];
      var i := 0;
      while i < |nss|
        invariant 0 <= i <= |nss| && |added| == i
        invariant Valid() && WellFormed(t0) && t0 == old(tree)
        invariant NamespacesInserted(t0, tree, parent, added, nss, p, svc)
        invariant root == old(root) && selected == old(selected) && items == old(items)
        invariant namespacePath == old(namespacePath) && wmi == old(wmi)
        invariant currentNamespace == old(currentNamespace) && currentClass == old(currentClass)
      {
        ghost var before := tree;
        var id := InsertNamespace(p, svc, GetStringProperty(p, nss[i], "NAME"), parent);
        NamespacesInsertedStep(t0, before, tree, parent, added, nss, p, svc, id);
        added := added + [id];
        i := i + 1;
      }
    }

    /** `BuildTree`'s two loops: the class nodes, then the namespace nodes, appended under `parent`. */
    method InsertLevel(p: Provider, svc: Handle, parent: NodeId) returns (classNodes: seq<NodeId>, namespaceNodes: seq<NodeId>)
      requires Valid() && parent in tree.nodes
      modifies this
      ensures Valid() && LevelInserted(old(tree), tree, parent, p, svc, classNodes, namespaceNodes)
      ensures root == old(root) && selected == old(selected) && items == old(items)
      ensures namespacePath == old(namespacePath) && wmi == old(wmi)
      ensures currentNamespace == old(currentNamespace) && currentClass == old(currentClass)
    {
      var classes := EnumClasses(p, svc, true, false);
      classNodes := InsertClasses(p, classes, parent);
      var nss := EnumNamespaces(p, svc);
      namespaceNodes := InsertNamespaces(p, svc, nss, parent);
    }

    /**
     * `BuildTree(svc, hParent)`: one level below `parent` — a node per class (deep,
     * without system classes), a node per child namespace with its placeholder
     * when it has one — and the parent's children sorted by label.
     */
    method BuildTree(p: Provider, svc: Handle, parent: NodeId) returns (classNodes: seq<NodeId>, namespaceNodes: seq<NodeId>)
      requires Valid() && parent in tree.nodes
      modifies this
      ensures Valid() && LevelBuilt(old(tree), tree, parent, p, svc, classNodes, namespaceNodes)
      ensures root == old(root) && selected == old(selected) && items == old(items)
      ensures namespacePath == old(namespacePath) && wmi == old(wmi)
      ensures currentNamespace == old(currentNamespace) && currentClass == old(currentClass)
    {
      classNodes, namespaceNodes := InsertLevel(p, svc, parent);
      SortLevel(old(tree), tree, parent, p, svc, classNodes, namespaceNodes);
      SortChildrenLinked(tree, parent);
      tree := SortChildren(tree, parent);
    }

    /** `GetFullPath(hItem)`: the labels from below ROOT down to the item, joined by backslashes. */
    method GetFullPath(item: NodeId) returns (path: string)
      requires Valid()
      ensures path == FullPath(tree, item)
    {
      var cur: Option<NodeId> := Some(item);
      var acc := "";
      while cur.Some?
        invariant WithBackslashes(PathLabels(tree, Some(item))) == WithBackslashes(PathLabels(tree, cur)) + acc
        decreases if cur.Some? then cur.value + 1 else 0
      {
        var text := GetItemText(tree, cur);
        if text.None? || text.value == RootLabel {
          assert PathLabels(tree, cur) == [];
          break;
        }
        var next := tree.nodes[cur.value].parent;
        assert PathLabels(tree, cur) == PathLabels(tree, next) + [text.value];
        WithBackslashesSnoc(PathLabels(tree, next), text.value);
        acc := text.value + "\\" + acc;
        cur := next;
      }
      assert PathLabels(tree, cur) == [];
      assert acc == WithBackslashes(PathLabels(tree, Some(item)));
      path := TrimRight(acc, '\\');
    }

    /**
     * `InitTree()`: `connection` is what connecting to ROOT yielded. The ROOT node
     * becomes the tree's top item and is selected; with a connection, one level is
     * built below it, at the ids `classNodes` and `namespaceNodes`.
     */
    method InitTree(p: Provider, connection: Option<Handle>)
      returns (ghost classNodes: seq<NodeId>, ghost namespaceNodes: seq<NodeId>)
      requires Valid()
      modifies this
      ensures Valid()
      ensures wmi == connection && currentNamespace == connection
      ensures var r := InsertItem(old(tree), RootLabel, None, Namespace);
              && root == r.1 && selected == Some(root)
              && (connection.None? ==> tree == r.0 && classNodes == [] && namespaceNodes == [])
              && (connection.Some? ==> LevelBuilt(r.0, tree, root, p, connection.value, classNodes, namespaceNodes))
      ensures items == old(items) && namespacePath == old(namespacePath) && currentClass == old(currentClass)
    {
      wmi := connection;
      currentNamespace := wmi;
      var r := InsertItem(tree, RootLabel, None, Namespace);
      InsertItemLinked(tree, RootLabel, None, Namespace);
      tree := r.0;
      root := r.1;
      classNodes, namespaceNodes := [], [];
      if wmi.Some? {
        classNodes, namespaceNodes := BuildTree(p, wmi.value, root);
      }
      selected := Some(root);
    }

    /**
     * `OnTreeItemExpanding`: an item whose first child is the placeholder (or cannot
     * be read) is loaded on first expansion — when its namespace path opens, the
     * namespace becomes current, the placeholder goes and one level is built below
     * the item, at the ids `classNodes` and `namespaceNodes`. Any other expansion
     * changes nothing.
     */
    method OnTreeItemExpanding(p: Provider, item: NodeId)
      returns (ghost classNodes: seq<NodeId>, ghost namespaceNodes: seq<NodeId>)
      requires Valid() && item in tree.nodes && tree.nodes[item].children != [] && wmi.Some?
      modifies this
      ensures Valid()
      ensures var first := old(tree.nodes[item].children[0]);
              var ns := p.openNamespace(old(wmi.value), FullPath(old(tree), item));
              if (first in old(tree.nodes) && old(tree.nodes[first].text) != PlaceholderText) || ns.None? then
                && tree == old(tree) && namespacePath == old(namespacePath) && currentNamespace == old(currentNamespace)
                && classNodes == [] && namespaceNodes == []
              else
                && namespacePath == "ROOT\\" + FullPath(old(tree), item)
                && currentNamespace == ns
                && LevelLoaded(old(tree), tree, item, first, p, ns.value, classNodes, namespaceNodes)
      ensures root == old(root) && selected == old(selected) && items == old(items)
      ensures wmi == old(wmi) && currentClass == old(currentClass)
    {
      classNodes, namespaceNodes := [], [];
      var first := GetChildItem(tree, item);
      var text := GetItemText(tree, first);
      if text.Some? && text.value != PlaceholderText {
        return;
      }
      var path := GetFullPath(item);
      var ns := p.openNamespace(wmi.value, path);
      if ns.Some? {
        namespacePath := "ROOT\\" + path;
        currentNamespace := ns;
        classNodes, namespaceNodes := LoadLevel(p, ns.value, item, first.value);
      }
    }

    /** The successful branch of `OnTreeItemExpanding`: the placeholder is deleted and the level built. */
    method LoadLevel(p: Provider, svc: Handle, item: NodeId, first: NodeId)
      returns (classNodes: seq<NodeId>, namespaceNodes: seq<NodeId>)
      requires Valid() && item in tree.nodes && tree.nodes[item].children != [] && first == tree.nodes[item].children[0]
      modifies this
      ensures Valid() && LevelLoaded(old(tree), tree, item, first, p, svc, classNodes, namespaceNodes)
      ensures root == old(root) && selected == old(selected) && items == old(items) && namespacePath == old(namespacePath)
      ensures wmi == old(wmi) && currentNamespace == old(currentNamespace) && currentClass == old(currentClass)
    {
      assert first in tree.nodes[item].children;
      DeleteChildFrame(tree, item, first);
      DeleteItemLinked(tree, first);
      tree := DeleteItem(tree, first);
      classNodes, namespaceNodes := BuildTree(p, svc, item);
    }

    /**
     * `UpdateList()`: with a class current, its properties then its methods, and an
     * asynchronous request for its instances (named by the selected item's text);
     * otherwise, with a namespace current, its child namespaces then its classes;
     * with neither, an empty list.
     */
    method UpdateList(p: Provider) returns (issued: bool, sink: ObjectSink?)
      requires currentClass.Some? ==> currentNamespace.Some?
      modifies this
      ensures items == (if currentClass.Some? then ClassListing(p, currentClass.value)
                        else if currentNamespace.None? then []
                        else NamespaceListing(p, currentNamespace.value))
      ensures currentClass.None? ==> sink == null
      ensures currentClass.Some? ==>
                && currentNamespace.Some? && sink != null && fresh(sink) && sink.objects == [] && sink.window == window && sink.message == WM_INSTANCES
                && issued == p.createInstanceEnumAsync(currentNamespace.value, GetItemText(tree, selected).GetOr(""), false)
      ensures tree == old(tree) && root == old(root) && selected == old(selected) && window == old(window)
      ensures namespacePath == old(namespacePath) && wmi == old(wmi)
      ensures currentNamespace == old(currentNamespace) && currentClass == old(currentClass)
    {
      items := [];
      issued, sink := false, null;
      if currentClass.Some? {
        var name := GetItemText(tree, selected).GetOr("");
        items := ClassRows(p, currentClass.value);
        var s;
        issued, s := EnumInstancesAsync(p, window, WM_INSTANCES, name, currentNamespace.value, false);
        sink := s;
      } else if currentNamespace.Some? {
        items := NamespaceRows(p, currentNamespace.value);
      }
    }

    /**
     * `OnAddInstances`: a batch posted by the sink is appended to the list, one
     * instance row per object in delivery order, and the sink's reference released.
     */
    method OnAddInstances(p: Provider, cb: ObjectSink)
      modifies this, cb
      ensures items == old(items) + InstanceItems(p, old(cb.objects))
      ensures cb.refs == old(cb.refs) - 1 && cb.objects == old(cb.objects)
      ensures cb.window == old(cb.window) && cb.message == old(cb.message) && cb.posted == old(cb.posted)
      ensures tree == old(tree) && root == old(root) && selected == old(selected) && window == old(window)
      ensures namespacePath == old(namespacePath) && wmi == old(wmi)
      ensures currentNamespace == old(currentNamespace) && currentClass == old(currentClass)
    {
      var count := cb.GetObjectCount();
      var list := items;
      var i := 0;
      while i < count
        invariant 0 <= i <= count && |list| == |old(items)| + i
        invariant forall k :: 0 <= k < |old(items)| ==> list[k] == old(items)[k]
        invariant forall k :: 0 <= k < i ==> list[|old(items)| + k] == InstanceItem(p, cb.objects[k])
      {
        list := list + [InstanceItem(p, cb.GetItem(i))];
        i := i + 1;
      }
      assert list == old(items) + InstanceItems(p, cb.objects);
      items := list;
      cb.Release();
    }

    /**
     * `TreeItemSelected`: the selected item decides what is current. A namespace
     * item makes its namespace current (ROOT's connection for the top item; for
     * any other, the namespace its path opens, if it opens) and no class current;
     * a class item makes the class its namespace yields current. The list is then
     * rebuilt. With no selection nothing is current and the list is kept; an item
     * of any other kind changes nothing.
     */
    method TreeItemSelected(p: Provider) returns (issued: bool, sink: ObjectSink?)
      requires Valid()
      requires selected.Some? ==> selected.value in tree.nodes
      requires selected.Some? && selected.value != root && tree.nodes[selected.value].kind == Namespace ==> wmi.Some?
      requires selected.Some? && tree.nodes[selected.value].kind == Class ==> currentNamespace.Some?
      modifies this
      ensures Valid()
      ensures tree == old(tree) && root == old(root) && selected == old(selected) && wmi == old(wmi) && window == old(window)
      ensures selected.None? ==>
                && currentClass == None && currentNamespace == None && sink == null
                && items == old(items) && namespacePath == old(namespacePath)
      ensures selected.Some? && tree.nodes[selected.value].kind == Namespace ==>
                && currentClass == None && sink == null
                && (if selected.value == root then namespacePath == RootLabel && currentNamespace == wmi
                    else
                      var ns := p.openNamespace(wmi.value, FullPath(tree, selected.value));
                      if ns.Some? then currentNamespace == ns && namespacePath == "ROOT\\" + FullPath(tree, selected.value)
                      else currentNamespace == old(currentNamespace) && namespacePath == old(namespacePath))
                && items == (if currentNamespace.None? then [] else NamespaceListing(p, currentNamespace.value))
      ensures selected.Some? && tree.nodes[selected.value].kind == Class ==>
                && currentNamespace == old(currentNamespace) && namespacePath == old(namespacePath)
                && currentClass == p.getObject(currentNamespace.value, tree.nodes[selected.value].text)
                && items == (if currentClass.Some? then ClassListing(p, currentClass.value)
                             else NamespaceListing(p, currentNamespace.value))
                && (sink != null <==> currentClass.Some?)
                && (currentClass.Some? ==>
                      && issued == p.createInstanceEnumAsync(currentNamespace.value, tree.nodes[selected.value].text, false)
                      && sink != null && fresh(sink) && sink.objects == [] && sink.window == window && sink.message == WM_INSTANCES)
      ensures selected.Some? && tree.nodes[selected.value].kind !in {Namespace, Class} ==>
                && currentClass == old(currentClass) && currentNamespace == old(currentNamespace)
                && items == old(items) && namespacePath == old(namespacePath) && sink == null
    {
      issued, sink := false, null;
      if selected.None? {
        currentClass := None;
        currentNamespace := None;
        return;
      }
      var item := selected.value;
      var path := GetFullPath(item);
      var kind := tree.nodes[item].kind;
      var name := GetItemText(tree, selected).GetOr("");
      match kind {
        case Namespace =>
          if item == root {
            namespacePath := RootLabel;
            currentNamespace := wmi;
          } else {
            var ns := p.openNamespace(wmi.value, path);
            if ns.Some? {
              currentNamespace := ns;
              namespacePath := "ROOT\\" + path;
            }
          }
          currentClass := None;
        case Class =>
          currentClass := None;
          currentClass := p.getObject(currentNamespace.value, name);
        case _ =>
          return;
      }
      issued, sink := UpdateList(p);
    }
  }
}
