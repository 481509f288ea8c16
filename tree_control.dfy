/**
 * The tree view the explorer drives (`CTreeViewCtrlEx`), as a value: items with
 * a label, the `NodeType` kept in their item data, a parent and an ordered list
 * of children. `InsertItem` appends at `TVI_LAST`, `DeleteItem` unlinks an item,
 * `SortChildren` orders one item's children by label.
 */
module TreeControl {
  import opened Wrappers
  import opened Text
  import opened Formatters

  type NodeId = nat

  datatype TreeNode = TreeNode(text: string, kind: NodeType, parent: Option<NodeId>, children: seq<NodeId>)

  /** `nodes` are the live items; `next` is the handle the next insertion receives. */
  datatype Tree = Tree(nodes: map<NodeId, TreeNode>, next: NodeId)

  /** Handles are issued in increasing order, so a parent is always older than its children. */
  ghost predicate WellFormed(t: Tree)
  {
    forall n :: n in t.nodes ==>
      && n < t.next
      && (t.nodes[n].parent.Some? ==> t.nodes[n].parent.value < n)
      && (forall c :: c in t.nodes[n].children ==> n < c)
  }

  /** The children listed under `n` are live items whose parent is `n`. */
  ghost predicate ChildrenPointBack(t: Tree, n: NodeId)
  {
    n in t.nodes && forall c :: c in t.nodes[n].children ==> c in t.nodes && t.nodes[c].parent == Some(n)
  }

  /** The tree view keeps both directions of every link: a listed child's parent is the item listing it. */
  ghost predicate Linked(t: Tree)
  {
    forall n {:trigger ChildrenPointBack(t, n)} :: n in t.nodes ==> ChildrenPointBack(t, n)
  }

  function Empty(): (t: Tree)
    ensures WellFormed(t) && Linked(t) && t.nodes == map[]
  {
    Tree(map[], 0)
  }

  /** `InsertItem(text, hParent, TVI_LAST)` plus `SetItemData(type)`: a new leaf, last among its parent's children. */
  function InsertItem(t: Tree, text: string, parent: Option<NodeId>, kind: NodeType): (r: (Tree, NodeId))
    requires WellFormed(t)
    requires parent.Some? ==> parent.value in t.nodes
    ensures WellFormed(r.0)
    ensures r.1 == t.next && r.1 !in t.nodes && r.0.next == t.next + 1
    ensures r.0.nodes.Keys == t.nodes.Keys + {r.1}
    ensures r.0.nodes[r.1] == TreeNode(text, kind, parent, [])
    ensures parent.Some? ==> r.0.nodes[parent.value] == t.nodes[parent.value].(children := t.nodes[parent.value].children + [r.1])
    ensures forall n :: n in t.nodes && Some(n) != parent ==> r.0.nodes[n] == t.nodes[n]
  {
    var id := t.next;
    var nodes := t.nodes[id := TreeNode(text, kind, parent, [])];
    var nodes' := if parent.Some? then nodes[parent.value := t.nodes[parent.value].(children := t.nodes[parent.value].children + [id])] else nodes;
    (Tree(nodes', id + 1), id)
  }

  /** `DeleteItem(h)`: the item disappears and leaves its parent's child list. */
  function DeleteItem(t: Tree, id: NodeId): (r: Tree)
    requires WellFormed(t)
    ensures WellFormed(r)
    ensures r.nodes.Keys == t.nodes.Keys - {id} && r.next == t.next
    ensures id !in t.nodes ==> r == t
    ensures id in t.nodes ==> forall n :: n in r.nodes ==>
              r.nodes[n] == (if t.nodes[id].parent == Some(n) then t.nodes[n].(children := Without(t.nodes[n].children, id)) else t.nodes[n])
  {
    if id !in t.nodes then t
    else
      var nodes := t.nodes - {id};
      match t.nodes[id].parent
      case Some(p) =>
        if p in nodes then Tree(nodes[p := nodes[p].(children := Without(nodes[p].children, id))], t.next)
        else Tree(nodes, t.next)
      case None => Tree(nodes, t.next)
  }

  /** A list with every occurrence of `x` removed, the others kept in order. */
  function Without(s: seq<NodeId>, x: NodeId): (r: seq<NodeId>)
    ensures x !in r && forall y :: y in r <==> y in s && y != x
    ensures |r| <= |s|
    ensures x !in s ==> r == s
  {
    if s == [] then [] else (if s[0] == x then [] else [s[0]]) + Without(s[1..], x)
  }

  /** Removing `x` works piecewise, so the siblings left keep their order and their number. */
  lemma {:induction false} WithoutAppend(a: seq<NodeId>, b: seq<NodeId>, x: NodeId)
    ensures Without(a + b, x) == Without(a, x) + Without(b, x)
  {
    if a == [] {
      assert a + b == b;
    } else {
      assert (a + b)[0] == a[0];
      assert (a + b)[1..] == a[1..] + b;
      WithoutAppend(a[1..], b, x);
    }
  }

  /** A list holding `x` exactly once, at its head, loses only that head. */
  lemma WithoutHead(s: seq<NodeId>)
    requires s != [] && s[0] !in s[1..]
    ensures Without(s, s[0]) == s[1..]
  {
  }

  // ---------------------------------------------------------------------------
  // Links

  lemma InsertItemLinked(t: Tree, text: string, parent: Option<NodeId>, kind: NodeType)
    requires WellFormed(t) && Linked(t)
    requires parent.Some? ==> parent.value in t.nodes
    ensures Linked(InsertItem(t, text, parent, kind).0)
  {
    var r := InsertItem(t, text, parent, kind);
    forall n | n in r.0.nodes
      ensures ChildrenPointBack(r.0, n)
    {
      if n != r.1 {
        assert ChildrenPointBack(t, n);
        forall c | c in r.0.nodes[n].children
          ensures c in r.0.nodes && r.0.nodes[c].parent == Some(n)
        {
          if c != r.1 {
            assert c in t.nodes[n].children;
          }
        }
      }
    }
  }

  lemma DeleteItemLinked(t: Tree, id: NodeId)
    requires WellFormed(t) && Linked(t)
    ensures Linked(DeleteItem(t, id))
  {
    var r := DeleteItem(t, id);
    if id in t.nodes {
      forall n | n in r.nodes
        ensures ChildrenPointBack(r, n)
      {
        assert ChildrenPointBack(t, n);
        forall c | c in r.nodes[n].children
          ensures c in r.nodes && r.nodes[c].parent == Some(n)
        {
          assert c in t.nodes[n].children;
          assert c != id;
        }
      }
    }
  }

  lemma SortChildrenLinked(t: Tree, id: NodeId)
    requires WellFormed(t) && Linked(t)
    ensures Linked(SortChildren(t, id))
  {
    var r := SortChildren(t, id);
    forall n | n in r.nodes
      ensures ChildrenPointBack(r, n)
    {
      assert ChildrenPointBack(t, n);
      forall c | c in r.nodes[n].children
        ensures c in r.nodes && r.nodes[c].parent == Some(n)
      {
        if n == id {
          assert c in multiset(SortByLabel(t, t.nodes[id].children));
        }
        assert c in t.nodes[n].children;
      }
    }
  }

  /** Deleting a listed child touches only that child and the item listing it. */
  lemma DeleteChildFrame(t: Tree, item: NodeId, c: NodeId)
    requires WellFormed(t) && Linked(t) && item in t.nodes && c in t.nodes[item].children
    ensures c in t.nodes && c !in DeleteItem(t, c).nodes
    ensures item in DeleteItem(t, c).nodes
    ensures DeleteItem(t, c).nodes[item] == t.nodes[item].(children := Without(t.nodes[item].children, c))
    ensures forall n :: n in t.nodes && n != item && n != c ==> n in DeleteItem(t, c).nodes && DeleteItem(t, c).nodes[n] == t.nodes[n]
  {
    assert ChildrenPointBack(t, item);
  }

  /** `GetItemText(h)`: fails (None) on a handle that is not a live item. */
  function GetItemText(t: Tree, id: Option<NodeId>): (r: Option<string>)
    ensures r.Some? <==> id.Some? && id.value in t.nodes
    ensures r.Some? ==> r.value == t.nodes[id.value].text
  {
    if id.Some? && id.value in t.nodes then Some(t.nodes[id.value].text) else None
  }

  /** `GetChildItem(h)`: the first child, or null. */
  function GetChildItem(t: Tree, id: NodeId): (r: Option<NodeId>)
    ensures r.None? <==> id !in t.nodes || t.nodes[id].children == []
    ensures r.Some? ==> r.value == t.nodes[id].children[0]
    ensures Linked(t) && r.Some? ==> r.value in t.nodes && t.nodes[r.value].parent == Some(id)
  {
    assert id in t.nodes && Linked(t) ==> ChildrenPointBack(t, id);
    if id in t.nodes && t.nodes[id].children != [] then Some(t.nodes[id].children[0]) else None
  }

  // ---------------------------------------------------------------------------
  // SortChildren

  function LabelOf(t: Tree, id: NodeId): string
  {
    if id in t.nodes then t.nodes[id].text else ""
  }

  /** The label order used for sorting: equal ignoring case, or less ignoring case. */
  predicate LabelLe(a: string, b: string)
  {
    FoldCase(a) == FoldCase(b) || LessNoCase(a, b)
  }

  predicate SortedByLabel(t: Tree, ids: seq<NodeId>)
  {
    forall i, j :: 0 <= i < j < |ids| ==> LabelLe(LabelOf(t, ids[i]), LabelOf(t, ids[j]))
  }

  lemma {:induction false} LexLessTransitive(x: string, y: string, z: string)
    requires LexLess(x, y) && LexLess(y, z)
    ensures LexLess(x, z)
  {
    if x != [] && y != [] && z != [] && x[0] == y[0] && y[0] == z[0] {
      LexLessTransitive(x[1..], y[1..], z[1..]);
    }
  }

  lemma LabelLeTransitive(a: string, b: string, c: string)
    requires LabelLe(a, b) && LabelLe(b, c)
    ensures LabelLe(a, c)
  {
    if LessNoCase(a, b) && LessNoCase(b, c) {
      LexLessTransitive(FoldCase(a), FoldCase(b), FoldCase(c));
    }
  }

  lemma LabelLeTotal(a: string, b: string)
    ensures LabelLe(a, b) || LabelLe(b, a)
  {
    if FoldCase(a) != FoldCase(b) {
      LexLessTotal(FoldCase(a), FoldCase(b));
    }
  }

  /** Places `x` before the first element not below it. */
  function InsertByLabel(t: Tree, x: NodeId, s: seq<NodeId>): (r: seq<NodeId>)
    ensures multiset(r) == multiset(s) + multiset{x}
  {
    if s == [] || LabelLe(LabelOf(t, x), LabelOf(t, s[0])) then [x] + s
    else assert s == [s[0]] + s[1..]; [s[0]] + InsertByLabel(t, x, s[1..])
  }

  /** The children as `SortChildren` leaves them: ordered by label ignoring case. */
  function SortByLabel(t: Tree, s: seq<NodeId>): (r: seq<NodeId>)
    ensures multiset(r) == multiset(s)
  {
    if s == [] then [] else assert s == [s[0]] + s[1..]; InsertByLabel(t, s[0], SortByLabel(t, s[1..]))
  }

  /** Every item of `s` is at or above `b`. */
  predicate AllAbove(t: Tree, b: string, s: seq<NodeId>)
  {
    forall k :: 0 <= k < |s| ==> LabelLe(b, LabelOf(t, s[k]))
  }

  lemma SortedHeadBelow(t: Tree, b: string, s: seq<NodeId>)
    requires s != [] && SortedByLabel(t, s) && LabelLe(b, LabelOf(t, s[0]))
    ensures AllAbove(t, b, s)
  {
    forall k | 0 <= k < |s|
      ensures LabelLe(b, LabelOf(t, s[k]))
    {
      if k > 0 {
        LabelLeTransitive(b, LabelOf(t, s[0]), LabelOf(t, s[k]));
      }
    }
  }

  lemma {:induction false} InsertKeepsAbove(t: Tree, b: string, x: NodeId, s: seq<NodeId>)
    requires AllAbove(t, b, s) && LabelLe(b, LabelOf(t, x))
    ensures AllAbove(t, b, InsertByLabel(t, x, s))
  {
    if s != [] && !LabelLe(LabelOf(t, x), LabelOf(t, s[0])) {
      InsertKeepsAbove(t, b, x, s[1..]);
    }
  }

  lemma SortedCons(t: Tree, h: NodeId, rest: seq<NodeId>)
    requires SortedByLabel(t, rest) && AllAbove(t, LabelOf(t, h), rest)
    ensures SortedByLabel(t, [h] + rest)
  {
    var r := [h] + rest;
    forall i, j | 0 <= i < j < |r|
      ensures LabelLe(LabelOf(t, r[i]), LabelOf(t, r[j]))
    {
      if i > 0 {
        assert r[i] == rest[i - 1] && r[j] == rest[j - 1];
      } else {
        assert r[j] == rest[j - 1];
      }
    }
  }

  lemma {:induction false} InsertByLabelSorted(t: Tree, x: NodeId, s: seq<NodeId>)
    requires SortedByLabel(t, s)
    ensures SortedByLabel(t, InsertByLabel(t, x, s))
  {
    if s == [] {
    } else if LabelLe(LabelOf(t, x), LabelOf(t, s[0])) {
      SortedHeadBelow(t, LabelOf(t, x), s);
      SortedCons(t, x, s);
    } else {
      assert SortedByLabel(t, s[1..]);
      InsertByLabelSorted(t, x, s[1..]);
      LabelLeTotal(LabelOf(t, x), LabelOf(t, s[0]));
      assert AllAbove(t, LabelOf(t, s[0]), s[1..]) by {
        forall k | 0 <= k < |s[1..]|
          ensures LabelLe(LabelOf(t, s[0]), LabelOf(t, s[1..][k]))
        {
          assert s[1..][k] == s[k + 1];
        }
      }
      InsertKeepsAbove(t, LabelOf(t, s[0]), x, s[1..]);
      SortedCons(t, s[0], InsertByLabel(t, x, s[1..]));
    }
  }

  /** `SortChildren` leaves a list in label order and holding the same items. */
  lemma {:induction false} SortByLabelSorted(t: Tree, s: seq<NodeId>)
    ensures SortedByLabel(t, SortByLabel(t, s))
    ensures multiset(SortByLabel(t, s)) == multiset(s)
  {
    if s != [] {
      SortByLabelSorted(t, s[1..]);
      InsertByLabelSorted(t, s[0], SortByLabel(t, s[1..]));
    }
  }

  /** `SortChildren(h)`. */
  function SortChildren(t: Tree, id: NodeId): (r: Tree)
    requires WellFormed(t)
    ensures WellFormed(r)
    ensures r.nodes.Keys == t.nodes.Keys && r.next == t.next
    ensures id in t.nodes ==> r.nodes[id] == t.nodes[id].(children := SortByLabel(t, t.nodes[id].children))
    ensures forall n :: n in t.nodes && n != id ==> r.nodes[n] == t.nodes[n]
  {
    if id !in t.nodes then t
    else
      var sorted := SortByLabel(t, t.nodes[id].children);
      assert forall c :: c in sorted ==> c in t.nodes[id].children by {
        forall c | c in sorted
          ensures c in t.nodes[id].children
        {
          assert c in multiset(sorted);
        }
      }
      Tree(t.nodes[id := t.nodes[id].(children := sorted)], t.next)
  }

  // ---------------------------------------------------------------------------
  // The path of an item

  const RootLabel := "ROOT"

  /** The labels from the outermost ancestor below the first "ROOT" item down to the item itself. */
  function PathLabels(t: Tree, id: Option<NodeId>): seq<string>
    requires WellFormed(t)
    decreases if id.Some? then id.value + 1 else 0
  {
    if id.None? || id.value !in t.nodes || t.nodes[id.value].text == RootLabel then []
    else PathLabels(t, t.nodes[id.value].parent) + [t.nodes[id.value].text]
  }

  /** Every label followed by a backslash. */
  function WithBackslashes(labels: seq<string>): string
  {
    if labels == [] then "" else labels[0] + "\\" + WithBackslashes(labels[1..])
  }

  /** The labels separated by single backslashes. */
  function JoinBackslash(labels: seq<string>): string
  {
    if labels == [] then ""
    else if |labels| == 1 then labels[0]
    else labels[0] + "\\" + JoinBackslash(labels[1..])
  }

  /** The path `GetFullPath` returns for an item. */
  function FullPath(t: Tree, id: NodeId): string
    requires WellFormed(t)
  {
    TrimRight(WithBackslashes(PathLabels(t, Some(id))), '\\')
  }

  lemma {:induction false} WithBackslashesJoin(labels: seq<string>)
    requires labels != []
    ensures WithBackslashes(labels) == JoinBackslash(labels) + "\\"
  {
    if |labels| > 1 {
      WithBackslashesJoin(labels[1..]);
    }
  }

  lemma {:induction false} JoinBackslashLast(labels: seq<string>)
    requires labels != [] && labels[|labels| - 1] != []
    ensures JoinBackslash(labels) != [] && JoinBackslash(labels)[|JoinBackslash(labels)| - 1] == labels[|labels| - 1][|labels[|labels| - 1]| - 1]
  {
    if |labels| > 1 {
      JoinBackslashLast(labels[1..]);
    }
  }

  /** The "ROOT" item itself has the empty path. */
  lemma RootPathEmpty(t: Tree, id: NodeId)
    requires WellFormed(t) && id in t.nodes && t.nodes[id].text == RootLabel
    ensures FullPath(t, id) == ""
  {
  }

  /**
   * When the item's own label is non-empty and does not end in a backslash, the
   * path is exactly the labels joined by backslashes: trimming removes only the
   * separator written after the last label.
   */
  lemma FullPathIsJoin(t: Tree, id: NodeId)
    requires WellFormed(t) && id in t.nodes && t.nodes[id].text != RootLabel
    requires t.nodes[id].text != [] && t.nodes[id].text[|t.nodes[id].text| - 1] != '\\'
    ensures FullPath(t, id) == JoinBackslash(PathLabels(t, Some(id)))
  {
    var labels := PathLabels(t, Some(id));
    WithBackslashesJoin(labels);
    JoinBackslashLast(labels);
    var j := JoinBackslash(labels);
    assert WithBackslashes(labels) == j + "\\";
    assert TrimRight(j + "\\", '\\') == TrimRight(j, '\\') by {
      assert (j + "\\")[..|j + "\\"| - 1] == j;
    }
  }

  /** Below a non-ROOT parent, an item's path is the parent's labels followed by its own. */
  lemma PathLabelsChild(t: Tree, id: NodeId)
    requires WellFormed(t) && id in t.nodes && t.nodes[id].text != RootLabel
    ensures PathLabels(t, Some(id)) == PathLabels(t, t.nodes[id].parent) + [t.nodes[id].text]
  {
  }
}
