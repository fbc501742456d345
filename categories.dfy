/**
 * The category-tree flattener of the categories service: the backend returns
 * one nested tree (every node has `children_data`), and the storefront wants a
 * flat list of category records in pre-order, each carrying the chain of its
 * ancestors.
 */
module Categories {
  import opened Wrappers
  import opened Decimal

  // ---------------------------------------------------------------------------
  // Data model
  // ---------------------------------------------------------------------------

  /** A node of the backend's category tree. */
  datatype Node = Node(id: int, parentId: int, name: string, childrenData: ChildrenData)

  /** The `children_data` field, which a node may lack altogether. */
  datatype ChildrenData = Absent | Present(items: seq<Node>)

  /** One entry of a record's `ancestors` chain. */
  datatype Ancestor = Ancestor(id: string, kind: string)

  datatype ParentRef = ParentRef(id: string)

  /** One output record (the `Category` element type). */
  datatype Category = Category(
    ancestors: seq<Ancestor>,
    id: string,
    name: string,
    description: string,
    slug: string,
    parent: Option<ParentRef>)

  /** The `type` written into every ancestor entry. */
  const CategoryKind: string := "category"

  /**
   * The children a node is traversed into: a missing `children_data` and an
   * empty one both give none.
   */
  function Children(n: Node): (r: seq<Node>)
    ensures forall i :: 0 <= i < |r| ==> r[i] < n
    ensures n.childrenData.Present? ==> r == n.childrenData.items
  {
    if n.childrenData.Present? then n.childrenData.items else []
  }

  /** The ancestor entry a node contributes: its own `parent_id`. */
  function ParentEntry(item: Node): Ancestor {
    Ancestor(IntToString(item.parentId), CategoryKind)
  }

  /** The record pushed for the root of the tree. */
  function RootRecord(root: Node): Category {
    Category([], IntToString(root.id), root.name, root.name, IntToString(root.id), None)
  }

  /** The record `traverse(item, prevAncestors)` pushes. */
  function Record(item: Node, prevAncestors: seq<Ancestor>): Category {
    Category(prevAncestors + [ParentEntry(item)],
             IntToString(item.id), item.name, item.name, IntToString(item.id),
             Some(ParentRef(IntToString(item.parentId))))
  }

  // ---------------------------------------------------------------------------
  // Specification of the traversal
  // ---------------------------------------------------------------------------

  /** Everything `traverse(item, prevAncestors)` appends, in order. */
  function Flatten(item: Node, prevAncestors: seq<Ancestor>): seq<Category>
    decreases item, |Children(item)| + 1
  {
    [Record(item, prevAncestors)]
      + FlattenKids(item, |Children(item)|, Record(item, prevAncestors).ancestors)
  }

  /** Everything the traversals of the first i children of n append. */
  function FlattenKids(n: Node, i: nat, prevAncestors: seq<Ancestor>): seq<Category>
    requires i <= |Children(n)|
    decreases n, i
  {
    if i == 0 then []
    else FlattenKids(n, i - 1, prevAncestors) + Flatten(Children(n)[i - 1], prevAncestors)
  }

  /**
   * The whole result of `formatCategories(root)`; None when the root has no
   * `children_data`, where the source throws.
   */
  function Format(root: Node): Option<seq<Category>> {
    if root.childrenData.Absent? then None
    else Some([RootRecord(root)] + FlattenKids(root, |Children(root)|, []))
  }

  // ---------------------------------------------------------------------------
  // The imperative formatter
  // ---------------------------------------------------------------------------

  /** The `formattedCategories` array and the `traverse` closure that pushes onto it. */
  class Formatter {
    var formatted: seq<Category>

    constructor (root: Node)
      ensures formatted == [RootRecord(root)]
    {
      formatted := [RootRecord(root)];
    }

    /** Pushes the record of item, then traverses its children in order. */
    method Traverse(item: Node, prevAncestors: seq<Ancestor>)
      modifies this
      ensures formatted == old(formatted) + Flatten(item, prevAncestors)
      decreases item
    {
      formatted := formatted + [Record(item, prevAncestors)];
      if item.childrenData.Present? && |item.childrenData.items| > 0 {
        var kids := Children(item);
        // the chain of the record just pushed seeds the children
        var chain := formatted[|formatted| - 1].ancestors;
        ghost var done := old(formatted) + [Record(item, prevAncestors)];
        var i := 0;
        while i < |kids|
          invariant 0 <= i <= |kids|
          invariant formatted == done + FlattenKids(item, i, chain)
        {
          Traverse(kids[i], chain);
          FlattenKidsStep(item, i, chain, done);
          i := i + 1;
        }
      }
    }
  }

  /** One more child traversed appends that child's records. */
  lemma FlattenKidsStep(n: Node, i: nat, prevAncestors: seq<Ancestor>, done: seq<Category>)
    requires i < |Children(n)|
    ensures done + FlattenKids(n, i + 1, prevAncestors)
         == done + FlattenKids(n, i, prevAncestors) + Flatten(Children(n)[i], prevAncestors)
  {
  }

  /** `formatCategories`: None models the TypeError on a root without `children_data`. */
  method FormatCategories(root: Node) returns (r: Option<seq<Category>>)
    ensures r == Format(root)
  {
    var f := new Formatter(root);
    if root.childrenData.Absent? {
      return None;
    }
    var items := root.childrenData.items;
    var i := 0;
    while i < |items|
      invariant 0 <= i <= |items|
      invariant f.formatted == [RootRecord(root)] + FlattenKids(root, i, [])
    {
      f.Traverse(items[i], []);
      FlattenKidsStep(root, i, [], [RootRecord(root)]);
      i := i + 1;
    }
    r := Some(f.formatted);
  }

  // ---------------------------------------------------------------------------
  // Sizes, paths and positions: an independent description of pre-order
  // ---------------------------------------------------------------------------

  /** Number of nodes in the subtree of n, n included. */
  function Size(n: Node): nat
    decreases n, |Children(n)| + 1
  {
    1 + SizeBefore(n, |Children(n)|)
  }

  /** Number of nodes in the subtrees of the first i children of n. */
  function SizeBefore(n: Node, i: nat): nat
    requires i <= |Children(n)|
    decreases n, i
  {
    if i == 0 then 0 else SizeBefore(n, i - 1) + Size(Children(n)[i - 1])
  }

  /** A path of child indices leads from n to a node of its subtree. */
  predicate ValidPath(n: Node, p: seq<nat>)
    decreases p
  {
    p == [] || (p[0] < |Children(n)| && ValidPath(Children(n)[p[0]], p[1..]))
  }

  /** The node p leads to. */
  function NodeAt(n: Node, p: seq<nat>): Node
    requires ValidPath(n, p)
    decreases p
  {
    if p == [] then n else NodeAt(Children(n)[p[0]], p[1..])
  }

  /** The `parent_id` entries of the nodes below n along p, the last node included. */
  function ParentChain(n: Node, p: seq<nat>): (r: seq<Ancestor>)
    requires ValidPath(n, p)
    ensures |r| == |p|
    decreases p
  {
    if p == [] then []
    else [ParentEntry(Children(n)[p[0]])] + ParentChain(Children(n)[p[0]], p[1..])
  }

  /** Pre-order position of the node at p within the subtree of n. */
  function Pos(n: Node, p: seq<nat>): nat
    requires ValidPath(n, p)
    decreases p
  {
    if p == [] then 0 else 1 + SizeBefore(n, p[0]) + Pos(Children(n)[p[0]], p[1..])
  }

  /**
   * Strict pre-order on paths: p is a proper prefix of q (an ancestor comes
   * first), or at the first index where they differ p has the earlier sibling.
   */
  predicate Precedes(p: seq<nat>, q: seq<nat>)
    decreases p
  {
    q != [] && (p == [] || p[0] < q[0] || (p[0] == q[0] && Precedes(p[1..], q[1..])))
  }

  /** Every child's `parent_id` is its parent's `id`, throughout the subtree. */
  predicate Linked(n: Node)
    decreases n
  {
    forall i :: 0 <= i < |Children(n)| ==> Children(n)[i].parentId == n.id && Linked(Children(n)[i])
  }

  // ---------------------------------------------------------------------------
  // Lemmas
  // ---------------------------------------------------------------------------

  lemma {:induction false} SizeBeforeMonotone(n: Node, i: nat, j: nat)
    requires i <= j <= |Children(n)|
    ensures SizeBefore(n, i) <= SizeBefore(n, j)
    decreases j
  {
    if i < j {
      SizeBeforeMonotone(n, i, j - 1);
    }
  }

  lemma {:induction false} FlattenLength(item: Node, prevAncestors: seq<Ancestor>)
    ensures |Flatten(item, prevAncestors)| == Size(item)
    decreases item, |Children(item)| + 1
  {
    FlattenKidsLength(item, |Children(item)|, Record(item, prevAncestors).ancestors);
  }

  /** A node with a missing or empty `children_data` contributes its own record only. */
  lemma FlattenLeaf(item: Node, prevAncestors: seq<Ancestor>)
    requires item.childrenData.Absent? || item.childrenData == Present([])
    ensures Flatten(item, prevAncestors) == [Record(item, prevAncestors)]
  {
  }

  lemma {:induction false} FlattenKidsLength(n: Node, i: nat, prevAncestors: seq<Ancestor>)
    requires i <= |Children(n)|
    ensures |FlattenKids(n, i, prevAncestors)| == SizeBefore(n, i)
    decreases n, i
  {
    if i > 0 {
      FlattenKidsLength(n, i - 1, prevAncestors);
      FlattenLength(Children(n)[i - 1], prevAncestors);
    }
  }

  /** The traversal of child c of n occupies its own slice of the children's output. */
  lemma {:induction false} FlattenKidsSlice(n: Node, m: nat, c: nat, k: nat, prevAncestors: seq<Ancestor>)
    requires c < m <= |Children(n)|
    requires k < Size(Children(n)[c])
    ensures |Flatten(Children(n)[c], prevAncestors)| == Size(Children(n)[c])
    ensures SizeBefore(n, c) + k < |FlattenKids(n, m, prevAncestors)|
    ensures FlattenKids(n, m, prevAncestors)[SizeBefore(n, c) + k]
         == Flatten(Children(n)[c], prevAncestors)[k]
    decreases m
  {
    var front := FlattenKids(n, m - 1, prevAncestors);
    var last := Flatten(Children(n)[m - 1], prevAncestors);
    assert FlattenKids(n, m, prevAncestors) == front + last;
    FlattenKidsLength(n, m - 1, prevAncestors);
    FlattenLength(Children(n)[m - 1], prevAncestors);
    FlattenLength(Children(n)[c], prevAncestors);
    if c < m - 1 {
      FlattenKidsSlice(n, m - 1, c, k, prevAncestors);
      SizeBeforeMonotone(n, c + 1, m - 1);
      assert SizeBefore(n, c + 1) == SizeBefore(n, c) + Size(Children(n)[c]);
      ConcatAt(front, last, SizeBefore(n, c) + k);
    } else {
      ConcatAt(front, last, SizeBefore(n, c) + k);
    }
  }

  /** Indexing into a concatenation. */
  lemma ConcatAt<T>(a: seq<T>, b: seq<T>, i: nat)
    requires i < |a| + |b|
    ensures i < |a| ==> (a + b)[i] == a[i]
    ensures |a| <= i ==> (a + b)[i] == b[i - |a|]
  {
  }

  lemma PushThenTake<T>(a: seq<T>, x: T, s: seq<T>, k: nat)
    requires k <= |s|
    ensures a + ([x] + s)[..k + 1] == (a + [x]) + s[..k]
  {
  }

  /** The record at the pre-order position of p is the record of the node at p. */
  lemma {:induction false} FlattenAt(n: Node, prevAncestors: seq<Ancestor>, p: seq<nat>)
    requires ValidPath(n, p)
    ensures Pos(n, p) < Size(n) == |Flatten(n, prevAncestors)|
    ensures Flatten(n, prevAncestors)[Pos(n, p)]
         == Record(NodeAt(n, p), prevAncestors + ([ParentEntry(n)] + ParentChain(n, p))[..|p|])
    decreases p
  {
    FlattenLength(n, prevAncestors);
    if p != [] {
      var c, q := p[0], p[1..];
      var kids := Children(n);
      var kid := kids[c];
      var chain := Record(n, prevAncestors).ancestors;
      var rest := FlattenKids(n, |kids|, chain);
      assert Flatten(n, prevAncestors) == [Record(n, prevAncestors)] + rest;
      FlattenAt(kid, chain, q);
      FlattenKidsSlice(n, |kids|, c, Pos(kid, q), chain);
      assert Pos(n, p) == 1 + SizeBefore(n, c) + Pos(kid, q);
      assert Flatten(n, prevAncestors)[Pos(n, p)] == rest[SizeBefore(n, c) + Pos(kid, q)];
      assert NodeAt(n, p) == NodeAt(kid, q);
      assert ParentChain(n, p) == [ParentEntry(kid)] + ParentChain(kid, q);
      PushThenTake(prevAncestors, ParentEntry(n), ParentChain(n, p), |q|);
    }
  }

  /** The chain of a node is its parent's chain followed by the node's own `parent_id`. */
  lemma {:induction false} ParentChainExtends(n: Node, p: seq<nat>)
    requires p != [] && ValidPath(n, p)
    ensures ValidPath(n, p[..|p| - 1])
    ensures ParentChain(n, p) == ParentChain(n, p[..|p| - 1]) + [ParentEntry(NodeAt(n, p))]
    decreases p
  {
    if |p| > 1 {
      var q := p[1..];
      ParentChainExtends(Children(n)[p[0]], q);
      assert p[..|p| - 1][1..] == q[..|q| - 1];
    }
  }

  /**
   * When every child names its parent correctly, the j-th ancestor entry of the
   * node at p is the id of the node j steps down from n along p.
   */
  lemma {:induction false} LinkedChainIsLineage(n: Node, p: seq<nat>, j: nat)
    requires Linked(n) && ValidPath(n, p)
    requires j < |p|
    ensures |ParentChain(n, p)| == |p|
    ensures ValidPath(n, p[..j])
    ensures ParentChain(n, p)[j] == Ancestor(IntToString(NodeAt(n, p[..j]).id), CategoryKind)
    decreases p
  {
    var kid := Children(n)[p[0]];
    if j > 0 {
      LinkedChainIsLineage(kid, p[1..], j - 1);
      assert p[..j][1..] == p[1..][..j - 1];
    }
  }

  lemma {:induction false} PosBelowSize(n: Node, p: seq<nat>)
    requires ValidPath(n, p)
    ensures Pos(n, p) < Size(n)
    decreases p
  {
    if p != [] {
      PosBelowSize(Children(n)[p[0]], p[1..]);
      SizeBeforeMonotone(n, p[0] + 1, |Children(n)|);
    }
  }

  /** Pre-order: a node comes before its descendants and before its later siblings' subtrees. */
  lemma {:induction false} PosPreservesOrder(n: Node, p: seq<nat>, q: seq<nat>)
    requires ValidPath(n, p) && ValidPath(n, q)
    requires Precedes(p, q)
    ensures Pos(n, p) < Pos(n, q)
    decreases p
  {
    if p != [] {
      var kid := Children(n)[p[0]];
      if p[0] < q[0] {
        PosBelowSize(kid, p[1..]);
        SizeBeforeMonotone(n, p[0] + 1, q[0]);
      } else {
        PosPreservesOrder(kid, p[1..], q[1..]);
      }
    }
  }

  lemma {:induction false} PrecedesTotal(p: seq<nat>, q: seq<nat>)
    requires p != q
    ensures Precedes(p, q) || Precedes(q, p)
    decreases p
  {
    if p != [] && q != [] && p[0] == q[0] {
      assert p[1..] != q[1..] by {
        assert p == [p[0]] + p[1..] && q == [q[0]] + q[1..];
      }
      PrecedesTotal(p[1..], q[1..]);
    }
  }

  /** No node is emitted twice: distinct nodes have distinct positions. */
  lemma PosInjective(n: Node, p: seq<nat>, q: seq<nat>)
    requires ValidPath(n, p) && ValidPath(n, q)
    requires p != q
    ensures Pos(n, p) != Pos(n, q)
  {
    PrecedesTotal(p, q);
    if Precedes(p, q) {
      PosPreservesOrder(n, p, q);
    } else {
      PosPreservesOrder(n, q, p);
    }
  }

  /** The child whose subtree holds position k of the children's output. */
  lemma {:induction false} ChildAt(n: Node, m: nat, k: nat) returns (c: nat)
    requires m <= |Children(n)|
    requires k < SizeBefore(n, m)
    ensures c < m
    ensures SizeBefore(n, c) <= k < SizeBefore(n, c) + Size(Children(n)[c])
    decreases m
  {
    if k < SizeBefore(n, m - 1) {
      c := ChildAt(n, m - 1, k);
    } else {
      c := m - 1;
    }
  }

  /** No node is skipped: every position of the subtree's output belongs to some path. */
  lemma {:induction false} PathAt(n: Node, k: nat) returns (p: seq<nat>)
    requires k < Size(n)
    ensures ValidPath(n, p) && Pos(n, p) == k
    decreases n
  {
    if k == 0 {
      p := [];
    } else {
      var c := ChildAt(n, |Children(n)|, k - 1);
      var q := PathAt(Children(n)[c], k - 1 - SizeBefore(n, c));
      p := [c] + q;
      assert p[1..] == q;
    }
  }

  // ---------------------------------------------------------------------------
  // The properties of formatCategories
  // ---------------------------------------------------------------------------

  /** A result exists exactly when the root has `children_data`; it holds one record per node. */
  lemma FormatLength(root: Node)
    ensures Format(root).Some? <==> root.childrenData.Present?
    ensures Format(root).Some? ==> |Format(root).value| == Size(root)
  {
    if root.childrenData.Present? {
      FlattenKidsLength(root, |Children(root)|, []);
    }
  }

  /** The first record describes the root and has no ancestors and no parent. */
  lemma FormatFirstIsRoot(root: Node)
    requires root.childrenData.Present?
    ensures Format(root).Some? && |Format(root).value| >= 1
    ensures Format(root).value[0].ancestors == []
    ensures Format(root).value[0].id == IntToString(root.id) == Format(root).value[0].slug
    ensures Format(root).value[0].name == root.name == Format(root).value[0].description
    ensures Format(root).value[0].parent == None
  {
  }

  /** A root whose `children_data` is present but empty gives exactly the root record. */
  lemma FormatLeafRoot(root: Node)
    requires root.childrenData == Present([])
    ensures Format(root) == Some([RootRecord(root)])
  {
    assert Children(root) == [];
    assert FlattenKids(root, 0, []) == [];
    assert [RootRecord(root)] + [] == [RootRecord(root)];
  }

  /**
   * The record at the pre-order position of a node below the root: its id,
   * name, description and slug come from the node, its parent is its
   * `parent_id`, and its ancestors are the `parent_id` entries along the way
   * from the root, one per level.
   */
  lemma FormatAt(root: Node, p: seq<nat>)
    requires root.childrenData.Present?
    requires ValidPath(root, p) && p != []
    ensures Format(root).Some? && Pos(root, p) < |Format(root).value|
    ensures var r := Format(root).value[Pos(root, p)];
      && r.id == IntToString(NodeAt(root, p).id) == r.slug
      && r.name == NodeAt(root, p).name == r.description
      && r.ancestors == ParentChain(root, p)
      && |r.ancestors| == |p|
      && r.parent == Some(ParentRef(r.ancestors[|p| - 1].id))
      && r.ancestors[|p| - 1].id == IntToString(NodeAt(root, p).parentId)
      && forall a :: a in r.ancestors ==> a.kind == CategoryKind
  {
    var chain := ParentChain(root, p);
    var t := NodeAt(root, p);
    FormatRecordAt(root, p);
    ParentChainKinds(root, p);
    ParentChainExtends(root, p);
    LastEntry(chain, ParentChain(root, p[..|p| - 1]), ParentEntry(t));
    DropLastThenPush(chain, ParentEntry(t));
  }

  /** The record at a non-root node's position, before its chain is unfolded. */
  lemma FormatRecordAt(root: Node, p: seq<nat>)
    requires root.childrenData.Present?
    requires ValidPath(root, p) && p != []
    ensures Format(root).Some? && Pos(root, p) < |Format(root).value|
    ensures Format(root).value[Pos(root, p)]
         == Record(NodeAt(root, p), ParentChain(root, p)[..|p| - 1])
  {
    var c, q := p[0], p[1..];
    var kid := Children(root)[c];
    PathStep(root, p);
    FlattenAt(kid, [], q);
    FlattenKidsSlice(root, |Children(root)|, c, Pos(kid, q), []);
    FormatBelowRoot(root, SizeBefore(root, c) + Pos(kid, q));
  }

  /** Past the root record, the output is the children's traversals. */
  lemma FormatBelowRoot(root: Node, i: nat)
    requires root.childrenData.Present?
    requires i < |FlattenKids(root, |Children(root)|, [])|
    ensures Format(root).Some? && 1 + i < |Format(root).value|
    ensures Format(root).value[1 + i] == FlattenKids(root, |Children(root)|, [])[i]
  {
  }

  /** One step down a path: into the first child it names. */
  lemma PathStep(n: Node, p: seq<nat>)
    requires ValidPath(n, p) && p != []
    ensures var kid, q := Children(n)[p[0]], p[1..];
      && ValidPath(kid, q)
      && Pos(n, p) == 1 + SizeBefore(n, p[0]) + Pos(kid, q)
      && NodeAt(n, p) == NodeAt(kid, q)
      && ParentChain(n, p)[..|p| - 1] == [] + ([ParentEntry(kid)] + ParentChain(kid, q))[..|q|]
  {
  }

  lemma LastEntry<T>(s: seq<T>, front: seq<T>, x: T)
    requires s == front + [x]
    ensures |s| > 0 && s[|s| - 1] == x
  {
  }

  lemma DropLastThenPush<T>(s: seq<T>, x: T)
    requires |s| > 0 && s[|s| - 1] == x
    ensures [] + s[..|s| - 1] + [x] == s
  {
  }

  lemma {:induction false} ParentChainKinds(n: Node, p: seq<nat>)
    requires ValidPath(n, p)
    ensures forall a :: a in ParentChain(n, p) ==> a.kind == CategoryKind
    decreases p
  {
    if p != [] {
      ParentChainKinds(Children(n)[p[0]], p[1..]);
    }
  }

  /** Every record of the output, the root's or a descendant's, belongs to exactly one node. */
  lemma FormatCoversEveryNode(root: Node, k: nat) returns (p: seq<nat>)
    requires root.childrenData.Present?
    requires Format(root).Some? && k < |Format(root).value|
    ensures ValidPath(root, p) && Pos(root, p) == k
    ensures forall q :: ValidPath(root, q) && q != p ==> Pos(root, q) != k
  {
    FormatLength(root);
    p := PathAt(root, k);
    forall q | ValidPath(root, q) && q != p
      ensures Pos(root, q) != k
    {
      PosInjective(root, p, q);
    }
  }

  /** Each non-root record's chain is its parent's chain plus one entry. */
  lemma FormatChainExtendsParent(root: Node, p: seq<nat>)
    requires root.childrenData.Present?
    requires ValidPath(root, p) && p != []
    ensures ValidPath(root, p[..|p| - 1])
    ensures Format(root).Some?
    ensures var out := Format(root).value;
      && Pos(root, p[..|p| - 1]) < Pos(root, p) < |out|
      && out[Pos(root, p)].ancestors
         == out[Pos(root, p[..|p| - 1])].ancestors + [Ancestor(IntToString(NodeAt(root, p).parentId), CategoryKind)]
  {
    var up := p[..|p| - 1];
    ParentChainExtends(root, p);
    FormatAt(root, p);
    if up == [] {
      FormatFirstIsRoot(root);
    } else {
      FormatAt(root, up);
    }
    PosPreservesOrder(root, up, p) by {
      PrefixPrecedes(up, p);
    }
  }

  lemma {:induction false} PrefixPrecedes(p: seq<nat>, q: seq<nat>)
    requires |p| < |q| && p == q[..|p|]
    ensures Precedes(p, q)
    decreases p
  {
    if p != [] {
      assert p[1..] == q[1..][..|p| - 1];
      PrefixPrecedes(p[1..], q[1..]);
    }
  }

  /**
   * With consistent backend data, a record's ancestors name the ids of the
   * root and of every node on the way down to its parent, and its parent is the
   * node one level up.
   */
  lemma FormatLinkedAncestors(root: Node, p: seq<nat>, j: nat)
    requires root.childrenData.Present? && Linked(root)
    requires ValidPath(root, p) && j < |p|
    ensures ValidPath(root, p[..j])
    ensures Format(root).Some? && Pos(root, p) < |Format(root).value|
    ensures |Format(root).value[Pos(root, p)].ancestors| == |p|
    ensures Format(root).value[Pos(root, p)].ancestors[j].id == IntToString(NodeAt(root, p[..j]).id)
  {
    FormatAt(root, p);
    LinkedChainIsLineage(root, p, j);
  }
}
