/** BplusTreeHandler: the pages of an index file and the operations on them. */
module IndexHandler {
  import opened Keys
  import opened BTree
  import opened BTreeInsert
  import opened BTreeDelete
  import opened BTreeBorrow
  import opened BTreeScan
  import opened BTreeShrink
  import opened Comparisons
  import opened IndexPages

  datatype RC = SUCCESS | RECORD_DUPLICATE_KEY | RECORD_INVALID_KEY | RECORD_EOF
              | RECORD_NO_MORE_IDX_IN_MEM | RECORD_CLOSED | RECORD_OPENNED | RECORD_SCANCLOSED

  lemma SplitLeafViews(t: Tree, p: int, pos: nat, key: Key, n: int)
    requires p in t.pages && t.pages[p].Leaf? && p in t.info && n != p && t.order >= 3
    requires pos <= |t.pages[p].keys| == |t.pages[p].rids| == t.order - 1
    ensures SplitLeaf(LeafInsert(t, p, pos, key), p, n).pages
         == t.pages[p := LowLeaf(t.pages[p], pos, key, key.rid, n)][n := HighLeaf(t.pages[p], pos, key, key.rid)]
    ensures HighLeaf(t.pages[p], pos, key, key.rid).keys[0] == LeafInsert(t, p, pos, key).pages[p].keys[t.order / 2]
  {
  }

  lemma HalveInnerViews(t: Tree, p: int, l: int, key: Key, r: int, n: int, u: Tree)
    requires p in t.pages && t.pages[p].Inner? && p in t.info && n != p && t.order >= 3 && p != NO_PAGE
    requires l in t.pages[p].kids && |t.pages[p].kids| == t.order && |t.pages[p].keys| == t.order - 1 && l in t.info
    requires u == Linked(t, p, l, key, r) && |u.pages[p].keys| == t.order && |u.pages[p].kids| == t.order + 1
    ensures p in u.pages && u.pages[p].Inner? && p in u.info
    ensures u.order == t.order && HalveInner(u, p, n).order == t.order && HalveInner(u, p, n).root == t.root
    ensures HalveInner(u, p, n).pages == t.pages[p := LowInner(t.pages[p], IndexOf(t.pages[p].kids, l), key, r)]
                                                [n := HighInner(t.pages[p], IndexOf(t.pages[p].kids, l), key, r)]
    ensures UpKey(u, p) == Insert(t.pages[p].keys, IndexOf(t.pages[p].kids, l), key)[(t.order + 1) / 2 - 1]
  {
    hide Insert, IndexOf;
    var v, h := t.pages[p], HalveInner(u, p, n);
    var pos := IndexOf(v.kids, l);
    assert u.pages[p] == Inner(v.parent, Insert(v.keys, pos, key), Insert(v.kids, pos + 1, r));
    assert h.pages[p] == LowInner(v, pos, key, r) && h.pages[n] == HighInner(v, pos, key, r);
    assert h.pages == t.pages[p := h.pages[p]][n := h.pages[n]];
  }

  lemma HighKids(u: Tree, p: int, n: int)
    requires p in u.pages && p in u.info && u.pages[p].Inner? && |u.pages[p].keys| == u.order >= 3 && |u.pages[p].kids| == u.order + 1
    ensures n in HalveInner(u, p, n).pages && var kids := HalveInner(u, p, n).pages[n].kids;
      kids[0..] == kids && forall c :: c in kids ==> c in u.pages[p].kids
  {
  }

  /** What is known of an internal page that is full before it receives another child. */
  lemma OverfullInner(t: Tree, p: int, l: int, key: Key, r: int, u: Tree)
    requires p != NO_PAGE && CanLink(t, p, l) && u == Linked(t, p, l, key, r) && Shape(u, p, 0)
    requires |t.pages[p].keys| == t.order - 1 && l in t.pages && r in t.pages
    ensures p in t.info && t.order >= 3 && |t.pages[p].kids| == t.order
    ensures |u.pages[p].keys| == t.order && |u.pages[p].kids| == t.order + 1
    ensures forall c :: c in t.pages[p].kids || c == r ==> c in t.pages
    ensures u.info[p].lvl == u.info[l].lvl + 1 && u.info[p].lvl <= u.info[u.root].lvl
    ensures NO_PAGE !in t.pages ==> forall n :: n > 0 && n !in t.pages ==> CanSplit(u, p, n, false)
  {
    assert PageShape(u, p, p, 0);
    InsKidHas(t.pages[p], l, key, r);
    forall c | c in t.pages[p].kids ensures c in t.pages {
      KidsOf(u, p, 0, p, c);
    }
    var i :| 0 <= i < |u.pages[p].kids| && u.pages[p].kids[i] == l;
    assert IsKid(u, p, u.pages[p].kids[i]);
  }

  /** What is known of the parent before it receives another child. */
  lemma LinkFacts(t: Tree, p: int, l: int, key: Key, r: int, u: Tree)
    requires p != NO_PAGE && CanLink(t, p, l) && u == Linked(t, p, l, key, r) && Shape(u, p, 0)
    ensures p in t.pages && t.pages[p].Inner? && l in t.pages[p].kids && l in t.info && u.order == t.order
    ensures u == t.(pages := t.pages[p := InsKid(t.pages[p], l, key, r)])
    ensures |u.pages[p].keys| == |t.pages[p].keys| + 1 <= t.order && u.pages[p].parent == t.pages[p].parent
    ensures u.root in u.info && SameLeaves(u, u)
  {
    assert PageShape(u, p, p, 0);
    InsKidHas(t.pages[p], l, key, r);
  }

  /** A split of an internal page up to the parent. */
  lemma SplitInnerStep(u: Tree, p: int, n: int)
    requires CanSplit(u, p, n, false)
    ensures p in u.pages && p in u.info && u.pages[p].Inner? && |u.pages[p].keys| == u.order >= 3 && |u.pages[p].kids| == u.order + 1
    ensures CanLink(SplitInner(u, p, n), u.pages[p].parent, p)
    ensures Linked(SplitInner(u, p, n), u.pages[p].parent, p, UpKey(u, p), n) == SplitInnerLinked(u, p, n)
    ensures Shape(SplitInnerLinked(u, p, n), u.pages[p].parent, 0)
    ensures Ordered(u) ==> Ordered(SplitInnerLinked(u, p, n))
    ensures SameLeaves(u, SplitInnerLinked(u, p, n))
    ensures SplitInnerLinked(u, p, n).info[p].lvl == u.info[p].lvl
    ensures u.pages[p].parent != NO_PAGE ==>
      SplitInnerLinked(u, p, n).info[SplitInnerLinked(u, p, n).root].lvl == u.info[u.root].lvl
    ensures SplitInner(u, p, n).pages[p].parent == u.pages[p].parent
  {
    SplitInnerFrame(u, p, n);
    SplitInnerShape(u, p, n);
    if Ordered(u) { SplitInnerOrder(u, p, n); }
    SplitInnerIsRel(u, p, n);
    SplitInnerLeaves(u, p, n, SplitInnerLinked(u, p, n));
  }

  lemma SplitInnerLeaves(u: Tree, p: int, n: int, u': Tree)
    requires CanSplit(u, p, n, false) && SplitInnerRel(u, p, n, u')
    ensures SameLeaves(u, u')
  {
  }

  /** A new root page is filled, its children are told, and it is made the root. */
  lemma GrowRootPages(t: Tree, l: int, key: Key, r: int, n: int, a: Tree, b: Tree)
    requires l in t.pages && r in t.pages && l in t.info && n !in t.pages
    requires a == t.(pages := t.pages[n := Inner(NO_PAGE, [key], [l, r])], info := t.info[n := Info(t.info[l].lvl + 1, Open, Open)])
    requires var m := a.pages[l := a.pages[l].(parent := n)];
      b == a.(pages := m[r := m[r].(parent := n)])
    ensures b.(root := n) == GrowRoot(t, l, key, r, n)
  {
    assert b.pages == GrowRoot(t, l, key, r, n).pages;
  }

  lemma GrowRootStep(t: Tree, l: int, key: Key, r: int, n: int, u: Tree)
    requires l in t.info && u == Linked(t, NO_PAGE, l, key, r) && Shape(u, NO_PAGE, 0)
    requires l in t.pages && r in t.pages && NO_PAGE !in t.pages && n > 0 && n !in t.pages
    ensures Shape(GrowRoot(t, l, key, r, n), 0, 0)
    ensures Ordered(u) ==> Ordered(GrowRoot(t, l, key, r, n))
    ensures SameLeaves(u, GrowRoot(t, l, key, r, n))
  {
    GrowRootShape(t, l, key, r, n);
    if Ordered(u) { GrowRootOrder(t, l, key, r, n); }
  }

  lemma LeafFacts(t: Tree, p: int, k: Key)
    requires WF(t) && p in t.pages && t.pages[p].Leaf? && p in t.info && Within(t.info[p], Rank(k))
    ensures Sorted(t.pages[p].keys) && |t.pages[p].rids| == |t.pages[p].keys|
    ensures NO_PAGE !in t.pages
    ensures Has(t, k) <==> k in t.pages[p].keys
  {
    assert PageShape(t, p, 0, 0) && PageOrder(t, p);
    FoundInItsLeaf(t, 0, 0, p, k);
  }

  lemma LeafInsertOutcome(t: Tree, p: int, i: nat, k: Key)
    requires WF(t) && p in t.pages && t.pages[p].Leaf? && p in t.info && Within(t.info[p], Rank(k))
    requires |t.pages[p].keys| == |t.pages[p].rids| < t.order - 1 && IsPlace(t.pages[p].keys, i, k) && k !in t.pages[p].keys
    ensures WF(LeafInsert(t, p, i, k))
    ensures forall k' :: Has(LeafInsert(t, p, i, k), k') <==> Has(t, k') || k' == k
  {
    LeafInsertShape(t, p, i, k);
    LeafInsertOrder(t, p, i, k);
    forall k' { LeafInsertHas(t, p, i, k, k'); }
  }

  lemma OverfullLeaf(t: Tree, p: int, i: nat, k: Key, n: int)
    requires WF(t) && p in t.pages && t.pages[p].Leaf? && i <= |t.pages[p].keys| == |t.pages[p].rids| == t.order - 1
    requires n > 0 && n !in t.pages
    ensures CanSplit(LeafInsert(t, p, i, k), p, n, true)
    ensures LeafInsert(t, p, i, k).pages[p].parent == t.pages[p].parent
    ensures LeafInsert(t, p, i, k).order == t.order >= 3 && (p == t.root ==> t.pages[p].parent == NO_PAGE)
    ensures SplitLeafLinked(LeafInsert(t, p, i, k), p, n).pages.Keys
         >= LeafInsert(t, p, i, k).pages.Keys + {n}
  {
    LeafInsertShape(t, p, i, k);
    assert PageShape(t, p, 0, 0);
  }

  /** What comes of an insertion that splits the leaf: an entry that was already there is
      stored twice. */
  lemma SplitLeafOutcome(t: Tree, p: int, i: nat, k: Key, n: int, w: Tree, t': Tree)
    requires WF(t) && p in t.pages && t.pages[p].Leaf? && p in t.info && Within(t.info[p], Rank(k))
    requires |t.pages[p].keys| == |t.pages[p].rids| == t.order - 1 && IsPlace(t.pages[p].keys, i, k)
    requires CanSplit(LeafInsert(t, p, i, k), p, n, true) && w == SplitLeafLinked(LeafInsert(t, p, i, k), p, n)
    requires Shape(t', 0, 0) && SameLeaves(w, t') && (Ordered(w) ==> Ordered(t'))
    requires k in t.pages[p].keys <==> Has(t, k)
    ensures !Has(t, k) ==> Ordered(t') && forall k' :: Has(t', k') <==> Has(t, k') || k' == k
    ensures Has(t, k) ==> !Ordered(t')
  {
    hide Shape, Ordered, SplitLeafLinked, LeafInsert, Twice, Has, SameLeaves, CanSplit, Within;
    var u := LeafInsert(t, p, i, k);
    if Has(t, k) {
      var j := InsertTwice(t, p, i, k);
      var a, b, c, d := SplitTwice(u, p, n, i, j);
      SameLeavesTwice(w, t', a, b, c, d);
      TwiceIsDisorder(t', 0, 0, a, b, c, d);
    } else {
      LeafInsertOrder(t, p, i, k);
      SplitLeafOrder(u, p, n);
      forall k' ensures Has(t', k') <==> Has(t, k') || k' == k {
        LeafInsertHas(t, p, i, k, k');
        SplitLeafHas(u, p, n, k');
        SameLeavesHas(w, t', k');
      }
    }
  }

  lemma RootHolds(t: Tree, k: Key)
    requires WF(t)
    ensures t.root in t.info && Within(t.info[t.root], Rank(k))
  {
    assert PageOrder(t, t.root);
  }

  lemma KeysInOrder(t: Tree, p: int)
    requires WF(t) && p in t.pages
    ensures Sorted(t.pages[p].keys)
  {
    assert PageOrder(t, p);
  }

  /** The child before the first key above `k` is the one whose range holds `k`. */
  lemma KidHolds(t: Tree, p: int, i: int, k: Key)
    requires WF(t) && p in t.pages && t.pages[p].Inner? && p in t.info && Within(t.info[p], Rank(k))
    requires IsPlace(t.pages[p].keys, i, k)
    ensures i < |t.pages[p].kids| && var c := t.pages[p].kids[i];
      c in t.pages && c in t.info && Within(t.info[c], Rank(k)) && 0 <= t.info[c].lvl < t.info[p].lvl
  {
    assert PageShape(t, p, 0, 0) && PageOrder(t, p);
    assert KidRange(t, p, i) && IsKid(t, p, t.pages[p].kids[i]);
  }

  /** What is known of the parent of two pages that have been merged. */
  lemma MergedParent(u: Tree, p: int, pp: int, k: nat, t: Tree)
    requires CanMerge(u, p, pp, k) && (MergeIsRel(u, p, pp, k); t == Merge(u, pp, k))
    ensures pp in u.pages && u.pages[pp].Inner? && k < |u.pages[pp].keys| && |u.pages[pp].kids| == |u.pages[pp].keys| + 1
    ensures pp in t.pages && t.pages[pp].Inner? && t.pages[pp].keys == u.pages[pp].keys && t.pages[pp].kids == u.pages[pp].kids
    ensures Sorted(t.pages[pp].keys)
  {
    MergeIsRel(u, p, pp, k);
    assert PageOrder(u, pp);
  }

  ghost function EmptyTree(order: int): Tree {
    Tree(order, 1, map[1 := Leaf(NO_PAGE, [], [], 0)], map[1 := Info(0, Open, Open)])
  }

  lemma EmptyTreeIsWF(order: int)
    requires order >= 3
    ensures WF(EmptyTree(order)) && forall k :: !Has(EmptyTree(order), k)
  {
    assert PageShape(EmptyTree(order), 1, 0, 0) && PageOrder(EmptyTree(order), 1);
  }

  lemma HasHome(t: Tree, p: int, i: nat, k: Key)
    requires WF(t) && p in t.pages && t.pages[p].Leaf? && p in t.info && Within(t.info[p], Rank(k)) && IsPlace(t.pages[p].keys, i, k)
    ensures IsHome(t, p, i, k)
  {
    assert PageShape(t, p, 0, 0);
  }

  /** `k` is entry `d` of leaf `p`, which has enough keys without it. */
  ghost predicate CanSpare(t: Tree, p: int, d: nat, k: Key) {
    && p in t.pages && t.pages[p].Leaf? && d < |t.pages[p].keys| == |t.pages[p].rids| && t.pages[p].keys[d] == k
    && KeysEnough(Removed(t, p, d), p)
  }

  lemma OnlySpare(t: Tree, q: int, i: nat, k: Key)
    requires WF(t) && q in t.pages && t.pages[q].Leaf? && q in t.info && Within(t.info[q], Rank(k))
    requires k in t.pages[q].keys ==> i < |t.pages[q].keys| && t.pages[q].keys[i] == k
    ensures forall p, d: nat :: CanSpare(t, p, d, k) ==> p == q && d == i && k in t.pages[q].keys
  {
    forall p, d: nat | CanSpare(t, p, d, k) ensures p == q && d == i && k in t.pages[q].keys {
      assert PageShape(t, p, 0, 0) && PageShape(t, q, 0, 0) && PageOrder(t, p);
      LevelDisjoint(t, 0, 0, p, q, Rank(k));
    }
  }

  class BplusTreeHandler {
    const order: int
    /** Whether the moves of redistribute_nodes are the intended ones. */
    const repaired: bool
    var rootPage: int
    var pageCount: int
    var pages: map<int, IndexNode>
    /** What the pages mean. */
    ghost var tree: Tree

    /** The objects this index is made of, disposed pages included. */
    ghost var repr: set<object>

    /** The buffers of different pages are different. */
    ghost predicate Mem()
      reads this`pages, this`pageCount, this`repr
    {
      && order >= 3
      && (forall p :: p in pages ==>
            && 0 < p < pageCount && pages[p].keys.Length == order
            && pages[p] in repr && pages[p].keys in repr && pages[p].rids in repr)
      && (forall p, q :: p in pages && q in pages && p != q ==>
            pages[p] != pages[q] && pages[p].keys != pages[q].keys && pages[p].rids != pages[q].rids)
    }

    /** A new index: one empty leaf. */
    constructor Create(order: int, repaired: bool)
      requires order >= 3
      ensures Valid() && fresh(repr) && this.repaired == repaired
      ensures tree == EmptyTree(order) && WF(tree) && forall k :: !Has(tree, k)
    {
      this.order, this.repaired, rootPage, pageCount := order, repaired, 1, 2;
      var node := new IndexNode(order);
      node.isLeaf, node.keyNum, node.parent := true, 0, NO_PAGE;
      node.rids[order - 1] := RID(0, 0);
      pages := map[1 := node];
      tree := EmptyTree(order);
      repr := {node, node.keys, node.rids};
      EmptyTreeIsWF(order);
    }

    /** Page `p` holds what `tree` says. */
    ghost predicate Shows(p: int)
      requires p in pages
      reads this, pages[p], pages[p].keys, pages[p].rids
    {
      pages[p].Valid() && p in tree.pages && pages[p].View() == tree.pages[p]
    }

    ghost predicate Valid()
      reads this, repr
    {
      && Mem()
      && tree.order == order && tree.root == rootPage && tree.pages.Keys == pages.Keys
      && forall p :: p in pages ==> Shows(p)
    }

    /** Page `n` has been allocated but is not part of the tree yet. */
    ghost predicate ValidBut(n: int)
      reads this, repr
    {
      && Mem()
      && tree.order == order && tree.root == rootPage
      && n in pages && n !in tree.pages && pages[n].Valid() && pages.Keys == tree.pages.Keys + {n}
      && forall p :: p in pages && p != n ==> Shows(p)
    }

    lemma Footprint()
      requires Valid()
      ensures pages.Keys == tree.pages.Keys && tree.order == order && forall q :: q in pages ==> pages[q] in repr
    {
    }

    lemma PageIs(p: int)
      requires Valid() && p in tree.pages
      ensures p in pages && pages.Keys == tree.pages.Keys && tree.order == order && Shows(p)
      ensures pages[p] in repr && pages[p].keys in repr && pages[p].rids in repr
      ensures pages[p].parent == tree.pages[p].parent
    {
      assert Shows(p);
    }

    method FindLeaf(key: Key) returns (leaf: int)
      requires Valid() && WF(tree)
      ensures leaf in tree.pages && tree.pages[leaf].Leaf? && leaf in tree.info && Within(tree.info[leaf], Rank(key))
    {
      hide IndexNode.Valid, IndexNode.View, PageOrder, Sorted, Within, IsPlace;
      leaf := rootPage;
      RootHolds(tree, key);
      while !pages[leaf].isLeaf
        invariant leaf in pages && leaf in tree.info && Within(tree.info[leaf], Rank(key))
        decreases tree.info[leaf].lvl
      {
        assert Shows(leaf);
        pages[leaf].ViewIs();
        KeysInOrder(tree, leaf);
        var i := FindPlace(pages[leaf], key);
        KidHolds(tree, leaf, i, key);
        leaf := ReadKid(leaf, i);
      }
      assert Shows(leaf);
      pages[leaf].ViewIs();
    }

    method ReadKid(p: int, i: int) returns (kid: int)
      requires Valid() && p in tree.pages && tree.pages[p].Inner? && 0 <= i < |tree.pages[p].kids|
      ensures kid == tree.pages[p].kids[i]
    {
      assert Shows(p);
      kid := pages[p].rids[i].pageNum;
    }

    /** The first free page number; what the page holds is left from its last use. */
    method AllocatePage() returns (n: int)
      requires Valid()
      modifies this`pages, this`pageCount, this`repr
      ensures ValidBut(n) && 0 < n && n !in old(pages) && n in pages && pages == old(pages)[n := pages[n]]
      ensures fresh(pages[n]) && fresh(pages[n].keys) && fresh(pages[n].rids)
      ensures repr == old(repr) + {pages[n], pages[n].keys, pages[n].rids} && FirstFree(old(pages).Keys, n)
    {
      n := 1;
      while n < pageCount && n in pages
        invariant 1 <= n && forall m :: 1 <= m < n ==> m in pages
      {
        n := n + 1;
      }
      if n >= pageCount {
        pageCount := n + 1;
      }
      var node := new IndexNode(order);
      pages := pages[n := node];
      repr := repr + {node, node.keys, node.rids};
      forall p | p in pages && p != n ensures Shows(p) {
        assert old(Shows(p));
      }
    }

    // ---- insertion --------------------------------------------------------------

    method InsertIntoLeaf(leaf: int, key: Key) returns (rc: RC, ghost pos: int)
      requires Valid() && leaf in pages && pages[leaf].isLeaf && pages[leaf].keyNum < order - 1
      requires Shows(leaf) && Sorted(tree.pages[leaf].keys)
      modifies this`tree, pages[leaf], pages[leaf].keys, pages[leaf].rids
      ensures Valid()
      ensures rc == RECORD_DUPLICATE_KEY <==> key in old(tree).pages[leaf].keys
      ensures rc == RECORD_DUPLICATE_KEY ==> tree == old(tree)
      ensures rc != RECORD_DUPLICATE_KEY ==>
        && rc == SUCCESS && IsPlace(old(tree).pages[leaf].keys, pos, key)
        && tree == LeafInsert(old(tree), leaf, pos, key)
    {
      var node := pages[leaf];
      ghost var keys := node.View().keys;
      var insertPos := 0;
      while insertPos < node.keyNum
        invariant 0 <= insertPos <= node.keyNum
        invariant forall j :: 0 <= j < insertPos ==> Rank(keys[j]) < Rank(key)
      {
        var tmp := CmpKey(key, node.keys[insertPos]);
        if tmp == 0 {
          return RECORD_DUPLICATE_KEY, insertPos;
        }
        if tmp < 0 { break; }
        insertPos := insertPos + 1;
      }
      pos := insertPos;
      assert key !in keys by {
        forall j | 0 <= j < |keys| ensures keys[j] != key {
          if j > insertPos { assert Rank(keys[insertPos]) < Rank(keys[j]); }
        }
      }
      node.InsertEntry(insertPos, key, key.rid);
      tree := LeafInsert(tree, leaf, pos, key);
      assert Shows(leaf);
      forall q | q in pages && q != leaf ensures Shows(q) {
        assert old(Shows(q));
      }
      rc := SUCCESS;
    }

    method InsertInternNode(parent: int, left: int, right: int, key: Key)
      requires Valid() && parent in pages && parent in tree.pages && tree.pages[parent].Inner?
      requires |tree.pages[parent].keys| < order - 1 && left in tree.pages[parent].kids
      modifies this`tree, pages[parent], pages[parent].keys, pages[parent].rids
      ensures Valid()
      ensures tree == old(tree).(pages := old(tree).pages[parent := InsKid(old(tree).pages[parent], left, key, right)])
    {
      hide IndexOf, Insert, IndexNode.Valid, IndexNode.View;
      var node := pages[parent];
      assert Shows(parent);
      node.ViewIs();
      var insertPos := FindKid(node, left);
      node.InsertKid(insertPos, key, right);
      assert node.View() == InsKid(tree.pages[parent], left, key, right);
      tree := tree.(pages := tree.pages[parent := InsKid(tree.pages[parent], left, key, right)]);
      assert Shows(parent);
      forall q | q in pages && q != parent ensures Shows(q) {
        assert old(Shows(q));
      }
    }

    method FindKid(node: IndexNode, kid: int) returns (i: int)
      requires node.Valid() && !node.isLeaf && kid in node.View().kids
      ensures i == IndexOf(node.View().kids, kid)
    {
      i := 0;
      ghost var kids := node.View().kids;
      ghost var at := IndexOf(kids, kid);
      while i <= node.keyNum && node.rids[i].pageNum != kid
        invariant 0 <= i <= at
      {
        assert kids[i] != kid;
        i := i + 1;
      }
    }

    /** The search of find_leaf and of insert_into_leaf_after_split, which does not look for
        equal keys. */
    method FindPlace(node: IndexNode, key: Key) returns (i: int)
      requires node.Valid() && Sorted(node.View().keys)
      ensures IsPlace(node.View().keys, i, key)
    {
      i := 0;
      ghost var keys := node.View().keys;
      while i < node.keyNum && CmpKey(key, node.keys[i]) >= 0
        invariant 0 <= i <= node.keyNum
        invariant forall j :: 0 <= j < i ==> Rank(keys[j]) <= Rank(key)
      {
        i := i + 1;
      }
    }

    /** insert_into_leaf_after_split up to the call for the parent. */
    method SplitLeafPage(leaf: int, key: Key) returns (n: int, newKey: Key, ghost pos: int)
      requires Valid() && leaf in pages && pages[leaf].isLeaf && pages[leaf].keyNum == order - 1 && leaf in tree.info
      requires Shows(leaf) && Sorted(tree.pages[leaf].keys)
      modifies this`pages, this`pageCount, this`repr, this`tree, pages[leaf], pages[leaf].keys, pages[leaf].rids
      ensures Valid() && 0 < n && n !in old(pages) && n in pages && pages == old(pages)[n := pages[n]]
      ensures fresh(pages[n]) && fresh(pages[n].keys) && fresh(pages[n].rids)
      ensures repr == old(repr) + {pages[n], pages[n].keys, pages[n].rids}
      ensures IsPlace(old(tree).pages[leaf].keys, pos, key) && FirstFree(old(pages).Keys, n)
      ensures tree == SplitLeaf(LeafInsert(old(tree), leaf, pos, key), leaf, n)
      ensures newKey == LeafInsert(old(tree), leaf, pos, key).pages[leaf].keys[order / 2]
    {
      hide Insert, LowLeaf, HighLeaf, IndexNode.Valid, IndexNode.View, Sorted, IsPlace;
      PageIs(leaf);
      pages[leaf].ViewIs();
      n := AllocatePage();
      var insertPos := FindPlace(pages[leaf], key);
      pos := insertPos;
      SplitLeafViews(tree, leaf, pos, key, n);
      newKey := DealLeafPages(leaf, n, insertPos, key, SplitLeaf(LeafInsert(tree, leaf, pos, key), leaf, n));
    }

    method DealLeafPages(leaf: int, n: int, pos: int, key: Key, ghost t: Tree) returns (newKey: Key)
      requires ValidBut(n) && leaf in pages && leaf != n
      requires Shows(leaf) && tree.pages[leaf].Leaf? && 0 <= pos <= |tree.pages[leaf].keys| == order - 1
      requires t.order == tree.order && t.root == tree.root
      requires t.pages == tree.pages[leaf := LowLeaf(tree.pages[leaf], pos, key, key.rid, n)]
                                    [n := HighLeaf(tree.pages[leaf], pos, key, key.rid)]
      modifies this`tree, pages[leaf], pages[leaf].keys, pages[leaf].rids, pages[n], pages[n].keys, pages[n].rids
      ensures Valid() && tree == t
      ensures newKey == HighLeaf(old(tree).pages[leaf], pos, key, key.rid).keys[0]
    {
      hide LowLeaf, Insert;
      pages[leaf].SplitLeaf(pos, key, key.rid, pages[n], n);
      newKey := pages[n].keys[0];
      assert newKey == pages[n].View().keys[0];
      tree := t;
      assert Shows(leaf) && Shows(n);
      forall q | q in pages && q != leaf && q != n ensures Shows(q) {
        assert old(Shows(q));
      }
    }

    /** insert_intern_node_after_split up to the call for the parent; `u` is the tree with the
        new child in the overfull page. */
    method SplitInnerPage(inner: int, left: int, right: int, key: Key, ghost u: Tree) returns (n: int, up: Key)
      requires Valid() && inner in pages && inner != NO_PAGE && inner in tree.info && left in tree.info
      requires tree.pages[inner].Inner? && |tree.pages[inner].keys| == order - 1 && |tree.pages[inner].kids| == order
      requires left in tree.pages[inner].kids && u == Linked(tree, inner, left, key, right)
      requires forall c :: c in tree.pages[inner].kids || c == right ==> c in pages
      requires |u.pages[inner].keys| == order && |u.pages[inner].kids| == order + 1
      modifies this`pages, this`pageCount, this`repr, this`tree, repr - {this}
      ensures Valid() && 0 < n && n !in old(pages) && n in pages && pages == old(pages)[n := pages[n]]
      ensures fresh(pages[n]) && fresh(pages[n].keys) && fresh(pages[n].rids)
      ensures repr == old(repr) + {pages[n], pages[n].keys, pages[n].rids}
      ensures tree == SplitInner(u, inner, n) && up == UpKey(u, inner) && FirstFree(old(pages).Keys, n)
    {
      hide Reparent, Shows, IndexOf, Insert;
      InsKidHas(tree.pages[inner], left, key, right);
      n, up := HalveInnerPage(inner, left, right, key, u);
      HighKids(u, inner, n);
      ReparentKids(n, 0);
    }

    method HalveInnerPage(inner: int, left: int, right: int, key: Key, ghost u: Tree) returns (n: int, up: Key)
      requires Valid() && inner in pages && inner != NO_PAGE && inner in tree.info && left in tree.info
      requires tree.pages[inner].Inner? && |tree.pages[inner].keys| == order - 1 && |tree.pages[inner].kids| == order
      requires left in tree.pages[inner].kids && u == Linked(tree, inner, left, key, right)
      requires |u.pages[inner].keys| == order && |u.pages[inner].kids| == order + 1 && order >= 3
      modifies this`pages, this`pageCount, this`repr, this`tree, pages[inner], pages[inner].keys, pages[inner].rids
      ensures Valid() && 0 < n && n !in old(pages) && n in pages && pages == old(pages)[n := pages[n]]
      ensures fresh(pages[n]) && fresh(pages[n].keys) && fresh(pages[n].rids)
      ensures repr == old(repr) + {pages[n], pages[n].keys, pages[n].rids}
      ensures tree == HalveInner(u, inner, n) && up == UpKey(u, inner) && FirstFree(old(pages).Keys, n)
    {
      hide Linked, HalveInner, LowInner, HighInner, UpKey, Mem, IndexOf, Insert, ValidBut, IndexNode.Valid, IndexNode.View;
      assert Shows(inner);
      pages[inner].ViewIs();
      var insertPos := FindKid(pages[inner], left);
      n := AllocatePage();
      HalveInnerViews(tree, inner, left, key, right, n, u);
      up := DealInnerPages(inner, n, insertPos, key, right, HalveInner(u, inner, n));
    }

    method DealInnerPages(inner: int, n: int, pos: int, key: Key, right: int, ghost t: Tree) returns (up: Key)
      requires ValidBut(n) && inner in pages && inner != n && inner in tree.pages && n in pages
      requires tree.pages[inner].Inner? && 0 <= pos <= |tree.pages[inner].keys| == order - 1
      requires |tree.pages[inner].kids| == order
      requires t.order == tree.order && t.root == tree.root
      requires t.pages == tree.pages[inner := LowInner(tree.pages[inner], pos, key, right)]
                                    [n := HighInner(tree.pages[inner], pos, key, right)]
      modifies this`tree, pages[inner], pages[inner].keys, pages[inner].rids, pages[n], pages[n].keys, pages[n].rids
      ensures Valid() && tree == t
      ensures up == Insert(old(tree).pages[inner].keys, pos, key)[(order + 1) / 2 - 1]
    {
      hide LowInner, HighInner, Insert, IndexNode.Valid, IndexNode.View;
      assert Shows(inner);
      pages[inner].ViewIs();
      up := pages[inner].SplitInner(pos, key, right, pages[n]);
      tree := t;
      assert Shows(inner) && Shows(n);
      forall q | q in pages && q != inner && q != n ensures Shows(q) {
        assert old(Shows(q));
      }
    }

    /** The children of page `n`, from child `start` on, are told who their parent is. */
    method ReparentKids(n: int, start: int)
      requires Valid() && n in pages && tree.pages[n].Inner? && 0 <= start <= |tree.pages[n].kids|
      requires forall c :: c in tree.pages[n].kids[start..] ==> c in pages
      modifies this`tree, (set p | p in pages :: pages[p])`parent
      ensures Valid()
      ensures tree == old(tree).(pages := Reparent(old(tree).pages, old(tree).pages[n].kids[start..], n))
    {
      hide Reparent, Mem, IndexNode.Valid, IndexNode.View;
      var node := pages[n];
      ghost var t, kids := tree, tree.pages[n].kids[start..];
      assert Shows(n);
      node.ViewIs();
      ReparentNone(t.pages, n);
      assert kids[..0] == [];
      var i := start;
      while i <= node.keyNum
        invariant start <= i <= node.keyNum + 1
        invariant Valid() && tree == t.(pages := Reparent(t.pages, kids[..i - start], n))
        invariant n in tree.pages && tree.pages[n].Inner? && tree.pages[n].kids == t.pages[n].kids
      {
        var child := ReadKid(n, i);
        assert child == kids[i - start];
        SetParent(child, pages[child], n);
        ReparentStep(t.pages, kids, i - start, n);
        i := i + 1;
      }
      assert kids[..i - start] == kids;
    }

    method SetParent(p: int, node: IndexNode, parent: int)
      requires Valid() && p in pages && node == pages[p]
      modifies this`tree, node`parent
      ensures Valid()
      ensures tree == old(tree).(pages := old(tree).pages[p := old(tree).pages[p].(parent := parent)])
    {
      assert Shows(p);
      node.parent := parent;
      tree := tree.(pages := tree.pages[p := tree.pages[p].(parent := parent)]);
      forall q | q in pages ensures Shows(q) {
        assert old(Shows(q));
      }
    }

    /** The new page `right` has been split off page `left`, which has lost the upper part of
        its range: the parent is told, and split in turn when it is full.  `u` is the tree in
        which the parent has the new child. */
    method InsertIntoParent(parent: int, left: int, key: Key, right: int, ghost u: Tree)
      requires Valid() && left in pages && right in pages && NO_PAGE !in pages
      requires CanLink(tree, parent, left) && u == Linked(tree, parent, left, key, right) && Shape(u, parent, 0)
      modifies this, repr
      ensures Valid() && Shape(tree, 0, 0) && SameLeaves(u, tree) && (Ordered(u) ==> Ordered(tree))
      ensures fresh(repr - old(repr)) && exists h: nat :: Told(h, old(tree), parent, left, key, right, tree)
      decreases if parent == NO_PAGE then 0 else u.info[u.root].lvl - u.info[left].lvl, 1
    {
      hide Valid, Mem, Shows, Shape, Ordered, SameLeaves, Linked, CanSplit, InsKid;
      if parent == NO_PAGE {
        InsertIntoNewRoot(left, key, right, u);
        assert Told(0, old(tree), parent, left, key, right, tree);
        return;
      }
      LinkFacts(tree, parent, left, key, right, u);
      PageIs(parent);
      var n := ReadSize(parent);
      if n < order - 1 {
        InsertInternNode(parent, left, right, key);
        NoOverflow(u, parent);
        assert Told(0, old(tree), parent, left, key, right, tree);
      } else {
        OverfullInner(tree, parent, left, key, right, u);
        InsertInternNodeAfterSplit(parent, left, right, key, u);
        ghost var h: nat :| SplitAndTold(h, old(tree).pages.Keys, u, parent, tree);
        assert Told(h + 1, old(tree), parent, left, key, right, tree);
      }
    }

    method InsertInternNodeAfterSplit(inner: int, left: int, right: int, key: Key, ghost u: Tree)
      requires Valid() && inner in pages && inner != NO_PAGE && inner in tree.info && left in tree.info
      requires tree.pages[inner].Inner? && |tree.pages[inner].keys| == order - 1 && |tree.pages[inner].kids| == order
      requires left in tree.pages[inner].kids && u == Linked(tree, inner, left, key, right)
      requires forall c :: c in tree.pages[inner].kids || c == right ==> c in pages
      requires |u.pages[inner].keys| == order && |u.pages[inner].kids| == order + 1
      requires pages[inner].parent == u.pages[inner].parent && NO_PAGE !in pages
      requires forall n :: n > 0 && n !in pages ==> CanSplit(u, inner, n, false)
      requires inner in u.info && left in u.info && u.root in u.info
      requires u.info[left].lvl < u.info[inner].lvl <= u.info[u.root].lvl
      modifies this, repr
      ensures Valid() && Shape(tree, 0, 0) && SameLeaves(u, tree) && (Ordered(u) ==> Ordered(tree))
      ensures fresh(repr - old(repr)) && exists h: nat :: SplitAndTold(h, old(tree).pages.Keys, u, inner, tree)
      decreases u.info[u.root].lvl - u.info[left].lvl, 0
    {
      hide Valid, Mem, Shape, Ordered, SameLeaves, Linked, SplitInner, SplitInnerLinked, UpKey, CanSplit, CanLink, FirstFree, Told;
      Footprint();
      var parentPage := pages[inner].parent;
      var n, up := SplitInnerPage(inner, left, right, key, u);
      SplitInnerStep(u, inner, n);
      ghost var w := SplitInnerLinked(u, inner, n);
      InsertIntoParent(parentPage, inner, up, n, w);
      SameLeavesTrans(u, w, tree);
      ghost var h: nat :| Told(h, SplitInner(u, inner, n), parentPage, inner, up, n, tree);
      assert SplitAndTold(h, old(tree).pages.Keys, u, inner, tree);
    }

    method InsertIntoNewRoot(left: int, key: Key, right: int, ghost u: Tree)
      requires Valid() && left in pages && right in pages && NO_PAGE !in pages && left in tree.info
      requires u == Linked(tree, NO_PAGE, left, key, right) && Shape(u, NO_PAGE, 0)
      modifies this, repr
      ensures Valid() && Shape(tree, 0, 0) && SameLeaves(u, tree) && (Ordered(u) ==> Ordered(tree))
      ensures fresh(repr - old(repr)) && GrownFrom(old(tree), left, key, right, tree)
    {
      hide Valid, Shape, Ordered, SameLeaves, Linked, GrowRoot;
      Footprint();
      ghost var t := tree;
      var n := NewRoot(left, key, right);
      GrowRootStep(t, left, key, right, n, u);
    }

    method NewRoot(left: int, key: Key, right: int) returns (n: int)
      requires Valid() && left in pages && right in pages && left in tree.info
      modifies this, repr
      ensures Valid() && fresh(repr - old(repr))
      ensures FirstFree(old(tree).pages.Keys, n) && tree == GrowRoot(old(tree), left, key, right, n)
    {
      hide Valid, ValidBut, GrowRoot, Mem, Shows;
      Footprint();
      ghost var t := tree;
      n := AllocatePage();
      assert fresh(repr - old(repr));
      FillRoot(n, left, key, right);
      ghost var a := tree;
      TellHalves(left, right, n);
      GrowRootPages(t, left, key, right, n, a, tree);
      SetRoot(n);
    }

    method TellHalves(left: int, right: int, n: int)
      requires Valid() && left in pages && right in pages
      modifies this`tree, pages[left], pages[right]
      ensures Valid() && left in old(tree).pages && right in old(tree).pages
      ensures var m := old(tree).pages[left := old(tree).pages[left].(parent := n)];
        tree == old(tree).(pages := m[right := m[right].(parent := n)])
    {
      hide Valid;
      Footprint();
      SetParent(left, pages[left], n);
      SetParent(right, pages[right], n);
    }

    method SetRoot(n: int)
      requires Valid()
      modifies this`rootPage, this`tree
      ensures Valid() && tree == old(tree).(root := n)
    {
      rootPage := n;
      tree := tree.(root := n);
      forall q | q in pages ensures Shows(q) {
        assert old(Shows(q));
      }
    }

    method FillRoot(n: int, left: int, key: Key, right: int)
      requires ValidBut(n) && left in tree.info
      modifies this`tree, pages[n], pages[n].keys, pages[n].rids
      ensures Valid()
      ensures tree == old(tree).(pages := old(tree).pages[n := Inner(NO_PAGE, [key], [left, right])],
                                 info := old(tree).info[n := Info(old(tree).info[left].lvl + 1, Open, Open)])
    {
      var root := pages[n];
      root.isLeaf, root.keyNum, root.parent := false, 1, NO_PAGE;
      root.keys[0] := key;
      root.rids[0] := RID(left, -1);
      root.rids[1] := RID(right, -1);
      tree := tree.(pages := tree.pages[n := Inner(NO_PAGE, [key], [left, right])],
                    info := tree.info[n := Info(tree.info[left].lvl + 1, Open, Open)]);
      assert Shows(n);
      forall q | q in pages && q != n ensures Shows(q) {
        assert old(Shows(q));
      }
    }

    method InsertIntoLeafAfterSplit(leaf: int, key: Key, ghost t: Tree)
      requires Valid() && t == tree && WF(t) && NO_PAGE !in pages
      requires leaf in pages && leaf in t.pages && pages[leaf].isLeaf && pages[leaf].keyNum == order - 1
      requires Shows(leaf) && leaf in t.info && Within(t.info[leaf], Rank(key)) && pages[leaf].parent == t.pages[leaf].parent
      requires t.pages[leaf].Leaf? && |t.pages[leaf].keys| == |t.pages[leaf].rids| == t.order - 1 && t.order == order
      requires Sorted(t.pages[leaf].keys) && (Has(t, key) <==> key in t.pages[leaf].keys)
      requires forall p :: p in t.pages <==> p in pages
      requires pages[leaf] in repr && pages[leaf].keys in repr && pages[leaf].rids in repr
      modifies this, repr
      ensures Valid() && Shape(tree, 0, 0) && fresh(repr - old(repr))
      ensures !Has(t, key) ==> Ordered(tree) && forall k :: Has(tree, k) <==> Has(t, k) || k == key
      ensures Has(t, key) ==> !Ordered(tree)
      ensures Inserted(t, key, tree)
    {
      hide Valid, Mem, Shows, Shape, Ordered, WF, Has, SameLeaves, CanSplit, CanLink, Linked, LeafInsert,
           SplitLeaf, SplitLeafLinked, Sorted, Within;
      var parentPage := pages[leaf].parent;
      var n, newKey, pos := SplitLeafPage(leaf, key);
      OverfullLeaf(t, leaf, pos, key, n);
      ghost var u := LeafInsert(t, leaf, pos, key);
      SplitLeafStep(u, leaf, n);
      ghost var w := SplitLeafLinked(u, leaf, n);
      InsertIntoParent(parentPage, leaf, newKey, n, w);
      SplitLeafOutcome(t, leaf, pos, key, n, w, tree);
      HasHome(t, leaf, pos, key);
    }

    /** Adds the pair of an attribute and a record. */
    method InsertEntry(attr: int, rid: RecordId) returns (rc: RC)
      requires Valid() && WF(tree)
      modifies this, repr
      ensures Valid() && fresh(repr - old(repr))
      ensures WF(tree) <==> !old(Has(tree, Key(attr, rid)) && InFullLeaf(tree, Key(attr, rid)))
      ensures !old(Has(tree, Key(attr, rid))) ==>
        rc == SUCCESS && forall k :: Has(tree, k) <==> old(Has(tree, k)) || k == Key(attr, rid)
      ensures old(Has(tree, Key(attr, rid))) ==>
        if old(InFullLeaf(tree, Key(attr, rid))) then rc == SUCCESS
        else rc == RECORD_DUPLICATE_KEY && tree == old(tree)
      ensures rc == SUCCESS ==> Inserted(old(tree), Key(attr, rid), tree)
    {
      hide Shape, Ordered, Has, Sorted, IsPlace, LeafInsert, InFullLeaf, Within;
      var key := Key(attr, rid);
      ghost var t := tree;
      var leaf := FindLeaf(key);
      FoundInItsLeaf(t, 0, 0, leaf, key);
      FullLeafIs(t, leaf, key);
      LeafFacts(t, leaf, key);
      assert Shows(leaf);
      if pages[leaf].keyNum < order - 1 {
        ghost var pos;
        rc, pos := InsertIntoLeaf(leaf, key);
        if rc == SUCCESS {
          HasHome(t, leaf, pos, key);
          assert InsertedAt(t, leaf, pos, key, tree);
          LeafInsertOutcome(t, leaf, pos, key);
        }
      } else {
        InsertIntoLeafAfterSplit(leaf, key, t);
        rc := SUCCESS;
      }
    }

    // ---- deletion ---------------------------------------------------------------

    method FindKey(node: IndexNode, key: Key) returns (i: int)
      requires node.Valid()
      ensures 0 <= i <= node.keyNum == |node.View().keys|
      ensures forall j :: 0 <= j < i ==> node.View().keys[j] != key
      ensures i < node.keyNum ==> node.View().keys[i] == key
    {
      i := 0;
      while i < node.keyNum && CmpKey(key, node.keys[i]) != 0
        invariant 0 <= i <= node.keyNum
        invariant forall j :: 0 <= j < i ==> node.View().keys[j] != key
      {
        i := i + 1;
      }
    }

    method DeleteEntryFromNode(p: int, key: Key, ghost d: nat) returns (rc: RC)
      requires Valid() && p in pages && p in tree.pages && Shows(p) && Sorted(tree.pages[p].keys)
      requires key in tree.pages[p].keys ==> d < |tree.pages[p].keys| && tree.pages[p].keys[d] == key
      modifies this`tree, pages[p], pages[p].keys, pages[p].rids
      ensures Valid()
      ensures key !in old(tree).pages[p].keys ==> rc == RECORD_INVALID_KEY && tree == old(tree)
      ensures key in old(tree).pages[p].keys ==>
        && var v := old(tree).pages[p];
        && rc == SUCCESS && (if v.Leaf? then |v.rids| == |v.keys| else |v.kids| == |v.keys| + 1)
        && tree == Removed(old(tree), p, d) && pages[p].Valid() && pages[p].Leftover(v, d)
    {
      hide Remove, IndexNode.Valid, IndexNode.View, IndexNode.Leftover;
      var node := pages[p];
      node.ViewIs();
      var deleteIndex := FindKey(node, key);
      if deleteIndex >= node.keyNum {
        return RECORD_INVALID_KEY;
      }
      assert deleteIndex == d;
      node.RemoveSlot(deleteIndex);
      tree := Removed(tree, p, d);
      assert Shows(p);
      forall q | q in pages && q != p ensures Shows(q) {
        assert old(Shows(q));
      }
      rc := SUCCESS;
    }

    /** The page goes back to the buffer pool. */
    method DisposePage(n: int)
      requires Valid() && n in pages
      modifies this`pages, this`tree
      ensures Valid() && pages == old(pages) - {n}
      ensures tree == old(tree).(pages := old(tree).pages - {n})
    {
      pages := pages - {n};
      tree := tree.(pages := tree.pages - {n});
      forall q | q in pages ensures Shows(q) {
        assert old(Shows(q));
      }
    }

    /** The contents of page `right` are appended to page `left`. */
    method JoinPages(left: int, right: int, sep: Key)
      requires Valid() && left in pages && right in pages && left != right && left in tree.pages && right in tree.pages
      requires tree.pages[left].Leaf? == tree.pages[right].Leaf?
      requires |tree.pages[left].keys| + |tree.pages[right].keys| + (if tree.pages[left].Leaf? then 0 else 1) < order
      modifies this`tree, repr - {this}
      ensures Valid()
      ensures tree == old(tree).(pages := old(tree).pages[left := Joined(old(tree).pages[left], sep, old(tree).pages[right])])
    {
      hide Joined, IndexNode.Valid, IndexNode.View;
      assert Shows(left) && Shows(right);
      var l, r := pages[left], pages[right];
      l.ViewIs();
      r.ViewIs();
      if l.isLeaf {
        l.AppendLeaf(r, sep);
      } else {
        l.AppendInner(r, sep);
      }
      tree := tree.(pages := tree.pages[left := Joined(tree.pages[left], sep, tree.pages[right])]);
      assert Shows(left);
      forall q | q in pages && q != left ensures Shows(q) {
        assert old(Shows(q));
      }
    }

    method ReadEntry(p: int, i: int) returns (key: Key, rid: RID)
      requires Valid() && p in tree.pages && tree.pages[p].Leaf?
      requires 0 <= i < |tree.pages[p].keys| && |tree.pages[p].rids| == |tree.pages[p].keys|
      ensures key == tree.pages[p].keys[i] && rid == tree.pages[p].rids[i]
    {
      assert Shows(p);
      key, rid := pages[p].keys[i], pages[p].rids[i];
    }

    method ReadKind(p: int) returns (leaf: bool)
      requires Valid() && p in tree.pages
      ensures leaf == tree.pages[p].Leaf?
    {
      assert Shows(p);
      leaf := pages[p].isLeaf;
    }

    method ReadSize(p: int) returns (n: int)
      requires Valid() && p in tree.pages
      ensures n == |tree.pages[p].keys|
    {
      assert Shows(p);
      n := pages[p].keyNum;
    }

    /** The parent of a page, and the key behind the page's place in it. */
    method FindSeparator(left: int, ghost pp: int) returns (parent: int, at: int, sep: Key)
      requires Valid() && left in pages && pp in pages && left in tree.pages && tree.pages[left].parent == pp
      requires pp in tree.pages && tree.pages[pp].Inner? && left in tree.pages[pp].kids
      requires IndexOf(tree.pages[pp].kids, left) < |tree.pages[pp].keys|
      ensures parent == pp && at == IndexOf(tree.pages[pp].kids, left) && sep == tree.pages[pp].keys[at]
    {
      assert Shows(left) && Shows(pp);
      parent := pages[left].parent;
      at := FindKid(pages[parent], left);
      sep := pages[parent].keys[at];
    }

    ghost method SetRange(left: int, i: Info)
      requires Valid()
      modifies this`tree
      ensures Valid() && tree == old(tree).(info := old(tree).info[left := i])
    {
      tree := tree.(info := tree.info[left := i]);
      forall q | q in pages ensures Shows(q) {
        assert old(Shows(q));
      }
    }

    /** coalesce_node up to the deletion of the separator from the parent. */
    method MergePages(left: int, right: int, ghost p: int, ghost pp: int, ghost k: nat, ghost u: Tree)
      returns (sep: Key, parent: int)
      requires Valid() && u == tree && CanMerge(u, p, pp, k)
      requires left == u.pages[pp].kids[k] && right == u.pages[pp].kids[k + 1]
      modifies this`pages, this`tree, repr - {this}
      ensures Valid() && parent == pp && sep == u.pages[pp].keys[k]
      ensures (MergeIsRel(u, p, pp, k); tree == Merge(u, pp, k))
    {
      hide Joined, Reparent, CanMerge, Valid, Mem, Shows;
      Footprint();
      MergeFacts(u, p, pp, k);
      MergeKidsFacts(u, p, pp, k);
      var at;
      parent, at, sep := FindSeparator(left, pp);
      var keyNum := ReadSize(left);
      var isLeaf := ReadKind(left);
      JoinPages(left, right, sep);
      ReparentNone(tree.pages, left);
      if !isLeaf {
        ReparentKids(left, keyNum + 1);
      }
      DisposePage(right);
      SetRange(left, tree.info[left].(hi := tree.info[right].hi));
    }

    /** A key moves between neighbours; `v` is the underfull page before it lost entry `d`. */
    method MoveKey(left: int, right: int, sep: Key, fromRight: bool, ghost a: View, ghost b: View, ghost v: View, ghost d: nat)
      returns (newSep: Key, ghost x: RID)
      requires Valid() && left in pages && right in pages && left != right && Shows(left) && Shows(right)
      requires a == tree.pages[left] && b == tree.pages[right] && a.Leaf? == b.Leaf? == v.Leaf? && d < |v.keys|
      requires if v.Leaf? then |v.rids| == |v.keys| else |v.kids| == |v.keys| + 1
      requires if fromRight then |a.keys| < order - 1 && 1 < |b.keys| else 0 < |a.keys| && |b.keys| < order - 1
      requires !fromRight ==> pages[right].Leftover(v, d)
      modifies this`tree, pages[left], pages[left].keys, pages[left].rids, pages[right], pages[right].keys, pages[right].rids
      ensures Valid() && newSep == SepAfter(a, b, fromRight)
      ensures (if a.Leaf? then |a.rids| == |a.keys| && |b.rids| == |b.keys| else |a.kids| == |a.keys| + 1 && |b.kids| == |b.keys| + 1)
      ensures SlotHolds(v, d, a, b, fromRight, repaired, x)
      ensures tree == old(tree).(pages := old(tree).pages[left := LeftAfter(a, sep, b, fromRight)]
                                                         [right := RightAfter(a, sep, b, fromRight, x)])
    {
      hide LeftAfter, RightAfter, SepAfter, SlotHolds, IndexNode.Valid, IndexNode.View, IndexNode.Leftover;
      pages[left].ViewIs();
      pages[right].ViewIs();
      assert a == pages[left].View() && b == pages[right].View();
      newSep, x := pages[left].MoveKey(pages[right], sep, fromRight, repaired, v, d);
      assert pages[left].View() == LeftAfter(a, sep, b, fromRight) && pages[right].View() == RightAfter(a, sep, b, fromRight, x);
      tree := tree.(pages := tree.pages[left := LeftAfter(a, sep, b, fromRight)][right := RightAfter(a, sep, b, fromRight, x)]);
      assert Shows(left) && Shows(right);
      forall q | q in pages && q != left && q != right ensures Shows(q) {
        assert old(Shows(q));
      }
    }

    method SetSeparator(parent: int, at: int, sep: Key)
      requires Valid() && parent in pages && Shows(parent) && tree.pages[parent].Inner?
      requires 0 <= at < |tree.pages[parent].keys|
      modifies this`tree, pages[parent].keys
      ensures Valid()
      ensures tree == old(tree).(pages := old(tree).pages[parent := Inner(old(tree).pages[parent].parent,
                old(tree).pages[parent].keys[at := sep], old(tree).pages[parent].kids)])
    {
      var node := pages[parent];
      ghost var v := tree.pages[parent];
      node.keys[at] := sep;
      tree := tree.(pages := tree.pages[parent := Inner(v.parent, v.keys[at := sep], v.kids)]);
      assert node.keys[..node.keyNum] == v.keys[at := sep];
      assert Shows(parent);
      forall q | q in pages && q != parent ensures Shows(q) {
        assert old(Shows(q));
      }
    }

    /** The child that changes its parent. */
    method KidToMove(left: IndexNode, right: IndexNode, takes: bool) returns (kid: int)
      requires left.Valid() && right.Valid() && left.isLeaf == right.isLeaf
      ensures kid == if left.isLeaf then NO_PAGE else MovedKid(left.View(), right.View(), takes)
    {
      kid := if left.isLeaf then NO_PAGE
             else if takes then right.rids[0].pageNum
             else left.rids[left.keyNum].pageNum;
    }

    /** The parent is given the new separator, and the child that has moved its new parent. */
    method Relink(parent: int, at: int, sep: Key, kid: int, to: int, ghost left: int, ghost right: int, ghost t: Tree)
      requires Valid() && t == tree && parent in pages && parent in t.pages && t.pages[parent].Inner?
      requires 0 <= at < |t.pages[parent].keys|
      requires kid == NO_PAGE || kid in pages
      requires NO_PAGE !in t.pages
      requires left in t.info && right in t.info && left != right
      modifies this`tree, pages[parent].keys, repr - {this}
      ensures Valid() && tree.order == t.order && tree.root == t.root
      ensures var v := t.pages[parent];
        var m := t.pages[parent := Inner(v.parent, v.keys[at := sep], v.kids)];
        tree.pages == if kid in m then m[kid := m[kid].(parent := to)] else m
      ensures tree.info == t.info[left := t.info[left].(hi := At(Rank(sep)))][right := t.info[right].(lo := At(Rank(sep)))]
    {
      assert Shows(parent);
      SetSeparator(parent, at, sep);
      if kid != NO_PAGE {
        SetParent(kid, pages[kid], to);
      }
      SetRange(left, t.info[left].(hi := At(Rank(sep))));
      SetRange(right, t.info[right].(lo := At(Rank(sep))));
    }

    /** What is read off the two pages and their parent before anything moves. */
    method PlanMove(left: int, right: int, ghost p: int, ghost pp: int, ghost k: nat, ghost fromRight: bool, ghost u: Tree)
      returns (parent: int, at: int, sep: Key, takes: bool, kid: int)
      requires Valid() && u == tree && CanBorrow(u, p, pp, k, fromRight)
      requires left == u.pages[pp].kids[k] && right == u.pages[pp].kids[k + 1]
      ensures pp in u.pages && left in u.pages && right in u.pages && u.pages[pp].Inner?
      ensures parent == pp && at == k < |u.pages[pp].keys| && sep == u.pages[pp].keys[k] && takes == fromRight
      ensures parent in pages && left in pages && right in pages && Shows(left) && Shows(right)
      ensures left != right && left != parent && right != parent && left in u.info && right in u.info
      ensures u.pages[left].Leaf? == u.pages[right].Leaf? == u.pages[p].Leaf? && p == if takes then left else right
      ensures if takes then |u.pages[left].keys| < order - 1 && 1 < |u.pages[right].keys|
              else 0 < |u.pages[left].keys| && |u.pages[right].keys| < order - 1
      ensures u.pages[left].Inner? ==> u.pages[left].kids != [] && u.pages[right].kids != []
      ensures kid == if u.pages[left].Leaf? then NO_PAGE else MovedKid(u.pages[left], u.pages[right], fromRight)
      ensures NO_PAGE !in pages && NO_PAGE !in u.pages && (kid == NO_PAGE || kid in pages)
      ensures pages[left] in repr && pages[left].keys in repr && pages[left].rids in repr
      ensures pages[right] in repr && pages[right].keys in repr && pages[right].rids in repr
      ensures pages[parent].keys in repr
    {
      hide LeftAfter, RightAfter, SepAfter, MovedKid, SlotHolds, CanBorrow, Borrowed;
      BorrowFacts(u, p, pp, k, fromRight);
      BorrowSides(u, p, pp, k, fromRight);
      parent, at, sep := FindSeparator(left, pp);
      assert Shows(left) && Shows(right) && Shows(parent);
      takes := pages[left].keyNum < MinKeys(order, pages[left].isLeaf);
      kid := KidToMove(pages[left], pages[right], takes);
    }

    /** redistribute_nodes: a key moves from one of two neighbours to the other, through the
        parent, and with it a child.  `p` is the underfull one, which was `v` before it lost
        entry `d`. */
    method RedistributeNodes(left: int, right: int, ghost p: int, ghost pp: int, ghost k: nat, ghost fromRight: bool,
                             ghost u: Tree, ghost v: View, ghost d: nat) returns (ghost x: RID)
      requires Valid() && u == tree && CanBorrow(u, p, pp, k, fromRight)
      requires left == u.pages[pp].kids[k] && right == u.pages[pp].kids[k + 1] && p in pages
      requires d < |v.keys| && v.Leaf? == u.pages[p].Leaf? && pages[p].Valid() && p in u.pages
      requires if v.Leaf? then |v.rids| == |v.keys| else |v.kids| == |v.keys| + 1
      requires pages[p].Leftover(v, d)
      modifies this`tree, repr - {this}
      ensures Valid()
      ensures tree == Borrowed(u, p, pp, k, fromRight, x)
      ensures (BorrowFacts(u, p, pp, k, fromRight); SlotHolds(v, d, u.pages[left], u.pages[right], fromRight, repaired, x))
    {
      hide LeftAfter, RightAfter, SepAfter, MovedKid, SlotHolds, CanBorrow, Borrowed, Valid, Mem, Shows;
      BorrowFacts(u, p, pp, k, fromRight);
      BorrowSides(u, p, pp, k, fromRight);
      var parent, at, sep, takes, kid := PlanMove(left, right, p, pp, k, fromRight, u);
      var newSep;
      newSep, x := MoveKey(left, right, sep, takes, u.pages[left], u.pages[right], v, d);
      Relink(parent, at, newSep, kid, if takes then left else right, left, right, tree);
      BorrowedIs(u, p, pp, k, fromRight, x, kid, tree);
    }

    /** The root has lost its last key: its only child becomes the root. */
    method CollapseRoot(root: int, ghost u: Tree)
      requires Valid() && u == tree && root == u.root && CanCollapse(u)
      modifies this`pages, this`tree, this`rootPage, repr - {this}
      ensures Valid() && tree == Collapse(u)
    {
      OnlyChild(u);
      assert Shows(root);
      var kid := pages[root].rids[0].pageNum;
      assert kid == u.pages[root].kids[0];
      SetParent(kid, pages[kid], NO_PAGE);
      SetRoot(kid);
      DisposePage(root);
    }

    /** delete_entry_internal: entry `d` goes from page `p`, which is then helped if it needs
        help.  `t0` is the tree before the whole deletion. */
    method DeleteEntryInternal(p: int, key: Key, ghost d: nat, ghost t0: Tree, ghost t: Tree) returns (rc: RC)
      requires Valid() && t == tree && p in pages && p in t.pages && Shows(p) && Sorted(t.pages[p].keys)
      requires pages[p] in repr && pages[p].keys in repr && pages[p].rids in repr
      requires key in t.pages[p].keys ==>
        && d < |t.pages[p].keys| && t.pages[p].keys[d] == key
        && (if t.pages[p].Leaf? then |t.pages[p].rids| == |t.pages[p].keys| else |t.pages[p].kids| == |t.pages[p].keys| + 1)
        && Pending(t0, t, p, d, Removed(t, p, d))
      requires p in t0.info && t0.root in t0.info && t0.info[p].lvl <= t0.info[t0.root].lvl
      modifies this`pages, this`tree, this`rootPage, repr - {this}
      ensures Valid()
      ensures key !in t.pages[p].keys ==> rc == RECORD_INVALID_KEY && tree == t
      ensures key in t.pages[p].keys ==>
        && rc == SUCCESS
        && (WF(tree) <==> repaired || !Fault(t0, p, d))
        && (WF(tree) ==> forall e :: Has(tree, e) <==> Has(Removed(t, p, d), e))
        && (KeysEnough(Removed(t, p, d), p) ==> tree == Removed(t, p, d))
      decreases t0.info[t0.root].lvl - t0.info[p].lvl, 3
    {
      hide Valid, Mem, Shows, Sorted, Fault, WF, Has, Agree, Pending;
      rc := DeleteEntryFromNode(p, key, d);
      if rc == SUCCESS {
        Rebalance(p, d, t0, t, tree);
      }
    }

    method Rebalance(p: int, ghost d: nat, ghost t0: Tree, ghost t: Tree, ghost u: Tree)
      requires Valid() && u == tree && Pending(t0, t, p, d, u) && p in pages && p in u.pages
      requires pages[p].Valid() && pages[p].Leftover(t.pages[p], d)
      requires p in t0.info && t0.root in t0.info && t0.info[p].lvl <= t0.info[t0.root].lvl
      modifies this`pages, this`tree, this`rootPage, repr - {this}
      ensures Valid()
      ensures WF(tree) <==> repaired || !Fault(t0, p, d)
      ensures WF(tree) ==> forall e :: Has(tree, e) <==> Has(u, e)
      ensures KeysEnough(u, p) ==> tree == u
      decreases t0.info[t0.root].lvl - t0.info[p].lvl, 2
    {
      hide Fault, Has, Ordered, Sorted, Collapse;
      PendingRoot(t0, t, p, d, u);
      assert Shows(p);
      if pages[p].parent == NO_PAGE {
        NoFault(t0, t, p, d, u);
        if pages[p].keyNum == 0 && !pages[p].isLeaf {
          CollapseRoot(p, u);
          CollapseShape(u);
          CollapseOrder(u);
          forall e { CollapseHas(u, e); }
        } else {
          NoUnderflow(u, p);
        }
      } else if pages[p].keyNum >= MinKeys(order, pages[p].isLeaf) {
        NoFault(t0, t, p, d, u);
        NoUnderflow(u, p);
      } else {
        HelpPage(p, d, t0, t, u);
      }
    }

    /** A page is paired with its left neighbour, or, being a first child, with its right one.
        Does the neighbour have a key to spare? */
    method FindNeighbour(p: int, ghost pp: int, ghost j: nat) returns (left: int, right: int, first: bool, spare: bool)
      requires Valid() && p in pages && p in tree.pages && pp in tree.pages && tree.pages[p].parent == pp
      requires tree.pages[pp].Inner? && p in tree.pages[pp].kids && j == IndexOf(tree.pages[pp].kids, p)
      requires |tree.pages[pp].kids| == |tree.pages[pp].keys| + 1 >= 2
      requires tree.pages[pp].kids[if j == 0 then 1 else j - 1] in tree.pages
      ensures first == (j == 0)
      ensures var kids := tree.pages[pp].kids;
        && left == kids[if j == 0 then 0 else j - 1] && right == kids[if j == 0 then 1 else j]
        && spare == (|tree.pages[kids[if j == 0 then 1 else j - 1]].keys| > MinKeys(order, tree.pages[p].Leaf?))
    {
      hide IndexNode.Valid, IndexNode.View, IndexOf;
      assert Shows(p) && Shows(pp);
      pages[p].ViewIs();
      pages[pp].ViewIs();
      var parentPage := ReadParent(p);
      var deleteIndex := FindKid(pages[parentPage], p);
      assert tree.pages[pp].kids[deleteIndex] == p;
      first := deleteIndex == 0;
      var other := ReadKid(parentPage, if first then 1 else deleteIndex - 1);
      left := if first then p else other;
      right := if first then other else p;
      var n := ReadSize(other);
      spare := n > MinKeys(order, pages[p].isLeaf);
    }

    method ReadParent(p: int) returns (parent: int)
      requires Valid() && p in tree.pages
      ensures parent == tree.pages[p].parent
    {
      assert Shows(p);
      parent := pages[p].parent;
    }

    method HelpPage(p: int, ghost d: nat, ghost t0: Tree, ghost t: Tree, ghost u: Tree)
      requires Valid() && u == tree && Pending(t0, t, p, d, u) && p in pages && p in u.pages
      requires p != t0.root && !KeysEnough(u, p) && u.order == order && forall q :: q in u.pages ==> q > 0
      requires pages[p].Valid() && pages[p].Leftover(t.pages[p], d)
      requires p in t0.info && t0.root in t0.info && t0.info[p].lvl <= t0.info[t0.root].lvl
      modifies this`pages, this`tree, this`rootPage, repr - {this}
      ensures Valid()
      ensures WF(tree) <==> repaired || !Fault(t0, p, d)
      ensures WF(tree) ==> forall e :: Has(tree, e) <==> Has(u, e)
      decreases t0.info[t0.root].lvl - t0.info[p].lvl, 1
    {
      hide Fault, Has, Ordered, Sorted, Agree, Merge, Borrowed, Pending, PageShape, Valid, Mem, Shows, Shape, CanBorrow, CanMerge;
      HelpFacts(t0, t, p, d, u);
      ghost var pp, k := u.pages[p].parent, PairOf(t0, p);
      var left, right, first, spare := FindNeighbour(p, pp, IndexOf(u.pages[pp].kids, p));
      if spare {
        ghost var x := RedistributeNodes(left, right, p, pp, k, first, u, t.pages[p], d);
        SlotOutcome(t0, t, p, d, u, pp, k, first, repaired, x);
        BorrowOutcome(u, p, pp, k, first, x);
      } else {
        CoalesceNode(left, right, p, d, pp, k, t0, t, u);
      }
    }

    method CoalesceNode(left: int, right: int, ghost p: int, ghost d: nat, ghost pp: int, ghost k: nat,
                        ghost t0: Tree, ghost t: Tree, ghost u: Tree)
      requires Valid() && u == tree && Pending(t0, t, p, d, u)
      requires p != t0.root && !KeysEnough(u, p) && CanMerge(u, p, pp, k)
      requires pp == t0.pages[p].parent && k == PairOf(t0, p)
      requires left == u.pages[pp].kids[k] && right == u.pages[pp].kids[k + 1]
      requires (Underflow(t0, t, p, d, u); |u.pages[NeighbourOf(t0, p)].keys| <= MinKeys(t0.order, t0.pages[p].Leaf?))
      requires p in t0.info && t0.root in t0.info && t0.info[p].lvl <= t0.info[t0.root].lvl
      modifies this`pages, this`tree, this`rootPage, repr - {this}
      ensures Valid()
      ensures WF(tree) <==> repaired || !Fault(t0, p, d)
      ensures WF(tree) ==> forall e :: Has(tree, e) <==> Has(u, e)
      decreases t0.info[t0.root].lvl - t0.info[p].lvl, 0
    {
      hide Fault, Has, Agree, Merge, Removed, PageShape, Sorted, Shape, Ordered, Pending, Shows, Mem, Valid, KeysEnough, WF;
      MergeFacts(u, p, pp, k);
      MergeStep(t0, t, p, d, u, pp, k);
      MergeIsRel(u, p, pp, k);
      var sep, parent := MergePages(left, right, p, pp, k, u);
      PageIs(pp);
      MergedParent(u, p, pp, k, tree);
      var rc := DeleteEntryInternal(parent, sep, k, t0, tree);
    }

    /** Removes the pair of an attribute and a record. */
    method DeleteEntry(attr: int, rid: RecordId) returns (rc: RC)
      requires Valid() && WF(tree)
      modifies this`pages, this`tree, this`rootPage, repr - {this}
      ensures Valid()
      ensures !old(Has(tree, Key(attr, rid))) ==> rc == RECORD_INVALID_KEY && tree == old(tree)
      ensures old(Has(tree, Key(attr, rid))) ==>
        && rc == SUCCESS
        && (WF(tree) <==> repaired || !FaultyDelete(old(tree), Key(attr, rid)))
        && (WF(tree) ==> forall k :: Has(tree, k) <==> old(Has(tree, k)) && k != Key(attr, rid))
      ensures forall p, d: nat :: CanSpare(old(tree), p, d, Key(attr, rid)) ==> tree == Removed(old(tree), p, d)
    {
      hide Shape, Ordered, Has, Sorted, Within, Fault, Pending, FaultyDelete;
      var key := Key(attr, rid);
      ghost var t := tree;
      var leaf := FindLeaf(key);
      FoundInItsLeaf(t, 0, 0, leaf, key);
      LeafFacts(t, leaf, key);
      LeafLevel(t, leaf);
      assert Shows(leaf);
      ghost var d: nat := 0;
      if key in t.pages[leaf].keys {
        d :| 0 <= d < |t.pages[leaf].keys| && t.pages[leaf].keys[d] == key;
        DeletePending(t, leaf, d, key);
      }
      OnlySpare(t, leaf, d, key);
      rc := DeleteEntryInternal(leaf, key, d, t, t);
    }

    // ---- searching ---------------------------------------------------------------

    /** Looks up the pair of an attribute and a record. */
    method GetEntry(attr: int, rid: RecordId) returns (rc: RC, found: RID)
      requires Valid() && WF(tree)
      ensures rc == SUCCESS || rc == RECORD_INVALID_KEY
      ensures rc == SUCCESS <==> Has(tree, Key(attr, rid))
      ensures rc == SUCCESS ==> found == rid
    {
      var key := Key(attr, rid);
      var leaf := FindLeaf(key);
      LeafFacts(tree, leaf, key);
      assert Shows(leaf) && PageOrder(tree, leaf);
      var node := pages[leaf];
      var i := 0;
      while i < node.keyNum
        invariant 0 <= i <= node.keyNum
        invariant forall j :: 0 <= j < i ==> tree.pages[leaf].keys[j] != key
      {
        if CmpKey(key, node.keys[i]) == 0 {
          assert tree.pages[leaf].keys[i] == key;
          return SUCCESS, node.rids[i];
        }
        i := i + 1;
      }
      return RECORD_INVALID_KEY, RID(0, 0);
    }

    method GetFirstLeafPage() returns (leaf: int)
      requires Valid() && WF(tree)
      ensures leaf == FirstLeaf(tree)
    {
      leaf := rootPage;
      assert PageOrder(tree, leaf);
      while !pages[leaf].isLeaf
        invariant leaf in pages && leaf in tree.info && tree.info[leaf].lo == Open
        invariant FirstLeafOf(tree, leaf) == FirstLeaf(tree)
        decreases tree.info[leaf].lvl
      {
        assert PageShape(tree, leaf, 0, 0) && PageOrder(tree, leaf) && Shows(leaf);
        assert IsKid(tree, leaf, tree.pages[leaf].kids[0]) && KidRange(tree, leaf, 0);
        leaf := pages[leaf].rids[0].pageNum;
      }
      assert Shows(leaf);
    }

    /** The first place from which a scan for `op` and `v` need look; what lies before it is
        not asked for, except entries that are overlooked. */
    method FindFirstIndexSatisfied(op: CompOp, v: int) returns (rc: RC, page: int, index: int)
      requires Valid() && WF(tree)
      ensures rc == SUCCESS || rc == RECORD_EOF
      ensures rc == SUCCESS ==> page > 0 && IsPosition(tree, page, index)
      ensures rc == SUCCESS ==> Pick(op, v, KeysFrom(tree, page, index)) == Found(tree, op, v, AllKeys(tree))
      ensures rc == RECORD_EOF ==> Found(tree, op, v, AllKeys(tree)) == []
      ensures rc == SUCCESS && op == EQUAL_TO ==>
        index < |tree.pages[page].keys| && (tree.pages[page].keys[index].attr == v || Found(tree, op, v, AllKeys(tree)) == [])
    {
      hide Valid, KeysFrom, AllKeys, Found, Overlooked, Within, PageShape, PageOrder;
      if op == LESS_THAN || op == LESS_EQUAL || op == NOT_EQUAL {
        page := GetFirstLeafPage();
        StartAtFirst(tree, op, v);
        return SUCCESS, page, 0;
      }
      var leaf := FindLeaf(Probe(v));
      StartAtProbe(tree, op, v, leaf);
      var next := leaf;
      while next > 0
        invariant next != 0 ==> IsPosition(tree, next, 0)
        invariant Found(tree, op, v, AllKeys(tree)) == if next == 0 then [] else Pick(op, v, KeysFrom(tree, next, 0))
        decreases next > 0, if next > 0 then LeavesFrom(tree, next) else {}
      {
        var i := FirstCandidate(next, op, v);
        if i < pages[next].keyNum {
          if op == EQUAL_TO && tree.pages[next].keys[i].attr > v { NoneEqual(tree, next, i, v); }
          return SUCCESS, next, i;
        }
        NextPosition(tree, next, op, v);
        next := NextOf(next);
      }
      return RECORD_EOF, -1, -1;
    }

    method NextOf(leaf: int) returns (next: int)
      requires Valid() && leaf in tree.pages && tree.pages[leaf].Leaf?
      ensures next == tree.pages[leaf].next
    {
      assert Shows(leaf);
      next := pages[leaf].rids[order - 1].pageNum;
    }

    /** The loop over the keys of one leaf. */
    method FirstCandidate(leaf: int, op: CompOp, v: int) returns (i: int)
      requires Valid() && WF(tree) && IsPosition(tree, leaf, 0)
      requires op != LESS_THAN && op != LESS_EQUAL && op != NOT_EQUAL
      ensures leaf in pages && IsPosition(tree, leaf, i) && pages[leaf].keyNum == |tree.pages[leaf].keys|
      ensures Pick(op, v, KeysFrom(tree, leaf, 0)) == Pick(op, v, KeysFrom(tree, leaf, i))
      ensures op == EQUAL_TO && i < pages[leaf].keyNum ==> tree.pages[leaf].keys[i].attr >= v
    {
      assert Shows(leaf);
      var node := pages[leaf];
      ghost var keys := tree.pages[leaf].keys;
      i := 0;
      while i < node.keyNum
        invariant 0 <= i <= node.keyNum
        invariant forall j :: 0 <= j < i ==> !Satisfies(op, keys[j].attr, v)
      {
        var tmp := CompareInts(node.keys[i].attr, v);
        if (op == EQUAL_TO || op == GREAT_EQUAL) && tmp >= 0 { break; }
        if op == GREAT_THAN && tmp > 0 { break; }
        i := i + 1;
      }
      SkipKeys(tree, leaf, i, op, v);
    }
  }
}
