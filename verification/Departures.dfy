/** Small index files on which the shipped code breaks the tree: the guards named in the
    contracts of InsertEntry and DeleteEntry are met by real inputs. */
module Departures {
  import opened Keys
  import opened BTree
  import opened BTreeDelete
  import opened BTreeInsert
  import opened BTreeScan
  import opened BTreeShrink
  import opened Comparisons
  import opened IndexHandler

  function K(i: int): Key
    requires 0 <= i < 10
  {
    Key(i, RID(i, 0))
  }

  ghost function R(i: int): Bound
    requires 0 <= i < 10
  {
    At(Rank(K(i)))
  }

  ghost function Rids(keys: seq<Key>): (r: seq<RID>)
    ensures |r| == |keys| && forall i :: 0 <= i < |keys| ==> r[i] == keys[i].rid
  {
    seq(|keys|, i requires 0 <= i < |keys| => keys[i].rid)
  }

  lemma InOrder(i: int, j: int)
    requires 0 <= i < j < 10
    ensures Rank(K(i)) < Rank(K(j))
  {
  }

  /** A leaf page as the handler writes it. */
  ghost function LeafPage(parent: int, keys: seq<Key>, next: int): View {
    Leaf(parent, keys, Rids(keys), next)
  }

  ghost function OneLeaf(keys: seq<Key>): Tree {
    Tree(3, 1, map[1 := LeafPage(NO_PAGE, keys, 0)], map[1 := Info(0, Open, Open)])
  }

  /** Two leaves below a root, from K(4) on in the second. */
  ghost function Leaves(a: seq<Key>, b: seq<Key>): Tree {
    Tree(3, 3,
      map[1 := LeafPage(3, a, 2), 2 := LeafPage(3, b, 0), 3 := Inner(NO_PAGE, [K(4)], [1, 2])],
      map[1 := Info(0, Open, R(4)), 2 := Info(0, R(4), Open), 3 := Info(1, Open, Open)])
  }

  ghost function TwoLeaves(): Tree {
    Leaves([K(1), K(2)], [K(4)])
  }

  ghost function ThreeLeaves(): Tree {
    Tree(3, 3,
      map[1 := LeafPage(3, [K(1)], 2), 2 := LeafPage(3, [K(4)], 4), 4 := LeafPage(3, [K(5), K(6)], 0),
          3 := Inner(NO_PAGE, [K(4), K(5)], [1, 2, 4])],
      map[1 := Info(0, Open, R(4)), 2 := Info(0, R(4), R(5)), 4 := Info(0, R(5), Open), 3 := Info(1, Open, Open)])
  }

  /** Four leaves below two internal pages. */
  ghost function FourLeaves(a: seq<Key>, b: seq<Key>): Tree {
    Tree(3, 7,
      map[1 := LeafPage(3, a, 2), 2 := LeafPage(3, [K(4)], 4), 4 := LeafPage(6, [K(5)], 5), 5 := LeafPage(6, b, 0),
          3 := Inner(7, [K(4)], [1, 2]), 6 := Inner(7, [K(6)], [4, 5]), 7 := Inner(NO_PAGE, [K(5)], [3, 6])],
      map[1 := Info(0, Open, R(4)), 2 := Info(0, R(4), R(5)), 4 := Info(0, R(5), R(6)), 5 := Info(0, R(6), Open),
          3 := Info(1, Open, R(5)), 6 := Info(1, R(5), Open), 7 := Info(2, Open, Open)])
  }

  /** Five leaves, three of them below the first internal page. */
  ghost function ThreeAndTwo(): Tree {
    Tree(3, 7,
      map[1 := LeafPage(3, [K(1)], 8), 8 := LeafPage(3, [K(2), K(3)], 2), 2 := LeafPage(3, [K(4)], 4),
          4 := LeafPage(6, [K(5)], 5), 5 := LeafPage(6, [K(6)], 0),
          3 := Inner(7, [K(2), K(4)], [1, 8, 2]), 6 := Inner(7, [K(6)], [4, 5]), 7 := Inner(NO_PAGE, [K(5)], [3, 6])],
      map[1 := Info(0, Open, R(2)), 8 := Info(0, R(2), R(4)), 2 := Info(0, R(4), R(5)),
          4 := Info(0, R(5), R(6)), 5 := Info(0, R(6), Open),
          3 := Info(1, Open, R(5)), 6 := Info(1, R(5), Open), 7 := Info(2, Open, Open)])
  }

  /** Five leaves, three of them below the second. */
  ghost function TwoAndThree(): Tree {
    Tree(3, 7,
      map[1 := LeafPage(3, [K(1)], 2), 2 := LeafPage(3, [K(4)], 4),
          4 := LeafPage(6, [K(5)], 5), 5 := LeafPage(6, [K(6)], 8), 8 := LeafPage(6, [K(7), K(8)], 0),
          3 := Inner(7, [K(4)], [1, 2]), 6 := Inner(7, [K(6), K(7)], [4, 5, 8]), 7 := Inner(NO_PAGE, [K(5)], [3, 6])],
      map[1 := Info(0, Open, R(4)), 2 := Info(0, R(4), R(5)),
          4 := Info(0, R(5), R(6)), 5 := Info(0, R(6), R(7)), 8 := Info(0, R(7), Open),
          3 := Info(1, Open, R(5)), 6 := Info(1, R(5), Open), 7 := Info(2, Open, Open)])
  }

  // ---- programs that lead to these trees ---------------------------------------------------------

  /** Adding `i`, which is new, to `t` makes `t'` of it. */
  ghost predicate Adds(t: Tree, i: int, t': Tree)
    requires 0 <= i < 10
  {
    exists p, pos: nat :: IsHome(t, p, pos, K(i)) && K(i) !in t.pages[p].keys && InsertedAt(t, p, pos, K(i), t')
  }

  /** Dropping `i` from `t` makes `t'` of it. */
  ghost predicate Drops(t: Tree, i: int, t': Tree)
    requires 0 <= i < 10
  {
    exists p, d: nat :: CanSpare(t, p, d, K(i)) && t' == Removed(t, p, d)
  }

  /** A leaf has room. */
  lemma AddsToLeaf(t: Tree, p: int, pos: nat, i: int, t': Tree)
    requires 0 <= i < 10 && IsHome(t, p, pos, K(i)) && K(i) !in t.pages[p].keys && |t.pages[p].keys| < t.order - 1
    requires var v := t.pages[p];
      t' == t.(pages := t.pages[p := v.(keys := Insert(v.keys, pos, K(i)), rids := Insert(v.rids, pos, K(i).rid))])
    ensures Adds(t, i, t')
  {
    assert InsertedAt(t, p, pos, K(i), t');
  }

  /** A full leaf is split; `u` is the tree with the halves, of which the parent is not told yet. */
  lemma AddsBySplit(t: Tree, p: int, pos: nat, i: int, n: int, u: Tree, h: nat, t': Tree)
    requires 0 <= i < 10 && IsHome(t, p, pos, K(i)) && K(i) !in t.pages[p].keys && |t.pages[p].keys| == t.order - 1
    requires FirstFree(t.pages.Keys, n) && u == SplitLeaf(LeafInsert(t, p, pos, K(i)), p, n)
    requires Told(h, u, t.pages[p].parent, p, Insert(t.pages[p].keys, pos, K(i))[t.order / 2], n, t')
    ensures Adds(t, i, t')
  {
    hide FirstFree, SplitLeaf, Told, Within, Rank;
    assert LeafInsert(t, p, pos, K(i)).pages[p].keys == Insert(t.pages[p].keys, pos, K(i));
    assert InsertedAt(t, p, pos, K(i), t');
  }

  /** The halves of a leaf of two keys and a new one. */
  lemma HalvesAre(t: Tree, p: int, pos: nat, i: int, n: int, a: Key, b: Key, c: Key)
    requires 0 <= i < 10 && p in t.pages && p in t.info && t.order == 3 && n != p && t.pages[p].Leaf? && pos <= |t.pages[p].keys| == 2
    requires t.pages[p].rids == Rids(t.pages[p].keys) && Insert(t.pages[p].keys, pos, K(i)) == [a, b, c]
    ensures var v := t.pages[p];
      SplitLeaf(LeafInsert(t, p, pos, K(i)), p, n) ==
        t.(pages := t.pages[p := LeafPage(v.parent, [a], n)][n := LeafPage(v.parent, [b, c], v.next)],
           info := t.info[p := t.info[p].(hi := At(Rank(b)))][n := t.info[p].(lo := At(Rank(b)))])
  {
    hide Rank, K;
    var v, u := t.pages[p], LeafInsert(t, p, pos, K(i));
    assert u.pages[p].keys == [a, b, c];
    assert u.pages[p].rids == Rids([a, b, c]);
    assert [a, b, c][..1] == [a] && [a, b, c][1..] == [b, c];
    assert Rids([a, b, c])[..1] == Rids([a]) && Rids([a, b, c])[1..] == Rids([b, c]);
  }

  /** Its parent has room for the new page. */
  lemma AddsToParent(t: Tree, p: int, pos: nat, i: int, n: int, a: Key, b: Key, c: Key, t': Tree)
    requires 0 <= i < 10 && IsHome(t, p, pos, K(i)) && K(i) !in t.pages[p].keys && |t.pages[p].keys| == 2 && t.order == 3
    requires t.pages[p].rids == Rids(t.pages[p].keys) && Insert(t.pages[p].keys, pos, K(i)) == [a, b, c]
    requires FirstFree(t.pages.Keys, n) && var pp := t.pages[p].parent;
      pp != NO_PAGE && pp != p && pp in t.pages && t.pages[pp].Inner? && p in t.pages[pp].kids && |t.pages[pp].kids| == |t.pages[pp].keys| + 1 == 2
    requires var v := t.pages[p];
      t' == t.(pages := t.pages[p := LeafPage(v.parent, [a], n)][n := LeafPage(v.parent, [b, c], v.next)]
                               [v.parent := InsKid(t.pages[v.parent], p, b, n)],
               info := t.info[p := t.info[p].(hi := At(Rank(b)))][n := t.info[p].(lo := At(Rank(b)))])
    ensures Adds(t, i, t')
  {
    hide Rank, K, Within, InsKid, FirstFree;
    IsFree(t.pages.Keys, n);
    HalvesAre(t, p, pos, i, n, a, b, c);
    var u := SplitLeaf(LeafInsert(t, p, pos, K(i)), p, n);
    AddsBySplit(t, p, pos, i, n, u, 0, t');
  }

  lemma IsFree(used: set<int>, n: int)
    requires FirstFree(used, n)
    ensures n !in used
  {
  }

  method Add(index: BplusTreeHandler, i: int, ghost t: Tree)
    requires 0 <= i < 10 && index.Valid() && WF(index.tree) && Adds(index.tree, i, t)
    modifies index, index.repr
    ensures index.Valid() && index.tree == t && WF(t) && fresh(index.repr - old(index.repr))
  {
    hide WF, Has, IsHome, InFullLeaf, InsertedAt, Inserted;
    ghost var t0 := index.tree;
    IsNew(t0, i, t);
    var rc := index.InsertEntry(i, RID(i, 0));
    InsertedIsOne(t0, K(i), t, index.tree);
  }

  lemma IsNew(t: Tree, i: int, t': Tree)
    requires 0 <= i < 10 && WF(t) && Adds(t, i, t')
    ensures !Has(t, K(i)) && Inserted(t, K(i), t')
  {
    hide WF, Has, InsertedAt;
    var p, pos: nat :| IsHome(t, p, pos, K(i)) && K(i) !in t.pages[p].keys && InsertedAt(t, p, pos, K(i), t');
    LeafFacts(t, p, K(i));
  }

  method Drop(index: BplusTreeHandler, i: int, ghost t: Tree)
    requires 0 <= i < 10 && index.Valid() && WF(index.tree) && Drops(index.tree, i, t)
    modifies index, index.repr
    ensures index.Valid() && index.tree == t && WF(t) && index.repr == old(index.repr)
  {
    hide WF, Has, FaultyDelete, CanSpare;
    DropKeeps(index.tree, i, t);
    var rc := index.DeleteEntry(i, RID(i, 0));
  }

  lemma DropKeeps(t: Tree, i: int, t': Tree)
    requires 0 <= i < 10 && WF(t) && Drops(t, i, t')
    ensures WF(t')
  {
    hide Shape, Ordered, Has, FaultyDelete, Fault, KeysEnough;
    var p, d: nat :| CanSpare(t, p, d, K(i)) && t' == Removed(t, p, d);
    DeletePending(t, p, d, K(i));
    NoUnderflow(t', p);
  }

  lemma AddTheFirst()
    ensures EmptyTree(3) == OneLeaf([]) && Adds(OneLeaf([]), 1, OneLeaf([K(1)]))
  {
    hide Rank;
    assert EmptyTree(3).pages == OneLeaf([]).pages;
    assert Insert([], 0, K(1)) == [K(1)] && Insert(Rids([]), 0, K(1).rid) == Rids([K(1)]);
    assert IsHome(OneLeaf([]), 1, 0, K(1));
    AddsToLeaf(OneLeaf([]), 1, 0, 1, OneLeaf([K(1)]));
  }

  lemma AddTheSecond()
    ensures Adds(OneLeaf([K(1)]), 4, OneLeaf([K(1), K(4)]))
  {
    hide Rank;
    InOrder(1, 4);
    assert Insert([K(1)], 1, K(4)) == [K(1), K(4)] && Insert(Rids([K(1)]), 1, K(4).rid) == Rids([K(1), K(4)]);
    assert IsHome(OneLeaf([K(1)]), 1, 1, K(4));
    AddsToLeaf(OneLeaf([K(1)]), 1, 1, 4, OneLeaf([K(1), K(4)]));
  }

  /** The only leaf is split, and a root is put above the halves. */
  lemma SplitOneLeaf()
    ensures Adds(OneLeaf([K(1), K(4)]), 5, Leaves([K(1)], [K(4), K(5)]))
  {
    hide Rank;
    var t := OneLeaf([K(1), K(4)]);
    InOrder(1, 4); InOrder(4, 5); InOrder(1, 5);
    assert IsHome(t, 1, 2, K(5));
    assert Insert([K(1), K(4)], 2, K(5)) == [K(1), K(4), K(5)];
    HalvesAre(t, 1, 2, 5, 2, K(1), K(4), K(5));
    var u := SplitLeaf(LeafInsert(t, 1, 2, K(5)), 1, 2);
    assert GrowRoot(u, 1, K(4), 2, 3).pages == Leaves([K(1)], [K(4), K(5)]).pages;
    assert FirstFree(t.pages.Keys, 2) && FirstFree(u.pages.Keys, 3);
    AddsBySplit(t, 1, 2, 5, 2, u, 0, Leaves([K(1)], [K(4), K(5)]));
  }

  lemma AddToFirstLeaf()
    ensures Adds(Leaves([K(1)], [K(4), K(5)]), 2, Leaves([K(1), K(2)], [K(4), K(5)]))
  {
    hide Rank;
    var t := Leaves([K(1)], [K(4), K(5)]);
    InOrder(1, 2); InOrder(2, 4);
    assert Insert([K(1)], 1, K(2)) == [K(1), K(2)] && Insert(Rids([K(1)]), 1, K(2).rid) == Rids([K(1), K(2)]);
    assert IsHome(t, 1, 1, K(2));
    AddsToLeaf(t, 1, 1, 2, Leaves([K(1), K(2)], [K(4), K(5)]));
  }

  lemma DropFromSecondLeaf()
    ensures Drops(Leaves([K(1), K(2)], [K(4), K(5)]), 5, TwoLeaves())
  {
    var t := Leaves([K(1), K(2)], [K(4), K(5)]);
    assert t.pages[2].keys[1] == K(5);
    assert Remove([K(4), K(5)], 1) == [K(4)] && Remove(Rids([K(4), K(5)]), 1) == Rids([K(4)]);
    assert Removed(t, 2, 1).pages == TwoLeaves().pages;
    assert CanSpare(t, 2, 1, K(5));
  }

  /** The second leaf is split, and its parent has room for one more. */
  lemma SplitSecondLeaf()
    ensures Adds(Leaves([K(1)], [K(4), K(5)]), 6, ThreeLeaves())
  {
    hide Rank;
    var t := Leaves([K(1)], [K(4), K(5)]);
    InOrder(4, 5); InOrder(4, 6); InOrder(5, 6);
    assert IsHome(t, 2, 2, K(6));
    assert Insert([K(4), K(5)], 2, K(6)) == [K(4), K(5), K(6)];
    assert InsKid(t.pages[3], 2, K(5), 4) == Inner(NO_PAGE, [K(4), K(5)], [1, 2, 4]);
    AddsToParent(t, 2, 2, 6, 4, K(4), K(5), K(6), ThreeLeaves());
  }

  /** The root has received a fourth child, and is split. */
  ghost function FullRoot(): Tree {
    Tree(3, 3,
      map[1 := LeafPage(3, [K(1)], 2), 2 := LeafPage(3, [K(4)], 4), 4 := LeafPage(3, [K(5)], 5), 5 := LeafPage(3, [K(6), K(7)], 0),
          3 := Inner(NO_PAGE, [K(4), K(5), K(6)], [1, 2, 4, 5])],
      map[1 := Info(0, Open, R(4)), 2 := Info(0, R(4), R(5)), 4 := Info(0, R(5), R(6)), 5 := Info(0, R(6), Open),
          3 := Info(1, Open, Open)])
  }

  ghost function HalfRoots(): Tree {
    Tree(3, 3,
      map[1 := LeafPage(3, [K(1)], 2), 2 := LeafPage(3, [K(4)], 4), 4 := LeafPage(6, [K(5)], 5), 5 := LeafPage(6, [K(6), K(7)], 0),
          3 := Inner(NO_PAGE, [K(4)], [1, 2]), 6 := Inner(NO_PAGE, [K(6)], [4, 5])],
      map[1 := Info(0, Open, R(4)), 2 := Info(0, R(4), R(5)), 4 := Info(0, R(5), R(6)), 5 := Info(0, R(6), Open),
          3 := Info(1, Open, R(5)), 6 := Info(1, R(5), Open)])
  }

  lemma HalvesReparented(m: map<int, View>)
    requires m == FullRoot().pages[3 := Inner(NO_PAGE, [K(4)], [1, 2])][6 := Inner(NO_PAGE, [K(6)], [4, 5])]
    ensures Reparent(m, [4, 5], 6) == HalfRoots().pages
  {
    hide Rank, K;
  }

  lemma SplitRoot()
    ensures FirstFree(FullRoot().pages.Keys, 6) && SplitInner(FullRoot(), 3, 6) == HalfRoots() && UpKey(FullRoot(), 3) == K(5)
  {
    hide Rank, K, Reparent;
    var keys, kids := FullRoot().pages[3].keys, FullRoot().pages[3].kids;
    assert keys[..1] == [K(4)] && keys[2..] == [K(6)] && kids[..2] == [1, 2] && kids[2..] == [4, 5];
    assert HalveInner(FullRoot(), 3, 6).pages[6].kids == [4, 5];
    HalvesReparented(HalveInner(FullRoot(), 3, 6).pages);
  }

  lemma RootOverHalves()
    ensures Told(0, HalfRoots(), NO_PAGE, 3, K(5), 6, FourLeaves([K(1)], [K(6), K(7)]))
  {
    hide Rank, K;
    assert FirstFree(HalfRoots().pages.Keys, 7);
    assert GrowRoot(HalfRoots(), 3, K(5), 6, 7).pages == FourLeaves([K(1)], [K(6), K(7)]).pages;
  }

  lemma SplitLastOfThree() returns (u: Tree)
    ensures var t := ThreeLeaves();
      && IsHome(t, 4, 2, K(7)) && K(7) !in t.pages[4].keys && Insert(t.pages[4].keys, 2, K(7)) == [K(5), K(6), K(7)]
      && FirstFree(t.pages.Keys, 5) && u == SplitLeaf(LeafInsert(t, 4, 2, K(7)), 4, 5)
    ensures CanLink(u, 3, 4) && Linked(u, 3, 4, K(6), 5) == FullRoot() && u.order == 3 && |u.pages[3].keys| == 2
    ensures u.pages.Keys == FullRoot().pages.Keys
  {
    hide Rank;
    var t := ThreeLeaves();
    InOrder(5, 6); InOrder(5, 7); InOrder(6, 7);
    assert Insert([K(5), K(6)], 2, K(7)) == [K(5), K(6), K(7)];
    HalvesAre(t, 4, 2, 7, 5, K(5), K(6), K(7));
    u := SplitLeaf(LeafInsert(t, 4, 2, K(7)), 4, 5);
    assert InsKid(u.pages[3], 4, K(6), 5) == Inner(NO_PAGE, [K(4), K(5), K(6)], [1, 2, 4, 5]);
    assert Linked(u, 3, 4, K(6), 5).pages == FullRoot().pages;
  }

  /** The last leaf is split, then its parent, and a root is put above the halves of that. */
  lemma SplitTwoLevels()
    ensures Adds(ThreeLeaves(), 7, FourLeaves([K(1)], [K(6), K(7)]))
  {
    hide Rank, FourLeaves, HalfRoots, SplitInner, UpKey, SplitLeaf, LeafInsert, Linked, IsHome, FirstFree, Adds;
    var u := SplitLastOfThree();
    SplitRoot();
    RootOverHalves();
    assert SplitAndTold(0, u.pages.Keys, FullRoot(), 3, FourLeaves([K(1)], [K(6), K(7)]));
    assert Told(1, u, 3, 4, K(6), 5, FourLeaves([K(1)], [K(6), K(7)]));
    AddsBySplit(ThreeLeaves(), 4, 2, 7, 5, u, 1, FourLeaves([K(1)], [K(6), K(7)]));
  }

  lemma DropFromLastLeaf()
    ensures Drops(FourLeaves([K(1)], [K(6), K(7)]), 7, FourLeaves([K(1)], [K(6)]))
  {
    var t := FourLeaves([K(1)], [K(6), K(7)]);
    assert t.pages[5].keys[1] == K(7);
    assert Remove([K(6), K(7)], 1) == [K(6)] && Remove(Rids([K(6), K(7)]), 1) == Rids([K(6)]);
    assert Removed(t, 5, 1).pages == FourLeaves([K(1)], [K(6)]).pages;
    assert CanSpare(t, 5, 1, K(7));
  }

  lemma FillFirstLeaf()
    ensures Adds(FourLeaves([K(1)], [K(6)]), 2, FourLeaves([K(1), K(2)], [K(6)]))
  {
    hide Rank;
    var t := FourLeaves([K(1)], [K(6)]);
    InOrder(1, 2); InOrder(2, 4);
    assert Insert([K(1)], 1, K(2)) == [K(1), K(2)] && Insert(Rids([K(1)]), 1, K(2).rid) == Rids([K(1), K(2)]);
    assert IsHome(t, 1, 1, K(2));
    AddsToLeaf(t, 1, 1, 2, FourLeaves([K(1), K(2)], [K(6)]));
  }

  lemma SplitFirstLeaf()
    ensures Adds(FourLeaves([K(1), K(2)], [K(6)]), 3, ThreeAndTwo())
  {
    hide Rank;
    var t := FourLeaves([K(1), K(2)], [K(6)]);
    InOrder(1, 2); InOrder(1, 3); InOrder(2, 3); InOrder(3, 4);
    assert IsHome(t, 1, 2, K(3));
    assert Insert([K(1), K(2)], 2, K(3)) == [K(1), K(2), K(3)];
    assert InsKid(t.pages[3], 1, K(2), 8) == Inner(7, [K(2), K(4)], [1, 8, 2]);
    AddsToParent(t, 1, 2, 3, 8, K(1), K(2), K(3), ThreeAndTwo());
  }

  lemma SplitLastLeaf()
    ensures Adds(FourLeaves([K(1)], [K(6), K(7)]), 8, TwoAndThree())
  {
    hide Rank;
    var t := FourLeaves([K(1)], [K(6), K(7)]);
    InOrder(6, 7); InOrder(6, 8); InOrder(7, 8);
    assert IsHome(t, 5, 2, K(8));
    assert Insert([K(6), K(7)], 2, K(8)) == [K(6), K(7), K(8)];
    assert InsKid(t.pages[6], 5, K(7), 8) == Inner(7, [K(6), K(7)], [4, 5, 8]);
    AddsToParent(t, 5, 2, 8, 8, K(6), K(7), K(8), TwoAndThree());
  }

  /** A new index, to which 1, 4 and 5 are added: the leaf is split. */
  method BuildRoot(repaired: bool) returns (index: BplusTreeHandler)
    ensures fresh(index) && index.Valid() && fresh(index.repr) && index.repaired == repaired
    ensures index.tree == Leaves([K(1)], [K(4), K(5)]) && WF(index.tree)
  {
    hide OneLeaf, Leaves, Adds, WF, EmptyTree, BplusTreeHandler.Valid;
    index := new BplusTreeHandler.Create(3, repaired);
    AddTheFirst();
    Add(index, 1, OneLeaf([K(1)]));
    AddTheSecond();
    Add(index, 4, OneLeaf([K(1), K(4)]));
    SplitOneLeaf();
    Add(index, 5, Leaves([K(1)], [K(4), K(5)]));
  }

  /** Then 2 is added and 5 is dropped. */
  method BuildTwoLeaves(repaired: bool) returns (index: BplusTreeHandler)
    ensures fresh(index) && index.Valid() && fresh(index.repr) && index.repaired == repaired
    ensures index.tree == TwoLeaves() && WF(index.tree)
  {
    hide Leaves, TwoLeaves, Adds, Drops, WF, BplusTreeHandler.Valid;
    index := BuildRoot(repaired);
    AddToFirstLeaf();
    Add(index, 2, Leaves([K(1), K(2)], [K(4), K(5)]));
    DropFromSecondLeaf();
    Drop(index, 5, TwoLeaves());
  }

  /** Or 6 and 7 are added: the root is split. */
  method BuildFourLeaves(repaired: bool) returns (index: BplusTreeHandler)
    ensures fresh(index) && index.Valid() && fresh(index.repr) && index.repaired == repaired
    ensures index.tree == FourLeaves([K(1)], [K(6), K(7)]) && WF(index.tree)
  {
    hide Leaves, ThreeLeaves, FourLeaves, Adds, WF, BplusTreeHandler.Valid;
    index := BuildRoot(repaired);
    SplitSecondLeaf();
    Add(index, 6, ThreeLeaves());
    SplitTwoLevels();
    Add(index, 7, FourLeaves([K(1)], [K(6), K(7)]));
  }

  /** Then 7 is dropped and 2 and 3 are added. */
  method BuildThreeAndTwo(repaired: bool) returns (index: BplusTreeHandler)
    ensures fresh(index) && index.Valid() && fresh(index.repr) && index.repaired == repaired
    ensures index.tree == ThreeAndTwo() && WF(index.tree)
  {
    hide FourLeaves, ThreeAndTwo, Adds, Drops, WF, BplusTreeHandler.Valid;
    index := BuildFourLeaves(repaired);
    DropFromLastLeaf();
    Drop(index, 7, FourLeaves([K(1)], [K(6)]));
    FillFirstLeaf();
    Add(index, 2, FourLeaves([K(1), K(2)], [K(6)]));
    SplitFirstLeaf();
    Add(index, 3, ThreeAndTwo());
  }

  /** Or 8 is added. */
  method BuildTwoAndThree(repaired: bool) returns (index: BplusTreeHandler)
    ensures fresh(index) && index.Valid() && fresh(index.repr) && index.repaired == repaired
    ensures index.tree == TwoAndThree() && WF(index.tree)
  {
    hide FourLeaves, TwoAndThree, Adds, WF, BplusTreeHandler.Valid;
    index := BuildFourLeaves(repaired);
    SplitLastLeaf();
    Add(index, 8, TwoAndThree());
  }

  // ---- what goes wrong there ---------------------------------------------------------------------

  lemma TwoLeavesIsWF()
    ensures WF(TwoLeaves())
  {
    hide TwoLeaves, PageShape, PageOrder;
    TwoLeavesShape();
    TwoLeavesOrder();
  }

  lemma TwoLeavesShape()
    ensures var t := TwoLeaves();
      && t.order == 3 && t.root == 3 && t.pages.Keys == t.info.Keys == {1, 2, 3}
      && PageShape(t, 1, 0, 0) && PageShape(t, 2, 0, 0) && PageShape(t, 3, 0, 0)
  {
    hide Rank;
    assert IsKid(TwoLeaves(), 3, 1) && IsKid(TwoLeaves(), 3, 2);
  }

  lemma TwoLeavesOrder()
    ensures PageOrder(TwoLeaves(), 1) && PageOrder(TwoLeaves(), 2) && PageOrder(TwoLeaves(), 3)
  {
    assert KidRange(TwoLeaves(), 3, 0) && KidRange(TwoLeaves(), 3, 1);
  }

  /** Inserting an entry that is present, into a full leaf, stores it twice. */
  lemma DuplicateIntoFullLeaf()
    ensures WF(TwoLeaves()) && Has(TwoLeaves(), K(1)) && InFullLeaf(TwoLeaves(), K(1))
  {
    TwoLeavesIsWF();
    var t := TwoLeaves();
    assert K(1) == t.pages[1].keys[0];
    assert 1 in t.pages && t.pages[1].Leaf? && K(1) in t.pages[1].keys;
    assert Within(t.info[1], Rank(K(1)));
  }

  /** Deleting the only entry of the right leaf moves a key over without its RID. */
  lemma LeafBorrowsFromLeft()
    ensures WF(TwoLeaves()) && Has(TwoLeaves(), K(4)) && FaultyDelete(TwoLeaves(), K(4))
  {
    TwoLeavesIsWF();
    var t := TwoLeaves();
    assert K(4) == t.pages[2].keys[0];
    assert 2 in t.pages && t.pages[2].Leaf? && K(4) in t.pages[2].keys;
    var kids := t.pages[3].kids;
    assert kids[IndexOf(kids, 2)] == 2;
    assert Fault(t, 2, 0);
  }

  /** One more drop, and the tree is well formed only if the moves are the intended ones. */
  method DropUntilLeafBorrows(repaired: bool) returns (index: BplusTreeHandler)
    ensures index.Valid() && (WF(index.tree) <==> repaired)
  {
    hide TwoLeaves, WF, Has, FaultyDelete, InFullLeaf;
    index := BuildTwoLeaves(repaired);
    LeafBorrowsFromLeft();
    var rc := index.DeleteEntry(4, RID(4, 0));
  }

  /** One more add of what is there already, and the tree holds it twice. */
  method AddTwice(repaired: bool) returns (index: BplusTreeHandler)
    ensures index.Valid() && !WF(index.tree)
  {
    hide TwoLeaves, WF, Has, FaultyDelete, InFullLeaf;
    index := BuildTwoLeaves(repaired);
    DuplicateIntoFullLeaf();
    var rc := index.InsertEntry(1, RID(1, 0));
  }

  lemma ThreeAndTwoLeafShape()
    ensures var t := ThreeAndTwo();
      PageShape(t, 1, 0, 0) && PageShape(t, 8, 0, 0) && PageShape(t, 2, 0, 0) && PageShape(t, 4, 0, 0) && PageShape(t, 5, 0, 0)
  {
    hide Rank, K;
    var t := ThreeAndTwo();
    assert t.pages[3].kids == [1, 8, 2] && t.pages[6].kids == [4, 5];
  }

  lemma ThreeAndTwoInnerShape()
    ensures var t := ThreeAndTwo();
      && t.order == 3 && t.root == 7 && t.pages.Keys == t.info.Keys == {1, 2, 3, 4, 5, 6, 7, 8}
      && PageShape(t, 3, 0, 0) && PageShape(t, 6, 0, 0) && PageShape(t, 7, 0, 0)
  {
    hide Rank, K;
    var t := ThreeAndTwo();
    assert t.pages[7].kids == [3, 6];
    assert IsKid(t, 3, 1) && IsKid(t, 3, 8) && IsKid(t, 3, 2) && IsKid(t, 6, 4) && IsKid(t, 6, 5) && IsKid(t, 7, 3) && IsKid(t, 7, 6);
  }

  lemma ThreeAndTwoLeaves()
    ensures var t := ThreeAndTwo();
      PageOrder(t, 1) && PageOrder(t, 8) && PageOrder(t, 2) && PageOrder(t, 4) && PageOrder(t, 5)
  {
    hide Rank;
    InOrder(1, 2); InOrder(2, 3); InOrder(3, 4); InOrder(4, 5); InOrder(5, 6);
  }

  lemma ThreeAndTwoInner()
    ensures var t := ThreeAndTwo(); PageOrder(t, 3) && PageOrder(t, 6) && PageOrder(t, 7)
  {
    hide Rank, K;
    var t := ThreeAndTwo();
    InOrder(1, 2); InOrder(2, 3); InOrder(3, 4); InOrder(4, 5); InOrder(5, 6);
    assert KidRange(t, 3, 0) && KidRange(t, 3, 1) && KidRange(t, 3, 2) && KidRange(t, 7, 0) && KidRange(t, 7, 1);
    assert KidRange(t, 6, 0) && KidRange(t, 6, 1);
  }

  lemma TwoAndThreeLeafShape()
    ensures var t := TwoAndThree();
      PageShape(t, 1, 0, 0) && PageShape(t, 8, 0, 0) && PageShape(t, 2, 0, 0) && PageShape(t, 4, 0, 0) && PageShape(t, 5, 0, 0)
  {
    hide Rank, K;
    var t := TwoAndThree();
    assert t.pages[3].kids == [1, 2] && t.pages[6].kids == [4, 5, 8];
  }

  lemma TwoAndThreeInnerShape()
    ensures var t := TwoAndThree();
      && t.order == 3 && t.root == 7 && t.pages.Keys == t.info.Keys == {1, 2, 3, 4, 5, 6, 7, 8}
      && PageShape(t, 3, 0, 0) && PageShape(t, 6, 0, 0) && PageShape(t, 7, 0, 0)
  {
    hide Rank, K;
    var t := TwoAndThree();
    assert t.pages[7].kids == [3, 6];
    assert IsKid(t, 3, 1) && IsKid(t, 3, 2) && IsKid(t, 6, 4) && IsKid(t, 6, 5) && IsKid(t, 6, 8) && IsKid(t, 7, 3) && IsKid(t, 7, 6);
  }

  lemma TwoAndThreeLeaves()
    ensures var t := TwoAndThree();
      PageOrder(t, 1) && PageOrder(t, 8) && PageOrder(t, 2) && PageOrder(t, 4) && PageOrder(t, 5)
  {
    hide Rank;
    InOrder(1, 4); InOrder(4, 5); InOrder(5, 6); InOrder(6, 7); InOrder(7, 8);
  }

  lemma TwoAndThreeInner()
    ensures var t := TwoAndThree(); PageOrder(t, 3) && PageOrder(t, 6) && PageOrder(t, 7)
  {
    hide Rank, K;
    var t := TwoAndThree();
    InOrder(1, 4); InOrder(4, 5); InOrder(5, 6); InOrder(6, 7); InOrder(7, 8);
    assert KidRange(t, 3, 0) && KidRange(t, 3, 1) && KidRange(t, 7, 0) && KidRange(t, 7, 1);
    assert KidRange(t, 6, 0) && KidRange(t, 6, 1) && KidRange(t, 6, 2);
  }

  lemma FiveLeavesAreWF()
    ensures WF(ThreeAndTwo()) && WF(TwoAndThree())
  {
    hide ThreeAndTwo, TwoAndThree, PageShape, PageOrder;
    ThreeAndTwoLeafShape();
    ThreeAndTwoInnerShape();
    ThreeAndTwoLeaves();
    ThreeAndTwoInner();
    TwoAndThreeLeafShape();
    TwoAndThreeInnerShape();
    TwoAndThreeLeaves();
    TwoAndThreeInner();
  }

  /** A merge leaves the second internal page without keys, and it takes a child over from
      the first: the child it had is overwritten. */
  lemma InnerBorrowsFromLeft()
    ensures WF(ThreeAndTwo()) && Has(ThreeAndTwo(), K(5)) && FaultyDelete(ThreeAndTwo(), K(5))
  {
    FiveLeavesAreWF();
    var t := ThreeAndTwo();
    assert t.pages[4].Leaf? && t.pages[4].keys[0] == K(5);
    var kids, kids' := t.pages[6].kids, t.pages[7].kids;
    assert kids[IndexOf(kids, 4)] == 4 && kids'[IndexOf(kids', 6)] == 6;
    assert Fault(t, 6, 0);
    assert Fault(t, 4, 0);
  }

  /** A merge leaves the first internal page without keys, and it takes a child over from
      the second, which loses its last child as well. */
  lemma InnerBorrowsFromRight()
    ensures WF(TwoAndThree()) && Has(TwoAndThree(), K(1)) && FaultyDelete(TwoAndThree(), K(1))
  {
    FiveLeavesAreWF();
    var t := TwoAndThree();
    assert t.pages[1].Leaf? && t.pages[1].keys[0] == K(1);
    var kids, kids' := t.pages[3].kids, t.pages[7].kids;
    assert kids[IndexOf(kids, 1)] == 1 && kids'[IndexOf(kids', 3)] == 3;
    assert Fault(t, 3, 0);
    assert Fault(t, 1, 0);
  }

  /** Nine operations on a new index, after which a child is missing unless the moves are the intended ones. */
  method DropUntilInnerBorrowsFromLeft(repaired: bool) returns (index: BplusTreeHandler)
    ensures index.Valid() && (WF(index.tree) <==> repaired)
  {
    hide ThreeAndTwo, WF, Has, FaultyDelete;
    index := BuildThreeAndTwo(repaired);
    InnerBorrowsFromLeft();
    var rc := index.DeleteEntry(5, RID(5, 0));
  }

  /** Seven are enough for the other side. */
  method DropUntilInnerBorrowsFromRight(repaired: bool) returns (index: BplusTreeHandler)
    ensures index.Valid() && (WF(index.tree) <==> repaired)
  {
    hide TwoAndThree, WF, Has, FaultyDelete;
    index := BuildTwoAndThree(repaired);
    InnerBorrowsFromRight();
    var rc := index.DeleteEntry(1, RID(1, 0));
  }

  /** Two entries with one value, whose RIDs are below (-1, -1), in a leaf of their own. */
  ghost function SmallRids(): Tree {
    var a, b, c := Key(1, RID(-3, 0)), Key(1, RID(-2, 0)), Probe(1);
    Tree(3, 3,
      map[1 := Leaf(3, [a, b], [a.rid, b.rid], 2), 2 := Leaf(3, [c], [c.rid], 0), 3 := Inner(NO_PAGE, [c], [1, 2])],
      map[1 := Info(0, Open, At(Rank(c))), 2 := Info(0, At(Rank(c)), Open), 3 := Info(1, Open, Open)])
  }

  lemma SmallRidsIsWF()
    ensures WF(SmallRids())
  {
    var t := SmallRids();
    assert IsKid(t, 3, 1) && IsKid(t, 3, 2) && KidRange(t, 3, 0) && KidRange(t, 3, 1);
    assert PageShape(t, 1, 0, 0) && PageShape(t, 2, 0, 0) && PageShape(t, 3, 0, 0);
    assert PageOrder(t, 1) && PageOrder(t, 2) && PageOrder(t, 3);
  }

  /** A scan for that value begins behind them. */
  lemma SmallRidsAreOverlooked()
    ensures WF(SmallRids()) && Has(SmallRids(), Key(1, RID(-2, 0)))
    ensures Overlooked(SmallRids(), EQUAL_TO, 1, Key(1, RID(-2, 0)))
  {
    hide WF;
    SmallRidsIsWF();
    var t := SmallRids();
    assert t.pages[1].Leaf? && t.pages[1].keys[1] == Key(1, RID(-2, 0));
    assert Within(t.info[2], Rank(Probe(1)));
  }
}
