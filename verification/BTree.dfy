/** The abstract B+ tree: what the pages of an index file mean, when they form a well
    shaped and ordered tree, and what follows from that for searching and scanning. */
module BTree {
  import opened Keys

  /** The meaning of a page.  Slots beyond `key_num` are not part of it. */
  datatype View =
    | Leaf(parent: int, keys: seq<Key>, rids: seq<RID>, next: int)
    | Inner(parent: int, keys: seq<Key>, kids: seq<int>)

  /** An end of a range of ranks; an open end is no limit. */
  datatype Bound = Open | At(rank: int)

  /** Knowledge about a page: its height above the leaves and the ranks its subtree
      may hold, from `lo` (inclusive) to `hi` (exclusive). */
  datatype Info = Info(lvl: nat, lo: Bound, hi: Bound)

  datatype Tree = Tree(order: int, root: int, pages: map<int, View>, info: map<int, Info>)

  const NO_PAGE := -1

  function MinKeys(order: int, leaf: bool): int {
    if leaf then order / 2 else (order + 1) / 2 - 1
  }

  function Insert<T>(s: seq<T>, i: nat, x: T): (r: seq<T>)
    requires i <= |s|
    ensures |r| == |s| + 1
    ensures forall j :: 0 <= j < |r| ==> r[j] == if j < i then s[j] else if j == i then x else s[j - 1]
  {
    s[..i] + [x] + s[i..]
  }

  function Remove<T>(s: seq<T>, i: nat): (r: seq<T>)
    requires i < |s|
    ensures |r| == |s| - 1
    ensures forall j :: 0 <= j < |r| ==> r[j] == if j < i then s[j] else s[j + 1]
  {
    s[..i] + s[i + 1..]
  }

  /** A page without entry `d`, or without key `d` and the child behind it. */
  ghost function Without(v: View, d: nat): View
    requires d < |v.keys|
    requires if v.Leaf? then |v.rids| == |v.keys| else |v.kids| == |v.keys| + 1
  {
    match v
    case Leaf(parent, keys, rids, next) => Leaf(parent, Remove(keys, d), Remove(rids, d), next)
    case Inner(parent, keys, kids) => Inner(parent, Remove(keys, d), Remove(kids, d + 1))
  }

  /** Two neighbouring pages as one. */
  ghost function Joined(l: View, sep: Key, r: View): View
    requires l.Leaf? == r.Leaf?
  {
    if l.Leaf? then Leaf(l.parent, l.keys + r.keys, l.rids + r.rids, r.next)
    else Inner(l.parent, l.keys + [sep] + r.keys, l.kids + r.kids)
  }

  predicate AtLeast(b: Bound, r: int) { b.At? ==> b.rank <= r }
  predicate Below(b: Bound, r: int) { b.At? ==> r < b.rank }
  predicate Above(b: Bound, r: int) { b.At? ==> b.rank < r }
  predicate Within(i: Info, r: int) { AtLeast(i.lo, r) && Below(i.hi, r) }

  ghost predicate Sorted(keys: seq<Key>) {
    forall i, j :: 0 <= i < j < |keys| ==> Rank(keys[i]) < Rank(keys[j])
  }

  // ---- shape ------------------------------------------------------------------

  ghost predicate Distinct(s: seq<int>) {
    forall i, j :: 0 <= i < j < |s| ==> s[i] != s[j]
  }

  /** Occupancy; page `over` may hold one key too many, page `under` one too few. */
  ghost predicate Occupancy(t: Tree, p: int, over: int, under: int)
    requires p in t.pages
  {
    var v := t.pages[p];
    var n := |v.keys| + (if p == under then 1 else 0);
    && |v.keys| <= (if p == over then t.order else t.order - 1)
    && (p != t.root ==> n >= MinKeys(t.order, v.Leaf?))
    && (p == t.root && v.Inner? ==> n >= 1)
  }

  /** Page `c` knows page `p` as its parent and is one level below it. */
  ghost predicate IsKid(t: Tree, p: int, c: int) {
    && p in t.info && c in t.pages && c in t.info
    && t.pages[c].parent == p
    && t.info[c].lvl + 1 == t.info[p].lvl
  }

  ghost predicate PageShape(t: Tree, p: int, over: int, under: int)
    requires p in t.pages && t.root in t.info
  {
    var v := t.pages[p];
    && p in t.info
    && t.info[p].lvl <= t.info[t.root].lvl
    && Occupancy(t, p, over, under)
    && (v.Leaf? ==>
          && |v.rids| == |v.keys|
          && t.info[p].lvl == 0
          && (v.next == 0 || (v.next in t.pages && t.pages[v.next].Leaf?)))
    && (v.Inner? ==>
          && |v.kids| == |v.keys| + 1
          && t.info[p].lvl > 0
          && Distinct(v.kids)
          && forall i :: 0 <= i < |v.kids| ==> IsKid(t, p, v.kids[i]))
    && (if p == t.root then v.parent == NO_PAGE
        else v.parent in t.pages && t.pages[v.parent].Inner? && p in t.pages[v.parent].kids)
  }

  /** Every page has the shape of a B+ tree page; parent and child pointers are inverse;
      all leaves are at height 0.  Pages `over` and `under` may break an occupancy limit. */
  ghost predicate Shape(t: Tree, over: int, under: int) {
    && t.order >= 3
    && t.root in t.pages && t.root in t.info
    && 0 !in t.pages && t.pages.Keys <= t.info.Keys
    && forall p {:trigger PageShape(t, p, over, under)} :: p in t.pages ==> PageShape(t, p, over, under)
  }

  // ---- order ------------------------------------------------------------------

  /** The range of child `i`: the separators around it, or the end of the page's range. */
  ghost function LoOf(t: Tree, p: int, i: nat): Bound
    requires p in t.pages && p in t.info && i <= |t.pages[p].keys|
  {
    if i == 0 then t.info[p].lo else At(Rank(t.pages[p].keys[i - 1]))
  }

  ghost function HiOf(t: Tree, p: int, i: nat): Bound
    requires p in t.pages && p in t.info && i <= |t.pages[p].keys|
  {
    if i == |t.pages[p].keys| then t.info[p].hi else At(Rank(t.pages[p].keys[i]))
  }

  ghost predicate KidRange(t: Tree, p: int, i: nat)
    requires p in t.pages && p in t.info && t.pages[p].Inner?
    requires i < |t.pages[p].kids| == |t.pages[p].keys| + 1
  {
    var c := t.pages[p].kids[i];
    c in t.info && t.info[c].lo == LoOf(t, p, i) && t.info[c].hi == HiOf(t, p, i)
  }

  ghost predicate PageOrder(t: Tree, p: int)
    requires p in t.pages
  {
    var v := t.pages[p];
    && p in t.info
    && var i := t.info[p];
    && (i.lo.At? && i.hi.At? ==> i.lo.rank < i.hi.rank)
    && (p == t.root ==> i.lo == Open && i.hi == Open)
    && Sorted(v.keys)
    && (v.Leaf? ==>
          && (forall j :: 0 <= j < |v.keys| ==> Within(i, Rank(v.keys[j])))
          && |v.rids| == |v.keys|
          && (forall j :: 0 <= j < |v.keys| ==> v.rids[j] == v.keys[j].rid)
          && (v.next == 0 <==> i.hi == Open)
          && (v.next != 0 ==> v.next in t.info && t.info[v.next].lo == i.hi))
    && (v.Inner? ==>
          && (forall j :: 0 <= j < |v.keys| ==> Above(i.lo, Rank(v.keys[j])) && Below(i.hi, Rank(v.keys[j])))
          && |v.kids| == |v.keys| + 1
          && (forall j :: 0 <= j < |v.kids| ==> KidRange(t, p, j)))
  }

  /** Every page is sorted and keeps to its range; ranges are cut by the separators: what
      is left of a separator is smaller, what is right of it is at least as large. */
  ghost predicate Ordered(t: Tree) {
    forall p {:trigger PageOrder(t, p)} :: p in t.pages ==> PageOrder(t, p)
  }

  /** A B+ tree at rest. */
  ghost predicate WF(t: Tree) {
    Shape(t, 0, 0) && Ordered(t) && forall p :: p in t.pages ==> p > 0
  }

  /** The key is an entry of the index. */
  ghost predicate Has(t: Tree, k: Key) {
    exists p :: p in t.pages && t.pages[p].Leaf? && k in t.pages[p].keys
  }

  /** The entries of the index. */
  ghost function Contents(t: Tree): set<Key> {
    set p, i | p in t.pages && t.pages[p].Leaf? && 0 <= i < |t.pages[p].keys| :: t.pages[p].keys[i]
  }

  lemma ContentsHas(t: Tree, k: Key)
    ensures k in Contents(t) <==> Has(t, k)
  {
    if Has(t, k) {
      var p :| p in t.pages && t.pages[p].Leaf? && k in t.pages[p].keys;
      var i :| 0 <= i < |t.pages[p].keys| && t.pages[p].keys[i] == k;
    }
  }

  // ---- searching --------------------------------------------------------------

  /** A child's range lies inside its parent's. */
  lemma KidWithin(t: Tree, p: int, i: nat, r: int)
    requires p in t.pages && t.pages[p].Inner? && PageOrder(t, p) && i < |t.pages[p].kids|
    requires t.pages[p].kids[i] in t.info && Within(t.info[t.pages[p].kids[i]], r)
    ensures Within(t.info[p], r)
  {
    assert KidRange(t, p, i);
    var keys := t.pages[p].keys;
    if i > 0 { assert Above(t.info[p].lo, Rank(keys[i - 1])); }
    if i < |keys| { assert Below(t.info[p].hi, Rank(keys[i])); }
  }

  lemma SiblingsDisjoint(t: Tree, p: int, i: nat, j: nat, r: int)
    requires p in t.pages && t.pages[p].Inner? && PageOrder(t, p) && i < |t.pages[p].kids| && j < |t.pages[p].kids|
    requires KidRange(t, p, i) && KidRange(t, p, j)
    requires Within(t.info[t.pages[p].kids[i]], r) && Within(t.info[t.pages[p].kids[j]], r)
    ensures i == j
  {
  }

  /** On one level, the ranges of different pages have no rank in common. */
  lemma {:induction false} LevelDisjoint(t: Tree, over: int, under: int, p: int, q: int, r: int)
    requires Shape(t, over, under) && Ordered(t)
    requires p in t.pages && q in t.pages && t.info[p].lvl == t.info[q].lvl
    requires Within(t.info[p], r) && Within(t.info[q], r)
    ensures p == q
    decreases t.info[t.root].lvl - t.info[p].lvl
  {
    assert PageShape(t, p, over, under) && PageShape(t, q, over, under);
    if p != t.root && q != t.root {
      var pp, qq := t.pages[p].parent, t.pages[q].parent;
      assert PageShape(t, pp, over, under) && PageShape(t, qq, over, under) && PageOrder(t, pp) && PageOrder(t, qq);
      var i :| 0 <= i < |t.pages[pp].kids| && t.pages[pp].kids[i] == p;
      var j :| 0 <= j < |t.pages[qq].kids| && t.pages[qq].kids[j] == q;
      assert IsKid(t, pp, t.pages[pp].kids[i]) && IsKid(t, qq, t.pages[qq].kids[j]);
      KidWithin(t, pp, i, r);
      KidWithin(t, qq, j, r);
      LevelDisjoint(t, over, under, pp, qq, r);
      SiblingsDisjoint(t, pp, i, j, r);
    } else if p != t.root {
      BelowRoot(t, over, under, p);
    } else if q != t.root {
      BelowRoot(t, over, under, q);
    }
  }

  lemma BelowRoot(t: Tree, over: int, under: int, p: int)
    requires Shape(t, over, under) && p in t.pages && p != t.root
    ensures t.info[p].lvl < t.info[t.root].lvl
  {
    assert PageShape(t, p, over, under);
    var pp := t.pages[p].parent;
    assert PageShape(t, pp, over, under);
    var i :| 0 <= i < |t.pages[pp].kids| && t.pages[pp].kids[i] == p;
    assert IsKid(t, pp, t.pages[pp].kids[i]);
  }

  /** An entry is found in the one leaf whose range holds it. */
  lemma FoundInItsLeaf(t: Tree, over: int, under: int, p: int, k: Key)
    requires Shape(t, over, under) && Ordered(t) && p in t.pages && t.pages[p].Leaf?
    requires Within(t.info[p], Rank(k))
    ensures Has(t, k) <==> k in t.pages[p].keys
  {
    assert PageShape(t, p, over, under);
    if Has(t, k) {
      var q :| q in t.pages && t.pages[q].Leaf? && k in t.pages[q].keys;
      assert PageShape(t, q, over, under) && PageOrder(t, q);
      LevelDisjoint(t, over, under, p, q, Rank(k));
    }
  }

  // ---- the leaf chain ---------------------------------------------------------

  predicate LoLe(a: Bound, b: Bound) { a.At? ==> b.At? && a.rank <= b.rank }

  /** The leaves from `p` on. */
  ghost function LeavesFrom(t: Tree, p: int): set<int>
    requires Shape(t, 0, 0) && p in t.info
  {
    set q | q in t.pages && t.pages[q].Leaf? && q in t.info && LoLe(t.info[p].lo, t.info[q].lo)
  }

  lemma NextLeaf(t: Tree, p: int)
    requires WF(t) && p in t.pages && t.pages[p].Leaf? && t.pages[p].next != 0
    ensures var n := t.pages[p].next;
      && n in t.pages && t.pages[n].Leaf? && n in t.info && p in t.info
      && t.info[p].hi.At? && t.info[n].lo == t.info[p].hi
      && LeavesFrom(t, n) < LeavesFrom(t, p)
  {
    var n := t.pages[p].next;
    assert PageShape(t, p, 0, 0) && PageOrder(t, p);
    FewerLeaves(t, p, n);
  }

  lemma FewerLeaves(t: Tree, p: int, n: int)
    requires Shape(t, 0, 0) && p in t.pages && t.pages[p].Leaf? && p in t.info && n in t.info
    requires t.info[n].lo.At? && LoLe(t.info[p].lo, t.info[n].lo) && t.info[p].lo != t.info[n].lo
    ensures LeavesFrom(t, n) < LeavesFrom(t, p)
  {
    assert p in LeavesFrom(t, p) && p !in LeavesFrom(t, n);
    forall q | q in LeavesFrom(t, n) ensures q in LeavesFrom(t, p) {
      assert LoLe(t.info[p].lo, t.info[q].lo);
    }
  }

  /** The pages met by following the next-leaf pointers from `p`. */
  ghost function Chain(t: Tree, p: int): (c: seq<int>)
    requires WF(t) && p in t.pages && t.pages[p].Leaf?
    ensures c != [] && c[0] == p
    decreases assert PageShape(t, p, 0, 0); LeavesFrom(t, p)
  {
    if t.pages[p].next == 0 then [p]
    else
      NextLeaf(t, p);
      [p] + Chain(t, t.pages[p].next)
  }

  /** The keys met by following the next-leaf pointers from `p`. */
  ghost function ChainKeys(t: Tree, p: int): seq<Key>
    requires WF(t) && p in t.pages && t.pages[p].Leaf?
    decreases assert PageShape(t, p, 0, 0); LeavesFrom(t, p)
  {
    if t.pages[p].next == 0 then t.pages[p].keys
    else
      NextLeaf(t, p);
      t.pages[p].keys + ChainKeys(t, t.pages[p].next)
  }

  /** The chain from `p` holds, in ascending order, exactly the entries of the index at or
      above `p`'s range. */
  lemma {:induction false} ChainIsComplete(t: Tree, p: int)
    requires WF(t) && p in t.pages && t.pages[p].Leaf? && p in t.info
    ensures Sorted(ChainKeys(t, p))
    ensures forall k :: k in ChainKeys(t, p) <==> Has(t, k) && AtLeast(t.info[p].lo, Rank(k))
    decreases LeavesFrom(t, p)
  {
    var v := t.pages[p];
    assert PageShape(t, p, 0, 0) && PageOrder(t, p);
    if v.next != 0 {
      NextLeaf(t, p);
      ChainIsComplete(t, v.next);
      ChainCut(t, p, ChainKeys(t, v.next));
    }
    forall k ensures k in ChainKeys(t, p) <==> Has(t, k) && AtLeast(t.info[p].lo, Rank(k)) {
      if k in v.keys { assert Has(t, k); }
      if Has(t, k) && Within(t.info[p], Rank(k)) { FoundInItsLeaf(t, 0, 0, p, k); }
    }
  }

  lemma ChainCut(t: Tree, p: int, rest: seq<Key>)
    requires p in t.pages && t.pages[p].Leaf? && PageOrder(t, p) && t.info[p].hi.At?
    requires Sorted(rest) && forall k :: k in rest ==> t.info[p].hi.rank <= Rank(k)
    ensures Sorted(t.pages[p].keys + rest)
  {
    var keys := t.pages[p].keys;
    var all := keys + rest;
    forall i, j | 0 <= i < j < |all| ensures Rank(all[i]) < Rank(all[j]) {
      if i < |keys| { assert Within(t.info[p], Rank(keys[i])); }
      if j >= |keys| { assert all[j] in rest; }
    }
  }

  /** The leaf chain visits every leaf exactly once. */
  lemma {:induction false} ChainVisitsEveryLeaf(t: Tree, p: int)
    requires WF(t) && p in t.pages && t.pages[p].Leaf? && p in t.info
    ensures forall q :: q in Chain(t, p) <==> q in LeavesFrom(t, p)
    ensures Distinct(Chain(t, p))
    decreases LeavesFrom(t, p)
  {
    var v := t.pages[p];
    assert PageShape(t, p, 0, 0) && PageOrder(t, p);
    if v.next != 0 {
      NextLeaf(t, p);
      ChainVisitsEveryLeaf(t, v.next);
      assert p !in LeavesFrom(t, v.next);
    }
    forall q | q in LeavesFrom(t, p) ensures q in Chain(t, p) {
      assert PageShape(t, q, 0, 0) && PageOrder(t, q);
      if q != p { LaterLeaf(t, p, q); }
    }
  }

  /** A leaf that does not begin before `p` is `p` or begins after `p`'s range. */
  lemma LaterLeaf(t: Tree, p: int, q: int)
    requires WF(t) && p in t.pages && t.pages[p].Leaf? && p in t.info
    requires q in LeavesFrom(t, p) && q != p
    ensures t.pages[p].next != 0 && t.pages[p].next in t.info && q in LeavesFrom(t, t.pages[p].next)
  {
    assert PageShape(t, p, 0, 0) && PageOrder(t, p) && PageShape(t, q, 0, 0) && PageOrder(t, q);
    var i, j := t.info[p], t.info[q];
    var r := if j.lo.At? then j.lo.rank
             else if i.hi.At? && j.hi.At? then Min(i.hi.rank, j.hi.rank) - 1
             else if i.hi.At? then i.hi.rank - 1
             else if j.hi.At? then j.hi.rank - 1 else 0;
    if Within(i, r) {
      LevelDisjoint(t, 0, 0, p, q, r);
    }
    NextLeaf(t, p);
  }

  function Min(a: int, b: int): int { if a < b then a else b }
}
