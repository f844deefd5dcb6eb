/** What inserting does to the abstract tree.  A page that has received one key too many
    is split in two and the new page is handed to the parent, which may overflow in turn. */
module BTreeInsert {
  import opened Keys
  import opened BTree

  function IndexOf(s: seq<int>, x: int): (i: nat)
    requires x in s
    ensures i < |s| && s[i] == x
    ensures forall j :: 0 <= j < i ==> s[j] != x
  {
    if s[0] == x then 0 else 1 + IndexOf(s[1..], x)
  }

  /** The place of a new key: before the first larger one. */
  ghost predicate IsPlace(keys: seq<Key>, i: int, k: Key) {
    && 0 <= i <= |keys|
    && (forall j :: 0 <= j < i ==> Rank(keys[j]) <= Rank(k))
    && (i < |keys| ==> Rank(k) < Rank(keys[i]))
  }

  ghost function LeafInsert(t: Tree, p: int, i: nat, k: Key): Tree
    requires p in t.pages && t.pages[p].Leaf? && i <= |t.pages[p].keys| == |t.pages[p].rids|
  {
    var v := t.pages[p];
    t.(pages := t.pages[p := v.(keys := Insert(v.keys, i, k), rids := Insert(v.rids, i, k.rid))])
  }

  lemma LeafInsertShape(t: Tree, p: int, i: nat, k: Key)
    requires Shape(t, 0, 0) && p in t.pages && t.pages[p].Leaf?
    requires i <= |t.pages[p].keys| == |t.pages[p].rids|
    ensures Shape(LeafInsert(t, p, i, k), p, 0)
    ensures |t.pages[p].keys| < t.order - 1 ==> Shape(LeafInsert(t, p, i, k), 0, 0)
  {
    var t' := LeafInsert(t, p, i, k);
    forall q | q in t'.pages
      ensures PageShape(t', q, p, 0)
      ensures |t.pages[p].keys| < t.order - 1 ==> PageShape(t', q, 0, 0)
    {
      assert PageShape(t, q, 0, 0);
    }
  }

  lemma LeafInsertOrder(t: Tree, p: int, i: nat, k: Key)
    requires Shape(t, 0, 0) && Ordered(t) && p in t.pages && t.pages[p].Leaf?
    requires p in t.info && Within(t.info[p], Rank(k)) && k !in t.pages[p].keys
    requires |t.pages[p].keys| == |t.pages[p].rids| && IsPlace(t.pages[p].keys, i, k)
    ensures Ordered(LeafInsert(t, p, i, k))
  {
    var t' := LeafInsert(t, p, i, k);
    forall q | q in t'.pages ensures PageOrder(t', q) {
      assert PageOrder(t, q);
      if q == p {
        InsertSorted(t.pages[p].keys, i, k);
      } else if t.pages[q].Inner? {
        forall j | 0 <= j < |t.pages[q].kids| ensures KidRange(t', q, j) {
          assert KidRange(t, q, j);
        }
      }
    }
  }

  lemma InsertSorted(keys: seq<Key>, i: nat, k: Key)
    requires Sorted(keys) && IsPlace(keys, i, k) && k !in keys
    ensures Sorted(Insert(keys, i, k))
  {
    forall j | 0 <= j < |keys| ensures Rank(keys[j]) != Rank(k) {
      if Rank(keys[j]) == Rank(k) { RankIsInjective(keys[j], k); }
    }
  }

  lemma LeafInsertHas(t: Tree, p: int, i: nat, k: Key, k': Key)
    requires p in t.pages && t.pages[p].Leaf? && i <= |t.pages[p].keys| == |t.pages[p].rids|
    ensures Has(LeafInsert(t, p, i, k), k') <==> Has(t, k') || k' == k
  {
    var t' := LeafInsert(t, p, i, k);
    var before, after := t.pages[p].keys, t'.pages[p].keys;
    assert after[i] == k;
    assert forall j :: 0 <= j < |before| ==> before[j] == after[if j < i then j else j + 1];
    if Has(t, k') {
      var q :| q in t.pages && t.pages[q].Leaf? && k' in t.pages[q].keys;
      assert q in t'.pages && t'.pages[q].Leaf? && k' in t'.pages[q].keys;
    }
    if Has(t', k') {
      var q :| q in t'.pages && t'.pages[q].Leaf? && k' in t'.pages[q].keys;
      if q == p && k' != k { assert k' in before; }
    }
  }

  // ---- handing a new page to the parent ----------------------------------------

  /** The parent's page after separator `sep` and page `r` have been put behind page `l`. */
  ghost function InsKid(v: View, l: int, sep: Key, r: int): View
    requires v.Inner? && l in v.kids && |v.kids| == |v.keys| + 1
  {
    var i := IndexOf(v.kids, l);
    Inner(v.parent, Insert(v.keys, i, sep), Insert(v.kids, i + 1, r))
  }

  lemma InsKidHas(v: View, l: int, sep: Key, r: int)
    requires v.Inner? && l in v.kids && |v.kids| == |v.keys| + 1
    ensures forall c :: c in InsKid(v, l, sep, r).kids <==> c in v.kids || c == r
  {
    hide IndexOf, Insert;
    InsertHas(v.kids, IndexOf(v.kids, l) + 1, r);
  }

  lemma InsertHas(s: seq<int>, i: nat, x: int)
    requires i <= |s|
    ensures forall c :: c in Insert(s, i, x) <==> c in s || c == x
  {
    var t := Insert(s, i, x);
    assert t == s[..i] + [x] + s[i..] && s == s[..i] + s[i..];
  }

  ghost predicate CanLink(t: Tree, pp: int, l: int) {
    && l in t.info
    && (pp != NO_PAGE ==>
          && pp in t.pages && t.pages[pp].Inner? && l in t.pages[pp].kids
          && |t.pages[pp].kids| == |t.pages[pp].keys| + 1)
  }

  /** The tree meant by a state in which page `l` has been split but the new page `r` is not
      yet known to the parent `pp`.  When `l` is the root, the root-to-be stands at number
      NO_PAGE, which is the number its children give for their parent. */
  ghost function Linked(t: Tree, pp: int, l: int, sep: Key, r: int): Tree
    requires CanLink(t, pp, l)
  {
    if pp == NO_PAGE then
      Tree(t.order, NO_PAGE, t.pages[NO_PAGE := Inner(NO_PAGE, [sep], [l, r])],
           t.info[NO_PAGE := Info(t.info[l].lvl + 1, Open, Open)])
    else
      t.(pages := t.pages[pp := InsKid(t.pages[pp], l, sep, r)])
  }

  /** The parent is in order again once it holds the separator, provided only the ranges of
      the two halves have changed. */
  lemma LinkOrder(t: Tree, pp: int, p: int, sep: Key, r: int, t': Tree)
    requires pp in t.pages && t.pages[pp].Inner? && PageOrder(t, pp)
    requires Distinct(t.pages[pp].kids) && p in t.pages[pp].kids
    requires p in t.info && r !in t.pages[pp].kids
    requires Above(t.info[p].lo, Rank(sep)) && Below(t.info[p].hi, Rank(sep))
    requires pp in t'.pages && t'.pages[pp] == InsKid(t.pages[pp], p, sep, r)
    requires pp in t'.info && t'.info[pp] == t.info[pp] && (pp == t'.root ==> pp == t.root)
    requires forall c :: c in t.pages[pp].kids && c != p ==> c in t.info && c in t'.info && t'.info[c] == t.info[c]
    requires p in t'.info && r in t'.info
    requires t'.info[p] == t.info[p].(hi := At(Rank(sep))) && t'.info[r] == t.info[p].(lo := At(Rank(sep)))
    ensures PageOrder(t', pp)
  {
    var v, v' := t.pages[pp], t'.pages[pp];
    var i := IndexOf(v.kids, p);
    assert KidRange(t, pp, i);
    LinkSorted(t, pp, i, sep);
    forall j | 0 <= j < |v'.kids| ensures KidRange(t', pp, j) {
      if j <= i {
        assert v'.kids[j] == v.kids[j] && KidRange(t, pp, j);
      } else if j > i + 1 {
        assert v'.kids[j] == v.kids[j - 1] && KidRange(t, pp, j - 1);
      }
    }
  }

  lemma LinkSorted(t: Tree, pp: int, i: nat, sep: Key)
    requires pp in t.pages && t.pages[pp].Inner? && PageOrder(t, pp) && i < |t.pages[pp].kids|
    requires Above(LoOf(t, pp, i), Rank(sep)) && Below(HiOf(t, pp, i), Rank(sep))
    ensures Sorted(Insert(t.pages[pp].keys, i, sep))
    ensures forall j :: 0 <= j <= |t.pages[pp].keys| ==>
      var k := Rank(Insert(t.pages[pp].keys, i, sep)[j]);
      Above(t.info[pp].lo, k) && Below(t.info[pp].hi, k)
  {
    var keys := t.pages[pp].keys;
    var keys' := Insert(keys, i, sep);
    forall j | 0 <= j < |keys|
      ensures Rank(keys[j]) < Rank(sep) <==> j < i
      ensures Rank(keys[j]) != Rank(sep)
      ensures Above(t.info[pp].lo, Rank(keys[j])) && Below(t.info[pp].hi, Rank(keys[j]))
    {
      if j < i { assert Rank(keys[j]) <= Rank(keys[i - 1]); } else { assert Rank(keys[i]) <= Rank(keys[j]); }
    }
    assert Above(t.info[pp].lo, Rank(sep)) && Below(t.info[pp].hi, Rank(sep));
    forall j, k | 0 <= j < k < |keys'| ensures Rank(keys'[j]) < Rank(keys'[k]) {
      assert keys'[j] == if j < i then keys[j] else if j == i then sep else keys[j - 1];
      assert keys'[k] == if k < i then keys[k] else if k == i then sep else keys[k - 1];
    }
  }

  /** The parent keeps its shape, with one key more. */
  lemma LinkShape(t: Tree, pp: int, p: int, sep: Key, r: int, t': Tree)
    requires pp in t.pages && pp != 0 && t.pages[pp].Inner? && t.root in t.info && PageShape(t, pp, 0, 0)
    requires p in t.pages[pp].kids && r !in t.pages[pp].kids
    requires t'.order == t.order && t'.root == t.root && t'.root in t'.info && t'.info[t'.root].lvl == t.info[t.root].lvl
    requires pp in t'.pages && t'.pages[pp] == InsKid(t.pages[pp], p, sep, r)
    requires pp in t'.info && t'.info[pp].lvl == t.info[pp].lvl
    requires forall c :: c in t.pages[pp].kids ==> IsKid(t', pp, c)
    requires IsKid(t', pp, r)
    requires pp != t.root ==> t.pages[pp].parent in t'.pages && t'.pages[t.pages[pp].parent].Inner?
                              && pp in t'.pages[t.pages[pp].parent].kids
    ensures PageShape(t', pp, pp, 0)
    ensures |t.pages[pp].keys| < t.order - 1 ==> PageShape(t', pp, 0, 0)
  {
    var v, v' := t.pages[pp], t'.pages[pp];
    var i := IndexOf(v.kids, p);
    forall j | 0 <= j < |v'.kids| ensures IsKid(t', pp, v'.kids[j]) && v'.kids[j] == (if j <= i then v.kids[j] else if j == i + 1 then r else v.kids[j - 1]) {
    }
  }

  // ---- splitting a leaf ---------------------------------------------------------

  /** The halves of an overfull leaf `p`; the upper half goes to the new page `n`. */
  ghost function SplitLeaf(t: Tree, p: int, n: int): Tree
    requires p in t.pages && p in t.info && t.pages[p].Leaf?
    requires |t.pages[p].keys| == |t.pages[p].rids| == t.order >= 3
  {
    var v, i, s := t.pages[p], t.info[p], t.order / 2;
    var sep := At(Rank(v.keys[s]));
    t.(pages := t.pages[p := Leaf(v.parent, v.keys[..s], v.rids[..s], n)]
                       [n := Leaf(v.parent, v.keys[s..], v.rids[s..], v.next)],
       info := t.info[p := i.(hi := sep)][n := i.(lo := sep)])
  }

  ghost predicate CanSplit(t: Tree, p: int, n: int, leaf: bool) {
    && Shape(t, p, 0) && p in t.pages && NO_PAGE !in t.pages
    && n !in t.pages && n != 0 && n != NO_PAGE
    && t.pages[p].Leaf? == leaf && |t.pages[p].keys| == t.order
  }

  /** The tree after a leaf split, parent included. */
  ghost function SplitLeafLinked(t: Tree, p: int, n: int): Tree
    requires CanSplit(t, p, n, true)
  {
    assert PageShape(t, p, p, 0);
    assert t.pages[p].parent != NO_PAGE ==> PageShape(t, t.pages[p].parent, p, 0);
    Linked(SplitLeaf(t, p, n), t.pages[p].parent, p, t.pages[p].keys[t.order / 2], n)
  }

  lemma SplitLeafParent(t: Tree, p: int, n: int)
    requires CanSplit(t, p, n, true) && t.pages[p].parent != NO_PAGE
    ensures var pp := t.pages[p].parent; pp in t.pages && PageShape(SplitLeafLinked(t, p, n), pp, pp, 0)
    ensures t.pages[t.pages[p].parent].Inner? && n !in t.pages[t.pages[p].parent].kids
  {
    var pp, sep := t.pages[p].parent, t.pages[p].keys[t.order / 2];
    var t' := SplitLeafLinked(t, p, n);
    assert PageShape(t, p, p, 0) && PageShape(t, pp, p, 0);
    NotAKid(t, p, 0, pp, n);
    forall c | c in t.pages[pp].kids ensures IsKid(t', pp, c) {
      var i :| 0 <= i < |t.pages[pp].kids| && t.pages[pp].kids[i] == c;
      assert IsKid(t, pp, t.pages[pp].kids[i]);
    }
    if pp != t.root {
      var gp := t.pages[pp].parent;
      assert PageShape(t, gp, p, 0);
      assert gp != pp by { NotOwnParent(t, p, 0, pp); }
    }
    LinkShape(t, pp, p, sep, n, t');
  }

  lemma NotOwnParent(t: Tree, over: int, under: int, p: int)
    requires Shape(t, over, under) && p in t.pages && p != t.root
    ensures t.pages[p].parent != p
    ensures t.pages[p].parent in t.pages && t.pages[p].parent in t.info && p in t.info
    ensures t.info[t.pages[p].parent].lvl == t.info[p].lvl + 1
  {
    assert PageShape(t, p, over, under);
    var pp := t.pages[p].parent;
    assert PageShape(t, pp, over, under);
    var i :| 0 <= i < |t.pages[pp].kids| && t.pages[pp].kids[i] == p;
    assert IsKid(t, pp, t.pages[pp].kids[i]);
  }

  lemma SplitLeafHalves(t: Tree, p: int, n: int)
    requires CanSplit(t, p, n, true)
    ensures var t' := SplitLeafLinked(t, p, n); var pp := t.pages[p].parent;
      t'.root in t'.info && PageShape(t', p, pp, 0) && PageShape(t', n, pp, 0)
  {
    assert PageShape(t, p, p, 0);
    var pp := t.pages[p].parent;
    var t' := SplitLeafLinked(t, p, n);
    if pp != NO_PAGE {
      assert PageShape(t, pp, p, 0);
      InsKidHas(t.pages[pp], p, t.pages[p].keys[t.order / 2], n);
      NotOwnParent(t, p, 0, p);
    } else {
      assert t'.pages[pp].kids[0] == p && t'.pages[pp].kids[1] == n;
    }
  }

  /** A page that is not told of the split keeps its children. */
  lemma SplitLeafKids(t: Tree, p: int, n: int, q: int)
    requires CanSplit(t, p, n, true) && q in t.pages && t.pages[q].Inner? && q != t.pages[p].parent
    ensures var t' := SplitLeafLinked(t, p, n);
      forall i :: 0 <= i < |t.pages[q].kids| ==> IsKid(t', q, t.pages[q].kids[i])
  {
    assert PageShape(t, p, p, 0) && PageShape(t, q, p, 0);
    var t' := SplitLeafLinked(t, p, n);
    forall i | 0 <= i < |t.pages[q].kids| ensures IsKid(t', q, t.pages[q].kids[i]) {
      assert IsKid(t, q, t.pages[q].kids[i]);
    }
  }

  lemma SplitLeafOther(t: Tree, p: int, n: int, q: int)
    requires CanSplit(t, p, n, true) && q in t.pages && q != p && q != t.pages[p].parent
    ensures var t' := SplitLeafLinked(t, p, n);
      q in t'.pages && t'.root in t'.info && PageShape(t', q, t.pages[p].parent, 0)
  {
    assert PageShape(t, p, p, 0) && PageShape(t, q, p, 0);
    var pp := t.pages[p].parent;
    var t' := SplitLeafLinked(t, p, n);
    if pp != NO_PAGE {
      assert PageShape(t, pp, p, 0);
      InsKidHas(t.pages[pp], p, t.pages[p].keys[t.order / 2], n);
    } else {
      BelowRoot(t, p, 0, q);
    }
    if t.pages[q].Inner? { SplitLeafKids(t, p, n, q); }
  }


  lemma SplitLeafNewRoot(t: Tree, p: int, n: int)
    requires CanSplit(t, p, n, true) && t.pages[p].parent == NO_PAGE
    ensures var t' := SplitLeafLinked(t, p, n);
      NO_PAGE in t'.pages && t'.root in t'.info && PageShape(t', NO_PAGE, NO_PAGE, 0)
  {
    assert PageShape(t, p, p, 0);
    var t' := SplitLeafLinked(t, p, n);
    forall i | 0 <= i < 2 ensures IsKid(t', NO_PAGE, t'.pages[NO_PAGE].kids[i]) {
    }
  }

  lemma SplitLeafPage(t: Tree, p: int, n: int, q: int)
    requires CanSplit(t, p, n, true) && q in SplitLeafLinked(t, p, n).pages
    ensures SplitLeafLinked(t, p, n).root in SplitLeafLinked(t, p, n).info
    ensures PageShape(SplitLeafLinked(t, p, n), q, t.pages[p].parent, 0)
  {
    if q == p || q == n {
      SplitLeafHalves(t, p, n);
    } else if q == NO_PAGE {
      SplitLeafNewRoot(t, p, n);
    } else if q == t.pages[p].parent {
      SplitLeafParent(t, p, n);
    } else {
      SplitLeafOther(t, p, n, q);
    }
  }

  lemma SplitLeafShape(t: Tree, p: int, n: int)
    requires CanSplit(t, p, n, true)
    ensures Shape(SplitLeafLinked(t, p, n), t.pages[p].parent, 0)
  {
    assert PageShape(t, p, p, 0);
    var t' := SplitLeafLinked(t, p, n);
    forall q | q in t'.pages ensures t'.root in t'.info && PageShape(t', q, t.pages[p].parent, 0) {
      SplitLeafPage(t, p, n, q);
    }
    SplitLeafHalves(t, p, n);
  }

  lemma NotAKid(t: Tree, over: int, under: int, pp: int, n: int)
    requires Shape(t, over, under) && pp in t.pages && t.pages[pp].Inner? && n !in t.pages
    ensures n !in t.pages[pp].kids
  {
    assert PageShape(t, pp, over, under);
    forall i | 0 <= i < |t.pages[pp].kids| ensures t.pages[pp].kids[i] != n { assert IsKid(t, pp, t.pages[pp].kids[i]); }
  }

  /** A page has no kid but those that name it as their parent. */
  lemma KidsOf(t: Tree, over: int, under: int, q: int, c: int)
    requires Shape(t, over, under) && q in t.pages && t.pages[q].Inner? && c in t.pages[q].kids
    ensures c in t.pages && c in t.info && t.pages[c].parent == q && c != t.root
  {
    assert PageShape(t, q, over, under);
    var i :| 0 <= i < |t.pages[q].kids| && t.pages[q].kids[i] == c;
    assert IsKid(t, q, t.pages[q].kids[i]);
    assert PageShape(t, c, over, under);
  }

  lemma SplitLeafHalvesOrder(t: Tree, p: int, n: int)
    requires CanSplit(t, p, n, true) && Ordered(t)
    ensures PageOrder(SplitLeafLinked(t, p, n), p) && PageOrder(SplitLeafLinked(t, p, n), n)
    ensures Above(t.info[p].lo, Rank(t.pages[p].keys[t.order / 2]))
    ensures Below(t.info[p].hi, Rank(t.pages[p].keys[t.order / 2]))
  {
    hide Ordered, KidRange;
    assert PageShape(t, p, p, 0);
    assert PageOrder(t, p) by { OrderOf(t, p); }
    var keys, s := t.pages[p].keys, t.order / 2;
    assert Within(t.info[p], Rank(keys[0])) && Rank(keys[0]) < Rank(keys[s]) && Within(t.info[p], Rank(keys[s]));
  }

  lemma OrderOf(t: Tree, p: int)
    requires Ordered(t) && p in t.pages
    ensures PageOrder(t, p)
  {
  }

  lemma SplitLeafPageOrder(t: Tree, p: int, n: int, q: int)
    requires CanSplit(t, p, n, true) && Ordered(t) && q in SplitLeafLinked(t, p, n).pages
    ensures PageOrder(SplitLeafLinked(t, p, n), q)
  {
    assert PageShape(t, p, p, 0);
    var pp, sep := t.pages[p].parent, t.pages[p].keys[t.order / 2];
    var t' := SplitLeafLinked(t, p, n);
    SplitLeafHalvesOrder(t, p, n);
    if q == p || q == n {
    } else if q == NO_PAGE {
      assert PageOrder(t, p);
      assert KidRange(t', q, 0) && KidRange(t', q, 1);
    } else if q == pp {
      assert PageShape(t, pp, p, 0) && PageOrder(t, pp);
      NotAKid(t, p, 0, pp, n);
      forall c | c in t.pages[pp].kids && c != p ensures c in t.info && c in t'.info && t'.info[c] == t.info[c] {
        KidsOf(t, p, 0, pp, c);
      }
      LinkOrder(t, pp, p, sep, n, t');
    } else {
      SplitLeafOtherOrder(t, p, n, q);
    }
  }

  lemma SplitLeafOtherOrder(t: Tree, p: int, n: int, q: int)
    requires CanSplit(t, p, n, true) && Ordered(t) && q in t.pages && q != p && q != t.pages[p].parent
    ensures PageOrder(SplitLeafLinked(t, p, n), q)
  {
    assert PageShape(t, p, p, 0);
    var t' := SplitLeafLinked(t, p, n);
    assert PageShape(t, q, p, 0) && PageOrder(t, q);
    if t.pages[q].Inner? {
      forall i | 0 <= i < |t.pages[q].kids| ensures KidRange(t', q, i) {
        KidsOf(t, p, 0, q, t.pages[q].kids[i]);
        assert KidRange(t, q, i);
      }
    }
  }

  lemma SplitLeafOrder(t: Tree, p: int, n: int)
    requires CanSplit(t, p, n, true) && Ordered(t)
    ensures Ordered(SplitLeafLinked(t, p, n))
  {
    var t' := SplitLeafLinked(t, p, n);
    forall q | q in t'.pages ensures PageOrder(t', q) {
      SplitLeafPageOrder(t, p, n, q);
    }
  }

  // ---- splitting an internal page -----------------------------------------------

  ghost function Reparent(m: map<int, View>, kids: seq<int>, n: int): (r: map<int, View>)
    ensures r.Keys == m.Keys
  {
    map q | q in m :: if q in kids then m[q].(parent := n) else m[q]
  }

  lemma ReparentNone(m: map<int, View>, n: int)
    ensures Reparent(m, [], n) == m
  {
  }

  lemma ReparentStep(m: map<int, View>, kids: seq<int>, i: nat, n: int)
    requires i < |kids| && kids[i] in m
    ensures var m' := Reparent(m, kids[..i], n);
      kids[i] in m' && Reparent(m, kids[..i + 1], n) == m'[kids[i] := m'[kids[i]].(parent := n)]
  {
    assert kids[..i + 1] == kids[..i] + [kids[i]];
  }

  /** The halves of an overfull internal page `p`, the middle key being in neither; the kids
      of the new page still name `p` as their parent. */
  ghost function HalveInner(t: Tree, p: int, n: int): Tree
    requires p in t.pages && p in t.info && t.pages[p].Inner?
    requires |t.pages[p].keys| == t.order >= 3 && |t.pages[p].kids| == t.order + 1
  {
    var v, i, s := t.pages[p], t.info[p], (t.order + 1) / 2;
    var sep := At(Rank(v.keys[s - 1]));
    t.(pages := t.pages[p := Inner(v.parent, v.keys[..s - 1], v.kids[..s])]
                       [n := Inner(v.parent, v.keys[s..], v.kids[s..])],
       info := t.info[p := i.(hi := sep)][n := i.(lo := sep)])
  }

  ghost function SplitInner(t: Tree, p: int, n: int): Tree
    requires p in t.pages && p in t.info && t.pages[p].Inner?
    requires |t.pages[p].keys| == t.order >= 3 && |t.pages[p].kids| == t.order + 1
  {
    var h := HalveInner(t, p, n);
    h.(pages := Reparent(h.pages, h.pages[n].kids, n))
  }

  ghost function UpKey(t: Tree, p: int): Key
    requires p in t.pages && |t.pages[p].keys| == t.order >= 3
  {
    t.pages[p].keys[(t.order + 1) / 2 - 1]
  }

  /** The kids that move to the new page. */
  ghost function High(t: Tree, p: int): seq<int>
    requires p in t.pages && t.pages[p].Inner? && |t.pages[p].kids| == t.order + 1 >= 4
  {
    t.pages[p].kids[(t.order + 1) / 2..]
  }

  /** What a split of `p` leaves of the pages around it. */
  lemma SplitInnerFrame(t: Tree, p: int, n: int)
    requires CanSplit(t, p, n, false)
    ensures p in t.info && |t.pages[p].kids| == t.order + 1
    ensures CanLink(SplitInner(t, p, n), t.pages[p].parent, p)
    ensures t.pages[p].parent != p && t.pages[p].parent != n
    ensures t.pages[p].parent != NO_PAGE ==>
      t.pages[p].parent in t.pages && SplitInner(t, p, n).pages[t.pages[p].parent] == t.pages[t.pages[p].parent]
    ensures forall q :: q in High(t, p) ==> q in t.pages && q != p && q != n && t.pages[q].parent == p && q != t.root
  {
    assert PageShape(t, p, p, 0);
    var pp, s := t.pages[p].parent, SplitInner(t, p, n);
    forall q | q in High(t, p) ensures q in t.pages && q != p && q != n && q != pp && t.pages[q].parent == p && q != t.root {
      assert q in t.pages[p].kids;
      KidsOf(t, p, 0, p, q);
      if q != t.root { NotOwnParent(t, p, 0, q); }
      if pp != NO_PAGE { NotOwnParent(t, p, 0, p); }
    }
    if pp != NO_PAGE {
      assert PageShape(t, pp, p, 0);
      NotOwnParent(t, p, 0, p);
    }
  }

  /** The tree after an internal split, parent included. */
  ghost function SplitInnerLinked(t: Tree, p: int, n: int): Tree
    requires CanSplit(t, p, n, false)
  {
    SplitInnerFrame(t, p, n);
    Linked(SplitInner(t, p, n), t.pages[p].parent, p, UpKey(t, p), n)
  }

  /** `SplitInnerLinked`, page by page. */
  ghost predicate SplitInnerRel(t: Tree, p: int, n: int, t': Tree)
    requires CanSplit(t, p, n, false)
  {
    var v, pp, s := t.pages[p], t.pages[p].parent, (t.order + 1) / 2;
    && p in t.info && pp != p && pp != n && |v.kids| == t.order + 1
    && t'.order == t.order
    && (pp == NO_PAGE || CanLink(t, pp, p))
    && t'.pages.Keys == t.pages.Keys + {n, if pp == NO_PAGE then NO_PAGE else n}
    && t'.pages[p] == Inner(pp, v.keys[..s - 1], v.kids[..s])
    && t'.pages[n] == Inner(pp, v.keys[s..], v.kids[s..])
    && p in t'.info && t'.info[p] == t.info[p].(hi := At(Rank(UpKey(t, p))))
    && n in t'.info && t'.info[n] == t.info[p].(lo := At(Rank(UpKey(t, p))))
    && (if pp == NO_PAGE then
          && t'.root == NO_PAGE && t'.pages[NO_PAGE] == Inner(NO_PAGE, [UpKey(t, p)], [p, n])
          && NO_PAGE in t'.info && t'.info[NO_PAGE] == Info(t.info[p].lvl + 1, Open, Open)
        else
          t'.root == t.root && t'.pages[pp] == InsKid(t.pages[pp], p, UpKey(t, p), n))
    && (forall q :: q in High(t, p) ==>
          q in t.pages && q != p && t.pages[q].parent == p && q != t.root && t'.pages[q] == t.pages[q].(parent := n))
    && (forall q :: q in t.pages && q != p && q != pp && q !in High(t, p) ==> t'.pages[q] == t.pages[q])
    && (forall q :: q in t.pages && q in t.info && q != p ==> q in t'.info && t'.info[q] == t.info[q])
  }

  lemma SplitInnerIsRel(t: Tree, p: int, n: int)
    requires CanSplit(t, p, n, false)
    ensures SplitInnerRel(t, p, n, SplitInnerLinked(t, p, n))
  {
    hide Shape, PageShape, Ordered;
    SplitInnerFrame(t, p, n);
    if t.pages[p].parent != NO_PAGE { ParentLinks(t, p); }
  }

  lemma ParentLinks(t: Tree, p: int)
    requires Shape(t, p, 0) && p in t.pages && t.pages[p].parent != NO_PAGE && NO_PAGE !in t.pages
    ensures CanLink(t, t.pages[p].parent, p)
  {
    assert PageShape(t, p, p, 0);
    assert t.pages[p].parent in t.pages ==> PageShape(t, t.pages[p].parent, p, 0);
  }

  lemma SplitInnerParent(t: Tree, p: int, n: int, t': Tree)
    requires CanSplit(t, p, n, false) && SplitInnerRel(t, p, n, t') && t.pages[p].parent != NO_PAGE
    ensures var pp := t.pages[p].parent; pp in t.pages && PageShape(t', pp, pp, 0)
    ensures t.pages[t.pages[p].parent].Inner? && n !in t.pages[t.pages[p].parent].kids
  {
    var pp := t.pages[p].parent;
    assert PageShape(t, p, p, 0) && PageShape(t, pp, p, 0);
    NotAKid(t, p, 0, pp, n);
    forall c | c in t.pages[pp].kids ensures IsKid(t', pp, c) {
      var i :| 0 <= i < |t.pages[pp].kids| && t.pages[pp].kids[i] == c;
      assert IsKid(t, pp, t.pages[pp].kids[i]);
    }
    if pp != t.root {
      var gp := t.pages[pp].parent;
      assert PageShape(t, gp, p, 0);
      NotOwnParent(t, p, 0, pp);
      NotOwnParent(t, p, 0, p);
    }
    LinkShape(t, pp, p, UpKey(t, p), n, t');
  }

  lemma SplitInnerHalves(t: Tree, p: int, n: int, t': Tree)
    requires CanSplit(t, p, n, false) && SplitInnerRel(t, p, n, t')
    ensures t'.root in t'.info
    ensures PageShape(t', p, t.pages[p].parent, 0)
    ensures PageShape(t', n, t.pages[p].parent, 0)
  {
    assert PageShape(t, p, p, 0);
    var pp := t.pages[p].parent;
    if pp != NO_PAGE {
      assert PageShape(t, pp, p, 0);
      InsKidHas(t.pages[pp], p, UpKey(t, p), n);
      NotOwnParent(t, p, 0, p);
    } else {
      assert t'.pages[pp].kids[0] == p && t'.pages[pp].kids[1] == n;
    }
    SplitInnerKids(t, p, n, t');
  }

  lemma SplitInnerKids(t: Tree, p: int, n: int, t': Tree)
    requires CanSplit(t, p, n, false) && SplitInnerRel(t, p, n, t')
    ensures
      && p in t'.pages && t'.pages[p].Inner? && n in t'.pages && t'.pages[n].Inner?
      && (forall i :: 0 <= i < |t'.pages[p].kids| ==> IsKid(t', p, t'.pages[p].kids[i]))
      && (forall i :: 0 <= i < |t'.pages[n].kids| ==> IsKid(t', n, t'.pages[n].kids[i]))
  {
    hide Shape, UpKey, InsKid;
    RootHasNoParent(t, p, 0);
    var s, kids := (t.order + 1) / 2, t.pages[p].kids;
    forall i | 0 <= i < s ensures IsKid(t', p, kids[i]) && kids[i] == t'.pages[p].kids[i] {
      KidAt(t, p, 0, p, i);
      assert kids[i] !in High(t, p);
    }
    forall i | 0 <= i < |t'.pages[n].kids| ensures IsKid(t', n, t'.pages[n].kids[i]) {
      assert kids[s + i] == High(t, p)[i] == t'.pages[n].kids[i];
      KidAt(t, p, 0, p, s + i);
    }
  }

  /** A kid is below the page, stands there once, and is neither the page nor its parent. */
  lemma KidAt(t: Tree, over: int, under: int, q: int, i: nat)
    requires Shape(t, over, under) && NO_PAGE !in t.pages && q in t.pages && t.pages[q].Inner? && i < |t.pages[q].kids|
    ensures var c := t.pages[q].kids[i];
      && IsKid(t, q, c) && c != q && c != t.pages[q].parent
      && forall j :: 0 <= j < |t.pages[q].kids| && t.pages[q].kids[j] == c ==> j == i
  {
    assert PageShape(t, q, over, under);
    if q != t.root { NotOwnParent(t, over, under, q); }
    assert IsKid(t, q, t.pages[q].kids[i]);
    RootHasNoParent(t, over, under);
  }

  lemma RootHasNoParent(t: Tree, over: int, under: int)
    requires Shape(t, over, under)
    ensures t.order >= 3 && t.root in t.pages && t.pages[t.root].parent == NO_PAGE
  {
    assert PageShape(t, t.root, over, under);
  }

  lemma SplitInnerOther(t: Tree, p: int, n: int, t': Tree, q: int)
    requires CanSplit(t, p, n, false) && SplitInnerRel(t, p, n, t') && q in t.pages && q != p && q != t.pages[p].parent
    ensures q in t'.pages && t'.root in t'.info && PageShape(t', q, t.pages[p].parent, 0)
  {
    assert PageShape(t, p, p, 0) && PageShape(t, q, p, 0);
    var pp := t.pages[p].parent;
    if pp != NO_PAGE {
      assert PageShape(t, pp, p, 0);
      InsKidHas(t.pages[pp], p, UpKey(t, p), n);
    } else {
      BelowRoot(t, p, 0, q);
    }
    if q != t.root && q !in High(t, p) && t.pages[q].parent == p {
      SplitInnerLow(t, p, q);
    }
    if t.pages[q].Inner? {
      forall i | 0 <= i < |t.pages[q].kids| ensures IsKid(t', q, t.pages[q].kids[i]) {
        assert IsKid(t, q, t.pages[q].kids[i]);
      }
    }
  }

  lemma SplitInnerLow(t: Tree, p: int, q: int)
    requires p in t.pages && t.pages[p].Inner? && |t.pages[p].kids| == t.order + 1 >= 4
    requires q in t.pages[p].kids && q !in High(t, p)
    ensures q in t.pages[p].kids[..(t.order + 1) / 2]
  {
    assert t.pages[p].kids == t.pages[p].kids[..(t.order + 1) / 2] + High(t, p);
  }

  lemma SplitInnerNewRoot(t: Tree, p: int, n: int, t': Tree)
    requires CanSplit(t, p, n, false) && SplitInnerRel(t, p, n, t') && t.pages[p].parent == NO_PAGE
    ensures NO_PAGE in t'.pages && t'.root in t'.info && PageShape(t', NO_PAGE, NO_PAGE, 0)
  {
    assert PageShape(t, p, p, 0);
    forall i | 0 <= i < 2 ensures IsKid(t', NO_PAGE, t'.pages[NO_PAGE].kids[i]) {
    }
  }

  lemma SplitInnerPage(t: Tree, p: int, n: int, t': Tree, q: int)
    requires CanSplit(t, p, n, false) && SplitInnerRel(t, p, n, t') && q in t'.pages
    ensures t'.root in t'.info
    ensures PageShape(t', q, t.pages[p].parent, 0)
  {
    SplitInnerHalves(t, p, n, t');
    if q == p || q == n {
    } else if q == NO_PAGE {
      SplitInnerNewRoot(t, p, n, t');
    } else if q == t.pages[p].parent {
      SplitInnerParent(t, p, n, t');
    } else {
      SplitInnerOther(t, p, n, t', q);
    }
  }

  lemma SplitInnerShape(t: Tree, p: int, n: int)
    requires CanSplit(t, p, n, false)
    ensures Shape(SplitInnerLinked(t, p, n), t.pages[p].parent, 0)
  {
    SplitInnerIsRel(t, p, n);
    SplitInnerShapeOf(t, p, n, SplitInnerLinked(t, p, n));
  }

  lemma SplitInnerShapeOf(t: Tree, p: int, n: int, t': Tree)
    requires CanSplit(t, p, n, false) && SplitInnerRel(t, p, n, t')
    ensures Shape(t', t.pages[p].parent, 0)
  {
    assert PageShape(t, p, p, 0);
    forall q | q in t'.pages ensures t'.root in t'.info && PageShape(t', q, t.pages[p].parent, 0) {
      SplitInnerPage(t, p, n, t', q);
    }
    forall q | q in t'.pages.Keys ensures q in t'.info.Keys {
      SplitInnerPage(t, p, n, t', q);
    }
    SplitInnerHalves(t, p, n, t');
  }

  lemma SplitInnerHalvesOrder(t: Tree, p: int, n: int, t': Tree)
    requires CanSplit(t, p, n, false) && SplitInnerRel(t, p, n, t') && Ordered(t)
    ensures PageOrder(t', p) && PageOrder(t', n)
    ensures Above(t.info[p].lo, Rank(UpKey(t, p))) && Below(t.info[p].hi, Rank(UpKey(t, p)))
  {
    assert PageShape(t, p, p, 0) && PageOrder(t, p);
    forall i | 0 <= i < |t.pages[p].kids|
      ensures t.pages[p].kids[i] in t.info && t.pages[p].kids[i] in t'.info && t'.info[t.pages[p].kids[i]] == t.info[t.pages[p].kids[i]]
    {
      KidsOf(t, p, 0, p, t.pages[p].kids[i]);
      NotOwnParent(t, p, 0, t.pages[p].kids[i]);
    }
    SplitInnerLowOrder(t, p, n, t');
    SplitInnerHighOrder(t, p, n, t');
  }

  lemma SplitInnerLowOrder(t: Tree, p: int, n: int, t': Tree)
    requires CanSplit(t, p, n, false) && SplitInnerRel(t, p, n, t') && PageOrder(t, p)
    requires forall i :: 0 <= i < |t.pages[p].kids| ==>
      t.pages[p].kids[i] in t.info && t.pages[p].kids[i] in t'.info && t'.info[t.pages[p].kids[i]] == t.info[t.pages[p].kids[i]]
    ensures PageOrder(t', p)
  {
    assert PageShape(t, p, p, 0);
    var s, keys, kids := (t.order + 1) / 2, t.pages[p].keys, t.pages[p].kids;
    forall i | 0 <= i < s ensures KidRange(t', p, i) {
      assert KidRange(t, p, i);
      assert t'.pages[p].kids[i] == kids[i];
    }
  }

  lemma SplitInnerHighOrder(t: Tree, p: int, n: int, t': Tree)
    requires CanSplit(t, p, n, false) && SplitInnerRel(t, p, n, t') && PageOrder(t, p)
    requires forall i :: 0 <= i < |t.pages[p].kids| ==>
      t.pages[p].kids[i] in t.info && t.pages[p].kids[i] in t'.info && t'.info[t.pages[p].kids[i]] == t.info[t.pages[p].kids[i]]
    ensures PageOrder(t', n)
  {
    hide Shape, InsKid;
    RootHasNoParent(t, p, 0);
    var s, keys, kids := (t.order + 1) / 2, t.pages[p].keys, t.pages[p].kids;
    forall i | 0 <= i <= |keys| - s ensures KidRange(t', n, i) {
      assert KidRange(t, p, s + i);
      assert t'.pages[n].kids[i] == kids[s + i];
    }
  }

  lemma SplitInnerPageOrder(t: Tree, p: int, n: int, t': Tree, q: int)
    requires CanSplit(t, p, n, false) && SplitInnerRel(t, p, n, t') && Ordered(t) && q in t'.pages
    ensures PageOrder(t', q)
  {
    assert PageShape(t, p, p, 0);
    var pp := t.pages[p].parent;
    SplitInnerHalvesOrder(t, p, n, t');
    if q == p || q == n {
    } else if q == NO_PAGE {
      assert PageOrder(t, p);
      assert KidRange(t', q, 0) && KidRange(t', q, 1);
    } else if q == pp {
      assert PageShape(t, pp, p, 0) && PageOrder(t, pp);
      NotAKid(t, p, 0, pp, n);
      forall c | c in t.pages[pp].kids && c != p ensures c in t.info && c in t'.info && t'.info[c] == t.info[c] {
        KidsOf(t, p, 0, pp, c);
      }
      LinkOrder(t, pp, p, UpKey(t, p), n, t');
    } else {
      SplitInnerOtherOrder(t, p, n, t', q);
    }
  }

  lemma SplitInnerOtherOrder(t: Tree, p: int, n: int, t': Tree, q: int)
    requires CanSplit(t, p, n, false) && SplitInnerRel(t, p, n, t') && Ordered(t) && q in t.pages && q != p && q != t.pages[p].parent
    ensures PageOrder(t', q)
  {
    assert PageShape(t, p, p, 0);
    assert PageShape(t, q, p, 0) && PageOrder(t, q);
    if t.pages[q].Inner? {
      forall i | 0 <= i < |t.pages[q].kids| ensures KidRange(t', q, i) {
        KidsOf(t, p, 0, q, t.pages[q].kids[i]);
        assert KidRange(t, q, i);
      }
    }
  }

  lemma SplitInnerOrder(t: Tree, p: int, n: int)
    requires CanSplit(t, p, n, false) && Ordered(t)
    ensures Ordered(SplitInnerLinked(t, p, n))
  {
    var t' := SplitInnerLinked(t, p, n);
    SplitInnerIsRel(t, p, n);
    forall q | q in t'.pages ensures PageOrder(t', q) {
      SplitInnerPageOrder(t, p, n, t', q);
    }
  }

  // ---- a new root ---------------------------------------------------------------

  /** The root-to-be at NO_PAGE moves to its own page `n`. */
  ghost function GrowRoot(t: Tree, l: int, sep: Key, r: int, n: int): Tree
    requires l in t.pages && r in t.pages && l in t.info
  {
    Tree(t.order, n,
         Reparent(t.pages[n := Inner(NO_PAGE, [sep], [l, r])], [l, r], n),
         t.info[n := Info(t.info[l].lvl + 1, Open, Open)])
  }

  /** The page number that is given out next. */
  predicate FirstFree(used: set<int>, n: int) {
    n >= 1 && n !in used && forall m :: 1 <= m < n ==> m in used
  }

  /** A new root has been put above two pages. */
  ghost predicate GrownFrom(t: Tree, l: int, sep: Key, r: int, t': Tree) {
    l in t.pages && r in t.pages && l in t.info && exists m :: FirstFree(t.pages.Keys, m) && t' == GrowRoot(t, l, sep, r, m)
  }

  /** `t'` comes of telling the parent `pp` of the new page `r`, split off page `l`, which takes at most `h`
      splits more. */
  ghost predicate Told(h: nat, t: Tree, pp: int, l: int, sep: Key, r: int, t': Tree)
    decreases h, 0
  {
    if pp == NO_PAGE then GrownFrom(t, l, sep, r, t')
    else if !CanLink(t, pp, l) then false
    else if |t.pages[pp].keys| < t.order - 1 then t' == Linked(t, pp, l, sep, r)
    else h > 0 && SplitAndTold(h - 1, t.pages.Keys, Linked(t, pp, l, sep, r), pp, t')
  }

  /** `t'` comes of splitting the overfull internal page `p`, when the pages `used` are not free. */
  ghost predicate SplitAndTold(h: nat, used: set<int>, t: Tree, p: int, t': Tree)
    decreases h, 1
  {
    && p in t.pages && p in t.info && t.pages[p].Inner? && |t.pages[p].keys| == t.order >= 3 && |t.pages[p].kids| == t.order + 1
    && exists n :: FirstFree(used, n) && Told(h, SplitInner(t, p, n), t.pages[p].parent, p, UpKey(t, p), n, t')
  }

  /** `k` belongs at `pos` of leaf `p`. */
  ghost predicate IsHome(t: Tree, p: int, pos: nat, k: Key) {
    && p in t.pages && t.pages[p].Leaf? && p in t.info && Within(t.info[p], Rank(k))
    && IsPlace(t.pages[p].keys, pos, k) && |t.pages[p].keys| == |t.pages[p].rids| < t.order && t.order >= 3
  }

  /** `t'` has `k` there, pages being split from the leaf upwards for lack of room. */
  ghost predicate InsertedAt(t: Tree, p: int, pos: nat, k: Key, t': Tree)
    requires IsHome(t, p, pos, k)
  {
    var u := LeafInsert(t, p, pos, k);
    if |t.pages[p].keys| < t.order - 1 then t' == u
    else exists h: nat, n :: FirstFree(t.pages.Keys, n)
           && Told(h, SplitLeaf(u, p, n), t.pages[p].parent, p, u.pages[p].keys[t.order / 2], n, t')
  }

  ghost predicate Inserted(t: Tree, k: Key, t': Tree) {
    exists p, pos: nat :: IsHome(t, p, pos, k) && InsertedAt(t, p, pos, k, t')
  }

  lemma FirstFreeIsOne(used: set<int>, m: int, n: int)
    requires FirstFree(used, m) && FirstFree(used, n)
    ensures m == n
  {
  }

  lemma PlaceIsOne(keys: seq<Key>, i: int, j: int, k: Key)
    requires Sorted(keys) && IsPlace(keys, i, k) && IsPlace(keys, j, k)
    ensures i == j
  {
  }

  /** What the parent is told leads to one tree. */
  lemma {:induction false} ToldIsOne(h: nat, g: nat, t: Tree, pp: int, l: int, sep: Key, r: int, a: Tree, b: Tree)
    requires Told(h, t, pp, l, sep, r, a) && Told(g, t, pp, l, sep, r, b)
    ensures a == b
    decreases h
  {
    hide FirstFree, GrowRoot, Linked, SplitInner, UpKey;
    if pp == NO_PAGE {
      var m :| FirstFree(t.pages.Keys, m) && a == GrowRoot(t, l, sep, r, m);
      var n :| FirstFree(t.pages.Keys, n) && b == GrowRoot(t, l, sep, r, n);
      FirstFreeIsOne(t.pages.Keys, m, n);
    } else if |t.pages[pp].keys| >= t.order - 1 {
      var u := Linked(t, pp, l, sep, r);
      var m :| FirstFree(t.pages.Keys, m) && Told(h - 1, SplitInner(u, pp, m), u.pages[pp].parent, pp, UpKey(u, pp), m, a);
      var n :| FirstFree(t.pages.Keys, n) && Told(g - 1, SplitInner(u, pp, n), u.pages[pp].parent, pp, UpKey(u, pp), n, b);
      FirstFreeIsOne(t.pages.Keys, m, n);
      ToldIsOne(h - 1, g - 1, SplitInner(u, pp, n), u.pages[pp].parent, pp, UpKey(u, pp), n, a, b);
    }
  }

  /** An entry belongs at one place of one leaf. */
  lemma HomeIsOne(t: Tree, p: int, pos: nat, q: int, pos': nat, k: Key)
    requires WF(t) && IsHome(t, p, pos, k) && IsHome(t, q, pos', k)
    ensures p == q && pos == pos'
  {
    assert PageShape(t, p, 0, 0) && PageShape(t, q, 0, 0) && PageOrder(t, p);
    LevelDisjoint(t, 0, 0, p, q, Rank(k));
    PlaceIsOne(t.pages[p].keys, pos, pos', k);
  }

  /** Inserting is determined, page by page and slot by slot. */
  lemma InsertedIsOne(t: Tree, k: Key, a: Tree, b: Tree)
    requires WF(t) && Inserted(t, k, a) && Inserted(t, k, b)
    ensures a == b
  {
    hide WF, IsHome, InsertedAt;
    var p, pos: nat :| IsHome(t, p, pos, k) && InsertedAt(t, p, pos, k, a);
    var q, pos': nat :| IsHome(t, q, pos', k) && InsertedAt(t, q, pos', k, b);
    HomeIsOne(t, p, pos, q, pos', k);
    InsertedAtIsOne(t, p, pos, k, a, b);
  }

  lemma InsertedAtIsOne(t: Tree, p: int, pos: nat, k: Key, a: Tree, b: Tree)
    requires IsHome(t, p, pos, k) && InsertedAt(t, p, pos, k, a) && InsertedAt(t, p, pos, k, b)
    ensures a == b
  {
    hide FirstFree, SplitLeaf, Told, Within;
    var u := LeafInsert(t, p, pos, k);
    if |t.pages[p].keys| == t.order - 1 {
      var pp, sep := t.pages[p].parent, u.pages[p].keys[t.order / 2];
      var h: nat, m :| FirstFree(t.pages.Keys, m) && Told(h, SplitLeaf(u, p, m), pp, p, sep, m, a);
      var g: nat, n :| FirstFree(t.pages.Keys, n) && Told(g, SplitLeaf(u, p, n), pp, p, sep, n, b);
      FirstFreeIsOne(t.pages.Keys, m, n);
      ToldIsOne(h, g, SplitLeaf(u, p, n), pp, p, sep, n, a, b);
    }
  }

  ghost predicate CanGrow(t: Tree, l: int, sep: Key, r: int, n: int) {
    && l in t.info && NO_PAGE !in t.pages
    && l in t.pages && r in t.pages
    && Shape(Linked(t, NO_PAGE, l, sep, r), NO_PAGE, 0)
    && n !in t.pages && n != 0 && n != NO_PAGE
  }

  lemma GrowRootPage(t: Tree, l: int, sep: Key, r: int, n: int, q: int)
    requires CanGrow(t, l, sep, r, n) && q in GrowRoot(t, l, sep, r, n).pages
    ensures var t' := GrowRoot(t, l, sep, r, n); PageShape(t', q, 0, 0)
  {
    var v, t' := Linked(t, NO_PAGE, l, sep, r), GrowRoot(t, l, sep, r, n);
    assert PageShape(v, NO_PAGE, NO_PAGE, 0);
    assert IsKid(v, NO_PAGE, v.pages[NO_PAGE].kids[0]) && IsKid(v, NO_PAGE, v.pages[NO_PAGE].kids[1]);
    if q == n {
      assert t'.pages[n].kids == [l, r];
      assert IsKid(t', n, l) && IsKid(t', n, r);
    } else {
      assert PageShape(v, q, NO_PAGE, 0);
      if v.pages[q].parent == NO_PAGE {
        assert q in v.pages[NO_PAGE].kids;
        assert q in t'.pages[n].kids;
      }
      if v.pages[q].Inner? {
        forall i | 0 <= i < |v.pages[q].kids| ensures IsKid(t', q, v.pages[q].kids[i]) {
          assert IsKid(v, q, v.pages[q].kids[i]);
        }
      }
    }
  }

  lemma GrowRootShape(t: Tree, l: int, sep: Key, r: int, n: int)
    requires CanGrow(t, l, sep, r, n)
    ensures Shape(GrowRoot(t, l, sep, r, n), 0, 0)
  {
    var t' := GrowRoot(t, l, sep, r, n);
    forall q | q in t'.pages ensures PageShape(t', q, 0, 0) {
      GrowRootPage(t, l, sep, r, n, q);
    }
    forall q | q in t'.pages.Keys ensures q in t'.info.Keys {
      GrowRootPage(t, l, sep, r, n, q);
    }
  }

  lemma GrowRootOrder(t: Tree, l: int, sep: Key, r: int, n: int)
    requires CanGrow(t, l, sep, r, n) && Ordered(Linked(t, NO_PAGE, l, sep, r))
    ensures Ordered(GrowRoot(t, l, sep, r, n))
  {
    var v, t' := Linked(t, NO_PAGE, l, sep, r), GrowRoot(t, l, sep, r, n);
    assert PageShape(v, NO_PAGE, NO_PAGE, 0) && PageOrder(v, NO_PAGE);
    assert KidRange(v, NO_PAGE, 0) && KidRange(v, NO_PAGE, 1);
    forall q | q in t'.pages ensures PageOrder(t', q) {
      if q == n {
        assert l != r && l != n && r != n;
        assert KidRange(t', n, 0) && KidRange(t', n, 1);
      } else {
        assert PageOrder(v, q);
        GrowRootKids(t, l, sep, r, n, q);
      }
    }
  }

  lemma GrowRootKids(t: Tree, l: int, sep: Key, r: int, n: int, q: int)
    requires CanGrow(t, l, sep, r, n) && q in t.pages && PageOrder(Linked(t, NO_PAGE, l, sep, r), q)
    ensures PageOrder(GrowRoot(t, l, sep, r, n), q)
  {
    var v, t' := Linked(t, NO_PAGE, l, sep, r), GrowRoot(t, l, sep, r, n);
    assert PageShape(v, q, NO_PAGE, 0);
    if v.pages[q].Inner? {
      forall i | 0 <= i < |v.pages[q].kids| ensures KidRange(t', q, i) {
        assert KidRange(v, q, i);
        assert IsKid(v, q, v.pages[q].kids[i]);
      }
    }
  }

  // ---- overflow that did not happen, and what stays in the leaves -----------------

  lemma NoOverflow(t: Tree, p: int)
    requires Shape(t, p, 0) && p in t.pages && |t.pages[p].keys| < t.order
    ensures Shape(t, 0, 0)
  {
    forall q | q in t.pages ensures PageShape(t, q, 0, 0) {
      assert PageShape(t, q, p, 0);
    }
  }

  /** The same leaves with the same entries and the same chain. */
  ghost predicate SameLeaves(a: Tree, b: Tree) {
    && (forall q :: q in a.pages && a.pages[q].Leaf? ==>
          && q in b.pages && b.pages[q].Leaf?
          && a.pages[q].keys == b.pages[q].keys
          && a.pages[q].rids == b.pages[q].rids
          && a.pages[q].next == b.pages[q].next)
    && (forall q :: q in b.pages && b.pages[q].Leaf? ==> q in a.pages && a.pages[q].Leaf?)
  }

  lemma SameLeavesTrans(a: Tree, b: Tree, c: Tree)
    requires SameLeaves(a, b) && SameLeaves(b, c)
    ensures SameLeaves(a, c)
  {
  }

  lemma SameLeavesHas(a: Tree, b: Tree, k: Key)
    requires SameLeaves(a, b)
    ensures Has(a, k) <==> Has(b, k)
  {
  }

  lemma SplitLeafHas(t: Tree, p: int, n: int, k: Key)
    requires CanSplit(t, p, n, true)
    ensures Has(SplitLeafLinked(t, p, n), k) <==> Has(t, k)
  {
    assert PageShape(t, p, p, 0);
    var t', s := SplitLeafLinked(t, p, n), t.order / 2;
    var keys := t.pages[p].keys;
    assert keys == keys[..s] + keys[s..];
    assert n in t'.pages && t'.pages[n].Leaf? && t'.pages[n].keys == keys[s..];
    assert p in t'.pages && t'.pages[p].Leaf? && t'.pages[p].keys == keys[..s];
    assert forall q :: q in t.pages && t.pages[q].Leaf? && q != p ==> q in t'.pages && t'.pages[q] == t.pages[q];
    assert forall q :: q in t'.pages && t'.pages[q].Leaf? && q != p && q != n ==> q in t.pages && t'.pages[q] == t.pages[q];
  }

  /** An entry stored at two places. */
  ghost predicate Twice(t: Tree, p: int, i: nat, q: int, j: nat) {
    && p in t.pages && t.pages[p].Leaf? && q in t.pages && t.pages[q].Leaf?
    && i < |t.pages[p].keys| && j < |t.pages[q].keys|
    && (p != q || i != j)
    && t.pages[p].keys[i] == t.pages[q].keys[j]
  }

  lemma TwiceIsDisorder(t: Tree, over: int, under: int, p: int, i: nat, q: int, j: nat)
    requires Shape(t, over, under) && Twice(t, p, i, q, j)
    ensures !Ordered(t)
  {
    if Ordered(t) {
      assert PageShape(t, p, over, under) && PageShape(t, q, over, under) && PageOrder(t, p) && PageOrder(t, q);
      LevelDisjoint(t, over, under, p, q, Rank(t.pages[p].keys[i]));
      assert false;
    }
  }

  /** The entry stands twice in the leaves once it has been inserted beside itself. */
  lemma InsertTwice(t: Tree, p: int, i: nat, k: Key) returns (j: nat)
    requires p in t.pages && t.pages[p].Leaf? && i <= |t.pages[p].keys| == |t.pages[p].rids|
    requires k in t.pages[p].keys
    ensures j != i && Twice(LeafInsert(t, p, i, k), p, i, p, j)
  {
    var d :| 0 <= d < |t.pages[p].keys| && t.pages[p].keys[d] == k;
    j := if d < i then d else d + 1;
  }

  /** ... and still does after the leaf has been split. */
  lemma SplitTwice(t: Tree, p: int, n: int, i: nat, j: nat) returns (a: int, b: nat, c: int, d: nat)
    requires CanSplit(t, p, n, true) && Twice(t, p, i, p, j)
    ensures Twice(SplitLeafLinked(t, p, n), a, b, c, d)
  {
    assert PageShape(t, p, p, 0);
    var s := t.order / 2;
    var t' := SplitLeafLinked(t, p, n);
    assert t'.pages[p].Leaf? && t'.pages[n].Leaf?;
    assert t'.pages[p].keys == t.pages[p].keys[..s] && t'.pages[n].keys == t.pages[p].keys[s..];
    a, b := if i < s then p else n, if i < s then i else i - s;
    c, d := if j < s then p else n, if j < s then j else j - s;
  }

  lemma SameLeavesTwice(t: Tree, u: Tree, a: int, b: nat, c: int, d: nat)
    requires SameLeaves(t, u) && Twice(t, a, b, c, d)
    ensures Twice(u, a, b, c, d)
  {
  }

  /** The leaf in which an entry belongs has no room left. */
  ghost predicate InFullLeaf(t: Tree, k: Key) {
    exists p :: p in t.pages && t.pages[p].Leaf? && p in t.info && Within(t.info[p], Rank(k))
      && |t.pages[p].keys| == t.order - 1
  }

  lemma FullLeafIs(t: Tree, p: int, k: Key)
    requires WF(t) && p in t.pages && t.pages[p].Leaf? && p in t.info && Within(t.info[p], Rank(k))
    ensures InFullLeaf(t, k) <==> |t.pages[p].keys| == t.order - 1
  {
    if InFullLeaf(t, k) {
      var q :| q in t.pages && t.pages[q].Leaf? && q in t.info && Within(t.info[q], Rank(k))
        && |t.pages[q].keys| == t.order - 1;
      assert PageShape(t, p, 0, 0) && PageShape(t, q, 0, 0);
      LevelDisjoint(t, 0, 0, p, q, Rank(k));
    }
  }

  /** A split of the overfull leaf `p` up to the parent. */
  lemma SplitLeafStep(u: Tree, p: int, n: int)
    requires CanSplit(u, p, n, true)
    ensures p in u.info && |u.pages[p].rids| == u.order
    ensures CanLink(SplitLeaf(u, p, n), u.pages[p].parent, p)
    ensures Linked(SplitLeaf(u, p, n), u.pages[p].parent, p, u.pages[p].keys[u.order / 2], n) == SplitLeafLinked(u, p, n)
    ensures Shape(SplitLeafLinked(u, p, n), u.pages[p].parent, 0)
    ensures Ordered(u) ==> Ordered(SplitLeafLinked(u, p, n))
  {
    assert PageShape(u, p, p, 0);
    assert u.pages[p].parent != NO_PAGE ==> PageShape(u, u.pages[p].parent, p, 0);
    SplitLeafShape(u, p, n);
    if Ordered(u) { SplitLeafOrder(u, p, n); }
  }
}
