/** What deleting does to the abstract tree.  A page that has lost a key too many is joined
    with a neighbour, which takes a key from the parent, or takes over a key of a neighbour. */
module BTreeDelete {
  import opened Keys
  import opened BTree
  import opened BTreeInsert

  /** Page `p` without entry `d`. */
  ghost function Removed(t: Tree, p: int, d: nat): Tree
    requires p in t.pages && d < |t.pages[p].keys|
    requires if t.pages[p].Leaf? then |t.pages[p].rids| == |t.pages[p].keys| else |t.pages[p].kids| == |t.pages[p].keys| + 1
  {
    t.(pages := t.pages[p := Without(t.pages[p], d)])
  }

  lemma LeafRemoved(t: Tree, p: int, d: nat)
    requires WF(t) && p in t.pages && t.pages[p].Leaf? && d < |t.pages[p].keys| == |t.pages[p].rids|
    ensures Shape(Removed(t, p, d), 0, p) && Ordered(Removed(t, p, d))
  {
    var u := Removed(t, p, d);
    forall q | q in u.pages ensures PageShape(u, q, 0, p) {
      assert PageShape(t, q, 0, 0);
    }
    LeafRemovedOrder(t, p, d);
  }

  lemma LeafRemovedOrder(t: Tree, p: int, d: nat)
    requires WF(t) && p in t.pages && t.pages[p].Leaf? && d < |t.pages[p].keys| == |t.pages[p].rids|
    ensures Ordered(Removed(t, p, d))
  {
    var u := Removed(t, p, d);
    forall q | q in u.pages ensures PageOrder(u, q) {
      assert PageOrder(t, q);
      if q != p && t.pages[q].Inner? {
        forall i | 0 <= i < |t.pages[q].kids| ensures KidRange(u, q, i) { assert KidRange(t, q, i); }
      }
    }
  }

  lemma RemoveHas(keys: seq<Key>, d: nat, k: Key)
    requires Sorted(keys) && d < |keys|
    ensures k in Remove(keys, d) <==> k in keys && k != keys[d]
  {
    if k in Remove(keys, d) {
      var j :| 0 <= j < |Remove(keys, d)| && Remove(keys, d)[j] == k;
      var i := if j < d then j else j + 1;
      assert k == keys[i] && Rank(keys[i]) != Rank(keys[d]);
    }
    if k in keys && k != keys[d] {
      var j :| 0 <= j < |keys| && keys[j] == k;
      assert k == Remove(keys, d)[if j < d then j else j - 1];
    }
  }

  lemma LeafRemovedHas(t: Tree, p: int, d: nat, k: Key)
    requires WF(t) && p in t.pages && t.pages[p].Leaf? && d < |t.pages[p].keys| == |t.pages[p].rids|
    ensures Has(Removed(t, p, d), k) <==> Has(t, k) && k != t.pages[p].keys[d]
  {
    hide Remove, Sorted;
    var u, keys := Removed(t, p, d), t.pages[p].keys;
    assert PageShape(t, p, 0, 0) && PageOrder(t, p);
    RemoveHas(keys, d, k);
    if Has(u, k) {
      var q :| q in u.pages && u.pages[q].Leaf? && k in u.pages[q].keys;
      assert Has(t, k);
      if q != p && k == keys[d] {
        assert PageShape(t, q, 0, 0) && PageOrder(t, q);
        LevelDisjoint(t, 0, 0, p, q, Rank(k));
      }
    }
    if Has(t, k) && k != keys[d] {
      var q :| q in t.pages && t.pages[q].Leaf? && k in t.pages[q].keys;
      assert q in u.pages && u.pages[q].Leaf? && k in u.pages[q].keys;
    }
  }

  // ---- a page and its right neighbour ---------------------------------------------

  /** Children `k` and `k + 1` of page `pp`; `p`, the underfull page, is one of them. */
  ghost predicate CanJoin(u: Tree, p: int, pp: int, k: nat) {
    && Shape(u, 0, p) && Ordered(u)
    && pp in u.pages && u.pages[pp].Inner? && k < |u.pages[pp].keys| && |u.pages[pp].kids| == |u.pages[pp].keys| + 1
    && p in u.pages && (p == u.pages[pp].kids[k] || p == u.pages[pp].kids[k + 1])
  }

  ghost function JoinedView(u: Tree, pp: int, k: nat): View
    requires pp in u.pages && u.pages[pp].Inner? && k < |u.pages[pp].keys| && |u.pages[pp].kids| == |u.pages[pp].keys| + 1
    requires u.pages[pp].kids[k] in u.pages && u.pages[pp].kids[k + 1] in u.pages
    requires u.pages[u.pages[pp].kids[k]].Leaf? == u.pages[u.pages[pp].kids[k + 1]].Leaf?
  {
    Joined(u.pages[u.pages[pp].kids[k]], u.pages[pp].keys[k], u.pages[u.pages[pp].kids[k + 1]])
  }

  lemma Neighbours(u: Tree, p: int, pp: int, k: nat)
    requires CanJoin(u, p, pp, k)
    ensures var l, r := u.pages[pp].kids[k], u.pages[pp].kids[k + 1];
      && l in u.pages && r in u.pages && l != r && l != pp && r != pp && l != u.root && r != u.root
      && l in u.info && r in u.info && pp in u.info
      && u.pages[l].parent == pp && u.pages[r].parent == pp
      && u.info[l].lvl == u.info[r].lvl == u.info[pp].lvl - 1
      && u.pages[l].Leaf? == u.pages[r].Leaf?
      && u.info[l].hi == At(Rank(u.pages[pp].keys[k])) == u.info[r].lo
      && u.info[l].lo == LoOf(u, pp, k) && u.info[r].hi == HiOf(u, pp, k + 1)
  {
    var l, r := u.pages[pp].kids[k], u.pages[pp].kids[k + 1];
    assert PageShape(u, pp, 0, p) && PageOrder(u, pp);
    assert IsKid(u, pp, u.pages[pp].kids[k]) && IsKid(u, pp, u.pages[pp].kids[k + 1]);
    assert KidRange(u, pp, k) && KidRange(u, pp, k + 1);
    assert PageShape(u, l, 0, p) && PageShape(u, r, 0, p);
  }

  /** The joined contents of two neighbours are in order. */
  lemma JoinedSorted(u: Tree, p: int, pp: int, k: nat)
    requires CanJoin(u, p, pp, k)
    ensures var l, r := u.pages[pp].kids[k], u.pages[pp].kids[k + 1];
      && l in u.pages && r in u.pages && u.pages[l].Leaf? == u.pages[r].Leaf? && l in u.info && r in u.info
      && Sorted(JoinedView(u, pp, k).keys)
      && forall j :: 0 <= j < |JoinedView(u, pp, k).keys| ==>
           && Below(u.info[r].hi, Rank(JoinedView(u, pp, k).keys[j]))
           && if u.pages[l].Leaf? then AtLeast(u.info[l].lo, Rank(JoinedView(u, pp, k).keys[j]))
              else Above(u.info[l].lo, Rank(JoinedView(u, pp, k).keys[j]))
  {
    Neighbours(u, p, pp, k);
    var l, r, J := u.pages[pp].kids[k], u.pages[pp].kids[k + 1], JoinedView(u, pp, k).keys;
    forall j | 0 <= j < |J|
      ensures Below(u.info[r].hi, Rank(J[j]))
      ensures if u.pages[l].Leaf? then AtLeast(u.info[l].lo, Rank(J[j])) else Above(u.info[l].lo, Rank(J[j]))
    {
      JoinedKey(u, p, pp, k, j);
    }
    forall i, j | 0 <= i < j < |J| ensures Rank(J[i]) < Rank(J[j]) {
      JoinedKey(u, p, pp, k, i);
      JoinedKey(u, p, pp, k, j);
    }
  }

  /** Key `j` of the joined page: where it comes from, and between which bounds it lies. */
  lemma JoinedKey(u: Tree, p: int, pp: int, k: nat, j: nat)
    requires CanJoin(u, p, pp, k)
    ensures var l, r := u.pages[pp].kids[k], u.pages[pp].kids[k + 1];
      && l in u.pages && r in u.pages && u.pages[l].Leaf? == u.pages[r].Leaf? && l in u.info && r in u.info
      && var a, b, J, sep := u.pages[l].keys, u.pages[r].keys, JoinedView(u, pp, k).keys, Rank(u.pages[pp].keys[k]);
      && var gap := if u.pages[l].Leaf? then 0 else 1;
      && Sorted(a) && Sorted(b) && |J| == |a| + |b| + gap
      && (j < |J| ==>
            && J[j] == (if j < |a| then a[j] else if j < |a| + gap then u.pages[pp].keys[k] else b[j - |a| - gap])
            && (j < |a| ==> Rank(J[j]) < sep)
            && (j >= |a| ==> sep <= Rank(J[j]))
            && (j >= |a| + gap && u.pages[l].Inner? ==> sep < Rank(J[j]))
            && Below(u.info[r].hi, Rank(J[j]))
            && if u.pages[l].Leaf? then AtLeast(u.info[l].lo, Rank(J[j])) else Above(u.info[l].lo, Rank(J[j])))
  {
    hide Shape, KidRange;
    Neighbours(u, p, pp, k);
    var l, r := u.pages[pp].kids[k], u.pages[pp].kids[k + 1];
    assert PageOrder(u, l) && PageOrder(u, r);
  }

  // ---- joining two neighbours -----------------------------------------------------

  /** The kids of a page; a leaf has none. */
  ghost function KidsOfView(v: View): seq<int> {
    if v.Inner? then v.kids else []
  }

  /** Child `k + 1` of `pp` joined to child `k`; the parent still has the separator and the
      pointer to the page that is gone. */
  ghost function Merge(u: Tree, pp: int, k: nat): Tree
    requires pp in u.pages && u.pages[pp].Inner? && k < |u.pages[pp].keys| && |u.pages[pp].kids| == |u.pages[pp].keys| + 1
    requires var l, r := u.pages[pp].kids[k], u.pages[pp].kids[k + 1];
      l in u.pages && r in u.pages && u.pages[l].Leaf? == u.pages[r].Leaf? && l in u.info && r in u.info
  {
    var l, r := u.pages[pp].kids[k], u.pages[pp].kids[k + 1];
    var joined := u.pages[l := JoinedView(u, pp, k)];
    u.(pages := Reparent(joined, KidsOfView(u.pages[r]), l) - {r},
       info := u.info[l := u.info[l].(hi := u.info[r].hi)])
  }

  /** The tree after `Merge` in which the parent has given up the separator. */
  ghost predicate MergeRel(u: Tree, p: int, pp: int, k: nat, t: Tree)
    requires CanJoin(u, p, pp, k)
  {
    Neighbours(u, p, pp, k);
    var l, r := u.pages[pp].kids[k], u.pages[pp].kids[k + 1];
    && t.order == u.order && t.root == u.root && t.pages.Keys == u.pages.Keys - {r}
    && t.pages[l] == JoinedView(u, pp, k)
    && t.pages[pp] == Without(u.pages[pp], k)
    && (forall q :: q in KidsOfView(u.pages[r]) ==> q in t.pages && q != l && q != pp && t.pages[q] == u.pages[q].(parent := l))
    && (forall q :: q in u.pages && q != l && q != r && q != pp && q !in KidsOfView(u.pages[r]) ==> t.pages[q] == u.pages[q])
    && t.info == u.info[l := u.info[l].(hi := u.info[r].hi)]
  }

  lemma MergeIsRel(u: Tree, p: int, pp: int, k: nat)
    requires CanJoin(u, p, pp, k)
    ensures u.pages[pp].kids[k] in u.pages && u.pages[pp].kids[k + 1] in u.pages
    ensures u.pages[u.pages[pp].kids[k]].Leaf? == u.pages[u.pages[pp].kids[k + 1]].Leaf?
    ensures u.pages[pp].kids[k] in u.info && u.pages[pp].kids[k + 1] in u.info
    ensures pp in Merge(u, pp, k).pages && Merge(u, pp, k).pages[pp] == u.pages[pp]
    ensures MergeRel(u, p, pp, k, Removed(Merge(u, pp, k), pp, k))
  {
    Neighbours(u, p, pp, k);
    var l, r := u.pages[pp].kids[k], u.pages[pp].kids[k + 1];
    forall q | q in KidsOfView(u.pages[r]) ensures q in u.pages && q != l && q != r && q != pp {
      KidsOf(u, 0, p, r, q);
      NotOwnParent(u, 0, p, q);
      NotOwnParent(u, 0, p, l);
    }
  }

  /** One of the neighbours is underfull and the other has nothing to spare. */
  ghost predicate CanMerge(u: Tree, p: int, pp: int, k: nat) {
    && CanJoin(u, p, pp, k)
    && var l, r := u.pages[pp].kids[k], u.pages[pp].kids[k + 1];
    && l in u.pages && r in u.pages
    && |u.pages[l].keys| + |u.pages[r].keys| <= 2 * MinKeys(u.order, u.pages[p].Leaf?) - 1
  }

  lemma MergeKids(u: Tree, p: int, pp: int, k: nat, t: Tree)
    requires CanMerge(u, p, pp, k) && MergeRel(u, p, pp, k, t) && u.pages[p].Inner?
    ensures var l := u.pages[pp].kids[k];
      && l in t.pages && t.pages[l].Inner? && Distinct(t.pages[l].kids)
      && forall i :: 0 <= i < |t.pages[l].kids| ==> IsKid(t, l, t.pages[l].kids[i])
  {
    Neighbours(u, p, pp, k);
    var l, r := u.pages[pp].kids[k], u.pages[pp].kids[k + 1];
    assert PageShape(u, l, 0, p) && PageShape(u, r, 0, p);
    var a, b := u.pages[l].kids, u.pages[r].kids;
    forall i | 0 <= i < |a| ensures IsKid(t, l, a[i]) && a[i] !in b {
      assert IsKid(u, l, a[i]);
      if a[i] in b { KidsOf(u, 0, p, r, a[i]); }
      NotOwnParent(u, 0, p, l);
    }
    forall i | 0 <= i < |b| ensures IsKid(t, l, b[i]) {
      assert b[i] in KidsOfView(u.pages[r]);
      assert IsKid(u, r, b[i]);
      NotOwnParent(u, 0, p, r);
    }
  }

  lemma MergeLeft(u: Tree, p: int, pp: int, k: nat, t: Tree)
    requires CanMerge(u, p, pp, k) && MergeRel(u, p, pp, k, t)
    ensures u.pages[pp].kids[k] in t.pages && t.root in t.info && PageShape(t, u.pages[pp].kids[k], 0, pp)
  {
    Neighbours(u, p, pp, k);
    var l, r := u.pages[pp].kids[k], u.pages[pp].kids[k + 1];
    assert PageShape(u, l, 0, p) && PageShape(u, r, 0, p) && PageShape(u, pp, 0, p);
    if u.pages[p].Inner? { MergeKids(u, p, pp, k, t); }
    assert t.pages[pp].kids[k] == l;
    if u.pages[r].Leaf? && u.pages[r].next == r { NextIsLater(u, p, r); }
  }

  /** A leaf is not its own successor, and has no other predecessor than its left neighbour. */
  lemma NextIsLater(u: Tree, p: int, q: int)
    requires Shape(u, 0, p) && Ordered(u) && q in u.pages && u.pages[q].Leaf?
    ensures u.pages[q].next != q
  {
    assert PageOrder(u, q);
  }

  lemma OnePredecessor(u: Tree, p: int, a: int, b: int)
    requires Shape(u, 0, p) && Ordered(u) && a in u.pages && b in u.pages && u.pages[a].Leaf? && u.pages[b].Leaf?
    requires a in u.info && b in u.info && u.info[a].hi == u.info[b].hi && u.info[a].hi.At?
    ensures a == b
  {
    assert PageOrder(u, a) && PageOrder(u, b) && PageShape(u, a, 0, p) && PageShape(u, b, 0, p);
    LevelDisjoint(u, 0, p, a, b, u.info[a].hi.rank - 1);
  }

  lemma MergeParent(u: Tree, p: int, pp: int, k: nat, t: Tree)
    requires CanMerge(u, p, pp, k) && MergeRel(u, p, pp, k, t)
    ensures pp in t.pages && t.root in t.info && PageShape(t, pp, 0, pp)
  {
    hide Ordered, JoinedView;
    Neighbours(u, p, pp, k);
    assert PageShape(u, pp, 0, p);
    forall i | 0 <= i < |t.pages[pp].kids| ensures IsKid(t, pp, t.pages[pp].kids[i]) {
      MergeParentsKid(u, p, pp, k, t, i);
    }
    if pp != u.root {
      NotOwnParent(u, 0, p, pp);
      NotAKidOf(u, p, u.pages[pp].parent, u.pages[pp].kids[k + 1], pp);
      MergeKeeps(u, p, pp, k, t, u.pages[pp].parent);
    }
  }

  lemma MergeParentsKid(u: Tree, p: int, pp: int, k: nat, t: Tree, i: nat)
    requires CanMerge(u, p, pp, k) && MergeRel(u, p, pp, k, t)
    requires pp in t.pages && t.pages[pp].Inner? && i < |t.pages[pp].kids|
    ensures IsKid(t, pp, t.pages[pp].kids[i])
  {
    hide Ordered;
    Neighbours(u, p, pp, k);
    var r, kids := u.pages[pp].kids[k + 1], u.pages[pp].kids;
    assert PageShape(u, pp, 0, p);
    var j := if i < k + 1 then i else i + 1;
    assert t.pages[pp].kids[i] == kids[j] && IsKid(u, pp, kids[j]);
    NotAKidOf(u, p, pp, r, kids[j]);
  }

  lemma NotAKidOf(u: Tree, p: int, a: int, b: int, c: int)
    requires Shape(u, 0, p) && b in u.pages && c in u.pages && u.pages[c].parent == a && a != b
    ensures c !in KidsOfView(u.pages[b])
  {
    if c in KidsOfView(u.pages[b]) { KidsOf(u, 0, p, b, c); }
  }

  /** Pages above the parent are left alone. */
  lemma MergeKeeps(u: Tree, p: int, pp: int, k: nat, t: Tree, q: int)
    requires CanMerge(u, p, pp, k) && MergeRel(u, p, pp, k, t)
    requires q in u.pages && q in u.info && pp in u.info && u.info[q].lvl > u.info[pp].lvl
    ensures q in t.pages && t.pages[q] == u.pages[q]
  {
    Neighbours(u, p, pp, k);
    var r := u.pages[pp].kids[k + 1];
    if q in KidsOfView(u.pages[r]) {
      KidsOf(u, 0, p, r, q);
      NotOwnParent(u, 0, p, q);
    }
  }

  lemma MergeOther(u: Tree, p: int, pp: int, k: nat, t: Tree, q: int)
    requires CanMerge(u, p, pp, k) && MergeRel(u, p, pp, k, t)
    requires q in t.pages && q != pp && q != u.pages[pp].kids[k]
    ensures t.root in t.info && PageShape(t, q, 0, pp)
  {
    Neighbours(u, p, pp, k);
    var l, r := u.pages[pp].kids[k], u.pages[pp].kids[k + 1];
    assert PageShape(u, q, 0, p);
    if u.pages[q].Inner? {
      forall i | 0 <= i < |u.pages[q].kids| ensures IsKid(t, q, u.pages[q].kids[i]) {
        assert IsKid(u, q, u.pages[q].kids[i]);
        NotAKidOf(u, p, q, r, u.pages[q].kids[i]);
      }
    }
    if u.pages[q].Leaf? && u.pages[q].next == r {
      assert PageOrder(u, q);
      OnePredecessor(u, p, q, l);
    }
    if q in KidsOfView(u.pages[r]) {
      KidsOf(u, 0, p, r, q);
      assert q in JoinedView(u, pp, k).kids;
    } else if q != u.root {
      MergeOtherParent(u, p, pp, k, t, q);
    }
  }

  lemma MergeOtherParent(u: Tree, p: int, pp: int, k: nat, t: Tree, q: int)
    requires CanMerge(u, p, pp, k) && MergeRel(u, p, pp, k, t)
    requires q in t.pages && q != pp && q != u.pages[pp].kids[k] && q != u.root && q !in KidsOfView(u.pages[u.pages[pp].kids[k + 1]])
    ensures t.pages[q].parent in t.pages && t.pages[t.pages[q].parent].Inner? && q in t.pages[t.pages[q].parent].kids
  {
    Neighbours(u, p, pp, k);
    var l, r := u.pages[pp].kids[k], u.pages[pp].kids[k + 1];
    assert PageShape(u, q, 0, p);
    var a := u.pages[q].parent;
    var i :| 0 <= i < |u.pages[a].kids| && u.pages[a].kids[i] == q;
    if a == pp {
      assert t.pages[pp].kids[if i < k + 1 then i else i - 1] == q;
    } else if a == l {
      assert t.pages[l].kids[i] == q;
    } else {
      assert a != r;
    }
  }

  lemma MergeShape(u: Tree, p: int, pp: int, k: nat, t: Tree)
    requires CanMerge(u, p, pp, k) && MergeRel(u, p, pp, k, t)
    ensures Shape(t, 0, pp)
  {
    Neighbours(u, p, pp, k);
    forall q | q in t.pages ensures PageShape(t, q, 0, pp) {
      if q == pp { MergeParent(u, p, pp, k, t); }
      else if q == u.pages[pp].kids[k] { MergeLeft(u, p, pp, k, t); }
      else { MergeOther(u, p, pp, k, t, q); }
    }
  }

  /** The joined page is in order on the joined range. */
  lemma JoinedOrder(u: Tree, p: int, pp: int, k: nat, t: Tree)
    requires CanJoin(u, p, pp, k)
    requires var l, r := u.pages[pp].kids[k], u.pages[pp].kids[k + 1];
      && l in u.pages && r in u.pages && u.pages[l].Leaf? == u.pages[r].Leaf? && r in u.info && l in u.info
      && l in t.pages && t.pages[l] == JoinedView(u, pp, k)
      && l in t.info && t.info[l] == u.info[l].(hi := u.info[r].hi) && l != t.root
      && (forall q :: q in u.info && q != l && q != r ==> q in t.info && t.info[q] == u.info[q])
    ensures PageOrder(t, u.pages[pp].kids[k])
  {
    Neighbours(u, p, pp, k);
    JoinedSorted(u, p, pp, k);
    var l, r := u.pages[pp].kids[k], u.pages[pp].kids[k + 1];
    assert PageOrder(u, l) && PageOrder(u, r);
    if u.pages[l].Leaf? {
      var a := u.pages[l].keys;
      if u.pages[r].next != 0 && u.info[r].hi.At? { assert u.pages[r].next != l && u.pages[r].next != r by { NextIsAfter(u, p, pp, k); } }
    } else {
      var a, b := u.pages[l], u.pages[r];
      forall j | 0 <= j < |t.pages[l].kids| ensures KidRange(t, l, j) {
        if j < |a.kids| {
          KidsOf(u, 0, p, l, a.kids[j]);
          NotOwnParent(u, 0, p, a.kids[j]);
          assert KidRange(u, l, j) && t.pages[l].kids[j] == a.kids[j];
        } else {
          KidsOf(u, 0, p, r, b.kids[j - |a.kids|]);
          NotOwnParent(u, 0, p, b.kids[j - |a.kids|]);
          assert KidRange(u, r, j - |a.kids|) && t.pages[l].kids[j] == b.kids[j - |a.kids|];
        }
      }
    }
  }

  lemma NextIsAfter(u: Tree, p: int, pp: int, k: nat)
    requires CanJoin(u, p, pp, k)
    requires u.pages[pp].kids[k] in u.pages && u.pages[u.pages[pp].kids[k]].Leaf?
    ensures var l, r := u.pages[pp].kids[k], u.pages[pp].kids[k + 1];
      r in u.pages && u.pages[r].Leaf? && u.pages[r].next != l && u.pages[r].next != r && u.pages[l].next == r
  {
    Neighbours(u, p, pp, k);
    var l, r := u.pages[pp].kids[k], u.pages[pp].kids[k + 1];
    assert PageOrder(u, l) && PageOrder(u, r) && PageShape(u, l, 0, p) && PageShape(u, r, 0, p);
    var n := u.pages[l].next;
    assert PageShape(u, n, 0, p) && PageOrder(u, n);
    LevelDisjoint(u, 0, p, n, r, u.info[r].lo.rank);
  }

  lemma MergeParentOrder(u: Tree, p: int, pp: int, k: nat, t: Tree)
    requires CanMerge(u, p, pp, k) && MergeRel(u, p, pp, k, t)
    ensures PageOrder(t, pp)
  {
    Neighbours(u, p, pp, k);
    assert PageShape(u, pp, 0, p) && PageOrder(u, pp);
    RemoveKeepsOrder(u.pages[pp].keys, k);
    var keys := u.pages[pp].keys;
    forall i | 0 <= i < |t.pages[pp].keys|
      ensures Above(u.info[pp].lo, Rank(t.pages[pp].keys[i])) && Below(u.info[pp].hi, Rank(t.pages[pp].keys[i]))
    {
      assert t.pages[pp].keys[i] == keys[if i < k then i else i + 1];
    }
    MergeParentKids(u, p, pp, k, t);
  }

  lemma RemoveKeepsOrder(keys: seq<Key>, k: nat)
    requires Sorted(keys) && k < |keys|
    ensures Sorted(Remove(keys, k))
  {
    forall i, j | 0 <= i < j < |Remove(keys, k)| ensures Rank(Remove(keys, k)[i]) < Rank(Remove(keys, k)[j]) {
      assert Remove(keys, k)[i] == keys[if i < k then i else i + 1];
      assert Remove(keys, k)[j] == keys[if j < k then j else j + 1];
    }
  }

  lemma MergeParentKids(u: Tree, p: int, pp: int, k: nat, t: Tree)
    requires CanMerge(u, p, pp, k) && MergeRel(u, p, pp, k, t)
    ensures pp in t.pages && pp in t.info && t.pages[pp].Inner? && |t.pages[pp].kids| == |t.pages[pp].keys| + 1
    ensures forall j :: 0 <= j < |t.pages[pp].kids| ==> KidRange(t, pp, j)
  {
    hide Sorted, KidRange, Remove;
    Neighbours(u, p, pp, k);
    assert PageShape(u, pp, 0, p) && PageOrder(u, pp);
    forall j | 0 <= j < |t.pages[pp].kids| ensures KidRange(t, pp, j) {
      MergeParentKid(u, pp, k, t, j);
    }
  }

  lemma MergeParentKid(u: Tree, pp: int, k: nat, t: Tree, j: nat)
    requires pp in u.pages && pp in u.info && u.pages[pp].Inner? && k < |u.pages[pp].keys| == |u.pages[pp].kids| - 1
    requires Distinct(u.pages[pp].kids) && u.pages[pp].kids[k] != pp && u.pages[pp].kids[k] in u.info && u.pages[pp].kids[k + 1] in u.info
    requires forall i :: 0 <= i < |u.pages[pp].kids| ==> KidRange(u, pp, i)
    requires pp in t.pages && t.pages[pp] == Without(u.pages[pp], k) && j < |t.pages[pp].kids|
    requires t.info == u.info[u.pages[pp].kids[k] := u.info[u.pages[pp].kids[k]].(hi := u.info[u.pages[pp].kids[k + 1]].hi)]
    ensures KidRange(t, pp, j)
  {
    var v, v' := u.pages[pp], t.pages[pp];
    var i := if j < k + 1 then j else j + 1;
    assert v'.keys == Remove(v.keys, k) && v'.kids == Remove(v.kids, k + 1);
    assert v'.kids[j] == v.kids[i] && KidRange(u, pp, i) && KidRange(u, pp, k + 1);
    assert i != k ==> v.kids[i] != v.kids[k];
  }

  lemma MergeOtherOrder(u: Tree, p: int, pp: int, k: nat, t: Tree, q: int)
    requires CanMerge(u, p, pp, k) && MergeRel(u, p, pp, k, t)
    requires q in t.pages && q != pp && q != u.pages[pp].kids[k]
    ensures PageOrder(t, q)
  {
    Neighbours(u, p, pp, k);
    var l, r := u.pages[pp].kids[k], u.pages[pp].kids[k + 1];
    assert PageOrder(u, q) && PageShape(u, q, 0, p);
    if u.pages[q].Inner? {
      forall j | 0 <= j < |u.pages[q].kids| ensures KidRange(t, q, j) {
        assert KidRange(u, q, j);
        KidsOf(u, 0, p, q, u.pages[q].kids[j]);
      }
    }
  }

  lemma MergeOrder(u: Tree, p: int, pp: int, k: nat, t: Tree)
    requires CanMerge(u, p, pp, k) && MergeRel(u, p, pp, k, t)
    ensures Ordered(t)
  {
    Neighbours(u, p, pp, k);
    forall q | q in t.pages ensures PageOrder(t, q) {
      if q == pp { MergeParentOrder(u, p, pp, k, t); }
      else if q == u.pages[pp].kids[k] { JoinedOrder(u, p, pp, k, t); }
      else { MergeOtherOrder(u, p, pp, k, t, q); }
    }
  }

  lemma MergeHas(u: Tree, p: int, pp: int, k: nat, t: Tree, e: Key)
    requires CanMerge(u, p, pp, k) && MergeRel(u, p, pp, k, t)
    ensures Has(t, e) <==> Has(u, e)
  {
    Neighbours(u, p, pp, k);
    var l, r := u.pages[pp].kids[k], u.pages[pp].kids[k + 1];
    if Has(u, e) {
      var q :| q in u.pages && u.pages[q].Leaf? && e in u.pages[q].keys;
      if q == l || q == r {
        assert e in t.pages[l].keys;
      } else {
        assert q in t.pages && t.pages[q].Leaf? && e in t.pages[q].keys;
      }
    }
    if Has(t, e) {
      var q :| q in t.pages && t.pages[q].Leaf? && e in t.pages[q].keys;
      assert q == l ==> e in u.pages[l].keys || e in u.pages[r].keys;
    }
  }
}
