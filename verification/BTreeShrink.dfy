/** How a deletion ends: with a page that has keys enough, with a root that gives way to its
    only child, or with a key taken over from a neighbour; and when the last of these goes
    wrong. */
module BTreeShrink {
  import opened Keys
  import opened BTree
  import opened BTreeInsert
  import opened BTreeDelete
  import opened BTreeBorrow

  /** The page needs no help. */
  ghost predicate KeysEnough(u: Tree, p: int)
    requires p in u.pages
  {
    var v := u.pages[p];
    if p == u.root then v.Leaf? || |v.keys| > 0 else |v.keys| >= MinKeys(u.order, v.Leaf?)
  }

  lemma NoUnderflow(u: Tree, p: int)
    requires Shape(u, 0, p) && p in u.pages && KeysEnough(u, p)
    ensures Shape(u, 0, 0)
  {
    forall q | q in u.pages ensures PageShape(u, q, 0, 0) {
      assert PageShape(u, q, 0, p);
    }
  }

  // ---- the root gives way to its only child ------------------------------------------

  ghost predicate CanCollapse(u: Tree) {
    Shape(u, 0, u.root) && u.pages[u.root].Inner? && u.pages[u.root].keys == []
  }

  lemma OnlyChild(u: Tree)
    requires CanCollapse(u)
    ensures |u.pages[u.root].kids| == 1
    ensures var c := u.pages[u.root].kids[0];
      c in u.pages && c != u.root && c in u.info && u.info[c].lvl + 1 == u.info[u.root].lvl
  {
    assert PageShape(u, u.root, 0, u.root);
    assert IsKid(u, u.root, u.pages[u.root].kids[0]);
  }

  ghost function Collapse(u: Tree): Tree
    requires CanCollapse(u)
  {
    OnlyChild(u);
    var c := u.pages[u.root].kids[0];
    u.(root := c, pages := u.pages[c := u.pages[c].(parent := NO_PAGE)] - {u.root})
  }

  lemma CollapseShape(u: Tree)
    requires CanCollapse(u)
    ensures Shape(Collapse(u), 0, 0)
  {
    OnlyChild(u);
    var c, t := u.pages[u.root].kids[0], Collapse(u);
    forall q | q in t.pages ensures PageShape(t, q, 0, 0) {
      assert PageShape(u, q, 0, u.root) && PageShape(u, u.root, 0, u.root);
      BelowRoot(u, 0, u.root, q);
      if u.pages[q].Inner? {
        forall i | 0 <= i < |u.pages[q].kids| ensures IsKid(t, q, u.pages[q].kids[i]) {
          assert IsKid(u, q, u.pages[q].kids[i]);
        }
      }
    }
  }

  lemma CollapseOrder(u: Tree)
    requires CanCollapse(u) && Ordered(u)
    ensures Ordered(Collapse(u))
  {
    OnlyChild(u);
    var c, t := u.pages[u.root].kids[0], Collapse(u);
    assert PageOrder(u, u.root) && KidRange(u, u.root, 0);
    forall q | q in t.pages ensures PageOrder(t, q) {
      assert PageOrder(u, q);
      if u.pages[q].Inner? {
        forall i | 0 <= i < |u.pages[q].kids| ensures KidRange(t, q, i) { assert KidRange(u, q, i); }
      }
    }
  }

  lemma CollapseHas(u: Tree, k: Key)
    requires CanCollapse(u)
    ensures Has(Collapse(u), k) <==> Has(u, k)
  {
    OnlyChild(u);
    var t := Collapse(u);
    if Has(u, k) {
      var q :| q in u.pages && u.pages[q].Leaf? && k in u.pages[q].keys;
      assert q in t.pages && t.pages[q].Leaf? && k in t.pages[q].keys;
    }
    if Has(t, k) {
      var q :| q in t.pages && t.pages[q].Leaf? && k in t.pages[q].keys;
      assert q in u.pages && u.pages[q].Leaf? && k in u.pages[q].keys;
    }
  }

  // ---- a key is taken over -------------------------------------------------------------

  lemma BadLeafSlot(u: Tree, p: int, pp: int, k: nat, fromRight: bool, x: RID)
    requires CanBorrow(u, p, pp, k, fromRight) && u.pages[p].Leaf?
    requires !SlotIsGood(u, p, pp, k, fromRight, x)
    ensures !Ordered(Borrowed(u, p, pp, k, fromRight, x))
  {
    BorrowFacts(u, p, pp, k, fromRight);
    var r, t := u.pages[pp].kids[k + 1], Borrowed(u, p, pp, k, fromRight, x);
    assert t.pages[r].Leaf? && t.pages[r].rids[0] != t.pages[r].keys[0].rid;
    assert !PageOrder(t, r);
  }

  /** The child whose place has been overwritten is lost. */
  lemma BadInnerSlot(u: Tree, p: int, pp: int, k: nat, fromRight: bool, x: RID)
    requires CanBorrow(u, p, pp, k, fromRight) && u.pages[p].Inner?
    requires !SlotIsGood(u, p, pp, k, fromRight, x)
    ensures !Shape(Borrowed(u, p, pp, k, fromRight, x), 0, 0)
  {
    BorrowFacts(u, p, pp, k, fromRight);
    JoinedKids(u, p, pp, k);
    Neighbours(u, p, pp, k);
    var l, r, t := u.pages[pp].kids[k], u.pages[pp].kids[k + 1], Borrowed(u, p, pp, k, fromRight, x);
    var a, b, J := u.pages[l], u.pages[r], JoinedView(u, pp, k);
    var c := J.kids[|J.kids| - 1];
    assert c == b.kids[|b.keys|];
    assert t.pages[c].parent == r by {
      assert J.kids[|a.kids|] == b.kids[0] && J.kids[|a.kids| - 1] == a.kids[|a.kids| - 1];
      NotOwnParent(u, 0, p, c);
    }
    assert c !in t.pages[r].kids by {
      var m := |b.keys|;
      assert forall i :: 0 <= i < m ==> b.kids[i] == J.kids[|a.kids| + i];
      assert J.kids[|a.kids| - 1] == a.kids[|a.keys|];
    }
    assert t.root in t.info ==> !PageShape(t, c, 0, 0);
  }

  /** Taking over a key restores the tree exactly when the doubtful slot is right. */
  lemma BorrowOutcome(u: Tree, p: int, pp: int, k: nat, fromRight: bool, x: RID)
    requires CanBorrow(u, p, pp, k, fromRight) && forall q :: q in u.pages ==> q > 0
    ensures WF(Borrowed(u, p, pp, k, fromRight, x)) <==> SlotIsGood(u, p, pp, k, fromRight, x)
    ensures SlotIsGood(u, p, pp, k, fromRight, x) ==>
      forall e :: Has(Borrowed(u, p, pp, k, fromRight, x), e) <==> Has(u, e)
  {
    hide Shape, Ordered, SlotIsGood, Borrowed, Has, FairShare, Sorted;
    BorrowFacts(u, p, pp, k, fromRight);
    var t := Borrowed(u, p, pp, k, fromRight, x);
    if SlotIsGood(u, p, pp, k, fromRight, x) {
      BorrowedIsResplit(u, p, pp, k, fromRight, x);
      var n := |u.pages[u.pages[pp].kids[k]].keys|;
      var m := if fromRight then n + 1 else n - 1;
      ResplitShape(u, p, pp, k, m, t);
      ResplitOrder(u, p, pp, k, m, t);
      forall e ensures Has(t, e) <==> Has(u, e) { ResplitHas(u, p, pp, k, m, t, e); }
    } else if u.pages[p].Leaf? {
      BadLeafSlot(u, p, pp, k, fromRight, x);
    } else {
      BadInnerSlot(u, p, pp, k, fromRight, x);
    }
  }

  // ---- deletions that go wrong -----------------------------------------------------------

  /** A page other than the root is a child, and has a neighbour. */
  lemma HasNeighbour(t: Tree, p: int)
    requires Shape(t, 0, 0) && p in t.pages && p != t.root
    ensures var pp := t.pages[p].parent;
      && pp in t.pages && t.pages[pp].Inner? && p in t.pages[pp].kids && pp in t.info && p in t.info
      && |t.pages[pp].kids| == |t.pages[pp].keys| + 1 >= 2
      && t.info[p].lvl < t.info[pp].lvl <= t.info[t.root].lvl
      && (forall i :: 0 <= i < |t.pages[pp].kids| ==>
            && t.pages[pp].kids[i] in t.pages && t.pages[t.pages[pp].kids[i]].Leaf? == t.pages[p].Leaf?
            && t.pages[pp].kids[i] in t.info && t.info[t.pages[pp].kids[i]].lvl == t.info[p].lvl)
  {
    var pp := t.pages[p].parent;
    NotOwnParent(t, 0, 0, p);
    assert PageShape(t, p, 0, 0) && PageShape(t, pp, 0, 0);
    forall i | 0 <= i < |t.pages[pp].kids|
      ensures t.pages[pp].kids[i] in t.pages && t.pages[t.pages[pp].kids[i]].Leaf? == t.pages[p].Leaf?
      ensures t.pages[pp].kids[i] in t.info && t.info[t.pages[pp].kids[i]].lvl == t.info[p].lvl
    {
      assert IsKid(t, pp, t.pages[pp].kids[i]);
      assert PageShape(t, t.pages[pp].kids[i], 0, 0);
    }
  }

  /** The separator between a page and the neighbour it is paired with: the left one, except
      for a first child. */
  ghost function PairOf(t: Tree, p: int): (k: nat)
    requires Shape(t, 0, 0) && p in t.pages && p != t.root
    ensures var pp := t.pages[p].parent;
      pp in t.pages && t.pages[pp].Inner? && k < |t.pages[pp].keys| == |t.pages[pp].kids| - 1
  {
    HasNeighbour(t, p);
    var j := IndexOf(t.pages[t.pages[p].parent].kids, p);
    if j == 0 then 0 else j - 1
  }

  /** What redistribute_nodes leaves in the doubtful slot when entry `d` of page `v` has been
      removed and a key is taken over from `s`. */
  ghost predicate SlotIsStale(v: View, d: nat, s: View, fromRight: bool)
    requires v.Leaf? == s.Leaf? && d < |v.keys| && s.keys != []
    requires v.Leaf? ==> |v.rids| == |v.keys| && |s.rids| == |s.keys|
  {
    if v.Inner? then fromRight || d == |v.keys| - 1
    else !fromRight && v.rids[if d == 0 && |v.keys| > 1 then 1 else 0] != s.rids[|s.rids| - 1]
  }

  /** Removing entry `d` of page `p` ends with a move that leaves a stale slot. */
  ghost predicate Fault(t: Tree, p: int, d: nat)
    requires Shape(t, 0, 0) && p in t.pages && d < |t.pages[p].keys|
    decreases assert PageShape(t, p, 0, 0); t.info[t.root].lvl - t.info[p].lvl
  {
    var v := t.pages[p];
    var min := MinKeys(t.order, v.Leaf?);
    if p == t.root || |v.keys| > min then false
    else
      HasNeighbour(t, p);
      var kids, k := t.pages[v.parent].kids, PairOf(t, p);
      var fromRight := p == kids[0];
      var s := t.pages[if fromRight then kids[1] else kids[k]];
      assert PageShape(t, p, 0, 0) && PageShape(t, if fromRight then kids[1] else kids[k], 0, 0);
      if |s.keys| > min then SlotIsStale(v, d, s, fromRight) else Fault(t, v.parent, k)
  }

  /** Tree `t` still is what `t0` was, from page `p`'s height on. */
  ghost predicate Agree(t0: Tree, t: Tree, p: int) {
    && t.order == t0.order && t.root == t0.root && p in t0.info
    && forall q :: q in t0.pages && q in t0.info && t0.info[q].lvl >= t0.info[p].lvl ==>
         q in t.pages && t.pages[q] == t0.pages[q] && q in t.info && t.info[q].lvl == t0.info[q].lvl
  }

  /** Entry `d` of page `p` has just been removed from a tree at rest, or from one in which a
      merge below `p` has made that entry pointless; `t0` is the tree before the deletion. */
  ghost predicate Pending(t0: Tree, t: Tree, p: int, d: nat, u: Tree) {
    && WF(t0) && Agree(t0, t, p) && p in t0.pages && p in t.pages && d < |t.pages[p].keys|
    && (if t.pages[p].Leaf? then |t.pages[p].rids| == |t.pages[p].keys| else |t.pages[p].kids| == |t.pages[p].keys| + 1)
    && u == Removed(t, p, d) && Shape(u, 0, p) && Ordered(u)
  }

  /** The neighbour page `p` is paired with. */
  ghost function NeighbourOf(t: Tree, p: int): int
    requires Shape(t, 0, 0) && p in t.pages && p != t.root
  {
    var kids, k := (HasNeighbour(t, p); t.pages[t.pages[p].parent].kids), PairOf(t, p);
    if p == kids[0] then kids[1] else kids[k]
  }

  lemma Underflow(t0: Tree, t: Tree, p: int, d: nat, u: Tree)
    requires Pending(t0, t, p, d, u) && p != t0.root && !KeysEnough(u, p)
    ensures var pp, k, s, min := t0.pages[p].parent, PairOf(t0, p), NeighbourOf(t0, p), MinKeys(t0.order, t0.pages[p].Leaf?);
      && CanJoin(u, p, pp, k)
      && pp in t0.pages && t0.pages[pp] == u.pages[pp]
      && s in t0.pages && s in u.pages && t0.pages[s] == u.pages[s] && s == u.pages[pp].kids[if p == u.pages[pp].kids[0] then 1 else k]
      && p == u.pages[pp].kids[if p == u.pages[pp].kids[0] then 0 else k + 1]
      && |u.pages[p].keys| == min - 1 && |u.pages[s].keys| < u.order
      && |t0.pages[p].keys| <= min
      && (|u.pages[s].keys| <= min ==> CanMerge(u, p, pp, k))
      && (|u.pages[s].keys| > min ==> CanBorrow(u, p, pp, k, p == u.pages[pp].kids[0]))
  {
    HasNeighbour(t0, p);
    var pp, k, s := t0.pages[p].parent, PairOf(t0, p), NeighbourOf(t0, p);
    assert PageShape(t0, p, 0, 0) && PageShape(t0, s, 0, 0) && PageShape(t0, pp, 0, 0);
    NotOwnParent(t0, 0, 0, p);
    var kids := t0.pages[pp].kids;
    assert kids[IndexOf(kids, p)] == p;
    assert s != p;
  }

  /** A pending deletion goes wrong if the move that ends it does. */
  lemma FaultStep(t0: Tree, t: Tree, p: int, d: nat, u: Tree)
    requires Pending(t0, t, p, d, u) && p != t0.root && !KeysEnough(u, p)
    ensures (Underflow(t0, t, p, d, u);
      var pp, k, s, v := t0.pages[p].parent, PairOf(t0, p), NeighbourOf(t0, p), t0.pages[p];
      && s in t0.pages && v.Leaf? == t0.pages[s].Leaf? && d < |v.keys| && s in u.pages && pp in t0.pages && k < |t0.pages[pp].keys|
      && (|u.pages[s].keys| <= MinKeys(t0.order, v.Leaf?) ==> (Fault(t0, p, d) <==> Fault(t0, pp, k)))
      && (|u.pages[s].keys| > MinKeys(t0.order, v.Leaf?) ==>
            && t0.pages[s].keys != [] && (v.Leaf? ==> |v.rids| == |v.keys| && |t0.pages[s].rids| == |t0.pages[s].keys|)
            && (Fault(t0, p, d) <==> SlotIsStale(v, d, t0.pages[s], p == t0.pages[pp].kids[0]))))
  {
    Underflow(t0, t, p, d, u);
    HasNeighbour(t0, p);
    var s := NeighbourOf(t0, p);
    assert PageShape(t0, p, 0, 0) && PageShape(t0, s, 0, 0);
  }

  lemma NoFault(t0: Tree, t: Tree, p: int, d: nat, u: Tree)
    requires Pending(t0, t, p, d, u) && (p == t0.root || KeysEnough(u, p))
    ensures !Fault(t0, p, d)
  {
  }

  /** What a move leaves in the doubtful slot: the right value, or, as shipped, what was there. */
  ghost predicate SlotHolds(v: View, d: nat, a: View, b: View, fromRight: bool, repaired: bool, x: RID)
    requires v.Leaf? == a.Leaf? == b.Leaf? && d < |v.keys|
    requires v.Leaf? ==> |v.rids| == |v.keys| && |a.rids| == |a.keys|
    requires v.Inner? ==> |v.kids| == |v.keys| + 1 && |b.kids| == |b.keys| + 1
    requires fromRight ==> b.keys != []
    requires !fromRight ==> a.keys != []
  {
    if v.Inner? then
      x.pageNum == if repaired then b.kids[|b.keys|] else if fromRight then b.kids[|b.keys| - 1] else v.kids[|v.keys|]
    else fromRight || x == if repaired then a.rids[|a.rids| - 1] else v.rids[if d == 0 && |v.keys| > 1 then 1 else 0]
  }

  lemma SlotOutcome(t0: Tree, t: Tree, p: int, d: nat, u: Tree, pp: int, k: nat, fromRight: bool, repaired: bool, x: RID)
    requires Pending(t0, t, p, d, u) && p != t0.root && !KeysEnough(u, p)
    requires CanBorrow(u, p, pp, k, fromRight)
    requires pp == t0.pages[p].parent && k == PairOf(t0, p) && fromRight == (p == u.pages[pp].kids[0])
    requires (BorrowFacts(u, p, pp, k, fromRight); assert PageShape(t0, p, 0, 0);
      SlotHolds(t0.pages[p], d, u.pages[u.pages[pp].kids[k]], u.pages[u.pages[pp].kids[k + 1]], fromRight, repaired, x))
    ensures SlotIsGood(u, p, pp, k, fromRight, x) <==> repaired || !Fault(t0, p, d)
  {
    Underflow(t0, t, p, d, u);
    FaultStep(t0, t, p, d, u);
    BorrowFacts(u, p, pp, k, fromRight);
    Neighbours(u, p, pp, k);
    var l, r := u.pages[pp].kids[k], u.pages[pp].kids[k + 1];
    assert PageShape(t0, p, 0, 0) && PageShape(u, r, 0, p) && PageOrder(u, l);
  }

  lemma MergeAgrees(t0: Tree, t: Tree, p: int, d: nat, u: Tree, pp: int, k: nat)
    requires Pending(t0, t, p, d, u) && p != t0.root && CanMerge(u, p, pp, k) && pp == t0.pages[p].parent
    ensures (MergeIsRel(u, p, pp, k); Agree(t0, Merge(u, pp, k), pp))
  {
    HasNeighbour(t0, p);
    Neighbours(u, p, pp, k);
    MergeIsRel(u, p, pp, k);
    var l, r, t1 := u.pages[pp].kids[k], u.pages[pp].kids[k + 1], Merge(u, pp, k);
    assert MergeRel(u, p, pp, k, Removed(t1, pp, k));
    forall q | q in t0.pages && q in t0.info && t0.info[q].lvl >= t0.info[pp].lvl
      ensures q in t1.pages && t1.pages[q] == t0.pages[q] && q in t1.info && t1.info[q].lvl == t0.info[q].lvl
    {
      if q in KidsOfView(u.pages[r]) {
        KidsOf(u, 0, p, r, q);
        NotOwnParent(u, 0, p, q);
      }
    }
  }

  /** A merge leaves the same problem one level up. */
  lemma MergeStep(t0: Tree, t: Tree, p: int, d: nat, u: Tree, pp: int, k: nat)
    requires Pending(t0, t, p, d, u) && p != t0.root && !KeysEnough(u, p) && CanMerge(u, p, pp, k)
    requires pp == t0.pages[p].parent && k == PairOf(t0, p)
    requires (Underflow(t0, t, p, d, u); |u.pages[NeighbourOf(t0, p)].keys| <= MinKeys(t0.order, t0.pages[p].Leaf?))
    ensures (MergeIsRel(u, p, pp, k);
      var t1 := Merge(u, pp, k);
      && Pending(t0, t1, pp, k, Removed(t1, pp, k))
      && k < |t0.pages[pp].keys| && (Fault(t0, p, d) <==> Fault(t0, pp, k))
      && p in t0.info && pp in t0.info && t0.info[p].lvl < t0.info[pp].lvl <= t0.info[t0.root].lvl
      && forall e :: Has(Removed(t1, pp, k), e) <==> Has(u, e))
  {
    hide Shape, Ordered, Has, Fault, Merge, MergeRel, WF, Agree, Removed;
    Underflow(t0, t, p, d, u);
    FaultStep(t0, t, p, d, u);
    MergeIsRel(u, p, pp, k);
    var t1 := Merge(u, pp, k);
    var w := Removed(t1, pp, k);
    MergeShape(u, p, pp, k, w);
    MergeOrder(u, p, pp, k, w);
    MergeAgrees(t0, t, p, d, u, pp, k);
    forall e ensures Has(w, e) <==> Has(u, e) { MergeHas(u, p, pp, k, w, e); }
    assert Shape(t0, 0, 0) by { PendingShape(t0, t, p, d, u); }
    HasNeighbour(t0, p);
  }

  lemma PendingShape(t0: Tree, t: Tree, p: int, d: nat, u: Tree)
    requires Pending(t0, t, p, d, u)
    ensures Shape(t0, 0, 0) && p in t0.info && t0.root in t0.info && t0.info[p].lvl <= t0.info[t0.root].lvl
  {
    assert PageShape(t0, p, 0, 0);
  }

  /** What coalesce_node relies on. */
  lemma MergeFacts(u: Tree, p: int, pp: int, k: nat)
    requires CanMerge(u, p, pp, k)
    ensures var l, r, kids := u.pages[pp].kids[k], u.pages[pp].kids[k + 1], u.pages[pp].kids;
      && pp in u.pages && u.pages[pp].Inner? && k < |u.pages[pp].keys|
      && l in u.pages && r in u.pages && l != r && u.pages[l].parent == pp && u.pages[r].parent == pp
      && l in kids && IndexOf(kids, l) == k && l in u.info && r in u.info
      && u.pages[l].Leaf? == u.pages[r].Leaf?
      && |u.pages[l].keys| + |u.pages[r].keys| + (if u.pages[l].Leaf? then 0 else 1) < u.order
  {
    Neighbours(u, p, pp, k);
    var kids := u.pages[pp].kids;
    assert PageShape(u, pp, 0, p);
    assert kids[IndexOf(kids, kids[k])] == kids[k];
  }

  lemma MergeKidsFacts(u: Tree, p: int, pp: int, k: nat)
    requires CanMerge(u, p, pp, k)
    ensures var l, r := u.pages[pp].kids[k], u.pages[pp].kids[k + 1];
      && l in u.pages && r in u.pages && u.pages[l].Leaf? == u.pages[r].Leaf?
      && JoinedView(u, pp, k).Leaf? == u.pages[l].Leaf?
      && (u.pages[l].Inner? ==>
            && |u.pages[l].kids| == |u.pages[l].keys| + 1 <= |JoinedView(u, pp, k).kids|
            && JoinedView(u, pp, k).kids[|u.pages[l].keys| + 1..] == u.pages[r].kids
            && forall c :: c in u.pages[r].kids ==> c in u.pages)
  {
    Neighbours(u, p, pp, k);
    JoinedKids(u, p, pp, k);
    var l, r, J := u.pages[pp].kids[k], u.pages[pp].kids[k + 1], JoinedView(u, pp, k);
    assert PageShape(u, l, 0, p);
    if J.Inner? {
      forall c | c in u.pages[r].kids ensures c in u.pages { KidsOf(u, 0, p, r, c); }
    }
  }

  /** What redistribute_nodes relies on. */
  lemma BorrowSides(u: Tree, p: int, pp: int, k: nat, fromRight: bool)
    requires CanBorrow(u, p, pp, k, fromRight)
    ensures var l, r, kids := u.pages[pp].kids[k], u.pages[pp].kids[k + 1], u.pages[pp].kids;
      && pp in u.pages && u.pages[pp].Inner? && k < |u.pages[pp].keys| && l in kids && IndexOf(kids, l) == k
      && l in u.pages && r in u.pages && l != r && l != pp && r != pp && u.pages[l].parent == pp
      && u.pages[l].Leaf? == u.pages[r].Leaf? == u.pages[p].Leaf? && l in u.info && r in u.info
      && p == (if fromRight then l else r)
      && fromRight == (|u.pages[l].keys| < MinKeys(u.order, u.pages[l].Leaf?))
      && (if fromRight then |u.pages[l].keys| < u.order - 1 && 1 < |u.pages[r].keys|
          else 0 < |u.pages[l].keys| && |u.pages[r].keys| < u.order - 1)
      && (u.pages[l].Inner? ==>
            && |u.pages[l].kids| > 0 && |u.pages[r].kids| > 0
            && var c := MovedKid(u.pages[l], u.pages[r], fromRight);
               c in u.pages && c != pp && c != l && c != r)
  {
    Neighbours(u, p, pp, k);
    BorrowFacts(u, p, pp, k, fromRight);
    var kids := u.pages[pp].kids;
    assert PageShape(u, pp, 0, p);
    assert kids[IndexOf(kids, kids[k])] == kids[k];
  }

  lemma BorrowedIs(u: Tree, p: int, pp: int, k: nat, fromRight: bool, x: RID, kid: int, t: Tree)
    requires CanBorrow(u, p, pp, k, fromRight)
    requires (BorrowSides(u, p, pp, k, fromRight); BorrowFacts(u, p, pp, k, fromRight);
      var l, r, v := u.pages[pp].kids[k], u.pages[pp].kids[k + 1], u.pages[pp];
      var a, b := u.pages[l], u.pages[r];
      var sep := SepAfter(a, b, fromRight);
      var m := u.pages[l := LeftAfter(a, v.keys[k], b, fromRight)][r := RightAfter(a, v.keys[k], b, fromRight, x)]
                      [pp := Inner(v.parent, v.keys[k := sep], v.kids)];
      && t.order == u.order && t.root == u.root
      && NO_PAGE !in u.pages && kid == (if a.Leaf? then NO_PAGE else MovedKid(a, b, fromRight))
      && t.pages == (if kid in m then m[kid := m[kid].(parent := if fromRight then l else r)] else m)
      && t.info == u.info[l := u.info[l].(hi := At(Rank(sep)))][r := u.info[r].(lo := At(Rank(sep)))])
    ensures t == Borrowed(u, p, pp, k, fromRight, x)
  {
    hide LeftAfter, RightAfter, SepAfter, MovedKid, CanBorrow, MinKeys;
    BorrowSides(u, p, pp, k, fromRight);
    BorrowFacts(u, p, pp, k, fromRight);
  }

  lemma PendingRoot(t0: Tree, t: Tree, p: int, d: nat, u: Tree)
    requires Pending(t0, t, p, d, u) && NO_PAGE !in u.pages
    ensures p in u.pages && u.root == t0.root && u.order == t0.order
    ensures u.pages[p].parent == NO_PAGE <==> p == t0.root
    ensures p == u.root && u.pages[p].Inner? && u.pages[p].keys == [] ==> CanCollapse(u)
  {
    assert PageShape(u, p, 0, p);
  }

  /** How the neighbour is found. */
  lemma HelpFacts(t0: Tree, t: Tree, p: int, d: nat, u: Tree)
    requires Pending(t0, t, p, d, u) && p != t0.root && !KeysEnough(u, p)
    ensures Shape(t0, 0, 0) && p in t0.pages && p in t.pages && t.pages[p] == t0.pages[p] && t0.order == u.order
    ensures d < |t.pages[p].keys| && p in u.pages && t.pages[p].Leaf? == u.pages[p].Leaf?
    ensures if t.pages[p].Leaf? then |t.pages[p].rids| == |t.pages[p].keys| else |t.pages[p].kids| == |t.pages[p].keys| + 1
    ensures var pp, k := u.pages[p].parent, PairOf(t0, p);
      && pp == t0.pages[p].parent && pp in u.pages && u.pages[pp].Inner? && p in u.pages[pp].kids
      && |u.pages[pp].kids| == |u.pages[pp].keys| + 1 >= 2
      && var kids := u.pages[pp].kids;
      && var j := IndexOf(kids, p);
      && k == (if j == 0 then 0 else j - 1)
      && (j == 0 <==> p == kids[0])
      && var s := kids[if j == 0 then 1 else j - 1];
      && s == NeighbourOf(t0, p) && s in u.pages
      && (|u.pages[s].keys| > MinKeys(u.order, u.pages[p].Leaf?) ==> CanBorrow(u, p, pp, k, j == 0))
      && (|u.pages[s].keys| <= MinKeys(u.order, u.pages[p].Leaf?) ==> CanMerge(u, p, pp, k))
  {
    Underflow(t0, t, p, d, u);
    HasNeighbour(t0, p);
    var pp := t0.pages[p].parent;
    var kids := t0.pages[pp].kids;
    assert kids[IndexOf(kids, p)] == p;
    assert PageShape(t0, p, 0, 0) && PageShape(t0, pp, 0, 0);
  }

  /** Deleting an entry that is present goes wrong with the shipped moves. */
  ghost predicate FaultyDelete(t: Tree, k: Key)
    requires Shape(t, 0, 0)
  {
    exists p, d: nat :: p in t.pages && t.pages[p].Leaf? && d < |t.pages[p].keys| && t.pages[p].keys[d] == k && Fault(t, p, d)
  }

  lemma FaultyDeleteIs(t: Tree, p: int, d: nat, k: Key)
    requires WF(t) && p in t.pages && t.pages[p].Leaf? && d < |t.pages[p].keys| && t.pages[p].keys[d] == k
    ensures FaultyDelete(t, k) <==> Fault(t, p, d)
  {
    if FaultyDelete(t, k) {
      var q, e: nat :| q in t.pages && t.pages[q].Leaf? && e < |t.pages[q].keys| && t.pages[q].keys[e] == k && Fault(t, q, e);
      assert PageShape(t, p, 0, 0) && PageShape(t, q, 0, 0) && PageOrder(t, p) && PageOrder(t, q);
      LevelDisjoint(t, 0, 0, p, q, Rank(k));
      assert d == e;
    }
  }

  /** A deletion begins. */
  lemma DeletePending(t: Tree, p: int, d: nat, k: Key)
    requires WF(t) && p in t.pages && t.pages[p].Leaf? && d < |t.pages[p].keys| && t.pages[p].keys[d] == k
    ensures |t.pages[p].rids| == |t.pages[p].keys| && Pending(t, t, p, d, Removed(t, p, d))
    ensures FaultyDelete(t, k) <==> Fault(t, p, d)
    ensures forall e :: Has(Removed(t, p, d), e) <==> Has(t, e) && e != k
  {
    hide Fault, FaultyDelete, Has, Ordered;
    assert PageShape(t, p, 0, 0);
    LeafRemoved(t, p, d);
    FaultyDeleteIs(t, p, d, k);
    assert Agree(t, t, p) by {
      forall q | q in t.pages && q in t.info && t.info[q].lvl >= t.info[p].lvl ensures q in t.pages {}
    }
    forall e ensures Has(Removed(t, p, d), e) <==> Has(t, e) && e != k { LeafRemovedHas(t, p, d, e); }
  }

  lemma LeafLevel(t: Tree, p: int)
    requires WF(t) && p in t.pages
    ensures p in t.info && t.root in t.info && t.info[p].lvl <= t.info[t.root].lvl
  {
    assert PageShape(t, p, 0, 0);
  }
}
