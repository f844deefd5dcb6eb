/** How an underfull page takes over a key of a neighbour: the contents of the two pages are
    dealt out anew, and the separator between them changes. */
module BTreeBorrow {
  import opened Keys
  import opened BTree
  import opened BTreeInsert
  import opened BTreeDelete

  /** The joined contents of two neighbours dealt out anew, `m` keys to the left page. */
  ghost predicate ResplitRel(u: Tree, p: int, pp: int, k: nat, m: nat, t: Tree)
    requires CanJoin(u, p, pp, k)
  {
    Neighbours(u, p, pp, k);
    var l, r, J := u.pages[pp].kids[k], u.pages[pp].kids[k + 1], JoinedView(u, pp, k);
    && m < |J.keys|
    && t.order == u.order && t.root == u.root && t.pages.Keys == u.pages.Keys
    && (J.Leaf? ==>
          && |J.rids| == |J.keys|
          && t.pages[l] == Leaf(pp, J.keys[..m], J.rids[..m], r)
          && t.pages[r] == Leaf(pp, J.keys[m..], J.rids[m..], J.next))
    && (J.Inner? ==>
          && |J.kids| == |J.keys| + 1
          && t.pages[l] == Inner(pp, J.keys[..m], J.kids[..m + 1])
          && t.pages[r] == Inner(pp, J.keys[m + 1..], J.kids[m + 1..])
          && (forall i :: 0 <= i < |J.kids| ==>
                && J.kids[i] in u.pages && J.kids[i] != l && J.kids[i] != r && J.kids[i] != pp
                && t.pages[J.kids[i]] == u.pages[J.kids[i]].(parent := if i <= m then l else r)))
    && t.pages[pp] == u.pages[pp].(keys := u.pages[pp].keys[k := J.keys[m]])
    && (forall q :: q in u.pages && q != l && q != r && q != pp && q !in KidsOfView(J) ==> t.pages[q] == u.pages[q])
    && t.info == u.info[l := u.info[l].(hi := At(Rank(J.keys[m])))][r := u.info[r].(lo := At(Rank(J.keys[m])))]
  }

  /** Both pages get enough keys and not too many. */
  ghost predicate FairShare(u: Tree, p: int, pp: int, k: nat, m: nat)
    requires CanJoin(u, p, pp, k)
  {
    Neighbours(u, p, pp, k);
    var J := JoinedView(u, pp, k);
    var min, rest := MinKeys(u.order, J.Leaf?), |J.keys| - m - (if J.Leaf? then 0 else 1);
    min <= m <= u.order - 1 && min <= rest <= u.order - 1
  }

  lemma JoinedKids(u: Tree, p: int, pp: int, k: nat)
    requires CanJoin(u, p, pp, k)
    ensures var l, r := u.pages[pp].kids[k], u.pages[pp].kids[k + 1];
      && l in u.pages && r in u.pages && u.pages[l].Leaf? == u.pages[r].Leaf?
      && (u.pages[l].Inner? ==>
            && |JoinedView(u, pp, k).kids| == |JoinedView(u, pp, k).keys| + 1
            && Distinct(JoinedView(u, pp, k).kids)
            && forall i :: 0 <= i < |JoinedView(u, pp, k).kids| ==>
                 var c := JoinedView(u, pp, k).kids[i];
                 && c in u.pages && c in u.info && u.info[c].lvl + 1 == u.info[l].lvl && c != u.root
                 && u.pages[c].parent == (if i < |u.pages[l].kids| then l else r))
  {
    Neighbours(u, p, pp, k);
    var l, r := u.pages[pp].kids[k], u.pages[pp].kids[k + 1];
    assert PageShape(u, l, 0, p) && PageShape(u, r, 0, p);
    if u.pages[l].Inner? {
      var a, b, J := u.pages[l].kids, u.pages[r].kids, JoinedView(u, pp, k).kids;
      forall i | 0 <= i < |J|
        ensures J[i] in u.pages && J[i] in u.info && u.info[J[i]].lvl + 1 == u.info[l].lvl && J[i] != u.root
        ensures u.pages[J[i]].parent == (if i < |a| then l else r)
      {
        if i < |a| { assert IsKid(u, l, a[i]); } else { assert IsKid(u, r, b[i - |a|]); }
        BelowRoot(u, 0, p, l);
      }
    }
  }

  lemma ResplitPageShape(u: Tree, p: int, pp: int, k: nat, m: nat, t: Tree, q: int)
    requires CanJoin(u, p, pp, k) && ResplitRel(u, p, pp, k, m, t) && FairShare(u, p, pp, k, m) && q in t.pages
    ensures t.root in t.info && PageShape(t, q, 0, 0)
  {
    Neighbours(u, p, pp, k);
    var l, r := u.pages[pp].kids[k], u.pages[pp].kids[k + 1];
    assert PageShape(u, pp, 0, p);
    if q == l || q == r {
      ResplitHalf(u, p, pp, k, m, t, q);
    } else if q == pp {
      ResplitParent(u, p, pp, k, m, t);
    } else {
      ResplitOther(u, p, pp, k, m, t, q);
    }
  }

  lemma ResplitHalfKids(u: Tree, p: int, pp: int, k: nat, m: nat, t: Tree, q: int)
    requires CanJoin(u, p, pp, k) && ResplitRel(u, p, pp, k, m, t)
    requires q == u.pages[pp].kids[k] || q == u.pages[pp].kids[k + 1]
    requires q in u.pages && u.pages[q].Inner?
    ensures q in t.pages && t.pages[q].Inner? && Distinct(t.pages[q].kids)
    ensures forall i :: 0 <= i < |t.pages[q].kids| ==> IsKid(t, q, t.pages[q].kids[i])
  {
    hide Ordered, Shape;
    Neighbours(u, p, pp, k);
    JoinedKids(u, p, pp, k);
    var l, J := u.pages[pp].kids[k], JoinedView(u, pp, k);
    var off := if q == l then 0 else m + 1;
    forall i | 0 <= i < |t.pages[q].kids| ensures IsKid(t, q, t.pages[q].kids[i]) {
      assert t.pages[q].kids[i] == J.kids[off + i];
    }
  }

  lemma ResplitHalf(u: Tree, p: int, pp: int, k: nat, m: nat, t: Tree, q: int)
    requires CanJoin(u, p, pp, k) && ResplitRel(u, p, pp, k, m, t) && FairShare(u, p, pp, k, m)
    requires q == u.pages[pp].kids[k] || q == u.pages[pp].kids[k + 1]
    ensures q in t.pages && t.root in t.info && PageShape(t, q, 0, 0)
  {
    hide Ordered;
    Neighbours(u, p, pp, k);
    JoinedKids(u, p, pp, k);
    var l, r, J := u.pages[pp].kids[k], u.pages[pp].kids[k + 1], JoinedView(u, pp, k);
    assert PageShape(u, pp, 0, p) && PageShape(u, l, 0, p) && PageShape(u, r, 0, p);
    assert t.pages[pp].kids[k] == l && t.pages[pp].kids[k + 1] == r;
    if J.Inner? {
      ResplitHalfKids(u, p, pp, k, m, t, q);
    } else if J.next in u.pages {
      assert PageShape(u, J.next, 0, p);
      if J.next != l && J.next != r && J.next != pp { assert J.next !in KidsOfView(J); }
    }
  }

  lemma ResplitParent(u: Tree, p: int, pp: int, k: nat, m: nat, t: Tree)
    requires CanJoin(u, p, pp, k) && ResplitRel(u, p, pp, k, m, t)
    ensures pp in t.pages && t.root in t.info && PageShape(t, pp, 0, 0)
  {
    Neighbours(u, p, pp, k);
    JoinedKids(u, p, pp, k);
    var l, r, J := u.pages[pp].kids[k], u.pages[pp].kids[k + 1], JoinedView(u, pp, k);
    assert PageShape(u, pp, 0, p);
    var kids := u.pages[pp].kids;
    forall i | 0 <= i < |kids| ensures IsKid(t, pp, kids[i]) {
      assert IsKid(u, pp, kids[i]);
      if kids[i] != l && kids[i] != r { NotAmongKids(u, p, pp, k, kids[i]); }
    }
    if pp != u.root {
      NotOwnParent(u, 0, p, pp);
      NotAmongKids(u, p, pp, k, u.pages[pp].parent);
    }
  }

  /** A page at the height of the neighbours, or above, is no kid of theirs. */
  lemma NotAmongKids(u: Tree, p: int, pp: int, k: nat, q: int)
    requires CanJoin(u, p, pp, k) && q in u.pages && q in u.info && pp in u.info && u.info[q].lvl + 1 >= u.info[pp].lvl
    ensures u.pages[pp].kids[k] in u.pages && u.pages[pp].kids[k + 1] in u.pages
    ensures u.pages[u.pages[pp].kids[k]].Leaf? == u.pages[u.pages[pp].kids[k + 1]].Leaf?
    ensures q !in KidsOfView(JoinedView(u, pp, k))
  {
    Neighbours(u, p, pp, k);
    JoinedKids(u, p, pp, k);
  }

  lemma ResplitOther(u: Tree, p: int, pp: int, k: nat, m: nat, t: Tree, q: int)
    requires CanJoin(u, p, pp, k) && ResplitRel(u, p, pp, k, m, t)
    requires q in t.pages && q != pp && q != u.pages[pp].kids[k] && q != u.pages[pp].kids[k + 1]
    ensures t.root in t.info && PageShape(t, q, 0, 0)
  {
    Neighbours(u, p, pp, k);
    JoinedKids(u, p, pp, k);
    var l, r, J := u.pages[pp].kids[k], u.pages[pp].kids[k + 1], JoinedView(u, pp, k);
    assert PageShape(u, q, 0, p);
    if u.pages[q].Inner? {
      ResplitOtherKids(u, p, pp, k, m, t, q);
    }
    if q in KidsOfView(J) {
      var i :| 0 <= i < |J.kids| && J.kids[i] == q;
      if i <= m { assert t.pages[l].kids[i] == q; } else { assert t.pages[r].kids[i - m - 1] == q; }
    } else if q != u.root {
      ResplitOtherParent(u, p, pp, k, m, t, q);
    }
  }

  lemma ResplitOtherKids(u: Tree, p: int, pp: int, k: nat, m: nat, t: Tree, q: int)
    requires CanJoin(u, p, pp, k) && ResplitRel(u, p, pp, k, m, t)
    requires q in t.pages && q != pp && q != u.pages[pp].kids[k] && q != u.pages[pp].kids[k + 1] && u.pages[q].Inner?
    ensures forall i :: 0 <= i < |u.pages[q].kids| ==> IsKid(t, q, u.pages[q].kids[i])
  {
    Neighbours(u, p, pp, k);
    JoinedKids(u, p, pp, k);
    assert PageShape(u, q, 0, p);
    forall i | 0 <= i < |u.pages[q].kids| ensures IsKid(t, q, u.pages[q].kids[i]) {
      assert IsKid(u, q, u.pages[q].kids[i]);
    }
  }

  lemma ResplitOtherParent(u: Tree, p: int, pp: int, k: nat, m: nat, t: Tree, q: int)
    requires CanJoin(u, p, pp, k) && ResplitRel(u, p, pp, k, m, t)
    requires q in t.pages && q != pp && q != u.pages[pp].kids[k] && q != u.pages[pp].kids[k + 1] && q != u.root
    requires u.pages[pp].kids[k] in u.pages && u.pages[pp].kids[k + 1] in u.pages
    requires u.pages[u.pages[pp].kids[k]].Leaf? == u.pages[u.pages[pp].kids[k + 1]].Leaf?
    requires q !in KidsOfView(JoinedView(u, pp, k))
    ensures t.pages[q].parent in t.pages && t.pages[t.pages[q].parent].Inner? && q in t.pages[t.pages[q].parent].kids
  {
    Neighbours(u, p, pp, k);
    var l, r, J := u.pages[pp].kids[k], u.pages[pp].kids[k + 1], JoinedView(u, pp, k);
    assert PageShape(u, q, 0, p);
    var a := u.pages[q].parent;
    var i :| 0 <= i < |u.pages[a].kids| && u.pages[a].kids[i] == q;
    assert a != l && a != r;
  }

  lemma ResplitShape(u: Tree, p: int, pp: int, k: nat, m: nat, t: Tree)
    requires CanJoin(u, p, pp, k) && ResplitRel(u, p, pp, k, m, t) && FairShare(u, p, pp, k, m)
    ensures Shape(t, 0, 0)
  {
    Neighbours(u, p, pp, k);
    forall q | q in t.pages ensures PageShape(t, q, 0, 0) {
      ResplitPageShape(u, p, pp, k, m, t, q);
    }
  }

  // ---- order ------------------------------------------------------------------------

  /** The kids of the joined page keep to the joined separators. */
  lemma JoinedKidRange(u: Tree, p: int, pp: int, k: nat, i: nat)
    requires CanJoin(u, p, pp, k)
    ensures var l, r := u.pages[pp].kids[k], u.pages[pp].kids[k + 1];
      && l in u.pages && r in u.pages && u.pages[l].Leaf? == u.pages[r].Leaf? && l in u.info && r in u.info
      && var J := JoinedView(u, pp, k);
      (J.Inner? && i < |J.kids| ==>
        && |J.kids| == |J.keys| + 1 && J.kids[i] in u.info
        && u.info[J.kids[i]].lo == (if i == 0 then u.info[l].lo else At(Rank(J.keys[i - 1])))
        && u.info[J.kids[i]].hi == (if i == |J.keys| then u.info[r].hi else At(Rank(J.keys[i]))))
  {
    hide Sorted;
    Neighbours(u, p, pp, k);
    var l, r, J := u.pages[pp].kids[k], u.pages[pp].kids[k + 1], JoinedView(u, pp, k);
    assert PageOrder(u, l) && PageOrder(u, r);
    if J.Inner? && i < |J.kids| {
      var a, b := u.pages[l], u.pages[r];
      if i < |a.kids| {
        assert KidRange(u, l, i) && J.kids[i] == a.kids[i];
      } else {
        assert KidRange(u, r, i - |a.kids|) && J.kids[i] == b.kids[i - |a.kids|];
      }
    }
  }

  /** The new separator lies strictly inside the range of the two neighbours. */
  lemma MiddleKey(u: Tree, p: int, pp: int, k: nat, m: nat)
    requires CanJoin(u, p, pp, k) && 0 < m
    ensures var l, r := u.pages[pp].kids[k], u.pages[pp].kids[k + 1];
      && l in u.pages && r in u.pages && u.pages[l].Leaf? == u.pages[r].Leaf? && l in u.info && r in u.info
      && var J := JoinedView(u, pp, k);
      (m < |J.keys| ==>
        && Above(u.info[l].lo, Rank(J.keys[m])) && Below(u.info[r].hi, Rank(J.keys[m]))
        && Above(u.info[pp].lo, Rank(J.keys[m])) && Below(u.info[pp].hi, Rank(J.keys[m])))
  {
    Neighbours(u, p, pp, k);
    JoinedSorted(u, p, pp, k);
    var J := JoinedView(u, pp, k);
    if m < |J.keys| {
      assert Rank(J.keys[0]) < Rank(J.keys[m]);
      assert PageOrder(u, pp);
      assert k > 0 ==> Above(u.info[pp].lo, Rank(u.pages[pp].keys[k - 1]));
      assert k + 1 < |u.pages[pp].keys| ==> Below(u.info[pp].hi, Rank(u.pages[pp].keys[k + 1]));
    }
  }

  lemma ResplitHalfOrder(u: Tree, p: int, pp: int, k: nat, m: nat, t: Tree, q: int)
    requires CanJoin(u, p, pp, k) && ResplitRel(u, p, pp, k, m, t) && 0 < m
    requires q == u.pages[pp].kids[k] || q == u.pages[pp].kids[k + 1]
    ensures q in t.pages && PageOrder(t, q)
  {
    Neighbours(u, p, pp, k);
    if u.pages[q].Leaf? {
      ResplitLeafOrder(u, p, pp, k, m, t, q);
    } else {
      ResplitInnerOrder(u, p, pp, k, m, t, q);
    }
  }

  lemma NeighbourOrders(u: Tree, p: int, pp: int, k: nat)
    requires CanJoin(u, p, pp, k)
    ensures var l, r := u.pages[pp].kids[k], u.pages[pp].kids[k + 1];
      l in u.pages && r in u.pages && PageOrder(u, l) && PageOrder(u, r) && PageOrder(u, pp)
  {
    Neighbours(u, p, pp, k);
  }

  lemma ResplitLeafOrder(u: Tree, p: int, pp: int, k: nat, m: nat, t: Tree, q: int)
    requires CanJoin(u, p, pp, k) && ResplitRel(u, p, pp, k, m, t) && 0 < m
    requires q == u.pages[pp].kids[k] || q == u.pages[pp].kids[k + 1]
    requires q in u.pages && u.pages[q].Leaf?
    ensures q in t.pages && PageOrder(t, q)
  {
    hide Shape, Ordered, Sorted, KidRange;
    Neighbours(u, p, pp, k);
    NeighbourOrders(u, p, pp, k);
    JoinedSorted(u, p, pp, k);
    MiddleKey(u, p, pp, k, m);
    var l, r, J := u.pages[pp].kids[k], u.pages[pp].kids[k + 1], JoinedView(u, pp, k);
    SortedCut(J.keys, m);
    NextIsAfter(u, p, pp, k);
    assert forall j :: 0 <= j < |J.keys| ==> J.rids[j] == J.keys[j].rid;
  }

  lemma SortedCut(keys: seq<Key>, m: nat)
    requires Sorted(keys) && m < |keys|
    ensures Sorted(keys[..m]) && Sorted(keys[m..])
    ensures forall j :: 0 <= j < m ==> Rank(keys[j]) < Rank(keys[m])
    ensures forall j :: m <= j < |keys| ==> Rank(keys[m]) <= Rank(keys[j])
  {
  }

  lemma ResplitInnerOrder(u: Tree, p: int, pp: int, k: nat, m: nat, t: Tree, q: int)
    requires CanJoin(u, p, pp, k) && ResplitRel(u, p, pp, k, m, t) && 0 < m
    requires q == u.pages[pp].kids[k] || q == u.pages[pp].kids[k + 1]
    requires q in u.pages && u.pages[q].Inner?
    ensures q in t.pages && PageOrder(t, q)
  {
    hide Shape, Ordered, KidRange;
    Neighbours(u, p, pp, k);
    NeighbourOrders(u, p, pp, k);
    JoinedSorted(u, p, pp, k);
    MiddleKey(u, p, pp, k, m);
    ResplitInnerKids(u, p, pp, k, m, t, q);
  }

  lemma ResplitInnerKids(u: Tree, p: int, pp: int, k: nat, m: nat, t: Tree, q: int)
    requires CanJoin(u, p, pp, k) && ResplitRel(u, p, pp, k, m, t) && 0 < m
    requires q == u.pages[pp].kids[k] || q == u.pages[pp].kids[k + 1]
    requires q in u.pages && u.pages[q].Inner?
    ensures q in t.pages && t.pages[q].Inner? && |t.pages[q].kids| == |t.pages[q].keys| + 1 && q in t.info
    ensures forall j :: 0 <= j < |t.pages[q].kids| ==> KidRange(t, q, j)
  {
    hide Shape, Ordered, Sorted;
    Neighbours(u, p, pp, k);
    var J := JoinedView(u, pp, k);
    var off := if q == u.pages[pp].kids[k] then 0 else m + 1;
    forall j | 0 <= j < |t.pages[q].kids| ensures KidRange(t, q, j) {
      assert t.pages[q].kids[j] == J.kids[off + j];
      JoinedKidRange(u, p, pp, k, off + j);
    }
  }

  lemma ResplitParentOrder(u: Tree, p: int, pp: int, k: nat, m: nat, t: Tree)
    requires CanJoin(u, p, pp, k) && ResplitRel(u, p, pp, k, m, t) && 0 < m
    ensures pp in t.pages && PageOrder(t, pp)
  {
    hide Shape, Ordered, KidRange;
    Neighbours(u, p, pp, k);
    NeighbourOrders(u, p, pp, k);
    MiddleKey(u, p, pp, k, m);
    var J, v := JoinedView(u, pp, k), u.pages[pp];
    assert k > 0 ==> Rank(v.keys[k - 1]) < Rank(J.keys[m]);
    assert k + 1 < |v.keys| ==> Rank(J.keys[m]) < Rank(v.keys[k + 1]);
    ResplitParentKids(u, p, pp, k, m, t);
  }

  lemma ResplitParentKids(u: Tree, p: int, pp: int, k: nat, m: nat, t: Tree)
    requires CanJoin(u, p, pp, k) && ResplitRel(u, p, pp, k, m, t)
    ensures pp in t.pages && t.pages[pp].Inner? && |t.pages[pp].kids| == |t.pages[pp].keys| + 1 && pp in t.info
    ensures forall j :: 0 <= j < |t.pages[pp].kids| ==> KidRange(t, pp, j)
  {
    hide Sorted;
    Neighbours(u, p, pp, k);
    assert PageShape(u, pp, 0, p) && PageOrder(u, pp);
    forall j | 0 <= j < |u.pages[pp].kids| ensures KidRange(t, pp, j) {
      assert KidRange(u, pp, j);
    }
  }

  lemma ResplitOtherOrder(u: Tree, p: int, pp: int, k: nat, m: nat, t: Tree, q: int)
    requires CanJoin(u, p, pp, k) && ResplitRel(u, p, pp, k, m, t)
    requires q in t.pages && q != pp && q != u.pages[pp].kids[k] && q != u.pages[pp].kids[k + 1]
    ensures PageOrder(t, q)
  {
    Neighbours(u, p, pp, k);
    JoinedKids(u, p, pp, k);
    var l, r, J := u.pages[pp].kids[k], u.pages[pp].kids[k + 1], JoinedView(u, pp, k);
    assert PageOrder(u, q) && PageShape(u, q, 0, p);
    if u.pages[q].Inner? {
      forall j | 0 <= j < |u.pages[q].kids| ensures KidRange(t, q, j) {
        assert KidRange(u, q, j);
        KidsOf(u, 0, p, q, u.pages[q].kids[j]);
      }
    } else if u.pages[q].next == r {
      OnePredecessor(u, p, q, l);
    }
  }

  lemma ResplitOrder(u: Tree, p: int, pp: int, k: nat, m: nat, t: Tree)
    requires CanJoin(u, p, pp, k) && ResplitRel(u, p, pp, k, m, t) && 0 < m
    ensures Ordered(t)
  {
    Neighbours(u, p, pp, k);
    forall q | q in t.pages ensures PageOrder(t, q) {
      if q == pp { ResplitParentOrder(u, p, pp, k, m, t); }
      else if q == u.pages[pp].kids[k] || q == u.pages[pp].kids[k + 1] { ResplitHalfOrder(u, p, pp, k, m, t, q); }
      else { ResplitOtherOrder(u, p, pp, k, m, t, q); }
    }
  }

  lemma ResplitHas(u: Tree, p: int, pp: int, k: nat, m: nat, t: Tree, e: Key)
    requires CanJoin(u, p, pp, k) && ResplitRel(u, p, pp, k, m, t)
    ensures Has(t, e) <==> Has(u, e)
  {
    Neighbours(u, p, pp, k);
    JoinedKids(u, p, pp, k);
    var l, r, J := u.pages[pp].kids[k], u.pages[pp].kids[k + 1], JoinedView(u, pp, k);
    if J.Leaf? {
      assert J.keys == t.pages[l].keys + t.pages[r].keys == u.pages[l].keys + u.pages[r].keys;
      assert e in J.keys <==> e in t.pages[l].keys || e in t.pages[r].keys;
      assert e in J.keys <==> e in u.pages[l].keys || e in u.pages[r].keys;
    }
    if Has(u, e) {
      var q :| q in u.pages && u.pages[q].Leaf? && e in u.pages[q].keys;
      assert q != l && q != r ==> q in t.pages && t.pages[q].Leaf? && e in t.pages[q].keys;
    }
    if Has(t, e) {
      var q :| q in t.pages && t.pages[q].Leaf? && e in t.pages[q].keys;
      assert q != l && q != r ==> q in u.pages && u.pages[q].Leaf? && e in u.pages[q].keys;
    }
  }

  // ---- the moves of redistribute_nodes ------------------------------------------------

  /** The page that is moved along with the key, when there is one. */
  ghost function MovedKid(a: View, b: View, fromRight: bool): int
    requires a.Inner? && b.Inner? && a.kids != [] && b.kids != []
  {
    if fromRight then b.kids[0] else a.kids[|a.kids| - 1]
  }

  /** The left page after the move. */
  ghost function LeftAfter(a: View, sep: Key, b: View, fromRight: bool): View
    requires a.Leaf? == b.Leaf? && (if fromRight then b.keys else a.keys) != []
    requires a.Leaf? ==> |a.rids| == |a.keys| && |b.rids| == |b.keys|
    requires a.Inner? ==> |a.kids| == |a.keys| + 1 && |b.kids| == |b.keys| + 1
  {
    var n := |a.keys|;
    if fromRight then
      if a.Leaf? then a.(keys := a.keys + [b.keys[0]], rids := a.rids + [b.rids[0]])
      else a.(keys := a.keys + [sep], kids := a.kids + [b.kids[0]])
    else
      if a.Leaf? then a.(keys := a.keys[..n - 1], rids := a.rids[..n - 1])
      else a.(keys := a.keys[..n - 1], kids := a.kids[..n])
  }

  /** The right page after the move; one of its slots holds `x`. */
  ghost function RightAfter(a: View, sep: Key, b: View, fromRight: bool, x: RID): View
    requires a.Leaf? == b.Leaf? && (if fromRight then b.keys else a.keys) != []
    requires a.Leaf? ==> |a.rids| == |a.keys| && |b.rids| == |b.keys|
    requires a.Inner? ==> |a.kids| == |a.keys| + 1 && |b.kids| == |b.keys| + 1
  {
    var n, m := |a.keys|, |b.keys|;
    if fromRight then
      if a.Leaf? then b.(keys := b.keys[1..], rids := b.rids[1..])
      else b.(keys := b.keys[1..], kids := b.kids[1..m] + [x.pageNum])
    else
      if a.Leaf? then b.(keys := [a.keys[n - 1]] + b.keys, rids := [x] + b.rids)
      else b.(keys := [sep] + b.keys, kids := [a.kids[n]] + b.kids[..m] + [x.pageNum])
  }

  /** The new separator. */
  ghost function SepAfter(a: View, b: View, fromRight: bool): Key
    requires a.Leaf? == b.Leaf? && if fromRight then |b.keys| > 1 else a.keys != []
  {
    if fromRight then b.keys[if b.Leaf? then 1 else 0] else a.keys[|a.keys| - 1]
  }

  /** What the slot must hold: the last child of the right page, or the RID of the key that
      has moved to the right leaf.  Moving a key to the left leaf leaves no slot in doubt. */
  ghost predicate GoodSlot(a: View, b: View, fromRight: bool, x: RID)
    requires a.Leaf? == b.Leaf? && (if fromRight then b.keys else a.keys) != []
    requires a.Inner? ==> |b.kids| == |b.keys| + 1
  {
    if a.Inner? then x.pageNum == b.kids[|b.keys|]
    else fromRight || x == a.keys[|a.keys| - 1].rid
  }

  /** Two neighbours one of which has a key to give to the other. */
  ghost predicate CanBorrow(u: Tree, p: int, pp: int, k: nat, fromRight: bool) {
    && CanJoin(u, p, pp, k)
    && var l, r := u.pages[pp].kids[k], u.pages[pp].kids[k + 1];
    && l in u.pages && r in u.pages && u.pages[l].Leaf? == u.pages[r].Leaf?
    && var min := MinKeys(u.order, u.pages[p].Leaf?);
    && |u.pages[l].keys| < u.order && |u.pages[r].keys| < u.order
    && if fromRight then p == l && |u.pages[l].keys| == min - 1 && |u.pages[r].keys| > min
       else p == r && |u.pages[r].keys| == min - 1 && |u.pages[l].keys| > min
  }

  lemma BorrowFacts(u: Tree, p: int, pp: int, k: nat, fromRight: bool)
    requires CanBorrow(u, p, pp, k, fromRight)
    ensures var l, r := u.pages[pp].kids[k], u.pages[pp].kids[k + 1];
      && l in u.info && r in u.info && l != r && l != pp && r != pp
      && var a, b := u.pages[l], u.pages[r];
      && a.parent == pp && b.parent == pp
      && (fromRight ==> |b.keys| > 1) && (!fromRight ==> |a.keys| > 1)
      && (a.Leaf? ==> |a.rids| == |a.keys| && |b.rids| == |b.keys|)
      && (a.Inner? ==> && |a.kids| == |a.keys| + 1 && |b.kids| == |b.keys| + 1
                       && var c := MovedKid(a, b, fromRight); c in u.pages && c != l && c != r && c != pp)
  {
    Neighbours(u, p, pp, k);
    JoinedKids(u, p, pp, k);
    var l, r := u.pages[pp].kids[k], u.pages[pp].kids[k + 1];
    assert PageShape(u, l, 0, p) && PageShape(u, r, 0, p);
    var a, b := u.pages[l], u.pages[r];
    if a.Inner? {
      var J := JoinedView(u, pp, k).kids;
      assert J[if fromRight then |a.kids| else |a.kids| - 1] == MovedKid(a, b, fromRight);
    }
  }

  ghost predicate SlotIsGood(u: Tree, p: int, pp: int, k: nat, fromRight: bool, x: RID)
    requires CanBorrow(u, p, pp, k, fromRight)
  {
    BorrowFacts(u, p, pp, k, fromRight);
    GoodSlot(u.pages[u.pages[pp].kids[k]], u.pages[u.pages[pp].kids[k + 1]], fromRight, x)
  }

  /** The tree after the move. */
  ghost function Borrowed(u: Tree, p: int, pp: int, k: nat, fromRight: bool, x: RID): Tree
    requires CanBorrow(u, p, pp, k, fromRight)
  {
    BorrowFacts(u, p, pp, k, fromRight);
    var l, r, keys := u.pages[pp].kids[k], u.pages[pp].kids[k + 1], u.pages[pp].keys;
    var a, b := u.pages[l], u.pages[r];
    var sep := SepAfter(a, b, fromRight);
    var moved := u.pages[l := LeftAfter(a, keys[k], b, fromRight)]
                        [r := RightAfter(a, keys[k], b, fromRight, x)]
                        [pp := u.pages[pp].(keys := keys[k := sep])];
    u.(pages := if a.Leaf? then moved else
                  var c := MovedKid(a, b, fromRight);
                  moved[c := u.pages[c].(parent := if fromRight then l else r)],
       info := u.info[l := u.info[l].(hi := At(Rank(sep)))][r := u.info[r].(lo := At(Rank(sep)))])
  }

  lemma BorrowedIsResplit(u: Tree, p: int, pp: int, k: nat, fromRight: bool, x: RID)
    requires CanBorrow(u, p, pp, k, fromRight)
    requires SlotIsGood(u, p, pp, k, fromRight, x)
    ensures var n := |u.pages[u.pages[pp].kids[k]].keys|;
      var m := if fromRight then n + 1 else n - 1;
      0 < m && ResplitRel(u, p, pp, k, m, Borrowed(u, p, pp, k, fromRight, x)) && FairShare(u, p, pp, k, m)
  {
    BorrowFacts(u, p, pp, k, fromRight);
    var l, r := u.pages[pp].kids[k], u.pages[pp].kids[k + 1];
    if u.pages[l].Leaf? {
      BorrowedLeafIsResplit(u, p, pp, k, fromRight, x);
    } else {
      BorrowedInnerIsResplit(u, p, pp, k, fromRight, x);
    }
  }

  lemma BorrowedLeafIsResplit(u: Tree, p: int, pp: int, k: nat, fromRight: bool, x: RID)
    requires CanBorrow(u, p, pp, k, fromRight) && u.pages[u.pages[pp].kids[k]].Leaf?
    requires SlotIsGood(u, p, pp, k, fromRight, x)
    ensures var n := |u.pages[u.pages[pp].kids[k]].keys|;
      var m := if fromRight then n + 1 else n - 1;
      0 < m && ResplitRel(u, p, pp, k, m, Borrowed(u, p, pp, k, fromRight, x)) && FairShare(u, p, pp, k, m)
  {
    hide Sorted, Shape, Ordered, KidRange, LeftAfter, RightAfter, SepAfter, GoodSlot;
    BorrowFacts(u, p, pp, k, fromRight);
    NextIsAfter(u, p, pp, k);
    NeighbourOrders(u, p, pp, k);
    Neighbours(u, p, pp, k);
    var l, r := u.pages[pp].kids[k], u.pages[pp].kids[k + 1];
    LeafMove(u.pages[l], u.pages[pp].keys[k], u.pages[r], fromRight, x);
  }

  /** The entries of two leaves after the move are those from before, cut at another place. */
  lemma LeafMove(a: View, sep: Key, b: View, fromRight: bool, x: RID)
    requires a.Leaf? && b.Leaf? && |a.rids| == |a.keys| && |b.rids| == |b.keys|
    requires if fromRight then |b.keys| > 1 else |a.keys| > 1
    requires a.keys != [] ==> a.rids[|a.keys| - 1] == a.keys[|a.keys| - 1].rid
    requires GoodSlot(a, b, fromRight, x)
    ensures var m, keys, rids := if fromRight then |a.keys| + 1 else |a.keys| - 1, a.keys + b.keys, a.rids + b.rids;
      && 0 < m < |keys| && SepAfter(a, b, fromRight) == keys[m]
      && LeftAfter(a, sep, b, fromRight) == Leaf(a.parent, keys[..m], rids[..m], a.next)
      && RightAfter(a, sep, b, fromRight, x) == Leaf(b.parent, keys[m..], rids[m..], b.next)
  {
  }

  lemma BorrowedHalves(u: Tree, p: int, pp: int, k: nat, fromRight: bool, x: RID, m: nat)
    requires CanBorrow(u, p, pp, k, fromRight) && u.pages[u.pages[pp].kids[k]].Inner?
    requires SlotIsGood(u, p, pp, k, fromRight, x)
    requires var n := |u.pages[u.pages[pp].kids[k]].keys|; m == if fromRight then n + 1 else n - 1
    ensures var l, r, J := u.pages[pp].kids[k], u.pages[pp].kids[k + 1], JoinedView(u, pp, k);
      var t := Borrowed(u, p, pp, k, fromRight, x);
      && J.Inner? && m < |J.keys| == |J.kids| - 1
      && t.pages.Keys == u.pages.Keys
      && t.pages[l] == Inner(pp, J.keys[..m], J.kids[..m + 1])
      && t.pages[r] == Inner(pp, J.keys[m + 1..], J.kids[m + 1..])
      && t.pages[pp] == Inner(u.pages[pp].parent, u.pages[pp].keys[k := J.keys[m]], u.pages[pp].kids)
      && t.info == u.info[l := u.info[l].(hi := At(Rank(J.keys[m])))][r := u.info[r].(lo := At(Rank(J.keys[m])))]
  {
    hide Sorted, Shape, Ordered, MinKeys;
    BorrowFacts(u, p, pp, k, fromRight);
    var l, r, J := u.pages[pp].kids[k], u.pages[pp].kids[k + 1], JoinedView(u, pp, k);
    var t := Borrowed(u, p, pp, k, fromRight, x);
    assert t.pages[l] == Inner(pp, J.keys[..m], J.kids[..m + 1]);
    assert t.pages[r] == Inner(pp, J.keys[m + 1..], J.kids[m + 1..]);
  }

  lemma BorrowedKids(u: Tree, p: int, pp: int, k: nat, fromRight: bool, x: RID, m: nat)
    requires CanBorrow(u, p, pp, k, fromRight) && u.pages[u.pages[pp].kids[k]].Inner?
    requires var n := |u.pages[u.pages[pp].kids[k]].keys|; m == if fromRight then n + 1 else n - 1
    ensures var l, r, J := u.pages[pp].kids[k], u.pages[pp].kids[k + 1], JoinedView(u, pp, k);
      var t := Borrowed(u, p, pp, k, fromRight, x);
      && (forall i :: 0 <= i < |J.kids| ==>
            && J.kids[i] in u.pages && J.kids[i] != l && J.kids[i] != r && J.kids[i] != pp
            && t.pages[J.kids[i]] == u.pages[J.kids[i]].(parent := if i <= m then l else r))
      && (forall q :: q in u.pages && q != l && q != r && q != pp && q !in J.kids ==> t.pages[q] == u.pages[q])
  {
    hide Sorted, Shape, Ordered, LeftAfter, RightAfter, SepAfter, MinKeys;
    BorrowFacts(u, p, pp, k, fromRight);
    JoinedKids(u, p, pp, k);
    Neighbours(u, p, pp, k);
    var l, r, J := u.pages[pp].kids[k], u.pages[pp].kids[k + 1], JoinedView(u, pp, k);
    var t, c := Borrowed(u, p, pp, k, fromRight, x), MovedKid(u.pages[l], u.pages[r], fromRight);
    var at := if fromRight then m else m + 1;
    assert J.kids[at] == c;
    forall i | 0 <= i < |J.kids|
      ensures J.kids[i] in u.pages && J.kids[i] != l && J.kids[i] != r && J.kids[i] != pp
      ensures t.pages[J.kids[i]] == u.pages[J.kids[i]].(parent := if i <= m then l else r)
    {
      NotOwnParent(u, 0, p, J.kids[i]);
      assert i != at ==> J.kids[i] != c;
    }
  }

  lemma BorrowedInnerIsResplit(u: Tree, p: int, pp: int, k: nat, fromRight: bool, x: RID)
    requires CanBorrow(u, p, pp, k, fromRight) && u.pages[u.pages[pp].kids[k]].Inner?
    requires SlotIsGood(u, p, pp, k, fromRight, x)
    ensures var n := |u.pages[u.pages[pp].kids[k]].keys|;
      var m := if fromRight then n + 1 else n - 1;
      0 < m && ResplitRel(u, p, pp, k, m, Borrowed(u, p, pp, k, fromRight, x)) && FairShare(u, p, pp, k, m)
  {
    hide Sorted, Shape, Ordered, LeftAfter, RightAfter, SepAfter, Distinct;
    BorrowFacts(u, p, pp, k, fromRight);
    Neighbours(u, p, pp, k);
    var n := |u.pages[u.pages[pp].kids[k]].keys|;
    var m := if fromRight then n + 1 else n - 1;
    assert u.order >= 3 by { CanJoinOrder(u, p, pp, k); }
    BorrowedHalves(u, p, pp, k, fromRight, x, m);
    BorrowedKids(u, p, pp, k, fromRight, x, m);
  }

  lemma CanJoinOrder(u: Tree, p: int, pp: int, k: nat)
    requires CanJoin(u, p, pp, k)
    ensures u.order >= 3
  {
  }
}
