/** What a scan of the index must find, and where it may begin. */
module BTreeScan {
  import opened Keys
  import opened BTree
  import opened Comparisons

  /** The RIDs of the entries of `keys` that satisfy the comparison, in order. */
  function Pick(op: CompOp, v: int, keys: seq<Key>): seq<RID> {
    if keys == [] then []
    else (if Satisfies(op, keys[0].attr, v) then [keys[0].rid] else []) + Pick(op, v, keys[1..])
  }

  lemma {:induction false} PickConcat(op: CompOp, v: int, a: seq<Key>, b: seq<Key>)
    ensures Pick(op, v, a + b) == Pick(op, v, a) + Pick(op, v, b)
  {
    hide Satisfies;
    if a == [] {
      assert a + b == b && Pick(op, v, a) == [];
    } else {
      var first := if Satisfies(op, a[0].attr, v) then [a[0].rid] else [];
      assert (a + b)[1..] == a[1..] + b;
      PickConcat(op, v, a[1..], b);
      assert first + (Pick(op, v, a[1..]) + Pick(op, v, b)) == (first + Pick(op, v, a[1..])) + Pick(op, v, b);
    }
  }

  lemma {:induction false} PickNone(op: CompOp, v: int, keys: seq<Key>)
    requires forall k :: k in keys ==> !Satisfies(op, k.attr, v)
    ensures Pick(op, v, keys) == []
  {
    if keys != [] {
      PickNone(op, v, keys[1..]);
    }
  }

  /** Nothing is lost or invented: an entry is picked if and only if it satisfies the
      comparison. */
  lemma {:induction false} PickHas(op: CompOp, v: int, keys: seq<Key>, r: RID)
    ensures r in Pick(op, v, keys) <==> exists k :: k in keys && k.rid == r && Satisfies(op, k.attr, v)
  {
    if keys != [] {
      PickHas(op, v, keys[1..], r);
      assert keys == [keys[0]] + keys[1..];
    }
  }

  // ---- all entries in order ---------------------------------------------------------

  ghost function FirstLeafOf(t: Tree, p: int): (q: int)
    requires WF(t) && p in t.pages && p in t.info && t.info[p].lo == Open
    ensures q in t.pages && t.pages[q].Leaf? && q in t.info && t.info[q].lo == Open
    decreases t.info[p].lvl
  {
    assert PageShape(t, p, 0, 0) && PageOrder(t, p);
    if t.pages[p].Leaf? then p
    else
      assert IsKid(t, p, t.pages[p].kids[0]) && KidRange(t, p, 0);
      FirstLeafOf(t, t.pages[p].kids[0])
  }

  ghost function FirstLeaf(t: Tree): (q: int)
    requires WF(t)
    ensures q in t.pages && t.pages[q].Leaf? && q in t.info && t.info[q].lo == Open
  {
    assert PageOrder(t, t.root);
    FirstLeafOf(t, t.root)
  }

  /** The entries of the index in ascending order. */
  ghost function AllKeys(t: Tree): seq<Key>
    requires WF(t)
  {
    ChainKeys(t, FirstLeaf(t))
  }

  lemma AllKeysAreAll(t: Tree)
    requires WF(t)
    ensures Sorted(AllKeys(t))
    ensures forall k :: k in AllKeys(t) <==> Has(t, k)
  {
    ChainIsComplete(t, FirstLeaf(t));
  }

  /** The chain from leaf `p` runs through leaf `q`; what comes before lies below `q`. */
  lemma {:induction false} ChainSplit(t: Tree, p: int, q: int) returns (pre: seq<Key>)
    requires WF(t) && p in t.pages && t.pages[p].Leaf? && p in t.info && q in LeavesFrom(t, p)
    ensures ChainKeys(t, p) == pre + ChainKeys(t, q)
    ensures forall k :: k in pre ==> !AtLeast(t.info[q].lo, Rank(k))
    decreases LeavesFrom(t, p)
  {
    if p == q {
      pre := [];
    } else {
      LaterLeaf(t, p, q);
      NextLeaf(t, p);
      var n := t.pages[p].next;
      var rest := ChainSplit(t, n, q);
      pre := t.pages[p].keys + rest;
      assert PageOrder(t, p);
      forall k | k in pre ensures !AtLeast(t.info[q].lo, Rank(k)) {
        if k in t.pages[p].keys { assert Within(t.info[p], Rank(k)); }
      }
      assert ChainKeys(t, p) == pre + ChainKeys(t, q);
    }
  }

  // ---- where a scan begins -----------------------------------------------------------

  /** The key with which find_first_index_satisfied looks for the value. */
  function Probe(v: int): Key { Key(v, RID(-1, -1)) }

  /** The search begins in the leaf of the probe: an entry with the value sought, but stored
      before that leaf, is not met.  Its RID would have to be smaller than (-1, -1). */
  ghost predicate Overlooked(t: Tree, op: CompOp, v: int, k: Key) {
    && (op == EQUAL_TO || op == GREAT_EQUAL) && k.attr == v
    && exists p :: p in t.pages && t.pages[p].Leaf? && p in t.info
         && Within(t.info[p], Rank(Probe(v))) && !AtLeast(t.info[p].lo, Rank(k))
  }

  lemma OnlySmallRidsAreOverlooked(t: Tree, op: CompOp, v: int, k: Key)
    requires Overlooked(t, op, v, k)
    ensures CmpRid(k.rid, RID(-1, -1)) < 0
  {
    var p :| p in t.pages && t.pages[p].Leaf? && p in t.info
      && Within(t.info[p], Rank(Probe(v))) && !AtLeast(t.info[p].lo, Rank(k));
    assert CmpKey(k, Probe(v)) < 0;
  }

  /** The RIDs a scan yields. */
  ghost function Found(t: Tree, op: CompOp, v: int, keys: seq<Key>): seq<RID> {
    if keys == [] then []
    else (if Satisfies(op, keys[0].attr, v) && !Overlooked(t, op, v, keys[0]) then [keys[0].rid] else [])
         + Found(t, op, v, keys[1..])
  }

  lemma {:induction false} FoundConcat(t: Tree, op: CompOp, v: int, a: seq<Key>, b: seq<Key>)
    ensures Found(t, op, v, a + b) == Found(t, op, v, a) + Found(t, op, v, b)
  {
    if a == [] {
      assert a + b == b;
    } else {
      assert (a + b)[1..] == a[1..] + b;
      FoundConcat(t, op, v, a[1..], b);
    }
  }

  lemma {:induction false} FoundNone(t: Tree, op: CompOp, v: int, keys: seq<Key>)
    requires forall k :: k in keys ==> !Satisfies(op, k.attr, v) || Overlooked(t, op, v, k)
    ensures Found(t, op, v, keys) == []
  {
    if keys != [] {
      FoundNone(t, op, v, keys[1..]);
    }
  }

  /** A scan yields what the comparison asks for if and only if no entry is overlooked. */
  lemma {:induction false} FoundIsPick(t: Tree, op: CompOp, v: int, keys: seq<Key>)
    ensures Found(t, op, v, keys) == Pick(op, v, keys) <==> forall k :: k in keys ==> !Overlooked(t, op, v, k)
    ensures |Found(t, op, v, keys)| <= |Pick(op, v, keys)|
  {
    hide Overlooked, Satisfies;
    if keys != [] {
      FoundIsPick(t, op, v, keys[1..]);
      assert forall k :: k in keys <==> k == keys[0] || k in keys[1..];
      var found, pick := Found(t, op, v, keys[1..]), Pick(op, v, keys[1..]);
      OverlookedSatisfies(t, op, v, keys[0]);
      if Overlooked(t, op, v, keys[0]) {
        assert keys[0] in keys && |Found(t, op, v, keys)| < |Pick(op, v, keys)|;
      } else if Satisfies(op, keys[0].attr, v) {
        assert Found(t, op, v, keys) == [keys[0].rid] + found && Pick(op, v, keys) == [keys[0].rid] + pick;
        assert ([keys[0].rid] + found)[1..] == found && ([keys[0].rid] + pick)[1..] == pick;
      } else {
        assert Found(t, op, v, keys) == found && Pick(op, v, keys) == pick;
      }
    }
  }

  lemma OverlookedSatisfies(t: Tree, op: CompOp, v: int, k: Key)
    ensures Overlooked(t, op, v, k) ==> Satisfies(op, k.attr, v)
  {
  }

  // ---- positions ---------------------------------------------------------------------

  /** Slot `i` of leaf `p`, or the place behind its last slot. */
  ghost predicate IsPosition(t: Tree, p: int, i: int) {
    p in t.pages && t.pages[p].Leaf? && 0 <= i <= |t.pages[p].keys|
  }

  /** The keys from a position on. */
  ghost function KeysFrom(t: Tree, p: int, i: int): seq<Key>
    requires WF(t) && IsPosition(t, p, i)
  {
    ChainStarts(t, p);
    ChainKeys(t, p)[i..]
  }

  lemma ChainStarts(t: Tree, p: int)
    requires WF(t) && p in t.pages && t.pages[p].Leaf?
    ensures t.pages[p].keys <= ChainKeys(t, p)
  {
    assert PageShape(t, p, 0, 0);
  }

  /** One step along the keys. */
  lemma StepKey(t: Tree, p: int, i: int, op: CompOp, v: int)
    requires WF(t) && IsPosition(t, p, i) && i < |t.pages[p].keys|
    ensures p in t.info && t.pages[p].Leaf? && |t.pages[p].rids| == |t.pages[p].keys| && t.pages[p].rids[i] == t.pages[p].keys[i].rid
    ensures Pick(op, v, KeysFrom(t, p, i))
         == (if Satisfies(op, t.pages[p].keys[i].attr, v) then [t.pages[p].rids[i]] else []) + Pick(op, v, KeysFrom(t, p, i + 1))
  {
    assert PageShape(t, p, 0, 0) && PageOrder(t, p);
    ChainStarts(t, p);
    var rest := KeysFrom(t, p, i);
    assert rest[0] == t.pages[p].keys[i] && rest[1..] == KeysFrom(t, p, i + 1);
  }

  lemma SkipKeys(t: Tree, p: int, i: int, op: CompOp, v: int)
    requires WF(t) && IsPosition(t, p, i)
    requires forall j :: 0 <= j < i ==> !Satisfies(op, t.pages[p].keys[j].attr, v)
    ensures Pick(op, v, KeysFrom(t, p, 0)) == Pick(op, v, KeysFrom(t, p, i))
  {
    ChainStarts(t, p);
    var all := ChainKeys(t, p);
    assert all == all[..i] + all[i..] && all[0..] == all;
    PickConcat(op, v, all[..i], all[i..]);
    PickNone(op, v, all[..i]);
  }

  /** Behind the last key of a leaf, the scan goes on with the next leaf. */
  lemma NextPosition(t: Tree, p: int, op: CompOp, v: int)
    requires WF(t) && p in t.pages && t.pages[p].Leaf?
    ensures p in t.info && p > 0 && p in LeavesFrom(t, p)
    ensures var n, last := t.pages[p].next, |t.pages[p].keys|;
      && (n == 0 ==> KeysFrom(t, p, last) == [] && Pick(op, v, KeysFrom(t, p, last)) == [])
      && (n != 0 ==> n > 0 && IsPosition(t, n, 0) && KeysFrom(t, p, last) == KeysFrom(t, n, 0) && n in t.info
                     && LeavesFrom(t, n) < LeavesFrom(t, p))
  {
    assert PageShape(t, p, 0, 0);
    if t.pages[p].next != 0 {
      NextLeaf(t, p);
      assert ChainKeys(t, p)[|t.pages[p].keys|..] == ChainKeys(t, t.pages[p].next);
    }
  }

  /** The scan may begin at the leaf of the probe. */
  lemma StartAtProbe(t: Tree, op: CompOp, v: int, p: int)
    requires WF(t) && p in t.pages && t.pages[p].Leaf? && p in t.info && Within(t.info[p], Rank(Probe(v)))
    requires op != LESS_THAN && op != LESS_EQUAL && op != NOT_EQUAL
    ensures IsPosition(t, p, 0) && Pick(op, v, KeysFrom(t, p, 0)) == Found(t, op, v, AllKeys(t))
  {
    var f := FirstLeaf(t);
    assert p in LeavesFrom(t, f);
    var pre := ChainSplit(t, f, p);
    FoundConcat(t, op, v, pre, ChainKeys(t, p));
    forall k | k in pre ensures !Satisfies(op, k.attr, v) || Overlooked(t, op, v, k) {
      assert CmpKey(k, Probe(v)) < 0;
    }
    FoundNone(t, op, v, pre);
    ChainIsComplete(t, p);
    forall k | k in ChainKeys(t, p) ensures !Overlooked(t, op, v, k) {
      NotOverlooked(t, op, v, p, k);
    }
    FoundIsPick(t, op, v, ChainKeys(t, p));
    assert KeysFrom(t, p, 0) == ChainKeys(t, p);
  }

  lemma NotOverlooked(t: Tree, op: CompOp, v: int, p: int, k: Key)
    requires WF(t) && p in t.pages && t.pages[p].Leaf? && p in t.info && Within(t.info[p], Rank(Probe(v)))
    requires AtLeast(t.info[p].lo, Rank(k))
    ensures !Overlooked(t, op, v, k)
  {
    if Overlooked(t, op, v, k) {
      var q :| q in t.pages && t.pages[q].Leaf? && q in t.info
        && Within(t.info[q], Rank(Probe(v))) && !AtLeast(t.info[q].lo, Rank(k));
      assert PageShape(t, p, 0, 0) && PageShape(t, q, 0, 0);
      LevelDisjoint(t, 0, 0, p, q, Rank(Probe(v)));
    }
  }

  lemma StartAtFirst(t: Tree, op: CompOp, v: int)
    requires WF(t) && op != EQUAL_TO && op != GREAT_EQUAL
    ensures IsPosition(t, FirstLeaf(t), 0)
    ensures Pick(op, v, KeysFrom(t, FirstLeaf(t), 0)) == Found(t, op, v, AllKeys(t))
  {
    assert KeysFrom(t, FirstLeaf(t), 0) == AllKeys(t);
    FoundIsPick(t, op, v, AllKeys(t));
  }

  /** A scan yields exactly the entries asked for, once each and in key order, if and only if
      no entry is overlooked. */
  lemma ScanIsExact(t: Tree, op: CompOp, v: int)
    requires WF(t)
    ensures Sorted(AllKeys(t)) && forall k :: k in AllKeys(t) <==> Has(t, k)
    ensures Found(t, op, v, AllKeys(t)) == Pick(op, v, AllKeys(t)) <==> forall k :: Has(t, k) ==> !Overlooked(t, op, v, k)
  {
    AllKeysAreAll(t);
    FoundIsPick(t, op, v, AllKeys(t));
  }

  /** Every RID is at least (-1, -1), as those of real records are. */
  ghost predicate ProperRids(t: Tree) {
    forall k :: Has(t, k) ==> CmpRid(k.rid, RID(-1, -1)) >= 0
  }

  lemma ProperScanIsExact(t: Tree, op: CompOp, v: int)
    requires WF(t) && ProperRids(t)
    ensures Found(t, op, v, AllKeys(t)) == Pick(op, v, AllKeys(t))
  {
    ScanIsExact(t, op, v);
    forall k | Has(t, k) ensures !Overlooked(t, op, v, k) {
      if Overlooked(t, op, v, k) { OnlySmallRidsAreOverlooked(t, op, v, k); }
    }
  }

  // ---- looking for one value -------------------------------------------------------------

  /** Behind an entry with a larger attribute there is none with the value sought. */
  lemma NoneEqual(t: Tree, p: int, i: int, v: int)
    requires WF(t) && IsPosition(t, p, i) && i < |t.pages[p].keys| && t.pages[p].keys[i].attr > v
    ensures Pick(EQUAL_TO, v, KeysFrom(t, p, i)) == []
  {
    assert PageShape(t, p, 0, 0);
    ChainIsComplete(t, p);
    ChainStarts(t, p);
    var all, rest := ChainKeys(t, p), KeysFrom(t, p, i);
    forall k | k in rest ensures k.attr != v {
      var j :| 0 <= j < |rest| && rest[j] == k;
      assert rest[j] == all[i + j] && all[i] == t.pages[p].keys[i];
      if j > 0 { assert Rank(all[i]) < Rank(all[i + j]) && CmpKey(all[i], all[i + j]) < 0; }
    }
    PickNone(EQUAL_TO, v, rest);
  }

  /** Something is found for a value if and only if an entry has it and is not overlooked. */
  lemma {:induction false} FoundSome(t: Tree, v: int, keys: seq<Key>)
    ensures Found(t, EQUAL_TO, v, keys) != [] <==> exists k :: k in keys && k.attr == v && !Overlooked(t, EQUAL_TO, v, k)
  {
    if keys != [] {
      FoundSome(t, v, keys[1..]);
      assert forall k :: k in keys <==> k == keys[0] || k in keys[1..];
    }
  }
}
