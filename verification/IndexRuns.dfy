/** Whole runs of an index, from the empty file on, against a set of keys. */
module IndexRuns {
  import opened Keys
  import opened BTree
  import opened BTreeInsert
  import opened BTreeShrink
  import opened BTreeScan
  import opened Comparisons
  import opened IndexHandler
  import opened IndexScanner
  import opened TableIndex

  datatype Op = Add(key: Key) | Drop(key: Key)

  /** The entries after a run. */
  ghost function Stored(ops: seq<Op>): set<Key> {
    if ops == [] then {}
    else
      var last, before := ops[|ops| - 1], Stored(ops[..|ops| - 1]);
      if last.Add? then before + {last.key} else before - {last.key}
  }

  /** What operation `i` of a run reports. */
  ghost function Report(ops: seq<Op>, i: nat): RC
    requires i < |ops|
  {
    var present := ops[i].key in Stored(ops[..i]);
    if ops[i].Add? then (if present then RECORD_DUPLICATE_KEY else SUCCESS)
    else if present then SUCCESS
    else RECORD_INVALID_KEY
  }

  // ---- one operation -----------------------------------------------------------------------------

  /** What an operation makes of a well-formed tree, and reports. */
  ghost predicate Outcome(t: Tree, op: Op, repaired: bool, rc: RC, t': Tree)
    requires WF(t)
  {
    if op.Add? then
      && (WF(t') <==> !(Has(t, op.key) && InFullLeaf(t, op.key)))
      && (!Has(t, op.key) ==> rc == SUCCESS && forall k :: Has(t', k) <==> Has(t, k) || k == op.key)
      && (Has(t, op.key) && !InFullLeaf(t, op.key) ==> rc == RECORD_DUPLICATE_KEY && t' == t)
    else
      && (!Has(t, op.key) ==> rc == RECORD_INVALID_KEY && t' == t)
      && (Has(t, op.key) ==>
            && rc == SUCCESS && (WF(t') <==> repaired || !FaultyDelete(t, op.key))
            && (WF(t') ==> forall k :: Has(t', k) <==> Has(t, k) && k != op.key))
  }

  /** The operation meets one of the faults of the code: an entry is added that is present in a full leaf,
      or a deletion takes over a key of a neighbour and leaves a stale slot. */
  ghost predicate Harmful(t: Tree, op: Op, repaired: bool)
    requires WF(t)
  {
    Has(t, op.key) && if op.Add? then InFullLeaf(t, op.key) else !repaired && FaultyDelete(t, op.key)
  }

  method Apply(h: BplusTreeHandler, op: Op) returns (rc: RC)
    requires h.Valid() && WF(h.tree)
    modifies h, h.repr
    ensures h.Valid() && fresh(h.repr - old(h.repr))
    ensures Outcome(old(h.tree), op, h.repaired, rc, h.tree)
  {
    hide BplusTreeHandler.Valid, WF, Has, InFullLeaf, FaultyDelete;
    assert op.key == Key(op.key.attr, op.key.rid);
    if op.Add? {
      rc := h.InsertEntry(op.key.attr, op.key.rid);
    } else {
      rc := h.DeleteEntry(op.key.attr, op.key.rid);
    }
  }

  // ---- runs ----------------------------------------------------------------------------------------

  /** The trees and the reports of a run on a new index; what becomes of a tree that is broken is left
      open. */
  ghost predicate IsRun(repaired: bool, ops: seq<Op>, trees: seq<Tree>, rcs: seq<RC>) {
    && |trees| == |ops| + 1 && |rcs| == |ops| && WF(trees[0]) && (forall k :: !Has(trees[0], k))
    && forall i :: 0 <= i < |ops| && WF(trees[i]) ==> Outcome(trees[i], ops[i], repaired, rcs[i], trees[i + 1])
  }

  lemma HarmBreaks(t: Tree, op: Op, repaired: bool, rc: RC, t': Tree)
    requires WF(t) && Outcome(t, op, repaired, rc, t')
    ensures WF(t') <==> !Harmful(t, op, repaired)
  {
    hide WF, Has, InFullLeaf, FaultyDelete;
  }

  /** A run, as shipped or with the intended moves, keeps the tree well formed throughout, if and only if
      no operation meets a fault in the tree of its moment. */
  lemma RunStaysWellFormed(repaired: bool, ops: seq<Op>, trees: seq<Tree>, rcs: seq<RC>)
    requires IsRun(repaired, ops, trees, rcs)
    ensures (forall i :: 0 <= i < |trees| ==> WF(trees[i]))
       <==> forall i :: 0 <= i < |ops| && WF(trees[i]) ==> !Harmful(trees[i], ops[i], repaired)
  {
    hide WF, Harmful, Outcome, Has;
    if forall i :: 0 <= i < |trees| ==> WF(trees[i]) {
      forall i | 0 <= i < |ops| ensures !Harmful(trees[i], ops[i], repaired) {
        assert WF(trees[i]) && WF(trees[i + 1]);
        HarmBreaks(trees[i], ops[i], repaired, rcs[i], trees[i + 1]);
      }
    }
    if forall i :: 0 <= i < |ops| && WF(trees[i]) ==> !Harmful(trees[i], ops[i], repaired) {
      forall i | 0 <= i < |trees| ensures WF(trees[i]) {
        HarmlessSoFar(repaired, ops, trees, rcs, i);
      }
    }
  }

  lemma {:induction false} HarmlessSoFar(repaired: bool, ops: seq<Op>, trees: seq<Tree>, rcs: seq<RC>, i: nat)
    requires IsRun(repaired, ops, trees, rcs) && i < |trees|
    requires forall j :: 0 <= j < i && WF(trees[j]) ==> !Harmful(trees[j], ops[j], repaired)
    ensures WF(trees[i])
  {
    hide WF, Harmful, Outcome, Has;
    if i > 0 {
      HarmlessSoFar(repaired, ops, trees, rcs, i - 1);
      HarmBreaks(trees[i - 1], ops[i - 1], repaired, rcs[i - 1], trees[i]);
    }
  }

  /** As long as it does, the tree holds exactly what it should, and every operation reports what it
      should. */
  lemma {:induction false} RunHoldsEntries(repaired: bool, ops: seq<Op>, trees: seq<Tree>, rcs: seq<RC>, i: nat)
    requires IsRun(repaired, ops, trees, rcs) && i < |trees| && forall j :: 0 <= j <= i ==> WF(trees[j])
    ensures forall k :: Has(trees[i], k) <==> k in Stored(ops[..i])
    ensures forall j :: 0 <= j < i ==> rcs[j] == Report(ops, j)
  {
    hide WF, Has, InFullLeaf, FaultyDelete;
    if i > 0 {
      RunHoldsEntries(repaired, ops, trees, rcs, i - 1);
      assert ops[..i][..i - 1] == ops[..i - 1];
      assert WF(trees[i - 1]) && WF(trees[i]);
      OneMore(trees[i - 1], ops[i - 1], repaired, rcs[i - 1], trees[i], Stored(ops[..i - 1]));
    }
  }

  lemma OneMore(t: Tree, op: Op, repaired: bool, rc: RC, t': Tree, before: set<Key>)
    requires WF(t) && Outcome(t, op, repaired, rc, t') && WF(t') && forall k :: Has(t, k) <==> k in before
    ensures forall k :: Has(t', k) <==> k in if op.Add? then before + {op.key} else before - {op.key}
    ensures rc == if op.Add? then (if op.key in before then RECORD_DUPLICATE_KEY else SUCCESS)
                  else if op.key in before then SUCCESS
                  else RECORD_INVALID_KEY
  {
    hide WF, Has, InFullLeaf, FaultyDelete;
  }

  /** A scan at any moment of such a run yields, in key order, the RIDs of the entries that satisfy the
      comparison, if and only if no entry is overlooked; and none is if the RIDs are those of records. */
  lemma ScanOfRun(repaired: bool, ops: seq<Op>, trees: seq<Tree>, rcs: seq<RC>, i: nat, op: CompOp, v: int)
    requires IsRun(repaired, ops, trees, rcs) && i < |trees| && forall j :: 0 <= j <= i ==> WF(trees[j])
    ensures Sorted(AllKeys(trees[i])) && forall k :: k in AllKeys(trees[i]) <==> k in Stored(ops[..i])
    ensures Found(trees[i], op, v, AllKeys(trees[i])) == Pick(op, v, AllKeys(trees[i]))
       <==> forall k :: k in Stored(ops[..i]) ==> !Overlooked(trees[i], op, v, k)
    ensures (forall k :: k in Stored(ops[..i]) ==> CmpRid(k.rid, RID(-1, -1)) >= 0) ==>
      Found(trees[i], op, v, AllKeys(trees[i])) == Pick(op, v, AllKeys(trees[i]))
  {
    hide WF, Has, Outcome, Overlooked, Found, Pick, AllKeys, Sorted;
    RunHoldsEntries(repaired, ops, trees, rcs, i);
    assert WF(trees[i]);
    AllKeysAreAll(trees[i]);
    ScanIsExact(trees[i], op, v);
    if forall k :: k in Stored(ops[..i]) ==> CmpRid(k.rid, RID(-1, -1)) >= 0 {
      ProperScanIsExact(trees[i], op, v);
    }
  }

  // ---- runs of a unique index ------------------------------------------------------------------------

  /** The entries after a run in which a value that is present is refused. */
  ghost function UniqueStored(ops: seq<Op>): set<Key> {
    if ops == [] then {}
    else
      var last, before := ops[|ops| - 1], UniqueStored(ops[..|ops| - 1]);
      if last.Drop? then before - {last.key}
      else if Taken(before, last.key.attr) then before
      else before + {last.key}
  }

  ghost predicate Taken(entries: set<Key>, v: int) {
    exists k :: k in entries && k.attr == v
  }

  /** What a unique index makes of an operation. */
  ghost predicate UniqueOutcome(t: Tree, op: Op, repaired: bool, rc: RC, t': Tree)
    requires WF(t)
  {
    if op.Add? && Present(t, op.key.attr) then rc == RECORD_DUPLICATE_KEY && t' == t
    else !(op.Add? && Has(t, op.key)) && Outcome(t, op, repaired, rc, t')
  }

  method ApplyUnique(x: BplusTreeIndex, op: Op) returns (rc: RC)
    requires x.Valid() && x.unique && CmpRid(op.key.rid, RID(-1, -1)) >= 0
    modifies x.indexHandler, x.indexHandler.repr
    ensures UniqueOutcome(old(x.indexHandler.tree), op, x.indexHandler.repaired, rc, x.indexHandler.tree)
    ensures x.indexHandler.Valid() && fresh(x.indexHandler.repr - old(x.indexHandler.repr))
    ensures WF(x.indexHandler.tree) ==> x.Valid()
  {
    hide BplusTreeHandler.Valid, WF, Has, InFullLeaf, FaultyDelete, ProperRids, OneRidPerValue;
    assert op.key == Key(op.key.attr, op.key.rid);
    HasIsPresent(x.indexHandler.tree, op.key);
    if op.Add? {
      rc := x.InsertEntry(op.key.attr, op.key.rid);
    } else {
      rc := x.DeleteEntry(op.key.attr, op.key.rid);
    }
  }

  lemma HasIsPresent(t: Tree, k: Key)
    ensures Has(t, k) ==> Present(t, k.attr)
  {
  }

  ghost predicate IsUniqueRun(repaired: bool, ops: seq<Op>, trees: seq<Tree>, rcs: seq<RC>) {
    && |trees| == |ops| + 1 && |rcs| == |ops| && WF(trees[0]) && (forall k :: !Has(trees[0], k))
    && forall i :: 0 <= i < |ops| && WF(trees[i]) ==> UniqueOutcome(trees[i], ops[i], repaired, rcs[i], trees[i + 1])
  }

  /** A run of a unique index breaks the tree, if and only if a deletion meets a fault. */
  lemma {:induction false} UniqueRunStaysWellFormed(repaired: bool, ops: seq<Op>, trees: seq<Tree>, rcs: seq<RC>, i: nat)
    requires IsUniqueRun(repaired, ops, trees, rcs) && i < |trees|
    ensures (forall j :: 0 <= j <= i ==> WF(trees[j]))
       <==> forall j :: 0 <= j < i && WF(trees[j]) && ops[j].Drop? ==> !Harmful(trees[j], ops[j], repaired)
  {
    hide WF, Has, InFullLeaf, FaultyDelete, Outcome;
    if i > 0 {
      UniqueRunStaysWellFormed(repaired, ops, trees, rcs, i - 1);
      if WF(trees[i - 1]) {
        UniqueStep(trees[i - 1], ops[i - 1], repaired, rcs[i - 1], trees[i]);
      }
    }
  }

  lemma UniqueStep(t: Tree, op: Op, repaired: bool, rc: RC, t': Tree)
    requires WF(t) && UniqueOutcome(t, op, repaired, rc, t')
    ensures WF(t') <==> !(op.Drop? && Harmful(t, op, repaired))
  {
    hide WF, Has, InFullLeaf, FaultyDelete;
  }

  /** In such a run no value ever has two RIDs, an insertion is refused if and only if its value is
      present, and the entries are what they should be. */
  lemma {:induction false} UniqueRunHoldsEntries(repaired: bool, ops: seq<Op>, trees: seq<Tree>, rcs: seq<RC>, i: nat)
    requires IsUniqueRun(repaired, ops, trees, rcs) && i < |trees| && forall j :: 0 <= j <= i ==> WF(trees[j])
    ensures OneRidPerValue(trees[i]) && forall k :: Has(trees[i], k) <==> k in UniqueStored(ops[..i])
    ensures forall j :: 0 <= j < i && ops[j].Add? ==>
      (rcs[j] == RECORD_DUPLICATE_KEY <==> Taken(UniqueStored(ops[..j]), ops[j].key.attr))
  {
    hide WF, Has, InFullLeaf, FaultyDelete, OneRidPerValue;
    if i > 0 {
      UniqueRunHoldsEntries(repaired, ops, trees, rcs, i - 1);
      assert ops[..i][..i - 1] == ops[..i - 1];
      assert WF(trees[i - 1]) && WF(trees[i]);
      UniqueOneMore(trees[i - 1], ops[i - 1], repaired, rcs[i - 1], trees[i], UniqueStored(ops[..i - 1]));
    } else {
      NoEntries(trees[0]);
    }
  }

  lemma NoEntries(t: Tree)
    requires forall k :: !Has(t, k)
    ensures OneRidPerValue(t)
  {
  }

  lemma UniqueOneMore(t: Tree, op: Op, repaired: bool, rc: RC, t': Tree, before: set<Key>)
    requires WF(t) && UniqueOutcome(t, op, repaired, rc, t') && WF(t') && OneRidPerValue(t) && forall k :: Has(t, k) <==> k in before
    ensures OneRidPerValue(t')
    ensures forall k :: Has(t', k) <==>
      k in if op.Drop? then before - {op.key} else if Taken(before, op.key.attr) then before else before + {op.key}
    ensures op.Add? ==> (rc == RECORD_DUPLICATE_KEY <==> Taken(before, op.key.attr))
  {
    hide WF, Has, InFullLeaf, FaultyDelete;
    assert Present(t, op.key.attr) <==> Taken(before, op.key.attr);
    HasIsPresent(t, op.key);
  }

  // ---- programs ----------------------------------------------------------------------------------------

  /** No entry is added while it is present. */
  ghost predicate AddsAreNew(ops: seq<Op>) {
    forall i :: 0 <= i < |ops| && ops[i].Add? ==> ops[i].key !in Stored(ops[..i])
  }

  /** A program that makes such a run: of any operations with the intended moves, and as shipped of
      insertions. */
  method Replay(order: int, repaired: bool, ops: seq<Op>) returns (h: BplusTreeHandler, rcs: seq<RC>)
    requires order >= 3 && AddsAreNew(ops)
    requires repaired || forall i :: 0 <= i < |ops| ==> ops[i].Add?
    ensures fresh(h) && fresh(h.repr) && h.Valid() && WF(h.tree)
    ensures forall k :: Has(h.tree, k) <==> k in Stored(ops)
    ensures |rcs| == |ops| && forall i :: 0 <= i < |ops| ==> rcs[i] == Report(ops, i)
  {
    hide BplusTreeHandler.Valid, WF, Has, InFullLeaf, FaultyDelete;
    h := new BplusTreeHandler.Create(order, repaired);
    rcs := [];
    var i := 0;
    while i < |ops|
      invariant 0 <= i <= |ops| && |rcs| == i
      invariant fresh(h) && fresh(h.repr) && h.Valid() && WF(h.tree) && h.repaired == repaired
      invariant forall k :: Has(h.tree, k) <==> k in Stored(ops[..i])
      invariant forall j :: 0 <= j < i ==> rcs[j] == Report(ops, j)
    {
      assert ops[..i + 1][..i] == ops[..i];
      ghost var t := h.tree;
      var rc := Apply(h, ops[i]);
      assert WF(h.tree);
      OneMore(t, ops[i], repaired, rc, h.tree, Stored(ops[..i]));
      rcs := rcs + [rc];
      i := i + 1;
    }
    assert ops[..i] == ops;
  }

  /** A scan after any such run yields, in key order and once each, the RIDs of the entries that satisfy
      the comparison. */
  method ReplayAndScan(order: int, repaired: bool, ops: seq<Op>, op: CompOp, v: int) returns (rids: seq<RID>)
    requires order >= 3 && AddsAreNew(ops)
    requires repaired || forall i :: 0 <= i < |ops| ==> ops[i].Add?
    requires forall k :: k in Stored(ops) ==> CmpRid(k.rid, RID(-1, -1)) >= 0
    ensures exists keys :: Sorted(keys) && (forall k :: k in keys <==> k in Stored(ops)) && rids == Pick(op, v, keys)
  {
    hide BplusTreeHandler.Valid, WF, Has;
    var h, rcs := Replay(order, repaired, ops);
    var scanner := new BplusTreeScanner(h);
    rids := scanner.ScanAll(op, v);
    AllKeysAreAll(h.tree);
    ProperScanIsExact(h.tree, op, v);
    assert Sorted(AllKeys(h.tree));
  }
}
