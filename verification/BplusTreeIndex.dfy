/** BplusTreeIndex: an index of a table, possibly unique. */
module TableIndex {
  import opened Keys
  import opened BTree
  import opened BTreeInsert
  import opened BTreeScan
  import opened BTreeShrink
  import opened Comparisons
  import opened IndexHandler
  import opened IndexScanner

  /** No two entries have the same attribute value. */
  ghost predicate OneRidPerValue(t: Tree) {
    forall k, k' :: Has(t, k) && Has(t, k') && k.attr == k'.attr ==> k == k'
  }

  ghost predicate Present(t: Tree, v: int) {
    exists k :: Has(t, k) && k.attr == v
  }

  lemma FoundIsPresent(t: Tree, v: int)
    requires WF(t) && ProperRids(t)
    ensures Found(t, EQUAL_TO, v, AllKeys(t)) != [] <==> Present(t, v)
  {
    FoundSome(t, v, AllKeys(t));
    AllKeysAreAll(t);
    forall k | Has(t, k) ensures !Overlooked(t, EQUAL_TO, v, k) {
      if Overlooked(t, EQUAL_TO, v, k) { OnlySmallRidsAreOverlooked(t, EQUAL_TO, v, k); }
    }
  }

  class BplusTreeIndex {
    const indexHandler: BplusTreeHandler
    const unique: bool

    /** What every run of insertions and deletions keeps. */
    ghost predicate Valid()
      reads indexHandler, indexHandler.repr
    {
      && indexHandler.Valid() && WF(indexHandler.tree)
      && ProperRids(indexHandler.tree)
      && (unique ==> OneRidPerValue(indexHandler.tree))
    }

    constructor (order: int, unique: bool, repaired: bool)
      requires order >= 3
      ensures Valid() && this.unique == unique && fresh(indexHandler) && fresh(indexHandler.repr)
      ensures indexHandler.repaired == repaired && forall k :: !Has(indexHandler.tree, k)
    {
      indexHandler := new BplusTreeHandler.Create(order, repaired);
      this.unique := unique;
    }

    method CreateScanner(op: CompOp, v: int) returns (scanner: BplusTreeScanner)
      requires indexHandler.Valid() && WF(indexHandler.tree)
      ensures fresh(scanner) && scanner.handler == indexHandler && scanner.isOpened && scanner.Valid()
      ensures scanner.compOp == op && scanner.value == v
      ensures scanner.Remaining() == Found(indexHandler.tree, op, v, AllKeys(indexHandler.tree))
      ensures op == EQUAL_TO ==> scanner.OnTarget()
    {
      scanner := new BplusTreeScanner(indexHandler);
      var rc := scanner.Open(op, v);
    }

    /** Adds an entry.  A unique index refuses exactly the values it already has. */
    method InsertEntry(attr: int, rid: RecordId) returns (rc: RC)
      requires Valid()
      modifies indexHandler, indexHandler.repr
      ensures indexHandler.Valid() && fresh(indexHandler.repr - old(indexHandler.repr))
      ensures unique && old(Present(indexHandler.tree, attr)) ==> Valid()
      ensures !(unique && old(Present(indexHandler.tree, attr))) ==>
        (Valid() <==>
          && !old(Has(indexHandler.tree, Key(attr, rid)) && InFullLeaf(indexHandler.tree, Key(attr, rid)))
          && CmpRid(rid, RID(-1, -1)) >= 0)
      ensures unique && old(Present(indexHandler.tree, attr)) ==>
        rc == RECORD_DUPLICATE_KEY && indexHandler.tree == old(indexHandler.tree)
      ensures !(unique && old(Present(indexHandler.tree, attr))) && !old(Has(indexHandler.tree, Key(attr, rid))) ==>
        && rc == SUCCESS
        && forall k :: Has(indexHandler.tree, k) <==> old(Has(indexHandler.tree, k)) || k == Key(attr, rid)
      ensures !unique && old(Has(indexHandler.tree, Key(attr, rid))) ==>
        rc == if old(InFullLeaf(indexHandler.tree, Key(attr, rid))) then SUCCESS else RECORD_DUPLICATE_KEY
      ensures unique ==> (rc == RECORD_DUPLICATE_KEY <==> old(Present(indexHandler.tree, attr)))
    {
      hide WF, Has, ProperRids, Found, AllKeys, InFullLeaf, BplusTreeHandler.Valid, BplusTreeScanner.Valid,
           BplusTreeScanner.Remaining, BplusTreeScanner.OnTarget, OneRidPerValue;
      ghost var t, key := indexHandler.tree, Key(attr, rid);
      if unique {
        FoundIsPresent(t, attr);
        var scanner := CreateScanner(EQUAL_TO, attr);
        var rc0, unusedRid := scanner.NextEntry();
        if rc0 == SUCCESS {
          return RECORD_DUPLICATE_KEY;
        }
      }
      rc := indexHandler.InsertEntry(attr, rid);
      AfterInsert(t, key, indexHandler.tree, unique);
    }

    /** Removes an entry. */
    method DeleteEntry(attr: int, rid: RecordId) returns (rc: RC)
      requires Valid()
      modifies indexHandler, indexHandler.repr
      ensures indexHandler.Valid() && indexHandler.repr == old(indexHandler.repr)
      ensures !old(Has(indexHandler.tree, Key(attr, rid))) ==>
        rc == RECORD_INVALID_KEY && indexHandler.tree == old(indexHandler.tree)
      ensures old(Has(indexHandler.tree, Key(attr, rid))) ==>
        && rc == SUCCESS
        && (Valid() <==> WF(indexHandler.tree))
        && (Valid() <==> indexHandler.repaired || !FaultyDelete(old(indexHandler.tree), Key(attr, rid)))
        && (Valid() ==> forall k :: Has(indexHandler.tree, k) <==> old(Has(indexHandler.tree, k)) && k != Key(attr, rid))
    {
      rc := indexHandler.DeleteEntry(attr, rid);
    }
  }

  lemma AfterInsert(t: Tree, key: Key, t': Tree, unique: bool)
    requires ProperRids(t) && (unique ==> OneRidPerValue(t) && !Present(t, key.attr))
    ensures unique ==> !Has(t, key)
    ensures Has(t, key) ==> CmpRid(key.rid, RID(-1, -1)) >= 0
    ensures (forall k :: Has(t', k) <==> Has(t, k) || k == key) ==>
      (ProperRids(t') <==> CmpRid(key.rid, RID(-1, -1)) >= 0) && (unique ==> OneRidPerValue(t'))
  {
  }
}
