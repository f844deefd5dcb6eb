/** BplusTreeScanner: a cursor over the leaf chain.  The index does not change while it is
    being scanned. */
module IndexScanner {
  import opened Keys
  import opened BTree
  import opened BTreeScan
  import opened Comparisons
  import opened IndexHandler

  lemma FirstIsYielded(rids: seq<RID>, rid: RID, before: seq<RID>, found: seq<RID>)
    requires |before| > 0 && rid == before[0] && rids + before == found
    ensures (rids + [rid]) + before[1..] == found
  {
  }

  class BplusTreeScanner {
    const handler: BplusTreeHandler
    var isOpened: bool
    var compOp: CompOp
    var value: int
    /** How many pages may be pinned at a time, and how many are. */
    var numFixedPages: int
    var pinnedPageCount: int
    var pageHandle: int
    var nextIndexOfPageHandle: int
    var indexInNode: int
    var nextPageNum: int

    constructor (handler: BplusTreeHandler)
      ensures this.handler == handler && !isOpened
    {
      this.handler, isOpened := handler, false;
      numFixedPages, pinnedPageCount, nextIndexOfPageHandle, indexInNode, nextPageNum := -1, 0, -1, -1, -1;
      compOp, value, pageHandle := NO_OP, 0, 0;
    }

    ghost predicate Apart()
      reads handler
    {
      this !in handler.repr
    }

    /** A page is being read. */
    predicate Reading()
      reads this
    {
      nextIndexOfPageHandle < pinnedPageCount
    }

    ghost predicate Valid()
      reads this, handler, handler.repr
    {
      && Apart() && handler.Valid() && WF(handler.tree) && isOpened
      && numFixedPages == 1 && 0 <= nextIndexOfPageHandle <= pinnedPageCount <= 1
      && (nextPageNum <= 0 || IsPosition(handler.tree, nextPageNum, 0))
      && (Reading() ==>
            && IsPosition(handler.tree, pageHandle, indexInNode)
            && nextPageNum == handler.tree.pages[pageHandle].next)
      && (!Reading() && nextPageNum > 0 ==> IsPosition(handler.tree, nextPageNum, indexInNode))
    }

    /** The RIDs still to come. */
    ghost function Remaining(): seq<RID>
      requires Valid()
      reads this, handler, handler.repr
    {
      if Reading() then Pick(compOp, value, KeysFrom(handler.tree, pageHandle, indexInNode))
      else if nextPageNum > 0 then Pick(compOp, value, KeysFrom(handler.tree, nextPageNum, indexInNode))
      else []
    }

    /** The leaves still to be read. */
    ghost function LeavesLeft(): set<int>
      requires Valid()
      reads this, handler, handler.repr
    {
      if nextPageNum > 0 then assert PageShape(handler.tree, nextPageNum, 0, 0); LeavesFrom(handler.tree, nextPageNum)
      else {}
    }

    /** The first key to be read has the value sought, or no key has. */
    ghost predicate OnTarget()
      requires Valid()
      reads this, handler, handler.repr
    {
      && compOp == EQUAL_TO && !Reading()
      && (nextPageNum > 0 ==>
            && indexInNode < |handler.tree.pages[nextPageNum].keys|
            && (handler.tree.pages[nextPageNum].keys[indexInNode].attr == value || Remaining() == []))
    }

    method Open(op: CompOp, v: int) returns (rc: RC)
      requires Apart() && handler.Valid() && WF(handler.tree)
      modifies this
      ensures old(isOpened) ==> rc == RECORD_OPENNED && unchanged(this)
      ensures !old(isOpened) ==>
        && rc == SUCCESS && isOpened && Valid() && compOp == op && value == v
        && Remaining() == Found(handler.tree, op, v, AllKeys(handler.tree))
        && (op == EQUAL_TO ==> OnTarget())
    {
      hide BplusTreeHandler.Valid, WF, Found, AllKeys, KeysFrom, Pick;
      if isOpened {
        return RECORD_OPENNED;
      }
      compOp, value := op, v;
      rc, nextPageNum, indexInNode := handler.FindFirstIndexSatisfied(op, v);
      if rc == RECORD_EOF {
        nextPageNum, indexInNode := -1, -1;
      }
      numFixedPages := 1;
      nextIndexOfPageHandle := 0;
      pinnedPageCount := 0;
      isOpened := true;
      rc := SUCCESS;
    }

    method Close() returns (rc: RC)
      modifies this`isOpened
      ensures rc == if old(isOpened) then SUCCESS else RECORD_SCANCLOSED
      ensures !isOpened
    {
      if !isOpened {
        return RECORD_SCANCLOSED;
      }
      isOpened := false;
      rc := SUCCESS;
    }

    /** Yields the next RID; or finds that the pages at hand hold no more, which need not be
        the end; or finds the end. */
    method NextEntry() returns (rc: RC, rid: RID)
      requires isOpened ==> Valid()
      modifies this
      ensures isOpened == old(isOpened) && compOp == old(compOp) && value == old(value)
      ensures !isOpened ==> rc == RECORD_CLOSED
      ensures isOpened ==> Valid() && rc in {SUCCESS, RECORD_NO_MORE_IDX_IN_MEM, RECORD_EOF}
      ensures isOpened && rc == SUCCESS ==>
        && |old(Remaining())| > 0 && rid == old(Remaining())[0] && Remaining() == old(Remaining())[1..]
      ensures isOpened && rc == RECORD_NO_MORE_IDX_IN_MEM ==>
        Remaining() == old(Remaining()) && LeavesLeft() < old(LeavesLeft())
      ensures isOpened && rc == RECORD_EOF ==> old(Remaining()) == [] == Remaining()
      ensures isOpened ==> LeavesLeft() <= old(LeavesLeft())
      ensures isOpened && old(OnTarget()) ==> (rc == SUCCESS <==> old(Remaining()) != [])
    {
      hide BplusTreeHandler.Valid, WF, KeysFrom, Pick, LeavesLeft;
      if !isOpened {
        return RECORD_CLOSED, RID(0, 0);
      }
      rc, rid := GetNextIdxInMemory();
      if rc == RECORD_NO_MORE_IDX_IN_MEM {
        rc := FindIdxPages();
        if rc == SUCCESS {
          rc, rid := GetNextIdxInMemory();
        }
      }
    }

    /** The page to be read next is pinned. */
    method FindIdxPages() returns (rc: RC)
      requires Valid() && !Reading()
      modifies this
      ensures Valid() && compOp == old(compOp) && value == old(value) && Remaining() == old(Remaining())
      ensures rc == SUCCESS ==> Reading() && LeavesLeft() < old(LeavesLeft())
      ensures rc == SUCCESS ==> pageHandle == old(nextPageNum) > 0 && indexInNode == old(indexInNode)
      ensures rc != SUCCESS ==> rc == RECORD_EOF && Remaining() == [] && LeavesLeft() == old(LeavesLeft())
    {
      hide BplusTreeHandler.Valid, WF, KeysFrom, Shape, Ordered, LeavesFrom, Pick;
      nextIndexOfPageHandle := 0;
      pinnedPageCount := 0;
      if nextPageNum > 0 {
        pageHandle := nextPageNum;
        NextPosition(handler.tree, pageHandle, compOp, value);
        pinnedPageCount := 1;
        nextPageNum := handler.NextOf(pageHandle);
      }
      rc := if pinnedPageCount > 0 then SUCCESS else RECORD_EOF;
    }

    /** Yields the next RID of the pinned page. */
    method GetNextIdxInMemory() returns (rc: RC, rid: RID)
      requires Valid()
      modifies this`indexInNode, this`nextIndexOfPageHandle
      ensures Valid() && LeavesLeft() == old(LeavesLeft())
      ensures rc in {SUCCESS, RECORD_NO_MORE_IDX_IN_MEM}
      ensures rc == SUCCESS ==>
        && |old(Remaining())| > 0 && rid == old(Remaining())[0] && Remaining() == old(Remaining())[1..]
      ensures rc == RECORD_NO_MORE_IDX_IN_MEM ==> !Reading() && Remaining() == old(Remaining())
      ensures !old(Reading()) ==> rc == RECORD_NO_MORE_IDX_IN_MEM && unchanged(this)
      ensures rc == RECORD_NO_MORE_IDX_IN_MEM && old(Reading()) ==>
        var keys := handler.tree.pages[pageHandle].keys;
        old(indexInNode) < |keys| ==> !Satisfies(compOp, keys[old(indexInNode)].attr, value)
    {
      hide Pick, KeysFrom, WF, LeavesFrom, BplusTreeHandler.Valid;
      rid := RID(0, 0);
      if nextIndexOfPageHandle >= pinnedPageCount {
        return RECORD_NO_MORE_IDX_IN_MEM, rid;
      }
      ghost var t, p, start := handler.tree, pageHandle, indexInNode;
      var keyNum := handler.ReadSize(pageHandle);
      while indexInNode < keyNum
        invariant IsPosition(t, p, indexInNode) && start <= indexInNode
        invariant start < indexInNode ==> !Satisfies(compOp, t.pages[p].keys[start].attr, value)
        invariant Pick(compOp, value, KeysFrom(t, p, start)) == Pick(compOp, value, KeysFrom(t, p, indexInNode))
        modifies this`indexInNode
      {
        StepKey(t, p, indexInNode, compOp, value);
        var key, r := handler.ReadEntry(pageHandle, indexInNode);
        if Satisfies(compOp, key.attr, value) {
          indexInNode := indexInNode + 1;
          return SUCCESS, r;
        }
        indexInNode := indexInNode + 1;
      }
      indexInNode := 0;
      nextIndexOfPageHandle := nextIndexOfPageHandle + 1;
      NextPosition(t, p, compOp, value);
      rc := RECORD_NO_MORE_IDX_IN_MEM;
    }

    /** A whole scan: next_entry is called until it reports the end, and called again when it
        merely reports that a page is done. */
    method ScanAll(op: CompOp, v: int) returns (rids: seq<RID>)
      requires Apart() && handler.Valid() && WF(handler.tree) && !isOpened
      modifies this
      ensures rids == Found(handler.tree, op, v, AllKeys(handler.tree))
    {
      hide BplusTreeHandler.Valid, Valid, Remaining, LeavesLeft, Found, AllKeys, WF;
      ghost var found := Found(handler.tree, op, v, AllKeys(handler.tree));
      var rc := Open(op, v);
      rids := [];
      while rc != RECORD_EOF
        invariant isOpened && Valid() && rids + Remaining() == found
        invariant rc == RECORD_EOF ==> Remaining() == []
        decreases rc != RECORD_EOF, LeavesLeft(), |Remaining()|
      {
        ghost var before := Remaining();
        var rid;
        rc, rid := NextEntry();
        if rc == SUCCESS {
          FirstIsYielded(rids, rid, before, found);
          rids := rids + [rid];
        }
      }
    }
  }
}
