/** One page of the index file, and the loops of bplus_tree.cpp that move keys and pointers
    within a page and between pages. */
module IndexPages {
  import opened Keys
  import opened BTree
  import opened BTreeBorrow
  import opened BTreeShrink

  ghost function PageNums(s: seq<RID>): (r: seq<int>)
    ensures |r| == |s|
    ensures forall i :: 0 <= i < |s| ==> r[i] == s[i].pageNum
  {
    seq(|s|, i requires 0 <= i < |s| => s[i].pageNum)
  }

  lemma PageNumsInsert(s: seq<RID>, i: nat, x: RID)
    requires i <= |s|
    ensures PageNums(Insert(s, i, x)) == Insert(PageNums(s), i, x.pageNum)
  {
  }

  lemma PageNumsRemove(s: seq<RID>, i: nat)
    requires i < |s|
    ensures PageNums(Remove(s, i)) == Remove(PageNums(s), i)
  {
  }

  lemma PageNumsSplit(s: seq<RID>, i: nat)
    requires i <= |s|
    ensures PageNums(s[..i]) == PageNums(s)[..i] && PageNums(s[i..]) == PageNums(s)[i..]
  {
  }

  lemma PageNumsConcat(s: seq<RID>, t: seq<RID>)
    ensures PageNums(s + t) == PageNums(s) + PageNums(t)
  {
  }

  lemma RemoveStarts<T>(s: seq<T>, d: nat)
    requires d < |s|
    ensures |Remove(s, d)| == |s| - 1 && (|s| > 1 ==> Remove(s, d)[0] == s[if d == 0 then 1 else 0])
  {
  }

  /** Moves slots `pos` to `n` (exclusive) up by one and puts `x` into the gap. */
  method InsertSlot<T>(a: array<T>, n: int, pos: int, x: T)
    requires 0 <= pos <= n < a.Length
    modifies a
    ensures a[..n + 1] == Insert(old(a[..n]), pos, x)
    ensures a[n + 1..] == old(a[n + 1..])
  {
    ghost var s := a[..];
    var i := n;
    while i > pos
      invariant pos <= i <= n
      invariant forall j :: 0 <= j <= i ==> a[j] == s[j]
      invariant forall j :: i < j <= n ==> a[j] == s[j - 1]
      invariant forall j :: n < j < a.Length ==> a[j] == s[j]
    {
      a[i] := a[i - 1];
      i := i - 1;
    }
    a[pos] := x;
  }

  /** Moves slots `d + 1` to `n` (exclusive) down by one; slot `n - 1` keeps what it had. */
  method DeleteSlot<T>(a: array<T>, n: int, d: int)
    requires 0 <= d < n <= a.Length
    modifies a
    ensures a[..n - 1] == Remove(old(a[..n]), d)
    ensures a[n - 1..] == old(a[n - 1..])
  {
    ghost var s := a[..];
    var i := d;
    while i < n - 1
      invariant d <= i <= n - 1
      invariant forall j :: 0 <= j < d ==> a[j] == s[j]
      invariant forall j :: d <= j < i ==> a[j] == s[j + 1]
      invariant forall j :: i <= j < a.Length ==> a[j] == s[j]
    {
      a[i] := a[i + 1];
      i := i + 1;
    }
  }

  /** Copies `n` slots from one buffer to another. */
  method CopySlots<T>(src: array<T>, from: int, dst: array<T>, to: int, n: int)
    requires src != dst && n >= 0 && 0 <= from <= src.Length - n && 0 <= to <= dst.Length - n
    modifies dst
    ensures dst[..] == old(dst[..to]) + src[from..from + n] + old(dst[to + n..])
  {
    ghost var s := dst[..];
    var i := 0;
    while i < n
      invariant 0 <= i <= n
      invariant forall j :: 0 <= j < to ==> dst[j] == s[j]
      invariant forall j :: to <= j < to + i ==> dst[j] == src[from + j - to]
      invariant forall j :: to + i <= j < dst.Length ==> dst[j] == s[j]
    {
      dst[to + i] := src[from + i];
      i := i + 1;
    }
    assert dst[..] == s[..to] + src[from..from + n] + s[to + n..];
  }

  /** Copies the first `m` slots of `src` behind the first `n` slots of `dst`. */
  method AppendSlots<T>(src: array<T>, m: int, dst: array<T>, n: int)
    requires src != dst && 0 <= m <= src.Length && 0 <= n <= dst.Length - m
    modifies dst
    ensures dst[..n + m] == old(dst[..n]) + src[..m]
    ensures dst[n + m..] == old(dst[n + m..])
  {
    CopySlots(src, 0, dst, n, m);
  }

  /** Copies `n` slots to a temporary buffer, leaving room for `x` at `pos`. */
  method Gather<T>(a: array<T>, n: int, pos: int, x: T, temp: array<T>)
    requires a != temp && 0 <= pos <= n <= a.Length && n < temp.Length
    modifies temp
    ensures temp[..n + 1] == Insert(a[..n], pos, x)
  {
    CopySlots(a, 0, temp, 0, pos);
    CopySlots(a, pos, temp, pos + 1, n - pos);
    temp[pos] := x;
  }

  /** The first `n` slots of `temp` go to one page, and the last `m` to another. */
  method Deal<T>(temp: array<T>, low: array<T>, n: int, high: array<T>, m: int)
    requires temp !in {low, high} && low != high
    requires 0 <= n <= temp.Length && n <= low.Length && 0 <= m <= temp.Length && m <= high.Length
    modifies low, high
    ensures low[..n] == temp[..n] && high[..m] == temp[temp.Length - m..]
  {
    CopySlots(temp, 0, low, 0, n);
    CopySlots(temp, temp.Length - m, high, 0, m);
  }

  /** A full leaf `v` and a new entry, dealt out to two pages; the lower half is followed by
      page `next`. */
  ghost function LowLeaf(v: View, pos: nat, key: Key, rid: RID, next: int): View
    requires v.Leaf? && pos <= |v.keys| == |v.rids|
  {
    var s := (|v.keys| + 1) / 2;
    Leaf(v.parent, Insert(v.keys, pos, key)[..s], Insert(v.rids, pos, rid)[..s], next)
  }

  ghost function HighLeaf(v: View, pos: nat, key: Key, rid: RID): View
    requires v.Leaf? && pos <= |v.keys| == |v.rids|
  {
    var s := (|v.keys| + 1) / 2;
    Leaf(v.parent, Insert(v.keys, pos, key)[s..], Insert(v.rids, pos, rid)[s..], v.next)
  }

  lemma LeafHalvesAre(v: View, pos: nat, key: Key, rid: RID, next: int)
    requires v.Leaf? && pos <= |v.keys| == |v.rids|
    ensures var ks, rs, s := Insert(v.keys, pos, key), Insert(v.rids, pos, rid), (|v.keys| + 1) / 2;
      && LowLeaf(v, pos, key, rid, next) == Leaf(v.parent, ks[..s], rs[..s], next)
      && HighLeaf(v, pos, key, rid) == Leaf(v.parent, ks[s..], rs[s..], v.next)
  {
  }

  /** A full internal page and a new separator and child, dealt out to two pages; the middle
      key is in neither. */
  ghost function LowInner(v: View, pos: nat, key: Key, page: int): View
    requires v.Inner? && pos <= |v.keys| && |v.kids| == |v.keys| + 1
  {
    var s := (|v.keys| + 2) / 2;
    Inner(v.parent, Insert(v.keys, pos, key)[..s - 1], Insert(v.kids, pos + 1, page)[..s])
  }

  ghost function HighInner(v: View, pos: nat, key: Key, page: int): View
    requires v.Inner? && pos <= |v.keys| && |v.kids| == |v.keys| + 1
  {
    var s := (|v.keys| + 2) / 2;
    Inner(v.parent, Insert(v.keys, pos, key)[s..], Insert(v.kids, pos + 1, page)[s..])
  }

  lemma InnerHalvesAre(v: View, pos: nat, key: Key, page: int)
    requires v.Inner? && pos <= |v.keys| && |v.kids| == |v.keys| + 1
    ensures var ks, cs, s := Insert(v.keys, pos, key), Insert(v.kids, pos + 1, page), (|v.keys| + 2) / 2;
      && LowInner(v, pos, key, page) == Inner(v.parent, ks[..s - 1], cs[..s])
      && HighInner(v, pos, key, page) == Inner(v.parent, ks[s..], cs[s..])
  {
  }

  /** A page holds room for `order` keys and `order` RIDs.  A leaf keeps the number of the
      next leaf in its last RID; an internal page keeps its children in the RIDs.  Slots
      that are not in use hold whatever was left there. */
  class IndexNode {
    var isLeaf: bool
    var keyNum: int
    var parent: int
    const keys: array<Key>
    const rids: array<RID>

    ghost predicate Valid()
      reads this
    {
      && keys.Length == rids.Length >= 3
      && keys as object != rids
      && 0 <= keyNum < keys.Length
    }

    ghost function View(): View
      reads this, keys, rids
      requires Valid()
    {
      if isLeaf then
        Leaf(parent, keys[..keyNum], rids[..keyNum], rids[rids.Length - 1].pageNum)
      else
        Inner(parent, keys[..keyNum], PageNums(rids[..keyNum + 1]))
    }

    lemma ViewIs()
      requires Valid()
      ensures View().Leaf? == isLeaf && |View().keys| == keyNum
      ensures if isLeaf then |View().rids| == keyNum else |View().kids| == keyNum + 1
    {
    }

    /** A newly allocated page; its contents are arbitrary. */
    constructor (order: int)
      requires order >= 3
      ensures Valid() && fresh(keys) && fresh(rids) && keys.Length == order
    {
      keys := new Key[order];
      rids := new RID[order];
      keyNum := 0;
    }

    /** The loops of insert_into_leaf. */
    method InsertEntry(pos: int, key: Key, rid: RID)
      requires Valid() && isLeaf && 0 <= pos <= keyNum < keys.Length - 1
      modifies this`keyNum, keys, rids
      ensures Valid()
      ensures View() == Leaf(old(View()).parent, Insert(old(View()).keys, pos, key),
                             Insert(old(View()).rids, pos, rid), old(View()).next)
    {
      InsertSlot(keys, keyNum, pos, key);
      InsertSlot(rids, keyNum, pos, rid);
      assert rids[rids.Length - 1] == rids[keyNum + 1..][rids.Length - 2 - keyNum];
      keyNum := keyNum + 1;
    }

    /** The loop of insert_intern_node. */
    method InsertKid(pos: int, key: Key, page: int)
      requires Valid() && !isLeaf && 0 <= pos <= keyNum < keys.Length - 1
      modifies this`keyNum, keys, rids
      ensures Valid()
      ensures View() == Inner(old(View()).parent, Insert(old(View()).keys, pos, key),
                              Insert(old(View()).kids, pos + 1, page))
    {
      InsertSlot(rids, keyNum + 1, pos + 1, RID(page, -1));
      InsertSlot(keys, keyNum, pos, key);
      keyNum := keyNum + 1;
      PageNumsInsert(old(rids[..keyNum + 1]), pos + 1, RID(page, -1));
    }

    /** The loops of insert_into_leaf_after_split: this full leaf and the new entry are
        gathered in temporary buffers and dealt out to this leaf and to `other`. */
    method SplitLeaf(pos: int, key: Key, rid: RID, other: IndexNode, otherPage: int)
      requires Valid() && isLeaf && keyNum == keys.Length - 1 && 0 <= pos <= keyNum
      requires CanDealTo(other)
      modifies this`keyNum, keys, rids, other, other.keys, other.rids
      ensures Valid() && other.Valid()
      ensures View() == LowLeaf(old(View()), pos, key, rid, otherPage)
      ensures other.View() == HighLeaf(old(View()), pos, key, rid)
    {
      hide Insert, LowLeaf, HighLeaf;
      var order := keys.Length;
      LeafHalvesAre(View(), pos, key, rid, otherPage);
      other.isLeaf, other.parent := true, parent;
      var tempKeys, tempPointers := GatherLeaf(pos, key, rid);
      DealLeaf(tempKeys, tempPointers, order / 2, other);
      LinkLeaf(other, otherPage);
    }

    method GatherLeaf(pos: int, key: Key, rid: RID) returns (tempKeys: array<Key>, tempPointers: array<RID>)
      requires Valid() && isLeaf && keyNum == keys.Length - 1 && 0 <= pos <= keyNum
      ensures fresh(tempKeys) && tempKeys.Length == keys.Length
      ensures fresh(tempPointers) && tempPointers.Length == keys.Length + 1
      ensures tempKeys[..] == Insert(View().keys, pos, key)
      ensures tempPointers[..keys.Length] == Insert(View().rids, pos, rid)
    {
      tempKeys, tempPointers := new Key[keys.Length], new RID[keys.Length + 1];
      Gather(keys, keyNum, pos, key, tempKeys);
      Gather(rids, keyNum, pos, rid, tempPointers);
      assert tempKeys[..] == tempKeys[..keyNum + 1];
    }

    /** The new leaf leads to the successor, and is led to. */
    method LinkLeaf(other: IndexNode, otherPage: int)
      requires Valid() && isLeaf && CanDealTo(other) && other.isLeaf && keyNum < keys.Length && other.keyNum < keys.Length
      modifies rids, other.rids
      ensures Valid() && other.Valid() && old(View()).Leaf? && old(other.View()).Leaf?
      ensures View() == old(View()).(next := otherPage) && other.View() == old(other.View()).(next := old(View()).next)
    {
      var order := keys.Length;
      other.rids[order - 1] := rids[order - 1];
      rids[order - 1] := RID(otherPage, -1);
    }

    ghost predicate CanDealTo(other: IndexNode)
      reads other
    {
      && other.Valid() && other != this
      && other.keys != keys && other.rids != rids && other.keys.Length == keys.Length
    }

    method DealLeaf(tempKeys: array<Key>, tempPointers: array<RID>, split: int, other: IndexNode)
      requires Valid() && isLeaf && CanDealTo(other) && other.isLeaf && 1 <= split < keys.Length
      requires tempKeys.Length == keys.Length && tempPointers.Length == keys.Length + 1
      requires tempKeys !in {keys, other.keys} && tempPointers !in {rids, other.rids}
      modifies this`keyNum, keys, rids, other`keyNum, other.keys, other.rids
      ensures Valid() && other.Valid() && keyNum == split && other.keyNum == keys.Length - split
      ensures keys[..split] == tempKeys[..][..split] && rids[..split] == tempPointers[..keys.Length][..split]
      ensures other.keys[..other.keyNum] == tempKeys[..][split..]
      ensures other.rids[..other.keyNum] == tempPointers[..keys.Length][split..]
      ensures rids[rids.Length - 1] == old(rids[rids.Length - 1])
    {
      var order := keys.Length;
      CopySlots(tempKeys, 0, keys, 0, split);
      CopySlots(tempPointers, 0, rids, 0, split);
      keyNum := split;
      CopySlots(tempKeys, split, other.keys, 0, order - split);
      CopySlots(tempPointers, split, other.rids, 0, order - split);
      other.keyNum := order - split;
    }

    /** The loops of insert_intern_node_after_split: as for a leaf, but the middle key moves up. */
    method SplitInner(pos: int, key: Key, page: int, other: IndexNode) returns (up: Key)
      requires Valid() && !isLeaf && keyNum == keys.Length - 1 && 0 <= pos <= keyNum
      requires CanDealTo(other)
      modifies this`keyNum, keys, rids, other, other.keys, other.rids
      ensures Valid() && other.Valid()
      ensures View() == LowInner(old(View()), pos, key, page)
      ensures other.View() == HighInner(old(View()), pos, key, page)
      ensures up == Insert(old(View()).keys, pos, key)[(keys.Length + 1) / 2 - 1]
    {
      hide Insert, LowInner, HighInner, PageNums;
      ViewIs();
      InnerHalvesAre(View(), pos, key, page);
      var tempKeys, tempPointers := GatherInner(pos, key, page);
      other.isLeaf, other.parent := false, parent;
      up := DealInner(tempKeys, tempPointers, (keys.Length + 1) / 2, other);
    }

    method GatherInner(pos: int, key: Key, page: int) returns (tempKeys: array<Key>, tempPointers: array<RID>)
      requires Valid() && !isLeaf && keyNum == keys.Length - 1 && 0 <= pos <= keyNum
      ensures fresh(tempKeys) && tempKeys.Length == keys.Length
      ensures fresh(tempPointers) && tempPointers.Length == keys.Length + 1
      ensures tempKeys[..] == Insert(keys[..keyNum], pos, key)
      ensures PageNums(tempPointers[..]) == Insert(View().kids, pos + 1, page)
    {
      tempKeys, tempPointers := new Key[keys.Length], new RID[keys.Length + 1];
      Gather(rids, keyNum + 1, pos + 1, RID(page, -1), tempPointers);
      Gather(keys, keyNum, pos, key, tempKeys);
      assert tempKeys[..] == tempKeys[..keyNum + 1] && tempPointers[..] == tempPointers[..keyNum + 2];
      PageNumsInsert(rids[..keyNum + 1], pos + 1, RID(page, -1));
    }

    method DealInner(tempKeys: array<Key>, tempPointers: array<RID>, split: int, other: IndexNode) returns (up: Key)
      requires Valid() && !isLeaf && CanDealTo(other) && !other.isLeaf && 1 < split < keys.Length
      requires tempKeys.Length == keys.Length && tempPointers.Length == keys.Length + 1
      requires tempKeys !in {keys, other.keys} && tempPointers !in {rids, other.rids}
      modifies this`keyNum, keys, rids, other`keyNum, other.keys, other.rids
      ensures Valid() && other.Valid()
      ensures View() == Inner(parent, tempKeys[..][..split - 1], PageNums(tempPointers[..])[..split])
      ensures other.View() == Inner(other.parent, tempKeys[..][split..], PageNums(tempPointers[..])[split..])
      ensures up == tempKeys[split - 1]
    {
      hide PageNums;
      var order := keys.Length;
      Deal(tempKeys, keys, split - 1, other.keys, order - split);
      Deal(tempPointers, rids, split, other.rids, order - split + 1);
      keyNum := split - 1;
      up := tempKeys[split - 1];
      other.keyNum := order - split;
      ghost var c := tempPointers[..];
      assert rids[..split] == c[..split] && other.rids[..order - split + 1] == c[split..];
      PageNumsSplit(c, split);
    }

    /** What the removal of entry `d` from a page that held `v` has left behind in the slots. */
    ghost predicate Leftover(v: View, d: nat)
      requires Valid() && d < |v.keys|
      requires if v.Leaf? then |v.rids| == |v.keys| else |v.kids| == |v.keys| + 1
      reads this, rids
    {
      if v.Leaf? then rids[0] == v.rids[if d == 0 && |v.keys| > 1 then 1 else 0]
      else keyNum + 1 < rids.Length && rids[keyNum + 1].pageNum == v.kids[|v.keys|]
    }

    /** The loops of delete_entry_from_node: entry `d` of a leaf goes, or key `d` of an
        internal page and the child behind it.  The slots behind keep what they had. */
    method RemoveSlot(d: int)
      requires Valid() && 0 <= d < keyNum
      modifies this`keyNum, keys, rids
      ensures Valid() && keyNum == old(keyNum) - 1
      ensures View() == Without(old(View()), d)
      ensures Leftover(old(View()), d)
    {
      hide Remove;
      DeleteSlot(keys, keyNum, d);
      ghost var n, r := keyNum, rids[..];
      if isLeaf {
        RemoveStarts(rids[..keyNum], d);
        DeleteSlot(rids, keyNum, d);
        assert rids[rids.Length - 1] == rids[keyNum - 1..][rids.Length - keyNum];
        assert keyNum > 1 ==> rids[0] == rids[..keyNum - 1][0];
      } else {
        DeleteSlot(rids, keyNum + 1, d + 1);
        PageNumsRemove(old(rids[..keyNum + 1]), d + 1);
      }
      keyNum := keyNum - 1;
    }

    /** The loops of coalesce_node: the contents of the right neighbour are appended. */
    method AppendLeaf(right: IndexNode, ghost sep: Key)
      requires Valid() && right.Valid() && right != this && right.keys != keys && right.rids != rids
      requires right.keys.Length == keys.Length && isLeaf && right.isLeaf && keyNum + right.keyNum < keys.Length
      modifies this`keyNum, keys, rids
      ensures Valid()
      ensures View() == Joined(old(View()), sep, right.View())
    {
      AppendSlots(right.keys, right.keyNum, keys, keyNum);
      AppendSlots(right.rids, right.keyNum, rids, keyNum);
      rids[rids.Length - 1] := right.rids[rids.Length - 1];
      keyNum := keyNum + right.keyNum;
    }

    /** The same for internal pages, behind the separator `sep`. */
    method AppendInner(right: IndexNode, sep: Key)
      requires Valid() && right.Valid() && right != this && right.keys != keys && right.rids != rids
      requires right.keys.Length == keys.Length && !isLeaf && !right.isLeaf && keyNum + right.keyNum + 1 < keys.Length
      modifies this`keyNum, keys, rids
      ensures Valid()
      ensures View() == Joined(old(View()), sep, right.View())
    {
      keys[keyNum] := sep;
      assert keys[..keyNum + 1] == old(keys[..keyNum]) + [sep];
      AppendSlots(right.keys, right.keyNum, keys, keyNum + 1);
      AppendSlots(right.rids, right.keyNum + 1, rids, keyNum + 1);
      PageNumsConcat(old(rids[..keyNum + 1]), right.rids[..right.keyNum + 1]);
      keyNum := keyNum + 1 + right.keyNum;
    }

    /** The branches of redistribute_nodes.  A leaf takes the first entry of its right
        neighbour. */
    method TakeEntry(right: IndexNode, ghost sep: Key, ghost x: RID) returns (newSep: Key)
      requires Valid() && isLeaf && CanDealTo(right) && right.isLeaf && keyNum < keys.Length - 1 && 1 < right.keyNum
      modifies this`keyNum, keys, rids, right`keyNum, right.keys, right.rids
      ensures Valid() && right.Valid()
      ensures View() == LeftAfter(old(View()), sep, old(right.View()), true)
      ensures right.View() == RightAfter(old(View()), sep, old(right.View()), true, x)
      ensures newSep == SepAfter(old(View()), old(right.View()), true)
    {
      InsertEntry(keyNum, right.keys[0], right.rids[0]);
      right.DropFirst();
      newSep := right.keys[0];
    }

    method DropFirst()
      requires Valid() && isLeaf && 1 < keyNum
      modifies this`keyNum, keys, rids
      ensures Valid() && keyNum == old(keyNum) - 1
      ensures var v := old(View()); View() == Leaf(v.parent, v.keys[1..], v.rids[1..], v.next)
    {
      DeleteSlot(keys, keyNum, 0);
      DeleteSlot(rids, keyNum, 0);
      assert rids[keys.Length - 1] == rids[keyNum - 1..][keys.Length - keyNum];
      keyNum := keyNum - 1;
    }

    /** A leaf gives its last entry to its right neighbour.  As shipped, the RID is not
        copied: the first slot keeps what it had. */
    method GiveEntry(right: IndexNode, ghost sep: Key, repaired: bool) returns (newSep: Key, ghost x: RID)
      requires Valid() && isLeaf && CanDealTo(right) && right.isLeaf && 0 < keyNum && right.keyNum < keys.Length - 1
      modifies this`keyNum, right`keyNum, right.keys, right.rids
      ensures Valid() && right.Valid()
      ensures x == old(if repaired then rids[keyNum - 1] else right.rids[0])
      ensures View() == LeftAfter(old(View()), sep, old(right.View()), false)
      ensures right.View() == RightAfter(old(View()), sep, old(right.View()), false, x)
      ensures newSep == SepAfter(old(View()), old(right.View()), false)
    {
      x := if repaired then rids[keyNum - 1] else right.rids[0];
      newSep := keys[keyNum - 1];
      right.InsertEntry(0, newSep, if repaired then rids[keyNum - 1] else right.rids[0]);
      DropLast();
    }

    /** The last entry, or the last key and the last child, no longer count. */
    method DropLast()
      requires Valid() && 0 < keyNum
      modifies this`keyNum
      ensures Valid()
      ensures var v := old(View());
        View() == if v.Leaf? then v.(keys := v.keys[..|v.keys| - 1], rids := v.rids[..|v.keys| - 1])
                  else v.(keys := v.keys[..|v.keys| - 1], kids := v.kids[..|v.keys|])
    {
      keyNum := keyNum - 1;
    }

    /** An internal page takes the first child of its right neighbour, behind the separator.
        As shipped, the last child of the neighbour is not moved along. */
    method TakeKid(right: IndexNode, sep: Key, repaired: bool) returns (newSep: Key, ghost x: RID)
      requires Valid() && !isLeaf && CanDealTo(right) && !right.isLeaf && keyNum < keys.Length - 1 && 1 < right.keyNum
      modifies this`keyNum, keys, rids, right`keyNum, right.keys, right.rids
      ensures Valid() && right.Valid()
      ensures x == old(if repaired then right.rids[right.keyNum] else right.rids[right.keyNum - 1])
      ensures View() == LeftAfter(old(View()), sep, old(right.View()), true)
      ensures right.View() == RightAfter(old(View()), sep, old(right.View()), true, x)
      ensures newSep == SepAfter(old(View()), old(right.View()), true)
    {
      ghost var a, b := View(), right.View();
      keys[keyNum], rids[keyNum + 1] := sep, right.rids[0];
      keyNum := keyNum + 1;
      assert keys[..keyNum] == a.keys + [sep] && PageNums(rids[..keyNum + 1]) == a.kids + [b.kids[0]];
      newSep := right.keys[0];
      x := right.DropFirstKid(repaired);
    }

    method DropFirstKid(repaired: bool) returns (ghost x: RID)
      requires Valid() && !isLeaf && 1 < keyNum
      modifies this`keyNum, keys, rids
      ensures Valid()
      ensures x == old(if repaired then rids[keyNum] else rids[keyNum - 1])
      ensures View() == Inner(parent, old(View()).keys[1..], old(View()).kids[1..old(keyNum)] + [x.pageNum])
    {
      var n := keyNum;
      x := if repaired then rids[n] else rids[n - 1];
      DeleteSlot(keys, n, 0);
      DeleteSlot(rids, if repaired then n + 1 else n, 0);
      keyNum := n - 1;
      ghost var was := old(rids[..n + 1]);
      assert rids[..n] == was[1..n] + [x];
      PageNumsConcat(was[1..n], [x]);
      assert PageNums(was[1..n]) == PageNums(was)[1..n];
    }

    /** An internal page gives its last child to its right neighbour, before the separator.
        As shipped, the last child of the neighbour is overwritten, and the slot behind it
        counts instead. */
    method GiveKid(right: IndexNode, sep: Key, repaired: bool) returns (newSep: Key, ghost x: RID)
      requires Valid() && !isLeaf && CanDealTo(right) && !right.isLeaf && 0 < keyNum && right.keyNum < keys.Length - 1
      modifies this`keyNum, right`keyNum, right.keys, right.rids
      ensures Valid() && right.Valid()
      ensures x == old(if repaired then right.rids[right.keyNum] else right.rids[right.keyNum + 1])
      ensures View() == LeftAfter(old(View()), sep, old(right.View()), false)
      ensures right.View() == RightAfter(old(View()), sep, old(right.View()), false, x)
      ensures newSep == SepAfter(old(View()), old(right.View()), false)
    {
      newSep := keys[keyNum - 1];
      x := right.PutFirstKid(sep, rids[keyNum], repaired);
      DropLast();
    }

    method PutFirstKid(sep: Key, kid: RID, repaired: bool) returns (ghost x: RID)
      requires Valid() && !isLeaf && keyNum < keys.Length - 1
      modifies this`keyNum, keys, rids
      ensures Valid()
      ensures x == old(if repaired then rids[keyNum] else rids[keyNum + 1])
      ensures View() == Inner(parent, [sep] + old(View()).keys, [kid.pageNum] + old(View()).kids[..old(keyNum)] + [x.pageNum])
    {
      var n := keyNum;
      ghost var was := rids[..];
      x := if repaired then rids[n] else rids[n + 1];
      InsertSlot(keys, n, 0, sep);
      InsertSlot(rids, if repaired then n + 1 else n, 0, kid);
      keyNum := n + 1;
      assert rids[..n + 2] == [kid] + was[..n] + [x];
      assert PageNums(was[..n]) == PageNums(was[..n + 1])[..n];
    }

    /** One of the four moves; `x` is what ends up in the doubtful slot, and `v` the underfull
        page before it lost entry `d`. */
    method MoveKey(right: IndexNode, sep: Key, fromRight: bool, repaired: bool, ghost v: View, ghost d: nat) returns (newSep: Key, ghost x: RID)
      requires Valid() && CanDealTo(right) && isLeaf == right.isLeaf
      requires if fromRight then keyNum < keys.Length - 1 && 1 < right.keyNum
               else 0 < keyNum && right.keyNum < keys.Length - 1
      requires v.Leaf? == isLeaf && d < |v.keys|
      requires if v.Leaf? then |v.rids| == |v.keys| else |v.kids| == |v.keys| + 1
      requires !fromRight ==> right.Leftover(v, d)
      modifies this`keyNum, keys, rids, right`keyNum, right.keys, right.rids
      ensures Valid() && right.Valid()
      ensures View() == LeftAfter(old(View()), sep, old(right.View()), fromRight)
      ensures right.View() == RightAfter(old(View()), sep, old(right.View()), fromRight, x)
      ensures newSep == SepAfter(old(View()), old(right.View()), fromRight)
      ensures SlotHolds(v, d, old(View()), old(right.View()), fromRight, repaired, x)
    {
      hide LeftAfter, RightAfter, SepAfter;
      if isLeaf {
        if fromRight {
          x := RID(0, 0);
          newSep := TakeEntry(right, sep, x);
        } else {
          newSep, x := GiveEntry(right, sep, repaired);
        }
      } else {
        if fromRight {
          newSep, x := TakeKid(right, sep, repaired);
        } else {
          newSep, x := GiveKid(right, sep, repaired);
        }
      }
    }
  }
}
