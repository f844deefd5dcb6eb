/** Index keys and their order: the comparison functions of bplus_tree.cpp, and an
    embedding of that order into the integers on which the tree proofs rest. */
module Keys {

  datatype RID = RID(pageNum: int, slotNum: int)

  predicate IsInt32(x: int) { -0x8000_0000 <= x < 0x8000_0000 }

  /** A record identifier as it is stored inside a key: two 32-bit integers. */
  type RecordId = r: RID | IsInt32(r.pageNum) && IsInt32(r.slotNum) witness RID(0, 0)

  /** An index key: the attribute followed by the RID of its record.  `attr` is the
      attribute itself for INTS, and its `Place` for CHARS and DATES. */
  datatype Key = Key(attr: int, rid: RecordId)

  /** The place of a key in the order of all keys. */
  ghost function Rank(k: Key): int {
    (k.attr * 0x1_0000_0000 + k.rid.pageNum) * 0x1_0000_0000 + k.rid.slotNum
  }

  function CmpRid(a: RID, b: RID): (r: int)
    ensures r == 0 <==> a == b
    ensures r < 0 <==> a.pageNum < b.pageNum || (a.pageNum == b.pageNum && a.slotNum < b.slotNum)
  {
    if a.pageNum > b.pageNum then 1
    else if a.pageNum < b.pageNum then -1
    else if a.slotNum > b.slotNum then 1
    else if a.slotNum < b.slotNum then -1
    else 0
  }

  /** Comparison of two INTS attributes. */
  function CompareInts(a: int, b: int): int {
    if a > b then 1 else if a < b then -1 else 0
  }

  /** Keys are ordered by attribute and then by RID; the order is total and is the
      order of the ranks, and keys that compare equal are the same key. */
  function CmpKey(a: Key, b: Key): (r: int)
    ensures r < 0 <==> Rank(a) < Rank(b)
    ensures r == 0 <==> Rank(a) == Rank(b)
    ensures r == 0 <==> a == b
  {
    var result := CompareInts(a.attr, b.attr);
    if result != 0 then result else CmpRid(a.rid, b.rid)
  }

  lemma RankIsInjective(a: Key, b: Key)
    requires Rank(a) == Rank(b)
    ensures a == b
  {
    assert CmpKey(a, b) == 0;
  }

  // ---- CHARS and DATES --------------------------------------------------------

  type Byte = b: int | 0 <= b < 256

  /** strncmp on the first `n` bytes of two buffers. */
  function StrNCmp(s: seq<Byte>, t: seq<Byte>, n: nat): int
    requires n <= |s| && n <= |t|
  {
    if n == 0 then 0
    else if s[0] != t[0] then s[0] - t[0]
    else if s[0] == 0 then 0
    else StrNCmp(s[1..], t[1..], n - 1)
  }

  function Pow256(n: nat): (r: nat)
    ensures r > 0
  {
    if n == 0 then 1 else 256 * Pow256(n - 1)
  }

  /** The bytes before the terminator, read as a base-256 fraction of fixed length. */
  function Place(s: seq<Byte>, n: nat): (r: nat)
    requires n <= |s|
    ensures r < Pow256(n)
  {
    if n == 0 || s[0] == 0 then 0
    else
      PlaceStep(s[0], Pow256(n - 1), Place(s[1..], n - 1));
      s[0] * Pow256(n - 1) + Place(s[1..], n - 1)
  }

  lemma PlaceStep(b: int, p: nat, rest: int)
    requires b < 256 && rest < p
    ensures b * p + rest < 256 * p
  {
    assert (b + 1) * p <= 256 * p;
  }

  lemma {:induction false} PlaceReflectsStrNCmp(s: seq<Byte>, t: seq<Byte>, n: nat)
    requires n <= |s| && n <= |t|
    ensures StrNCmp(s, t, n) < 0 <==> Place(s, n) < Place(t, n)
    ensures StrNCmp(s, t, n) == 0 <==> Place(s, n) == Place(t, n)
  {
    if n > 0 {
      if s[0] < t[0] {
        PlaceGap(s, t, n);
      } else if t[0] < s[0] {
        PlaceGap(t, s, n);
      } else if s[0] != 0 {
        PlaceReflectsStrNCmp(s[1..], t[1..], n - 1);
      }
    }
  }

  lemma PlaceGap(s: seq<Byte>, t: seq<Byte>, n: nat)
    requires 0 < n <= |s| && n <= |t| && s[0] < t[0]
    ensures Place(s, n) < Place(t, n)
  {
    var p := Pow256(n - 1);
    assert (s[0] + 1) * p <= t[0] * p;
    assert Place(s, n) < (s[0] + 1) * p by {
      if s[0] != 0 {
        assert Place(s, n) == s[0] * p + Place(s[1..], n - 1);
      }
    }
    assert Place(t, n) == t[0] * p + Place(t[1..], n - 1);
  }
}
