/** How the older path reads a table: through an index, if a condition compares an indexed field
    with a value, and otherwise in the order of the record file. */
module TableScans {
  import opened Keys
  import opened Comparisons
  import opened Permutations
  import opened BTree
  import opened BTreeScan
  import opened IndexHandler
  import opened IndexScanner
  import opened Rows
  import opened QueryPlan

  // ---- values as index keys ----------------------------------------------------------------------

  /** The bytes of a CHARS field, filled up with terminators, or cut off. */
  function Padded(s: string, n: nat): (r: seq<Byte>)
    ensures |r| == n
  {
    seq(n, i requires 0 <= i < n => if i < |s| then s[i] as int % 256 else 0)
  }

  /** Where the index puts a value. */
  function AttrRank(v: Value, n: nat): int {
    if v.Int? then v.i else Keys.Place(Padded(v.s, n), n)
  }

  /** A string that fits into a field of `n` bytes. */
  predicate Fits(s: string, n: nat) {
    |s| <= n && forall i :: 0 <= i < |s| ==> 0 < s[i] as int < 256
  }

  /** Values of one type whose comparison by the filters is that of the index: integers that can be
      subtracted, or strings that fit into the field. */
  predicate Comparable(a: Value, b: Value, n: nat) {
    (a.Int? && b.Int? && -0x8000_0000 <= a.i - b.i < 0x8000_0000) || (a.Str? && b.Str? && Fits(a.s, n) && Fits(b.s, n))
  }

  lemma {:induction false} StrCmpIsStrNCmp(s: string, t: string, n: nat)
    requires Fits(s, n) && Fits(t, n)
    ensures StrCmp(s, t) < 0 <==> StrNCmp(Padded(s, n), Padded(t, n), n) < 0
    ensures StrCmp(s, t) == 0 <==> StrNCmp(Padded(s, n), Padded(t, n), n) == 0
    decreases n
  {
    if n > 0 && s != [] && t != [] && s[0] == t[0] {
      StrCmpIsStrNCmp(s[1..], t[1..], n - 1);
      assert Padded(s, n)[1..] == Padded(s[1..], n - 1);
      assert Padded(t, n)[1..] == Padded(t[1..], n - 1);
    }
  }

  /** The filters and the index order comparable values alike. */
  lemma CompareIsRank(a: Value, b: Value, n: nat)
    requires Comparable(a, b, n)
    ensures Compare(a, b) < 0 <==> AttrRank(a, n) < AttrRank(b, n)
    ensures Compare(a, b) == 0 <==> AttrRank(a, n) == AttrRank(b, n)
  {
    if a.Str? {
      StrCmpIsStrNCmp(a.s, b.s, n);
      PlaceReflectsStrNCmp(Padded(a.s, n), Padded(b.s, n), n);
    }
  }

  // ---- the choice of an index --------------------------------------------------------------------

  /** The index of a field: the first that begins with it. */
  function IndexOn(t: Table, field: string): (k: nat)
    ensures k <= |t.indexes| && (k < |t.indexes| ==> t.indexes[k].field == field)
  {
    IndexFrom(t.indexes, field)
  }

  function IndexFrom(xs: seq<Index>, field: string): (k: nat)
    ensures k <= |xs| && (k < |xs| ==> xs[k].field == field)
  {
    if xs == [] || xs[0].field == field then 0 else 1 + IndexFrom(xs[1..], field)
  }

  /** The attribute that is compared with a value, and the value. */
  predicate OneSided(c: Cond) {
    c.left.Field? != c.right.Field?
  }

  function AttrOf(c: Cond): Attr
    requires OneSided(c)
  {
    if c.left.Field? then c.left.attr else c.right.attr
  }

  function ValueOf(c: Cond): Value
    requires OneSided(c)
  {
    if c.left.Field? then c.right.value else c.left.value
  }

  predicate Chooses(t: Table, c: Cond) {
    OneSided(c) && c.op != IS && c.op != IS_NOT && AttrOf(c) in SchemaOf(t) && IndexOn(t, AttrOf(c).field) < |t.indexes|
  }

  /** The first condition for which there is an index. */
  function Chosen(t: Table, filters: seq<Cond>): (k: nat)
    ensures k <= |filters| && (k < |filters| ==> Chooses(t, filters[k]))
    ensures forall i :: 0 <= i < k ==> !Chooses(t, filters[i])
  {
    if filters == [] || Chooses(t, filters[0]) then 0 else 1 + Chosen(t, filters[1..])
  }

  function LengthFor(t: Table, c: Cond): nat
    requires Chooses(t, c)
  {
    t.indexes[IndexOn(t, AttrOf(c).field)].length
  }

  /** The index scan takes the operator as it stands, on whichever side the attribute is. */
  predicate Scanned(t: Table, c: Cond, v: Value)
    requires Chooses(t, c)
  {
    Satisfies(c.op, AttrRank(v, LengthFor(t, c)), AttrRank(ValueOf(c), LengthFor(t, c)))
  }

  /** The row, of the table or of a product with it, is met by the scan. */
  predicate Reached(t: Table, filters: seq<Cond>, s: Schema, r: Row) {
    var k := Chosen(t, filters);
    k < |filters| ==>
      && AttrOf(filters[k]) in s && |r| == |s|
      && Scanned(t, filters[k], Get(Field(AttrOf(filters[k])), s, r))
  }

  /** A row that passes the chosen condition is met, if the attribute stands on the left or the operator
      can be turned round; otherwise only if it has the value itself. */
  lemma WhoIsReached(t: Table, filters: seq<Cond>, s: Schema, r: Row)
    requires Chosen(t, filters) < |filters|
    requires var c := filters[Chosen(t, filters)];
      Holds(c, s, r) && Comparable(Get(c.left, s, r), Get(c.right, s, r), LengthFor(t, c))
    ensures var c := filters[Chosen(t, filters)]; var a, v, n := Get(Field(AttrOf(c)), s, r), ValueOf(c), LengthFor(t, c);
      Reached(t, filters, s, r) <==> c.left.Field? || SymmetricOp(c.op) == c.op || AttrRank(a, n) == AttrRank(v, n)
  {
    var c := filters[Chosen(t, filters)];
    var x, y, n := Get(c.left, s, r), Get(c.right, s, r), LengthFor(t, c);
    CompareIsRank(x, y, n);
    SymmetricOpExchanges(c.op, AttrRank(x, n), AttrRank(y, n));
  }

  // ---- what the scan delivers ---------------------------------------------------------------------

  /** A table as it is stored: every record has a place of its own, and every row fits. */
  predicate Stored(t: Table) {
    && |t.rids| == |t.rows| && Fit(t.rows, SchemaOf(t))
    && (forall i, j :: 0 <= i < j < |t.rids| ==> t.rids[i] != t.rids[j])
    && (forall i :: 0 <= i < |t.rids| ==> CmpRid(t.rids[i], RID(-1, -1)) >= 0)
  }

  /** get_record. */
  function RowWith(t: Table, rid: RID): Row
    requires |t.rids| == |t.rows|
  {
    RowAmong(t.rids, t.rows, rid)
  }

  function RowAmong(rids: seq<RecordId>, rows: seq<Row>, rid: RID): Row
    requires |rids| == |rows|
  {
    if rids == [] then [] else if rids[0] == rid then rows[0] else RowAmong(rids[1..], rows[1..], rid)
  }

  function RowsWith(t: Table, rids: seq<RID>): (r: seq<Row>)
    requires |t.rids| == |t.rows|
    ensures |r| == |rids| && forall i :: 0 <= i < |rids| ==> r[i] == RowWith(t, rids[i])
  {
    seq(|rids|, i requires 0 <= i < |rids| => RowWith(t, rids[i]))
  }

  /** The keys of an index on an attribute, in the order of the record file. */
  function KeysOf(t: Table, a: Attr, n: nat): (ks: seq<Key>)
    requires Stored(t) && a in SchemaOf(t)
    ensures |ks| == |t.rows|
    ensures forall i :: 0 <= i < |ks| ==> t.rows[i] in t.rows && ks[i] == Key(AttrRank(Get(Field(a), SchemaOf(t), t.rows[i]), n), t.rids[i])
  {
    seq(|t.rows|, i requires 0 <= i < |t.rows| =>
      assert t.rows[i] in t.rows; Key(AttrRank(Get(Field(a), SchemaOf(t), t.rows[i]), n), t.rids[i]))
  }

  function InsertKey(k: Key, ks: seq<Key>): seq<Key> {
    if ks == [] || CmpKey(k, ks[0]) < 0 then [k] + ks else [ks[0]] + InsertKey(k, ks[1..])
  }

  function SortKeys(ks: seq<Key>): seq<Key> {
    if ks == [] then [] else InsertKey(ks[0], SortKeys(ks[1..]))
  }

  /** The rows that come out of the table before they are filtered, in the order in which they do. */
  function Delivered(t: Table, filters: seq<Cond>): seq<Row>
    requires Stored(t)
  {
    var k := Chosen(t, filters);
    if k == |filters| then t.rows
    else
      var c := filters[k];
      var n := LengthFor(t, c);
      RowsWith(t, Pick(c.op, AttrRank(ValueOf(c), n), SortKeys(KeysOf(t, AttrOf(c), n))))
  }

  // ---- sorted keys ---------------------------------------------------------------------------------

  lemma {:induction false} InsertKeySorts(k: Key, ks: seq<Key>)
    requires Sorted(ks) && k !in ks
    ensures Sorted(InsertKey(k, ks)) && forall x :: x in InsertKey(k, ks) <==> x == k || x in ks
  {
    if ks != [] && CmpKey(k, ks[0]) >= 0 {
      InsertKeySorts(k, ks[1..]);
      var r := InsertKey(k, ks[1..]);
      assert ks == [ks[0]] + ks[1..];
      assert Rank(ks[0]) < Rank(k);
      forall i | 0 <= i < |r| ensures Rank(ks[0]) < Rank(r[i]) {
        assert r[i] in r;
        if r[i] != k {
          var j :| 0 <= j < |ks| - 1 && ks[1..][j] == r[i];
          assert Rank(ks[0]) < Rank(ks[j + 1]);
        }
      }
    }
  }

  lemma {:induction false} SortKeysSorts(ks: seq<Key>)
    requires forall i, j :: 0 <= i < j < |ks| ==> ks[i] != ks[j]
    ensures Sorted(SortKeys(ks)) && forall x :: x in SortKeys(ks) <==> x in ks
  {
    if ks != [] {
      SortKeysSorts(ks[1..]);
      assert ks[0] !in ks[1..];
      assert ks == [ks[0]] + ks[1..];
      InsertKeySorts(ks[0], SortKeys(ks[1..]));
    }
  }

  lemma FirstKeyIsLeast(a: seq<Key>, k: Key)
    requires Sorted(a) && k in a
    ensures Rank(a[0]) <= Rank(k)
  {
    var i :| 0 <= i < |a| && a[i] == k;
  }

  lemma OtherKeys(a: seq<Key>)
    requires Sorted(a) && a != []
    ensures forall x :: x in a[1..] <==> x in a && x != a[0]
  {
    assert a == [a[0]] + a[1..];
    forall i | 0 <= i < |a[1..]| ensures a[1..][i] != a[0] {
      assert Rank(a[0]) < Rank(a[i + 1]);
    }
  }

  /** There is only one way to sort keys. */
  lemma {:induction false} SortedAlike(a: seq<Key>, b: seq<Key>)
    requires Sorted(a) && Sorted(b) && forall x :: x in a <==> x in b
    ensures a == b
    decreases |a|
  {
    if a == [] {
      SomeMember(b);
    } else {
      assert a[0] in b;
      assert b[0] in a;
      FirstKeyIsLeast(a, b[0]);
      FirstKeyIsLeast(b, a[0]);
      RankIsInjective(a[0], b[0]);
      assert a == [a[0]] + a[1..] && b == [b[0]] + b[1..];
      OtherKeys(a);
      OtherKeys(b);
      SortedAlike(a[1..], b[1..]);
    }
  }

  // ---- the rows delivered are those that the scan meets --------------------------------------------

  lemma {:induction false} InsertPicks(t: Table, op: CompOp, v: int, k: Key, ks: seq<Key>)
    requires |t.rids| == |t.rows|
    ensures multiset(RowsWith(t, Pick(op, v, InsertKey(k, ks))))
         == multiset(RowsWith(t, Pick(op, v, ks))) + multiset(RowsWith(t, Pick(op, v, [k])))
  {
    if ks == [] || CmpKey(k, ks[0]) < 0 {
      PickConcat(op, v, [k], ks);
      RowsWithConcat(t, Pick(op, v, [k]), Pick(op, v, ks));
    } else {
      InsertPicks(t, op, v, k, ks[1..]);
      PickConcat(op, v, [ks[0]], InsertKey(k, ks[1..]));
      PickConcat(op, v, [ks[0]], ks[1..]);
      assert ks == [ks[0]] + ks[1..];
      RowsWithConcat(t, Pick(op, v, [ks[0]]), Pick(op, v, InsertKey(k, ks[1..])));
      RowsWithConcat(t, Pick(op, v, [ks[0]]), Pick(op, v, ks[1..]));
    }
  }

  lemma RowsWithConcat(t: Table, a: seq<RID>, b: seq<RID>)
    requires |t.rids| == |t.rows|
    ensures RowsWith(t, a + b) == RowsWith(t, a) + RowsWith(t, b)
  {
  }

  lemma {:induction false} SortPicks(t: Table, op: CompOp, v: int, ks: seq<Key>)
    requires |t.rids| == |t.rows|
    ensures multiset(RowsWith(t, Pick(op, v, SortKeys(ks)))) == multiset(RowsWith(t, Pick(op, v, ks)))
  {
    if ks != [] {
      SortPicks(t, op, v, ks[1..]);
      InsertPicks(t, op, v, ks[0], SortKeys(ks[1..]));
      PickConcat(op, v, [ks[0]], ks[1..]);
      assert ks == [ks[0]] + ks[1..];
      RowsWithConcat(t, Pick(op, v, [ks[0]]), Pick(op, v, ks[1..]));
    }
  }

  lemma {:induction false} RowAmongAt(rids: seq<RecordId>, rows: seq<Row>, i: nat)
    requires |rids| == |rows| && i < |rids| && forall j, k :: 0 <= j < k < |rids| ==> rids[j] != rids[k]
    ensures RowAmong(rids, rows, rids[i]) == rows[i]
  {
    if i > 0 {
      RowAmongAt(rids[1..], rows[1..], i - 1);
    }
  }

  lemma ReachedByKey(t: Table, filters: seq<Cond>, j: nat)
    requires Stored(t) && Chosen(t, filters) < |filters| && j < |t.rows|
    ensures var c := filters[Chosen(t, filters)]; var n := LengthFor(t, c);
      Reached(t, filters, SchemaOf(t), t.rows[j]) <==> Satisfies(c.op, KeysOf(t, AttrOf(c), n)[j].attr, AttrRank(ValueOf(c), n))
  {
    assert t.rows[j] in t.rows;
  }

  /** Picking keys is filtering their rows. */
  lemma {:induction false} PicksRows(t: Table, op: CompOp, v: int, ks: seq<Key>, rows: seq<Row>, p: Row -> bool)
    requires |t.rids| == |t.rows| && |ks| == |rows|
    requires forall j :: 0 <= j < |ks| ==> RowWith(t, ks[j].rid) == rows[j] && (p(rows[j]) <==> Satisfies(op, ks[j].attr, v))
    ensures RowsWith(t, Pick(op, v, ks)) == Keep(rows, p)
  {
    hide RowWith, Satisfies;
    if ks != [] {
      PicksRows(t, op, v, ks[1..], rows[1..], p);
      var head := if Satisfies(op, ks[0].attr, v) then [ks[0].rid] else [];
      RowsWithConcat(t, head, Pick(op, v, ks[1..]));
    }
  }

  lemma PlacedAt(t: Table, j: nat)
    requires Stored(t) && j < |t.rows|
    ensures RowWith(t, t.rids[j]) == t.rows[j]
  {
    RowAmongAt(t.rids, t.rows, j);
  }

  lemma DeliveredAreReached(t: Table, filters: seq<Cond>)
    requires Stored(t)
    ensures multiset(Delivered(t, filters)) == multiset(Keep(t.rows, r => Reached(t, filters, SchemaOf(t), r)))
  {
    var k := Chosen(t, filters);
    if k < |filters| {
      var c := filters[k];
      var n := LengthFor(t, c);
      var ks := KeysOf(t, AttrOf(c), n);
      SortPicks(t, c.op, AttrRank(ValueOf(c), n), ks);
      forall j | 0 <= j < |ks|
        ensures RowWith(t, ks[j].rid) == t.rows[j]
        ensures Reached(t, filters, SchemaOf(t), t.rows[j]) <==> Satisfies(c.op, ks[j].attr, AttrRank(ValueOf(c), n))
      {
        PlacedAt(t, j);
        ReachedByKey(t, filters, j);
      }
      PicksRows(t, c.op, AttrRank(ValueOf(c), n), ks, t.rows, r => Reached(t, filters, SchemaOf(t), r));
    } else {
      KeepSize(t.rows, r => Reached(t, filters, SchemaOf(t), r));
    }
  }

  /** A scan loses a row that passes the filters, if and only if it does not meet it. */
  lemma ScanIsComplete(t: Table, filters: seq<Cond>)
    requires Stored(t)
    ensures multiset(Select(Delivered(t, filters), SchemaOf(t), filters)) == multiset(Select(t.rows, SchemaOf(t), filters))
       <==> forall r :: r in Select(t.rows, SchemaOf(t), filters) ==> Reached(t, filters, SchemaOf(t), r)
    ensures Chosen(t, filters) == |filters| ==> Delivered(t, filters) == t.rows
  {
    hide Delivered, Reached, Select;
    var s := SchemaOf(t);
    var p, q := (r: Row) => AllHold(filters, s, r), (r: Row) => Reached(t, filters, s, r);
    DeliveredAreReached(t, filters);
    SelectIsKeep(Delivered(t, filters), s, filters);
    SelectIsKeep(t.rows, s, filters);
    LeftOver(t.rows, Delivered(t, filters), p, q);
    NoneChosen(t, filters);
  }

  lemma NoneChosen(t: Table, filters: seq<Cond>)
    requires Stored(t)
    ensures Chosen(t, filters) == |filters| ==> Delivered(t, filters) == t.rows
  {
  }

  // ---- scanning ------------------------------------------------------------------------------------

  /** The handler holds index `i` of the table as the table is. */
  ghost predicate IsIndex(h: BplusTreeHandler, t: Table, i: nat)
    requires Stored(t) && i < |t.indexes|
    reads h, h.repr
  {
    && h.Valid() && WF(h.tree)
    && (Attr(t.name, t.indexes[i].field) in SchemaOf(t) ==>
          forall k :: Has(h.tree, k) <==> k in KeysOf(t, Attr(t.name, t.indexes[i].field), t.indexes[i].length))
  }

  /** The handlers are the table's indexes. */
  ghost predicate Indexed(t: Table, hs: seq<BplusTreeHandler>)
    requires Stored(t)
    reads hs, set h, o | h in hs && o in h.repr :: o
  {
    |hs| == |t.indexes| && forall i :: 0 <= i < |hs| ==> IsIndex(hs[i], t, i)
  }

  lemma NameOfAttr(t: Table, a: Attr)
    requires a in SchemaOf(t)
    ensures a == Attr(t.name, a.field)
  {
  }

  lemma IndexIsSorted(h: BplusTreeHandler, t: Table, i: nat, op: CompOp, v: int)
    requires Stored(t) && i < |t.indexes| && IsIndex(h, t, i) && Attr(t.name, t.indexes[i].field) in SchemaOf(t)
    ensures Found(h.tree, op, v, AllKeys(h.tree))
         == Pick(op, v, SortKeys(KeysOf(t, Attr(t.name, t.indexes[i].field), t.indexes[i].length)))
  {
    hide BplusTreeHandler.Valid, WF, Has, Found, AllKeys, Sorted;
    var ks := KeysOf(t, Attr(t.name, t.indexes[i].field), t.indexes[i].length);
    AllKeysAreAll(h.tree);
    SortKeysSorts(ks);
    SortedAlike(AllKeys(h.tree), SortKeys(ks));
    ProperScanIsExact(h.tree, op, v);
  }

  /** scan_record and scan_record_by_index. */
  method ScanTable(t: Table, hs: seq<BplusTreeHandler>, filters: seq<Cond>) returns (out: seq<Row>)
    requires Stored(t) && Indexed(t, hs)
    ensures out == Select(Delivered(t, filters), SchemaOf(t), filters)
  {
    hide BplusTreeHandler.Valid, WF, Has, Found, AllKeys, Sorted, Pick, KeysOf, SortKeys, Select, AttrRank, SchemaOf;
    var k := FindCondition(t, filters);
    if k == |filters| {
      out := ScanRows(t.rows, SchemaOf(t), filters);
      return;
    }
    var c := filters[k];
    var i := IndexOn(t, AttrOf(c).field);
    var v := AttrRank(ValueOf(c), t.indexes[i].length);
    assert IsIndex(hs[i], t, i);
    NameOfAttr(t, AttrOf(c));
    IndexIsSorted(hs[i], t, i, c.op, v);
    var scanner := new BplusTreeScanner(hs[i]);
    var rids := scanner.ScanAll(c.op, v);
    out := FetchRows(t, rids, filters);
  }

  method FindCondition(t: Table, filters: seq<Cond>) returns (k: nat)
    ensures k == Chosen(t, filters)
  {
    k := 0;
    while k < |filters| && !Chooses(t, filters[k])
      invariant k <= |filters| && Chosen(t, filters) == k + Chosen(t, filters[k..])
    {
      assert filters[k..][1..] == filters[k + 1..];
      k := k + 1;
    }
  }

  /** The records of the RIDs that pass the filters. */
  method FetchRows(t: Table, rids: seq<RID>, filters: seq<Cond>) returns (out: seq<Row>)
    requires Stored(t)
    ensures out == Select(RowsWith(t, rids), SchemaOf(t), filters)
  {
    out := [];
    for i := 0 to |rids|
      invariant out == Select(RowsWith(t, rids[..i]), SchemaOf(t), filters)
    {
      assert RowsWith(t, rids[..i + 1]) == RowsWith(t, rids[..i]) + [RowWith(t, rids[i])];
      SelectConcat(RowsWith(t, rids[..i]), [RowWith(t, rids[i])], SchemaOf(t), filters);
      var valid := Passes(filters, SchemaOf(t), RowWith(t, rids[i]));
      if valid {
        out := out + [RowWith(t, rids[i])];
      }
    }
    assert rids[..|rids|] == rids;
  }

  /** WHERE 5 < t.x, with an index on x: the scan looks for x < 5. */
  function Backwards(): (Table, seq<Cond>) {
    (Table("t", ["x"], [[Int(7)]], [RID(1, 0)], [Index("x", 4)]), [Cond(Const(Int(5)), LESS_THAN, Field(Attr("t", "x")))])
  }

  /** The row with 7 passes the filter, and is not found. */
  lemma ValueOnTheLeft()
    ensures var (t, filters) := Backwards();
      && Stored(t) && Select(t.rows, SchemaOf(t), filters) == [[Int(7)]]
      && Select(Delivered(t, filters), SchemaOf(t), filters) == []
  {
    var (t, filters) := Backwards();
    var a := Attr("t", "x");
    assert SchemaOf(t) == [a];
    assert t.rows == [[Int(7)]] && t.rows[1..] == [];
    assert IndexOn(t, "x") == 0 && Chooses(t, filters[0]) && Chosen(t, filters) == 0;
    assert !Reached(t, filters, [a], [Int(7)]);
    assert forall c :: c in filters ==> Holds(c, [a], [Int(7)]);
    DeliveredAreReached(t, filters);
    assert Keep(t.rows, r => Reached(t, filters, SchemaOf(t), r)) == [];
    assert |multiset(Delivered(t, filters))| == 0;
  }
}
