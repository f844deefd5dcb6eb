/** Aggregation: what each group's totals are, and the table that computes them in one pass over
    the rows, whose cells may be shared with the rows. */
module Aggregation {
  import opened Comparisons
  import opened Permutations

  /** A value that is not null is an integer or a number, with which arithmetic is exact. */
  datatype Val = Null | Int(i: Int32) | Num(x: real)

  type Int32 = i: int | -0x8000_0000 <= i < 0x8000_0000

  datatype Kind = COUNTS | SUMS | MINS | MAXS | AVGS

  type Key = seq<Int32>

  /** A row of the child executor: the group it belongs to, and the value under each aggregate. */
  datatype Row = Row(key: Key, vals: seq<Val>)

  // ---- comparisons -----------------------------------------------------------------------------

  function Number(v: Val): real {
    match v
    case Null => 0.0
    case Int(i) => i as real
    case Num(x) => x
  }

  /** TupleValue::compare: integers are subtracted. */
  function Cmp(a: Val, b: Val): int {
    if a.Int? && b.Int? then Subtract32(a.i, b.i)
    else if Number(a) < Number(b) then -1
    else if Number(a) > Number(b) then 1
    else 0
  }

  /** Their difference is an integer of 32 bits, whichever is subtracted. */
  predicate CloseInts(a: int, b: int) { -0x8000_0000 < a - b < 0x8000_0000 }

  predicate CloseVals(a: Val, b: Val) { a.Int? && b.Int? ==> CloseInts(a.i, b.i) }

  predicate Close(vs: seq<Val>) {
    forall i, j :: 0 <= i < |vs| && 0 <= j < |vs| ==> CloseVals(vs[i], vs[j])
  }

  lemma CmpIsRight(a: Val, b: Val)
    requires CloseVals(a, b)
    ensures Cmp(a, b) < 0 <==> Number(a) < Number(b)
    ensures Cmp(a, b) > 0 <==> Number(a) > Number(b)
  {
  }

  // ---- keys ------------------------------------------------------------------------------------

  /** The lexicographic order of keys. */
  predicate Below(a: Key, b: Key) {
    a != [] && b != [] && (a[0] < b[0] || (a[0] == b[0] && Below(a[1..], b[1..])))
  }

  /** The order that the code computes, whose values are subtracted. */
  predicate CodeBelow(a: Key, b: Key) {
    && a != [] && b != []
    && (Subtract32(a[0], b[0]) < 0 || (Subtract32(a[0], b[0]) == 0 && CodeBelow(a[1..], b[1..])))
  }

  /** At the first place where the keys differ, their values are less than 2^31 apart. */
  predicate CloseKeys(a: Key, b: Key) {
    |a| == |b| && (a != [] ==> if a[0] == b[0] then CloseKeys(a[1..], b[1..]) else CloseInts(a[0], b[0]))
  }

  /** The code compares two keys right, both ways, if and only if they are close. */
  lemma {:induction false} CodeBelowIsBelow(a: Key, b: Key)
    requires |a| == |b|
    ensures (CodeBelow(a, b) <==> Below(a, b)) && (CodeBelow(b, a) <==> Below(b, a)) <==> CloseKeys(a, b)
  {
    if a != [] {
      CodeBelowIsBelow(a[1..], b[1..]);
      if a[0] != b[0] {
        CodeComparesFirst(a[0], b[0]);
        CodeComparesFirst(b[0], a[0]);
      }
    }
  }

  lemma CodeComparesFirst(a: Int32, b: Int32)
    requires a != b
    ensures Subtract32(a, b) != 0
    ensures Subtract32(a, b) < 0 <==> if a < b then b - a <= 0x8000_0000 else a - b >= 0x8000_0000
  {
  }

  lemma {:induction false} BelowIsTotal(a: Key, b: Key)
    requires |a| == |b|
    ensures Below(a, b) || Below(b, a) || a == b
    ensures !(Below(a, b) && Below(b, a)) && !Below(a, a)
  {
    if a != [] {
      BelowIsTotal(a[1..], b[1..]);
      if a[0] == b[0] && a[1..] == b[1..] { assert a == [a[0]] + a[1..] && b == [b[0]] + b[1..]; }
    }
  }

  lemma {:induction false} BelowIsTransitive(a: Key, b: Key, c: Key)
    requires Below(a, b) && Below(b, c)
    ensures Below(a, c)
  {
    if a[0] == b[0] == c[0] {
      BelowIsTransitive(a[1..], b[1..], c[1..]);
    }
  }

  /** What an ordered map asks of the comparison of its keys. */
  ghost predicate IsOrder(keys: set<Key>) {
    && (forall a, b :: a in keys && b in keys && a != b ==> (CodeBelow(a, b) <==> !CodeBelow(b, a)))
    && (forall a, b, c :: a in keys && b in keys && c in keys && CodeBelow(a, b) && CodeBelow(b, c) ==> CodeBelow(a, c))
  }

  /** The code orders close keys. */
  lemma CloseIsOrder(keys: set<Key>)
    requires forall a, b :: a in keys && b in keys ==> CloseKeys(a, b)
    ensures IsOrder(keys)
  {
    forall a, b | a in keys && b in keys ensures CodeBelow(a, b) <==> Below(a, b) {
      CodeBelowIsBelow(a, b);
    }
    forall a, b | a in keys && b in keys && a != b ensures CodeBelow(a, b) <==> !CodeBelow(b, a) {
      BelowIsTotal(a, b);
    }
    forall a, b, c | a in keys && b in keys && c in keys && CodeBelow(a, b) && CodeBelow(b, c) ensures CodeBelow(a, c) {
      BelowIsTransitive(a, b, c);
    }
  }

  /** Keys that are far apart it may order in a circle. */
  lemma Circle()
    ensures CodeBelow([2000000000], [-2000000000]) && CodeBelow([-2000000000], [0]) && CodeBelow([0], [2000000000])
    ensures !IsOrder({[2000000000], [0], [-2000000000]})
  {
    var a: Key, b: Key, c: Key := [2000000000], [-2000000000], [0];
    assert CodeBelow(a, b) && CodeBelow(b, c) && CodeBelow(c, a);
    assert a[0] != c[0];
    assert a in {a, c, b} && c in {a, c, b} && b in {a, c, b};
  }

  /** The comparison of keys, value by value. */
  method LessThan(a: Key, b: Key) returns (less: bool)
    requires |a| == |b|
    ensures less == CodeBelow(a, b)
  {
    for i := 0 to |b|
      invariant CodeBelow(a, b) == CodeBelow(a[i..], b[i..])
    {
      assert a[i..][1..] == a[i + 1..] && b[i..][1..] == b[i + 1..];
      var ret := Subtract32(a[i], b[i]);
      if ret != 0 {
        return ret < 0;
      }
    }
    return false;
  }

  ghost predicate Ascending(keys: seq<Key>) {
    forall i, j :: 0 <= i < j < |keys| ==> Below(keys[i], keys[j])
  }

  /** In the order of the code. */
  ghost predicate CodeAscending(keys: seq<Key>) {
    forall i, j :: 0 <= i < j < |keys| ==> CodeBelow(keys[i], keys[j])
  }

  /** Where the comparison of the code is an order, it is the right one if and only if all keys are close. */
  lemma AscendingIfClose(keys: seq<Key>, n: nat)
    requires CodeAscending(keys) && (forall k :: k in keys ==> |k| == n) && IsOrder(set k | k in keys)
    ensures Ascending(keys) <==> forall a, b :: a in keys && b in keys ==> CloseKeys(a, b)
  {
    hide Below, CodeBelow, CloseKeys;
    if Ascending(keys) {
      forall a, b | a in keys && b in keys ensures CloseKeys(a, b) {
        var i :| 0 <= i < |keys| && keys[i] == a;
        var j :| 0 <= j < |keys| && keys[j] == b;
        CodeBelowIsBelow(a, b);
        CodeBelowIsBelow(b, a);
        BelowIsTotal(a, b);
        if a == b { CloseToItself(a); } else { assert a in (set k | k in keys) && b in (set k | k in keys); }
        if i > j { CloseBothWays(a, b); }
      }
    }
    if forall a, b :: a in keys && b in keys ==> CloseKeys(a, b) {
      forall i, j | 0 <= i < j < |keys| ensures Below(keys[i], keys[j]) {
        assert keys[i] in keys && keys[j] in keys;
        CodeBelowIsBelow(keys[i], keys[j]);
      }
    }
  }

  lemma {:induction false} CloseToItself(a: Key)
    ensures CloseKeys(a, a)
  {
    if a != [] { CloseToItself(a[1..]); }
  }

  lemma {:induction false} CloseBothWays(a: Key, b: Key)
    ensures CloseKeys(a, b) <==> CloseKeys(b, a)
  {
    if |a| == |b| && a != [] { CloseBothWays(a[1..], b[1..]); }
  }

  // ---- the definition ----------------------------------------------------------------------------

  /** The values of a group under the aggregate `i`, in the order of the rows. */
  function Column(rows: seq<Row>, key: Key, i: nat): seq<Val> {
    if rows == [] then [] else Column(rows[..|rows| - 1], key, i) + ColumnOfRow(rows[|rows| - 1], key, i)
  }

  function ColumnOfRow(row: Row, key: Key, i: nat): seq<Val> {
    if row.key == key && i < |row.vals| then [row.vals[i]] else []
  }

  /** The values that are not null. */
  function Present(vs: seq<Val>): seq<Val> {
    if vs == [] then []
    else
      var last := vs[|vs| - 1];
      Present(vs[..|vs| - 1]) + if last.Null? then [] else [last]
  }

  function Sum(vs: seq<Val>): real {
    if vs == [] then 0.0 else Sum(vs[..|vs| - 1]) + Number(vs[|vs| - 1])
  }

  /** The aggregate of some values, none of them null. */
  predicate IsTotal(kind: Kind, vs: seq<Val>, r: Val) {
    match kind
    case COUNTS => r == Num(|vs| as real)
    case SUMS => r == if vs == [] then Null else Num(Sum(vs))
    case AVGS => r == if vs == [] then Null else Num(Sum(vs) / |vs| as real)
    case MINS => if vs == [] then r == Null else r in vs && forall k :: 0 <= k < |vs| ==> Number(r) <= Number(vs[k])
    case MAXS => if vs == [] then r == Null else r in vs && forall k :: 0 <= k < |vs| ==> Number(vs[k]) <= Number(r)
  }

  predicate HasKey(rows: seq<Row>, key: Key) {
    exists k :: 0 <= k < |rows| && rows[k].key == key
  }

  function Keys(out: seq<Row>): (keys: seq<Key>)
    ensures |keys| == |out| && forall i :: 0 <= i < |out| ==> keys[i] == out[i].key
  {
    seq(|out|, i requires 0 <= i < |out| => out[i].key)
  }

  /** One row for each group that there is. */
  ghost predicate HasGroups(rows: seq<Row>, out: seq<Row>) {
    && (forall i :: 0 <= i < |out| ==> HasKey(rows, out[i].key))
    && (forall k :: 0 <= k < |rows| ==> HasKey(out, rows[k].key))
  }

  /** The groups in the order of the keys, with the aggregates of the group's values that are not null. */
  ghost predicate IsAggregation(kinds: seq<Kind>, rows: seq<Row>, out: seq<Row>) {
    && Ascending(Keys(out)) && HasGroups(rows, out)
    && (forall i :: 0 <= i < |out| ==>
          |out[i].vals| == |kinds|
          && forall j :: 0 <= j < |kinds| ==> IsTotal(kinds[j], Present(Column(rows, out[i].key, j)), out[i].vals[j]))
  }

  /** The groups in the order of the code, each with what it keeps value by value. */
  ghost predicate IsComputed(kinds: seq<Kind>, rows: seq<Row>, out: seq<Row>) {
    && CodeAscending(Keys(out)) && HasGroups(rows, out)
    && (forall i :: 0 <= i < |out| ==>
          |out[i].vals| == |kinds|
          && forall j :: 0 <= j < |kinds| ==> out[i].vals[j] == Output(kinds[j], Accumulated(kinds[j], Column(rows, out[i].key, j))))
  }

  // ---- one value at a time ------------------------------------------------------------------------

  predicate TakesCells(kind: Kind) { kind == MINS || kind == MAXS }

  /** What the table keeps for a group and an aggregate. */
  datatype Acc = Acc(val: Val, count: nat)

  function Initial(kind: Kind): Acc {
    Acc(if kind == COUNTS then Num(0.0) else Null, 0)
  }

  function Advance(kind: Kind, acc: Acc, v: Val): Acc {
    if v.Null? then acc
    else Acc(match kind
             case COUNTS => Num(Number(acc.val) + 1.0)
             case SUMS => Num(Number(acc.val) + Number(v))
             case AVGS => Num(Number(acc.val) + Number(v))
             case MAXS => if acc.val.Null? || Cmp(v, acc.val) > 0 then v else acc.val
             case MINS => if acc.val.Null? || Cmp(v, acc.val) < 0 then v else acc.val,
             acc.count + 1)
  }

  function Accumulated(kind: Kind, vs: seq<Val>): Acc {
    if vs == [] then Initial(kind)
    else Advance(kind, Accumulated(kind, vs[..|vs| - 1]), vs[|vs| - 1])
  }

  /** The value put out for what was kept. */
  function Output(kind: Kind, acc: Acc): Val {
    if kind == AVGS && !acc.val.Null? && acc.count > 0 then Num(Number(acc.val) / acc.count as real) else acc.val
  }

  lemma {:induction false} PresentAre(vs: seq<Val>)
    ensures |Present(vs)| <= |vs| && forall v :: v in Present(vs) <==> v in vs && v != Null
  {
    if vs != [] {
      var before, last := vs[..|vs| - 1], vs[|vs| - 1];
      PresentAre(before);
      assert vs == before + [last];
    }
  }

  lemma {:induction false} AccumulatedCount(kind: Kind, vs: seq<Val>)
    ensures Accumulated(kind, vs).count == |Present(vs)|
    ensures kind == COUNTS ==> Accumulated(kind, vs).val == Num(|Present(vs)| as real)
  {
    hide Present, Cmp;
    PresentNone();
    if vs != [] {
      var before, last := vs[..|vs| - 1], vs[|vs| - 1];
      AccumulatedCount(kind, before);
      assert vs == before + [last];
      PresentSnoc(before, last);
    }
  }

  lemma {:induction false} AccumulatedSum(kind: Kind, vs: seq<Val>)
    requires kind == SUMS || kind == AVGS
    ensures Accumulated(kind, vs).val == if Present(vs) == [] then Null else Num(Sum(Present(vs)))
  {
    hide Present, Sum, Cmp;
    PresentNone();
    SumNone();
    if vs != [] {
      var before, last := vs[..|vs| - 1], vs[|vs| - 1];
      AccumulatedSum(kind, before);
      assert vs == before + [last];
      PresentSnoc(before, last);
      assert Present(before) + [] == Present(before);
      SumSnoc(Present(before), last);
    }
  }

  lemma {:induction false} AccumulatedExtreme(kind: Kind, vs: seq<Val>)
    requires TakesCells(kind) && Close(vs)
    ensures IsTotal(kind, Present(vs), Accumulated(kind, vs).val)
  {
    if vs != [] {
      var before, last := vs[..|vs| - 1], vs[|vs| - 1];
      AccumulatedExtreme(kind, before);
      if last.Null? {
        assert Present(vs) == Present(before);
      } else {
        ExtremeSnoc(kind, vs);
      }
    }
  }

  /** Keeping totals value by value gives the aggregate of the values that are not null; for the
      extremes, provided the values are close. */
  lemma AccumulatedIsTotal(kind: Kind, vs: seq<Val>)
    requires TakesCells(kind) ==> Close(vs)
    ensures IsTotal(kind, Present(vs), Output(kind, Accumulated(kind, vs))) && Accumulated(kind, vs).count == |Present(vs)|
  {
    hide Accumulated, Present, Sum, Close;
    AccumulatedCount(kind, vs);
    if TakesCells(kind) {
      AccumulatedExtreme(kind, vs);
    } else if kind != COUNTS {
      AccumulatedSum(kind, vs);
    }
  }

  lemma SumSnoc(xs: seq<Val>, x: Val)
    ensures Sum(xs + [x]) == Sum(xs) + Number(x)
  {
    assert (xs + [x])[..|xs|] == xs;
  }

  lemma ExtremeSnoc(kind: Kind, vs: seq<Val>)
    requires TakesCells(kind) && Close(vs) && vs != [] && !vs[|vs| - 1].Null?
    requires IsTotal(kind, Present(vs[..|vs| - 1]), Accumulated(kind, vs[..|vs| - 1]).val)
    ensures IsTotal(kind, Present(vs), Accumulated(kind, vs).val)
  {
    hide Cmp, Present, Advance, Close, CloseVals;
    var before, last := vs[..|vs| - 1], vs[|vs| - 1];
    var xs, kept := Present(before), Accumulated(kind, before);
    assert vs == before + [last];
    PresentSnoc(before, last);
    PresentAre(before);
    if xs != [] {
      LastIsClose(vs, kept.val);
    } else {
      assert CloseVals(last, kept.val) by { NullIsClose(last); }
    }
    ExtremeGrows(kind, xs, kept, last);
  }

  lemma NullIsClose(v: Val)
    ensures CloseVals(v, Null)
  {
  }

  /** One more value changes the extreme as Advance does. */
  lemma ExtremeGrows(kind: Kind, xs: seq<Val>, acc: Acc, x: Val)
    requires TakesCells(kind) && IsTotal(kind, xs, acc.val) && Null !in xs && !x.Null? && CloseVals(x, acc.val)
    ensures IsTotal(kind, xs + [x], Advance(kind, acc, x).val)
  {
    hide Cmp, CloseVals;
    CmpIsRight(x, acc.val);
    var all := xs + [x];
    assert all[|xs|] == x && forall k :: 0 <= k < |xs| ==> all[k] == xs[k];
    if xs != [] { assert acc.val in xs && acc.val in all; }
  }

  lemma LastIsClose(vs: seq<Val>, v: Val)
    requires Close(vs) && vs != [] && v in vs[..|vs| - 1]
    ensures CloseVals(vs[|vs| - 1], v)
  {
    var i :| 0 <= i < |vs| - 1 && vs[..|vs| - 1][i] == v;
    assert vs[i] == v;
  }

  lemma PresentNone()
    ensures Present([]) == []
  {
  }

  lemma SumNone()
    ensures Sum([]) == 0.0
  {
  }

  lemma PresentSnoc(vs: seq<Val>, v: Val)
    ensures Present(vs + [v]) == Present(vs) + if v.Null? then [] else [v]
  {
    assert (vs + [v])[..|vs|] == vs;
  }

  // ---- values that are far apart ----------------------------------------------------------------------

  /** The lesser of 2000000000 and -2000000000, and the greater, are what comes first. */
  lemma FarApart()
    ensures var vs := [Int(2000000000), Int(-2000000000)];
      Accumulated(MINS, vs).val == Int(2000000000) && !IsTotal(MINS, Present(vs), Accumulated(MINS, vs).val)
    ensures var vs := [Int(-2000000000), Int(2000000000)];
      Accumulated(MAXS, vs).val == Int(-2000000000) && !IsTotal(MAXS, Present(vs), Accumulated(MAXS, vs).val)
  {
    FirstStays(MINS, Int(2000000000), Int(-2000000000));
    FirstStays(MAXS, Int(-2000000000), Int(2000000000));
  }

  lemma FirstStays(kind: Kind, a: Val, b: Val)
    requires a.Int? && b.Int? && a.i != b.i
    requires if kind == MINS then Cmp(b, a) >= 0 && b.i < a.i else kind == MAXS && Cmp(b, a) <= 0 && a.i < b.i
    ensures Accumulated(kind, [a, b]).val == a && !IsTotal(kind, Present([a, b]), a)
  {
    assert [a, b][..1] == [a] && [a][..0] == [];
    assert Accumulated(kind, [a]).val == a;
    assert Present([a]) == [a];
    assert Present([a, b]) == [a, b];
    assert Number([a, b][1]) == b.i as real;
  }

  /** The column is one of integers. */
  predicate AreInts(vs: seq<Val>) {
    forall i :: 0 <= i < |vs| ==> !vs[i].Num?
  }

  predicate NoNulls(vs: seq<Val>) {
    forall i :: 0 <= i < |vs| ==> vs[i].Int?
  }

  lemma {:induction false} Extremes(vs: seq<Val>) returns (l: nat, g: nat)
    requires vs != [] && NoNulls(vs)
    ensures l < |vs| && g < |vs| && forall i :: 0 <= i < |vs| ==> vs[l].i <= vs[i].i <= vs[g].i
  {
    l, g := 0, 0;
    if |vs| > 1 {
      var m, h := Extremes(vs[1..]);
      assert forall i :: 0 < i < |vs| ==> vs[i] == vs[1..][i - 1];
      if vs[m + 1].i < vs[0].i { l := m + 1; }
      if vs[h + 1].i > vs[0].i { g := h + 1; }
    }
  }

  lemma LastTwo(kind: Kind, rest: seq<Val>, m: Val, h: Val)
    ensures Accumulated(kind, rest + [m, h]) == Advance(kind, Advance(kind, Accumulated(kind, rest), m), h)
  {
    assert (rest + [m, h])[..|rest| + 1] == rest + [m];
    assert (rest + [m])[..|rest|] == rest;
  }

  /** The least and the greatest of some integers of which two are too far apart. */
  lemma LeastAndGreatest(vs: seq<Val>) returns (m: Val, h: Val)
    requires NoNulls(vs) && !Close(vs)
    ensures m in vs && h in vs && m.Int? && h.Int? && h.i - m.i >= 0x8000_0000
    ensures forall v :: v in vs ==> v.Int? && m.i <= v.i <= h.i
  {
    var i, j :| 0 <= i < |vs| && 0 <= j < |vs| && !CloseVals(vs[i], vs[j]);
    var l, g := Extremes(vs);
    m, h := vs[l], vs[g];
  }

  lemma SomePlace<T>(vs: seq<T>, x: T) returns (k: nat)
    requires x in vs
    ensures k < |vs| && vs[k] == x
  {
    k :| 0 <= k < |vs| && vs[k] == x;
  }

  lemma StillThere<T>(vs: seq<T>, k: nat, h: T)
    requires k < |vs| && h in vs && h != vs[k]
    ensures h in Without(vs, k)
  {
    assert h in multiset(Without(vs, k));
  }

  lemma PutBack<T>(vs: seq<T>, others: seq<T>, rest: seq<T>, m: T, h: T)
    requires multiset(vs) == multiset(others) + multiset{m} && multiset(others) == multiset(rest) + multiset{h}
    ensures multiset(rest + [m, h]) == multiset(vs)
  {
    assert multiset([m, h]) == multiset{m} + multiset{h};
  }

  lemma TakeOut<T>(vs: seq<T>, m: T, h: T) returns (rest: seq<T>)
    requires m in vs && h in vs && m != h
    ensures multiset(rest + [m, h]) == multiset(vs)
  {
    var k := SomePlace(vs, m);
    var others := Without(vs, k);
    StillThere(vs, k, h);
    var l := SomePlace(others, h);
    rest := Without(others, l);
    PutBack(vs, others, rest, m, h);
  }

  /** Integers of which some are too far apart, in an order in which their least is not found: it comes
      before the greatest at the end. */
  lemma BadOrderForMin(vs: seq<Val>) returns (ws: seq<Val>)
    requires NoNulls(vs) && !Close(vs)
    ensures multiset(ws) == multiset(vs) && !IsTotal(MINS, ws, Accumulated(MINS, ws).val)
  {
    hide Accumulated, Close;
    var m, h := LeastAndGreatest(vs);
    var rest := TakeOut(vs, m, h);
    ws := rest + [m, h];
    SameMembers(ws, vs);
    forall i | 0 <= i < |rest| ensures rest[i].Int? {
      assert ws[i] in vs;
    }
    assert forall v :: v in rest ==> v in ws;
    MinIsAbove(rest, m, h);
    assert m in ws;
    NotLeast(ws, m, Accumulated(MINS, ws).val);
  }

  lemma NotLeast(vs: seq<Val>, m: Val, r: Val)
    requires m in vs && m.Int? && r.Int? && m.i < r.i
    ensures !IsTotal(MINS, vs, r)
  {
    var k :| 0 <= k < |vs| && vs[k] == m;
    assert Number(vs[k]) < Number(r);
  }

  /** What is kept of more values is what has been kept, or one of them. */
  lemma {:induction false} KeptOrLater(kind: Kind, a: seq<Val>, b: seq<Val>)
    requires TakesCells(kind) && NoNulls(b)
    ensures var r := Accumulated(kind, a + b).val; r == Accumulated(kind, a).val || r in b
    decreases |b|
  {
    hide Cmp;
    if b == [] {
      assert a + b == a;
    } else {
      var n := |b| - 1;
      KeptOrLater(kind, a, b[..n]);
      assert (a + b)[..|a| + n] == a + b[..n];
      assert b == b[..n] + [b[n]];
    }
  }

  lemma MinIsAbove(rest: seq<Val>, m: Val, h: Val)
    requires NoNulls(rest) && m.Int? && h.Int? && h.i - m.i >= 0x8000_0000
    requires forall v :: v in rest ==> v.Int? && m.i <= v.i
    ensures var r := Accumulated(MINS, rest + [m, h]).val; r.Int? && m.i < r.i
  {
    LastTwo(MINS, rest, m, h);
    KeptOrLater(MINS, [], rest);
    assert [] + rest == rest;
  }

  /** The same for the greatest: the least comes first, and then it. */
  lemma BadOrderForMax(vs: seq<Val>) returns (ws: seq<Val>)
    requires NoNulls(vs) && !Close(vs)
    ensures multiset(ws) == multiset(vs) && !IsTotal(MAXS, ws, Accumulated(MAXS, ws).val)
  {
    hide Accumulated, Close, Keep;
    var m, h := LeastAndGreatest(vs);
    var copies, others := Keep(vs, v => v == h), Keep(vs, v => v != h);
    KeepParts(vs, v => v == h, v => v != h);
    KeepHas(vs, v => v != h, m);
    var k := SomePlace(others, m);
    var rest := Without(others, k);
    ws := ([m] + copies) + rest;
    Rearranged(vs, copies, others, rest, m);
    forall i | 0 <= i < |copies| ensures copies[i] == h { KeepHas(vs, v => v == h, copies[i]); }
    forall v | v in rest ensures v in vs && v != h {
      assert v in multiset(others);
      KeepHas(vs, v => v != h, v);
    }
    FirstIsKept(m, h, copies);
    KeptOrLater(MAXS, [m] + copies, rest);
    SameMembers(ws, vs);
    NotGreatest(ws, h, Accumulated(MAXS, ws).val);
  }

  lemma {:induction false} KeepParts(vs: seq<Val>, p: Val -> bool, q: Val -> bool)
    requires forall v :: p(v) <==> !q(v)
    ensures multiset(Keep(vs, p)) + multiset(Keep(vs, q)) == multiset(vs)
  {
    if vs != [] {
      KeepParts(vs[1..], p, q);
      assert vs == [vs[0]] + vs[1..];
    }
  }

  lemma Rearranged(vs: seq<Val>, copies: seq<Val>, others: seq<Val>, rest: seq<Val>, m: Val)
    requires multiset(copies) + multiset(others) == multiset(vs) && multiset(rest) == multiset(others) - multiset{m} && m in others
    ensures multiset(([m] + copies) + rest) == multiset(vs)
  {
    assert multiset(others) == multiset(rest) + multiset{m};
    assert multiset([m] + copies) == multiset{m} + multiset(copies);
  }

  /** A greatest value that is too far from the first never takes its place. */
  lemma {:induction false} FirstIsKept(m: Val, h: Val, copies: seq<Val>)
    requires m.Int? && h.Int? && h.i - m.i >= 0x8000_0000 && forall i :: 0 <= i < |copies| ==> copies[i] == h
    ensures Accumulated(MAXS, [m] + copies).val == m
    decreases |copies|
  {
    if copies == [] {
      assert [m] + copies == [m] && [m][..0] == [];
    } else {
      var n := |copies| - 1;
      FirstIsKept(m, h, copies[..n]);
      assert ([m] + copies)[..n + 1] == [m] + copies[..n];
      assert Cmp(h, m) < 0;
    }
  }

  lemma NotGreatest(vs: seq<Val>, h: Val, r: Val)
    requires h in vs && h.Int? && r.Int? && r.i < h.i
    ensures !IsTotal(MAXS, vs, r)
  {
    var k :| 0 <= k < |vs| && vs[k] == h;
    assert Number(r) < Number(vs[k]);
  }

  // ---- nulls do not count --------------------------------------------------------------------------

  function Nulls(n: nat): (r: seq<Val>)
    ensures |r| == n && forall i :: 0 <= i < n ==> r[i] == Null
  {
    seq(n, _ => Null)
  }

  lemma {:induction false} PresentAndNulls(vs: seq<Val>) returns (n: nat)
    ensures multiset(Present(vs) + Nulls(n)) == multiset(vs)
  {
    if vs == [] {
      n := 0;
    } else {
      var before, last := vs[..|vs| - 1], vs[|vs| - 1];
      n := PresentAndNulls(before);
      assert vs == before + [last];
      if last.Null? {
        assert Present(vs) + Nulls(n + 1) == (Present(before) + Nulls(n)) + [Null];
        n := n + 1;
      } else {
        assert multiset((Present(before) + [last]) + Nulls(n)) == multiset(Present(before) + Nulls(n)) + multiset{last};
      }
    }
  }

  lemma {:induction false} NullsChangeNothing(kind: Kind, ws: seq<Val>, n: nat)
    ensures Accumulated(kind, ws + Nulls(n)) == Accumulated(kind, ws) && Present(ws + Nulls(n)) == Present(ws)
  {
    if n == 0 {
      assert ws + Nulls(0) == ws;
    } else {
      NullsChangeNothing(kind, ws, n - 1);
      assert ws + Nulls(n) == (ws + Nulls(n - 1)) + [Null];
      assert (ws + Nulls(n))[..|ws| + n - 1] == ws + Nulls(n - 1);
    }
  }

  lemma {:induction false} AllPresent(vs: seq<Val>)
    requires NoNulls(vs)
    ensures Present(vs) == vs
  {
    if vs != [] {
      AllPresent(vs[..|vs| - 1]);
      assert vs == vs[..|vs| - 1] + [vs[|vs| - 1]];
    }
  }

  lemma PresentIsClose(vs: seq<Val>)
    requires AreInts(vs)
    ensures NoNulls(Present(vs)) && (Close(Present(vs)) ==> Close(vs))
  {
    hide Present;
    PresentAre(vs);
    var ps := Present(vs);
    forall i | 0 <= i < |ps| ensures ps[i].Int? { assert ps[i] in vs; }
    if Close(ps) {
      forall i, j | 0 <= i < |vs| && 0 <= j < |vs| ensures CloseVals(vs[i], vs[j]) {
        if vs[i].Int? && vs[j].Int? {
          assert vs[i] in ps && vs[j] in ps;
          var k :| 0 <= k < |ps| && ps[k] == vs[i];
          var l :| 0 <= l < |ps| && ps[l] == vs[j];
          assert CloseVals(ps[k], ps[l]);
        }
      }
    }
  }

  /** Integers of which some are too far apart, in an order in which their extreme is not found. */
  lemma BadOrder(kind: Kind, vs: seq<Val>) returns (ws: seq<Val>)
    requires TakesCells(kind) && AreInts(vs) && !Close(vs)
    ensures multiset(ws) == multiset(vs) && !IsTotal(kind, Present(ws), Accumulated(kind, ws).val)
  {
    hide Accumulated, Present, Close, IsTotal;
    PresentIsClose(vs);
    var ints;
    if kind == MINS { ints := BadOrderForMin(Present(vs)); } else { ints := BadOrderForMax(Present(vs)); }
    var n := PresentAndNulls(vs);
    ws := ints + Nulls(n);
    forall i | 0 <= i < |ints| ensures ints[i].Int? {
      assert ints[i] in multiset(Present(vs));
    }
    AllPresent(ints);
    NullsChangeNothing(kind, ints, n);
  }

  /** The extreme of a column of integers is found in whatever order they come, if and only if they are
      close. */
  lemma ExtremeInEveryOrder(kind: Kind, vs: seq<Val>)
    requires TakesCells(kind) && AreInts(vs)
    ensures Close(vs) <==> forall ws :: multiset(ws) == multiset(vs) ==> IsTotal(kind, Present(ws), Accumulated(kind, ws).val)
  {
    hide IsTotal, Present, Accumulated;
    if Close(vs) {
      forall ws | multiset(ws) == multiset(vs) ensures IsTotal(kind, Present(ws), Accumulated(kind, ws).val) {
        ClosePermutes(vs, ws);
        AccumulatedIsTotal(kind, ws);
        OutputOfExtreme(kind, Accumulated(kind, ws));
      }
    } else {
      var ws := BadOrder(kind, vs);
    }
  }

  /** The least. */
  lemma LeastInEveryOrder(vs: seq<Val>)
    requires AreInts(vs)
    ensures Close(vs) <==> forall ws :: multiset(ws) == multiset(vs) ==> IsTotal(MINS, Present(ws), Accumulated(MINS, ws).val)
  {
    hide IsTotal, Present, Accumulated, Close;
    ExtremeInEveryOrder(MINS, vs);
  }

  /** The greatest. */
  lemma GreatestInEveryOrder(vs: seq<Val>)
    requires AreInts(vs)
    ensures Close(vs) <==> forall ws :: multiset(ws) == multiset(vs) ==> IsTotal(MAXS, Present(ws), Accumulated(MAXS, ws).val)
  {
    hide IsTotal, Present, Accumulated, Close;
    ExtremeInEveryOrder(MAXS, vs);
  }

  lemma OutputOfExtreme(kind: Kind, acc: Acc)
    requires TakesCells(kind)
    ensures Output(kind, acc) == acc.val
  {
  }

  lemma ClosePermutes(vs: seq<Val>, ws: seq<Val>)
    requires Close(vs) && multiset(ws) == multiset(vs)
    ensures Close(ws)
  {
    SameMembers(ws, vs);
    forall i, j | 0 <= i < |ws| && 0 <= j < |ws| ensures CloseVals(ws[i], ws[j]) {
      assert ws[i] in vs && ws[j] in vs;
      var k :| 0 <= k < |vs| && vs[k] == ws[i];
      var l :| 0 <= l < |vs| && vs[l] == ws[j];
      assert CloseVals(vs[k], vs[l]);
    }
  }

  // ---- the order of the rows does not matter -----------------------------------------------------

  lemma {:induction false} SumWithout(vs: seq<Val>, k: nat)
    requires k < |vs|
    ensures Sum(vs) == Sum(Without(vs, k)) + Number(vs[k])
  {
    var n := |vs| - 1;
    if k == n {
      assert Without(vs, k) == vs[..n];
    } else {
      SumWithout(vs[..n], k);
      assert Without(vs, k) == Without(vs[..n], k) + [vs[n]];
      SumSnoc(Without(vs[..n], k), vs[n]);
    }
  }

  lemma {:induction false} SumOfPermutation(vs: seq<Val>, ws: seq<Val>)
    requires multiset(vs) == multiset(ws)
    ensures Sum(vs) == Sum(ws)
    decreases |vs|
  {
    if vs == [] {
      assert |multiset(ws)| == 0;
    } else {
      var k := PlaceIn(vs, ws);
      SumOfPermutation(Without(vs, 0), Without(ws, k));
      SumWithout(vs, 0);
      SumWithout(ws, k);
    }
  }

  lemma ColumnSnoc(rows: seq<Row>, row: Row, key: Key, i: nat)
    ensures Column(rows + [row], key, i) == Column(rows, key, i) + ColumnOfRow(row, key, i)
  {
    assert (rows + [row])[..|rows|] == rows;
  }

  lemma {:induction false} ColumnWithout(rows: seq<Row>, key: Key, i: nat, k: nat)
    requires k < |rows|
    ensures multiset(Column(rows, key, i)) == multiset(Column(Without(rows, k), key, i)) + multiset(ColumnOfRow(rows[k], key, i))
  {
    hide ColumnOfRow, Column;
    var n := |rows| - 1;
    assert rows == rows[..n] + [rows[n]];
    ColumnSnoc(rows[..n], rows[n], key, i);
    if k == n {
      assert Without(rows, k) == rows[..n];
    } else {
      var rest := Without(rows[..n], k);
      ColumnWithout(rows[..n], key, i, k);
      assert Without(rows, k) == rest + [rows[n]];
      ColumnSnoc(rest, rows[n], key, i);
    }
  }

  lemma {:induction false} ColumnOfPermutation(rows: seq<Row>, other: seq<Row>, key: Key, i: nat)
    requires multiset(rows) == multiset(other)
    ensures multiset(Column(rows, key, i)) == multiset(Column(other, key, i))
    decreases |rows|
  {
    if rows == [] {
      assert |multiset(other)| == 0;
    } else {
      var k := PlaceIn(rows, other);
      ColumnOfPermutation(Without(rows, 0), Without(other, k), key, i);
      ColumnWithout(rows, key, i, 0);
      ColumnWithout(other, key, i, k);
    }
  }

  lemma {:induction false} PresentWithout(vs: seq<Val>, k: nat)
    requires k < |vs|
    ensures multiset(Present(vs)) == multiset(Present(Without(vs, k))) + if vs[k].Null? then multiset{} else multiset{vs[k]}
  {
    hide Present;
    var n := |vs| - 1;
    assert vs == vs[..n] + [vs[n]];
    PresentSnoc(vs[..n], vs[n]);
    if k == n {
      assert Without(vs, k) == vs[..n];
    } else {
      var rest := Without(vs[..n], k);
      PresentWithout(vs[..n], k);
      assert Without(vs, k) == rest + [vs[n]];
      PresentSnoc(rest, vs[n]);
    }
  }

  lemma {:induction false} PresentOfPermutation(vs: seq<Val>, ws: seq<Val>)
    requires multiset(vs) == multiset(ws)
    ensures multiset(Present(vs)) == multiset(Present(ws))
    decreases |vs|
  {
    if vs == [] {
      assert |multiset(ws)| == 0;
    } else {
      var k := PlaceIn(vs, ws);
      PresentOfPermutation(Without(vs, 0), Without(ws, k));
      PresentWithout(vs, 0);
      PresentWithout(ws, k);
    }
  }

  /** Values of one type, and integers that are close. */
  predicate Alike(a: Val, b: Val) {
    CloseVals(a, b) && (!a.Null? && !b.Null? ==> a.Int? == b.Int?)
  }

  /** The aggregate is determined by the values, whatever their order. */
  lemma TotalIsDetermined(kind: Kind, vs: seq<Val>, ws: seq<Val>, r: Val, s: Val)
    requires multiset(vs) == multiset(ws) && IsTotal(kind, vs, r) && IsTotal(kind, ws, s)
    requires TakesCells(kind) ==> forall a, b :: a in vs && b in vs ==> !a.Null? && Alike(a, b)
    ensures r == s
  {
    SameMembers(vs, ws);
    SumOfPermutation(vs, ws);
    if TakesCells(kind) && vs != [] {
      assert r in ws && s in vs;
    }
  }

  /** The least key is the first one. */
  lemma FirstIsLeast(a: seq<Key>, k: Key)
    requires Ascending(a) && a != [] && k in a && |k| == |a[0]|
    ensures !Below(k, a[0])
  {
    BelowIsTotal(a[0], k);
  }

  lemma {:induction false} SameKeys(a: seq<Key>, b: seq<Key>)
    requires Ascending(a) && Ascending(b) && (forall k :: k in a <==> k in b)
    requires forall k, m :: k in a && m in a ==> |k| == |m|
    ensures a == b
    decreases |a|
  {
    if a == [] {
      SomeMember(b);
    } else {
      assert a[0] in b;
      assert b[0] in a;
      FirstIsLeast(a, b[0]);
      FirstIsLeast(b, a[0]);
      BelowIsTotal(a[0], b[0]);
      forall k ensures k in a[1..] <==> k in b[1..] {
        TailMember(a, k);
        TailMember(b, k);
      }
      SameKeys(a[1..], b[1..]);
      assert a == [a[0]] + a[1..] && b == [b[0]] + b[1..];
    }
  }

  lemma TailMember(a: seq<Key>, k: Key)
    requires Ascending(a) && a != []
    ensures k in a[1..] <==> k in a && k != a[0]
  {
    BelowIsTotal(a[0], a[0]);
    assert a == [a[0]] + a[1..];
    if k in a[1..] {
      var i :| 0 <= i < |a| - 1 && a[1..][i] == k;
      assert Below(a[0], a[i + 1]);
    }
  }

  lemma KeysAreThose(kinds: seq<Kind>, rows: seq<Row>, out: seq<Row>)
    requires IsAggregation(kinds, rows, out)
    ensures Ascending(Keys(out)) && forall k :: k in Keys(out) <==> HasKey(rows, k)
  {
    forall k ensures k in Keys(out) <==> HasKey(rows, k) {
      if k in Keys(out) {
        var i :| 0 <= i < |out| && Keys(out)[i] == k;
        assert HasKey(rows, out[i].key);
      }
      if HasKey(rows, k) {
        var j :| 0 <= j < |rows| && rows[j].key == k;
        assert HasKey(out, rows[j].key);
        var i :| 0 <= i < |out| && out[i].key == k;
        assert Keys(out)[i] == k;
      }
    }
  }

  /** Under an aggregate of extremes all values of a group are of one type and close. */
  predicate ColumnsAlike(kinds: seq<Kind>, rows: seq<Row>) {
    forall j, k, l ::
      (0 <= j < |kinds| && TakesCells(kinds[j]) && 0 <= k < |rows| && 0 <= l < |rows| && rows[k].key == rows[l].key
       && j < |rows[k].vals| && j < |rows[l].vals|) ==> Alike(rows[k].vals[j], rows[l].vals[j])
  }

  lemma {:induction false} ColumnFrom(rows: seq<Row>, key: Key, i: nat, v: Val) returns (k: nat)
    requires v in Column(rows, key, i)
    ensures k < |rows| && i < |rows[k].vals| && rows[k].vals[i] == v && rows[k].key == key
  {
    var n := |rows| - 1;
    if v in Column(rows[..n], key, i) {
      k := ColumnFrom(rows[..n], key, i, v);
    } else {
      k := n;
    }
  }

  lemma ColumnIsAlike(kinds: seq<Kind>, rows: seq<Row>, key: Key, j: nat)
    requires ColumnsAlike(kinds, rows) && j < |kinds| && TakesCells(kinds[j])
    ensures forall a, b :: a in Column(rows, key, j) && b in Column(rows, key, j) ==> Alike(a, b)
    ensures Close(Column(rows, key, j))
  {
    var c := Column(rows, key, j);
    forall a, b | a in c && b in c ensures Alike(a, b) {
      var k := ColumnFrom(rows, key, j, a);
      var l := ColumnFrom(rows, key, j, b);
      assert Alike(rows[k].vals[j], rows[l].vals[j]);
    }
    assert forall i :: 0 <= i < |c| ==> c[i] in c;
  }

  /** The aggregation is determined by the rows, whatever their order. */
  lemma OrderDoesNotMatter(kinds: seq<Kind>, n: nat, rows: seq<Row>, other: seq<Row>, out: seq<Row>, out': seq<Row>)
    requires (forall k :: 0 <= k < |rows| ==> |rows[k].key| == n) && ColumnsAlike(kinds, rows)
    requires multiset(rows) == multiset(other) && IsAggregation(kinds, rows, out) && IsAggregation(kinds, other, out')
    ensures out == out'
  {
    hide IsTotal;
    KeysAreThose(kinds, rows, out);
    KeysAreThose(kinds, other, out');
    SameMembers(rows, other);
    forall k ensures HasKey(rows, k) <==> HasKey(other, k) {
      if HasKey(rows, k) {
        var j :| 0 <= j < |rows| && rows[j].key == k;
        assert rows[j] in other;
      }
      if HasKey(other, k) {
        var j :| 0 <= j < |other| && other[j].key == k;
        assert other[j] in rows;
      }
    }
    SameKeys(Keys(out), Keys(out'));
    forall i | 0 <= i < |out| ensures out[i] == out'[i] {
      assert Keys(out)[i] == Keys(out')[i];
      forall j | 0 <= j < |kinds| ensures out[i].vals[j] == out'[i].vals[j] {
        var c, c' := Column(rows, out[i].key, j), Column(other, out[i].key, j);
        ColumnOfPermutation(rows, other, out[i].key, j);
        PresentOfPermutation(c, c');
        PresentAre(c);
        if TakesCells(kinds[j]) { ColumnIsAlike(kinds, rows, out[i].key, j); }
        TotalIsDetermined(kinds[j], Present(c), Present(c'), out[i].vals[j], out'[i].vals[j]);
      }
    }
  }

  // ---- the table ------------------------------------------------------------------------------------

  /** For each aggregate, the cell with the value and how many values it stands for. */
  datatype Totals = Totals(cells: seq<nat>, counts: seq<nat>)

  /** A tuple of the child executor holds its values in cells. */
  datatype Tuple = Tuple(key: Key, cells: seq<nat>)

  function RowOf(store: seq<Val>, t: Tuple): (r: Row)
    requires forall i :: 0 <= i < |t.cells| ==> t.cells[i] < |store|
    ensures r.key == t.key && |r.vals| == |t.cells| && forall i :: 0 <= i < |t.cells| ==> r.vals[i] == store[t.cells[i]]
  {
    Row(t.key, seq(|t.cells|, i requires 0 <= i < |t.cells| => store[t.cells[i]]))
  }

  /** Values are objects that are shared by reference: `store` holds them all, those below
      `shared` being those of the tuples; `owners` says for which group and aggregate each of the
      others has been made. */
  datatype Heap = Heap(store: seq<Val>, ht: map<Key, Totals>, owners: seq<(Key, nat)>)

  function AccIn(h: Heap, k: Key, i: nat): Acc {
    if k in h.ht && i < |h.ht[k].cells| && i < |h.ht[k].counts| && h.ht[k].cells[i] < |h.store|
    then Acc(h.store[h.ht[k].cells[i]], h.ht[k].counts[i])
    else Acc(Null, 0)
  }

  /** Only MIN and MAX hold a cell of a tuple. */
  predicate CellOk(kinds: seq<Kind>, shared: nat, h: Heap, k: Key, i: nat)
    requires k in h.ht && i < |kinds| && i < |h.ht[k].cells|
  {
    var c := h.ht[k].cells[i];
    && c < |h.store| && |h.owners| == |h.store| - shared
    && (if c < shared then TakesCells(kinds[i]) else h.owners[c - shared] == (k, i))
    && (kinds[i] == COUNTS ==> h.store[c].Num?)
  }

  ghost predicate HeapOk(kinds: seq<Kind>, shared: nat, h: Heap) {
    && |h.owners| == |h.store| - shared
    && (forall k :: k in h.ht ==> |h.ht[k].cells| == |h.ht[k].counts| == |kinds|)
    && (forall k, i :: k in h.ht && 0 <= i < |kinds| ==> CellOk(kinds, shared, h, k, i))
  }

  /** Only the totals of one aggregate of one group differ, and the cells of the tuples do not. */
  ghost predicate OnlyAt(kinds: seq<Kind>, shared: nat, h: Heap, d: Heap, k: Key, i: nat, acc: Acc) {
    && HeapOk(kinds, shared, d) && d.ht.Keys == h.ht.Keys && |d.store| >= |h.store| >= shared
    && d.store[..shared] == h.store[..shared] && AccIn(d, k, i) == acc
    && forall m, j :: m in h.ht && 0 <= j < |kinds| && (m != k || j != i) ==> AccIn(d, m, j) == AccIn(h, m, j)
  }

  function SetSlot(t: Totals, i: nat, c: nat): Totals
    requires i < |t.cells| && i < |t.counts|
  {
    Totals(t.cells[i := c], t.counts[i := t.counts[i] + 1])
  }

  /** The slot is made to hold a cell of a tuple. */
  lemma PointKeeps(kinds: seq<Kind>, shared: nat, h: Heap, k: Key, i: nat, c: nat)
    requires HeapOk(kinds, shared, h) && k in h.ht && i < |kinds| && TakesCells(kinds[i])
    requires c < shared || c == h.ht[k].cells[i]
    ensures c < |h.store|
    ensures OnlyAt(kinds, shared, h, h.(ht := h.ht[k := SetSlot(h.ht[k], i, c)]), k, i, Acc(h.store[c], h.ht[k].counts[i] + 1))
  {
    var d := h.(ht := h.ht[k := SetSlot(h.ht[k], i, c)]);
    assert CellOk(kinds, shared, h, k, i);
    forall m, j | m in d.ht && 0 <= j < |kinds| ensures CellOk(kinds, shared, d, m, j) {
      assert CellOk(kinds, shared, h, m, j);
    }
  }

  /** The slot's own cell is written. */
  lemma WriteKeeps(kinds: seq<Kind>, shared: nat, h: Heap, k: Key, i: nat, x: real)
    requires HeapOk(kinds, shared, h) && k in h.ht && i < |kinds| && !TakesCells(kinds[i])
    ensures h.ht[k].cells[i] < |h.store|
    ensures var c := h.ht[k].cells[i];
      OnlyAt(kinds, shared, h, h.(ht := h.ht[k := SetSlot(h.ht[k], i, c)], store := h.store[c := Num(x)]), k, i, Acc(Num(x), h.ht[k].counts[i] + 1))
  {
    assert CellOk(kinds, shared, h, k, i);
    var c := h.ht[k].cells[i];
    var d := h.(ht := h.ht[k := SetSlot(h.ht[k], i, c)], store := h.store[c := Num(x)]);
    forall m, j | m in d.ht && 0 <= j < |kinds|
      ensures CellOk(kinds, shared, d, m, j) && ((m != k || j != i) ==> AccIn(d, m, j) == AccIn(h, m, j))
    {
      assert CellOk(kinds, shared, h, m, j);
    }
  }

  /** The slot gets a new cell. */
  lemma NewCellKeeps(kinds: seq<Kind>, shared: nat, h: Heap, k: Key, i: nat, x: real)
    requires HeapOk(kinds, shared, h) && k in h.ht && i < |kinds|
    ensures OnlyAt(kinds, shared, h,
                   Heap(h.store + [Num(x)], h.ht[k := SetSlot(h.ht[k], i, |h.store|)], h.owners + [(k, i)]),
                   k, i, Acc(Num(x), h.ht[k].counts[i] + 1))
  {
    var d := Heap(h.store + [Num(x)], h.ht[k := SetSlot(h.ht[k], i, |h.store|)], h.owners + [(k, i)]);
    forall m, j | m in d.ht && 0 <= j < |kinds|
      ensures CellOk(kinds, shared, d, m, j) && ((m != k || j != i) ==> AccIn(d, m, j) == AccIn(h, m, j))
    {
      assert CellOk(kinds, shared, h, m, j);
    }
  }

  /** A group is added with the initial totals, each in a new cell. */
  function Fresh(kinds: seq<Kind>, h: Heap, k: Key): Heap {
    var n, m := |h.store|, |kinds|;
    Heap(h.store + seq(m, i requires 0 <= i < m => Initial(kinds[i]).val),
         h.ht[k := Totals(seq(m, i => n + i), seq(m, _ => 0))],
         h.owners + seq(m, i => (k, i)))
  }

  lemma FreshKeeps(kinds: seq<Kind>, shared: nat, h: Heap, k: Key)
    requires HeapOk(kinds, shared, h) && k !in h.ht
    ensures HeapOk(kinds, shared, Fresh(kinds, h, k))
    ensures Fresh(kinds, h, k).store[..|h.store|] == h.store
    ensures forall i :: 0 <= i < |kinds| ==> AccIn(Fresh(kinds, h, k), k, i) == Initial(kinds[i])
    ensures forall m, i :: m in h.ht && 0 <= i < |kinds| ==> AccIn(Fresh(kinds, h, k), m, i) == AccIn(h, m, i)
  {
    var d := Fresh(kinds, h, k);
    forall m, j | m in h.ht && 0 <= j < |kinds| ensures CellOk(kinds, shared, d, m, j) && AccIn(d, m, j) == AccIn(h, m, j) {
      assert CellOk(kinds, shared, h, m, j);
    }
    forall j | 0 <= j < |kinds| ensures CellOk(kinds, shared, d, k, j) && AccIn(d, k, j) == Initial(kinds[j]) {
      assert d.ht[k].cells[j] == |h.store| + j;
    }
  }

  /** What a table shows for the rows it has taken. */
  ghost predicate Shows(kinds: seq<Kind>, h: Heap, rows: seq<Row>) {
    && (forall k :: k in h.ht <==> HasKey(rows, k))
    && forall k, i :: k in h.ht && 0 <= i < |kinds| ==> AccIn(h, k, i) == Accumulated(kinds[i], Column(rows, k, i))
  }

  lemma OnlyAtItself(kinds: seq<Kind>, shared: nat, h: Heap, k: Key, i: nat)
    requires HeapOk(kinds, shared, h) && |h.store| >= shared
    ensures OnlyAt(kinds, shared, h, h, k, i, AccIn(h, k, i))
  {
  }

  lemma SlotIsThere(kinds: seq<Kind>, shared: nat, h: Heap, k: Key, i: nat)
    requires HeapOk(kinds, shared, h) && k in h.ht && i < |kinds|
    ensures i < |h.ht[k].cells| && i < |h.ht[k].counts| && h.ht[k].cells[i] < |h.store|
    ensures kinds[i] == COUNTS ==> h.store[h.ht[k].cells[i]].Num?
    ensures AccIn(h, k, i) == Acc(h.store[h.ht[k].cells[i]], h.ht[k].counts[i])
  {
    assert CellOk(kinds, shared, h, k, i);
  }

  lemma AscendsAround(keys: seq<Key>, k: Key, p: nat)
    requires CodeAscending(keys) && p <= |keys| && (forall i :: 0 <= i < p ==> CodeBelow(keys[i], k)) && (p < |keys| ==> CodeBelow(k, keys[p]))
    requires IsOrder((set m | m in keys) + {k})
    ensures CodeAscending(keys[..p] + [k] + keys[p..])
  {
    hide CodeBelow;
    forall i | p < i < |keys| ensures CodeBelow(k, keys[i]) {
      assert CodeBelow(keys[p], keys[i]);
      assert k in (set m | m in keys) + {k} && keys[p] in (set m | m in keys) + {k} && keys[i] in (set m | m in keys) + {k};
    }
  }

  /** The hash table, which is a tree map. */
  class SimpleAggregationHashTable {
    const kinds: seq<Kind>
    const shared: nat
    var store: seq<Val>
    var keys: seq<Key>
    var ht: map<Key, Totals>
    ghost var owners: seq<(Key, nat)>

    ghost function AsHeap(): Heap
      reads this
    {
      Heap(store, ht, owners)
    }

    ghost predicate Valid(n: nat)
      reads this
    {
      && shared <= |store| && CodeAscending(keys) && (forall k :: k in keys <==> k in ht) && (forall k :: k in ht ==> |k| == n)
      && HeapOk(kinds, shared, AsHeap())
    }

    constructor (kinds: seq<Kind>, values: seq<Val>)
      ensures this.kinds == kinds && shared == |values| && store == values && keys == [] && ht == map[]
      ensures forall n :: Valid(n)
    {
      this.kinds, shared, store := kinds, |values|, values;
      keys, ht, owners := [], map[], [];
    }

    /** One aggregate of a group takes one value. */
    method CombineOne(k: Key, i: nat, cell: nat)
      requires HeapOk(kinds, shared, AsHeap()) && shared <= |store| && k in ht && i < |kinds| && cell < shared
      modifies this`store, this`ht, this`owners
      ensures OnlyAt(kinds, shared, old(AsHeap()), AsHeap(), k, i, Advance(kinds[i], old(AccIn(AsHeap(), k, i)), old(store[cell])))
    {
      hide HeapOk, CodeAscending, OnlyAt, AccIn;
      ghost var h := AsHeap();
      SlotIsThere(kinds, shared, h, k, i);
      if store[cell].Null? {
        OnlyAtItself(kinds, shared, h, k, i);
        return;
      }
      var c, v := ht[k].cells[i], store[cell];
      match kinds[i] {
        case COUNTS =>
          WriteKeeps(kinds, shared, h, k, i, Number(store[c]) + 1.0);
          store := store[c := Num(Number(store[c]) + 1.0)];
        case MAXS =>
          if store[c].Null? || Cmp(v, store[c]) > 0 {
            c := cell;
          }
          PointKeeps(kinds, shared, h, k, i, c);
        case MINS =>
          if store[c].Null? || Cmp(v, store[c]) < 0 {
            c := cell;
          }
          PointKeeps(kinds, shared, h, k, i, c);
        case _ =>
          if store[c].Null? {
            NewCellKeeps(kinds, shared, h, k, i, Number(v));
            c := |store|;
            store, owners := store + [Num(0.0)], owners + [(k, i)];
          } else {
            WriteKeeps(kinds, shared, h, k, i, Number(store[c]) + Number(v));
          }
          store := store[c := Num(Number(store[c]) + Number(v))];
          assert c == |h.store| ==> store == h.store + [Num(Number(v))];
      }
      ht := ht[k := SetSlot(ht[k], i, c)];
    }

    /** A group takes the values of one tuple. */
    method CombineAggregateValues(n: nat, k: Key, cells: seq<nat>)
      requires Valid(n) && k in ht && |cells| == |kinds| && forall i :: 0 <= i < |cells| ==> cells[i] < shared
      modifies this`store, this`ht, this`owners
      ensures Valid(n) && ht.Keys == old(ht.Keys) && store[..shared] == old(store[..shared])
      ensures forall i :: 0 <= i < |kinds| ==>
        AccIn(AsHeap(), k, i) == Advance(kinds[i], old(AccIn(AsHeap(), k, i)), old(store[cells[i]]))
      ensures forall m, i :: m in ht && m != k && 0 <= i < |kinds| ==> AccIn(AsHeap(), m, i) == old(AccIn(AsHeap(), m, i))
    {
      hide HeapOk, CodeAscending, Advance, AccIn;
      for i := 0 to |kinds|
        invariant HeapOk(kinds, shared, AsHeap()) && shared <= |store| && ht.Keys == old(ht.Keys) && store[..shared] == old(store[..shared])
        invariant forall j :: 0 <= j < |kinds| ==>
          AccIn(AsHeap(), k, j) == if j < i then Advance(kinds[j], old(AccIn(AsHeap(), k, j)), old(store[cells[j]])) else old(AccIn(AsHeap(), k, j))
        invariant forall m, j :: m in ht && m != k && 0 <= j < |kinds| ==> AccIn(AsHeap(), m, j) == old(AccIn(AsHeap(), m, j))
      {
        assert store[cells[i]] == store[..shared][cells[i]];
        CombineOne(k, i, cells[i]);
      }
    }

    /** The key's place among the keys of the tree map. */
    method PlaceOf(n: nat, k: Key) returns (p: nat)
      requires Valid(n) && |k| == n && k !in ht && IsOrder(ht.Keys + {k})
      ensures p <= |keys| && CodeAscending(keys[..p] + [k] + keys[p..])
    {
      hide CodeBelow, HeapOk;
      assert ht.Keys == set m | m in keys;
      p := 0;
      while p < |keys|
        invariant p <= |keys| && forall i :: 0 <= i < p ==> CodeBelow(keys[i], k)
      {
        assert keys[p] in ht && k in ht.Keys + {k} && keys[p] in ht.Keys + {k};
        var less := LessThan(keys[p], k);
        if !less { break; }
        p := p + 1;
      }
      AscendsAround(keys, k, p);
    }

    /** A tuple is combined into its group, which is made if need be. */
    method InsertCombine(n: nat, t: Tuple)
      requires Valid(n) && |t.key| == n && IsOrder(ht.Keys + {t.key})
      requires |t.cells| == |kinds| && forall i :: 0 <= i < |t.cells| ==> t.cells[i] < shared
      modifies this`store, this`ht, this`owners, this`keys
      ensures Valid(n) && ht.Keys == old(ht.Keys) + {t.key} && store[..shared] == old(store[..shared])
      ensures forall i :: 0 <= i < |kinds| ==>
        AccIn(AsHeap(), t.key, i)
        == Advance(kinds[i], if t.key in old(ht) then old(AccIn(AsHeap(), t.key, i)) else Initial(kinds[i]), old(store[t.cells[i]]))
      ensures forall m, i :: m in old(ht) && m != t.key && 0 <= i < |kinds| ==> AccIn(AsHeap(), m, i) == old(AccIn(AsHeap(), m, i))
    {
      hide HeapOk, CodeAscending, IsOrder, Advance, AccIn, Initial, Fresh;
      if t.key !in ht {
        NewGroup(n, t.key);
      }
      CombineAggregateValues(n, t.key, t.cells);
    }

    /** A key is put in its place, with cells of its own. */
    method NewGroup(n: nat, key: Key)
      requires Valid(n) && |key| == n && key !in ht && IsOrder(ht.Keys + {key})
      modifies this`store, this`ht, this`owners, this`keys
      ensures Valid(n) && ht.Keys == old(ht.Keys) + {key} && |store| >= old(|store|) && store[..old(|store|)] == old(store)
      ensures forall i :: 0 <= i < |kinds| ==> AccIn(AsHeap(), key, i) == Initial(kinds[i])
      ensures forall m, i :: m in old(ht) && 0 <= i < |kinds| ==> AccIn(AsHeap(), m, i) == old(AccIn(AsHeap(), m, i))
    {
      hide HeapOk, CodeAscending, IsOrder, AccIn, Initial;
      ghost var h := AsHeap();
      FreshKeeps(kinds, shared, h, key);
      var p := PlaceOf(n, key);
      keys := keys[..p] + [key] + keys[p..];
      var size, m := |store|, |kinds|;
      store := store + seq(m, i requires 0 <= i < m => Initial(kinds[i]).val);
      ht := ht[key := Totals(seq(m, i => size + i), seq(m, _ => 0))];
      owners := owners + seq(m, i => (key, i));
      assert AsHeap() == Fresh(kinds, h, key);
    }
  }

  // ---- the executor -----------------------------------------------------------------------------------

  function RowsOf(store: seq<Val>, ts: seq<Tuple>): (rows: seq<Row>)
    requires forall k :: 0 <= k < |ts| ==> forall i :: 0 <= i < |ts[k].cells| ==> ts[k].cells[i] < |store|
    ensures |rows| == |ts| && forall k :: 0 <= k < |ts| ==> rows[k] == RowOf(store, ts[k])
  {
    seq(|ts|, k requires 0 <= k < |ts| => RowOf(store, ts[k]))
  }

  lemma {:induction false} ColumnOfAbsent(rows: seq<Row>, key: Key, i: nat)
    requires !HasKey(rows, key)
    ensures Column(rows, key, i) == []
  {
    if rows != [] {
      var n := |rows| - 1;
      assert forall k :: 0 <= k < n ==> rows[..n][k] == rows[k];
      assert !HasKey(rows[..n], key);
      ColumnOfAbsent(rows[..n], key, i);
    }
  }

  lemma HasKeySnoc(rows: seq<Row>, row: Row, key: Key)
    ensures HasKey(rows + [row], key) <==> HasKey(rows, key) || row.key == key
  {
    var all := rows + [row];
    if HasKey(rows, key) {
      var k :| 0 <= k < |rows| && rows[k].key == key;
      assert all[k].key == key;
    }
    if row.key == key {
      assert all[|rows|].key == key;
    }
  }

  lemma AccumulatedSnoc(kind: Kind, vs: seq<Val>, v: Val)
    ensures Accumulated(kind, vs + [v]) == Advance(kind, Accumulated(kind, vs), v)
  {
    assert (vs + [v])[..|vs|] == vs;
  }

  /** A table that has combined one more row shows the rows with it. */
  lemma ShowsOneMore(kinds: seq<Kind>, h: Heap, d: Heap, rows: seq<Row>, row: Row)
    requires Shows(kinds, h, rows) && d.ht.Keys == h.ht.Keys + {row.key} && |row.vals| == |kinds|
    requires forall i :: 0 <= i < |kinds| ==>
      AccIn(d, row.key, i) == Advance(kinds[i], if row.key in h.ht then AccIn(h, row.key, i) else Initial(kinds[i]), row.vals[i])
    requires forall m, i :: m in h.ht && m != row.key && 0 <= i < |kinds| ==> AccIn(d, m, i) == AccIn(h, m, i)
    ensures Shows(kinds, d, rows + [row])
  {
    hide AccIn, Advance, HasKey;
    var all := rows + [row];
    forall k ensures k in d.ht <==> HasKey(all, k) {
      HasKeySnoc(rows, row, k);
      assert k in d.ht <==> k in d.ht.Keys;
    }
    forall k, i | k in d.ht && 0 <= i < |kinds| ensures AccIn(d, k, i) == Accumulated(kinds[i], Column(all, k, i)) {
      assert k in d.ht.Keys;
      ColumnSnoc(rows, row, k, i);
      if k == row.key {
        AccumulatedSnoc(kinds[i], Column(rows, k, i), row.vals[i]);
        if k !in h.ht { ColumnOfAbsent(rows, k, i); }
      } else {
        assert Column(all, k, i) == Column(rows, k, i);
      }
    }
  }

  /** What is put out for a table that shows the rows. */
  lemma OutputIsComputed(kinds: seq<Kind>, h: Heap, rows: seq<Row>, keys: seq<Key>, out: seq<Row>)
    requires Shows(kinds, h, rows) && CodeAscending(keys) && (forall k :: k in keys <==> k in h.ht) && |out| == |keys|
    requires forall j :: 0 <= j < |out| ==> IsOutput(kinds, h, keys[j], out[j])
    ensures IsComputed(kinds, rows, out) && Keys(out) == keys
  {
    hide AccIn, Output, CodeAscending;
    forall i | 0 <= i < |out|
      ensures out[i].key == keys[i] && HasKey(rows, out[i].key)
      ensures |out[i].vals| == |kinds|
      ensures forall j :: 0 <= j < |kinds| ==> out[i].vals[j] == Output(kinds[j], Accumulated(kinds[j], Column(rows, out[i].key, j)))
    {
      assert IsOutput(kinds, h, keys[i], out[i]);
      assert keys[i] in h.ht;
    }
    assert Keys(out) == keys;
    forall k | 0 <= k < |rows| ensures HasKey(out, rows[k].key) {
      assert HasKey(rows, rows[k].key);
      assert rows[k].key in keys;
      var i :| 0 <= i < |keys| && keys[i] == rows[k].key;
      assert out[i].key == rows[k].key;
    }
  }

  /** What is computed is the aggregation, where keys are close and extremes are taken of close values. */
  lemma ComputedIsAggregation(kinds: seq<Kind>, rows: seq<Row>, out: seq<Row>)
    requires IsComputed(kinds, rows, out) && ColumnsAlike(kinds, rows) && Ascending(Keys(out))
    ensures IsAggregation(kinds, rows, out)
  {
    hide IsTotal, Output, CodeAscending, Ascending, HasGroups;
    forall i, j | 0 <= i < |out| && 0 <= j < |kinds| ensures IsTotal(kinds[j], Present(Column(rows, out[i].key, j)), out[i].vals[j]) {
      if TakesCells(kinds[j]) { ColumnIsAlike(kinds, rows, out[i].key, j); }
      AccumulatedIsTotal(kinds[j], Column(rows, out[i].key, j));
    }
  }

  predicate IsOutput(kinds: seq<Kind>, h: Heap, key: Key, row: Row) {
    && row.key == key && |row.vals| == |kinds|
    && forall i :: 0 <= i < |kinds| ==> row.vals[i] == Output(kinds[i], AccIn(h, key, i))
  }

  /** One row of totals from a table. */
  method OutputRow(table: SimpleAggregationHashTable, n: nat, k: Key) returns (row: Row)
    requires table.Valid(n) && k in table.ht
    ensures IsOutput(table.kinds, table.AsHeap(), k, row)
  {
    var vals: seq<Val>, t := [], table.ht[k];
    for i := 0 to |table.kinds|
      invariant |vals| == i && forall j :: 0 <= j < i ==> vals[j] == Output(table.kinds[j], AccIn(table.AsHeap(), k, j))
    {
      SlotIsThere(table.kinds, table.shared, table.AsHeap(), k, i);
      var v := table.store[t.cells[i]];
      if table.kinds[i] == AVGS && !v.Null? && t.counts[i] > 0 {
        v := Num(Number(v) / t.counts[i] as real);
      }
      vals := vals + [v];
    }
    row := Row(k, vals);
  }

  function KeysIn(ts: seq<Tuple>): set<Key> {
    set k | 0 <= k < |ts| :: ts[k].key
  }

  /** All tuples are combined. */
  method TakeTuples(kinds: seq<Kind>, n: nat, values: seq<Val>, ts: seq<Tuple>) returns (table: SimpleAggregationHashTable)
    requires forall k :: 0 <= k < |ts| ==>
      |ts[k].key| == n && |ts[k].cells| == |kinds| && forall i :: 0 <= i < |ts[k].cells| ==> ts[k].cells[i] < |values|
    requires IsOrder(KeysIn(ts))
    ensures table.Valid(n) && table.kinds == kinds && table.shared == |values| && table.store[..|values|] == values
    ensures Shows(kinds, table.AsHeap(), RowsOf(values, ts))
  {
    hide AccIn, CodeAscending, HeapOk, IsOrder, Shows;
    table := new SimpleAggregationHashTable(kinds, values);
    ghost var rows := RowsOf(values, ts);
    ShowsNothing(kinds, table.AsHeap());
    for k := 0 to |ts|
      invariant table.Valid(n) && table.kinds == kinds && table.shared == |values| && table.store[..|values|] == values
      invariant fresh(table) && Shows(kinds, table.AsHeap(), rows[..k])
    {
      ghost var h := table.AsHeap();
      ValuesOf(values, table.store, ts[k]);
      KeysTaken(kinds, h, rows, ts, k);
      table.InsertCombine(n, ts[k]);
      ShowsOneMore(kinds, h, table.AsHeap(), rows[..k], rows[k]);
      assert rows[..k] + [rows[k]] == rows[..k + 1];
    }
    assert rows[..|ts|] == rows;
  }

  lemma ValuesOf(values: seq<Val>, store: seq<Val>, t: Tuple)
    requires |values| <= |store| && store[..|values|] == values && forall i :: 0 <= i < |t.cells| ==> t.cells[i] < |values|
    ensures forall i :: 0 <= i < |t.cells| ==> store[t.cells[i]] == RowOf(values, t).vals[i]
  {
    assert forall i :: 0 <= i < |t.cells| ==> store[t.cells[i]] == store[..|values|][t.cells[i]];
  }

  /** The rows of the child executor are aggregated, provided that the code's comparison orders their keys.
      The groups come in the order of the keys if and only if these are close, and then, where extremes
      are taken of close values, the output is the aggregation.  None of the values is changed although the
      table holds some of their cells. */
  method Next(kinds: seq<Kind>, n: nat, values: seq<Val>, ts: seq<Tuple>) returns (out: seq<Row>, left: seq<Val>)
    requires forall k :: 0 <= k < |ts| ==>
      |ts[k].key| == n && |ts[k].cells| == |kinds| && forall i :: 0 <= i < |ts[k].cells| ==> ts[k].cells[i] < |values|
    requires IsOrder(KeysIn(ts))
    ensures IsComputed(kinds, RowsOf(values, ts), out)
    ensures Ascending(Keys(out)) <==> forall a, b :: a in KeysIn(ts) && b in KeysIn(ts) ==> CloseKeys(a, b)
    ensures Ascending(Keys(out)) && ColumnsAlike(kinds, RowsOf(values, ts)) ==> IsAggregation(kinds, RowsOf(values, ts), out)
    ensures left == values
  {
    hide IsAggregation, IsComputed, AccIn, Ascending, CodeAscending, HeapOk, IsOutput, ColumnsAlike, CloseKeys, IsOrder, Shows;
    var table := TakeTuples(kinds, n, values, ts);
    out := [];
    for j := 0 to |table.keys|
      modifies {}
      invariant |out| == j && forall i :: 0 <= i < j ==> IsOutput(kinds, table.AsHeap(), table.keys[i], out[i])
    {
      var row := OutputRow(table, n, table.keys[j]);
      out := out + [row];
    }
    ghost var rows := RowsOf(values, ts);
    OutputIsComputed(kinds, table.AsHeap(), rows, table.keys, out);
    KeysAreIn(kinds, table.AsHeap(), rows, ts, table.keys);
    AscendingIfClose(table.keys, n);
    if Ascending(Keys(out)) && ColumnsAlike(kinds, rows) { ComputedIsAggregation(kinds, rows, out); }
    left := table.store[..|values|];
  }

  lemma KeysAreIn(kinds: seq<Kind>, h: Heap, rows: seq<Row>, ts: seq<Tuple>, keys: seq<Key>)
    requires |rows| == |ts| && Shows(kinds, h, rows) && (forall l :: 0 <= l < |ts| ==> rows[l].key == ts[l].key)
    requires forall k :: k in keys <==> k in h.ht
    ensures (set k | k in keys) == KeysIn(ts)
  {
    hide AccIn, Accumulated;
    forall k ensures k in keys <==> k in KeysIn(ts) {
      assert k in h.ht <==> HasKey(rows, k);
    }
  }

  /** The keys in the table are those of tuples taken. */
  lemma KeysTaken(kinds: seq<Kind>, h: Heap, rows: seq<Row>, ts: seq<Tuple>, k: nat)
    requires |rows| == |ts| && k < |ts| && Shows(kinds, h, rows[..k])
    requires forall l :: 0 <= l < |ts| ==> rows[l].key == ts[l].key
    requires IsOrder(KeysIn(ts))
    ensures IsOrder(h.ht.Keys + {ts[k].key})
  {
    hide AccIn, Accumulated, CodeBelow;
    forall m | m in h.ht.Keys + {ts[k].key} ensures m in KeysIn(ts) {
      if m in h.ht {
        var l :| 0 <= l < k && rows[..k][l].key == m;
        assert ts[l].key == m;
      }
    }
  }

  lemma ShowsNothing(kinds: seq<Kind>, h: Heap)
    requires h.ht == map[]
    ensures Shows(kinds, h, [])
  {
  }
}
