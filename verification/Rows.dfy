/** Rows, conditions on rows, and the product of row sequences. */
module Rows {
  import opened Keys
  import opened Comparisons
  import opened Permutations

  datatype Value = Int(i: int) | Str(s: string)

  datatype Attr = Attr(table: string, field: string)

  datatype Operand = Field(attr: Attr) | Const(value: Value)

  datatype Cond = Cond(left: Operand, op: CompOp, right: Operand)

  type Row = seq<Value>
  type Schema = seq<Attr>

  /** An index of a table: the field it is ordered by, and how many bytes of it. */
  datatype Index = Index(field: string, length: nat)

  /** A table: its rows in the order of the record file, where each of them is, and its indexes. */
  datatype Table = Table(name: string, fields: seq<string>, rows: seq<Row>, rids: seq<RecordId>, indexes: seq<Index>)

  /** strcmp on strings without a terminator inside. */
  function StrCmp(s: string, t: string): int {
    if s == [] then (if t == [] then 0 else -1)
    else if t == [] then 1
    else if s[0] != t[0] then s[0] as int - t[0] as int
    else StrCmp(s[1..], t[1..])
  }

  /** The comparison of two values of one type. */
  function Compare(a: Value, b: Value): int {
    if a.Int? && b.Int? then Subtract32(a.i, b.i)
    else if a.Str? && b.Str? then StrCmp(a.s, b.s)
    else 0
  }

  function SchemaOf(t: Table): Schema {
    seq(|t.fields|, i requires 0 <= i < |t.fields| => Attr(t.name, t.fields[i]))
  }

  /** The rows fit the schema. */
  predicate Fit(rows: seq<Row>, s: Schema) {
    forall r :: r in rows ==> |r| == |s|
  }

  function IndexIn(s: Schema, a: Attr): (i: nat)
    requires a in s
    ensures i < |s| && s[i] == a
  {
    if s[0] == a then 0 else 1 + IndexIn(s[1..], a)
  }

  predicate Known(o: Operand, s: Schema) {
    o.Field? ==> o.attr in s
  }

  function Get(o: Operand, s: Schema, r: Row): Value
    requires Known(o, s) && |r| == |s|
  {
    match o
    case Field(a) => r[IndexIn(s, a)]
    case Const(v) => v
  }

  /** All attributes of the condition are in the schema. */
  predicate Applies(c: Cond, s: Schema) {
    Known(c.left, s) && Known(c.right, s)
  }

  predicate Holds(c: Cond, s: Schema, r: Row) {
    Applies(c, s) && |r| == |s| && Satisfies(c.op, Compare(Get(c.left, s, r), Get(c.right, s, r)), 0)
  }

  predicate AllHold(cs: seq<Cond>, s: Schema, r: Row) {
    forall c :: c in cs ==> Holds(c, s, r)
  }

  /** The rows on which all conditions hold, in order. */
  function Select(rows: seq<Row>, s: Schema, cs: seq<Cond>): seq<Row> {
    if rows == [] then []
    else (if AllHold(cs, s, rows[0]) then [rows[0]] else []) + Select(rows[1..], s, cs)
  }

  /** One row in front of every row. */
  function Pair(a: Row, rows: seq<Row>): (r: seq<Row>)
    ensures |r| == |rows| && forall i :: 0 <= i < |rows| ==> r[i] == a + rows[i]
  {
    seq(|rows|, i requires 0 <= i < |rows| => a + rows[i])
  }

  /** All combinations, those with the first row of `left` first. */
  function Product(left: seq<Row>, right: seq<Row>): seq<Row> {
    if left == [] then [] else Pair(left[0], right) + Product(left[1..], right)
  }

  /** Where row `i` of the left and row `j` of the right sequence meet in the product. */
  function Place(right: nat, i: nat, j: nat): nat {
    if i == 0 then j else right + Place(right, i - 1, j)
  }

  lemma {:induction false} PlaceIs(right: nat, i: nat, j: nat)
    ensures Place(right, i, j) == i * right + j
  {
    if i > 0 {
      PlaceIs(right, i - 1, j);
      assert i * right == right + (i - 1) * right;
    }
  }

  lemma {:induction false} MeetsAt(left: seq<Row>, right: seq<Row>, i: nat, j: nat)
    requires i < |left| && j < |right|
    ensures Place(|right|, i, j) < |Product(left, right)|
    ensures Product(left, right)[Place(|right|, i, j)] == left[i] + right[j]
  {
    if i > 0 {
      MeetsAt(left[1..], right, i - 1, j);
    }
  }

  /** The product is in lexicographic order: row `i * |right| + j` pairs row `i` with row `j`. */
  lemma ProductAt(left: seq<Row>, right: seq<Row>, i: nat, j: nat)
    requires i < |left| && j < |right|
    ensures i * |right| + j < |left| * |right| == |Product(left, right)|
    ensures Product(left, right)[i * |right| + j] == left[i] + right[j]
  {
    hide Product, Place;
    MeetsAt(left, right, i, j);
    PlaceIs(|right|, i, j);
    ProductSize(left, right);
  }

  lemma {:induction false} ProductSize(left: seq<Row>, right: seq<Row>)
    ensures |Product(left, right)| == |left| * |right|
  {
    if left != [] {
      ProductSize(left[1..], right);
      assert |left| * |right| == |right| + (|left| - 1) * |right|;
    }
  }

  lemma {:induction false} SelectConcat(a: seq<Row>, b: seq<Row>, s: Schema, cs: seq<Cond>)
    ensures Select(a + b, s, cs) == Select(a, s, cs) + Select(b, s, cs)
  {
    if a == [] {
      assert a + b == b;
    } else {
      assert (a + b)[1..] == a[1..] + b;
      SelectConcat(a[1..], b, s, cs);
    }
  }

  lemma {:induction false} SelectNothing(rows: seq<Row>, s: Schema, cs: seq<Cond>)
    requires forall r :: r in rows ==> !AllHold(cs, s, r)
    ensures Select(rows, s, cs) == []
  {
    if rows != [] {
      SelectNothing(rows[1..], s, cs);
    }
  }

  /** Conditions that hold of the same rows select the same rows. */
  lemma {:induction false} SelectSame(rows: seq<Row>, s: Schema, cs: seq<Cond>, ds: seq<Cond>)
    requires forall r :: r in rows ==> (AllHold(cs, s, r) <==> AllHold(ds, s, r))
    ensures Select(rows, s, cs) == Select(rows, s, ds)
  {
    if rows != [] {
      SelectSame(rows[1..], s, cs, ds);
    }
  }

  lemma {:induction false} SelectTwice(rows: seq<Row>, s: Schema, cs: seq<Cond>, ds: seq<Cond>)
    ensures Select(Select(rows, s, cs), s, ds) == Select(rows, s, cs + ds)
  {
    if rows != [] {
      SelectTwice(rows[1..], s, cs, ds);
      var head := if AllHold(cs, s, rows[0]) then [rows[0]] else [];
      SelectConcat(head, Select(rows[1..], s, cs), s, ds);
      assert AllHold(cs + ds, s, rows[0]) <==> AllHold(cs, s, rows[0]) && AllHold(ds, s, rows[0]);
    }
  }

  lemma {:induction false} SelectFits(rows: seq<Row>, s: Schema, cs: seq<Cond>)
    ensures forall r :: r in Select(rows, s, cs) <==> r in rows && AllHold(cs, s, r)
  {
    if rows != [] {
      SelectFits(rows[1..], s, cs);
    }
  }

  lemma {:induction false} ProductFits(left: seq<Row>, right: seq<Row>, s: Schema, t: Schema)
    requires Fit(left, s) && Fit(right, t)
    ensures Fit(Product(left, right), s + t)
  {
    if left != [] {
      ProductFits(left[1..], right, s, t);
    }
  }

  // ---- conditions on one side of a product ------------------------------------------------

  lemma {:induction false} IndexInLeft(s: Schema, t: Schema, a: Attr)
    requires a in s
    ensures a in s + t && IndexIn(s + t, a) == IndexIn(s, a)
  {
    assert (s + t)[0] == s[0];
    if s[0] != a {
      assert (s + t)[1..] == s[1..] + t;
      IndexInLeft(s[1..], t, a);
    }
  }

  lemma {:induction false} IndexInRight(s: Schema, t: Schema, a: Attr)
    requires a in t && a !in s
    ensures a in s + t && IndexIn(s + t, a) == |s| + IndexIn(t, a)
  {
    if s == [] {
      assert s + t == t;
    } else {
      assert (s + t)[0] == s[0] && (s + t)[1..] == s[1..] + t;
      IndexInRight(s[1..], t, a);
    }
  }

  /** A condition on one side does not look at the other. */
  lemma HoldsLeft(c: Cond, s: Schema, t: Schema, a: Row, b: Row)
    requires Applies(c, s) && |a| == |s| && |b| == |t|
    ensures Holds(c, s + t, a + b) <==> Holds(c, s, a)
  {
    if c.left.Field? { IndexInLeft(s, t, c.left.attr); }
    if c.right.Field? { IndexInLeft(s, t, c.right.attr); }
  }

  lemma HoldsRight(c: Cond, s: Schema, t: Schema, a: Row, b: Row)
    requires Applies(c, t) && |a| == |s| && |b| == |t| && forall x :: x in s ==> x !in t
    ensures Holds(c, s + t, a + b) <==> Holds(c, t, b)
  {
    if c.left.Field? { IndexInRight(s, t, c.left.attr); }
    if c.right.Field? { IndexInRight(s, t, c.right.attr); }
  }

  lemma AllHoldPaired(a: Row, r: Row, s: Schema, t: Schema, cs: seq<Cond>, ds: seq<Cond>)
    requires |a| == |s| && |r| == |t| && forall x :: x in s ==> x !in t
    requires (forall c :: c in cs ==> Applies(c, s)) && (forall d :: d in ds ==> Applies(d, t))
    ensures AllHold(cs + ds, s + t, a + r) <==> AllHold(cs, s, a) && AllHold(ds, t, r)
  {
    hide Holds;
    forall c | c in cs ensures Holds(c, s + t, a + r) <==> Holds(c, s, a) { HoldsLeft(c, s, t, a, r); }
    forall d | d in ds ensures Holds(d, s + t, a + r) <==> Holds(d, t, r) { HoldsRight(d, s, t, a, r); }
  }

  lemma {:induction false} SelectPaired(a: Row, rows: seq<Row>, s: Schema, t: Schema, cs: seq<Cond>, ds: seq<Cond>)
    requires |a| == |s| && Fit(rows, t) && forall x :: x in s ==> x !in t
    requires (forall c :: c in cs ==> Applies(c, s)) && (forall d :: d in ds ==> Applies(d, t))
    ensures Select(Pair(a, rows), s + t, cs + ds) == if AllHold(cs, s, a) then Pair(a, Select(rows, t, ds)) else []
  {
    hide AllHold, Applies;
    if rows != [] {
      var r := rows[0];
      assert r in rows;
      assert Pair(a, rows)[1..] == Pair(a, rows[1..]);
      SelectPaired(a, rows[1..], s, t, cs, ds);
      AllHoldPaired(a, r, s, t, cs, ds);
      if AllHold(cs, s, a) {
        PairConcat(a, if AllHold(ds, t, r) then [r] else [], Select(rows[1..], t, ds));
      }
    }
  }

  lemma PairConcat(a: Row, x: seq<Row>, y: seq<Row>)
    ensures Pair(a, x + y) == Pair(a, x) + Pair(a, y)
  {
  }

  /** Selecting before a product is selecting after it. */
  lemma {:induction false} PushDown(left: seq<Row>, right: seq<Row>, s: Schema, t: Schema, cs: seq<Cond>, ds: seq<Cond>)
    requires Fit(left, s) && Fit(right, t) && forall x :: x in s ==> x !in t
    requires (forall c :: c in cs ==> Applies(c, s)) && (forall d :: d in ds ==> Applies(d, t))
    ensures Product(Select(left, s, cs), Select(right, t, ds)) == Select(Product(left, right), s + t, cs + ds)
  {
    if left != [] {
      assert left[0] in left;
      PushDown(left[1..], right, s, t, cs, ds);
      SelectPaired(left[0], right, s, t, cs, ds);
      SelectConcat(Pair(left[0], right), Product(left[1..], right), s + t, cs + ds);
      var rest := Select(left[1..], s, cs);
      if AllHold(cs, s, left[0]) {
        assert Select(left, s, cs) == [left[0]] + rest && ([left[0]] + rest)[1..] == rest;
      } else {
        assert Select(left, s, cs) == rest;
      }
    }
  }

  // ---- products of several sequences ---------------------------------------------------------

  lemma {:induction false} ProductConcat(a: seq<Row>, b: seq<Row>, c: seq<Row>)
    ensures Product(a + b, c) == Product(a, c) + Product(b, c)
  {
    if a == [] {
      assert a + b == b;
    } else {
      assert (a + b)[1..] == a[1..] + b;
      ProductConcat(a[1..], b, c);
    }
  }

  lemma PairPair(a: Row, b: Row, c: seq<Row>)
    ensures Pair(a + b, c) == Pair(a, Pair(b, c))
  {
    forall i | 0 <= i < |c| ensures Pair(a + b, c)[i] == Pair(a, Pair(b, c))[i] {
      assert (a + b) + c[i] == a + (b + c[i]);
    }
  }

  lemma {:induction false} PairProduct(a: Row, b: seq<Row>, c: seq<Row>)
    ensures Product(Pair(a, b), c) == Pair(a, Product(b, c))
  {
    if b != [] {
      assert Pair(a, b)[1..] == Pair(a, b[1..]);
      PairProduct(a, b[1..], c);
      PairPair(a, b[0], c);
      PairConcat(a, Pair(b[0], c), Product(b[1..], c));
    }
  }

  lemma {:induction false} ProductAssociates(a: seq<Row>, b: seq<Row>, c: seq<Row>)
    ensures Product(Product(a, b), c) == Product(a, Product(b, c))
  {
    if a != [] {
      ProductAssociates(a[1..], b, c);
      ProductConcat(Pair(a[0], b), Product(a[1..], b), c);
      PairProduct(a[0], b, c);
    }
  }

  lemma {:induction false} ProductUnit(a: seq<Row>)
    ensures Product(a, [[]]) == a
  {
    if a != [] {
      ProductUnit(a[1..]);
      assert a[0] + [] == a[0];
      assert Pair(a[0], [[]]) == [a[0]];
    }
  }

  // ---- rows in another order ------------------------------------------------------------------

  lemma {:induction false} SelectIsKeep(rows: seq<Row>, s: Schema, cs: seq<Cond>)
    ensures Select(rows, s, cs) == Keep(rows, r => AllHold(cs, s, r))
  {
    if rows != [] {
      SelectIsKeep(rows[1..], s, cs);
    }
  }

  lemma {:induction false} PairPermutes(a: Row, x: seq<Row>, y: seq<Row>)
    requires multiset(x) == multiset(y)
    ensures multiset(Pair(a, x)) == multiset(Pair(a, y))
    decreases |x|
  {
    if x == [] {
      assert |multiset(y)| == 0;
    } else {
      var k := PlaceIn(x, y);
      Tail(x);
      PairPermutes(a, x[1..], Without(y, k));
      PairWithout(a, x, 0);
      PairWithout(a, y, k);
    }
  }

  lemma PairWithout(a: Row, x: seq<Row>, k: nat)
    requires k < |x|
    ensures multiset(Pair(a, x)) == multiset(Pair(a, Without(x, k))) + multiset{a + x[k]}
  {
    assert Pair(a, x) == Pair(a, x[..k]) + [a + x[k]] + Pair(a, x[k + 1..]);
    PairConcat(a, x[..k], x[k + 1..]);
  }

  lemma ProductWithout(left: seq<Row>, right: seq<Row>, k: nat)
    requires k < |left|
    ensures multiset(Product(left, right)) == multiset(Product(Without(left, k), right)) + multiset(Pair(left[k], right))
  {
    hide Product, Pair;
    var a, x, b := left[..k], [left[k]], left[k + 1..];
    assert left == a + (x + b);
    ProductConcat(a, x + b, right);
    ProductConcat(x, b, right);
    ProductConcat(a, b, right);
    ProductOne(left[k], right);
  }

  lemma ProductOne(a: Row, right: seq<Row>)
    ensures Product([a], right) == Pair(a, right)
  {
    assert [a][1..] == [];
    assert Pair(a, right) + [] == Pair(a, right);
  }

  /** The product of permutations is a permutation of the product. */
  lemma {:induction false} ProductPermutes(left: seq<Row>, left': seq<Row>, right: seq<Row>, right': seq<Row>)
    requires multiset(left) == multiset(left') && multiset(right) == multiset(right')
    ensures multiset(Product(left, right)) == multiset(Product(left', right'))
    decreases |left|
  {
    if left == [] {
      assert |multiset(left')| == 0;
    } else {
      var k := PlaceIn(left, left');
      Tail(left);
      ProductPermutes(left[1..], Without(left', k), right, right');
      ProductWithout(left, right, 0);
      ProductWithout(left', right', k);
      PairPermutes(left[0], right, right');
    }
  }

  /** Filtering before a product is filtering after it. */
  lemma {:induction false} KeepProduct(left: seq<Row>, right: seq<Row>, p: Row -> bool, q: Row -> bool, pq: Row -> bool)
    requires forall a, b :: a in left && b in right ==> (pq(a + b) <==> p(a) && q(b))
    ensures Product(Keep(left, p), Keep(right, q)) == Keep(Product(left, right), pq)
  {
    if left != [] {
      KeepProduct(left[1..], right, p, q, pq);
      KeepPaired(left[0], right, p, q, pq);
      KeepConcat(Pair(left[0], right), Product(left[1..], right), pq);
      var rest := Keep(left[1..], p);
      if p(left[0]) {
        assert Keep(left, p) == [left[0]] + rest && ([left[0]] + rest)[1..] == rest;
      } else {
        assert Keep(left, p) == rest;
      }
    }
  }

  lemma {:induction false} KeepPaired(a: Row, right: seq<Row>, p: Row -> bool, q: Row -> bool, pq: Row -> bool)
    requires forall b :: b in right ==> (pq(a + b) <==> p(a) && q(b))
    ensures Keep(Pair(a, right), pq) == if p(a) then Pair(a, Keep(right, q)) else []
  {
    if right != [] {
      assert right[0] in right;
      assert Pair(a, right)[1..] == Pair(a, right[1..]);
      KeepPaired(a, right[1..], p, q, pq);
      if p(a) {
        PairConcat(a, if q(right[0]) then [right[0]] else [], Keep(right[1..], q));
      }
    }
  }
}
