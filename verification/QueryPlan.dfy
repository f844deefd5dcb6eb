/** The plan that the executor builder makes of a SELECT, and its execution. */
module QueryPlan {
  import opened Comparisons
  import opened Rows

  datatype JoinOn = JoinOn(table: Table, on: seq<Cond>)

  /** `relations` are kept in the reverse of their textual order, as the parser leaves them. */
  datatype Query = Query(relations: seq<Table>, where: seq<Cond>, joins: seq<JoinOn>)

  datatype Plan =
    | Scan(table: Table, filters: seq<Cond>, banAll: bool)
    | Join(left: Plan, right: Plan, filters: seq<Cond>, banAll: bool)

  // ---- filters from conditions ---------------------------------------------------------------

  predicate Constant(c: Cond) {
    c.left.Const? && c.right.Const?
  }

  predicate ConstantHolds(c: Cond)
    requires Constant(c)
  {
    Satisfies(c.op, Compare(c.left.value, c.right.value), 0)
  }

  predicate SomeFalse(cs: seq<Cond>) {
    exists c :: c in cs && Constant(c) && !ConstantHolds(c)
  }

  datatype TableFilter = AnyTable | OneTable(name: string)

  predicate Concerns(o: Operand, t: TableFilter, attrOnly: bool) {
    if o.Field? then t.OneTable? ==> o.attr.table == t.name else !attrOnly
  }

  /** The condition becomes a filter for the table, or for a join. */
  predicate Kept(c: Cond, t: TableFilter, attrOnly: bool) {
    !Constant(c) && Concerns(c.left, t, attrOnly) && Concerns(c.right, t, attrOnly)
  }

  /** A false constant condition bans everything; true ones are dropped. */
  method FromConditions(conditions: seq<Cond>, t: TableFilter, attrOnly: bool) returns (filters: seq<Cond>, banAll: bool)
    ensures banAll <==> SomeFalse(conditions)
    ensures banAll ==> filters == []
    ensures !banAll ==> forall c :: c in filters <==> c in conditions && Kept(c, t, attrOnly)
  {
    filters, banAll := [], false;
    for i := 0 to |conditions|
      invariant !SomeFalse(conditions[..i]) && !banAll
      invariant forall c :: c in filters <==> c in conditions[..i] && Kept(c, t, attrOnly)
    {
      var c := conditions[i];
      assert conditions[..i + 1] == conditions[..i] + [c];
      if Constant(c) {
        if !ConstantHolds(c) {
          assert c in conditions;
          return [], true;
        }
      } else if Kept(c, t, attrOnly) {
        filters := filters + [c];
      }
    }
    assert conditions[..|conditions|] == conditions;
  }

  // ---- plans ------------------------------------------------------------------------------------

  function PlanSchema(p: Plan): Schema {
    match p
    case Scan(t, _, _) => SchemaOf(t)
    case Join(l, r, _, _) => PlanSchema(l) + PlanSchema(r)
  }

  /** The rows a plan yields. */
  function Eval(p: Plan): seq<Row> {
    if p.banAll then []
    else match p
      case Scan(t, filters, _) => Select(t.rows, SchemaOf(t), filters)
      case Join(l, r, filters, _) => Select(Product(Eval(l), Eval(r)), PlanSchema(p), filters)
  }

  method Passes(filters: seq<Cond>, s: Schema, r: Row) returns (valid: bool)
    ensures valid <==> AllHold(filters, s, r)
  {
    valid := true;
    for i := 0 to |filters|
      invariant valid <==> AllHold(filters[..i], s, r)
    {
      assert filters[..i + 1] == filters[..i] + [filters[i]];
      if !Holds(filters[i], s, r) {
        assert filters[i] in filters;
        return false;
      }
    }
    assert filters[..|filters|] == filters;
  }

  method ScanRows(rows: seq<Row>, s: Schema, filters: seq<Cond>) returns (out: seq<Row>)
    ensures out == Select(rows, s, filters)
  {
    out := [];
    for i := 0 to |rows|
      invariant out == Select(rows[..i], s, filters)
    {
      assert rows[..i + 1] == rows[..i] + [rows[i]];
      SelectConcat(rows[..i], [rows[i]], s, filters);
      var valid := Passes(filters, s, rows[i]);
      if valid {
        out := out + [rows[i]];
      }
    }
    assert rows[..|rows|] == rows;
  }

  method InnerLoop(a: Row, right: seq<Row>, s: Schema, filters: seq<Cond>) returns (out: seq<Row>)
    ensures out == Select(Pair(a, right), s, filters)
  {
    out := [];
    for j := 0 to |right|
      invariant out == Select(Pair(a, right[..j]), s, filters)
    {
      assert right[..j + 1] == right[..j] + [right[j]];
      PairConcat(a, right[..j], [right[j]]);
      SelectConcat(Pair(a, right[..j]), Pair(a, [right[j]]), s, filters);
      assert Pair(a, [right[j]]) == [a + right[j]];
      var valid := Passes(filters, s, a + right[j]);
      if valid {
        out := out + [a + right[j]];
      }
    }
    assert right[..|right|] == right;
  }

  /** The nested loops: for every left row, all right rows. */
  method NestLoops(left: seq<Row>, right: seq<Row>, s: Schema, filters: seq<Cond>) returns (out: seq<Row>)
    ensures out == Select(Product(left, right), s, filters)
  {
    out := [];
    for i := 0 to |left|
      invariant out == Select(Product(left[..i], right), s, filters)
    {
      assert left[..i + 1] == left[..i] + [left[i]];
      ProductConcat(left[..i], [left[i]], right);
      assert Product([left[i]], right) == Pair(left[i], right);
      SelectConcat(Product(left[..i], right), Pair(left[i], right), s, filters);
      var rows := InnerLoop(left[i], right, s, filters);
      out := out + rows;
    }
    assert left[..|left|] == left;
  }

  method Execute(p: Plan) returns (out: seq<Row>)
    ensures out == Eval(p)
  {
    if p.banAll {
      return [];
    }
    match p
    case Scan(t, filters, _) =>
      out := ScanRows(t.rows, SchemaOf(t), filters);
    case Join(l, r, filters, _) =>
      var left := Execute(l);
      var right := Execute(r);
      out := NestLoops(left, right, PlanSchema(p), filters);
  }

  // ---- the tables of a query ----------------------------------------------------------------------

  function SchemaAll(ts: seq<Table>): Schema {
    if ts == [] then [] else SchemaAll(ts[..|ts| - 1]) + SchemaOf(ts[|ts| - 1])
  }

  /** The cross product of the tables, in their order. */
  function RowsAll(ts: seq<Table>): seq<Row>
    requires ts != []
  {
    var last := ts[|ts| - 1].rows;
    if |ts| == 1 then last else Product(RowsAll(ts[..|ts| - 1]), last)
  }

  predicate TablesOk(ts: seq<Table>) {
    && (forall i :: 0 <= i < |ts| ==> Fit(ts[i].rows, SchemaOf(ts[i])))
    && (forall i, j :: 0 <= i < j < |ts| ==> ts[i].name != ts[j].name)
  }

  lemma {:induction false} InSchemaAll(ts: seq<Table>, a: Attr)
    ensures a in SchemaAll(ts) <==> exists i :: 0 <= i < |ts| && a in SchemaOf(ts[i])
  {
    if ts != [] {
      var n := |ts| - 1;
      InSchemaAll(ts[..n], a);
      assert forall i :: 0 <= i < n ==> ts[..n][i] == ts[i];
      if a in SchemaAll(ts[..n]) {
        var i :| 0 <= i < n && a in SchemaOf(ts[..n][i]);
        assert a in SchemaOf(ts[i]);
      }
    }
  }

  lemma {:induction false} RowsAllFit(ts: seq<Table>)
    requires ts != [] && TablesOk(ts)
    ensures Fit(RowsAll(ts), SchemaAll(ts))
  {
    var n := |ts| - 1;
    if n > 0 {
      RowsAllFit(ts[..n]);
      ProductFits(RowsAll(ts[..n]), ts[n].rows, SchemaAll(ts[..n]), SchemaOf(ts[n]));
    } else {
      assert SchemaAll(ts[..0]) == [];
      assert SchemaAll(ts) == SchemaOf(ts[0]);
    }
  }

  lemma TablesDisjoint(ts: seq<Table>, t: Table)
    requires TablesOk(ts + [t])
    ensures forall x :: x in SchemaAll(ts) ==> x !in SchemaOf(t)
  {
    forall x | x in SchemaAll(ts) ensures x !in SchemaOf(t) {
      InSchemaAll(ts, x);
      var i :| 0 <= i < |ts| && x in SchemaOf(ts[i]);
      assert (ts + [t])[i] == ts[i] && (ts + [t])[|ts|] == t;
    }
  }

  /** The plan yields the rows of the product on which the conditions hold. */
  predicate Represents(p: Plan, ts: seq<Table>, cs: seq<Cond>) {
    && ts != [] && PlanSchema(p) == SchemaAll(ts)
    && (forall c :: c in cs ==> Applies(c, SchemaAll(ts)))
    && Eval(p) == Select(RowsAll(ts), SchemaAll(ts), cs)
  }

  lemma ScanRepresents(t: Table, ds: seq<Cond>)
    requires forall d :: d in ds ==> Applies(d, SchemaOf(t))
    ensures Represents(Scan(t, ds, false), [t], ds)
  {
    assert [t][..0] == [] && SchemaAll([t]) == SchemaOf(t);
  }

  lemma AppliesWider(c: Cond, s: Schema, t: Schema)
    requires Applies(c, s) || Applies(c, t)
    ensures Applies(c, s + t)
  {
  }

  lemma JoinRepresents(p: Plan, ts: seq<Table>, cs: seq<Cond>, t: Table, ds: seq<Cond>, fs: seq<Cond>)
    requires Represents(p, ts, cs) && TablesOk(ts + [t])
    requires forall d :: d in ds ==> Applies(d, SchemaOf(t))
    requires forall f :: f in fs ==> Applies(f, SchemaAll(ts) + SchemaOf(t))
    ensures Represents(Join(p, Scan(t, ds, false), fs, false), ts + [t], cs + ds + fs)
  {
    hide Applies, Select, Fit, Product, Eval, PlanSchema, SchemaAll;
    LastTable(ts, t);
    JoinEval(p, ts, cs, t, ds, fs);
    forall c | c in cs + ds + fs ensures Applies(c, SchemaAll(ts + [t])) {
      if c in cs || c in ds { AppliesWider(c, SchemaAll(ts), SchemaOf(t)); }
    }
  }

  lemma JoinEval(p: Plan, ts: seq<Table>, cs: seq<Cond>, t: Table, ds: seq<Cond>, fs: seq<Cond>)
    requires Represents(p, ts, cs) && TablesOk(ts + [t])
    requires forall d :: d in ds ==> Applies(d, SchemaOf(t))
    ensures PlanSchema(Join(p, Scan(t, ds, false), fs, false)) == SchemaAll(ts + [t])
    ensures Eval(Join(p, Scan(t, ds, false), fs, false)) == Select(RowsAll(ts + [t]), SchemaAll(ts + [t]), cs + ds + fs)
  {
    hide Applies, Select, Product;
    LastTable(ts, t);
    RowsAllFit(ts);
    TablesDisjoint(ts, t);
    PushDown(RowsAll(ts), t.rows, SchemaAll(ts), SchemaOf(t), cs, ds);
    SelectTwice(RowsAll(ts + [t]), SchemaAll(ts + [t]), cs + ds, fs);
    var scan := Scan(t, ds, false);
    assert Eval(scan) == Select(t.rows, SchemaOf(t), ds);
    assert PlanSchema(Join(p, scan, fs, false)) == SchemaAll(ts + [t]);
  }

  lemma LastTable(ts: seq<Table>, t: Table)
    requires ts != [] && TablesOk(ts + [t])
    ensures TablesOk(ts) && SchemaAll(ts + [t]) == SchemaAll(ts) + SchemaOf(t)
    ensures RowsAll(ts + [t]) == Product(RowsAll(ts), t.rows)
  {
    var ts' := ts + [t];
    assert ts'[..|ts|] == ts && ts'[|ts|] == t;
    assert forall i :: 0 <= i < |ts| ==> ts'[i] == ts[i];
  }

  lemma {:induction false} EmptyProduct(left: seq<Row>, right: seq<Row>)
    requires left == [] || right == []
    ensures Product(left, right) == []
  {
    if left != [] {
      EmptyProduct(left[1..], right);
    }
  }

  lemma JoinOfNothing(p: Plan, q: Plan, fs: seq<Cond>, banAll: bool)
    requires Eval(p) == [] || Eval(q) == [] || banAll
    ensures Eval(Join(p, q, fs, banAll)) == []
  {
    if !banAll { EmptyProduct(Eval(p), Eval(q)); }
  }
}
