/** The two ways to answer a SELECT, and when they yield the same rows. */
module SelectPaths {
  import opened Comparisons
  import opened Permutations
  import opened Rows
  import opened QueryPlan
  import opened QueryBuilder
  import opened CartesianPath
  import opened IndexHandler
  import opened TableScans

  /** The conditions on one table, and constant ones, in their order. */
  function ConditionsOn(cs: seq<Cond>, name: string): (r: seq<Cond>)
    ensures forall c :: c in r <==> c in cs && OnTable(c, name)
  {
    if cs == [] then []
    else
      var last := cs[|cs| - 1];
      ConditionsOn(cs[..|cs| - 1], name) + if OnTable(last, name) then [last] else []
  }

  /** create_selection_executor. */
  method TableConditions(cs: seq<Cond>, name: string) returns (filters: seq<Cond>)
    ensures filters == ConditionsOn(cs, name)
  {
    filters := [];
    for i := 0 to |cs|
      invariant filters == ConditionsOn(cs[..i], name)
    {
      assert cs[..i + 1][..i] == cs[..i];
      if OnTable(cs[i], name) {
        filters := filters + [cs[i]];
      }
    }
    assert cs[..|cs|] == cs;
  }

  /** create_cartesian_executor keeps the conditions between two attributes. */
  method PairConditions(cs: seq<Cond>) returns (filters: seq<Cond>)
    ensures forall c :: c in filters <==> c in cs && c.left.Field? && c.right.Field?
  {
    filters := [];
    for i := 0 to |cs|
      invariant forall c :: c in filters <==> c in cs[..i] && c.left.Field? && c.right.Field?
    {
      assert cs[..i + 1] == cs[..i] + [cs[i]];
      if cs[i].left.Field? && cs[i].right.Field? {
        filters := filters + [cs[i]];
      }
    }
    assert cs[..|cs|] == cs;
  }

  /** The filtered tables, combined, are the product on which `cs` hold: conditions of WHERE,
      and among them all those on one of the first `k` tables. */
  predicate Filtered(q: Query, k: nat, sets: seq<seq<Row>>, cs: seq<Cond>)
    requires 0 < k <= |AllTables(q)|
  {
    var ts := AllTables(q)[..k];
    && |sets| == k && Cross(sets) == Select(RowsAll(ts), SchemaAll(ts), cs)
    && (forall c :: c in cs ==> c in q.where && Applies(c, SchemaAll(ts)))
    && (forall c, m :: c in q.where && 0 <= m < k && OnTable(c, AllTables(q)[m].name) ==> c in cs)
  }

  lemma OnTableApplies(q: Query, k: nat, c: Cond)
    requires ValidQuery(q) && k < |AllTables(q)| && c in q.where && OnTable(c, AllTables(q)[k].name)
    ensures Applies(c, SchemaOf(AllTables(q)[k]))
  {
    if c.left.Field? { KnownOfTable(q, k, c.left.attr); }
    if c.right.Field? { KnownOfTable(q, k, c.right.attr); }
  }

  lemma FirstFiltered(q: Query, filters: seq<Cond>)
    requires ValidQuery(q) && forall c :: c in filters <==> c in q.where && OnTable(c, AllTables(q)[0].name)
    ensures Filtered(q, 1, [Select(AllTables(q)[0].rows, SchemaOf(AllTables(q)[0]), filters)], filters)
  {
    var ts := AllTables(q);
    assert ts[..1] == [ts[0]];
    forall d | d in filters ensures Applies(d, SchemaOf(ts[0])) { OnTableApplies(q, 0, d); }
    ScanRepresents(ts[0], filters);
    CrossSnoc([], Select(ts[0].rows, SchemaOf(ts[0]), filters));
    assert [] + [Select(ts[0].rows, SchemaOf(ts[0]), filters)] == [Select(ts[0].rows, SchemaOf(ts[0]), filters)];
  }

  lemma NextFiltered(q: Query, k: nat, sets: seq<seq<Row>>, cs: seq<Cond>, filters: seq<Cond>)
    requires ValidQuery(q) && 0 < k < |AllTables(q)| && Filtered(q, k, sets, cs)
    requires forall c :: c in filters <==> c in q.where && OnTable(c, AllTables(q)[k].name)
    ensures Filtered(q, k + 1, sets + [Select(AllTables(q)[k].rows, SchemaOf(AllTables(q)[k]), filters)], cs + filters)
  {
    hide SchemaAll, RowsAll, SchemaOf, Applies, OnTable, Select, Cross, Product, AllTables, ValidQuery, Fit;
    var ts, t := AllTables(q), AllTables(q)[k];
    FirstStep(q, k);
    ProductStep(q, k);
    forall d | d in filters ensures Applies(d, SchemaOf(t)) { OnTableApplies(q, k, d); }
    forall c | c in cs || c in filters ensures Applies(c, SchemaAll(ts[..k + 1])) {
      AppliesWider(c, SchemaAll(ts[..k]), SchemaOf(t));
    }
    PushDown(RowsAll(ts[..k]), t.rows, SchemaAll(ts[..k]), SchemaOf(t), cs, filters);
    CrossSnoc(sets, Select(t.rows, SchemaOf(t), filters));
  }

  lemma ProductStep(q: Query, k: nat)
    requires ValidQuery(q) && 0 < k < |AllTables(q)|
    ensures var ts, t := AllTables(q), AllTables(q)[k];
      && Fit(RowsAll(ts[..k]), SchemaAll(ts[..k])) && Fit(t.rows, SchemaOf(t))
      && (forall x :: x in SchemaAll(ts[..k]) ==> x !in SchemaOf(t))
      && RowsAll(ts[..k + 1]) == Product(RowsAll(ts[..k]), t.rows)
  {
    hide SchemaAll, SchemaOf, Product, AllTables, Fit;
    var ts, t := AllTables(q), AllTables(q)[k];
    FirstStep(q, k);
    assert TablesOk(ts[..k]) && TablesOk(ts[..k] + [t]);
    RowsAllFit(ts[..k]);
    TablesDisjoint(ts[..k], t);
    assert ts[..k + 1][..k] == ts[..k];
  }

  // ---- how the tables are read ------------------------------------------------------------------

  predicate AllStored(q: Query) {
    q.joins == [] && forall t :: t in q.relations ==> Stored(t)
  }

  /** The rows of a table as they come out of it. */
  function ReadTable(t: Table, where: seq<Cond>): Table
    requires Stored(t)
  {
    t.(rows := Delivered(t, ConditionsOn(where, t.name)))
  }

  /** The query over the tables as they are read. */
  function Read(q: Query): Query
    requires AllStored(q)
  {
    q.(relations := seq(|q.relations|, i requires 0 <= i < |q.relations| => ReadTable(q.relations[i], q.where)))
  }

  /** What is read of a table fits it. */
  lemma ReadFits(t: Table, where: seq<Cond>)
    requires Stored(t)
    ensures SchemaOf(ReadTable(t, where)) == SchemaOf(t) && Fit(ReadTable(t, where).rows, SchemaOf(t))
  {
    hide Delivered, Reached;
    var filters := ConditionsOn(where, t.name);
    var p := (r: Row) => Reached(t, filters, SchemaOf(t), r);
    DeliveredAreReached(t, filters);
    SameMembers(Delivered(t, filters), Keep(t.rows, p));
    forall r | r in Delivered(t, filters) ensures |r| == |SchemaOf(t)| {
      KeepHas(t.rows, p, r);
    }
  }

  lemma TablesRead(q: Query, k: nat)
    requires ValidQuery(q) && AllStored(q) && k < |AllTables(q)|
    ensures |AllTables(Read(q))| == |AllTables(q)| == |q.relations|
    ensures AllTables(q)[k] in q.relations && AllTables(Read(q))[k] == ReadTable(AllTables(q)[k], q.where)
  {
    hide ValidQuery, ReadTable, Stored;
  }

  lemma {:induction false} SchemasRead(q: Query, k: nat)
    requires ValidQuery(q) && AllStored(q) && k <= |AllTables(q)|
    ensures k <= |AllTables(Read(q))| == |AllTables(q)|
    ensures SchemaAll(AllTables(Read(q))[..k]) == SchemaAll(AllTables(q)[..k])
  {
    hide AllTables, Read, ReadTable, SchemaAll, ValidQuery;
    SomeTables(q);
    if k > 0 {
      SchemasRead(q, k - 1);
      TablesRead(q, k - 1);
      ReadFits(AllTables(q)[k - 1], q.where);
      FirstStep(q, k - 1);
      FirstStep(Read(q), k - 1);
    } else {
      NoSchema(AllTables(q));
      NoSchema(AllTables(Read(q)));
    }
  }

  lemma NoSchema(ts: seq<Table>)
    ensures SchemaAll(ts[..0]) == []
  {
  }

  /** Reading gives a query of the same form. */
  lemma ReadIsValid(q: Query)
    requires ValidQuery(q) && AllStored(q)
    ensures ValidQuery(Read(q)) && SchemaAll(AllTables(Read(q))) == SchemaAll(AllTables(q))
    ensures |AllTables(Read(q))| == |AllTables(q)| == |q.relations|
  {
    hide AllTables, SchemaAll, ReadTable, SchemaOf;
    var ts, us := AllTables(q), AllTables(Read(q));
    SomeTables(q);
    SchemasRead(q, |ts|);
    assert ts[..|ts|] == ts && us[..|ts|] == us;
    forall i | 0 <= i < |us| ensures Fit(us[i].rows, SchemaOf(us[i])) {
      TablesRead(q, i);
      ReadFits(ts[i], q.where);
    }
    forall i, j | 0 <= i < j < |us| ensures us[i].name != us[j].name {
      TablesRead(q, i);
      TablesRead(q, j);
      SameName(ts[i], q.where);
      SameName(ts[j], q.where);
    }
  }

  lemma SameName(t: Table, where: seq<Cond>)
    requires Stored(t)
    ensures ReadTable(t, where).name == t.name
  {
  }

  lemma SomeTables(q: Query)
    requires ValidQuery(q) && AllStored(q)
    ensures 0 < |AllTables(q)| == |q.relations| == |AllTables(Read(q))|
  {
  }

  // ---- the older path ------------------------------------------------------------------------------

  /** The selection nodes: every table is read and filtered by the conditions on it. */
  method SelectionNodes(q: Query, hs: map<string, seq<BplusTreeHandler>>) returns (sets: seq<seq<Row>>, ghost cs: seq<Cond>)
    requires ValidQuery(q) && AllStored(q)
    requires forall t :: t in q.relations ==> t.name in hs && Indexed(t, hs[t.name])
    ensures Filtered(Read(q), |q.relations|, sets, cs)
  {
    hide Filtered, ValidQuery, SchemaAll, Select, Delivered, Stored, Read, AllTables;
    var n := |q.relations|;
    SomeTables(q);
    ReadIsValid(q);
    var i := n - 1;
    sets, cs := [], [];
    while i >= 0
      invariant -1 <= i <= n - 1 && |sets| == n - 1 - i
      invariant i < n - 1 ==> Filtered(Read(q), n - 1 - i, sets, cs)
    {
      var t := q.relations[i];
      assert t in q.relations;
      var filters := TableConditions(q.where, t.name);
      var rows := ScanTable(t, hs[t.name], filters);
      NodeOf(q, n - 1 - i, rows, filters);
      if i == n - 1 {
        FirstFiltered(Read(q), filters);
        assert sets + [rows] == [rows];
        cs := filters;
      } else {
        NextFiltered(Read(q), n - 1 - i, sets, cs, filters);
        cs := cs + filters;
      }
      sets := sets + [rows];
      i := i - 1;
    }
  }

  lemma NodeOf(q: Query, k: nat, rows: seq<Row>, filters: seq<Cond>)
    requires ValidQuery(q) && AllStored(q) && k < |q.relations|
    requires var t := q.relations[|q.relations| - 1 - k];
      t in q.relations && filters == ConditionsOn(q.where, t.name) && rows == Select(Delivered(t, filters), SchemaOf(t), filters)
    ensures Read(q).where == q.where && k < |AllTables(Read(q))| == |q.relations|
    ensures var u := AllTables(Read(q))[k];
      && rows == Select(u.rows, SchemaOf(u), filters)
      && forall c :: c in filters <==> c in q.where && OnTable(c, u.name)
  {
    hide Delivered, Select;
    TablesRead(q, k);
    ReadFits(AllTables(q)[k], q.where);
  }

  /** do_select, up to the tuple set that is sorted and output. */
  method DoSelect(q: Query, hs: map<string, seq<BplusTreeHandler>>) returns (rows: seq<Row>)
    requires ValidQuery(q) && AllStored(q)
    requires forall t :: t in q.relations ==> t.name in hs && Indexed(t, hs[t.name])
    ensures AllTables(Read(q)) != []
    ensures rows == Select(RowsAll(AllTables(Read(q))), SchemaAll(AllTables(q)), q.where)
  {
    hide ValidQuery, SchemaAll, RowsAll, Select, Cross, Delivered;
    SomeTables(q);
    ReadIsValid(q);
    ghost var p := Read(q);
    assert AllTables(p)[..|q.relations|] == AllTables(p);
    ghost var cs;
    var sets;
    sets, cs := SelectionNodes(q, hs);
    if |sets| > 1 {
      var filters := PairConditions(q.where);
      rows := ExecuteCartesian(sets, SchemaAll(AllTables(q)), filters);
      SelectTwice(RowsAll(AllTables(p)), SchemaAll(AllTables(p)), cs, filters);
      NothingIsMissed(p, cs, filters);
    } else {
      rows := sets[0];
      CrossSnoc([], sets[0]);
      assert [] + [sets[0]] == sets;
      NothingIsMissed(p, cs, []);
      assert cs + [] == cs;
    }
  }

  lemma NothingIsMissed(q: Query, cs: seq<Cond>, filters: seq<Cond>)
    requires ValidQuery(q) && q.joins == []
    requires (forall c :: c in cs || c in filters ==> c in q.where)
    requires forall c, m :: c in q.where && 0 <= m < |AllTables(q)| && OnTable(c, AllTables(q)[m].name) ==> c in cs
    requires |AllTables(q)| == 1 || forall c :: c in q.where && c.left.Field? && c.right.Field? ==> c in filters
    ensures Select(RowsAll(AllTables(q)), SchemaAll(AllTables(q)), cs + filters)
         == Select(RowsAll(AllTables(q)), SchemaAll(AllTables(q)), q.where)
  {
    hide SchemaAll, RowsAll, SchemaOf, Holds;
    var ts := AllTables(q);
    forall c | c in q.where ensures c in cs + filters {
      if |ts| == 1 || c.left.Const? || c.right.Const? { OnSomeTable(q, c); }
    }
    SelectSame(RowsAll(ts), SchemaAll(ts), cs + filters, q.where);
  }

  /** A condition with at most one attribute, or in a query of one table, is on one table. */
  lemma OnSomeTable(q: Query, c: Cond)
    requires ValidQuery(q) && c in q.where && (|AllTables(q)| == 1 || c.left.Const? || c.right.Const?)
    ensures exists m :: 0 <= m < |AllTables(q)| && OnTable(c, AllTables(q)[m].name)
  {
    var ts := AllTables(q);
    if Constant(c) {
      assert OnTable(c, ts[0].name);
    } else {
      var a := if c.left.Field? then c.left.attr else c.right.attr;
      InSchemaAll(ts, a);
      var m :| 0 <= m < |ts| && a in SchemaOf(ts[m]);
      SchemaNames(ts[m], a);
      if c.left.Field? && c.right.Field? {
        InSchemaAll(ts, c.right.attr);
        var m' :| 0 <= m' < |ts| && c.right.attr in SchemaOf(ts[m']);
        SchemaNames(ts[m'], c.right.attr);
      }
      assert OnTable(c, ts[m].name);
    }
  }

  // ---- which rows come out --------------------------------------------------------------------------

  /** The row of the product is met by the scans of all the tables. */
  predicate Met(ts: seq<Table>, where: seq<Cond>, s: Schema, r: Row) {
    forall i :: 0 <= i < |ts| ==> Reached(ts[i], ConditionsOn(where, ts[i].name), s, r)
  }

  lemma ReachedLeft(t: Table, filters: seq<Cond>, s: Schema, s': Schema, a: Row, b: Row)
    requires |a| == |s| && |b| == |s'| && forall x :: x in SchemaOf(t) ==> x in s
    ensures Reached(t, filters, s + s', a + b) <==> Reached(t, filters, s, a)
  {
    var k := Chosen(t, filters);
    if k < |filters| { IndexInLeft(s, s', AttrOf(filters[k])); }
  }

  lemma ReachedRight(t: Table, filters: seq<Cond>, s: Schema, s': Schema, a: Row, b: Row)
    requires |a| == |s| && |b| == |s'| && forall x :: x in SchemaOf(t) ==> x in s' && x !in s
    ensures Reached(t, filters, s + s', a + b) <==> Reached(t, filters, s', b)
  {
    var k := Chosen(t, filters);
    if k < |filters| { IndexInRight(s, s', AttrOf(filters[k])); }
  }

  lemma MetByBoth(ts: seq<Table>, t: Table, where: seq<Cond>, s: Schema, a: Row, b: Row)
    requires |a| == |s| && |b| == |SchemaOf(t)|
    requires forall i, x :: 0 <= i < |ts| && x in SchemaOf(ts[i]) ==> x in s
    requires forall x :: x in SchemaOf(t) ==> x !in s
    ensures Met(ts + [t], where, s + SchemaOf(t), a + b)
       <==> Met(ts, where, s, a) && Reached(t, ConditionsOn(where, t.name), SchemaOf(t), b)
  {
    hide Reached, SchemaOf;
    forall i | 0 <= i < |ts|
      ensures Reached(ts[i], ConditionsOn(where, ts[i].name), s + SchemaOf(t), a + b)
         <==> Reached(ts[i], ConditionsOn(where, ts[i].name), s, a)
    {
      ReachedLeft(ts[i], ConditionsOn(where, ts[i].name), s, SchemaOf(t), a, b);
    }
    ReachedRight(t, ConditionsOn(where, t.name), s, SchemaOf(t), a, b);
    var all := ts + [t];
    assert all[|ts|] == t && forall i :: 0 <= i < |ts| ==> all[i] == ts[i];
  }

  /** Of the product of the tables, what is read is, in some order, what all the scans meet. */
  lemma {:induction false} ReadRows(q: Query, k: nat)
    requires ValidQuery(q) && AllStored(q) && 0 < k <= |AllTables(q)|
    ensures |AllTables(Read(q))| == |AllTables(q)|
    ensures multiset(RowsAll(AllTables(Read(q))[..k]))
         == multiset(Keep(RowsAll(AllTables(q)[..k]), r => Met(AllTables(q)[..k], q.where, SchemaAll(AllTables(q)[..k]), r)))
  {
    hide AllTables, Read, RowsAll, Met, Reached, Delivered, ValidQuery, SchemaAll;
    var ts, us := AllTables(q), AllTables(Read(q));
    SomeTables(q);
    var t := ts[k - 1];
    TablesRead(q, k - 1);
    DeliveredAreReached(t, ConditionsOn(q.where, t.name));
    if k == 1 {
      FirstRead(ts, us, q.where);
    } else {
      ReadRows(q, k - 1);
      NextRead(q, k - 1);
    }
  }

  lemma FirstRead(ts: seq<Table>, us: seq<Table>, where: seq<Cond>)
    requires ts != [] && us != [] && Stored(ts[0]) && us[0] == ReadTable(ts[0], where)
    ensures multiset(RowsAll(us[..1])) == multiset(Keep(RowsAll(ts[..1]), r => Met(ts[..1], where, SchemaAll(ts[..1]), r)))
  {
    hide Reached, Delivered;
    var t := ts[0];
    var filters := ConditionsOn(where, t.name);
    assert SchemaAll(ts[..1]) == [] + SchemaOf(t) == SchemaOf(t);
    DeliveredAreReached(t, filters);
    KeepSame(t.rows, r => Reached(t, filters, SchemaOf(t), r), r => Met(ts[..1], where, SchemaAll(ts[..1]), r));
  }

  lemma NextRead(q: Query, k: nat)
    requires ValidQuery(q) && AllStored(q) && 0 < k < |AllTables(q)| == |AllTables(Read(q))|
    requires multiset(RowsAll(AllTables(Read(q))[..k]))
          == multiset(Keep(RowsAll(AllTables(q)[..k]), r => Met(AllTables(q)[..k], q.where, SchemaAll(AllTables(q)[..k]), r)))
    ensures multiset(RowsAll(AllTables(Read(q))[..k + 1]))
         == multiset(Keep(RowsAll(AllTables(q)[..k + 1]), r => Met(AllTables(q)[..k + 1], q.where, SchemaAll(AllTables(q)[..k + 1]), r)))
  {
    hide AllTables, Read, RowsAll, Met, Reached, Delivered, ValidQuery, SchemaAll, Product;
    var ts, us, t := AllTables(q), AllTables(Read(q)), AllTables(q)[k];
    var s, filters := SchemaAll(ts[..k]), ConditionsOn(q.where, t.name);
    TablesRead(q, k);
    ReadIsValid(q);
    ProductStep(q, k);
    ProductStep(Read(q), k);
    DeliveredAreReached(t, filters);
    var p := (r: Row) => Met(ts[..k], q.where, s, r);
    var p' := (r: Row) => Reached(t, filters, SchemaOf(t), r);
    var both := (r: Row) => Met(ts[..k + 1], q.where, SchemaAll(ts[..k + 1]), r);
    ProductPermutes(RowsAll(us[..k]), Keep(RowsAll(ts[..k]), p), Delivered(t, filters), Keep(t.rows, p'));
    forall a, b | a in RowsAll(ts[..k]) && b in t.rows ensures both(a + b) <==> p(a) && p'(b) {
      MetStep(q, k, a, b);
    }
    KeepProduct(RowsAll(ts[..k]), t.rows, p, p', both);
  }

  lemma MetStep(q: Query, k: nat, a: Row, b: Row)
    requires ValidQuery(q) && 0 < k < |AllTables(q)| && a in RowsAll(AllTables(q)[..k]) && b in AllTables(q)[k].rows
    ensures var ts, t := AllTables(q), AllTables(q)[k];
      Met(ts[..k + 1], q.where, SchemaAll(ts[..k + 1]), a + b)
      <==> Met(ts[..k], q.where, SchemaAll(ts[..k]), a) && Reached(t, ConditionsOn(q.where, t.name), SchemaOf(t), b)
  {
    hide AllTables, RowsAll, Met, Reached, SchemaAll, SchemaOf;
    var ts, t, s := AllTables(q), AllTables(q)[k], SchemaAll(AllTables(q)[..k]);
    FirstStep(q, k);
    ProductStep(q, k);
    forall i, x | 0 <= i < |ts[..k]| && x in SchemaOf(ts[..k][i]) ensures x in s {
      InSchemaAll(ts[..k], x);
    }
    forall x | x in SchemaOf(t) ensures x !in s { }
    MetByBoth(ts[..k], t, q.where, s, a, b);
  }

  /** The older path yields the rows of the query, in some order, if and only if every one of them is met
      by the scans; and it yields them in order where no condition chooses an index. */
  lemma OlderPathIsComplete(q: Query)
    requires ValidQuery(q) && AllStored(q)
    ensures AllTables(q) != [] && AllTables(Read(q)) != []
    ensures var ts, s := AllTables(q), SchemaAll(AllTables(q));
      var selected, read := Select(RowsAll(ts), s, q.where), Select(RowsAll(AllTables(Read(q))), s, q.where);
      && (multiset(read) == multiset(selected) <==> forall r :: r in selected ==> Met(ts, q.where, s, r))
      && ((forall t :: t in q.relations ==> Chosen(t, ConditionsOn(q.where, t.name)) == |ConditionsOn(q.where, t.name)|) ==> read == selected)
  {
    hide AllTables, Read, RowsAll, Met, Delivered, ValidQuery, SchemaAll, Select, Stored;
    var ts, us, s := AllTables(q), AllTables(Read(q)), SchemaAll(AllTables(q));
    SomeTables(q);
    ReadRows(q, |ts|);
    assert ts[..|ts|] == ts && us[..|ts|] == us;
    SelectIsKeep(RowsAll(ts), s, q.where);
    SelectIsKeep(RowsAll(us), s, q.where);
    LeftOver(RowsAll(ts), RowsAll(us), (r: Row) => AllHold(q.where, s, r), (r: Row) => Met(ts, q.where, s, r));
    if forall t :: t in q.relations ==> Chosen(t, ConditionsOn(q.where, t.name)) == |ConditionsOn(q.where, t.name)| {
      NothingChosen(q);
    }
  }

  lemma NothingChosen(q: Query)
    requires AllStored(q)
    requires forall t :: t in q.relations ==> Chosen(t, ConditionsOn(q.where, t.name)) == |ConditionsOn(q.where, t.name)|
    ensures Read(q) == q
  {
    hide Delivered, Stored;
    forall i | 0 <= i < |q.relations| ensures ReadTable(q.relations[i], q.where) == q.relations[i] {
      assert q.relations[i] in q.relations;
      NoneChosen(q.relations[i], ConditionsOn(q.where, q.relations[i].name));
    }
    assert Read(q).relations == q.relations;
  }

  /** Which rows are met: of comparable values, for every table the chosen condition must have the
      attribute on its left, or an operator that can be turned round, or the row the value itself. */
  lemma WhichAreMet(q: Query, r: Row)
    requires ValidQuery(q) && r in Select(RowsAll(AllTables(q)), SchemaAll(AllTables(q)), q.where)
    requires forall t :: t in AllTables(q) && Chosen(t, ConditionsOn(q.where, t.name)) < |ConditionsOn(q.where, t.name)| ==>
      ComparedWell(t, ConditionsOn(q.where, t.name), SchemaAll(AllTables(q)), r)
    ensures Met(AllTables(q), q.where, SchemaAll(AllTables(q)), r)
       <==> forall t :: t in AllTables(q) ==> Straight(t, ConditionsOn(q.where, t.name), SchemaAll(AllTables(q)), r)
  {
    hide RowsAll, AllTables, SchemaAll, Reached, ValidQuery;
    var ts, s := AllTables(q), SchemaAll(AllTables(q));
    TablesNotEmpty(q);
    SelectFits(RowsAll(ts), s, q.where);
    forall t | t in ts
      ensures Reached(t, ConditionsOn(q.where, t.name), s, r) <==> Straight(t, ConditionsOn(q.where, t.name), s, r)
    {
      var filters := ConditionsOn(q.where, t.name);
      if Chosen(t, filters) < |filters| {
        assert filters[Chosen(t, filters)] in filters;
        WhoIsReached(t, filters, s, r);
      } else {
        NotChosenIsReached(t, filters, s, r);
      }
    }
    assert forall i :: 0 <= i < |ts| ==> ts[i] in ts;
  }

  lemma NotChosenIsReached(t: Table, filters: seq<Cond>, s: Schema, r: Row)
    requires Chosen(t, filters) == |filters|
    ensures Reached(t, filters, s, r)
  {
  }

  /** The two sides of the chosen condition are comparable. */
  predicate ComparedWell(t: Table, filters: seq<Cond>, s: Schema, r: Row)
    requires Chosen(t, filters) < |filters|
  {
    var c := filters[Chosen(t, filters)];
    Applies(c, s) && |r| == |s| && Comparable(Get(c.left, s, r), Get(c.right, s, r), LengthFor(t, c))
  }

  /** Scanning for the operator as it stands finds the row. */
  predicate Straight(t: Table, filters: seq<Cond>, s: Schema, r: Row) {
    var k := Chosen(t, filters);
    k < |filters| ==>
      var c := filters[k];
      || c.left.Field? || SymmetricOp(c.op) == c.op
      || (AttrOf(c) in s && |r| == |s|
          && AttrRank(Get(Field(AttrOf(c)), s, r), LengthFor(t, c)) == AttrRank(ValueOf(c), LengthFor(t, c)))
  }

  /** For a query without joins, the plan of the builder yields the rows on which all conditions hold, in
      the order of the product; the older path yields the same rows, if and only if its scans meet them
      all, and in the same order where no condition chooses an index. */
  method PathsAgree(q: Query, hs: map<string, seq<BplusTreeHandler>>) returns (planned: seq<Row>, product: seq<Row>)
    requires ValidQuery(q) && AllStored(q)
    requires forall t :: t in q.relations ==> t.name in hs && Indexed(t, hs[t.name])
    ensures AllTables(q) != []
    ensures planned == Select(RowsAll(AllTables(q)), SchemaAll(AllTables(q)), q.where)
    ensures multiset(product) == multiset(planned)
       <==> forall r :: r in planned ==> Met(AllTables(q), q.where, SchemaAll(AllTables(q)), r)
    ensures (forall t :: t in q.relations ==> Chosen(t, ConditionsOn(q.where, t.name)) == |ConditionsOn(q.where, t.name)|)
      ==> product == planned
  {
    hide ValidQuery, SchemaAll, RowsAll, Select, Eval, Met, Delivered, Stored;
    OlderPathIsComplete(q);
    var plan := Build(q);
    planned := Execute(plan);
    product := DoSelect(q, hs);
    assert WantedConds(q) == q.where;
  }

  // ---- the select list -------------------------------------------------------------------------

  function Among(out: seq<Attr>, s: Schema): (r: seq<Attr>)
    ensures forall a :: a in r ==> a in s
  {
    if out == [] then [] else (if out[0] in s then [out[0]] else []) + Among(out[1..], s)
  }

  /** The columns of the select list in the order in which the topmost join emits them: those
      of the left side, then those of the right side. */
  function Emitted(out: seq<Attr>, left: Schema, right: Schema): seq<Attr> {
    Among(out, left) + Among(out, right)
  }

  /** No column of the right side stands before one of the left side. */
  predicate Grouped(out: seq<Attr>, left: Schema) {
    forall i, j :: 0 <= i < j < |out| && out[j] in left ==> out[i] in left
  }

  lemma {:induction false} AllAmong(out: seq<Attr>, s: Schema, t: Schema)
    requires forall a :: a in out ==> a in s && a !in t
    ensures Among(out, s) == out && Among(out, t) == []
  {
    if out != [] {
      assert out[0] in out;
      AllAmong(out[1..], s, t);
    }
  }

  /** The values come out under the right heads if and only if the select list names the
      columns of the left side first. */
  lemma {:induction false} HeadsMatchColumns(out: seq<Attr>, left: Schema, right: Schema)
    requires forall a :: a in out ==> (a in left <==> a !in right)
    ensures Emitted(out, left, right) == out <==> Grouped(out, left)
  {
    hide Grouped;
    if out == [] {
      NothingIsGrouped(left);
    } else {
      assert out[0] in out;
      if out[0] in left {
        HeadsMatchColumns(out[1..], left, right);
        LeftFirst(out, left);
        EmittedLeft(out, left, right);
      } else {
        RightFirst(out, left, right);
      }
    }
  }

  lemma NothingIsGrouped(left: Schema)
    ensures Grouped([], left)
  {
  }

  lemma LeftFirst(out: seq<Attr>, left: Schema)
    requires out != [] && out[0] in left
    ensures Grouped(out, left) <==> Grouped(out[1..], left)
  {
    if Grouped(out, left) {
      forall i, j | 0 <= i < j < |out[1..]| && out[1..][j] in left ensures out[1..][i] in left {
        assert out[j + 1] in left;
      }
    }
  }

  lemma EmittedLeft(out: seq<Attr>, left: Schema, right: Schema)
    requires out != [] && out[0] in left && out[0] !in right
    ensures Emitted(out, left, right) == [out[0]] + Emitted(out[1..], left, right)
    ensures Emitted(out, left, right) == out <==> Emitted(out[1..], left, right) == out[1..]
  {
    var rest := Emitted(out[1..], left, right);
    assert Emitted(out, left, right) == [out[0]] + rest;
    assert ([out[0]] + rest)[1..] == rest && out == [out[0]] + out[1..];
  }

  lemma RightFirst(out: seq<Attr>, left: Schema, right: Schema)
    requires out != [] && out[0] !in left && forall a :: a in out ==> (a in left <==> a !in right)
    ensures Emitted(out, left, right) == out <==> Grouped(out, left)
  {
    if j: nat :| j < |out| && out[j] in left {
      SomeAmong(out, left, j);
      assert Emitted(out, left, right)[0] in left;
      assert !Grouped(out, left);
    } else {
      forall a | a in out ensures a in right && a !in left {
        var j :| 0 <= j < |out| && out[j] == a;
      }
      AllAmong(out, right, left);
      assert Emitted(out, left, right) == out;
    }
  }

  lemma {:induction false} SomeAmong(out: seq<Attr>, s: Schema, j: nat)
    requires j < |out| && out[j] in s
    ensures Among(out, s) != []
  {
    if j > 0 {
      SomeAmong(out[1..], s, j - 1);
    }
  }
}
