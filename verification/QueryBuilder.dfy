/** The executor builder: which conditions are pushed into which scan and which join, and that
    nothing is lost by it. */
module QueryBuilder {
  import opened Keys
  import opened Comparisons
  import opened Rows
  import opened QueryPlan

  function Reverse(ts: seq<Table>): (r: seq<Table>)
    ensures |r| == |ts| && forall i :: 0 <= i < |ts| ==> r[i] == ts[|ts| - 1 - i]
  {
    seq(|ts|, i requires 0 <= i < |ts| => ts[|ts| - 1 - i])
  }

  function JoinTables(js: seq<JoinOn>): (r: seq<Table>)
    ensures |r| == |js| && forall i :: 0 <= i < |js| ==> r[i] == js[i].table
  {
    seq(|js|, i requires 0 <= i < |js| => js[i].table)
  }

  /** The tables in their textual order. */
  function AllTables(q: Query): seq<Table> {
    Reverse(q.relations) + JoinTables(q.joins)
  }

  /** Every attribute belongs to a table of the query. */
  predicate AttrsOk(cs: seq<Cond>, s: Schema) {
    forall c :: c in cs ==> Applies(c, s)
  }

  predicate ValidQuery(q: Query) {
    && q.relations != [] && TablesOk(AllTables(q))
    && AttrsOk(q.where, SchemaAll(AllTables(q)))
    && forall i :: 0 <= i < |q.joins| ==> AttrsOk(q.joins[i].on, SchemaAll(AllTables(q)))
  }

  predicate OnTable(c: Cond, name: string) {
    && (c.left.Field? ==> c.left.attr.table == name)
    && (c.right.Field? ==> c.right.attr.table == name)
  }

  /** The first `k` tables. */
  function First(q: Query, k: nat): seq<Table>
    requires k <= |q.relations| + |q.joins|
  {
    AllTables(q)[..k]
  }

  /** An ON condition that the builder drops: it compares an attribute of another table with a
      value, or needs a table that is joined later. */
  predicate Dropped(q: Query, i: nat, c: Cond)
    requires i < |q.joins|
  {
    && !Constant(c) && !OnTable(c, q.joins[i].table.name)
    && !(c.left.Field? && c.right.Field? && Applies(c, SchemaAll(First(q, |q.relations| + i + 1))))
  }

  /** The condition is asked for, and is not dropped. */
  predicate Wanted(q: Query, c: Cond) {
    c in q.where || exists i :: 0 <= i < |q.joins| && c in q.joins[i].on && !Dropped(q, i, c)
  }

  /** All conditions of the query. */
  predicate Asked(q: Query, c: Cond) {
    c in q.where || exists i :: 0 <= i < |q.joins| && c in q.joins[i].on
  }

  predicate TableIn(s: Schema, name: string) {
    exists a :: a in s && a.table == name
  }

  // ---- from table names to attributes -----------------------------------------------------------

  lemma SchemaNames(t: Table, a: Attr)
    requires a in SchemaOf(t)
    ensures a.table == t.name
  {
  }

  /** An attribute of the query is in a part of its tables as soon as its table is. */
  lemma KnownByTable(q: Query, k: nat, a: Attr)
    requires ValidQuery(q) && k <= |AllTables(q)| && a in SchemaAll(AllTables(q)) && TableIn(SchemaAll(AllTables(q)[..k]), a.table)
    ensures a in SchemaAll(AllTables(q)[..k])
  {
    var ts := AllTables(q);
    var b :| b in SchemaAll(ts[..k]) && b.table == a.table;
    InSchemaAll(ts[..k], b);
    InSchemaAll(ts, a);
    InSchemaAll(ts[..k], a);
    var i :| 0 <= i < k && b in SchemaOf(ts[..k][i]);
    var j :| 0 <= j < |ts| && a in SchemaOf(ts[j]);
    SchemaNames(ts[i], b);
    SchemaNames(ts[j], a);
    assert i == j;
    assert a in SchemaOf(ts[..k][i]);
  }

  lemma KnownOfTable(q: Query, k: nat, a: Attr)
    requires ValidQuery(q) && k < |AllTables(q)| && a in SchemaAll(AllTables(q)) && a.table == AllTables(q)[k].name
    ensures a in SchemaOf(AllTables(q)[k])
  {
    var ts := AllTables(q);
    InSchemaAll(ts, a);
    var j :| 0 <= j < |ts| && a in SchemaOf(ts[j]);
    SchemaNames(ts[j], a);
    assert j == k;
  }

  lemma FirstStep(q: Query, k: nat)
    requires k < |AllTables(q)|
    ensures AllTables(q)[..k + 1] == AllTables(q)[..k] + [AllTables(q)[k]]
    ensures SchemaAll(AllTables(q)[..k + 1]) == SchemaAll(AllTables(q)[..k]) + SchemaOf(AllTables(q)[k])
  {
    var ts := AllTables(q);
    assert ts[..k + 1][..k] == ts[..k];
  }

  /** What from_condition keeps for a table applies to the table. */
  lemma KeptApplies(q: Query, k: nat, c: Cond)
    requires ValidQuery(q) && k < |AllTables(q)| && Applies(c, SchemaAll(AllTables(q)))
    requires Kept(c, OneTable(AllTables(q)[k].name), false)
    ensures Applies(c, SchemaOf(AllTables(q)[k]))
  {
    if c.left.Field? { KnownOfTable(q, k, c.left.attr); }
    if c.right.Field? { KnownOfTable(q, k, c.right.attr); }
  }

  predicate Relevant(c: Cond, s: Schema) {
    && (c.left.Field? ==> TableIn(s, c.left.attr.table))
    && (c.right.Field? ==> TableIn(s, c.right.attr.table))
  }

  /** The constructor of the join keeps the filters whose tables it joins. */
  method RelevantFilters(filters: seq<Cond>, s: Schema) returns (kept: seq<Cond>)
    ensures forall c :: c in kept <==> c in filters && Relevant(c, s)
  {
    kept := [];
    for i := 0 to |filters|
      invariant forall c :: c in kept <==> c in filters[..i] && Relevant(c, s)
    {
      var c := filters[i];
      assert filters[..i + 1] == filters[..i] + [c];
      if Relevant(c, s) {
        kept := kept + [c];
      }
    }
    assert filters[..|filters|] == filters;
  }

  lemma RelevantApplies(q: Query, k: nat, c: Cond)
    requires ValidQuery(q) && k <= |AllTables(q)| && Applies(c, SchemaAll(AllTables(q)))
    ensures Relevant(c, SchemaAll(AllTables(q)[..k])) <==> Applies(c, SchemaAll(AllTables(q)[..k]))
  {
    if c.left.Field? && TableIn(SchemaAll(AllTables(q)[..k]), c.left.attr.table) { KnownByTable(q, k, c.left.attr); }
    if c.right.Field? && TableIn(SchemaAll(AllTables(q)[..k]), c.right.attr.table) { KnownByTable(q, k, c.right.attr); }
  }

  /** A condition that two tables together can answer, but neither alone, is between attributes. */
  lemma WhereItGoes(c: Cond, s: Schema, t: Table)
    requires Applies(c, s + SchemaOf(t)) && !Applies(c, s) && !Constant(c)
    ensures (c.left.Field? && c.right.Field?) || Kept(c, OneTable(t.name), false)
  {
    if c.left.Field? && c.left.attr !in s { SchemaNames(t, c.left.attr); }
    if c.right.Field? && c.right.attr !in s { SchemaNames(t, c.right.attr); }
  }

  // ---- the tables of FROM -----------------------------------------------------------------------

  /** The plan yields the first `k` tables' rows on which `cs` hold, conditions of WHERE; every
      one that the tables can answer is among them. */
  predicate Selected(q: Query, k: nat, plan: Plan, cs: seq<Cond>)
    requires k <= |AllTables(q)|
  {
    && Represents(plan, AllTables(q)[..k], cs)
    && (forall c :: c in cs ==> c in q.where && !Constant(c))
    && (forall c :: c in q.where && !Constant(c) && Applies(c, SchemaAll(AllTables(q)[..k])) ==> c in cs)
  }

  /** build_select_executor. */
  method BuildSelect(q: Query) returns (plan: Plan, ghost cs: seq<Cond>)
    requires ValidQuery(q)
    ensures PlanSchema(plan) == SchemaAll(AllTables(q)[..|q.relations|])
    ensures if SomeFalse(q.where) then Eval(plan) == [] else Selected(q, |q.relations|, plan, cs)
  {
    hide Selected, SchemaAll, Eval, PlanSchema, TablesOk, AttrsOk;
    var n := |q.relations|;
    plan, cs := FirstScan(q);
    var i := n - 2;
    while i >= 0
      invariant -1 <= i <= n - 2
      invariant PlanSchema(plan) == SchemaAll(AllTables(q)[..n - 1 - i])
      invariant if SomeFalse(q.where) then Eval(plan) == [] else Selected(q, n - 1 - i, plan, cs)
    {
      plan, cs := AddTable(q, n - 1 - i, plan, cs);
      i := i - 1;
    }
  }

  method FirstScan(q: Query) returns (plan: Plan, ghost cs: seq<Cond>)
    requires ValidQuery(q)
    ensures PlanSchema(plan) == SchemaAll(AllTables(q)[..1])
    ensures if SomeFalse(q.where) then Eval(plan) == [] else Selected(q, 1, plan, cs)
  {
    var table := q.relations[|q.relations| - 1];
    var filters, banAll := FromConditions(q.where, OneTable(table.name), false);
    plan, cs := Scan(table, filters, banAll), filters;
    assert AllTables(q)[0] == table && AllTables(q)[..1] == [table] && AllTables(q)[..0] == [];
    FirstStep(q, 0);
    if !banAll {
      forall d | d in filters ensures Applies(d, SchemaOf(table)) { KeptApplies(q, 0, d); }
      ScanRepresents(table, filters);
      forall c | c in q.where && !Constant(c) && Applies(c, SchemaOf(table)) ensures c in filters {
        WhereItGoes(c, [], table);
        OwnTable(c, table);
      }
    }
  }

  lemma OwnTable(c: Cond, t: Table)
    requires Applies(c, SchemaOf(t)) && !Constant(c)
    ensures Kept(c, OneTable(t.name), false)
  {
    if c.left.Field? { SchemaNames(t, c.left.attr); }
    if c.right.Field? { SchemaNames(t, c.right.attr); }
  }

  /** One turn of the loop: table `k` is scanned and joined. */
  method AddTable(q: Query, k: nat, plan: Plan, ghost cs: seq<Cond>) returns (plan': Plan, ghost cs': seq<Cond>)
    requires ValidQuery(q) && 0 < k < |q.relations|
    requires PlanSchema(plan) == SchemaAll(AllTables(q)[..k])
    requires if SomeFalse(q.where) then Eval(plan) == [] else Selected(q, k, plan, cs)
    ensures PlanSchema(plan') == SchemaAll(AllTables(q)[..k + 1])
    ensures if SomeFalse(q.where) then Eval(plan') == [] else Selected(q, k + 1, plan', cs')
  {
    hide SchemaAll, SchemaOf, Relevant, Kept, TablesOk, AttrsOk, Selected, Select;
    var table := q.relations[|q.relations| - 1 - k];
    assert AllTables(q)[k] == table;
    var filters, banScan := FromConditions(q.where, OneTable(table.name), false);
    var right := Scan(table, filters, banScan);
    var joinFilters, banAll := FromConditions(q.where, AnyTable, true);
    var kept := RelevantFilters(joinFilters, PlanSchema(plan) + PlanSchema(right));
    plan', cs' := Join(plan, right, kept, banAll), cs + filters + kept;
    FirstStep(q, k);
    if banAll {
      JoinOfNothing(plan, right, kept, banAll);
    } else {
      SelectStep(q, k, plan, cs, filters, joinFilters, kept);
    }
  }

  lemma SelectStep(q: Query, k: nat, plan: Plan, cs: seq<Cond>, filters: seq<Cond>, joinFilters: seq<Cond>, kept: seq<Cond>)
    requires ValidQuery(q) && k < |AllTables(q)| && Selected(q, k, plan, cs)
    requires var t := AllTables(q)[k];
      && (forall c :: c in filters <==> c in q.where && Kept(c, OneTable(t.name), false))
      && (forall c :: c in joinFilters <==> c in q.where && Kept(c, AnyTable, true))
      && (forall c :: c in kept <==> c in joinFilters && Relevant(c, SchemaAll(AllTables(q)[..k]) + SchemaOf(t)))
    ensures Selected(q, k + 1, Join(plan, Scan(AllTables(q)[k], filters, false), kept, false), cs + filters + kept)
  {
    hide SchemaAll, SchemaOf, Relevant, Represents, AllTables, Applies;
    var ts, t := AllTables(q), AllTables(q)[k];
    FirstStep(q, k);
    forall c | c in q.where ensures Relevant(c, SchemaAll(ts[..k + 1])) <==> Applies(c, SchemaAll(ts[..k + 1])) {
      RelevantApplies(q, k + 1, c);
    }
    forall d | d in filters ensures Applies(d, SchemaOf(t)) { KeptApplies(q, k, d); }
    JoinRepresents(plan, ts[..k], cs, t, filters, kept);
    forall c | c in q.where && !Constant(c) && Applies(c, SchemaAll(ts[..k + 1])) ensures c in cs + filters + kept {
      if !Applies(c, SchemaAll(ts[..k])) { WhereItGoes(c, SchemaAll(ts[..k]), t); }
    }
  }

  // ---- the joins ------------------------------------------------------------------------------------

  /** The plan yields the rows of all tables up to join `j` on which `cs` hold: wanted
      conditions; among them those of WHERE that the tables of FROM or a single table answer,
      and all that are kept of the ON conditions so far. */
  predicate Joined(q: Query, j: nat, plan: Plan, cs: seq<Cond>)
    requires j <= |q.joins|
  {
    var k := |q.relations| + j;
    && Represents(plan, AllTables(q)[..k], cs)
    && (forall c :: c in cs ==> Wanted(q, c) && !Constant(c))
    && (forall c :: c in q.where && !Constant(c) && Applies(c, SchemaAll(AllTables(q)[..|q.relations|])) ==> c in cs)
    && (forall c, m :: c in q.where && !Constant(c) && 0 <= m < k && OnTable(c, AllTables(q)[m].name) ==> c in cs)
    && (forall i, c :: 0 <= i < j && c in q.joins[i].on && !Constant(c) && !Dropped(q, i, c) ==> c in cs)
    && (j == |q.joins| ==> forall c :: c in q.where && !Constant(c) ==> c in cs)
  }

  predicate SomeFalseOn(q: Query, j: nat)
    requires j <= |q.joins|
  {
    exists i :: 0 <= i < j && SomeFalse(q.joins[i].on)
  }

  /** build_join_executor. */
  method BuildJoins(q: Query, select: Plan, ghost cs: seq<Cond>) returns (plan: Plan, ghost cs': seq<Cond>)
    requires ValidQuery(q) && PlanSchema(select) == SchemaAll(AllTables(q)[..|q.relations|])
    requires if SomeFalse(q.where) then Eval(select) == [] else Selected(q, |q.relations|, select, cs)
    ensures if SomeFalse(q.where) || SomeFalseOn(q, |q.joins|) then Eval(plan) == [] else Joined(q, |q.joins|, plan, cs')
  {
    hide Joined, Selected, SchemaAll, Eval, PlanSchema, SomeFalse, TablesOk, AttrsOk;
    plan, cs' := select, cs;
    if !SomeFalse(q.where) { NoJoinsYet(q, plan, cs'); }
    for j := 0 to |q.joins|
      invariant PlanSchema(plan) == SchemaAll(AllTables(q)[..|q.relations| + j])
      invariant if SomeFalse(q.where) || SomeFalseOn(q, j) then Eval(plan) == [] else Joined(q, j, plan, cs')
    {
      plan, cs' := AddJoin(q, j, plan, cs');
    }
  }

  lemma NoJoinsYet(q: Query, plan: Plan, cs: seq<Cond>)
    requires ValidQuery(q) && Selected(q, |q.relations|, plan, cs)
    ensures Joined(q, 0, plan, cs)
  {
    var n, ts := |q.relations|, AllTables(q);
    forall c, m | c in q.where && !Constant(c) && 0 <= m < n && OnTable(c, ts[m].name) ensures c in cs {
      AnswersAlone(q, n, m, c);
    }
    if |q.joins| == 0 { assert ts[..n] == ts; }
  }

  /** What one of the first `k` tables answers alone, the first `k` tables answer together. */
  lemma AnswersAlone(q: Query, k: nat, m: nat, c: Cond)
    requires ValidQuery(q) && m < k <= |AllTables(q)| && Applies(c, SchemaAll(AllTables(q))) && OnTable(c, AllTables(q)[m].name)
    ensures Applies(c, SchemaAll(AllTables(q)[..k]))
  {
    var ts := AllTables(q);
    if c.left.Field? {
      KnownOfTable(q, m, c.left.attr);
      assert ts[..k][m] == ts[m];
      InSchemaAll(ts[..k], c.left.attr);
    }
    if c.right.Field? {
      KnownOfTable(q, m, c.right.attr);
      assert ts[..k][m] == ts[m];
      InSchemaAll(ts[..k], c.right.attr);
    }
  }

  method ScanFilters(q: Query, j: nat) returns (filters: seq<Cond>, banAll: bool)
    requires j < |q.joins|
    ensures banAll <==> SomeFalse(q.joins[j].on) || SomeFalse(q.where)
    ensures !banAll ==> forall c :: c in filters <==>
      (c in q.joins[j].on || c in q.where) && Kept(c, OneTable(q.joins[j].table.name), false)
  {
    var t := OneTable(q.joins[j].table.name);
    filters, banAll := FromConditions(q.joins[j].on, t, false);
    if !banAll {
      var more, banMore := FromConditions(q.where, t, false);
      filters, banAll := if banMore then [] else filters + more, banMore;
    }
  }

  /** The last join also looks at the conditions of WHERE. */
  method PairFilters(q: Query, j: nat) returns (filters: seq<Cond>, banAll: bool)
    requires j < |q.joins|
    ensures banAll <==> SomeFalse(q.joins[j].on) || (j == |q.joins| - 1 && SomeFalse(q.where))
    ensures !banAll ==> forall c :: c in filters <==>
      (c in q.joins[j].on || (j == |q.joins| - 1 && c in q.where)) && Kept(c, AnyTable, true)
  {
    filters, banAll := FromConditions(q.joins[j].on, AnyTable, true);
    if j == |q.joins| - 1 && !banAll {
      var more, banMore := FromConditions(q.where, AnyTable, true);
      filters, banAll := if banMore then [] else filters + more, banMore;
    }
  }

  /** One turn of the loop: join `j`. */
  method AddJoin(q: Query, j: nat, plan: Plan, ghost cs: seq<Cond>) returns (plan': Plan, ghost cs': seq<Cond>)
    requires ValidQuery(q) && j < |q.joins| && PlanSchema(plan) == SchemaAll(AllTables(q)[..|q.relations| + j])
    requires if SomeFalse(q.where) || SomeFalseOn(q, j) then Eval(plan) == [] else Joined(q, j, plan, cs)
    ensures PlanSchema(plan') == SchemaAll(AllTables(q)[..|q.relations| + j + 1])
    ensures if SomeFalse(q.where) || SomeFalseOn(q, j + 1) then Eval(plan') == [] else Joined(q, j + 1, plan', cs')
  {
    hide SchemaAll, SchemaOf, Relevant, Joined, Kept, SomeFalse, AttrsOk, TablesOk, AllTables, Select;
    var filters, banScan := ScanFilters(q, j);
    var right := Scan(q.joins[j].table, filters, banScan);
    var joinFilters, banAll := PairFilters(q, j);
    var kept := RelevantFilters(joinFilters, PlanSchema(plan) + PlanSchema(right));
    plan', cs' := Join(plan, right, kept, banAll), cs + filters + kept;
    TableOfJoin(q, j);
    FirstStep(q, |q.relations| + j);
    if SomeFalse(q.where) || SomeFalseOn(q, j + 1) {
      JoinOfNothing(plan, right, kept, banAll);
    } else {
      assert !SomeFalse(q.joins[j].on);
      JoinStep(q, j, plan, cs, filters, joinFilters, kept);
    }
  }

  lemma JoinStep(q: Query, j: nat, plan: Plan, cs: seq<Cond>, filters: seq<Cond>, joinFilters: seq<Cond>, kept: seq<Cond>)
    requires ValidQuery(q) && j < |q.joins| && Joined(q, j, plan, cs) && JoinFilters(q, j, filters, joinFilters, kept)
    ensures Joined(q, j + 1, Join(plan, Scan(q.joins[j].table, filters, false), kept, false), cs + filters + kept)
  {
    hide SchemaAll, SchemaOf, Relevant, Represents, AllTables, Applies, Wanted, Dropped, OnTable, ValidQuery, JoinFilters, Kept;
    var ts, k := AllTables(q), |q.relations| + j;
    var t := q.joins[j].table;
    TableOfJoin(q, j);
    FirstStep(q, k);
    KeptOfJoin(q, j, filters, joinFilters, kept);
    JoinRepresents(plan, ts[..k], cs, t, filters, kept);
    JoinIsWanted(q, j, filters, joinFilters, kept);
    forall c, m | c in q.where && !Constant(c) && 0 <= m < k + 1 && OnTable(c, ts[m].name) ensures c in cs + filters + kept {
      if m == k { OwnWhereIsKept(q, j, filters, joinFilters, kept, c); }
    }
    forall c | c in q.joins[j].on && !Constant(c) && !Dropped(q, j, c) ensures c in filters + kept {
      OnIsKept(q, j, filters, joinFilters, kept, c);
    }
    if j + 1 == |q.joins| {
      forall c | c in q.where && !Constant(c) ensures c in cs + filters + kept {
        WhereIsKept(q, plan, cs, filters, joinFilters, kept, c);
      }
    }
  }

  lemma TableOfJoin(q: Query, j: nat)
    requires ValidQuery(q) && j < |q.joins|
    ensures |AllTables(q)| == |q.relations| + |q.joins| && AllTables(q)[|q.relations| + j] == q.joins[j].table
    ensures TablesOk(AllTables(q)[..|q.relations| + j + 1])
  {
  }

  lemma OnTableIsKept(c: Cond, name: string)
    requires !Constant(c)
    ensures OnTable(c, name) <==> Kept(c, OneTable(name), false)
  {
  }

  /** The filters that join `j` is given. */
  ghost predicate JoinFilters(q: Query, j: nat, filters: seq<Cond>, joinFilters: seq<Cond>, kept: seq<Cond>)
    requires ValidQuery(q) && j < |q.joins|
  {
    var t, on, k := q.joins[j].table, q.joins[j].on, |q.relations| + j;
    && (forall c :: c in filters <==> (c in on || c in q.where) && Kept(c, OneTable(t.name), false))
    && (forall c :: c in joinFilters <==> (c in on || (j == |q.joins| - 1 && c in q.where)) && Kept(c, AnyTable, true))
    && (forall c :: c in kept <==> c in joinFilters && Relevant(c, SchemaAll(AllTables(q)[..k]) + SchemaOf(t)))
  }

  lemma KeptOfJoin(q: Query, j: nat, filters: seq<Cond>, joinFilters: seq<Cond>, kept: seq<Cond>)
    requires ValidQuery(q) && j < |q.joins| && JoinFilters(q, j, filters, joinFilters, kept)
    ensures var k := |q.relations| + j;
      && (forall d :: d in filters ==> Applies(d, SchemaOf(q.joins[j].table)))
      && (forall c :: c in kept <==> c in joinFilters && Applies(c, SchemaAll(AllTables(q)[..k + 1])))
      && SchemaAll(AllTables(q)[..k + 1]) == SchemaAll(AllTables(q)[..k]) + SchemaOf(q.joins[j].table)
  {
    hide SchemaAll, SchemaOf, Relevant, Applies, AllTables, TablesOk;
    var k := |q.relations| + j;
    TableOfJoin(q, j);
    FirstStep(q, k);
    forall d | d in filters ensures Applies(d, SchemaOf(q.joins[j].table)) { KeptApplies(q, k, d); }
    forall c | c in joinFilters ensures Relevant(c, SchemaAll(AllTables(q)[..k + 1])) <==> Applies(c, SchemaAll(AllTables(q)[..k + 1])) {
      RelevantApplies(q, k + 1, c);
    }
  }

  lemma OwnWhereIsKept(q: Query, j: nat, filters: seq<Cond>, joinFilters: seq<Cond>, kept: seq<Cond>, c: Cond)
    requires ValidQuery(q) && j < |q.joins| && JoinFilters(q, j, filters, joinFilters, kept)
    requires c in q.where && !Constant(c) && OnTable(c, q.joins[j].table.name)
    ensures c in filters
  {
    OnTableIsKept(c, q.joins[j].table.name);
  }

  lemma JoinIsWanted(q: Query, j: nat, filters: seq<Cond>, joinFilters: seq<Cond>, kept: seq<Cond>)
    requires ValidQuery(q) && j < |q.joins| && JoinFilters(q, j, filters, joinFilters, kept)
    ensures forall c :: c in filters || c in kept ==> Wanted(q, c) && !Constant(c)
  {
    hide SchemaAll, SchemaOf, Relevant, Applies;
    KeptOfJoin(q, j, filters, joinFilters, kept);
    forall c | c in filters || c in kept ensures Wanted(q, c) && !Constant(c) {
      if c !in q.where { assert c in q.joins[j].on && !Dropped(q, j, c); }
    }
  }

  lemma OnIsKept(q: Query, j: nat, filters: seq<Cond>, joinFilters: seq<Cond>, kept: seq<Cond>, c: Cond)
    requires ValidQuery(q) && j < |q.joins| && JoinFilters(q, j, filters, joinFilters, kept)
    requires c in q.joins[j].on && !Constant(c) && !Dropped(q, j, c)
    ensures c in filters || c in kept
  {
    hide SchemaAll, SchemaOf, Relevant, Applies;
    KeptOfJoin(q, j, filters, joinFilters, kept);
  }

  lemma WhereIsKept(q: Query, plan: Plan, cs: seq<Cond>, filters: seq<Cond>, joinFilters: seq<Cond>, kept: seq<Cond>, c: Cond)
    requires ValidQuery(q) && q.joins != [] && Joined(q, |q.joins| - 1, plan, cs)
    requires JoinFilters(q, |q.joins| - 1, filters, joinFilters, kept) && c in q.where && !Constant(c)
    ensures c in cs || c in filters || c in kept
  {
    hide SchemaAll, SchemaOf, Relevant, Represents, Wanted, Dropped, TablesOk;
    var j, ts := |q.joins| - 1, AllTables(q);
    TableOfJoin(q, j);
    KeptOfJoin(q, j, filters, joinFilters, kept);
    assert ts[..|q.relations| + j + 1] == ts;
    if c.left.Const? || c.right.Const? {
      var a := if c.left.Field? then c.left.attr else c.right.attr;
      InSchemaAll(ts, a);
      var m :| 0 <= m < |ts| && a in SchemaOf(ts[m]);
      SchemaNames(ts[m], a);
      assert OnTable(c, ts[m].name);
      if m == |ts| - 1 { OnTableIsKept(c, ts[m].name); }
    }
  }

  // ---- the whole ---------------------------------------------------------------------------------------

  function NotDropped(q: Query, i: nat, cs: seq<Cond>): (r: seq<Cond>)
    requires i < |q.joins|
    ensures forall c :: c in r <==> c in cs && !Dropped(q, i, c)
  {
    if cs == [] then [] else (if Dropped(q, i, cs[0]) then [] else [cs[0]]) + NotDropped(q, i, cs[1..])
  }

  function OnConds(q: Query, j: nat): (r: seq<Cond>)
    requires j <= |q.joins|
    ensures forall c :: c in r <==> exists i :: 0 <= i < j && c in q.joins[i].on && !Dropped(q, i, c)
  {
    if j == 0 then [] else OnConds(q, j - 1) + NotDropped(q, j - 1, q.joins[j - 1].on)
  }

  /** The conditions that the plan applies: all those of WHERE, and those of ON that are not
      dropped. */
  function WantedConds(q: Query): (r: seq<Cond>)
    ensures forall c :: c in r <==> Wanted(q, c)
  {
    q.where + OnConds(q, |q.joins|)
  }

  lemma ConstantsHold(c: Cond, s: Schema, r: Row)
    requires Constant(c) && |r| == |s|
    ensures Holds(c, s, r) <==> ConstantHolds(c)
  {
  }

  /** Of the wanted conditions, `cs` has all but the constant ones, and these hold. */
  lemma AllButConstants(q: Query, plan: Plan, cs: seq<Cond>)
    requires ValidQuery(q) && Joined(q, |q.joins|, plan, cs) && !SomeFalse(q.where) && !SomeFalseOn(q, |q.joins|)
    ensures Represents(plan, AllTables(q), cs)
    ensures forall c :: c in cs ==> Wanted(q, c)
    ensures forall c :: Wanted(q, c) ==> if Constant(c) then ConstantHolds(c) else c in cs
  {
    hide Dropped, Represents;
    assert AllTables(q)[..|q.relations| + |q.joins|] == AllTables(q);
  }

  lemma PlanIsComplete(q: Query, plan: Plan, cs: seq<Cond>)
    requires ValidQuery(q) && Joined(q, |q.joins|, plan, cs) && !SomeFalse(q.where) && !SomeFalseOn(q, |q.joins|)
    ensures Eval(plan) == Select(RowsAll(AllTables(q)), SchemaAll(AllTables(q)), WantedConds(q))
  {
    hide SchemaAll, RowsAll, Applies, Wanted, Joined, AllTables, Eval, Holds, ConstantHolds, SomeFalse, SomeFalseOn;
    var ts := AllTables(q);
    AllButConstants(q, plan, cs);
    var s, rows := SchemaAll(ts), RowsAll(ts);
    RowsAllFit(ts);
    forall r | r in rows ensures AllHold(cs, s, r) <==> AllHold(WantedConds(q), s, r) {
      forall c | Wanted(q, c) && Constant(c) ensures Holds(c, s, r) { ConstantsHold(c, s, r); }
    }
    SelectSame(rows, s, cs, WantedConds(q));
  }

  lemma FalseSelectsNothing(q: Query)
    requires ValidQuery(q) && (SomeFalse(q.where) || SomeFalseOn(q, |q.joins|))
    ensures Select(RowsAll(AllTables(q)), SchemaAll(AllTables(q)), WantedConds(q)) == []
  {
    hide SchemaAll, RowsAll, Holds, ConstantHolds;
    var ts := AllTables(q);
    var s, rows := SchemaAll(ts), RowsAll(ts);
    RowsAllFit(ts);
    var c: Cond;
    if SomeFalse(q.where) {
      c :| c in q.where && Constant(c) && !ConstantHolds(c);
    } else {
      var i :| 0 <= i < |q.joins| && SomeFalse(q.joins[i].on);
      c :| c in q.joins[i].on && Constant(c) && !ConstantHolds(c);
      assert !Dropped(q, i, c);
    }
    assert Wanted(q, c);
    forall r | r in rows ensures !AllHold(WantedConds(q), s, r) { ConstantsHold(c, s, r); }
    SelectNothing(rows, s, WantedConds(q));
  }

  /** The builder: the plan yields exactly the cross product filtered by the conditions of
      WHERE and ON that are not dropped, in the order of the product. */
  method Build(q: Query) returns (plan: Plan)
    requires ValidQuery(q)
    ensures Eval(plan) == Select(RowsAll(AllTables(q)), SchemaAll(AllTables(q)), WantedConds(q))
  {
    hide Eval, Joined, Selected, Represents, SchemaAll, RowsAll, TablesOk, AttrsOk, SomeFalse, SomeFalseOn;
    var select;
    ghost var cs;
    select, cs := BuildSelect(q);
    plan, cs := BuildJoins(q, select, cs);
    if SomeFalse(q.where) || SomeFalseOn(q, |q.joins|) {
      FalseSelectsNothing(q);
    } else {
      PlanIsComplete(q, plan, cs);
    }
  }

  function OnDropped(q: Query, i: nat, cs: seq<Cond>): (r: seq<Cond>)
    requires i < |q.joins|
    ensures forall c :: c in r <==> c in cs && Dropped(q, i, c)
  {
    if cs == [] then [] else (if Dropped(q, i, cs[0]) then [cs[0]] else []) + OnDropped(q, i, cs[1..])
  }

  /** The ON conditions of the first `j` joins that the builder drops. */
  function DroppedConds(q: Query, j: nat): (r: seq<Cond>)
    requires j <= |q.joins|
    ensures forall c :: c in r <==> exists i :: 0 <= i < j && c in q.joins[i].on && Dropped(q, i, c)
  {
    if j == 0 then [] else DroppedConds(q, j - 1) + OnDropped(q, j - 1, q.joins[j - 1].on)
  }

  /** All conditions of WHERE and ON. */
  function AskedConds(q: Query): (r: seq<Cond>)
    ensures forall c :: c in r <==> Asked(q, c)
  {
    q.where + OnAll(q, |q.joins|)
  }

  function OnAll(q: Query, j: nat): (r: seq<Cond>)
    requires j <= |q.joins|
    ensures forall c :: c in r <==> exists i :: 0 <= i < j && c in q.joins[i].on
  {
    if j == 0 then [] else OnAll(q, j - 1) + q.joins[j - 1].on
  }

  lemma {:induction false} SelectsAll(rows: seq<Row>, s: Schema, cs: seq<Cond>)
    ensures |Select(rows, s, cs)| <= |rows|
    ensures Select(rows, s, cs) == rows <==> forall r :: r in rows ==> AllHold(cs, s, r)
  {
    if rows != [] {
      SelectsAll(rows[1..], s, cs);
      assert rows == [rows[0]] + rows[1..];
      assert forall r :: r in rows <==> r == rows[0] || r in rows[1..];
    }
  }

  /** The plan answers the query, yielding exactly the rows of the product on which every condition of
      WHERE and ON holds, if and only if on every row that it yields the dropped conditions hold. */
  lemma AnswersUnlessDropped(q: Query)
    requires ValidQuery(q)
    ensures AllTables(q) != []
    ensures var rows, s := RowsAll(AllTables(q)), SchemaAll(AllTables(q)); var yielded := Select(rows, s, WantedConds(q));
      yielded == Select(rows, s, AskedConds(q)) <==> forall r :: r in yielded ==> AllHold(DroppedConds(q, |q.joins|), s, r)
  {
    hide Dropped, RowsAll, SchemaAll, ValidQuery, Select, AllTables, WantedConds, DroppedConds, AskedConds, AllHold;
    TablesNotEmpty(q);
    var rows, s, ds := RowsAll(AllTables(q)), SchemaAll(AllTables(q)), DroppedConds(q, |q.joins|);
    SelectTwice(rows, s, WantedConds(q), ds);
    AskedOrDropped(q);
    forall r | r in rows ensures AllHold(WantedConds(q) + ds, s, r) <==> AllHold(AskedConds(q), s, r) {
      SameConds(WantedConds(q) + ds, AskedConds(q), s, r);
    }
    SelectSame(rows, s, WantedConds(q) + ds, AskedConds(q));
    SelectsAll(Select(rows, s, WantedConds(q)), s, ds);
  }

  lemma SameConds(cs: seq<Cond>, ds: seq<Cond>, s: Schema, r: Row)
    requires forall c :: c in cs <==> c in ds
    ensures AllHold(cs, s, r) <==> AllHold(ds, s, r)
  {
    hide Holds;
  }

  lemma TablesNotEmpty(q: Query)
    requires ValidQuery(q)
    ensures AllTables(q) != []
  {
  }

  lemma AskedOrDropped(q: Query)
    ensures forall c :: c in AskedConds(q) <==> c in WantedConds(q) + DroppedConds(q, |q.joins|)
  {
    hide Dropped;
    forall c ensures Asked(q, c) <==> Wanted(q, c) || c in DroppedConds(q, |q.joins|) {
    }
  }

  /** In particular when no ON condition is dropped. */
  lemma NothingDropped(q: Query)
    requires ValidQuery(q) && forall i, c :: 0 <= i < |q.joins| && c in q.joins[i].on ==> !Dropped(q, i, c)
    ensures AllTables(q) != []
    ensures Select(RowsAll(AllTables(q)), SchemaAll(AllTables(q)), WantedConds(q))
         == Select(RowsAll(AllTables(q)), SchemaAll(AllTables(q)), AskedConds(q))
  {
    hide Dropped, RowsAll, SchemaAll, ValidQuery, Select, AllTables;
    assert forall c :: c !in DroppedConds(q, |q.joins|);
    AnswersUnlessDropped(q);
  }

  /** FROM a INNER JOIN b ON a.x = 1: the condition is about the earlier table. */
  function OnEarlierTable(): Query {
    var a := Table("a", ["x"], [[Int(1)], [Int(2)]], [RID(1, 0), RID(1, 1)], []);
    var b := Table("b", ["y"], [[Int(5)]], [RID(1, 0)], []);
    Query([a], [], [JoinOn(b, [Cond(Field(Attr("a", "x")), EQUAL_TO, Const(Int(1)))])])
  }

  lemma SchemaOfExample()
    ensures var q := OnEarlierTable(); var a, b := q.relations[0], q.joins[0].table;
      && AllTables(q) == [a, b] && First(q, 2) == [a, b]
      && SchemaOf(a) == [Attr("a", "x")] && SchemaOf(b) == [Attr("b", "y")]
      && SchemaAll([a, b]) == [Attr("a", "x"), Attr("b", "y")]
  {
    var q := OnEarlierTable();
    var a, b := q.relations[0], q.joins[0].table;
    assert AllTables(q) == [a, b];
    assert [a, b][..1] == [a] && [a][..0] == [] && [a, b][..2] == [a, b];
    assert SchemaOf(a) == [Attr("a", "x")] && SchemaOf(b) == [Attr("b", "y")];
    assert SchemaAll([a]) == [] + SchemaOf(a) == SchemaOf(a);
  }

  lemma RowOfExample()
    ensures var q := OnEarlierTable(); var a, b := q.relations[0], q.joins[0].table;
      [Int(2), Int(5)] in RowsAll([a, b])
  {
    var q := OnEarlierTable();
    var a, b := q.relations[0], q.joins[0].table;
    assert [a, b][..1] == [a];
    ProductAt(a.rows, b.rows, 1, 0);
    assert a.rows[1] + b.rows[0] == [Int(2), Int(5)];
    assert RowsAll([a, b]) == Product(a.rows, b.rows) by { assert RowsAll([a]) == a.rows; }
  }

  /** The condition is dropped, and a row comes out that does not meet it. */
  lemma OnEarlierTableIsDropped()
    ensures var q := OnEarlierTable(); var c, r := q.joins[0].on[0], [Int(2), Int(5)];
      && ValidQuery(q) && Dropped(q, 0, c) && Asked(q, c)
      && !Holds(c, SchemaAll(AllTables(q)), r)
      && r in Select(RowsAll(AllTables(q)), SchemaAll(AllTables(q)), WantedConds(q))
  {
    hide SchemaAll, SchemaOf, RowsAll, AllTables;
    var q := OnEarlierTable();
    SchemaOfExample();
    RowOfExample();
    assert WantedConds(q) == [];
    SelectFits(RowsAll(AllTables(q)), SchemaAll(AllTables(q)), []);
  }
}
