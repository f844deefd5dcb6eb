/** The older way to answer a SELECT without joins: every table is filtered, an odometer runs
    through all combinations, and the combinations are filtered. */
module CartesianPath {
  import opened Rows
  import opened QueryPlan

  // ---- the product of several sequences ------------------------------------------------------

  /** All combinations in lexicographic order. */
  function Cross(sets: seq<seq<Row>>): seq<Row> {
    if sets == [] then [[]] else Product(sets[0], Cross(sets[1..]))
  }

  lemma {:induction false} CrossSnoc(sets: seq<seq<Row>>, last: seq<Row>)
    ensures Cross(sets + [last]) == if sets == [] then last else Product(Cross(sets), last)
  {
    if sets == [] {
      assert (sets + [last])[1..] == [];
      ProductUnit(last);
    } else {
      assert (sets + [last])[1..] == sets[1..] + [last];
      CrossSnoc(sets[1..], last);
      if |sets| == 1 {
        ProductUnit(sets[0]);
      } else {
        ProductAssociates(sets[0], Cross(sets[1..]), last);
      }
    }
  }

  lemma {:induction false} CrossWithEmpty(sets: seq<seq<Row>>, i: nat)
    requires i < |sets| && sets[i] == []
    ensures Cross(sets) == []
  {
    if i > 0 {
      CrossWithEmpty(sets[1..], i - 1);
    }
    EmptyProduct(sets[0], Cross(sets[1..]));
  }

  // ---- the odometer ----------------------------------------------------------------------------

  predicate InRange(sets: seq<seq<Row>>, ix: seq<int>) {
    |ix| == |sets| && forall i :: 0 <= i < |sets| ==> 0 <= ix[i] < |sets[i]|
  }

  /** The combination at an index vector. */
  function At(sets: seq<seq<Row>>, ix: seq<int>): Row
    requires InRange(sets, ix)
  {
    if sets == [] then [] else sets[0][ix[0]] + At(sets[1..], ix[1..])
  }

  /** The combinations from an index vector on. */
  function From(sets: seq<seq<Row>>, ix: seq<int>): (r: seq<Row>)
    requires InRange(sets, ix)
    ensures r != [] && r[0] == At(sets, ix)
  {
    if sets == [] then [[]]
    else
      Pair(sets[0][ix[0]], From(sets[1..], ix[1..])) + Product(sets[0][ix[0] + 1..], Cross(sets[1..]))
  }

  lemma {:induction false} FromStart(sets: seq<seq<Row>>, ix: seq<int>)
    requires InRange(sets, ix) && forall i :: 0 <= i < |ix| ==> ix[i] == 0
    ensures From(sets, ix) == Cross(sets)
  {
    if sets != [] {
      FromStart(sets[1..], ix[1..]);
      var a := sets[0];
      assert From(sets, ix) == Pair(a[0], From(sets[1..], ix[1..])) + Product(a[1..], Cross(sets[1..]));
    }
  }

  lemma {:induction false} FromLast(sets: seq<seq<Row>>, ix: seq<int>)
    requires InRange(sets, ix) && forall i :: 0 <= i < |ix| ==> ix[i] == |sets[i]| - 1
    ensures From(sets, ix) == [At(sets, ix)]
  {
    if sets != [] {
      FromLast(sets[1..], ix[1..]);
    }
  }

  /** Raising digit `i`, behind which all digits were at their last value and are now 0, is
      one step in the order of combinations. */
  lemma {:induction false} FromStep(sets: seq<seq<Row>>, ix: seq<int>, ix': seq<int>, i: nat)
    requires InRange(sets, ix) && InRange(sets, ix') && i < |ix|
    requires ix'[..i] == ix[..i] && ix'[i] == ix[i] + 1
    requires forall j :: i < j < |ix| ==> ix[j] == |sets[j]| - 1 && ix'[j] == 0
    ensures From(sets, ix) == [At(sets, ix)] + From(sets, ix')
  {
    if i == 0 {
      FirstDigit(sets, ix, ix');
    } else {
      assert ix'[0] == ix'[..i][0] == ix[..i][0] == ix[0];
      assert ix'[1..][..i - 1] == ix'[..i][1..] == ix[..i][1..] == ix[1..][..i - 1];
      FromStep(sets[1..], ix[1..], ix'[1..], i - 1);
      LaterDigit(sets, ix, ix');
    }
  }

  lemma FirstDigit(sets: seq<seq<Row>>, ix: seq<int>, ix': seq<int>)
    requires InRange(sets, ix) && InRange(sets, ix') && ix != [] && ix'[0] == ix[0] + 1
    requires forall j :: 0 < j < |ix| ==> ix[j] == |sets[j]| - 1 && ix'[j] == 0
    ensures From(sets, ix) == [At(sets, ix)] + From(sets, ix')
  {
    var a, rest, cross := sets[0], sets[1..], Cross(sets[1..]);
    FromLast(rest, ix[1..]);
    FromStart(rest, ix'[1..]);
    assert From(sets, ix) == Pair(a[ix[0]], [At(rest, ix[1..])]) + Product(a[ix[0] + 1..], cross);
    assert Pair(a[ix[0]], [At(rest, ix[1..])]) == [At(sets, ix)];
    assert a[ix[0] + 1..][0] == a[ix'[0]] && a[ix[0] + 1..][1..] == a[ix'[0] + 1..];
    assert From(sets, ix') == Pair(a[ix'[0]], cross) + Product(a[ix'[0] + 1..], cross);
  }

  lemma LaterDigit(sets: seq<seq<Row>>, ix: seq<int>, ix': seq<int>)
    requires InRange(sets, ix) && InRange(sets, ix') && ix != [] && ix' != [] && ix'[0] == ix[0]
    requires From(sets[1..], ix[1..]) == [At(sets[1..], ix[1..])] + From(sets[1..], ix'[1..])
    ensures From(sets, ix) == [At(sets, ix)] + From(sets, ix')
  {
    hide From, At, Cross, Product, Pair, InRange;
    FromIs(sets, ix);
    FromIs(sets, ix');
    HeadOut(sets[0][ix[0]], At(sets[1..], ix[1..]), From(sets[1..], ix'[1..]),
            Product(sets[0][ix[0] + 1..], Cross(sets[1..])));
  }

  lemma FromIs(sets: seq<seq<Row>>, ix: seq<int>)
    requires InRange(sets, ix) && ix != []
    ensures sets != [] && 0 <= ix[0] < |sets[0]| && InRange(sets[1..], ix[1..])
    ensures From(sets, ix) == Pair(sets[0][ix[0]], From(sets[1..], ix[1..])) + Product(sets[0][ix[0] + 1..], Cross(sets[1..]))
    ensures At(sets, ix) == sets[0][ix[0]] + At(sets[1..], ix[1..])
  {
  }

  lemma HeadOut(a: Row, x: Row, y: seq<Row>, tail: seq<Row>)
    ensures Pair(a, [x] + y) + tail == [a + x] + (Pair(a, y) + tail)
  {
  }

  class TupleSetDescartesIterator {
    const tupleSets: seq<seq<Row>>
    var sizes: seq<int>
    var indexes: seq<int>
    var end: bool

    ghost predicate Valid()
      reads this
    {
      && |sizes| == |indexes| == |tupleSets| && (forall i :: 0 <= i < |sizes| ==> sizes[i] == |tupleSets[i]|)
      && (!end ==> InRange(tupleSets, indexes))
    }

    /** The combinations not visited yet. */
    ghost function Remaining(): seq<Row>
      requires Valid()
      reads this
    {
      if end then [] else From(tupleSets, indexes)
    }

    constructor (tupleSets: seq<seq<Row>>)
      ensures Valid() && Remaining() == Cross(tupleSets) && this.tupleSets == tupleSets
    {
      this.tupleSets := tupleSets;
      sizes, indexes, end := [], [], false;
      new;
      for i := 0 to |tupleSets|
        modifies this
        invariant |sizes| == |indexes| == i && this.tupleSets == tupleSets
        invariant forall j :: 0 <= j < i ==> sizes[j] == |tupleSets[j]| && indexes[j] == 0
        invariant end <==> exists j :: 0 <= j < i && tupleSets[j] == []
      {
        if |tupleSets[i]| == 0 {
          end := true;
        }
        sizes := sizes + [|tupleSets[i]|];
        indexes := indexes + [0];
      }
      if end {
        ghost var j :| 0 <= j < |tupleSets| && tupleSets[j] == [];
        CrossWithEmpty(tupleSets, j);
      } else {
        FromStart(tupleSets, indexes);
      }
    }

    /** The current combination, all its values in one tuple. */
    method Current() returns (r: Row)
      requires Valid() && !end
      ensures r == Remaining()[0]
    {
      r := [];
      assert tupleSets[|tupleSets|..] == [];
      for i := 0 to |indexes|
        invariant r + At(tupleSets[i..], indexes[i..]) == At(tupleSets, indexes)
      {
        assert tupleSets[i..][1..] == tupleSets[i + 1..] && indexes[i..][1..] == indexes[i + 1..];
        if indexes[i] < sizes[i] {
          r := r + tupleSets[i][indexes[i]];
        }
      }
    }

    /** The next combination. */
    method Advance()
      requires Valid() && !end
      modifies this`indexes, this`end
      ensures Valid() && Remaining() == old(Remaining())[1..]
    {
      ghost var ix := indexes;
      var i := |indexes| - 1;
      while i >= 0
        invariant -1 <= i < |indexes| == |ix| && !end
        invariant forall j :: 0 <= j <= i ==> indexes[j] == ix[j]
        invariant forall j :: i < j < |ix| ==> ix[j] == |tupleSets[j]| - 1 && indexes[j] == 0
      {
        if indexes[i] < sizes[i] - 1 {
          indexes := indexes[i := indexes[i] + 1];
          FromStep(tupleSets, ix, indexes, i);
          return;
        } else {
          indexes := indexes[i := 0];
          i := i - 1;
        }
      }
      FromLast(tupleSets, ix);
      end := true;
    }
  }

  lemma SelectHead(r: Row, rest: seq<Row>, s: Schema, cs: seq<Cond>)
    ensures Select([r] + rest, s, cs) == (if AllHold(cs, s, r) then [r] else []) + Select(rest, s, cs)
    ensures Select([], s, cs) == []
  {
    assert ([r] + rest)[1..] == rest;
  }

  /** cartesianExeNode: the combinations that pass the filter, in the order of the odometer. */
  method ExecuteCartesian(tupleSets: seq<seq<Row>>, s: Schema, filters: seq<Cond>) returns (out: seq<Row>)
    ensures out == Select(Cross(tupleSets), s, filters)
  {
    hide Cross, From, InRange, AllHold, Select;
    var iter := new TupleSetDescartesIterator(tupleSets);
    out := [];
    ghost var rest := Cross(tupleSets);
    SelectNothing([], s, filters);
    while !iter.end
      invariant iter.Valid() && iter.tupleSets == tupleSets && rest == iter.Remaining()
      invariant out + Select(rest, s, filters) == Select(Cross(tupleSets), s, filters)
      decreases |rest|
    {
      OneTurn(out, rest, s, filters);
      var tuple := iter.Current();
      out := AddIfPasses(out, tuple, s, filters);
      iter.Advance();
      rest := rest[1..];
    }
  }

  lemma OneTurn(out: seq<Row>, rest: seq<Row>, s: Schema, filters: seq<Cond>)
    requires rest != []
    ensures (out + if AllHold(filters, s, rest[0]) then [rest[0]] else []) + Select(rest[1..], s, filters)
         == out + Select(rest, s, filters)
  {
    hide Select, AllHold;
    assert rest == [rest[0]] + rest[1..];
    SelectHead(rest[0], rest[1..], s, filters);
    var head := if AllHold(filters, s, rest[0]) then [rest[0]] else [];
    assert out + (head + Select(rest[1..], s, filters)) == (out + head) + Select(rest[1..], s, filters);
  }

  method AddIfPasses(out: seq<Row>, tuple: Row, s: Schema, filters: seq<Cond>) returns (out': seq<Row>)
    ensures out' == out + if AllHold(filters, s, tuple) then [tuple] else []
  {
    var pass := Passes(filters, s, tuple);
    out' := if pass then out + [tuple] else out;
  }
}
