/** Sequences with the same elements, each as often. */
module Permutations {

  /** Where the first element of a sequence is in a permutation of it. */
  ghost function PlaceIn<T>(xs: seq<T>, ys: seq<T>): (k: nat)
    requires xs != [] && multiset(xs) == multiset(ys)
    ensures k < |ys| && ys[k] == xs[0]
  {
    assert xs[0] in multiset(ys);
    var k :| 0 <= k < |ys| && ys[k] == xs[0];
    k
  }

  function Without<T>(xs: seq<T>, k: nat): (r: seq<T>)
    requires k < |xs|
    ensures |r| == |xs| - 1 && multiset(r) == multiset(xs) - multiset{xs[k]}
  {
    assert xs == xs[..k] + [xs[k]] + xs[k + 1..];
    xs[..k] + xs[k + 1..]
  }

  lemma Parts<T>(xs: seq<T>, k: nat) returns (a: seq<T>, x: seq<T>, b: seq<T>)
    requires k < |xs|
    ensures xs == a + (x + b) && x == [xs[k]] && Without(xs, k) == a + b
  {
    a, x, b := xs[..k], [xs[k]], xs[k + 1..];
  }

  lemma InTheMiddle<T>(a: seq<T>, x: seq<T>, b: seq<T>)
    ensures multiset(a + (x + b)) == multiset(a + b) + multiset(x)
  {
  }

  lemma Tail<T>(xs: seq<T>)
    requires xs != []
    ensures Without(xs, 0) == xs[1..]
  {
  }

  lemma SameMembers<T>(xs: seq<T>, ys: seq<T>)
    requires multiset(xs) == multiset(ys)
    ensures |xs| == |ys| && forall x :: x in xs <==> x in ys
  {
    assert |multiset(xs)| == |multiset(ys)|;
    forall x ensures x in xs <==> x in ys {
      assert x in multiset(xs) <==> x in multiset(ys);
    }
  }

  lemma SomeMember<T>(xs: seq<T>)
    ensures xs == [] || exists x :: x in xs
  {
    if xs != [] { assert xs[0] in xs; }
  }

  // ---- filtering ---------------------------------------------------------------------------------

  function Keep<T>(xs: seq<T>, p: T -> bool): seq<T> {
    if xs == [] then [] else (if p(xs[0]) then [xs[0]] else []) + Keep(xs[1..], p)
  }

  lemma TailOfConcat<T>(a: seq<T>, b: seq<T>)
    requires a != []
    ensures (a + b)[0] == a[0] && (a + b)[1..] == a[1..] + b
  {
  }

  lemma {:induction false} KeepConcat<T>(a: seq<T>, b: seq<T>, p: T -> bool)
    ensures Keep(a + b, p) == Keep(a, p) + Keep(b, p)
  {
    if a == [] {
      assert a + b == b;
    } else {
      TailOfConcat(a, b);
      KeepConcat(a[1..], b, p);
      var head := if p(a[0]) then [a[0]] else [];
      assert Keep(a + b, p) == head + Keep(a[1..] + b, p);
      assert head + (Keep(a[1..], p) + Keep(b, p)) == (head + Keep(a[1..], p)) + Keep(b, p);
    }
  }

  lemma {:induction false} KeepHas<T>(xs: seq<T>, p: T -> bool, x: T)
    ensures x in Keep(xs, p) <==> x in xs && p(x)
  {
    if xs != [] {
      KeepHas(xs[1..], p, x);
    }
  }

  lemma {:induction false} KeepSame<T>(xs: seq<T>, p: T -> bool, q: T -> bool)
    requires forall x :: x in xs ==> p(x) == q(x)
    ensures Keep(xs, p) == Keep(xs, q)
  {
    if xs != [] {
      KeepSame(xs[1..], p, q);
    }
  }

  lemma KeepOne<T>(x: T, p: T -> bool)
    ensures Keep([x], p) == if p(x) then [x] else []
  {
  }

  lemma KeepWithout<T>(xs: seq<T>, p: T -> bool, k: nat)
    requires k < |xs|
    ensures multiset(Keep(xs, p)) == multiset(Keep(Without(xs, k), p)) + if p(xs[k]) then multiset{xs[k]} else multiset{}
  {
    hide Keep;
    var a, x, b := Parts(xs, k);
    KeepConcat(a, x + b, p);
    KeepConcat(x, b, p);
    KeepConcat(a, b, p);
    KeepOne(xs[k], p);
    InTheMiddle(Keep(a, p), Keep(x, p), Keep(b, p));
  }

  /** Filtering permutations gives permutations. */
  lemma {:induction false} KeepPermutes<T>(xs: seq<T>, ys: seq<T>, p: T -> bool)
    requires multiset(xs) == multiset(ys)
    ensures multiset(Keep(xs, p)) == multiset(Keep(ys, p))
    decreases |xs|
  {
    if xs == [] {
      assert |multiset(ys)| == 0;
    } else {
      var k := PlaceIn(xs, ys);
      Tail(xs);
      KeepPermutes(xs[1..], Without(ys, k), p);
      KeepWithout(xs, p, 0);
      KeepWithout(ys, p, k);
    }
  }

  lemma {:induction false} KeepSize<T>(xs: seq<T>, p: T -> bool)
    ensures |Keep(xs, p)| <= |xs|
    ensures |Keep(xs, p)| == |xs| <==> forall x :: x in xs ==> p(x)
    ensures |Keep(xs, p)| == |xs| ==> Keep(xs, p) == xs
  {
    if xs != [] {
      KeepSize(xs[1..], p);
      assert xs == [xs[0]] + xs[1..];
      assert forall x :: x in xs <==> x == xs[0] || x in xs[1..];
    }
  }

  /** Filtering loses something unless the filter holds of everything. */
  lemma KeepsAll<T>(xs: seq<T>, p: T -> bool)
    ensures multiset(Keep(xs, p)) == multiset(xs) <==> forall x :: x in xs ==> p(x)
  {
    KeepSize(xs, p);
    if multiset(Keep(xs, p)) == multiset(xs) {
      SameMembers(Keep(xs, p), xs);
    }
  }

  lemma {:induction false} KeepTwice<T>(xs: seq<T>, p: T -> bool, q: T -> bool)
    ensures Keep(Keep(xs, p), q) == Keep(Keep(xs, q), p)
  {
    if xs != [] {
      KeepTwice(xs[1..], p, q);
      KeepConcat(if p(xs[0]) then [xs[0]] else [], Keep(xs[1..], p), q);
      KeepConcat(if q(xs[0]) then [xs[0]] else [], Keep(xs[1..], q), p);
    }
  }

  /** Of what `q` has left, in any order, `p` leaves what it leaves of everything, if and only if `q`
      holds of all that. */
  lemma LeftOver<T>(xs: seq<T>, left: seq<T>, p: T -> bool, q: T -> bool)
    requires multiset(left) == multiset(Keep(xs, q))
    ensures multiset(Keep(left, p)) == multiset(Keep(xs, p)) <==> forall x :: x in Keep(xs, p) ==> q(x)
  {
    KeepPermutes(left, Keep(xs, q), p);
    KeepTwice(xs, q, p);
    KeepsAll(Keep(xs, p), q);
  }
}
