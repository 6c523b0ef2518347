/** Finite sums over sets, used by every invariant that says "this cached total
    equals the sum over the objects". */
module Sums {

  ghost function Sum<T(!new)>(s: set<T>, f: T -> int): int
  {
    if s == {} then 0 else
      var x :| x in s;
      f(x) + Sum(s - {x}, f)
  }

  /** The sum does not depend on the order in which elements are taken out. */
  lemma {:induction false} SumRemove<T(!new)>(s: set<T>, f: T -> int, x: T)
    requires x in s
    ensures Sum(s, f) == f(x) + Sum(s - {x}, f)
    decreases |s|
  {
    var y :| y in s && Sum(s, f) == f(y) + Sum(s - {y}, f);
    if y != x {
      SumRemove(s - {y}, f, x);
      SumRemove(s - {x}, f, y);
      assert s - {y} - {x} == s - {x} - {y};
    }
  }

  /** A running total over a set, in whatever order its elements come. */
  method Total(s: set<int>, f: int -> int) returns (total: int)
    ensures total == Sum(s, f)
  {
    total := 0;
    var rest := s;
    while exists x :: x in rest
      invariant rest <= s && total + Sum(rest, f) == Sum(s, f)
      decreases |rest|
    {
      var x :| x in rest;
      SumRemove(rest, f, x);
      total := total + f(x);
      rest := rest - {x};
    }
    assert rest == {};
  }

  lemma SumInsert<T(!new)>(s: set<T>, f: T -> int, x: T)
    requires x !in s
    ensures Sum(s + {x}, f) == f(x) + Sum(s, f)
  {
    SumRemove(s + {x}, f, x);
    assert s + {x} - {x} == s;
  }

  lemma {:induction false} SumCongruent<T(!new)>(s: set<T>, f: T -> int, g: T -> int)
    requires forall x :: x in s ==> f(x) == g(x)
    ensures Sum(s, f) == Sum(s, g)
    decreases |s|
  {
    if s != {} {
      var x :| x in s;
      SumRemove(s, f, x);
      SumRemove(s, g, x);
      SumCongruent(s - {x}, f, g);
    }
  }

  lemma {:induction false} SumZero<T(!new)>(s: set<T>, f: T -> int)
    requires forall x :: x in s ==> f(x) == 0
    ensures Sum(s, f) == 0
    decreases |s|
  {
    if s != {} {
      var x :| x in s;
      SumRemove(s, f, x);
      SumZero(s - {x}, f);
    }
  }

  lemma {:induction false} SumMonotone<T(!new)>(s: set<T>, f: T -> int, g: T -> int)
    requires forall x :: x in s ==> f(x) <= g(x)
    ensures Sum(s, f) <= Sum(s, g)
    decreases |s|
  {
    if s != {} {
      var x :| x in s;
      SumRemove(s, f, x);
      SumRemove(s, g, x);
      SumMonotone(s - {x}, f, g);
    }
  }

  lemma SumNonNegative<T(!new)>(s: set<T>, f: T -> int)
    requires forall x :: x in s ==> 0 <= f(x)
    ensures 0 <= Sum(s, f)
  {
    var zero := (x: T) => 0;
    SumZero(s, zero);
    SumMonotone(s, zero, f);
  }

  /** Sums are additive in the summand. */
  lemma {:induction false} SumAdd<T(!new)>(s: set<T>, f: T -> int, g: T -> int, h: T -> int)
    requires forall x :: x in s ==> h(x) == f(x) + g(x)
    ensures Sum(s, h) == Sum(s, f) + Sum(s, g)
    decreases |s|
  {
    if s != {} {
      var x :| x in s;
      SumRemove(s, f, x);
      SumRemove(s, g, x);
      SumRemove(s, h, x);
      SumAdd(s - {x}, f, g, h);
    }
  }

  /** Changing the summand at one element moves the sum by that change. */
  lemma SumChangeOne<T(!new)>(s: set<T>, f: T -> int, g: T -> int, x: T)
    requires x in s
    requires forall y :: y in s && y != x ==> f(y) == g(y)
    ensures Sum(s, g) == Sum(s, f) + g(x) - f(x)
  {
    SumRemove(s, f, x);
    SumRemove(s, g, x);
    SumCongruent(s - {x}, f, g);
  }

  /** A sum with at most one non-zero term. */
  lemma SumSingle<T(!new)>(s: set<T>, f: T -> int, x: T)
    requires x in s
    requires forall y :: y in s && y != x ==> f(y) == 0
    ensures Sum(s, f) == f(x)
  {
    SumRemove(s, f, x);
    SumZero(s - {x}, f);
  }

  /** Each term of a non-negative sum is at most the sum. */
  lemma SumTermAtMost<T(!new)>(s: set<T>, f: T -> int, x: T)
    requires x in s
    requires forall y :: y in s ==> 0 <= f(y)
    ensures f(x) <= Sum(s, f)
  {
    SumRemove(s, f, x);
    SumNonNegative(s - {x}, f);
  }

  /** Leaving out non-negative terms cannot increase a sum. */
  lemma {:induction false} SumSubset<T(!new)>(s: set<T>, t: set<T>, f: T -> int)
    requires s <= t && forall x :: x in t ==> 0 <= f(x)
    ensures Sum(s, f) <= Sum(t, f)
    decreases |t|
  {
    if x :| x in t && x !in s {
      SumRemove(t, f, x);
      SumSubset(s, t - {x}, f);
    } else {
      assert s == t;
    }
  }

  lemma {:induction false} SumDisjoint<T(!new)>(s: set<T>, t: set<T>, f: T -> int)
    requires s !! t
    ensures Sum(s + t, f) == Sum(s, f) + Sum(t, f)
    decreases |t|
  {
    if t == {} {
      assert s + t == s;
    } else {
      var x :| x in t;
      SumRemove(t, f, x);
      SumRemove(s + t, f, x);
      assert s + t - {x} == s + (t - {x});
      SumDisjoint(s, t - {x}, f);
    }
  }

  /** Summing over a set or over a one-to-one image of it is the same. */
  lemma {:induction false} SumImage<X(!new), Y(!new)>(s: set<X>, t: set<Y>, h: X -> Y, f: Y -> int, g: X -> int)
    requires t == set x | x in s :: h(x)
    requires forall x, y :: x in s && y in s && h(x) == h(y) ==> x == y
    requires forall x :: x in s ==> g(x) == f(h(x))
    ensures Sum(t, f) == Sum(s, g)
    decreases |s|
  {
    if s == {} {
      assert t == {};
    } else {
      var x :| x in s;
      SumRemove(s, g, x);
      SumRemove(t, f, h(x));
      assert t - {h(x)} == set y | y in s - {x} :: h(y);
      SumImage(s - {x}, t - {h(x)}, h, f, g);
    }
  }

  ghost function Row<X(!new), Y(!new)>(m: (X, Y) -> int, x: X): Y -> int
  {
    y => m(x, y)
  }

  ghost function Column<X(!new), Y(!new)>(m: (X, Y) -> int, y: Y): X -> int
  {
    x => m(x, y)
  }

  ghost function RowSum<X(!new), Y(!new)>(t: set<Y>, m: (X, Y) -> int): X -> int
  {
    x => Sum(t, Row(m, x))
  }

  ghost function ColumnSum<X(!new), Y(!new)>(s: set<X>, m: (X, Y) -> int): Y -> int
  {
    y => Sum(s, Column(m, y))
  }

  /** Summing a table by rows or by columns gives the same total. */
  lemma {:induction false} SumSwap<X(!new), Y(!new)>(s: set<X>, t: set<Y>, m: (X, Y) -> int)
    ensures Sum(s, RowSum(t, m)) == Sum(t, ColumnSum(s, m))
    decreases |s|
  {
    if s == {} {
      SumZero(t, ColumnSum(s, m));
    } else {
      var x :| x in s;
      SumRemove(s, RowSum(t, m), x);
      SumSwap(s - {x}, t, m);
      forall y | y in t
        ensures ColumnSum(s, m)(y) == Row(m, x)(y) + ColumnSum(s - {x}, m)(y)
      {
        SumRemove(s, Column(m, y), x);
      }
      SumAdd(t, Row(m, x), ColumnSum(s - {x}, m), ColumnSum(s, m));
    }
  }
}
