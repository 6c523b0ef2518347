/** Truncating products, as `asset * price` and the reward formulas compute them. */
module Arithmetic {

  /** `a * b / c`, rounded down. */
  function MulDiv(a: nat, b: nat, c: nat): nat
    requires c > 0
  {
    Quotient(a * b, c)
  }

  function Quotient(x: nat, c: nat): nat
    requires c > 0
  {
    x / c
  }

  lemma QuotientBounds(x: nat, c: nat)
    requires c > 0
    ensures Quotient(x, c) * c <= x < Quotient(x, c) * c + c
  {
  }

  lemma {:induction false} MulMonotone(a: nat, b: nat, c: nat)
    requires a <= b
    ensures a * c <= b * c
  {
    assert b * c == a * c + (b - a) * c;
  }

  lemma MulSwap(a: int, b: int, c: int)
    ensures a * b * c == a * c * b
  {
  }

  lemma MulTurn(a: int, b: int, c: int)
    ensures a * b * c == b * c * a
  {
  }

  lemma MulStrict(a: nat, b: nat, c: nat)
    requires a < b && c > 0
    ensures a * c + c <= b * c
  {
    MulMonotone(a + 1, b, c);
    assert (a + 1) * c == a * c + c;
  }

  /** Rounding down is pinned by its bounds. */
  lemma QuotientAtLeast(x: nat, c: nat, r: nat)
    requires c > 0 && r * c <= x
    ensures r <= Quotient(x, c)
  {
    QuotientBounds(x, c);
    if Quotient(x, c) < r { MulStrict(Quotient(x, c), r, c); }
  }

  lemma QuotientBelow(x: nat, c: nat, r: nat)
    requires c > 0 && x < r * c
    ensures Quotient(x, c) < r
  {
    QuotientBounds(x, c);
    if r <= Quotient(x, c) { MulMonotone(r, Quotient(x, c), c); }
  }

  lemma QuotientMonotone(x: nat, y: nat, c: nat)
    requires c > 0 && x <= y
    ensures Quotient(x, c) <= Quotient(y, c)
  {
    QuotientBounds(x, c);
    QuotientAtLeast(y, c, Quotient(x, c));
  }

  lemma MulDivBounds(a: nat, b: nat, c: nat)
    requires c > 0
    ensures MulDiv(a, b, c) * c <= a * b < MulDiv(a, b, c) * c + c
  {
    QuotientBounds(a * b, c);
  }

  lemma MulDivMonotone(a: nat, a': nat, b: nat, c: nat)
    requires c > 0 && a <= a'
    ensures MulDiv(a, b, c) <= MulDiv(a', b, c)
  {
    MulMonotone(a, a', b);
    QuotientMonotone(a * b, a' * b, c);
  }

  /** A share of at most one hundred percent takes no more than the whole. */
  lemma MulDivAtMost(a: nat, b: nat, c: nat)
    requires c > 0 && b <= c
    ensures MulDiv(a, b, c) <= a
  {
    MulMonotone(b, c, a);
    assert a * b == b * a && a * c == c * a;
    QuotientMonotone(a * b, a * c, c);
    QuotientExact(a, c);
  }

  lemma QuotientExact(a: nat, c: nat)
    requires c > 0
    ensures Quotient(a * c, c) == a
  {
    QuotientAtLeast(a * c, c, a);
    assert a * c < (a + 1) * c by { MulStrict(a, a + 1, c); }
    QuotientBelow(a * c, c, a + 1);
  }

  /** Truncated shares of parts add up to at most the truncated share of the whole. */
  lemma MulDivSuperadditive(a: nat, b: nat, b': nat, c: nat)
    requires c > 0
    ensures MulDiv(a, b, c) + MulDiv(a, b', c) <= MulDiv(a, b + b', c)
  {
    MulDivBounds(a, b, c);
    MulDivBounds(a, b', c);
    var r, r' := MulDiv(a, b, c), MulDiv(a, b', c);
    assert (r + r') * c == r * c + r' * c;
    assert a * (b + b') == a * b + a * b';
    QuotientAtLeast(a * (b + b'), c, r + r');
  }

  /** A part of something is at most the whole, and what stays is at least its own part. */
  lemma MulDivShare(part: nat, whole: nat, all: nat)
    requires all > 0 && part <= all
    ensures var m := MulDiv(part, whole, all); m <= whole && (whole - m) * all >= whole * (all - part)
  {
    var m := MulDiv(part, whole, all);
    MulDivBounds(part, whole, all);
    assert part * whole == whole * part;
    MulDivAtMost(whole, part, all);
    Distribute(whole, m, all);
    Distribute(all, part, whole);
  }

  lemma Distribute(a: int, b: int, c: int)
    ensures (a - b) * c == a * c - b * c
    ensures c * (a - b) == a * c - b * c
  {
  }
}
