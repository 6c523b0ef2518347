/** The arithmetic of matching two limit orders. */
module Market {
  import opened Arithmetic

  /** An order sells `base` units for `quote` units of the other token. */
  datatype Terms = Terms(base: nat, quote: nat)

  predicate IsTerms(t: Terms)
  {
    t.base > 0 && t.quote > 0
  }

  /** What an amount for sale brings at the order's own price, truncated. */
  function Proceeds(amount: nat, t: Terms): nat
    requires IsTerms(t)
  {
    MulDiv(amount, t.quote, t.base)
  }

  /** What an order selling at `t` hands over for `amount` of the other token, truncated. */
  function Yields(amount: nat, t: Terms): nat
    requires IsTerms(t)
  {
    MulDiv(amount, t.base, t.quote)
  }

  /** Each side offers at least what the other asks. */
  predicate Crosses(a: Terms, b: Terms)
  {
    a.base * b.base >= a.quote * b.quote
  }

  /** What an order still worth resting has for sale. */
  predicate Live(amount: nat, t: Terms)
    requires IsTerms(t)
  {
    amount > 0 && Proceeds(amount, t) > 0
  }

  /** `newPays` goes to the resting order's seller, `oldPays` to the new order's. */
  datatype Fill = Fill(newPays: nat, oldPays: nat)

  /** A new order meets a resting one, at the resting order's price. */
  function Match(forNew: nat, forOld: nat, rest: Terms): Fill
    requires IsTerms(rest)
  {
    if forNew <= Proceeds(forOld, rest) then Fill(forNew, Yields(forNew, rest))
    else Fill(Proceeds(forOld, rest), forOld)
  }

  /** Nobody pays more than is for sale, and one side sells out. */
  lemma MatchWithinOffers(forNew: nat, forOld: nat, rest: Terms)
    requires IsTerms(rest)
    ensures var f := Match(forNew, forOld, rest);
      f.newPays <= forNew && f.oldPays <= forOld && (f.newPays == forNew || f.oldPays == forOld)
  {
    MulDivBounds(forOld, rest.quote, rest.base);
    if forNew <= Proceeds(forOld, rest) {
      MulMonotone(forNew, Proceeds(forOld, rest), rest.base);
      QuotientMonotone(forNew * rest.base, forOld * rest.quote, rest.quote);
      QuotientExact(forOld, rest.quote);
    }
  }

  /** The price of a fill is the resting order's: whichever side sells out, the other hands over the most that
      this price gives for it. */
  ghost predicate AtRestingPrice(f: Fill, forNew: nat, forOld: nat, rest: Terms)
  {
    || (f.newPays == forNew
        && f.oldPays * rest.quote <= f.newPays * rest.base < f.oldPays * rest.quote + rest.quote)
    || (f.oldPays == forOld
        && f.newPays * rest.base <= f.oldPays * rest.quote < f.newPays * rest.base + rest.base)
  }

  lemma MatchAtRestingPrice(forNew: nat, forOld: nat, rest: Terms)
    requires IsTerms(rest)
    ensures AtRestingPrice(Match(forNew, forOld, rest), forNew, forOld, rest)
  {
    MulDivBounds(forNew, rest.base, rest.quote);
    MulDivBounds(forOld, rest.quote, rest.base);
  }

  /** An amount that brings something at an order's own price brings as much at a better one. */
  lemma BetterPrice(amount: nat, t: Terms, rest: Terms)
    requires IsTerms(t) && IsTerms(rest) && Crosses(t, rest)
    ensures Proceeds(amount, t) <= Yields(amount, rest)
  {
    var r := Proceeds(amount, t);
    MulDivBounds(amount, t.quote, t.base);
    CrossScale(amount, r, t, rest);
    QuotientAtLeast(amount * rest.base, rest.quote, r);
  }

  lemma CrossScale(amount: nat, r: nat, t: Terms, rest: Terms)
    requires IsTerms(t) && IsTerms(rest) && Crosses(t, rest) && r * t.base <= amount * t.quote
    ensures r * rest.quote <= amount * rest.base
  {
    var lhs, rhs := r * rest.quote, amount * rest.base;
    assert lhs * t.base == (r * t.base) * rest.quote;
    MulMonotone(r * t.base, amount * t.quote, rest.quote);
    assert (amount * t.quote) * rest.quote == (t.quote * rest.quote) * amount;
    MulMonotone(t.quote * rest.quote, t.base * rest.base, amount);
    assert (t.base * rest.base) * amount == rhs * t.base;
    if rhs < lhs { MulStrict(rhs, lhs, t.base); }
  }

  /** Two orders cross exactly if there are amounts at which they could trade, each at its limit or better. */
  lemma CrossesExact(a: Terms, b: Terms)
    requires IsTerms(a) && IsTerms(b)
    ensures Crosses(a, b) <==>
      exists x: nat, y: nat :: 0 < x && 0 < y && x * a.quote <= y * a.base && y * b.quote <= x * b.base
  {
    if Crosses(a, b) {
      assert a.base * a.quote <= a.quote * a.base && a.quote * b.quote <= a.base * b.base;
    }
    if x: nat, y: nat :| 0 < x && 0 < y && x * a.quote <= y * a.base && y * b.quote <= x * b.base {
      TradeCrosses(a, b, x, y);
    }
  }

  lemma TradeCrosses(a: Terms, b: Terms, x: nat, y: nat)
    requires 0 < x && 0 < y && x * a.quote <= y * a.base && y * b.quote <= x * b.base
    ensures Crosses(a, b)
  {
    var asks, bids := a.quote * b.quote, a.base * b.base;
    MulMonotone(x * a.quote, y * a.base, y * b.quote);
    MulMonotone(y * b.quote, x * b.base, y * a.base);
    assert (x * a.quote) * (y * b.quote) == asks * (x * y);
    assert (y * b.quote) * (y * a.base) == (y * a.base) * (y * b.quote);
    assert (x * b.base) * (y * a.base) == bids * (x * y);
    if bids < asks { MulStrict(bids, asks, x * y); }
  }

  /** Terms with the better ratio hand over no less for any amount. */
  lemma RatioYields(amount: nat, a: Terms, b: Terms)
    requires IsTerms(a) && IsTerms(b) && a.base * b.quote >= b.base * a.quote
    ensures Yields(amount, b) <= Yields(amount, a)
  {
    var r := Yields(amount, b);
    MulDivBounds(amount, b.base, b.quote);
    var lhs, rhs := r * a.quote, amount * a.base;
    MulMonotone(r * b.quote, amount * b.base, a.quote);
    MulSwap(r, b.quote, a.quote);
    MulTurn(amount, b.base, a.quote);
    MulMonotone(b.base * a.quote, a.base * b.quote, amount);
    MulTurn(a.base, b.quote, amount);
    assert b.quote * amount * a.base == rhs * b.quote;
    if rhs < lhs { MulStrict(rhs, lhs, b.quote); }
    QuotientAtLeast(rhs, a.quote, r);
  }

  /** Between live orders every fill gives both sides something. */
  lemma MatchGivesBoth(forNew: nat, forOld: nat, t: Terms, rest: Terms)
    requires IsTerms(t) && IsTerms(rest) && Crosses(t, rest) && Live(forNew, t) && Live(forOld, rest)
    ensures Match(forNew, forOld, rest).newPays > 0 && Match(forNew, forOld, rest).oldPays > 0
  {
    BetterPrice(forNew, t, rest);
  }

  /** The new order gets its limit price or better, up to one truncation of what it sells; the
      resting order gets exactly its price, up to one truncation of what it receives. */
  lemma MatchAtLimit(forNew: nat, forOld: nat, t: Terms, rest: Terms)
    requires IsTerms(t) && IsTerms(rest) && Crosses(t, rest)
    ensures var f := Match(forNew, forOld, rest);
      && Proceeds(f.newPays, t) <= f.oldPays
      && Proceeds(f.oldPays, rest) <= f.newPays
      && (f.newPays < forNew ==> f.newPays * t.quote <= f.oldPays * t.base)
      && (f.oldPays < forOld ==> f.oldPays * rest.quote <= f.newPays * rest.base)
  {
    var f := Match(forNew, forOld, rest);
    if forNew <= Proceeds(forOld, rest) {
      BetterPrice(forNew, t, rest);
      MulDivBounds(forNew, rest.base, rest.quote);
      ProceedsOf(f.oldPays, rest, f.newPays);
    } else {
      MulDivBounds(forOld, rest.quote, rest.base);
      PaidAtLimit(f.newPays, f.oldPays, t, rest);
      ProceedsOf(f.newPays, t, f.oldPays);
    }
  }

  lemma ProceedsOf(amount: nat, t: Terms, bound: nat)
    requires IsTerms(t) && amount * t.quote <= bound * t.base
    ensures Proceeds(amount, t) <= bound
  {
    QuotientMonotone(amount * t.quote, bound * t.base, t.base);
    QuotientExact(bound, t.base);
  }

  lemma PaidAtLimit(pays: nat, gets: nat, t: Terms, rest: Terms)
    requires IsTerms(t) && IsTerms(rest) && Crosses(t, rest) && pays * rest.base <= gets * rest.quote
    ensures pays * t.quote <= gets * t.base
  {
    var lhs, rhs := pays * t.quote, gets * t.base;
    MulTurn(pays, t.quote, rest.quote);
    MulMonotone(t.quote * rest.quote, t.base * rest.base, pays);
    MulTurn(t.base, rest.base, pays);
    MulMonotone(pays * rest.base, gets * rest.quote, t.base);
    MulSwap(gets, rest.quote, t.base);
    if rhs < lhs { MulStrict(rhs, lhs, rest.quote); }
  }
}
