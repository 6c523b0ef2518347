/** Conversion requests that come due together: what each pays, and what must be issued or burned for it. */
module Conversions {
  import opened Arithmetic
  import opened Funds
  import opened LedgerState
  import opened LedgerSteps
  import opened AuthorPayout

  const FEE_PERCENT: nat := 500
  const COLLATERAL_RATIO: nat := 20000
  const CONVERSION_DELAY: nat := 60 * 60 * 84

  /** HIVE for an amount of HBD, truncated. */
  function ToHive(hbd: nat, p: Price): nat
    requires IsPrice(p)
  {
    MulDiv(hbd, p.quote, p.base)
  }

  /** The same with the conversion fee on top. */
  function Required(hbd: nat, p: Price): nat
    requires IsPrice(p)
  {
    Quotient(hbd * p.quote * (HUNDRED_PERCENT + FEE_PERCENT), p.base * HUNDRED_PERCENT)
  }

  /** HBD handed out at once for collateral. */
  function Immediate(collateral: nat, p: Price): nat
    requires IsPrice(p)
  {
    Quotient(MulDiv(collateral, HUNDRED_PERCENT, COLLATERAL_RATIO) * p.base * HUNDRED_PERCENT,
        p.quote * (HUNDRED_PERCENT + FEE_PERCENT))
  }

  /** The most HIVE that the HBD is worth: no larger amount of HIVE is within that worth. */
  lemma ToHiveExact(hbd: nat, p: Price)
    requires IsPrice(p)
    ensures var amount := ToHive(hbd, p);
      && amount * p.base <= hbd * p.quote < (amount + 1) * p.base
      && ToHbd(amount, p) <= hbd
      && forall more: nat :: more * p.base <= hbd * p.quote ==> more <= amount
  {
    var amount := ToHive(hbd, p);
    MulDivBounds(hbd, p.quote, p.base);
    assert (amount + 1) * p.base == amount * p.base + p.base;
    QuotientMonotone(amount * p.base, hbd * p.quote, p.quote);
    QuotientExact(hbd, p.quote);
    forall more: nat | more * p.base <= hbd * p.quote ensures more <= amount {
      if more > amount { MulStrict(amount, more, p.base); }
    }
  }

  /** The HIVE required is what the HBD is worth with a twentieth on top, truncated. */
  lemma RequiredExact(hbd: nat, p: Price)
    requires IsPrice(p)
    ensures var n := Required(hbd, p); n * 20 * p.base <= hbd * 21 * p.quote < (n + 1) * 20 * p.base
  {
    var n := Required(hbd, p);
    QuotientBounds(hbd * p.quote * (HUNDRED_PERCENT + FEE_PERCENT), p.base * HUNDRED_PERCENT);
    Scaled(n, p.base);
    Scaled(n + 1, p.base);
    Topped(hbd, p.quote);
    assert n * (p.base * HUNDRED_PERCENT) + p.base * HUNDRED_PERCENT == (n + 1) * (p.base * HUNDRED_PERCENT);
  }

  /** Half of the collateral is handed out as HBD, a twenty-first part less for the fee, truncated. */
  lemma ImmediateExact(collateral: nat, p: Price)
    requires IsPrice(p)
    ensures var n := Immediate(collateral, p);
      n * 21 * p.quote <= (collateral / 2) * 20 * p.base < (n + 1) * 21 * p.quote
  {
    var n, half := Immediate(collateral, p), MulDiv(collateral, HUNDRED_PERCENT, COLLATERAL_RATIO);
    MulDivBounds(collateral, HUNDRED_PERCENT, COLLATERAL_RATIO);
    assert half == collateral / 2;
    QuotientBounds(half * p.base * HUNDRED_PERCENT, p.quote * (HUNDRED_PERCENT + FEE_PERCENT));
    Topped(n, p.quote);
    Topped(n + 1, p.quote);
    Scaled(half, p.base);
    assert n * (p.quote * 10500) + p.quote * 10500 == (n + 1) * (p.quote * 10500);
  }

  lemma Scaled(n: nat, base: nat)
    ensures n * (base * HUNDRED_PERCENT) == 500 * (n * 20 * base) == n * base * HUNDRED_PERCENT
  {
  }

  lemma Topped(n: nat, quote: nat)
    ensures n * quote * (HUNDRED_PERCENT + FEE_PERCENT) == 500 * (n * 21 * quote)
         == n * (quote * (HUNDRED_PERCENT + FEE_PERCENT))
  {
  }

  /** Collateral is enough unless HIVE lost more than half of its price since. */
  lemma EnoughCollateral(collateral: nat, was: Price, now: Price)
    requires IsPrice(was) && IsPrice(now) && was.base * now.quote <= 2 * (now.base * was.quote)
    ensures Required(Immediate(collateral, was), now) <= collateral
  {
    var half := MulDiv(collateral, HUNDRED_PERCENT, COLLATERAL_RATIO);
    var hbd := Immediate(collateral, was);
    HalfOf(collateral);
    QuotientBounds(half * was.base * HUNDRED_PERCENT, was.quote * (HUNDRED_PERCENT + FEE_PERCENT));
    HalfCovers(collateral, half, hbd, was, now);
    QuotientMonotone(hbd * now.quote * (HUNDRED_PERCENT + FEE_PERCENT), collateral * (now.base * HUNDRED_PERCENT),
        now.base * HUNDRED_PERCENT);
    QuotientExact(collateral, now.base * HUNDRED_PERCENT);
  }

  /** And it does then: here is a collateral that falls short. */
  lemma ShortCollateral(was: Price, now: Price)
    requires IsPrice(was) && IsPrice(now) && was.base * now.quote > 2 * (now.base * was.quote)
    ensures var collateral := 21000 * (was.quote * now.base);
      Required(Immediate(collateral, was), now) > collateral
  {
    var unit := was.quote * now.base;
    var collateral := 21000 * unit;
    QuotientExact(10500 * unit, COLLATERAL_RATIO);
    assert MulDiv(collateral, HUNDRED_PERCENT, COLLATERAL_RATIO) == 10500 * unit;
    var hbd := 10000 * (now.base * was.base);
    QuotientExact(hbd, was.quote * 10500);
    assert 10500 * unit * was.base * 10000 == hbd * (was.quote * 10500);
    assert Immediate(collateral, was) == hbd;
    var due := 10500 * (was.base * now.quote);
    QuotientExact(due, now.base * 10000);
    assert hbd * now.quote * 10500 == due * (now.base * 10000);
    assert Required(hbd, now) == due;
  }

  /** Every collateral is enough exactly if HIVE kept at least half of its price. */
  lemma CollateralExact(was: Price, now: Price)
    requires IsPrice(was) && IsPrice(now)
    ensures (forall c: nat :: Required(Immediate(c, was), now) <= c) <==>
      was.base * now.quote <= 2 * (now.base * was.quote)
  {
    hide Required, Immediate;
    if was.base * now.quote <= 2 * (now.base * was.quote) {
      forall c: nat ensures Required(Immediate(c, was), now) <= c {
        EnoughCollateral(c, was, now);
      }
    } else {
      ShortCollateral(was, now);
    }
  }

  lemma HalfOf(collateral: nat)
    ensures 2 * MulDiv(collateral, HUNDRED_PERCENT, COLLATERAL_RATIO) <= collateral
  {
    MulDivBounds(collateral, HUNDRED_PERCENT, COLLATERAL_RATIO);
  }

  lemma HalfCovers(collateral: nat, half: nat, hbd: nat, was: Price, now: Price)
    requires IsPrice(was) && IsPrice(now) && 2 * half <= collateral
    requires was.base * now.quote <= 2 * (now.base * was.quote)
    requires hbd * (was.quote * (HUNDRED_PERCENT + FEE_PERCENT)) <= half * was.base * HUNDRED_PERCENT
    ensures hbd * now.quote * (HUNDRED_PERCENT + FEE_PERCENT) <= collateral * (now.base * HUNDRED_PERCENT)
  {
    // Both sides times the positive was.quote.
    var x, y := hbd * now.quote * 10500, collateral * (now.base * 10000);
    MulMonotone(hbd * (was.quote * 10500), half * was.base * 10000, now.quote);
    MulMonotone(was.base * now.quote, 2 * (now.base * was.quote), half);
    MulMonotone(2 * half, collateral, now.base * was.quote);
    ScaledRequired(hbd, now.quote, was.quote);
    ScaledHalf(half, was.base, now.quote);
    MulSwap(2, now.base * was.quote, half);
    ScaledCollateral(collateral, now.base, was.quote);
    if y < x { MulStrict(y, x, was.quote); }
  }

  lemma ScaledRequired(hbd: nat, quote: nat, q: nat)
    ensures hbd * quote * 10500 * q == hbd * (q * 10500) * quote
  {
  }

  lemma ScaledHalf(half: nat, base: nat, quote: nat)
    ensures half * base * 10000 * quote == 10000 * (base * quote * half)
  {
  }

  lemma ScaledCollateral(collateral: nat, base: nat, q: nat)
    ensures collateral * (base * 10000) * q == 10000 * (collateral * (base * q))
  {
  }

  function Converting(k: Key): Holder
  {
    Holder(ConversionFunds(k.owner, k.id), Hbd)
  }

  function Pledged(k: Key): Holder
  {
    Holder(CollateralFunds(k.owner, k.id), Hive)
  }

  /** A pledge as every holder sees it. */
  lemma PledgedBalances(funds: Balances, k: Key, amount: nat, hbd: nat)
    requires amount <= At(funds, Liq(k.owner, Hive))
    ensures forall h ::
      At(Credited(Moved(funds, Liq(k.owner, Hive), Pledged(k), amount), Liq(k.owner, Hbd), hbd), h) == At(funds, h)
        - Only(h, Holder(Liquid(k.owner), Hive), amount)
        + Only(h, Holder(CollateralFunds(k.owner, k.id), Hive), amount) + Only(h, Holder(Liquid(k.owner), Hbd), hbd)
  {
  }

  /** A request came due: `drawn` was taken from it, and `amount` of HIVE is owed to its owner;
      a collateral that fell short shows as a negative amount. */
  datatype Payment = Payment(key: Key, drawn: nat, amount: int)

  function Payable(p: Payment): nat
  {
    if p.amount < 0 then 0 else p.amount
  }

  function GivenUp(ps: seq<Payment>): nat
  {
    if ps == [] then 0 else GivenUp(ps[..|ps| - 1]) + ps[|ps| - 1].drawn
  }

  function Owed(ps: seq<Payment>): nat
  {
    if ps == [] then 0 else Owed(ps[..|ps| - 1]) + Payable(ps[|ps| - 1])
  }

  function OwedTo(ps: seq<Payment>, a: Name): nat
  {
    if ps == [] then 0 else OwedTo(ps[..|ps| - 1], a) + if ps[|ps| - 1].key.owner == a then Payable(ps[|ps| - 1]) else 0
  }

  lemma OneMore(ps: seq<Payment>, p: Payment)
    ensures GivenUp(ps + [p]) == GivenUp(ps) + p.drawn
    ensures Owed(ps + [p]) == Owed(ps) + Payable(p)
    ensures forall a :: OwedTo(ps + [p], a) == OwedTo(ps, a) + if p.key.owner == a then Payable(p) else 0
  {
    assert (ps + [p])[..|ps|] == ps;
  }

  lemma {:induction false} OwedJoin(ps: seq<Payment>, qs: seq<Payment>)
    ensures Owed(ps + qs) == Owed(ps) + Owed(qs)
    decreases |qs|
  {
    if qs == [] {
      assert ps + qs == ps;
    } else {
      assert (ps + qs)[..|ps + qs| - 1] == ps + qs[..|qs| - 1];
      OwedJoin(ps, qs[..|qs| - 1]);
    }
  }

  /** What is owed first is no more than all that is owed. */
  lemma {:induction false} OwedPrefix(ps: seq<Payment>, i: nat)
    requires i < |ps|
    ensures Owed(ps[..i]) + Payable(ps[i]) <= Owed(ps)
    decreases |ps|
  {
    if i == |ps| - 1 {
    } else {
      assert ps[..|ps| - 1][..i] == ps[..i];
      OwedPrefix(ps[..|ps| - 1], i);
    }
  }

  /** What a secured request pays out and what of its collateral is burned make up the collateral. */
  function Secured(k: Key, collateral: nat, converted: nat, p: Price): Payment
    requires IsPrice(p)
  {
    Payment(k, collateral, collateral - Required(converted, p))
  }

  function Regular(k: Key, hbd: nat, p: Price): Payment
    requires IsPrice(p)
  {
    Payment(k, hbd, ToHive(hbd, p))
  }

  /** The state as it would balance if the tokens drawn so far counted as burned. */
  function Without(s: State, hbd: int, hive: int): State
  {
    s.(supply := s.supply.(hbd := s.supply.hbd - hbd, hive := s.supply.hive - hive))
  }

  lemma AddConversionSound(s: State, k: Key, date: nat)
    requires Sound(s) && k.owner in s.accounts
    ensures Sound(s.(conversions := s.conversions[k := date]))
  {
    hide Whole, Book;
    AddConversion(s, k, date);
  }

  lemma AddCollateralSound(s: State, k: Key, c: Collateralized)
    requires Sound(s) && k.owner in s.accounts
    ensures Sound(s.(collaterals := s.collaterals[k := c]))
  {
    hide Whole, Book;
    AddCollateral(s, k, c);
  }

  lemma RemoveConversionSound(s: State, k: Key)
    requires Sound(s) && k in s.conversions && At(s.funds, Converting(k)) == 0
    ensures Sound(s.(conversions := s.conversions - {k}))
  {
    hide Whole, Book;
    RemoveConversion(s, k);
  }

  lemma RemoveCollateralSound(s: State, k: Key)
    requires Sound(s) && k in s.collaterals && At(s.funds, Pledged(k)) == 0
    ensures Sound(s.(collaterals := s.collaterals - {k}))
  {
    hide Whole, Book;
    RemoveCollateral(s, k);
  }

  lemma DrawConversion(s: State, k: Key, hbd: nat)
    requires Sound(Without(s, hbd, 0)) && k in s.conversions
    ensures var n := At(s.funds, Converting(k));
      Sound(Without(s.(funds := Debited(s.funds, Converting(k), n), conversions := s.conversions - {k}), hbd + n, 0))
  {
    hide Sound;
    var n := At(s.funds, Converting(k));
    BurnSound(Without(s, hbd, 0), Converting(k), n);
    RemoveConversionSound(Without(s.(funds := Debited(s.funds, Converting(k), n)), hbd + n, 0), k);
  }

  lemma DrawCollateral(s: State, k: Key, hbd: nat, hive: nat)
    requires Sound(Without(s, hbd, hive)) && k in s.collaterals
    ensures var n := At(s.funds, Pledged(k));
      Sound(Without(s.(funds := Debited(s.funds, Pledged(k), n), collaterals := s.collaterals - {k}), hbd, hive + n))
  {
    hide Sound;
    var n := At(s.funds, Pledged(k));
    BurnSound(Without(s, hbd, hive), Pledged(k), n);
    RemoveCollateralSound(Without(s.(funds := Debited(s.funds, Pledged(k), n)), hbd, hive + n), k);
  }

  lemma PayOut(s: State, a: Name, n: nat, hive: nat)
    requires Sound(Without(s, 0, hive)) && a in s.accounts && n <= hive
    ensures Sound(Without(s.(funds := Credited(s.funds, Liq(a, Hive), n)), 0, hive - n))
  {
    hide Sound;
    IssueSound(Without(s, 0, hive), Liq(a, Hive), n);
  }

  ghost function Keys(ps: seq<Payment>): set<Key>
  {
    set i | 0 <= i < |ps| :: ps[i].key
  }

  lemma KeysOneMore(ps: seq<Payment>, p: Payment)
    ensures Keys(ps + [p]) == Keys(ps) + {p.key}
  {
    var qs := ps + [p];
    forall k | k in Keys(ps) + {p.key} ensures k in Keys(qs) {
      if k == p.key {
        assert qs[|ps|].key == k;
      } else {
        var i :| 0 <= i < |ps| && ps[i].key == k;
        assert qs[i].key == k;
      }
    }
  }

  /** No request is drawn twice. */
  ghost predicate DrawnOnce(ps: seq<Payment>)
  {
    forall i, j :: 0 <= i < j < |ps| ==> ps[i].key != ps[j].key
  }

  ghost predicate RegularFrom(ps: seq<Payment>, s: State, p: Price)
    requires IsPrice(p)
  {
    && DrawnOnce(ps)
    && forall i :: 0 <= i < |ps| ==> ps[i].key in s.conversions && ps[i] == Regular(ps[i].key,
         At(s.funds, Converting(ps[i].key)), p)
  }

  /** The requests in `ps` are gone, with their HBD, and nothing else has changed. */
  ghost predicate RegularDrawn(s: State, t: State, ps: seq<Payment>, p: Price, now: nat)
    requires IsPrice(p)
  {
    && RegularFrom(ps, s, p)
    && (forall i :: 0 <= i < |ps| ==> s.conversions[ps[i].key] <= now)
    && t == s.(funds := t.funds, conversions := s.conversions - Keys(ps))
    && (forall k :: k in Keys(ps) ==> At(t.funds, Converting(k)) == 0)
    && (forall h :: !(exists k :: k in Keys(ps) && h == Converting(k)) ==> At(t.funds, h) == At(s.funds, h))
  }

  lemma RegularStep(s: State, t: State, ps: seq<Payment>, p: Price, now: nat, k: Key)
    requires IsPrice(p) && RegularDrawn(s, t, ps, p, now) && k in t.conversions && t.conversions[k] <= now
    ensures var n := At(t.funds, Converting(k));
      RegularDrawn(s, t.(funds := Debited(t.funds, Converting(k), n), conversions := t.conversions - {k}),
          ps + [Regular(k, n, p)], p, now)
  {
    hide ToHive;
    var n := At(t.funds, Converting(k));
    KeysOneMore(ps, Regular(k, n, p));
    forall i | 0 <= i < |ps| ensures ps[i].key in Keys(ps) { }
    hide Keys;
    assert s.conversions - Keys(ps) - {k} == s.conversions - (Keys(ps) + {k});
  }

  ghost predicate SecuredFrom(ps: seq<Payment>, s: State, p: Price)
    requires IsPrice(p)
  {
    && DrawnOnce(ps)
    && forall i :: 0 <= i < |ps| ==>
        && ps[i].key in s.collaterals
        && ps[i] == Secured(ps[i].key, At(s.funds, Pledged(ps[i].key)), s.collaterals[ps[i].key].converted, p)
  }

  ghost predicate SecuredDrawn(s: State, t: State, ps: seq<Payment>, p: Price, now: nat)
    requires IsPrice(p)
  {
    && SecuredFrom(ps, s, p)
    && (forall i :: 0 <= i < |ps| ==> s.collaterals[ps[i].key].date <= now)
    && t == s.(funds := t.funds, collaterals := s.collaterals - Keys(ps))
    && (forall k :: k in Keys(ps) ==> At(t.funds, Pledged(k)) == 0)
    && (forall h :: !(exists k :: k in Keys(ps) && h == Pledged(k)) ==> At(t.funds, h) == At(s.funds, h))
  }

  lemma SecuredStep(s: State, t: State, ps: seq<Payment>, p: Price, now: nat, k: Key)
    requires IsPrice(p) && SecuredDrawn(s, t, ps, p, now) && k in t.collaterals && t.collaterals[k].date <= now
    ensures var n := At(t.funds, Pledged(k));
      SecuredDrawn(s, t.(funds := Debited(t.funds, Pledged(k), n), collaterals := t.collaterals - {k}),
        ps + [Secured(k, n, t.collaterals[k].converted, p)], p, now)
  {
    hide Required;
    var n := At(t.funds, Pledged(k));
    KeysOneMore(ps, Secured(k, n, t.collaterals[k].converted, p));
    forall i | 0 <= i < |ps| ensures ps[i].key in Keys(ps) { }
    hide Keys;
    assert s.collaterals - Keys(ps) - {k} == s.collaterals - (Keys(ps) + {k});
  }

  /** Everyone got what they were owed, and no other balance changed. */
  ghost predicate PaidTo(before: Balances, after: Balances, ps: seq<Payment>)
  {
    && (forall a :: At(after, Liq(a, Hive)) == At(before, Liq(a, Hive)) + OwedTo(ps, a))
    && (forall h: Holder :: !(h.place.Liquid? && h.token == Hive) ==> At(after, h) == At(before, h))
  }

  lemma PaidStep(before: Balances, after: Balances, ps: seq<Payment>, p: Payment)
    requires PaidTo(before, after, ps)
    ensures PaidTo(before, Credited(after, Liq(p.key.owner, Hive), Payable(p)), ps + [p])
  {
    hide OwedTo;
    OneMore(ps, p);
  }

  lemma PaidSkip(before: Balances, after: Balances, ps: seq<Payment>, p: Payment)
    requires PaidTo(before, after, ps) && p.amount < 0
    ensures PaidTo(before, after, ps + [p])
  {
    hide OwedTo;
    OneMore(ps, p);
  }

  lemma NoneDrawn(s: State, p: Price, now: nat)
    requires IsPrice(p)
    ensures RegularDrawn(s, s, [], p, now) && SecuredDrawn(s, s, [], p, now)
    ensures GivenUp([]) == 0 && Owed([]) == 0
  {
    assert Keys([]) == {};
    assert s.conversions - {} == s.conversions && s.collaterals - {} == s.collaterals;
  }

  /** All of a request's HBD is paid for in HIVE: the most that the HBD is worth at the price. */
  ghost predicate AtPrice(pay: Payment, s: State, p: Price)
    requires IsPrice(p)
  {
    var hbd := At(s.funds, Holder(ConversionFunds(pay.key.owner, pay.key.id), Hbd));
    && pay.drawn == hbd && pay.amount >= 0
    && pay.amount * p.base <= hbd * p.quote < (pay.amount + 1) * p.base
    && ToHbd(pay.amount, p) <= hbd
    && forall more: nat :: more * p.base <= hbd * p.quote ==> more <= pay.amount
  }

  lemma AllAtPrice(ps: seq<Payment>, s: State, p: Price)
    requires IsPrice(p) && RegularFrom(ps, s, p)
    ensures forall i :: 0 <= i < |ps| ==> AtPrice(ps[i], s, p)
  {
    hide ToHive, ToHbd, DrawnOnce;
    forall i | 0 <= i < |ps| ensures AtPrice(ps[i], s, p) {
      ToHiveExact(At(s.funds, Converting(ps[i].key)), p);
    }
  }

  lemma DrawnAtPrice(s: State, t: State, ps: seq<Payment>, p: Price, now: nat)
    requires IsPrice(p) && RegularDrawn(s, t, ps, p, now)
    ensures forall i :: 0 <= i < |ps| ==> AtPrice(ps[i], s, p)
  {
    hide RegularFrom, Keys, AtPrice;
    AllAtPrice(ps, s, p);
  }

  /** Of the collateral the owner gets back what the created HBD is not worth, counted with the fee. */
  ghost predicate AboveFee(pay: Payment, s: State, p: Price)
    requires IsPrice(p)
  {
    && pay.key in s.collaterals
    && pay.drawn == At(s.funds, Holder(CollateralFunds(pay.key.owner, pay.key.id), Hive))
    && var burned, hbd := pay.drawn - pay.amount, s.collaterals[pay.key].converted;
    burned * 20 * p.base <= hbd * 21 * p.quote < (burned + 1) * 20 * p.base
  }

  lemma AllAboveFee(ps: seq<Payment>, s: State, p: Price)
    requires IsPrice(p) && SecuredFrom(ps, s, p)
    ensures forall i :: 0 <= i < |ps| ==> AboveFee(ps[i], s, p)
  {
    hide Required, DrawnOnce;
    forall i | 0 <= i < |ps| ensures AboveFee(ps[i], s, p) {
      RequiredExact(s.collaterals[ps[i].key].converted, p);
    }
  }

  lemma DrawnAboveFee(s: State, t: State, ps: seq<Payment>, p: Price, now: nat)
    requires IsPrice(p) && SecuredDrawn(s, t, ps, p, now)
    ensures forall i :: 0 <= i < |ps| ==> AboveFee(ps[i], s, p)
  {
    hide SecuredFrom, Keys, AboveFee;
    AllAboveFee(ps, s, p);
  }

  /** The whole effect of a round of conversions. */
  ghost predicate Converted(s: State, t: State, regular: seq<Payment>, secured: seq<Payment>, median: Price,
      market: Price, now: nat)
    requires IsPrice(median) && IsPrice(market)
  {
    && RegularFrom(regular, s, median) && SecuredFrom(secured, s, market)
    && t == s.(funds := t.funds, supply := t.supply,
        conversions := s.conversions - Keys(regular), collaterals := s.collaterals - Keys(secured))
    && (forall k :: k in s.conversions ==> (k in Keys(regular) <==> s.conversions[k] <= now))
    && (forall k :: k in s.collaterals ==> (k in Keys(secured) <==> s.collaterals[k].date <= now))
    && t.supply == s.supply.(hbd := s.supply.hbd - GivenUp(regular),
        hive := s.supply.hive + Owed(regular + secured) - GivenUp(secured))
    && (forall a :: At(t.funds, Liq(a, Hive)) == At(s.funds, Liq(a, Hive)) + OwedTo(regular + secured, a))
    && (forall h: Holder :: !(h.place.Liquid? && h.token == Hive) ==>
         At(t.funds, h) == if DrawnFrom(h, regular, secured) then 0 else At(s.funds, h))
  }

  /** The holder of a request that came due. */
  ghost predicate DrawnFrom(h: Holder, regular: seq<Payment>, secured: seq<Payment>)
  {
    || (exists k :: k in Keys(regular) && h == Holder(ConversionFunds(k.owner, k.id), Hbd))
    || (exists k :: k in Keys(secured) && h == Holder(CollateralFunds(k.owner, k.id), Hive))
  }

  lemma DrawnOnly(s: State, m: State, n: State, regular: seq<Payment>, secured: seq<Payment>, median: Price,
      market: Price, now: nat, h: Holder)
    requires
      && IsPrice(median) && IsPrice(market) && RegularDrawn(s, m, regular, median, now)
      && SecuredDrawn(m, n, secured, market, now)
    ensures At(n.funds, h) == if DrawnFrom(h, regular, secured) then 0 else At(s.funds, h)
  {
    hide RegularFrom, SecuredFrom, Keys;
  }

  /** What is drawn in the second pass was not touched by the first. */
  lemma SecuredStill(s: State, m: State, regular: seq<Payment>, secured: seq<Payment>, median: Price, market: Price,
      now: nat)
    requires
      && IsPrice(median) && IsPrice(market) && RegularDrawn(s, m, regular, median, now)
      && SecuredFrom(secured, m, market)
    ensures SecuredFrom(secured, s, market)
  {
    hide RegularFrom, DrawnOnce, Keys, Required;
    forall i | 0 <= i < |secured| ensures At(m.funds, Pledged(secured[i].key)) == At(s.funds, Pledged(secured[i].key)) {
    }
  }

  lemma LiquidStill(s: State, m: State, n: State, regular: seq<Payment>, secured: seq<Payment>, median: Price,
      market: Price, now: nat, a: Name)
    requires
      && IsPrice(median) && IsPrice(market) && RegularDrawn(s, m, regular, median, now)
      && SecuredDrawn(m, n, secured, market, now)
    ensures At(n.funds, Liq(a, Hive)) == At(s.funds, Liq(a, Hive))
  {
    hide RegularFrom, SecuredFrom, Keys;
  }

  lemma ConvertedWhole(s: State, m: State, n: State, t: State, regular: seq<Payment>, secured: seq<Payment>,
      median: Price, market: Price, now: nat)
    requires IsPrice(median) && IsPrice(market)
    requires RegularDrawn(s, m, regular, median, now) && (forall k :: k in m.conversions ==> m.conversions[k] > now)
    requires
      && SecuredDrawn(m, n, secured, market, now) && (forall k :: k in n.collaterals ==> n.collaterals[k].date > now)
    requires t == n.(funds := t.funds, supply := t.supply) && PaidTo(n.funds, t.funds, regular + secured)
    requires t.supply == s.supply.(hbd := s.supply.hbd - GivenUp(regular),
        hive := s.supply.hive + Owed(regular + secured) - GivenUp(secured))
    ensures Converted(s, t, regular, secured, median, market, now)
  {
    hide RegularFrom, SecuredFrom, OwedTo, Owed, GivenUp;
    SecuredStill(s, m, regular, secured, median, market, now);
    forall a ensures At(n.funds, Liq(a, Hive)) == At(s.funds, Liq(a, Hive)) {
      LiquidStill(s, m, n, regular, secured, median, market, now, a);
    }
    forall h: Holder ensures At(n.funds, h) == if DrawnFrom(h, regular, secured) then 0 else At(s.funds, h) {
      DrawnOnly(s, m, n, regular, secured, median, market, now, h);
    }
    hide DrawnFrom;
    DrawnDue(s, m, regular, median, now);
    PledgedDue(m, n, secured, market, now);
  }

  lemma ConvertedAbove(s: State, t: State, regular: seq<Payment>, secured: seq<Payment>, median: Price, market: Price,
      now: nat)
    requires IsPrice(median) && IsPrice(market) && Converted(s, t, regular, secured, median, market, now)
    ensures forall i :: 0 <= i < |secured| ==> AboveFee(secured[i], s, market)
  {
    hide RegularFrom, SecuredFrom, OwedTo, Owed, GivenUp, AboveFee, DrawnFrom, Keys;
    AllAboveFee(secured, s, market);
  }

  lemma DrawnDue(s: State, m: State, ps: seq<Payment>, p: Price, now: nat)
    requires IsPrice(p) && RegularDrawn(s, m, ps, p, now) && (forall k :: k in m.conversions ==> m.conversions[k] > now)
    ensures forall k :: k in s.conversions ==> (k in Keys(ps) <==> s.conversions[k] <= now)
  {
    forall k | k in s.conversions ensures k in Keys(ps) <==> s.conversions[k] <= now {
      assert k !in Keys(ps) ==> k in m.conversions;
    }
  }

  lemma PledgedDue(s: State, m: State, ps: seq<Payment>, p: Price, now: nat)
    requires
      && IsPrice(p) && SecuredDrawn(s, m, ps, p, now)
      && (forall k :: k in m.collaterals ==> m.collaterals[k].date > now)
    ensures forall k :: k in s.collaterals ==> (k in Keys(ps) <==> s.collaterals[k].date <= now)
  {
    forall k | k in s.collaterals ensures k in Keys(ps) <==> s.collaterals[k].date <= now {
      assert k !in Keys(ps) ==> k in m.collaterals;
    }
  }

  /** Everyone paid is someone the ledger knows. */
  lemma OwnersKnown(s: State, m: State, n: State, regular: seq<Payment>, secured: seq<Payment>, median: Price,
      market: Price, now: nat)
    requires IsPrice(median) && IsPrice(market) && Sound(s)
    requires RegularDrawn(s, m, regular, median, now) && SecuredDrawn(m, n, secured, market, now)
    ensures forall i :: 0 <= i < |regular + secured| ==> (regular + secured)[i].key.owner in s.accounts
  {
    hide Conserved, Backed, FeesPaid, Counts, Book, Keys, ToHive, Required;
  }

  lemma DrawnFrame(s: State, m: State, n: State, regular: seq<Payment>, secured: seq<Payment>, median: Price,
      market: Price, now: nat)
    requires IsPrice(median) && IsPrice(market)
    requires RegularDrawn(s, m, regular, median, now) && SecuredDrawn(m, n, secured, market, now)
    ensures n.accounts == s.accounts && n.supply == s.supply
  {
  }
}
