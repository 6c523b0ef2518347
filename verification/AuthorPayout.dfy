/** Paying a reward partly in HBD: HIVE is burned to mint HBD, and only as much
    HIVE is burned as the minted HBD represents. */
module AuthorPayout {
  import opened Common
  import opened Arithmetic

  /** `base` HBD for `quote` HIVE. */
  datatype Price = Price(base: nat, quote: nat)

  predicate IsPrice(p: Price)
  {
    p.base > 0 && p.quote > 0
  }

  datatype Payout = Payout(hbd: nat, hive: nat, burned: nat)

  const HUNDRED_PERCENT: nat := 10000

  /** HBD for an amount of HIVE, truncated. */
  function ToHbd(hive: nat, p: Price): nat
    requires IsPrice(p)
  {
    MulDiv(hive, p.base, p.quote)
  }

  /** The most HBD that the HIVE is worth. */
  lemma ToHbdExact(hive: nat, p: Price)
    requires IsPrice(p)
    ensures var hbd := ToHbd(hive, p); hbd * p.quote <= hive * p.base < hbd * p.quote + p.quote
  {
    MulDivBounds(hive, p.base, p.quote);
  }

  /** HIVE that the HBD minted for `offered` represents, rounded up. */
  function RoundedUp(offered: nat, p: Price): nat
    requires IsPrice(p)
  {
    Quotient(ToHbd(offered, p) * p.quote + p.base - 1, p.base)
  }

  lemma RoundedUpBounds(offered: nat, p: Price)
    requires IsPrice(p)
    ensures var worth, r := ToHbd(offered, p) * p.quote, RoundedUp(offered, p);
      worth <= r * p.base < worth + p.base
  {
    QuotientBounds(ToHbd(offered, p) * p.quote + p.base - 1, p.base);
  }

  /** Nothing is ever burned beyond what was offered, so the cap in the code never applies. */
  lemma NeverAboveOffer(offered: nat, p: Price)
    requires IsPrice(p)
    ensures RoundedUp(offered, p) <= offered
  {
    MulDivBounds(offered, p.base, p.quote);
    RoundedUpBounds(offered, p);
    if offered < RoundedUp(offered, p) { MulStrict(offered, RoundedUp(offered, p), p.base); }
  }

  /** Burning the rounded-up amount mints exactly what burning everything would have. */
  lemma MintsTheSame(offered: nat, p: Price)
    requires IsPrice(p)
    ensures ToHbd(RoundedUp(offered, p), p) == ToHbd(offered, p)
  {
    NeverAboveOffer(offered, p);
    MulDivMonotone(RoundedUp(offered, p), offered, p.base, p.quote);
    RoundedUpBounds(offered, p);
    QuotientAtLeast(RoundedUp(offered, p) * p.base, p.quote, ToHbd(offered, p));
  }

  /** No smaller burn would. */
  lemma NoSmallerBurn(offered: nat, p: Price, burn: nat)
    requires IsPrice(p) && burn < RoundedUp(offered, p)
    ensures ToHbd(burn, p) < ToHbd(offered, p)
  {
    RoundedUpBounds(offered, p);
    MulStrict(burn, RoundedUp(offered, p), p.base);
    QuotientBelow(burn * p.base, p.quote, ToHbd(offered, p));
  }

  /** Splits a HIVE reward: the print rate decides how much is offered for HBD, the rest and
      whatever the conversion leaves over is paid as HIVE. Without a price all is HIVE. */
  method AwardHbd(reward: nat, printRate: nat, price: Option<Price>) returns (paid: Payout)
    requires printRate <= HUNDRED_PERCENT && (price.Some? ==> IsPrice(price.value))
    ensures paid.hive + paid.burned == reward
    ensures price.None? || reward == 0 ==> paid.hbd == paid.burned == 0
    ensures price.Some? ==>
      var offered := MulDiv(printRate, reward, HUNDRED_PERCENT);
      && paid.hbd == ToHbd(offered, price.value) == ToHbd(paid.burned, price.value)
      && paid.hbd * price.value.quote <= paid.burned * price.value.base
           < paid.hbd * price.value.quote + price.value.base
      && (forall burn: nat :: burn < paid.burned ==> ToHbd(burn, price.value) < paid.hbd)
  {
    if reward == 0 {
      if price.Some? { NothingFromNothing(printRate, price.value); }
      return Payout(0, 0, 0);
    }
    if price.None? {
      return Payout(0, reward, 0);
    }
    var p := price.value;
    var offered := MulDiv(printRate, reward, HUNDRED_PERCENT);
    OfferWithinReward(reward, printRate);
    var balance := reward - offered;
    var minted := ToHbd(offered, p);
    var converted := Quotient(minted * p.quote + p.base - 1, p.base);
    NeverAboveOffer(offered, p);
    MintsTheSame(offered, p);
    RoundedUpBounds(offered, p);
    forall burn: nat | burn < converted ensures ToHbd(burn, p) < minted { NoSmallerBurn(offered, p, burn); }
    if converted > offered {
      converted := offered;
    }
    balance := balance + (offered - converted);
    return Payout(ToHbd(converted, p), balance, converted);
  }

  lemma OfferWithinReward(reward: nat, printRate: nat)
    requires printRate <= HUNDRED_PERCENT
    ensures MulDiv(printRate, reward, HUNDRED_PERCENT) <= reward
  {
    assert printRate * reward == reward * printRate;
    MulDivAtMost(reward, printRate, HUNDRED_PERCENT);
  }

  lemma NothingFromNothing(printRate: nat, p: Price)
    requires IsPrice(p)
    ensures MulDiv(printRate, 0, HUNDRED_PERCENT) == 0 && ToHbd(0, p) == 0
  {
    assert printRate * 0 == 0 && 0 * p.base == 0;
    QuotientExact(0, p.quote);
  }
}
