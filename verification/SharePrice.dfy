/** The price of vesting shares in HIVE. */
module SharePrice {
  import opened Arithmetic

  /** Shares for an amount of HIVE; a thousand to one while nothing is vested. */
  function Shares(hive: nat, vests: int, fund: nat): nat
  {
    if fund == 0 || vests <= 0 then MulDiv(hive, 1000000, 1000) else MulDiv(hive, vests, fund)
  }

  /** HIVE for a number of shares. */
  function Worth(shares: nat, vests: int, fund: nat): nat
  {
    if fund == 0 || vests <= 0 then MulDiv(shares, 1000, 1000000) else MulDiv(shares, fund, vests)
  }

  /** The most shares that the HIVE pays for at the price. */
  lemma SharesExact(hive: nat, vests: int, fund: nat)
    ensures var n := Shares(hive, vests, fund);
      if fund > 0 && vests > 0 then n * fund <= hive * vests < n * fund + fund else n == hive * 1000
  {
    if fund > 0 && vests > 0 {
      MulDivBounds(hive, vests, fund);
    } else {
      MulDivBounds(hive, 1000000, 1000);
    }
  }

  /** The most HIVE that the shares stand for at the price. */
  lemma WorthExact(shares: nat, vests: int, fund: nat)
    ensures var n := Worth(shares, vests, fund);
      if fund > 0 && vests > 0 then n * vests <= shares * fund < n * vests + vests
      else n * 1000 <= shares < n * 1000 + 1000
  {
    if fund > 0 && vests > 0 {
      MulDivBounds(shares, fund, vests);
    } else {
      MulDivBounds(shares, 1000, 1000000);
    }
  }

  lemma IssueKeepsValue(hive: nat, vests: int, fund: nat)
    requires vests > 0 && fund > 0
    ensures (fund + hive) * vests >= fund * (vests + Shares(hive, vests, fund))
  {
    var shares := Shares(hive, vests, fund);
    MulDivBounds(hive, vests, fund);
    assert (fund + hive) * vests == fund * vests + hive * vests
      && fund * (vests + shares) == fund * vests + shares * fund;
  }

  lemma RedeemKeepsValue(shares: nat, vests: int, fund: nat)
    requires vests > 0 && fund > 0
    ensures (fund - Worth(shares, vests, fund)) * vests >= fund * (vests - shares)
  {
    var hive := Worth(shares, vests, fund);
    MulDivBounds(shares, fund, vests);
    assert (fund - hive) * vests == fund * vests - hive * vests
      && fund * (vests - shares) == fund * vests - shares * fund;
  }

  /** Redeeming some of the shares leaves something in the fund; redeeming all empties it. */
  lemma RedeemWithin(shares: nat, vests: int, fund: nat)
    requires vests > 0 && fund > 0 && shares <= vests
    ensures Worth(shares, vests, fund) <= fund
    ensures Worth(shares, vests, fund) == fund <==> shares == vests
  {
    MulDivShare(shares, fund, vests);
    if shares == vests {
      assert shares * fund == fund * vests;
      QuotientExact(fund, vests);
    } else {
      MulStrict(shares, vests, fund);
      assert fund * vests == vests * fund;
      QuotientBelow(shares * fund, vests, fund);
    }
  }
}
