/** Paying one part of a power-down along its routes. */
module Withdrawals {
  import opened Common
  import opened Sums
  import opened Arithmetic
  import opened Parts
  import opened SharePrice
  import opened StakeState

  ghost function PercentOf(rs: Routes): Name -> int
  {
    to => if to in rs then rs[to].percent else 0
  }

  ghost function Percent(rs: Routes): int
  {
    Sum(rs.Keys, PercentOf(rs))
  }

  lemma PercentSet(rs: Routes, to: Name, r: Route)
    ensures Percent(rs[to := r]) == Percent(rs) + r.percent - if to in rs then rs[to].percent else 0
  {
    var after := rs[to := r];
    if to in rs {
      assert after.Keys == rs.Keys;
      SumChangeOne(rs.Keys, PercentOf(rs), PercentOf(after), to);
    } else {
      assert after.Keys == rs.Keys + {to};
      SumInsert(rs.Keys, PercentOf(after), to);
      SumCongruent(rs.Keys, PercentOf(rs), PercentOf(after));
    }
  }

  lemma PercentRemoved(rs: Routes, to: Name)
    requires to in rs
    ensures Percent(rs - {to}) == Percent(rs) - rs[to].percent
  {
    var after := rs - {to};
    assert after.Keys == rs.Keys - {to};
    SumRemove(rs.Keys, PercentOf(rs), to);
    SumCongruent(after.Keys, PercentOf(rs), PercentOf(after));
  }

  /** What one route gets of `shares`, truncated. */
  function Deposit(rs: Routes, shares: nat, to: Name): nat
  {
    if to in rs then MulDiv(shares, rs[to].percent, FULL_PERCENT) else 0
  }

  /** The share of a part that a route is entitled to, truncated. */
  ghost predicate RouteShare(n: int, part: nat, percent: nat)
  {
    n * FULL_PERCENT <= part * percent < (n + 1) * FULL_PERCENT
  }

  lemma DepositExact(rs: Routes, part: nat, to: Name)
    requires to in rs
    ensures RouteShare(Deposit(rs, part, to), part, rs[to].percent)
  {
    MulDivBounds(part, rs[to].percent, FULL_PERCENT);
  }

  ghost function DepositOf(rs: Routes, shares: nat): Name -> int
  {
    to => Deposit(rs, shares, to)
  }

  function Deposits(rs: Routes, shares: nat, targets: seq<Name>): nat
  {
    if targets == [] then 0 else
      Deposits(rs, shares, targets[..|targets| - 1]) + Deposit(rs, shares, targets[|targets| - 1])
  }

  ghost predicate Distinct(ts: seq<Name>)
  {
    forall i, j :: 0 <= i < j < |ts| ==> ts[i] != ts[j]
  }

  ghost function Set(ts: seq<Name>): set<Name>
  {
    set t | t in ts
  }

  lemma {:induction false} DepositsAre(rs: Routes, shares: nat, ts: seq<Name>)
    requires Distinct(ts)
    ensures Deposits(rs, shares, ts) == Sum(Set(ts), DepositOf(rs, shares))
  {
    if ts == [] {
      assert Set(ts) == {};
    } else {
      var init, last := ts[..|ts| - 1], ts[|ts| - 1];
      DepositsAre(rs, shares, init);
      assert ts == init + [last];
      assert Set(ts) == Set(init) + {last} && last !in init;
      SumInsert(Set(init), DepositOf(rs, shares), last);
    }
  }

  /** Routes that add up to at most the whole take at most the whole. */
  lemma DepositsWithin(rs: Routes, shares: nat, vested: seq<Name>, paid: seq<Name>)
    requires Percent(rs) <= FULL_PERCENT && Distinct(vested) && Distinct(paid)
    requires Set(vested) !! Set(paid) && Set(vested) + Set(paid) == rs.Keys
    ensures Deposits(rs, shares, vested) + Deposits(rs, shares, paid) <= shares
  {
    DepositsAre(rs, shares, vested);
    DepositsAre(rs, shares, paid);
    SumDisjoint(Set(vested), Set(paid), DepositOf(rs, shares));
    PartsWithin(rs.Keys, PercentOf(rs), DepositOf(rs, shares), shares, FULL_PERCENT);
    MulDivAtMost(shares, Percent(rs), FULL_PERCENT);
  }

  lemma SplitWithin(rs: Routes, shares: nat, vested: seq<Name>, paid: seq<Name>)
    requires Percent(rs) <= FULL_PERCENT && Split(rs, vested, paid)
    ensures Deposits(rs, shares, vested) + Deposits(rs, shares, paid) <= shares
    ensures forall to :: to in vested || to in paid ==> to in rs
  {
    KindsCover(rs, vested, paid);
    DepositsWithin(rs, shares, vested, paid);
  }

  /** Routes that add up to the whole leave less than one share for each of them. */
  lemma RestSmall(rs: Routes, shares: nat, vested: seq<Name>, paid: seq<Name>)
    requires Percent(rs) == FULL_PERCENT && Split(rs, vested, paid)
    ensures shares < Deposits(rs, shares, vested) + Deposits(rs, shares, paid) + |rs|
  {
    KindsCover(rs, vested, paid);
    DepositsAre(rs, shares, vested);
    DepositsAre(rs, shares, paid);
    hide Split, Deposits, Set;
    SumDisjoint(Set(vested), Set(paid), DepositOf(rs, shares));
    hide Sum;
    WholeMissed(rs.Keys, PercentOf(rs), DepositOf(rs, shares), shares, FULL_PERCENT);
    assert |rs.Keys| == |rs|;
  }

  lemma {:induction false} DepositsPrefix(rs: Routes, shares: nat, ts: seq<Name>, i: nat)
    requires i < |ts|
    ensures Deposits(rs, shares, ts[..i]) + Deposit(rs, shares, ts[i]) <= Deposits(rs, shares, ts)
    decreases |ts|
  {
    if i == |ts| - 1 {
    } else {
      assert ts[..|ts| - 1][..i] == ts[..i];
      DepositsPrefix(rs, shares, ts[..|ts| - 1], i);
    }
  }

  // ---- Routes that vest ----

  function Plus(hs: Holdings, a: Name, n: nat): Holdings
  {
    if a in hs then hs[a := hs[a].(vesting := hs[a].vesting + n)] else hs
  }

  function Minus(hs: Holdings, a: Name, n: nat): Holdings
  {
    if a in hs && n <= hs[a].vesting then hs[a := hs[a].(vesting := hs[a].vesting - n)] else hs
  }

  /** Shares moved into the vesting of each target in turn. */
  function Vested(hs: Holdings, rs: Routes, shares: nat, targets: seq<Name>): Holdings
  {
    if targets == [] then hs else
      var to := targets[|targets| - 1];
      Plus(Vested(hs, rs, shares, targets[..|targets| - 1]), to, Deposit(rs, shares, to))
  }

  ghost function VestingOf(hs: Holdings): Name -> int
  {
    a => if a in hs then hs[a].vesting else 0
  }

  ghost function VestedTotal(hs: Holdings): int
  {
    Sum(hs.Keys, VestingOf(hs))
  }

  lemma HoldingSet(hs: Holdings, a: Name, h: Holding)
    requires a in hs
    ensures VestedTotal(hs[a := h]) == VestedTotal(hs) + h.vesting - hs[a].vesting
  {
    assert hs[a := h].Keys == hs.Keys;
    SumChangeOne(hs.Keys, VestingOf(hs), VestingOf(hs[a := h]), a);
  }

  /** Only vesting grows. */
  lemma {:induction false} VestedGrows(hs: Holdings, rs: Routes, shares: nat, ts: seq<Name>)
    ensures var after := Vested(hs, rs, shares, ts);
      && after.Keys == hs.Keys
      && (forall a :: a in hs ==> after[a].vesting >= hs[a].vesting && after[a] == hs[a].(vesting := after[a].vesting))
  {
    hide Deposit;
    if ts == [] {
    } else {
      VestedGrows(hs, rs, shares, ts[..|ts| - 1]);
    }
  }

  /** In all, by exactly the deposits. */
  lemma {:induction false} VestedAdds(hs: Holdings, rs: Routes, shares: nat, ts: seq<Name>)
    requires forall t :: t in ts ==> t in hs
    ensures VestedTotal(Vested(hs, rs, shares, ts)) == VestedTotal(hs) + Deposits(rs, shares, ts)
  {
    hide Deposit, VestedTotal;
    if ts == [] {
    } else {
      var init, to := ts[..|ts| - 1], ts[|ts| - 1];
      VestedAdds(hs, rs, shares, init);
      VestedGrows(hs, rs, shares, init);
      var before := Vested(hs, rs, shares, init);
      HoldingSet(before, to, before[to].(vesting := before[to].vesting + Deposit(rs, shares, to)));
    }
  }

  /** Every target gets its deposit once, and nobody else gets anything. */
  lemma {:induction false} VestedEach(hs: Holdings, rs: Routes, shares: nat, ts: seq<Name>)
    requires Distinct(ts)
    ensures var after := Vested(hs, rs, shares, ts);
      after.Keys == hs.Keys
      && forall a :: a in hs ==> after[a].vesting == hs[a].vesting + if a in ts then Deposit(rs, shares, a) else 0
  {
    hide Deposit;
    if ts != [] {
      var init, last := ts[..|ts| - 1], ts[|ts| - 1];
      VestedEach(hs, rs, shares, init);
      assert ts == init + [last] && last !in init;
    }
  }

  // ---- Routes that pay out ----

  /** Shares outstanding, the fund behind them, and the liquid balances. */
  datatype Purse = Purse(total: int, fund: nat, liquid: map<Name, nat>)

  predicate Covered(p: Purse, shares: nat)
  {
    shares <= p.total && (p.total > 0 ==> p.fund > 0)
  }

  /** Shares redeemed at the current price, for an account. */
  function Redeemed(p: Purse, a: Name, shares: nat): Purse
    requires Covered(p, shares)
  {
    if shares == 0 || a !in p.liquid then p else
      RedeemWithin(shares, p.total, p.fund);
      var hive := Worth(shares, p.total, p.fund);
      Purse(p.total - shares, p.fund - hive, p.liquid[a := p.liquid[a] + hive])
  }

  ghost function LiquidOf(liquid: map<Name, nat>): Name -> int
  {
    a => if a in liquid then liquid[a] else 0
  }

  ghost function Coins(p: Purse): int
  {
    p.fund + Sum(p.liquid.Keys, LiquidOf(p.liquid))
  }

  lemma RedeemedKeeps(p: Purse, a: Name, shares: nat, rest: nat)
    requires Covered(p, shares + rest) && a in p.liquid
    ensures var q := Redeemed(p, a, shares);
      && Covered(q, rest) && q.total == p.total - shares && q.liquid.Keys == p.liquid.Keys && Coins(q) == Coins(p)
      && (forall b :: b in p.liquid ==> q.liquid[b] >= p.liquid[b] && (b != a ==> q.liquid[b] == p.liquid[b]))
  {
    if shares > 0 {
      RedeemWithin(shares, p.total, p.fund);
      var q := Redeemed(p, a, shares);
      hide Worth;
      assert q.liquid.Keys == p.liquid.Keys;
      SumChangeOne(p.liquid.Keys, LiquidOf(p.liquid), LiquidOf(q.liquid), a);
    }
  }

  /** What the targets get, one after the other, at the price of the moment. */
  function PaidOut(p: Purse, rs: Routes, shares: nat, targets: seq<Name>): Purse
    requires Covered(p, Deposits(rs, shares, targets))
    requires forall t :: t in targets ==> t in p.liquid
    ensures var q := PaidOut(p, rs, shares, targets);
      q.total == p.total - Deposits(rs, shares, targets) && (q.total > 0 ==> q.fund > 0)
      && q.liquid.Keys == p.liquid.Keys
  {
    if targets == [] then p else
      var to := targets[|targets| - 1];
      var q := PaidOut(p, rs, shares, targets[..|targets| - 1]);
      RedeemedKeeps(q, to, Deposit(rs, shares, to), 0);
      Redeemed(q, to, Deposit(rs, shares, to))
  }

  /** No HIVE is made or lost on the way. */
  lemma {:induction false} PaidOutKeeps(p: Purse, rs: Routes, shares: nat, ts: seq<Name>)
    requires Covered(p, Deposits(rs, shares, ts)) && forall t :: t in ts ==> t in p.liquid
    ensures Coins(PaidOut(p, rs, shares, ts)) == Coins(p)
  {
    if ts == [] {
    } else {
      var init, to := ts[..|ts| - 1], ts[|ts| - 1];
      PaidOutKeeps(p, rs, shares, init);
      RedeemedKeeps(PaidOut(p, rs, shares, init), to, Deposit(rs, shares, to), 0);
    }
  }

  function SumOf(ns: seq<nat>): nat
  {
    if ns == [] then 0 else SumOf(ns[..|ns| - 1]) + ns[|ns| - 1]
  }

  function TotalFor(names: seq<Name>, ns: seq<nat>, a: Name): nat
    requires |names| == |ns|
  {
    if ns == [] then 0 else
      TotalFor(names[..|ns| - 1], ns[..|ns| - 1], a) + if names[|ns| - 1] == a then ns[|ns| - 1] else 0
  }

  /** The most HIVE that some shares stand for, of the total that stands for the fund. */
  ghost predicate AtSharePrice(shares: nat, hive: nat, total: int, fund: int)
  {
    if shares == 0 then hive == 0 else hive * total <= shares * fund < (hive + 1) * total
  }

  /** Parcels redeemed one after another, each at the price that the earlier ones have left. */
  ghost predicate Priced(parcels: seq<nat>, gains: seq<nat>, total: int, fund: int)
    requires |parcels| == |gains|
  {
    forall i :: 0 <= i < |gains| ==> PricedAt(parcels, gains, total, fund, i)
  }

  ghost predicate PricedAt(parcels: seq<nat>, gains: seq<nat>, total: int, fund: int, i: nat)
    requires i < |parcels| == |gains|
  {
    AtSharePrice(parcels[i], gains[i], total - SumOf(parcels[..i]), fund - SumOf(gains[..i]))
  }

  /** Every account has got the HIVE of its parcels, and nothing else has changed. */
  ghost predicate PaidEach(p: Purse, q: Purse, names: seq<Name>, parcels: seq<nat>, gains: seq<nat>)
  {
    && |names| == |parcels| == |gains|
    && q.total == p.total - SumOf(parcels) && q.fund == p.fund - SumOf(gains) && q.liquid.Keys == p.liquid.Keys
    && Priced(parcels, gains, p.total, p.fund)
    && (forall a :: a in p.liquid ==> q.liquid[a] == p.liquid[a] + TotalFor(names, gains, a))
  }

  lemma SumOfMore(ns: seq<nat>, n: nat)
    ensures SumOf(ns + [n]) == SumOf(ns) + n
  {
    assert (ns + [n])[..|ns|] == ns;
  }

  lemma TotalForMore(names: seq<Name>, ns: seq<nat>, b: Name, n: nat, a: Name)
    requires |names| == |ns|
    ensures TotalFor(names + [b], ns + [n], a) == TotalFor(names, ns, a) + if a == b then n else 0
  {
    assert (names + [b])[..|ns|] == names && (ns + [n])[..|ns|] == ns;
  }

  lemma RedeemedExact(p: Purse, a: Name, shares: nat) returns (hive: nat)
    requires Covered(p, shares) && a in p.liquid
    ensures AtSharePrice(shares, hive, p.total, p.fund)
    ensures hive <= p.fund
    ensures Redeemed(p, a, shares) == Purse(p.total - shares, p.fund - hive, p.liquid[a := p.liquid[a] + hive])
  {
    if shares == 0 {
      hive := 0;
      assert p.liquid[a := p.liquid[a]] == p.liquid;
    } else {
      RedeemWithin(shares, p.total, p.fund);
      WorthExact(shares, p.total, p.fund);
      hide MulDiv;
      hive := Worth(shares, p.total, p.fund);
      assert (hive + 1) * p.total == hive * p.total + p.total;
    }
  }

  lemma PricedSame(parcels: seq<nat>, gains: seq<nat>, total: int, fund: int, shares: nat, hive: nat, i: nat)
    requires i < |parcels| == |gains| && PricedAt(parcels, gains, total, fund, i)
    ensures PricedAt(parcels + [shares], gains + [hive], total, fund, i)
  {
    hide AtSharePrice, SumOf;
    assert (parcels + [shares])[..i] == parcels[..i] && (gains + [hive])[..i] == gains[..i];
  }

  lemma PricedLast(parcels: seq<nat>, gains: seq<nat>, total: int, fund: int, shares: nat, hive: nat)
    requires |parcels| == |gains| && AtSharePrice(shares, hive, total - SumOf(parcels), fund - SumOf(gains))
    ensures PricedAt(parcels + [shares], gains + [hive], total, fund, |gains|)
  {
    hide AtSharePrice, SumOf;
    assert (parcels + [shares])[..|gains|] == parcels && (gains + [hive])[..|gains|] == gains;
  }

  lemma PricedMore(parcels: seq<nat>, gains: seq<nat>, total: int, fund: int, shares: nat, hive: nat)
    requires |parcels| == |gains| && Priced(parcels, gains, total, fund)
    requires AtSharePrice(shares, hive, total - SumOf(parcels), fund - SumOf(gains))
    ensures Priced(parcels + [shares], gains + [hive], total, fund)
  {
    hide AtSharePrice, SumOf, PricedAt;
    PricedLast(parcels, gains, total, fund, shares, hive);
    forall i | 0 <= i < |gains| ensures PricedAt(parcels + [shares], gains + [hive], total, fund, i) {
      PricedSame(parcels, gains, total, fund, shares, hive, i);
    }
  }

  lemma PaidEachStep(p: Purse, q: Purse, names: seq<Name>, parcels: seq<nat>, gains: seq<nat>, a: Name,
      shares: nat) returns (hive: nat)
    requires PaidEach(p, q, names, parcels, gains) && Covered(q, shares) && a in q.liquid
    ensures PaidEach(p, Redeemed(q, a, shares), names + [a], parcels + [shares], gains + [hive])
  {
    hide Redeemed, AtSharePrice, SumOf, TotalFor, Priced;
    hive := RedeemedExact(q, a, shares);
    PricedMore(parcels, gains, p.total, p.fund, shares, hive);
    SumOfMore(parcels, shares);
    SumOfMore(gains, hive);
    forall b
      ensures TotalFor(names + [a], gains + [hive], b) == TotalFor(names, gains, b) + if b == a then hive else 0
    {
      TotalForMore(names, gains, a, hive, b);
    }
  }

  function Parcels(rs: Routes, shares: nat, ts: seq<Name>): seq<nat>
  {
    seq(|ts|, i requires 0 <= i < |ts| => Deposit(rs, shares, ts[i]))
  }

  lemma {:induction false} ParcelsSum(rs: Routes, shares: nat, ts: seq<Name>)
    ensures SumOf(Parcels(rs, shares, ts)) == Deposits(rs, shares, ts)
  {
    hide Deposit;
    if ts != [] {
      ParcelsSum(rs, shares, ts[..|ts| - 1]);
      ParcelsLast(rs, shares, ts);
      SumOfMore(Parcels(rs, shares, ts[..|ts| - 1]), Deposit(rs, shares, ts[|ts| - 1]));
    }
  }

  lemma ParcelsLast(rs: Routes, shares: nat, ts: seq<Name>)
    requires ts != []
    ensures Parcels(rs, shares, ts) == Parcels(rs, shares, ts[..|ts| - 1]) + [Deposit(rs, shares, ts[|ts| - 1])]
  {
    hide Deposit;
  }

  lemma NonePaid(p: Purse)
    ensures PaidEach(p, p, [], [], [])
  {
  }

  lemma {:induction false} PaidOutEach(p: Purse, rs: Routes, shares: nat, ts: seq<Name>) returns (gains: seq<nat>)
    requires Covered(p, Deposits(rs, shares, ts)) && forall t :: t in ts ==> t in p.liquid
    ensures PaidEach(p, PaidOut(p, rs, shares, ts), ts, Parcels(rs, shares, ts), gains)
  {
    hide PaidEach, Deposit, Parcels, Redeemed;
    if ts == [] {
      gains := [];
      NonePaid(p);
      assert Parcels(rs, shares, ts) == [] by { NoParcels(rs, shares); }
    } else {
      var init, to := ts[..|ts| - 1], ts[|ts| - 1];
      var g := PaidOutEach(p, rs, shares, init);
      var q := PaidOut(p, rs, shares, init);
      ParcelsLast(rs, shares, ts);
      assert ts == init + [to];
      var hive := PaidEachStep(p, q, init, Parcels(rs, shares, init), g, to, Deposit(rs, shares, to));
      gains := g + [hive];
    }
  }

  lemma NoParcels(rs: Routes, shares: nat)
    ensures Parcels(rs, shares, []) == []
  {
  }

  // ---- Going through the routes in order ----

  ghost predicate Ascending(ts: seq<Name>)
  {
    forall i, j :: 0 <= i < j < |ts| ==> ts[i] < ts[j]
  }

  /** The targets of one kind of route, in the order of the index. */
  method TargetsOf(rs: Routes, autoVest: bool) returns (ts: seq<Name>)
    ensures Ascending(ts)
    ensures forall to :: to in ts <==> to in rs && rs[to].autoVest == autoVest
  {
    ts := [];
    var todo := set to | to in rs && rs[to].autoVest == autoVest;
    while exists to :: to in todo
      invariant Ascending(ts)
      invariant forall to :: to in rs && rs[to].autoVest == autoVest <==> to in ts || to in todo
      invariant forall to, i :: to in todo && 0 <= i < |ts| ==> ts[i] < to
      decreases todo
    {
      var to := Lowest(todo);
      ts, todo := ts + [to], todo - {to};
    }
  }

  method Lowest(names: set<Name>) returns (low: Name)
    requires exists n :: n in names
    ensures low in names && forall n :: n in names ==> low <= n
  {
    low :| low in names;
    var todo := names - {low};
    while exists n :: n in todo
      invariant low in names && todo <= names
      invariant forall n :: n in names && n !in todo ==> low <= n
      decreases todo
    {
      var n :| n in todo;
      if n < low { low := n; }
      todo := todo - {n};
    }
  }

  /** The sum of the percentages, added up in 16 bits. */
  method AddPercents(rs: Routes) returns (total: nat)
    requires Percent(rs) < 65536
    ensures total == Percent(rs)
  {
    total := 0;
    var todo := rs.Keys;
    assert rs.Keys - todo == {};
    while exists to :: to in todo
      invariant todo <= rs.Keys && total == Sum(rs.Keys - todo, PercentOf(rs))
      decreases todo
    {
      var to :| to in todo;
      var next := todo - {to};
      assert rs.Keys - next == (rs.Keys - todo) + {to};
      SumInsert(rs.Keys - todo, PercentOf(rs), to);
      forall k | k in rs.Keys ensures 0 <= PercentOf(rs)(k) { }
      SumSubset(rs.Keys - next, rs.Keys, PercentOf(rs));
      total := (total + rs[to].percent) % 65536;
      todo := next;
    }
    assert rs.Keys - todo == rs.Keys;
  }

  /** The targets of both kinds of route, in order. */
  ghost predicate Split(rs: Routes, vested: seq<Name>, paid: seq<Name>)
  {
    && Ascending(vested) && (forall to :: to in vested <==> to in rs && rs[to].autoVest)
    && Ascending(paid) && (forall to :: to in paid <==> to in rs && !rs[to].autoVest)
  }

  /** The two kinds of route share out all routes. */
  lemma KindsCover(rs: Routes, vested: seq<Name>, paid: seq<Name>)
    requires Split(rs, vested, paid)
    ensures Distinct(vested) && Distinct(paid) && Set(vested) !! Set(paid) && Set(vested) + Set(paid) == rs.Keys
  {
    forall to ensures to in Set(vested) <==> to in rs && rs[to].autoVest { }
    forall to ensures to in Set(paid) <==> to in rs && !rs[to].autoVest { }
  }
}
