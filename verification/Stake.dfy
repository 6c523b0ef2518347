/** Delegation, power-down and withdrawal routes. */
module Stake {
  import opened Common
  import opened Sums
  import opened Arithmetic
  import opened SharePrice
  import opened StakeState
  import opened Withdrawals

  // ---- What every state keeps ----

  /** An account's delegated shares are those it lends plus those still on their way back; its received
      shares are those lent to it. */
  ghost predicate Booked(hs: Holdings, ds: Delegations, rs: Returns)
  {
    && (forall l :: l in ds ==> l.from in hs && l.to in hs && l.from != l.to)
    && (forall i :: i in rs ==> rs[i].from in hs)
    && (forall a :: a in hs ==> hs[a].delegated == Given(ds, a) + Returning(rs, a) && hs[a].received == Taken(ds, a))
  }

  /** What is delegated and what is still to be withdrawn never exceed what is vested. */
  predicate Solvent(h: Holding)
  {
    Scheduled(h.down) && h.delegated + Outstanding(h.down) <= h.vesting
  }

  ghost predicate AllSolvent(hs: Holdings)
  {
    forall a :: a in hs ==> Solvent(hs[a])
  }

  ghost predicate Routed(routes: map<Name, Routes>, counts: map<Name, nat>, names: set<Name>)
  {
    && routes.Keys == names && counts.Keys == names
    && forall a :: a in names ==>
        routes[a].Keys <= names && Percent(routes[a]) <= FULL_PERCENT && counts[a] == |routes[a]| <= MAX_ROUTES
  }

  ghost predicate Quiet(hs: Holdings, restricted: set<Name>)
  {
    forall a :: a in hs && a in restricted ==> hs[a].down == IDLE && hs[a].delegated == 0
  }

  /** Every account is solvent, and restricted accounts neither delegate nor power down. */
  ghost predicate Sane(hs: Holdings, restricted: set<Name>)
  {
    AllSolvent(hs) && Quiet(hs, restricted)
  }

  lemma SolventAt(hs: Holdings, restricted: set<Name>, a: Name)
    requires Sane(hs, restricted) && a in hs
    ensures Solvent(hs[a])
  {
    hide Solvent;
  }

  lemma SaneSet(hs: Holdings, restricted: set<Name>, a: Name, h: Holding)
    requires Sane(hs, restricted) && a in hs && Solvent(h)
    requires a in restricted ==> h.down == hs[a].down && h.delegated == hs[a].delegated
    ensures Sane(hs[a := h], restricted)
    ensures hs[a := h].Keys == hs.Keys
  {
    hide Solvent;
  }

  /** Shares an account can still delegate. Received shares do not count, nor any that are being withdrawn;
      the part due next is already missing from the effective stake. */
  function Available(h: Holding, mana: int): int
  {
    var effective := h.vesting - h.delegated + h.received - NextPart(h.down);
    var room := if mana <= effective - h.received then mana else effective - h.received;
    room + if h.down.next.Some? && Outstanding(h.down) > h.down.rate then NextPart(h.down) - Outstanding(h.down) else 0
  }

  lemma AvailableWithin(h: Holding, mana: int)
    requires Scheduled(h.down)
    ensures Available(h, mana) <= h.vesting - h.delegated - Outstanding(h.down)
  {
  }

  /** An account can delegate exactly what is neither delegated nor on its way out, as far as its mana goes beyond
      what is on its way out later. */
  lemma AvailableExact(h: Holding, mana: int, n: int)
    requires Scheduled(h.down)
    ensures n <= Available(h, mana) <==>
      && n <= h.vesting - h.delegated - (h.down.toWithdraw - h.down.withdrawn)
      && n <= mana - (h.down.toWithdraw - h.down.withdrawn - NextPart(h.down))
  {
  }

  // ---- Bookkeeping steps ----

  function Lent(hs: Holdings, l: Link, n: nat): Holdings
    requires l.from in hs && l.to in hs && l.from != l.to
  {
    hs[l.from := hs[l.from].(delegated := hs[l.from].delegated + n)]
      [l.to := hs[l.to].(received := hs[l.to].received + n)]
  }

  lemma LentSane(hs: Holdings, restricted: set<Name>, l: Link, n: nat)
    requires Sane(hs, restricted) && l.from in hs && l.to in hs && l.from != l.to && l.from !in restricted
    requires n <= hs[l.from].vesting - hs[l.from].delegated - Outstanding(hs[l.from].down)
    ensures Sane(Lent(hs, l, n), restricted)
    ensures Lent(hs, l, n).Keys == hs.Keys
  {
    hide Sane, Scheduled;
    SolventAt(hs, restricted, l.from);
    SolventAt(hs, restricted, l.to);
    var from := hs[l.from].(delegated := hs[l.from].delegated + n);
    SaneSet(hs, restricted, l.from, from);
    SaneSet(hs[l.from := from], restricted, l.to, hs[l.to].(received := hs[l.to].received + n));
  }

  lemma UnlentSane(hs: Holdings, restricted: set<Name>, a: Name, n: nat)
    requires Sane(hs, restricted) && a in hs && n <= hs[a].received
    ensures Sane(Unlent(hs, a, n), restricted)
    ensures Unlent(hs, a, n).Keys == hs.Keys && VestedTotal(Unlent(hs, a, n)) == VestedTotal(hs)
  {
    hide Sane, Scheduled, VestedTotal;
    SolventAt(hs, restricted, a);
    var h := hs[a].(received := hs[a].received - n);
    SaneSet(hs, restricted, a, h);
    HoldingSet(hs, a, h);
  }

  lemma ReturnedSane(hs: Holdings, restricted: set<Name>, a: Name, n: nat)
    requires Sane(hs, restricted) && a in hs && n <= hs[a].delegated
    ensures Sane(Returned(hs, a, n), restricted)
    ensures Returned(hs, a, n).Keys == hs.Keys && VestedTotal(Returned(hs, a, n)) == VestedTotal(hs)
  {
    hide Scheduled, VestedTotal;
    SolventAt(hs, restricted, a);
    var h := hs[a].(delegated := hs[a].delegated - n);
    SaneSet(hs, restricted, a, h);
    HoldingSet(hs, a, h);
  }

  lemma StartedSane(hs: Holdings, restricted: set<Name>, a: Name, shares: nat, now: nat)
    requires Sane(hs, restricted) && a in hs && a !in restricted && shares <= hs[a].vesting - hs[a].delegated
    ensures var after := hs[a := hs[a].(down := Started(shares, now))];
      Sane(after, restricted) && after.Keys == hs.Keys && VestedTotal(after) == VestedTotal(hs)
  {
    hide Sane, Scheduled, VestedTotal, Started;
    StartedScheduled(shares, now);
    var h := hs[a].(down := Started(shares, now));
    SaneSet(hs, restricted, a, h);
    HoldingSet(hs, a, h);
  }

  lemma LentBooked(hs: Holdings, ds: Delegations, rs: Returns, l: Link, d: Delegation)
    requires Booked(hs, ds, rs) && l.from in hs && l.to in hs && l.from != l.to && d.shares >= SharesOf(ds, l)
    ensures Booked(Lent(hs, l, d.shares - SharesOf(ds, l)), ds[l := d], rs)
  {
    hide Given, Taken, Returning;
    var after := Lent(hs, l, d.shares - SharesOf(ds, l));
    forall a | a in after
      ensures after[a].delegated == Given(ds[l := d], a) + Returning(rs, a) && after[a].received == Taken(ds[l := d], a)
    {
      DelegationSet(ds, l, d, a);
    }
  }

  function Unlent(hs: Holdings, a: Name, n: nat): Holdings
    requires a in hs && n <= hs[a].received
  {
    hs[a := hs[a].(received := hs[a].received - n)]
  }

  /** A delegation kept at a lower value, or gone. */
  function Lowered(ds: Delegations, l: Link, shares: nat): Delegations
    requires l in ds
  {
    if shares > 0 then ds[l := ds[l].(shares := shares)] else ds - {l}
  }

  lemma LoweredSums(ds: Delegations, l: Link, shares: nat, a: Name)
    requires l in ds && shares <= ds[l].shares
    ensures Given(Lowered(ds, l, shares), a) == Given(ds, a) - if l.from == a then ds[l].shares - shares else 0
    ensures Taken(Lowered(ds, l, shares), a) == Taken(ds, a) - if l.to == a then ds[l].shares - shares else 0
  {
    hide Given, Taken;
    if shares > 0 { DelegationSet(ds, l, ds[l].(shares := shares), a); } else { DelegationRemoved(ds, l, a); }
  }

  lemma ReceivedAtLeast(hs: Holdings, ds: Delegations, rs: Returns, l: Link)
    requires Booked(hs, ds, rs) && l in ds
    ensures ds[l].shares <= hs[l.to].received
  {
    SumTermAtMost(ds.Keys, Taking(ds, l.to), l);
  }

  /** What a delegator takes back stays delegated until it has returned. */
  lemma UnlentBooked(hs: Holdings, ds: Delegations, rs: Returns, l: Link, shares: nat, i: nat, expires: nat)
    requires Booked(hs, ds, rs) && l in ds && shares < ds[l].shares && i !in rs
    ensures l.to in hs && ds[l].shares - shares <= hs[l.to].received
    ensures var n := ds[l].shares - shares;
      Booked(Unlent(hs, l.to, n), Lowered(ds, l, shares), rs[i := Expiring(l.from, n, expires)])
  {
    hide Given, Taken, Returning;
    ReceivedAtLeast(hs, ds, rs, l);
    var n := ds[l].shares - shares;
    var after, ds', rs' := Unlent(hs, l.to, n), Lowered(ds, l, shares), rs[i := Expiring(l.from, n, expires)];
    forall a | a in after
      ensures after[a].delegated == Given(ds', a) + Returning(rs', a) && after[a].received == Taken(ds', a)
    {
      LoweredSums(ds, l, shares, a);
      ReturnAdded(rs, i, Expiring(l.from, n, expires), a);
    }
  }

  function Returned(hs: Holdings, a: Name, n: nat): Holdings
    requires a in hs && n <= hs[a].delegated
  {
    hs[a := hs[a].(delegated := hs[a].delegated - n)]
  }

  lemma DelegatedAtLeast(hs: Holdings, ds: Delegations, rs: Returns, i: nat)
    requires Booked(hs, ds, rs) && i in rs
    ensures rs[i].shares <= hs[rs[i].from].delegated
  {
    var from := rs[i].from;
    SumTermAtMost(rs.Keys, Coming(rs, from), i);
    SumNonNegative(ds.Keys, Giving(ds, from));
  }

  lemma ReturnedBooked(hs: Holdings, ds: Delegations, rs: Returns, i: nat)
    requires Booked(hs, ds, rs) && i in rs
    ensures rs[i].from in hs && rs[i].shares <= hs[rs[i].from].delegated
    ensures Booked(Returned(hs, rs[i].from, rs[i].shares), ds, rs - {i})
  {
    hide Given, Taken, Returning;
    DelegatedAtLeast(hs, ds, rs, i);
    var after := Returned(hs, rs[i].from, rs[i].shares);
    forall a | a in after
      ensures after[a].delegated == Given(ds, a) + Returning(rs - {i}, a) && after[a].received == Taken(ds, a)
    {
      ReturnRemoved(rs, i, a);
    }
  }

  /** Bookkeeping looks at delegated and received shares only. */
  lemma SameBooks(hs: Holdings, after: Holdings, ds: Delegations, rs: Returns)
    requires Booked(hs, ds, rs) && after.Keys == hs.Keys
    requires forall a :: a in hs ==> after[a].delegated == hs[a].delegated && after[a].received == hs[a].received
    ensures Booked(after, ds, rs)
  {
    hide Given, Taken, Returning;
  }

  // ---- One part of a power-down ----

  /** The account after its part has been taken from it. */
  function AfterPart(h: Holding, part: nat): Holding
    requires h.down.next.Some? && NextPart(h.down) >= 0 && part <= h.vesting
  {
    h.(vesting := h.vesting - part, down := Advanced(h.down))
  }

  /** The part due next is never more than the account has. */
  lemma PartCovered(h: Holding)
    requires Solvent(h) && h.down.next.Some?
    ensures 0 < NextPart(h.down) <= h.vesting
  {
    AdvancedScheduled(h.down);
  }

  /** Holdings after a part: routed shares have arrived, and the whole part has left. */
  ghost predicate PartPaid(hs: Holdings, after: Holdings, from: Name, rs: Routes, part: nat, vested: seq<Name>)
    requires from in hs && hs[from].down.next.Some? && NextPart(hs[from].down) >= 0
  {
    var v := Vested(hs, rs, part, vested);
    from in v && part <= v[from].vesting && v[from].down == hs[from].down
    && after == v[from := AfterPart(v[from], part)]
  }

  /** The HIVE side of a part: each paying route in turn, and the account itself last, at the price of the moment. */
  ghost predicate PaidIn(p: Purse, after: Purse, from: Name, rs: Routes, part: nat, vested: seq<Name>, paid: seq<Name>)
  {
    && Covered(p, Deposits(rs, part, paid)) && (forall t :: t in paid ==> t in p.liquid)
    && var left := part - Deposits(rs, part, vested) - Deposits(rs, part, paid);
    && left >= 0 && Covered(PaidOut(p, rs, part, paid), left)
    && after == Redeemed(PaidOut(p, rs, part, paid), from, left)
  }

  /** The parcels: each route's share of the part, and to the account what vesting and paying routes leave, which is
      less than one share for each route if they add up to the whole. */
  ghost predicate PartSplit(parcels: seq<nat>, rs: Routes, part: nat, paid: seq<Name>)
  {
    && |parcels| == |paid| + 1
    && (forall i :: 0 <= i < |paid| ==>
          paid[i] in rs && !rs[paid[i]].autoVest && RouteShare(parcels[i], part, rs[paid[i]].percent))
    && (Percent(rs) == FULL_PERCENT ==> parcels[|paid|] < |rs|)
  }

  lemma PartSplits(rs: Routes, part: nat, vested: seq<Name>, paid: seq<Name>, left: nat)
    requires Split(rs, vested, paid) && left == part - Deposits(rs, part, vested) - Deposits(rs, part, paid)
    ensures PartSplit(Parcels(rs, part, paid) + [left], rs, part, paid)
  {
    hide Deposits, Deposit, RouteShare, Percent;
    if Percent(rs) == FULL_PERCENT { RestSmall(rs, part, vested, paid); }
    forall i | 0 <= i < |paid|
      ensures paid[i] in rs && !rs[paid[i]].autoVest
      ensures RouteShare(Deposit(rs, part, paid[i]), part, rs[paid[i]].percent)
    {
      assert paid[i] in paid;
      DepositExact(rs, part, paid[i]);
    }
  }

  /** The HIVE side as everyone sees it: parcels of the routes that pay, then all that is left to the account. */
  lemma PaidInEach(p: Purse, after: Purse, from: Name, rs: Routes, part: nat, vested: seq<Name>,
      paid: seq<Name>) returns (parcels: seq<nat>, gains: seq<nat>)
    requires PaidIn(p, after, from, rs, part, vested, paid) && from in p.liquid && Split(rs, vested, paid)
    ensures PaidEach(p, after, paid + [from], parcels, gains)
    ensures PartSplit(parcels, rs, part, paid)
  {
    hide PaidEach, Split, PartSplit, Deposits, Redeemed, Deposit, Parcels;
    var q, left := PaidOut(p, rs, part, paid), part - Deposits(rs, part, vested) - Deposits(rs, part, paid);
    gains := PaidOutEach(p, rs, part, paid);
    var hive := PaidEachStep(p, q, paid, Parcels(rs, part, paid), gains, from, left);
    PartSplits(rs, part, vested, paid, left);
    parcels, gains := Parcels(rs, part, paid) + [left], gains + [hive];
  }

  /** The shares of everyone after a part: a route that vests has got its share, and the account has given the part. */
  ghost predicate SharesArrived(hs: Holdings, after: Holdings, from: Name, rs: Routes, part: nat)
  {
    after.Keys == hs.Keys
    && forall a :: a in hs ==>
        var n := after[a].vesting - hs[a].vesting + if a == from then part else 0;
        if a in rs && rs[a].autoVest then RouteShare(n, part, rs[a].percent) else n == 0
  }

  lemma PartArrives(hs: Holdings, after: Holdings, from: Name, rs: Routes, part: nat, vested: seq<Name>,
      paid: seq<Name>)
    requires from in hs && hs[from].down.next.Some? && NextPart(hs[from].down) >= 0
    requires PartPaid(hs, after, from, rs, part, vested) && Split(rs, vested, paid)
    ensures SharesArrived(hs, after, from, rs, part)
  {
    hide Vested, Deposit, RouteShare, NextPart, Advanced;
    KindsCover(rs, vested, paid);
    VestedEach(hs, rs, part, vested);
    forall a | a in rs ensures RouteShare(Deposit(rs, part, a), part, rs[a].percent) {
      DepositExact(rs, part, a);
    }
  }

  lemma PartPaidSane(hs: Holdings, after: Holdings, restricted: set<Name>, from: Name, rs: Routes, vested: seq<Name>)
    requires Sane(hs, restricted) && from in hs && hs[from].down.next.Some? && NextPart(hs[from].down) >= 0
    requires forall t :: t in vested ==> t in hs
    requires PartPaid(hs, after, from, rs, NextPart(hs[from].down), vested)
    ensures Sane(after, restricted) && after.Keys == hs.Keys
    ensures VestedTotal(after)
         == VestedTotal(hs) + Deposits(rs, NextPart(hs[from].down), vested) - NextPart(hs[from].down)
    ensures forall a :: a in hs ==> after[a].delegated == hs[a].delegated && after[a].received == hs[a].received
  {
    hide Sane, VestedTotal, Advanced, Scheduled, NextPart, Outstanding;
    var part := NextPart(hs[from].down);
    var v := Vested(hs, rs, part, vested);
    VestedGrows(hs, rs, part, vested);
    VestedAdds(hs, rs, part, vested);
    VestedSane(hs, v, restricted);
    SolventAt(hs, restricted, from);
    AdvancedScheduled(hs[from].down);
    RestrictedIdle(hs, restricted, from);
    SaneSet(v, restricted, from, AfterPart(v[from], part));
    HoldingSet(v, from, AfterPart(v[from], part));
  }

  lemma RestrictedIdle(hs: Holdings, restricted: set<Name>, a: Name)
    requires Sane(hs, restricted) && a in hs && hs[a].down.next.Some?
    ensures a !in restricted
  {
  }

  lemma VestedSane(hs: Holdings, after: Holdings, restricted: set<Name>)
    requires Sane(hs, restricted) && after.Keys == hs.Keys
    requires forall a :: a in hs ==>
      after[a].vesting >= hs[a].vesting && after[a] == hs[a].(vesting := after[a].vesting)
    ensures Sane(after, restricted)
  {
    hide Scheduled;
  }

  /** An account with nothing vested left has nothing left to withdraw either. */
  lemma EmptyMeansDone(h: Holding, part: nat)
    requires
      && Scheduled(h.down) && h.down.next.Some? && part == NextPart(h.down) <= h.vesting
      && Outstanding(h.down) <= h.vesting
    ensures h.vesting - part == 0 ==> Outstanding(h.down) - part <= 0
  {
  }

  lemma PartNumbers(hs: Holdings, restricted: set<Name>, from: Name)
    requires Sane(hs, restricted) && from in hs && hs[from].down.next.Some?
    ensures Solvent(hs[from]) && 0 < NextPart(hs[from].down) <= hs[from].vesting
  {
    hide Solvent;
    SolventAt(hs, restricted, from);
    PartCovered(hs[from]);
  }

  lemma RoutesOf(routes: map<Name, Routes>, counts: map<Name, nat>, names: set<Name>, a: Name)
    requires Routed(routes, counts, names) && a in names
    ensures a in routes && routes[a].Keys <= names && Percent(routes[a]) <= FULL_PERCENT
    ensures a in counts && counts[a] == |routes[a]| <= MAX_ROUTES
  {
    hide Percent;
  }

  lemma AllCovered(hs: Holdings, p: Purse, from: Name, part: nat)
    requires from in hs && part <= hs[from].vesting && p.total == VestedTotal(hs) && (p.total > 0 ==> p.fund > 0)
    ensures Covered(p, part)
  {
    forall a | a in hs.Keys ensures 0 <= VestingOf(hs)(a) { }
    SumTermAtMost(hs.Keys, VestingOf(hs), from);
  }

  /** The way a part ends a power-down, or moves it on, does not depend on what was routed back to the account. */
  lemma SameEnd(was: Holding, h: Holding, part: nat)
    requires
      && Solvent(was) && was.down.next.Some? && part == NextPart(was.down) && h == was.(vesting := h.vesting)
      && was.vesting <= h.vesting
    ensures part >= 0 && Advanced(was.down) == if Outstanding(h.down) - part <= 0 || h.vesting - part == 0 then IDLE
      else h.down.(withdrawn := h.down.withdrawn + part, next := Some(h.down.next.value + INTERVAL_SECONDS))
  {
    AdvancedScheduled(was.down);
    EmptyMeansDone(h, part);
  }

  lemma PartDone(hs: Holdings, after: Holdings, from: Name, rs: Routes, part: nat, vested: seq<Name>)
    requires from in hs && hs[from].down.next.Some? && NextPart(hs[from].down) >= 0 && part <= hs[from].vesting
    requires var v := Vested(hs, rs, part, vested);
      from in v && part <= v[from].vesting
      && after == v[from := v[from].(vesting := v[from].vesting - part, down := Advanced(hs[from].down))]
    ensures PartPaid(hs, after, from, rs, part, vested)
  {
    VestedGrows(hs, rs, part, vested);
  }

  lemma RoutesSet(routes: map<Name, Routes>, counts: map<Name, nat>, names: set<Name>, a: Name, rs: Routes)
    requires Routed(routes, counts, names) && a in names
    requires rs.Keys <= names && Percent(rs) <= FULL_PERCENT && |rs| <= MAX_ROUTES
    ensures Routed(routes[a := rs], counts[a := |rs|], names)
  {
    hide Percent;
  }

  /** The routes after one has been set. */
  function Rerouted(rs: Routes, to: Name, percent: nat, autoVest: bool): Routes
  {
    if percent == 0 then rs - {to} else rs[to := Route(percent, autoVest)]
  }

  /** A route to one account is set, or dropped at no percentage, and the others are as they were. */
  ghost predicate RouteSet(rs: Routes, after: Routes, to: Name, percent: nat, autoVest: bool)
  {
    && (to in after <==> percent > 0) && (percent > 0 ==> after[to] == Route(percent, autoVest))
    && (forall t :: t != to ==> (t in after <==> t in rs) && (t in after ==> after[t] == rs[t]))
  }

  lemma ReroutedIs(rs: Routes, to: Name, percent: nat, autoVest: bool)
    ensures RouteSet(rs, Rerouted(rs, to, percent, autoVest), to, percent, autoVest)
  {
  }

  lemma ReroutedPercent(rs: Routes, to: Name, percent: nat, autoVest: bool)
    requires Percent(rs) <= FULL_PERCENT && percent <= FULL_PERCENT && (to !in rs ==> percent != 0)
    ensures Percent(Rerouted(rs, to, percent, autoVest)) < 65536
  {
    hide Percent;
    if percent == 0 { PercentRemoved(rs, to); } else { PercentSet(rs, to, Route(percent, autoVest)); }
  }

  lemma ReroutedCount(rs: Routes, to: Name, percent: nat, autoVest: bool)
    requires to !in rs ==> percent != 0
    ensures |Rerouted(rs, to, percent, autoVest)| == if percent
         == 0 then |rs| - 1 else if to in rs then |rs| else |rs| + 1
    ensures Rerouted(rs, to, percent, autoVest).Keys <= rs.Keys + {to}
  {
    var after := Rerouted(rs, to, percent, autoVest);
    assert after.Keys == if percent == 0 then rs.Keys - {to} else rs.Keys + {to};
    assert |rs.Keys| == |rs| && |after.Keys| == |after|;
  }

  const NEWCOMER := Holding(0, 0, 0, IDLE)

  lemma NewcomerKeeps(hs: Holdings, ds: Delegations, rs: Returns, restricted: set<Name>, a: Name)
    requires Booked(hs, ds, rs) && Sane(hs, restricted) && a !in hs
    ensures Booked(hs[a := NEWCOMER], ds, rs) && Sane(hs[a := NEWCOMER], restricted)
    ensures VestedTotal(hs[a := NEWCOMER]) == VestedTotal(hs)
  {
    hide Solvent, Given, Taken, Returning, VestedTotal;
    NothingFor(ds, rs, hs.Keys, a);
    NewcomerTotal(hs, a);
    IdleSolvent(NEWCOMER);
  }

  lemma NewcomerTotal(hs: Holdings, a: Name)
    requires a !in hs
    ensures VestedTotal(hs[a := NEWCOMER]) == VestedTotal(hs)
  {
    var after := hs[a := NEWCOMER];
    assert after.Keys == hs.Keys + {a};
    SumInsert(hs.Keys, VestingOf(after), a);
    forall x | x in hs.Keys ensures VestingOf(hs)(x) == VestingOf(after)(x) { }
    SumCongruent(hs.Keys, VestingOf(hs), VestingOf(after));
  }

  lemma NothingFor(ds: Delegations, rs: Returns, names: set<Name>, a: Name)
    requires
      && a !in names && (forall l :: l in ds ==> l.from in names && l.to in names)
      && (forall i :: i in rs ==> rs[i].from in names)
    ensures Given(ds, a) == 0 && Taken(ds, a) == 0 && Returning(rs, a) == 0
  {
    SumZero(ds.Keys, Giving(ds, a));
    SumZero(ds.Keys, Taking(ds, a));
    SumZero(rs.Keys, Coming(rs, a));
  }

  lemma NoRoutes()
    ensures Percent(map[]) == 0
  {
  }

  lemma NewcomerRouted(routes: map<Name, Routes>, counts: map<Name, nat>, names: set<Name>, a: Name)
    requires Routed(routes, counts, names) && a !in names
    ensures Routed(routes[a := map[]], counts[a := 0], names + {a})
  {
    hide Percent;
    NoRoutes();
  }

  lemma PlusKeeps(hs: Holdings, ds: Delegations, rs: Returns, restricted: set<Name>, a: Name, n: nat)
    requires Booked(hs, ds, rs) && Sane(hs, restricted) && a in hs
    ensures var after := Plus(hs, a, n);
      Booked(after, ds, rs) && Sane(after, restricted) && after.Keys == hs.Keys
      && VestedTotal(after) == VestedTotal(hs) + n
  {
    hide Booked, Sane, VestedTotal, Scheduled;
    var h := hs[a].(vesting := hs[a].vesting + n);
    SolventAt(hs, restricted, a);
    SaneSet(hs, restricted, a, h);
    HoldingSet(hs, a, h);
    SameBooks(hs, hs[a := h], ds, rs);
  }

  lemma IdleSolvent(h: Holding)
    requires h.down == IDLE && h.delegated <= h.vesting
    ensures Solvent(h)
  {
  }

  lemma QuietSolvent(hs: Holdings, restricted: set<Name>, a: Name, h: Holding)
    requires
      && Sane(hs, restricted) && a in hs && a in restricted && h == hs[a].(vesting := h.vesting)
      && h.delegated <= h.vesting
    ensures Solvent(h)
  {
    hide Solvent;
    IdleSolvent(h);
  }

  lemma MinusKeeps(hs: Holdings, ds: Delegations, rs: Returns, restricted: set<Name>, a: Name, n: nat)
    requires
      && Booked(hs, ds, rs) && Sane(hs, restricted) && a in hs && a in restricted
      && n <= hs[a].vesting - hs[a].delegated
    ensures var after := Minus(hs, a, n);
      Booked(after, ds, rs) && Sane(after, restricted) && after.Keys == hs.Keys
      && VestedTotal(after) == VestedTotal(hs) - n
  {
    hide Booked, VestedTotal, Sane, Solvent;
    var h := hs[a].(vesting := hs[a].vesting - n);
    SameBooks(hs, hs[a := h], ds, rs);
    HoldingSet(hs, a, h);
    QuietSolvent(hs, restricted, a, h);
    SaneSet(hs, restricted, a, h);
  }

  // ---- The order of due dates ----

  datatype Position = Position(time: nat, name: Name)

  predicate Before(p: Position, q: Position)
  {
    p.time < q.time || (p.time == q.time && p.name < q.name)
  }

  predicate After(last: Option<Position>, p: Position)
  {
    last.Some? ==> Before(last.value, p)
  }

  predicate IsDue(d: PowerDown, now: nat)
  {
    d.next.Some? && d.next.value <= now
  }

  function At(hs: Holdings, a: Name): Position
    requires a in hs
  {
    Position(if hs[a].down.next.Some? then hs[a].down.next.value else 0, a)
  }

  ghost function OutstandingOf(hs: Holdings): Name -> int
  {
    a => if a in hs then Outstanding(hs[a].down) else 0
  }

  ghost function OutstandingTotal(hs: Holdings): int
  {
    Sum(hs.Keys, OutstandingOf(hs))
  }

  /** A part paid moves one power-down on, touches no other, and leaves less to withdraw. */
  lemma PartMoves(hs: Holdings, after: Holdings, restricted: set<Name>, from: Name, rs: Routes, vested: seq<Name>)
    requires
      && Sane(hs, restricted) && Sane(after, restricted) && from in hs && hs[from].down.next.Some?
      && NextPart(hs[from].down) >= 0
    requires PartPaid(hs, after, from, rs, NextPart(hs[from].down), vested)
    ensures after.Keys == hs.Keys && after[from].down == Advanced(hs[from].down)
    ensures forall a :: a in hs && a != from ==> after[a].down == hs[a].down
    ensures 0 <= OutstandingTotal(after) < OutstandingTotal(hs)
  {
    hide Sane, NextPart, Advanced, Scheduled, Outstanding;
    VestedGrows(hs, rs, NextPart(hs[from].down), vested);
    SolventAt(hs, restricted, from);
    AdvancedScheduled(hs[from].down);
    forall a | a in hs.Keys && a != from ensures OutstandingOf(hs)(a) == OutstandingOf(after)(a) { }
    SumChangeOne(hs.Keys, OutstandingOf(hs), OutstandingOf(after), from);
    forall a | a in after.Keys ensures 0 <= OutstandingOf(after)(a) { NeverNegative(after, restricted, a); }
    SumNonNegative(after.Keys, OutstandingOf(after));
  }

  lemma NeverNegative(hs: Holdings, restricted: set<Name>, a: Name)
    requires Sane(hs, restricted) && a in hs
    ensures 0 <= OutstandingOf(hs)(a)
  {
  }

  lemma AllScheduled(hs: Holdings, restricted: set<Name>)
    requires Sane(hs, restricted)
    ensures forall a :: a in hs ==> Scheduled(hs[a].down)
  {
    hide Scheduled;
  }

  /** Each power-down has moved on once for every visit. */
  ghost predicate Tracked(hs: Holdings, after: Holdings, visits: map<Name, nat>)
  {
    && after.Keys == hs.Keys == visits.Keys
    && forall a :: a in hs ==> Scheduled(hs[a].down) && after[a].down == Left(hs[a].down, visits[a])
  }

  /** Who was due and has not been visited comes no earlier than the account to visit next. */
  ghost predicate Waiting(hs: Holdings, after: Holdings, visits: map<Name, nat>, current: Option<Name>, now: nat)
    requires Tracked(hs, after, visits)
  {
    && (current.Some? ==> current.value in after && IsDue(after[current.value].down, now))
    && forall a :: a in hs && visits[a] == 0 && IsDue(hs[a].down, now) ==>
      current.Some? && (a == current.value || Before(At(after, current.value), At(after, a)))
  }

  ghost predicate Follows(hs: Holdings, a: Name, next: Option<Name>, now: nat)
    requires a in hs
  {
    && (next.Some? ==> next.value in hs && IsDue(hs[next.value].down, now) && Before(At(hs, a), At(hs, next.value)))
    && forall b :: b in hs && IsDue(hs[b].down, now) && Before(At(hs, a), At(hs, b)) ==>
      next.Some? && (b == next.value || Before(At(hs, next.value), At(hs, b)))
  }

  lemma Visited(hs: Holdings, before: Holdings, after: Holdings, visits: map<Name, nat>, a: Name, next: Option<Name>,
      now: nat)
    requires
      && Tracked(hs, before, visits) && a in hs && Waiting(hs, before, visits, Some(a), now)
      && Follows(before, a, next, now)
    requires after.Keys == before.Keys && before[a].down.next.Some? && NextPart(before[a].down) >= 0
    requires after[a].down == Advanced(before[a].down) && forall b :: b in before && b != a ==>
      after[b].down == before[b].down
    ensures Tracked(hs, after, visits[a := visits[a] + 1])
    ensures Waiting(hs, after, visits[a := visits[a] + 1], next, now)
  {
    hide Left, Scheduled, Advanced, NextPart;
    LeftOneMore(hs[a].down, visits[a]);
    forall b | b in hs && b != a && visits[b] == 0 ensures before[b].down == hs[b].down {
      LeftNone(hs[b].down);
    }
  }

  lemma LeftNone(d: PowerDown)
    requires Scheduled(d)
    ensures Left(d, 0) == d
  {
  }

  /** A power-down after some of its due dates, at least one if it was due. */
  ghost predicate Moved(was: PowerDown, d: PowerDown, now: nat)
    requires Scheduled(was)
  {
    exists k: nat :: d == Left(was, k) && (IsDue(was, now) ==> k > 0)
  }

  lemma AllMoved(hs: Holdings, after: Holdings, visits: map<Name, nat>, now: nat)
    requires Tracked(hs, after, visits) && Waiting(hs, after, visits, None, now)
    ensures after.Keys == hs.Keys && forall a :: a in after ==>
      Scheduled(hs[a].down) && Moved(hs[a].down, after[a].down, now)
  {
    hide Left, Scheduled, IsDue;
  }

  // ---- The accounts ----

  class Stakes {
    const treasury: Name
    const restricted: set<Name>
    var holdings: Holdings
    var delegations: Delegations
    var expiring: Returns
    var nextReturn: nat
    var routes: map<Name, Routes>
    var routeCounts: map<Name, nat>
    /** All vested shares, the HIVE behind them, and shares issued as rewards but not yet vested. */
    var total: int
    var fund: nat
    var pending: int
    var liquid: map<Name, nat>

    ghost function Money(): Purse
      reads this
    {
      Purse(total, fund, liquid)
    }

    ghost predicate Valid()
      reads this
    {
      && Booked(holdings, delegations, expiring)
      && Sane(holdings, restricted)
      && Routed(routes, routeCounts, holdings.Keys)
      && total == VestedTotal(holdings) && (total > 0 ==> fund > 0)
      && liquid.Keys == holdings.Keys
      && (forall i :: i in expiring ==> i < nextReturn)
    }

    constructor (treasury: Name, restricted: set<Name>)
      ensures Valid() && holdings == map[] && Money() == Purse(0, 0, map[])
      ensures this.treasury == treasury && this.restricted == restricted
    {
      this.treasury, this.restricted := treasury, restricted;
      holdings, delegations, expiring, nextReturn := map[], map[], map[], 0;
      routes, routeCounts, total, fund, pending, liquid := map[], map[], 0, 0, 0, map[];
    }

    method CreateAccount(a: Name) returns (ok: bool)
      requires Valid()
      modifies this
      ensures Valid()
      ensures ok <==> a !in old(holdings)
      ensures holdings == if ok then old(holdings)[a := NEWCOMER] else old(holdings)
      ensures delegations == old(delegations) && expiring == old(expiring) && total == old(total) && fund == old(fund)
      ensures liquid == if ok then old(liquid)[a := 0] else old(liquid)
    {
      hide Booked, Sane, Routed, VestedTotal;
      ok := a !in holdings;
      if ok {
        NewcomerKeeps(holdings, delegations, expiring, restricted, a);
        NewcomerRouted(routes, routeCounts, holdings.Keys, a);
        holdings, liquid := holdings[a := NEWCOMER], liquid[a := 0];
        routes, routeCounts := routes[a := map[]], routeCounts[a := 0];
        assert holdings.Keys == old(holdings).Keys + {a};
      }
    }

    /** HIVE becomes shares at the current price. */
    method PowerUp(from: Name, to: Name, amount: nat) returns (ok: bool)
      requires Valid()
      modifies this
      ensures Valid()
      ensures ok <==>
        && from in old(holdings) && to in old(holdings) && from !in restricted && to != treasury
        && 0 < amount <= old(liquid)[from]
      ensures !ok ==> unchanged(this)
      ensures ok ==>
        var shares := Shares(amount, old(total), old(fund));
        && holdings == Plus(old(holdings), to, shares) && total == old(total) + shares && fund == old(fund) + amount
        && liquid == old(liquid)[from := old(liquid)[from] - amount]
      ensures delegations == old(delegations) && expiring == old(expiring)
    {
      hide Booked, Sane, Routed, VestedTotal, Shares;
      ok := from in holdings && to in holdings && from !in restricted && to != treasury && 0 < amount <= liquid[from];
      if ok {
        var shares := Shares(amount, total, fund);
        PlusKeeps(holdings, delegations, expiring, restricted, to, shares);
        holdings := Plus(holdings, to, shares);
        total, fund := total + shares, fund + amount;
        liquid := liquid[from := liquid[from] - amount];
      }
    }

    /** HIVE issued for all that hold shares. */
    method AddToFund(amount: nat)
      requires Valid()
      modifies this`fund
      ensures Valid() && fund == old(fund) + amount
    {
      hide Booked, Sane, Routed, VestedTotal;
      fund := fund + amount;
    }

    /** The HIVE issued for a block goes to its producer as shares. */
    method ProducerReward(a: Name, amount: nat)
      requires Valid() && a in holdings
      modifies this`holdings, this`total, this`fund
      ensures Valid()
      ensures var shares := Shares(amount, old(total), old(fund));
        holdings == Plus(old(holdings), a, shares) && total == old(total) + shares && fund == old(fund) + amount
    {
      hide Booked, Sane, Routed, VestedTotal;
      var shares := Shares(amount, total, fund);
      PlusKeeps(holdings, delegations, expiring, restricted, a, shares);
      holdings := Plus(holdings, a, shares);
      total, fund := total + shares, fund + amount;
    }

    /** Shares issued as rewards wait until they are claimed. */
    method AwardReward(shares: nat)
      requires Valid()
      modifies this`pending
      ensures Valid() && pending == old(pending) + shares
    {
      pending := pending + shares;
    }

    /** Claimed shares become vested with the HIVE behind them, and liquid HIVE comes along. */
    method ClaimReward(a: Name, shares: nat, behind: nat, hive: nat) returns (ok: bool)
      requires Valid()
      modifies this`holdings, this`total, this`fund, this`pending, this`liquid
      ensures Valid()
      ensures ok <==> a in old(holdings) && a !in restricted && (old(total) + shares > 0 ==> old(fund) + behind > 0)
      ensures !ok ==> unchanged(this)
      ensures ok ==>
        && holdings == Plus(old(holdings), a, shares) && total == old(total) + shares && fund == old(fund) + behind
        && pending == old(pending) - shares && liquid == old(liquid)[a := old(liquid)[a] + hive]
    {
      hide Booked, Sane, Routed, VestedTotal;
      ok := a in holdings && a !in restricted && (total + shares > 0 ==> fund + behind > 0);
      if ok {
        PlusKeeps(holdings, delegations, expiring, restricted, a, shares);
        holdings := Plus(holdings, a, shares);
        total, fund, pending := total + shares, fund + behind, pending - shares;
        liquid := liquid[a := liquid[a] + hive];
      }
    }

    /** Only the restricted accounts hand vested shares over directly, and none whose votes are delayed. */
    method TransferShares(from: Name, to: Name, shares: nat, delayed: nat) returns (ok: bool)
      requires Valid()
      modifies this`holdings
      ensures Valid()
      ensures ok <==>
        && from in restricted && from in old(holdings) && to in old(holdings)
        && 0 < shares <= old(holdings)[from].vesting - old(holdings)[from].delegated
        && delayed <= old(holdings)[from].vesting - shares
      ensures !ok ==> holdings == old(holdings)
      ensures ok ==> holdings == Plus(Minus(old(holdings), from, shares), to, shares)
    {
      hide Booked, Sane, Routed, VestedTotal;
      ok := from in restricted && from in holdings && to in holdings
        && 0 < shares <= holdings[from].vesting - holdings[from].delegated
        && delayed <= holdings[from].vesting - shares;
      if ok {
        MinusKeeps(holdings, delegations, expiring, restricted, from, shares);
        holdings := Minus(holdings, from, shares);
        PlusKeeps(holdings, delegations, expiring, restricted, to, shares);
        holdings := Plus(holdings, to, shares);
      }
    }

    /** A route is added, changed, or with zero percent removed; if the routes then take more than everything,
        nothing has happened. */
    method SetRoute(from: Name, to: Name, percent: nat, autoVest: bool) returns (ok: bool)
      requires Valid()
      modifies this`routes, this`routeCounts
      ensures Valid()
      ensures ok <==>
        && from in holdings && to in holdings && to != treasury && percent <= FULL_PERCENT
        && (to !in old(routes)[from] ==> percent != 0 && |old(routes)[from]| < MAX_ROUTES)
        && Percent(Rerouted(old(routes)[from], to, percent, autoVest)) <= FULL_PERCENT
      ensures routes
           == if ok then old(routes)[from := Rerouted(old(routes)[from], to, percent, autoVest)] else old(routes)
      ensures ok ==> RouteSet(old(routes)[from], routes[from], to, percent, autoVest)
    {
      hide Booked, Sane, VestedTotal, Percent, Routed, Rerouted, RouteSet;
      ok := from in holdings && to in holdings && to != treasury && percent <= FULL_PERCENT;
      if !ok { return; }
      RoutesOf(routes, routeCounts, holdings.Keys, from);
      var rs := routes[from];
      ok := to !in rs ==> percent != 0 && routeCounts[from] < MAX_ROUTES;
      if !ok { return; }
      var after := Rerouted(rs, to, percent, autoVest);
      ReroutedPercent(rs, to, percent, autoVest);
      var total := AddPercents(after);
      ok := total <= FULL_PERCENT;
      if ok {
        var count := if percent == 0 then routeCounts[from] - 1
          else if to in rs then routeCounts[from] else routeCounts[from] + 1;
        ReroutedCount(rs, to, percent, autoVest);
        ReroutedIs(rs, to, percent, autoVest);
        RoutesSet(routes, routeCounts, holdings.Keys, from, after);
        routes, routeCounts := routes[from := after], routeCounts[from := count];
      }
    }

    /** Starts, changes or cancels a power-down. */
    method WithdrawVesting(a: Name, shares: nat, now: nat) returns (ok: bool)
      requires Valid()
      modifies this`holdings
      ensures Valid()
      ensures ok <==>
        && a in old(holdings) && a !in restricted && shares <= old(holdings)[a].vesting - old(holdings)[a].delegated
        && (if shares == 0 then old(holdings)[a].down.next.Some? else old(holdings)[a].down.rate != RateFor(shares))
      ensures holdings
           == if ok then old(holdings)[a := old(holdings)[a].(down := Started(shares, now))] else old(holdings)
      ensures ok && shares == 0 ==> holdings[a].down == IDLE
      ensures ok && shares > 0 ==>
        var d := holdings[a].down;
        && d.toWithdraw == shares && d.withdrawn == 0 && d.next == Some(now + INTERVAL_SECONDS)
        && (d.rate - 1) * INTERVALS < shares <= d.rate * INTERVALS
    {
      hide Booked, Sane, Routed, VestedTotal, RateFor, Started;
      ok := a in holdings && a !in restricted;
      if !ok { return; }
      var h := holdings[a];
      ok := shares <= h.vesting - h.delegated
        && (if shares == 0 then h.down.next.Some? else h.down.rate != RateFor(shares));
      if ok {
        StartedSane(holdings, restricted, a, shares, now);
        StartedIs(shares, now);
        SameBooks(holdings, holdings[a := h.(down := Started(shares, now))], delegations, expiring);
        holdings := holdings[a := h.(down := Started(shares, now))];
      }
    }

    /** Lends shares, lends more, or takes some or all back; what is taken back stays bound for a while. */
    method Delegate(l: Link, shares: nat, mana: int, downMana: int, minShares: nat, minUpdate: nat, now: nat,
        period: nat) returns (ok: bool)
      requires Valid()
      modifies this`holdings, this`delegations, this`expiring, this`nextReturn
      ensures Valid()
      ensures ok <==>
        && l.from in old(holdings) && l.to in old(holdings) && l.from != l.to && l.from !in restricted
        && var now_, can := SharesOf(old(delegations), l), Least(Available(old(holdings)[l.from], mana),
             Available(old(holdings)[l.from], downMana));
        if l !in old(delegations) then shares <= can && minShares <= shares
        else if now_ <= shares then minUpdate <= shares - now_ <= can
        else shares > 0 ==> minUpdate <= now_ - shares && minShares <= shares
      ensures !ok ==> unchanged(this)
      ensures ok ==> SharesOf(delegations, l) == shares
      ensures ok ==> forall k :: k != l ==>
        (k in delegations <==> k in old(delegations)) && SharesOf(delegations, k) == SharesOf(old(delegations), k)
      ensures ok && SharesOf(old(delegations), l) <= shares ==>
        holdings == Lent(old(holdings), l, shares - SharesOf(old(delegations), l)) && expiring == old(expiring)
      ensures ok && shares < SharesOf(old(delegations), l) ==>
        var n, d := SharesOf(old(delegations), l) - shares, old(delegations)[l];
        && n <= old(holdings)[l.to].received && holdings == Unlent(old(holdings), l.to, n)
        && expiring == old(expiring)[old(nextReturn) :=
             Expiring(l.from, n, if now + period < d.minTime then d.minTime else now + period)]
    {
      hide Booked, Sane, Routed, VestedTotal, Available, Outstanding, Scheduled;
      ok := l.from in holdings && l.to in holdings && l.from != l.to && l.from !in restricted;
      if !ok { return; }
      var h := holdings[l.from];
      var can := Least(Available(h, mana), Available(h, downMana));
      SolventAt(holdings, restricted, l.from);
      AvailableWithin(h, mana);
      AvailableWithin(h, downMana);
      var lent := SharesOf(delegations, l);
      if l !in delegations || lent <= shares {
        ok := if l !in delegations then shares <= can && minShares <= shares else minUpdate <= shares - lent <= can;
        if ok { Lend(l, shares, now); }
      } else {
        ok := shares > 0 ==> minUpdate <= lent - shares && minShares <= shares;
        if ok { TakeBack(l, shares, now + period); }
      }
    }

    method Lend(l: Link, shares: nat, now: nat)
      requires Valid() && l.from in holdings && l.to in holdings && l.from != l.to && l.from !in restricted
      requires SharesOf(delegations, l) <= shares
      requires var h := holdings[l.from];
        shares - SharesOf(delegations, l) <= h.vesting - h.delegated - Outstanding(h.down)
      modifies this`holdings, this`delegations
      ensures Valid()
      ensures holdings == Lent(old(holdings), l, shares - SharesOf(old(delegations), l))
      ensures delegations.Keys == old(delegations).Keys + {l} && SharesOf(delegations, l) == shares
      ensures forall k :: k != l ==> SharesOf(delegations, k) == SharesOf(old(delegations), k)
    {
      hide Booked, Sane, Routed, VestedTotal, Outstanding;
      var d := Delegation(shares, if l in delegations then delegations[l].minTime else now);
      var n := shares - SharesOf(delegations, l);
      LentBooked(holdings, delegations, expiring, l, d);
      LentSane(holdings, restricted, l, n);
      LentTotal(holdings, l, n);
      holdings, delegations := Lent(holdings, l, n), delegations[l := d];
    }

    method TakeBack(l: Link, shares: nat, back: nat)
      requires Valid() && l in delegations && shares < delegations[l].shares
      modifies this`holdings, this`delegations, this`expiring, this`nextReturn
      ensures Valid()
      ensures var n, d := old(delegations)[l].shares - shares, old(delegations)[l];
        && n <= old(holdings)[l.to].received && holdings == Unlent(old(holdings), l.to, n)
        && expiring == old(expiring)[old(nextReturn) :=
             Expiring(l.from, n, if back < d.minTime then d.minTime else back)]
      ensures delegations == Lowered(old(delegations), l, shares)
    {
      hide Booked, Sane, Routed, VestedTotal, Outstanding;
      var d := delegations[l];
      var n, expires := d.shares - shares, if back < d.minTime then d.minTime else back;
      UnlentBooked(holdings, delegations, expiring, l, shares, nextReturn, expires);
      UnlentSane(holdings, restricted, l.to, n);
      holdings := Unlent(holdings, l.to, n);
      expiring, nextReturn := expiring[nextReturn := Expiring(l.from, n, expires)], nextReturn + 1;
      delegations := Lowered(delegations, l, shares);
    }

    /** Shares whose time has come are their owner's again, and no others. */
    method ClearExpiredDelegations(now: nat)
      requires Valid()
      modifies this`holdings, this`expiring
      ensures Valid()
      ensures forall i :: i in expiring <==> i in old(expiring) && old(expiring)[i].expires >= now
      ensures forall i :: i in expiring ==> expiring[i] == old(expiring)[i]
      ensures holdings.Keys == old(holdings).Keys && forall a :: a in holdings ==>
        holdings[a] == old(holdings)[a].(delegated := holdings[a].delegated)
    {
      hide Booked, Sane, Routed, VestedTotal, Outstanding;
      while exists i :: i in expiring && expiring[i].expires < now
        invariant Valid()
        invariant forall i :: i in expiring ==> i in old(expiring) && expiring[i] == old(expiring)[i]
        invariant forall i :: i in old(expiring) && i !in expiring ==> old(expiring)[i].expires < now
        invariant holdings.Keys == old(holdings).Keys && forall a :: a in holdings ==>
          holdings[a] == old(holdings)[a].(delegated := holdings[a].delegated)
        decreases expiring.Keys
      {
        var i :| i in expiring && expiring[i].expires < now;
        ReturnedBooked(holdings, delegations, expiring, i);
        var from, n := expiring[i].from, expiring[i].shares;
        ReturnedSane(holdings, restricted, from, n);
        holdings, expiring := Returned(holdings, from, n), expiring - {i};
      }
    }

    // ---- Paying power-downs ----

    /** First pass: shares go to the vesting of the targets. */
    method VestRoutes(rs: Routes, part: nat, ts: seq<Name>, pool: nat) returns (left: nat)
      requires Deposits(rs, part, ts) <= pool && forall t :: t in ts ==> t in holdings
      modifies this`holdings
      ensures left == pool - Deposits(rs, part, ts) && holdings == Vested(old(holdings), rs, part, ts)
    {
      left := pool;
      for i := 0 to |ts|
        invariant left == pool - Deposits(rs, part, ts[..i]) && holdings == Vested(old(holdings), rs, part, ts[..i])
      {
        hide Deposit;
        DepositsPrefix(rs, part, ts, i);
        VestedGrows(old(holdings), rs, part, ts[..i]);
        assert ts[..i + 1][..i] == ts[..i];
        var n := Deposit(rs, part, ts[i]);
        if n > 0 {
          holdings := Plus(holdings, ts[i], n);
          left := left - n;
        } else {
          assert holdings[ts[i] := holdings[ts[i]]] == holdings;
        }
      }
      assert ts[..|ts|] == ts;
    }

    /** Shares out of the pool are redeemed at the current price. */
    method Redeem(a: Name, shares: nat, pool: nat) returns (left: nat)
      requires Covered(Money(), shares) && a in liquid && shares <= pool
      modifies this`total, this`fund, this`liquid
      ensures left == pool - shares && Money() == Redeemed(old(Money()), a, shares)
    {
      left := pool - shares;
      if shares > 0 {
        RedeemWithin(shares, total, fund);
        var hive := Worth(shares, total, fund);
        fund, total := fund - hive, total - shares;
        liquid := liquid[a := liquid[a] + hive];
      }
    }

    /** Second pass: shares go to the targets as HIVE. */
    method PayRoutes(rs: Routes, part: nat, ts: seq<Name>, pool: nat) returns (left: nat)
      requires Deposits(rs, part, ts) <= pool && Covered(Money(), Deposits(rs, part, ts)) && forall t :: t in ts ==>
        t in liquid
      modifies this`total, this`fund, this`liquid
      ensures left == pool - Deposits(rs, part, ts) && Money() == PaidOut(old(Money()), rs, part, ts)
    {
      left := pool;
      for i := 0 to |ts|
        invariant Deposits(rs, part, ts[..i]) <= Deposits(rs, part, ts)
        invariant left == pool - Deposits(rs, part, ts[..i]) && Money() == PaidOut(old(Money()), rs, part, ts[..i])
      {
        hide Deposit, Redeemed;
        DepositsPrefix(rs, part, ts, i);
        assert ts[..i + 1][..i] == ts[..i];
        var n := Deposit(rs, part, ts[i]);
        left := Redeem(ts[i], n, left);
      }
      assert ts[..|ts|] == ts;
    }

    /** Both passes, and all that is left in the pool goes to the account itself as HIVE. */
    method Distribute(from: Name, rs: Routes, part: nat,
        pool: nat) returns (left: nat, vested: seq<Name>, paid: seq<Name>)
      requires from in holdings && liquid.Keys == holdings.Keys && rs.Keys <= holdings.Keys
      requires Percent(rs) <= FULL_PERCENT && Covered(Money(), part) && pool == part
      modifies this`holdings, this`total, this`fund, this`liquid
      ensures left == 0
      ensures Split(rs, vested, paid) && Deposits(rs, part, vested) + Deposits(rs, part, paid) <= part
      ensures holdings == Vested(old(holdings), rs, part, vested)
      ensures total == old(total) - (part - Deposits(rs, part, vested)) && (total > 0 ==> fund > 0)
      ensures liquid.Keys == old(liquid).Keys && Coins(Money()) == Coins(old(Money()))
      ensures PaidIn(old(Money()), Money(), from, rs, part, vested, paid)
    {
      hide Deposits, Deposit, Vested, PaidOut, Redeemed, Coins, Percent;
      ghost var money := Money();
      vested := TargetsOf(rs, true);
      paid := TargetsOf(rs, false);
      SplitWithin(rs, part, vested, paid);
      left := VestRoutes(rs, part, vested, pool);
      left := PayRoutes(rs, part, paid, left);
      PaidOutKeeps(money, rs, part, paid);
      RedeemedKeeps(Money(), from, left, 0);
      left := Redeem(from, left, left);
    }

    /** Shares are issued, or burned, aside from the vested ones, so that the price does not move. */
    method Borrow(shares: nat) returns (pool: nat)
      modifies this`pending
      ensures pool == shares && pending == old(pending) + shares
    {
      pool, pending := shares, pending + shares;
    }

    method BurnBorrowed(pool: nat) returns (left: nat)
      modifies this`pending
      ensures left == 0 && pending == old(pending) - pool
    {
      left, pending := 0, pending - pool;
    }

    /** One part of a power-down is paid out. Shares for the routes are borrowed first and taken from the account
        last. */
    method Payout(from: Name) returns (invalid: bool, borrowed: nat, vested: seq<Name>, paid: seq<Name>,
        ghost parcels: seq<nat>, ghost gains: seq<nat>)
      requires Valid() && from in holdings && holdings[from].down.next.Some?
      modifies this`holdings, this`total, this`fund, this`liquid, this`pending
      ensures Valid()
      ensures !invalid && borrowed == 0 && pending == old(pending)
      ensures from in routes && NextPart(old(holdings)[from].down) > 0
      ensures var part, rs := NextPart(old(holdings)[from].down), routes[from];
        && Split(rs, vested, paid) && Deposits(rs, part, vested) + Deposits(rs, part, paid) <= part
        && PartPaid(old(holdings), holdings, from, rs, part, vested)
        && total == old(total) - (part - Deposits(rs, part, vested))
        && Coins(Money()) == Coins(old(Money()))
        && PaidIn(old(Money()), Money(), from, rs, part, vested, paid)
      ensures var part, rs := NextPart(old(holdings)[from].down), routes[from];
        && SharesArrived(old(holdings), holdings, from, rs, part)
        && PaidEach(old(Money()), Money(), paid + [from], parcels, gains)
        && PartSplit(parcels, rs, part, paid)
      ensures var was, d := old(holdings)[from].down, holdings[from].down;
        var part := NextPart(was);
        if was.toWithdraw - was.withdrawn <= was.rate then part == was.toWithdraw - was.withdrawn && d == IDLE
        else
          && part == was.rate
          && d == was.(withdrawn := was.withdrawn + part, next := Some(was.next.value + INTERVAL_SECONDS))
    {
      hide Booked, Sane, Routed, VestedTotal, SharesArrived, PaidEach, PartSplit, Parcels,
        Deposits, Vested, Coins, Solvent, NextPart, Advanced,
        Outstanding, PartPaid, Split, Percent, PaidIn;
      ghost var hs := holdings;
      RoutesOf(routes, routeCounts, hs.Keys, from);
      PartNumbers(hs, restricted, from);
      var part := NextPart(holdings[from].down);
      invalid := part > holdings[from].vesting;
      AllCovered(hs, Money(), from, part);
      borrowed := Borrow(part);
      var rs := routes[from];
      borrowed, vested, paid := Distribute(from, rs, part, borrowed);
      parcels, gains := PaidInEach(old(Money()), Money(), from, rs, part, vested, paid);
      VestedGrows(hs, rs, part, vested);
      var h := holdings[from];
      SameEnd(hs[from], h, part);
      var down := if Outstanding(h.down) - part <= 0 || h.vesting - part == 0 then IDLE
        else h.down.(withdrawn := h.down.withdrawn + part, next := Some(h.down.next.value + INTERVAL_SECONDS));
      holdings := holdings[from := h.(vesting := h.vesting - part, down := down)];
      borrowed := borrowed + part;
      borrowed := BurnBorrowed(borrowed);
      PartDone(hs, holdings, from, rs, part, vested);
      PartArrives(hs, holdings, from, rs, part, vested, paid);
      PartMoved(hs, holdings, restricted, from, rs, part, vested);
      ArrivedIn(rs, vested, paid, hs.Keys);
      PartPaidSane(hs, holdings, restricted, from, rs, vested);
      SameBooks(hs, holdings, delegations, expiring);
    }

    /** The due account that comes next in the order of due dates, and of names within a date. */
    method NextDue(last: Option<Position>, now: nat) returns (next: Option<Name>)
      ensures next.Some? ==>
        next.value in holdings && IsDue(holdings[next.value].down, now) && After(last, At(holdings, next.value))
      ensures forall a :: a in holdings && IsDue(holdings[a].down, now) && After(last, At(holdings, a)) ==>
        next.Some? && (a == next.value || Before(At(holdings, next.value), At(holdings, a)))
    {
      next := None;
      var todo := holdings.Keys;
      while exists a :: a in todo
        invariant todo <= holdings.Keys
        invariant next.Some? ==>
          next.value in holdings && IsDue(holdings[next.value].down, now) && After(last, At(holdings, next.value))
        invariant forall a ::
          && a in holdings && a !in todo && IsDue(holdings[a].down, now)
          && After(last, At(holdings, a)) ==>
          next.Some? && (a == next.value || Before(At(holdings, next.value), At(holdings, a)))
        decreases todo
      {
        var a :| a in todo;
        if IsDue(holdings[a].down, now) && After(last, At(holdings, a)) {
          if next.None? || Before(At(holdings, a), At(holdings, next.value)) {
            next := Some(a);
          }
        }
        todo := todo - {a};
      }
    }

    /** Every power-down with a part due is paid, in order. Left over from a late block, a part may be followed
        by another of the same account. */
    method ProcessWithdrawals(now: nat)
      requires Valid()
      modifies this`holdings, this`total, this`fund, this`liquid, this`pending
      ensures Valid() && pending == old(pending) && Coins(Money()) == Coins(old(Money()))
      ensures holdings.Keys == old(holdings).Keys
      ensures forall a :: a in holdings ==>
        Scheduled(old(holdings)[a].down) && Moved(old(holdings)[a].down, holdings[a].down, now)
    {
      hide Booked, Sane, Routed, VestedTotal, Coins, Tracked, Waiting, Follows, Split, PaidIn, PartPaid,
        Deposits, NextPart, IsDue, Moved, OutstandingTotal;
      ghost var hs := holdings;
      ghost var visits: map<Name, nat> := map a | a in hs :: 0;
      var current := NextDue(None, now);
      Unvisited(hs, restricted, visits, current, now);
      while current.Some?
        invariant Valid() && pending == old(pending) && Coins(Money()) == Coins(old(Money()))
        invariant Tracked(hs, holdings, visits) && Waiting(hs, holdings, visits, current, now)
        decreases OutstandingTotal(holdings)
      {
        var a := current.value;
        ghost var before := holdings;
        CurrentDue(hs, holdings, visits, a, now);
        current := NextDue(Some(At(holdings, a)), now);
        NextFollows(holdings, a, current, now);
        var invalid, borrowed, vested, paid, _, _ := Payout(a);
        PartMoves(before, holdings, restricted, a, routes[a], vested);
        Visited(hs, before, holdings, visits, a, current, now);
        visits := visits[a := visits[a] + 1];
      }
      AllMoved(hs, holdings, visits, now);
    }

    // ---- Runs ----

    method Apply(step: Step) returns (ok: bool)
      requires Valid()
      modifies this
      ensures Valid()
    {
      hide Booked, Sane, Routed, VestedTotal, Percent, Coins, Moved;
      ok := true;
      match step
      case NewAccount(a) => ok := CreateAccount(a);
      case Vest(from, to, amount) => ok := PowerUp(from, to, amount);
      case Hand(from, to, shares, delayed) => ok := TransferShares(from, to, shares, delayed);
      case Produce(a, amount) => ok := a in holdings; if ok { ProducerReward(a, amount); }
      case Award(shares) => AwardReward(shares);
      case Claim(a, shares, behind, hive) => ok := ClaimReward(a, shares, behind, hive);
      case Withdraw(a, shares, now) => ok := WithdrawVesting(a, shares, now);
      case Reroute(from, to, percent, autoVest) => ok := SetRoute(from, to, percent, autoVest);
      case Lending(l, shares, mana, downMana, minShares, minUpdate, now, period) =>
        ok := Delegate(l, shares, mana, downMana, minShares, minUpdate, now, period);
      case DelegationsDue(now) => ClearExpiredDelegations(now);
      case WithdrawalsDue(now) => ProcessWithdrawals(now);
    }

    /** Over any run the books hold, every account stays solvent, and the next part of a power-down is always
        covered. */
    method Run(steps: seq<Step>)
      requires Valid()
      modifies this
      ensures Valid()
      ensures forall a :: a in holdings ==>
        0 <= NextPart(holdings[a].down) <= holdings[a].vesting - holdings[a].delegated
    {
      for i := 0 to |steps|
        invariant Valid()
      {
        var ok := Apply(steps[i]);
      }
      hide Booked, Routed, VestedTotal, Sane, NextPart;
      forall a | a in holdings ensures 0 <= NextPart(holdings[a].down) <= holdings[a].vesting - holdings[a].delegated {
        SolventAt(holdings, restricted, a);
        NextCovered(holdings[a]);
      }
    }
  }

  datatype Step =
    | NewAccount(Name)
    | Vest(Name, Name, nat)
    | Hand(Name, Name, nat, nat)
    | Produce(Name, nat)
    | Award(nat)
    | Claim(Name, nat, nat, nat)
    | Withdraw(Name, nat, nat)
    | Reroute(Name, Name, nat, bool)
    | Lending(Link, nat, int, int, nat, nat, nat, nat)
    | DelegationsDue(nat)
    | WithdrawalsDue(nat)

  lemma NextCovered(h: Holding)
    requires Solvent(h)
    ensures 0 <= NextPart(h.down) <= h.vesting - h.delegated
  {
  }

  lemma Unvisited(hs: Holdings, restricted: set<Name>, visits: map<Name, nat>, current: Option<Name>, now: nat)
    requires Sane(hs, restricted) && visits == map a | a in hs :: 0
    requires current.Some? ==> current.value in hs && IsDue(hs[current.value].down, now)
    requires forall a :: a in hs && IsDue(hs[a].down, now) ==>
      current.Some? && (a == current.value || Before(At(hs, current.value), At(hs, a)))
    ensures Tracked(hs, hs, visits) && Waiting(hs, hs, visits, current, now)
  {
    hide Scheduled, IsDue;
    AllScheduled(hs, restricted);
    forall a | a in hs ensures Left(hs[a].down, 0) == hs[a].down { LeftNone(hs[a].down); }
  }

  lemma CurrentDue(hs: Holdings, after: Holdings, visits: map<Name, nat>, a: Name, now: nat)
    requires Tracked(hs, after, visits) && Waiting(hs, after, visits, Some(a), now)
    ensures a in hs && a in after && a in visits && after.Keys == hs.Keys && after[a].down.next.Some?
  {
  }

  lemma NextFollows(hs: Holdings, a: Name, next: Option<Name>, now: nat)
    requires a in hs
    requires next.Some? ==>
      next.value in hs && IsDue(hs[next.value].down, now) && After(Some(At(hs, a)), At(hs, next.value))
    requires forall b :: b in hs && IsDue(hs[b].down, now) && After(Some(At(hs, a)), At(hs, b)) ==>
      next.Some? && (b == next.value || Before(At(hs, next.value), At(hs, b)))
    ensures Follows(hs, a, next, now)
  {
  }

  lemma StartedIs(shares: nat, now: nat)
    ensures var d := Started(shares, now);
      if shares == 0 then d == IDLE else
        && d.toWithdraw == shares && d.withdrawn == 0 && d.next == Some(now + INTERVAL_SECONDS)
        && (d.rate - 1) * INTERVALS < shares <= d.rate * INTERVALS
  {
    if shares > 0 { RateCovers(shares); }
  }

  /** The last part ends the power-down; any other is paid at the rate, and the next is due one interval later. */
  lemma PartMoved(hs: Holdings, after: Holdings, restricted: set<Name>, from: Name, rs: Routes, part: nat,
      vested: seq<Name>)
    requires Sane(hs, restricted) && from in hs && hs[from].down.next.Some? && part == NextPart(hs[from].down)
    requires PartPaid(hs, after, from, rs, part, vested)
    ensures var was, d := hs[from].down, after[from].down;
      if was.toWithdraw - was.withdrawn <= was.rate then part == was.toWithdraw - was.withdrawn && d == IDLE
      else
        && part == was.rate
        && d == was.(withdrawn := was.withdrawn + part, next := Some(was.next.value + INTERVAL_SECONDS))
  {
    hide Sane, Vested, Scheduled;
    SolventAt(hs, restricted, from);
  }

  lemma ArrivedIn(rs: Routes, vested: seq<Name>, paid: seq<Name>, names: set<Name>)
    requires Split(rs, vested, paid) && rs.Keys <= names
    ensures forall t :: t in vested ==> t in names
  {
  }

  function Least(a: int, b: int): int
  {
    if a <= b then a else b
  }

  lemma LentTotal(hs: Holdings, l: Link, n: nat)
    requires l.from in hs && l.to in hs && l.from != l.to
    ensures VestedTotal(Lent(hs, l, n)) == VestedTotal(hs)
  {
    hide VestedTotal;
    var a := hs[l.from := hs[l.from].(delegated := hs[l.from].delegated + n)];
    HoldingSet(hs, l.from, hs[l.from].(delegated := hs[l.from].delegated + n));
    HoldingSet(a, l.to, hs[l.to].(received := hs[l.to].received + n));
  }
}
