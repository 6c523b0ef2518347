/** Vesting shares that are delegated, returning from a delegation, or scheduled to be withdrawn. */
module StakeState {
  import opened Common
  import opened Sums
  import opened Arithmetic

  type Name = int

  const INTERVALS: nat := 13
  const INTERVAL_SECONDS: nat := 60 * 60 * 24 * 7
  const FULL_PERCENT: nat := 10000
  const MAX_ROUTES: nat := 10

  /** A power-down: `next` is when its next part is due, and nothing when there is none. */
  datatype PowerDown = PowerDown(rate: nat, next: Option<nat>, toWithdraw: nat, withdrawn: nat)

  datatype Holding = Holding(vesting: nat, delegated: nat, received: nat, down: PowerDown)

  datatype Link = Link(from: Name, to: Name)

  datatype Delegation = Delegation(shares: nat, minTime: nat)

  datatype Expiring = Expiring(from: Name, shares: nat, expires: nat)

  datatype Route = Route(percent: nat, autoVest: bool)

  type Holdings = map<Name, Holding>
  type Delegations = map<Link, Delegation>
  type Returns = map<nat, Expiring>
  type Routes = map<Name, Route>

  // ---- Power-downs ----

  const IDLE := PowerDown(0, None, 0, 0)

  function Outstanding(d: PowerDown): int
  {
    d.toWithdraw - d.withdrawn
  }

  /** The part due next. */
  function NextPart(d: PowerDown): int
  {
    if d.next.None? then 0 else if d.rate <= Outstanding(d) then d.rate else Outstanding(d)
  }

  /** The rate at which a number of shares is withdrawn: spread over the intervals, rounded up, at least one. */
  function RateFor(shares: nat): nat
  {
    var rate := if shares / INTERVALS == 0 then 1 else shares / INTERVALS;
    if rate * INTERVALS < shares then rate + 1 else rate
  }

  /** What is paid at a rate over all intervals. */
  function OverIntervals(rate: nat): nat
  {
    rate * INTERVALS
  }

  predicate Scheduled(d: PowerDown)
  {
    if d.next.None? then d == IDLE else d.rate > 0 && d.withdrawn < d.toWithdraw <= OverIntervals(d.rate)
  }

  function Started(shares: nat, now: nat): PowerDown
  {
    if shares == 0 then IDLE else PowerDown(RateFor(shares), Some(now + INTERVAL_SECONDS), shares, 0)
  }

  /** After one part has been paid. */
  function Advanced(d: PowerDown): PowerDown
    requires d.next.Some? && NextPart(d) >= 0
  {
    if Outstanding(d) <= NextPart(d) then IDLE
    else d.(withdrawn := d.withdrawn + NextPart(d), next := Some(d.next.value + INTERVAL_SECONDS))
  }

  lemma RateCovers(shares: nat)
    requires shares > 0
    ensures RateFor(shares) > 0 && shares <= RateFor(shares) * INTERVALS < shares + INTERVALS
  {
  }

  lemma StartedScheduled(shares: nat, now: nat)
    ensures Scheduled(Started(shares, now)) && Outstanding(Started(shares, now)) == shares
  {
    if shares > 0 { RateCovers(shares); }
  }

  lemma AdvancedScheduled(d: PowerDown)
    requires Scheduled(d) && d.next.Some?
    ensures 0 < NextPart(d) <= Outstanding(d)
    ensures Scheduled(Advanced(d)) && Outstanding(Advanced(d)) == Outstanding(d) - NextPart(d)
  {
  }

  /** A power-down left alone for `k` due dates. */
  function Left(d: PowerDown, k: nat): PowerDown
    requires Scheduled(d)
    ensures Scheduled(Left(d, k))
    decreases k
  {
    if k == 0 || d.next.None? then d else
      AdvancedScheduled(d);
      Left(Advanced(d), k - 1)
  }

  /** What it pays out on those dates. */
  function PaidParts(d: PowerDown, k: nat): nat
    requires Scheduled(d)
    decreases k
  {
    if k == 0 || d.next.None? then 0 else
      AdvancedScheduled(d);
      NextPart(d) + PaidParts(Advanced(d), k - 1)
  }

  /** Nothing is lost: what was paid and what is outstanding always make up what was asked for. */
  lemma {:induction false} PaidAndLeft(d: PowerDown, k: nat)
    requires Scheduled(d)
    ensures PaidParts(d, k) + Outstanding(Left(d, k)) == Outstanding(d)
    decreases k
  {
    if k == 0 || d.next.None? {
    } else {
      AdvancedScheduled(d);
      PaidAndLeft(Advanced(d), k - 1);
    }
  }

  lemma {:induction false} LeftBound(d: PowerDown, k: nat)
    requires Scheduled(d) && Outstanding(d) <= d.rate * k
    ensures Left(d, k).next.None?
    decreases k
  {
    if k == 0 || d.next.None? {
    } else {
      AdvancedScheduled(d);
      OneLess(d, k);
      hide Advanced, NextPart, Outstanding, Scheduled;
      LeftBound(Advanced(d), k - 1);
    }
  }

  lemma OneLess(d: PowerDown, k: nat)
    requires d.next.Some? && NextPart(d) > 0 && k > 0 && Outstanding(d) <= d.rate * k
    ensures Outstanding(Advanced(d)) <= Advanced(d).rate * (k - 1)
  {
    var d' := Advanced(d);
    if Outstanding(d) <= NextPart(d) {
      assert d' == IDLE && 0 * (k - 1) == 0;
    } else {
      assert d'.rate == d.rate && Outstanding(d') == Outstanding(d) - d.rate;
      hide Advanced, Outstanding, NextPart;
      Distribute(k, 1, d.rate);
    }
  }

  /** Left alone, a power-down is over within the configured number of intervals, and has paid exactly what was
      asked for. */
  lemma PowerDownCompletes(shares: nat, now: nat)
    ensures Scheduled(Started(shares, now))
    ensures Left(Started(shares, now), INTERVALS) == IDLE
    ensures PaidParts(Started(shares, now), INTERVALS) == shares
  {
    StartedScheduled(shares, now);
    StartedBound(shares, now);
    hide Left, PaidParts, Started, Scheduled, Outstanding;
    LeftBound(Started(shares, now), INTERVALS);
    PaidAndLeft(Started(shares, now), INTERVALS);
    NoneLeft(Left(Started(shares, now), INTERVALS));
  }

  lemma StartedBound(shares: nat, now: nat)
    ensures Outstanding(Started(shares, now)) <= Started(shares, now).rate * INTERVALS
  {
    hide RateFor;
    if shares > 0 { RateCovers(shares); }
  }

  lemma NoneLeft(d: PowerDown)
    requires Scheduled(d) && d.next.None?
    ensures d == IDLE && Outstanding(d) == 0
  {
  }

  lemma {:induction false} LeftOneMore(d: PowerDown, k: nat)
    requires Scheduled(d) && Left(d, k).next.Some?
    ensures NextPart(Left(d, k)) >= 0 && Left(d, k + 1) == Advanced(Left(d, k))
    decreases k
  {
    AdvancedScheduled(Left(d, k));
    if k > 0 && d.next.Some? {
      AdvancedScheduled(d);
      LeftOneMore(Advanced(d), k - 1);
    }
  }

  // ---- Sums over delegations ----

  ghost function Giving(ds: Delegations, a: Name): Link -> int
  {
    l => if l in ds && l.from == a then ds[l].shares else 0
  }

  ghost function Taking(ds: Delegations, a: Name): Link -> int
  {
    l => if l in ds && l.to == a then ds[l].shares else 0
  }

  ghost function Coming(rs: Returns, a: Name): nat -> int
  {
    i => if i in rs && rs[i].from == a then rs[i].shares else 0
  }

  /** Shares an account lends out, shares lent to it, and shares on their way back to it. */
  ghost function Given(ds: Delegations, a: Name): int { Sum(ds.Keys, Giving(ds, a)) }
  ghost function Taken(ds: Delegations, a: Name): int { Sum(ds.Keys, Taking(ds, a)) }
  ghost function Returning(rs: Returns, a: Name): int { Sum(rs.Keys, Coming(rs, a)) }

  function SharesOf(ds: Delegations, l: Link): nat
  {
    if l in ds then ds[l].shares else 0
  }

  lemma DelegationSet(ds: Delegations, l: Link, d: Delegation, a: Name)
    ensures Given(ds[l := d], a) == Given(ds, a) + if l.from == a then d.shares - SharesOf(ds, l) else 0
    ensures Taken(ds[l := d], a) == Taken(ds, a) + if l.to == a then d.shares - SharesOf(ds, l) else 0
  {
    var after := ds[l := d];
    if l in ds {
      assert after.Keys == ds.Keys;
      SumChangeOne(ds.Keys, Giving(ds, a), Giving(after, a), l);
      SumChangeOne(ds.Keys, Taking(ds, a), Taking(after, a), l);
    } else {
      assert after.Keys == ds.Keys + {l};
      SumInsert(ds.Keys, Giving(after, a), l);
      SumInsert(ds.Keys, Taking(after, a), l);
      SumCongruent(ds.Keys, Giving(ds, a), Giving(after, a));
      SumCongruent(ds.Keys, Taking(ds, a), Taking(after, a));
    }
  }

  lemma DelegationRemoved(ds: Delegations, l: Link, a: Name)
    requires l in ds
    ensures Given(ds - {l}, a) == Given(ds, a) - if l.from == a then ds[l].shares else 0
    ensures Taken(ds - {l}, a) == Taken(ds, a) - if l.to == a then ds[l].shares else 0
  {
    var after := ds - {l};
    assert after.Keys == ds.Keys - {l};
    SumRemove(ds.Keys, Giving(ds, a), l);
    SumRemove(ds.Keys, Taking(ds, a), l);
    SumCongruent(after.Keys, Giving(ds, a), Giving(after, a));
    SumCongruent(after.Keys, Taking(ds, a), Taking(after, a));
  }

  lemma ReturnAdded(rs: Returns, i: nat, r: Expiring, a: Name)
    requires i !in rs
    ensures Returning(rs[i := r], a) == Returning(rs, a) + if r.from == a then r.shares else 0
  {
    var after := rs[i := r];
    assert after.Keys == rs.Keys + {i};
    SumInsert(rs.Keys, Coming(after, a), i);
    SumCongruent(rs.Keys, Coming(rs, a), Coming(after, a));
  }

  lemma ReturnRemoved(rs: Returns, i: nat, a: Name)
    requires i in rs
    ensures Returning(rs - {i}, a) == Returning(rs, a) - if rs[i].from == a then rs[i].shares else 0
  {
    var after := rs - {i};
    assert after.Keys == rs.Keys - {i};
    SumRemove(rs.Keys, Coming(rs, a), i);
    SumCongruent(after.Keys, Coming(rs, a), Coming(after, a));
  }
}
