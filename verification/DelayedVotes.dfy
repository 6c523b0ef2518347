/** Shares whose votes are delayed, kept in one bucket per day, and the passing of time. */
module DelayedVotes {
  import opened Common
  import opened Sums
  import opened ProxyForest
  import opened GovernanceState
  import Governance

  const INTERVAL: nat := 60 * 60 * 24
  const TOTAL_INTERVAL: nat := 60 * 60 * 24 * 30
  const MAX_BUCKETS: nat := 30

  datatype Bucket = Bucket(time: nat, val: nat)

  type Buckets = seq<Bucket>

  // ----- the buckets of one account

  function TotalOf(items: Buckets): nat
  {
    if items == [] then 0 else TotalOf(items[..|items| - 1]) + items[|items| - 1].val
  }

  /** No bucket is empty, and each was opened at least a day after the one before. */
  ghost predicate Bucketed(items: Buckets)
  {
    && (forall i :: 0 <= i < |items| ==> items[i].val > 0)
    && (forall i :: 0 < i < |items| ==> items[i - 1].time + INTERVAL <= items[i].time)
  }

  lemma {:induction false} TotalFront(items: Buckets)
    requires items != []
    ensures TotalOf(items) == items[0].val + TotalOf(items[1..])
    decreases |items|
  {
    if |items| > 1 {
      var init := items[..|items| - 1];
      TotalFront(init);
      assert items[1..][..|items| - 2] == init[1..];
    }
  }

  /** Buckets are as far apart as their places. */
  lemma {:induction false} SpacedOut(items: Buckets, i: nat, j: nat)
    requires Bucketed(items) && i <= j < |items|
    ensures items[i].time + 86400 * (j - i) <= items[j].time
    decreases j
  {
    if i < j { SpacedOut(items, i, j - 1); }
  }

  function Added(items: Buckets, now: nat, val: nat): Buckets
  {
    if val == 0 then items
    else if items == [] || items[|items| - 1].time + INTERVAL <= now then items + [Bucket(now, val)]
    else
      var last := items[|items| - 1];
      items[..|items| - 1] + [last.(val := last.val + val)]
  }

  /** New votes open a bucket of their own exactly if there is none that is less than a day old; otherwise they join
      the newest, which keeps its time. Older buckets do not change. */
  ghost predicate Joined(items: Buckets, after: Buckets, now: nat, val: nat)
  {
    if val == 0 then after == items
    else if items != [] && now < items[|items| - 1].time + INTERVAL then
      && |after| == |items| && after[|items| - 1] == Bucket(items[|items| - 1].time, items[|items| - 1].val + val)
      && forall i :: 0 <= i < |items| - 1 ==> after[i] == items[i]
    else
      && |after| == |items| + 1 && after[|items|] == Bucket(now, val)
      && forall i :: 0 <= i < |items| ==> after[i] == items[i]
  }

  lemma AddedJoins(items: Buckets, now: nat, val: nat)
    ensures Joined(items, Added(items, now, val), now, val)
  {
  }

  lemma AddedTotal(items: Buckets, now: nat, val: nat)
    requires Bucketed(items)
    ensures Bucketed(Added(items, now, val)) && TotalOf(Added(items, now, val)) == TotalOf(items) + val
  {
    var after := Added(items, now, val);
    if val > 0 { assert after[..|after| - 1] == if |after| > |items| then items else items[..|items| - 1]; }
  }

  /** The newest votes go first. */
  function Erased(items: Buckets, count: nat): Buckets
  {
    if count == 0 || items == [] then items else
      var init, last := items[..|items| - 1], items[|items| - 1];
      if last.val <= count then Erased(init, count - last.val) else init + [last.(val := last.val - count)]
  }

  lemma {:induction false} ErasedTotal(items: Buckets, count: nat)
    requires Bucketed(items) && count <= TotalOf(items)
    ensures Bucketed(Erased(items, count)) && TotalOf(Erased(items, count)) == TotalOf(items) - count
    decreases |items|
  {
    if count > 0 {
      var init, last := items[..|items| - 1], items[|items| - 1];
      if last.val <= count {
        ErasedTotal(init, count - last.val);
      } else {
        assert Erased(items, count)[..|items| - 1] == init;
      }
    }
  }

  /** What is left starts with the oldest buckets, untouched but for the last of them. */
  lemma {:induction false} ErasedKeepsOldest(items: Buckets, count: nat)
    ensures var after := Erased(items, count);
      && |after| <= |items|
      && (forall i :: 0 <= i < |after| ==> after[i].time == items[i].time && after[i].val <= items[i].val)
      && (forall i :: 0 <= i < |after| - 1 ==> after[i] == items[i])
    decreases |items|
  {
    if count > 0 && items != [] && items[|items| - 1].val <= count {
      ErasedKeepsOldest(items[..|items| - 1], count - items[|items| - 1].val);
    }
  }

  lemma {:induction false} ErasedAll(items: Buckets)
    requires Bucketed(items)
    ensures Erased(items, TotalOf(items)) == []
    decreases |items|
  {
    if items != [] { ErasedAll(items[..|items| - 1]); }
  }

  lemma ErasedNone(items: Buckets)
    ensures Erased(items, 0) == items
  {
  }

  lemma ErasedStep(items: Buckets, count: nat)
    requires Bucketed(items) && count < TotalOf(items)
    ensures items != []
    ensures var init, last := items[..|items| - 1], items[|items| - 1];
      if last.val <= count then
        Bucketed(init) && count - last.val < TotalOf(init) && Erased(items, count) == Erased(init, count - last.val)
      else Erased(items, count) == init + [last.(val := last.val - count)]
  {
    if count == 0 { assert items == items[..|items| - 1] + [items[|items| - 1]]; }
  }

  /** Votes that arrive join the newest bucket, or open one if that is a day old. */
  method Add(items: Buckets, sum: nat, now: nat, val: nat) returns (ok: bool, after: Buckets, total: nat)
    requires Bucketed(items) && sum == TotalOf(items)
    ensures ok <==> val == 0 || items == [] || items[|items| - 1].time <= now
    ensures Bucketed(after) && total == TotalOf(after) == if ok then sum + val else sum
    ensures after == if ok then Added(items, now, val) else items
    ensures ok ==> Joined(items, after, now, val)
  {
    hide Bucketed, Joined;
    AddedJoins(items, now, val);
    ok, after, total := true, items, sum;
    if val == 0 {
      return;
    }
    AddedTotal(items, now, val);
    if items == [] {
      return true, [Bucket(now, val)], sum + val;
    }
    var last := items[|items| - 1];
    if now < last.time {
      return false, items, sum;
    }
    total := sum + val;
    if last.time + INTERVAL <= now {
      after := items + [Bucket(now, val)];
    } else {
      after := items[..|items| - 1] + [last.(val := last.val + val)];
    }
  }

  /** The oldest bucket goes; the cached sum is never too small for it. */
  method EraseFront(items: Buckets, sum: nat) returns (ok: bool, after: Buckets, total: nat)
    requires Bucketed(items) && sum == TotalOf(items)
    ensures ok && Bucketed(after) && total == TotalOf(after)
    ensures after == if items == [] then [] else items[1..]
    ensures items != [] ==> total == sum - items[0].val
  {
    ok, after, total := true, items, sum;
    if items != [] {
      TotalFront(items);
      ok := items[0].val <= sum;
      after, total := items[1..], sum - items[0].val;
    } else {
      ok := sum == 0;
    }
  }

  /** Votes go from the newest bucket on. Unless all of them go, the loop ends before the buckets do. */
  method Erase(items: Buckets, sum: nat, count: nat) returns (ok: bool, after: Buckets, total: nat)
    requires Bucketed(items) && sum == TotalOf(items)
    ensures ok <==> count <= sum
    ensures Bucketed(after) && total == TotalOf(after) == if ok then sum - count else sum
    ensures after == if ok then Erased(items, count) else items
  {
    hide Bucketed, Erased, TotalOf;
    ok, after, total := true, items, sum;
    ErasedNone(items);
    if count == 0 {
      return;
    }
    if count > sum {
      return false, items, sum;
    }
    ErasedTotal(items, count);
    if sum == count {
      ErasedAll(items);
      return true, [], 0;
    }
    total := sum - count;
    var left: nat := count;
    while true
      invariant Bucketed(after) && left < TotalOf(after) && Erased(after, left) == Erased(items, count)
      decreases |after|
    {
      ErasedStep(after, left);
      var last := after[|after| - 1];
      if left >= last.val {
        left, after := left - last.val, after[..|after| - 1];
      } else {
        after := after[..|after| - 1] + [last.(val := last.val - left)];
        break;
      }
    }
  }

  // ----- all accounts

  /** The buckets without those whose time has come. */
  function Unripe(items: Buckets, now: nat): Buckets
  {
    if items == [] || now < items[0].time + TOTAL_INTERVAL then items else Unripe(items[1..], now)
  }

  /** They are the youngest ones, and exactly those not yet due. */
  lemma {:induction false} UnripeExact(items: Buckets, now: nat) returns (k: nat)
    requires Bucketed(items)
    ensures k <= |items| && Unripe(items, now) == items[k..]
    ensures forall i :: 0 <= i < |items| ==> (i < k <==> items[i].time + TOTAL_INTERVAL <= now)
    decreases |items|
  {
    if items == [] || now < items[0].time + TOTAL_INTERVAL {
      k := 0;
      forall i | 0 <= i < |items| ensures now < items[i].time + TOTAL_INTERVAL { SpacedOut(items, 0, i); }
    } else {
      var rest := UnripeExact(items[1..], now);
      k := rest + 1;
      forall i | 1 <= i < |items| ensures i < k <==> items[i].time + TOTAL_INTERVAL <= now {
        assert items[i] == items[1..][i - 1];
      }
    }
  }

  /** So there are never more than thirty of them. */
  lemma UnripeFew(items: Buckets, now: nat)
    requires Bucketed(items) && (items != [] ==> items[|items| - 1].time <= now)
    ensures |Unripe(items, now)| <= MAX_BUCKETS
  {
    var k := UnripeExact(items, now);
    if k < |items| { SpacedOut(items, k, |items| - 1); }
  }

  type AllBuckets = map<AccountId, Buckets>

  /** Every account's buckets add up to the sum it keeps. */
  ghost predicate Backed(buckets: AllBuckets, accounts: Accounts)
  {
    && buckets.Keys == accounts.Keys
    && forall a :: a in buckets ==> Bucketed(buckets[a]) && TotalOf(buckets[a]) == accounts[a].delayed
  }

  /** Nothing but delayed votes, and the vote caches, has changed. */
  ghost predicate OnlyMatured(before: Accounts, after: Accounts)
  {
    && after.Keys == before.Keys
    && forall x :: x in before ==> after[x] == before[x].(delayed := after[x].delayed, proxied := after[x].proxied)
  }

  ghost function Lengths(buckets: AllBuckets): AccountId -> int
  {
    a => if a in buckets then |buckets[a]| else 0
  }

  ghost function Count(buckets: AllBuckets): int
  {
    Sum(buckets.Keys, Lengths(buckets))
  }

  /** The newest bucket is not from the future. */
  predicate Timely(items: Buckets, now: nat)
  {
    items == [] || items[|items| - 1].time <= now
  }

  class Voting {
    const chain: Governance.Database
    var buckets: AllBuckets

    ghost predicate Valid()
      reads this, chain
    {
      chain.Valid() && Backed(buckets, chain.accounts)
    }

    constructor (chain: Governance.Database)
      requires chain.Valid() && chain.accounts == map[]
      ensures Valid() && buckets == map[] && this.chain == chain
    {
      this.chain := chain;
      buckets := map[];
    }

    method CreateAccount(a: AccountId)
      requires Valid() && a !in buckets
      modifies this, chain`accounts
      ensures Valid() && buckets == old(buckets)[a := []]
    {
      hide GovernanceState.Consistent;
      chain.CreateAccount(a);
      buckets := buckets[a := []];
    }

    /** Powering up, or receiving routed shares: the new shares go into a bucket and vote only later. */
    method AddDelayed(a: AccountId, now: nat, amount: nat) returns (ok: bool)
      requires Valid() && a in buckets
      modifies this, chain`accounts, chain`totalVesting
      ensures Valid()
      ensures ok <==> amount == 0 || Timely(old(buckets)[a], now)
      ensures !ok ==> buckets == old(buckets) && chain.accounts == old(chain.accounts)
      ensures ok ==> buckets == old(buckets)[a := Added(old(buckets)[a], now, amount)]
      ensures ok ==> Joined(old(buckets)[a], buckets[a], now, amount)
      ensures ok ==> chain.accounts == old(chain.accounts)[a := old(chain.accounts)[a].(
        vesting := old(chain.accounts)[a].vesting + amount, delayed := old(chain.accounts)[a].delayed + amount)]
    {
      hide GovernanceState.Consistent, Bucketed, Added, Joined;
      var after, total;
      ok, after, total := Add(buckets[a], chain.accounts[a].delayed, now, amount);
      if ok {
        chain.AddDelayedVesting(a, amount);
        buckets := buckets[a := after];
      }
    }

    /** Shares leave an account: delayed votes go first, the newest of them before the others. */
    method Remove(a: AccountId, amount: nat)
      requires Valid() && a in buckets && amount <= chain.accounts[a].vesting
      modifies this, chain`accounts, chain`witnesses, chain`totalVesting
      ensures Valid() && chain.totalVesting == old(chain.totalVesting) - amount
      ensures var delayed := TotalOf(old(buckets)[a]);
        buckets == old(buckets)[a := if amount >= delayed then [] else Erased(old(buckets)[a], amount)]
    {
      hide GovernanceState.Consistent, Bucketed, Erased;
      var delayed := chain.accounts[a].delayed;
      var count := if amount >= delayed then delayed else amount;
      ghost var before, accounts := buckets, chain.accounts;
      ErasedAll(buckets[a]);
      var ok, after, total := Erase(buckets[a], delayed, count);
      chain.RemoveVesting(a, amount);
      buckets := buckets[a := after];
      forall x | x in buckets ensures Bucketed(buckets[x]) && TotalOf(buckets[x]) == chain.accounts[x].delayed {
        assert x in before && x in accounts;
      }
    }

    /** Exactly the buckets whose time has come start to vote, oldest first; no account is left with more than
        thirty. */
    method Run(now: nat)
      requires Valid()
      modifies this, chain`accounts, chain`witnesses, chain`totalVesting
      ensures
        && Valid() && chain.totalVesting == old(chain.totalVesting) && OnlyMatured(old(chain.accounts), chain.accounts)
      ensures buckets.Keys == old(buckets).Keys
      ensures forall a :: a in buckets ==> buckets[a] == Unripe(old(buckets)[a], now)
      ensures forall a :: a in buckets && Timely(old(buckets)[a], now) ==> |buckets[a]| <= MAX_BUCKETS
    {
      hide GovernanceState.Consistent, Unripe, Count, OnlyMatured, Ripening, Bucketed, TotalOf, SameButSlots;
      ghost var first := buckets;
      NothingMatured(chain.accounts, buckets, now);
      while true
        invariant Valid() && chain.totalVesting == old(chain.totalVesting)
        invariant OnlyMatured(old(chain.accounts), chain.accounts) && Ripening(first, buckets, now)
        decreases Count(buckets)
      {
        var dates := map a | a in buckets && buckets[a] != [] :: buckets[a][0].time + TOTAL_INTERVAL;
        var due := Governance.EarliestDue(dates, now);
        if due.None? {
          forall a | a in buckets && buckets[a] != [] ensures now < buckets[a][0].time + TOTAL_INTERVAL {
            assert a in dates;
          }
          AllRipe(first, buckets, now);
          break;
        }
        var a := due.value;
        ghost var before, accounts := buckets, chain.accounts;
        var val := buckets[a][0].val;
        OneRipe(first, buckets, a, now);
        var ok, after, total := EraseFront(buckets[a], chain.accounts[a].delayed);
        chain.MatureDelayedVotes(a, val);
        buckets := buckets[a := after];
        MaturedOne(old(chain.accounts), accounts, chain.accounts, before, a, val);
      }
      forall a | a in buckets && Timely(old(buckets)[a], now) ensures |buckets[a]| <= MAX_BUCKETS {
        UnripeFew(old(buckets)[a], now);
      }
    }

    /** The check on the buckets always passes. */
    method ValidateBuckets() returns (ok: bool)
      requires Valid()
      ensures ok
    {
      hide GovernanceState.Consistent;
      ok := forall a :: a in buckets ==> TotalOf(buckets[a]) == chain.accounts[a].delayed;
    }
  }

  /** The same buckets will be left in the end. */
  ghost predicate Ripening(first: AllBuckets, buckets: AllBuckets, now: nat)
  {
    buckets.Keys == first.Keys && forall a :: a in buckets ==> Unripe(buckets[a], now) == Unripe(first[a], now)
  }

  lemma NothingMatured(accounts: Accounts, buckets: AllBuckets, now: nat)
    ensures OnlyMatured(accounts, accounts) && Ripening(buckets, buckets, now)
  {
  }

  lemma AllRipe(first: AllBuckets, buckets: AllBuckets, now: nat)
    requires Ripening(first, buckets, now)
    requires forall a :: a in buckets && buckets[a] != [] ==> now < buckets[a][0].time + TOTAL_INTERVAL
    ensures buckets.Keys == first.Keys && forall a :: a in buckets ==> buckets[a] == Unripe(first[a], now)
  {
    forall a | a in buckets ensures Unripe(buckets[a], now) == buckets[a] { }
  }

  lemma OneRipe(first: AllBuckets, buckets: AllBuckets, a: AccountId, now: nat)
    requires Ripening(first, buckets, now)
    requires a in buckets && buckets[a] != [] && buckets[a][0].time + TOTAL_INTERVAL <= now
    ensures Ripening(first, buckets[a := buckets[a][1..]], now)
    ensures 0 <= Count(buckets[a := buckets[a][1..]]) < Count(buckets)
  {
    var after := buckets[a := buckets[a][1..]];
    assert Unripe(buckets[a][1..], now) == Unripe(buckets[a], now);
    hide Unripe;
    assert after.Keys == buckets.Keys;
    SumChangeOne(buckets.Keys, Lengths(buckets), Lengths(after), a);
    forall x | x in buckets.Keys ensures 0 <= Lengths(after)(x) { }
    SumNonNegative(after.Keys, Lengths(after));
  }

  lemma MaturedOne(first: Accounts, before: Accounts, after: Accounts, buckets: AllBuckets, a: AccountId, val: nat)
    requires OnlyMatured(first, before) && a in before && Backed(buckets, before)
    requires buckets[a] != [] && buckets[a][0].val == val
    requires SameButSlots(before[a := before[a].(delayed := before[a].delayed - val)], after)
    ensures OnlyMatured(first, after) && Backed(buckets[a := buckets[a][1..]], after)
  {
    MaturedOnly(first, before, after, a, before[a].delayed - val);
    MaturedBacked(before, after, buckets, a, val);
  }

  lemma MaturedOnly(first: Accounts, before: Accounts, after: Accounts, a: AccountId, delayed: int)
    requires OnlyMatured(first, before) && a in before
    requires SameButSlots(before[a := before[a].(delayed := delayed)], after)
    ensures OnlyMatured(first, after)
  {
    var matured := before[a := before[a].(delayed := delayed)];
    assert matured.Keys == before.Keys;
    forall x | x in first
      ensures x in after && after[x] == first[x].(delayed := after[x].delayed, proxied := after[x].proxied)
    {
      assert x in before && x in matured;
    }
  }

  lemma MaturedBacked(before: Accounts, after: Accounts, buckets: AllBuckets, a: AccountId, val: nat)
    requires a in before && Backed(buckets, before) && buckets[a] != [] && buckets[a][0].val == val
    requires SameButSlots(before[a := before[a].(delayed := before[a].delayed - val)], after)
    ensures Backed(buckets[a := buckets[a][1..]], after)
  {
    TotalFront(buckets[a]);
    assert Bucketed(buckets[a][1..]);
    hide TotalOf, Bucketed;
    var matured := before[a := before[a].(delayed := before[a].delayed - val)];
    assert after.Keys == before.Keys;
    forall x | x in before ensures after[x].delayed == matured[x].delayed { }
  }
}
