/** Witness votes and proxies of the chain state: accounts cache the stake proxied
    to them by distance, witnesses cache their votes, and every operation that
    touches stake, proxies or vote records updates the caches by signed deltas. */
module GovernanceState {
  import opened Common
  import opened Sums
  import opened ProxyForest
  import opened VoteTally

  /** `expiry` is absent when no governance vote is due to expire. */
  datatype Account = Account(
    vesting: int,
    delayed: int,
    proxy: Option<AccountId>,
    proxied: seq<int>,
    canVote: bool,
    votedFor: nat,
    expiry: Option<nat>)

  type Accounts = map<AccountId, Account>

  function DirectPower(a: Account): int
  {
    a.vesting - a.delayed
  }

  function SlotTotal(s: seq<int>, n: nat): int
    requires n <= |s|
  {
    if n == 0 then 0 else SlotTotal(s, n - 1) + s[n - 1]
  }

  function GovernancePower(a: Account): int
  {
    DirectPower(a) + SlotTotal(a.proxied, |a.proxied|)
  }

  ghost function ProxiesOf(accounts: Accounts): Proxies
  {
    map x | x in accounts && accounts[x].proxy.Some? :: accounts[x].proxy.value
  }

  ghost function StakesOf(accounts: Accounts): Stake
  {
    map x | x in accounts :: DirectPower(accounts[x])
  }

  ghost function SlotsOf(accounts: Accounts): map<AccountId, seq<int>>
  {
    map x | x in accounts :: accounts[x].proxied
  }

  /** The accounts without their vote caches. */
  ghost function Bare(accounts: Accounts): Accounts
  {
    map x | x in accounts :: accounts[x].(proxied := [])
  }

  ghost function VestingAt(accounts: Accounts): AccountId -> int
  {
    x => if x in accounts then accounts[x].vesting else 0
  }

  ghost function VotesBy(votes: Votes, a: AccountId): Votes
  {
    set v | v in votes && v.0 == a
  }

  ghost predicate Shaped(accounts: Accounts, depth: nat)
  {
    forall x :: x in accounts ==>
      && |accounts[x].proxied| == depth
      && 0 <= accounts[x].delayed <= accounts[x].vesting
      && (accounts[x].proxy.Some? ==> accounts[x].proxy.value in accounts)
  }

  /** Slots and witness totals agree with the proxy graph `p` and the vote records. */
  ghost predicate Exact(p: Proxies, accounts: Accounts, depth: nat, votes: Votes, witnesses: map<WitnessId, int>)
  {
    && SlotsExact(p, StakesOf(accounts), depth, SlotsOf(accounts))
    && VotersUnproxied(p, StakesOf(accounts), votes)
    && (forall v :: v in votes ==> v.1 in witnesses)
    && (forall w :: w in witnesses ==> witnesses[w] == Tally(p, StakesOf(accounts), depth, votes, w))
  }

  /** Vote counters are exact and within the limit, and declined accounts hold neither
      votes nor a proxy. */
  ghost predicate CountsExact(accounts: Accounts, votes: Votes, maxVotes: nat)
  {
    forall x :: x in accounts ==>
      && accounts[x].votedFor == |VotesBy(votes, x)| <= maxVotes
      && (!accounts[x].canVote ==> accounts[x].proxy.None? && VotesBy(votes, x) == {})
  }

  /** The state every operation keeps. */
  ghost predicate Consistent(accounts: Accounts, votes: Votes, witnesses: map<WitnessId, int>, total: int, depth: nat,
      maxVotes: nat)
  {
    && Shaped(accounts, depth)
    && Acyclic(ProxiesOf(accounts))
    && Exact(ProxiesOf(accounts), accounts, depth, votes, witnesses)
    && CountsExact(accounts, votes, maxVotes)
    && total == Sum(accounts.Keys, VestingAt(accounts))
  }

  ghost function Fn(delta: seq<int>): nat -> int
  {
    (i: nat) => if i < |delta| then delta[i] else 0
  }

  /** `n` hops above `b` the chain ends. */
  ghost predicate TopAt(p: Proxies, b: AccountId, n: nat)
  {
    Up(p, b, n).Some? && Up(p, b, n).value !in p
  }

  /** Linking `a` below `b` closes no loop, and the chain above `a` is short enough. */
  ghost predicate ChainFits(p: Proxies, a: AccountId, b: AccountId, depth: nat)
  {
    exists n: nat :: TopAt(p, b, n) && (n == 0 || n + 2 <= depth) && forall j: nat :: j <= n ==> Up(p, b, j) != Some(a)
  }

  lemma FitsAcyclic(p: Proxies, a: AccountId, b: AccountId, depth: nat)
    requires Acyclic(p) && ChainFits(p, a, b, depth)
    ensures Acyclic((p - {a})[a := b])
  {
    var n: nat :| TopAt(p, b, n) && forall j: nat :: j <= n ==> Up(p, b, j) != Some(a);
    UnlinkAcyclic(p, a);
    var p0 := p - {a};
    forall j: nat ensures Up(p0, b, j) != Some(a) {
      if Up(p0, b, j) == Some(a) {
        UpWithout(p, a, b, j);
        if j > n { UpStopsAtRoot(p, b, Up(p, b, n).value, n, j); }
      }
    }
    AttachAcyclic(p0, a, b);
  }

  lemma {:induction false} UpWithout(p: Proxies, a: AccountId, x: AccountId, k: nat)
    ensures Up(p - {a}, x, k).Some? ==> Up(p, x, k) == Up(p - {a}, x, k)
    decreases k
  {
    if k > 0 && x in p && x != a {
      UpWithout(p, a, p[x], k - 1);
    }
  }

  lemma {:induction false} SlotTotalIsPrefix(p: Proxies, d: Stake, v: AccountId, s: seq<int>, n: nat)
    requires v in d && n <= |s| && forall k :: 0 <= k < |s| ==> s[k] == Level(p, d, v, k + 1)
    ensures d[v] + SlotTotal(s, n) == Power(p, d, v, n)
  {
    if n == 0 {
      LevelZero(p, d, v);
    } else {
      SlotTotalIsPrefix(p, d, v, s, n - 1);
    }
  }

  /** The power an account is read to have is the power the graph gives it. */
  lemma CachedPower(p: Proxies, accounts: Accounts, depth: nat, a: AccountId)
    requires a in accounts && SlotsExact(p, StakesOf(accounts), depth, SlotsOf(accounts))
    ensures GovernancePower(accounts[a]) == Power(p, StakesOf(accounts), a, depth)
  {
    assert a in StakesOf(accounts) && SlotsOf(accounts)[a] == accounts[a].proxied;
    SlotTotalIsPrefix(p, StakesOf(accounts), a, accounts[a].proxied, depth);
  }

  /** Total direct power never exceeds total vesting shares. */
  lemma StakeWithinVesting(accounts: Accounts, depth: nat)
    requires Shaped(accounts, depth)
    ensures NonNegative(StakesOf(accounts))
    ensures TotalStake(StakesOf(accounts)) <= Sum(accounts.Keys, VestingAt(accounts))
  {
    var d := StakesOf(accounts);
    assert d.Keys == accounts.Keys;
    forall x | x in d.Keys ensures StakeOf(d)(x) <= VestingAt(accounts)(x) { assert x in accounts; }
    SumMonotone(d.Keys, StakeOf(d), VestingAt(accounts));
  }

  lemma RevestTotal(accounts: Accounts, a: AccountId, account: Account)
    requires a in accounts
    ensures Sum(accounts.Keys, VestingAt(accounts[a := account]))
         == Sum(accounts.Keys, VestingAt(accounts)) + account.vesting - accounts[a].vesting
    ensures accounts[a := account].Keys == accounts.Keys
  {
    SumChangeOne(accounts.Keys, VestingAt(accounts), VestingAt(accounts[a := account]), a);
  }

  lemma SameVestingTotal(before: Accounts, after: Accounts)
    requires before.Keys == after.Keys && forall x :: x in before ==> before[x].vesting == after[x].vesting
    ensures Sum(after.Keys, VestingAt(after)) == Sum(before.Keys, VestingAt(before))
  {
    forall x | x in before.Keys ensures VestingAt(before)(x) == VestingAt(after)(x) { assert x in before; }
    SumCongruent(before.Keys, VestingAt(before), VestingAt(after));
  }

  /** The slots of `after` are those of `before` plus what the walk adds. */
  ghost predicate SlotsMoved(before: Accounts, after: Accounts, n: nat, p: Proxies, a: AccountId, t: nat, f: nat -> int)
  {
    && Shaped(before, n) && Shaped(after, n)
    && after.Keys == before.Keys
    && Bare(after) == Bare(before)
    && forall v, k :: v in after && 0 <= k < n ==>
         after[v].proxied[k] == before[v].proxied[k] + WalkGain(p, a, t, v, f, k)
  }

  ghost predicate TalliesMoved(before: map<WitnessId, int>, after: map<WitnessId, int>,
                               n: nat, p: Proxies, votes: Votes,
                               a: AccountId, t: nat, f: nat -> int)
    requires t <= n
  {
    && after.Keys == before.Keys
    && forall w :: w in after ==> after[w] == before[w] + TallyGain(p, votes, a, t, n, f, w)
  }

  lemma SlotsMovedStep(before: Accounts, middle: Accounts, after: Accounts, n: nat, p: Proxies, a: AccountId, t: nat,
                       f: nat -> int, slots: seq<int>)
    requires Shaped(before, n) && a in p && p == ProxiesOf(before) && p[a] in before && t < n
    requires |slots| == |before[p[a]].proxied| == n
    requires middle == before[p[a] := before[p[a]].(proxied := slots)]
    requires forall k :: 0 <= k < n ==> slots[k] == before[p[a]].proxied[k] + if t <= k then f(k - t) else 0
    requires SlotsMoved(middle, after, n, p, p[a], t + 1, f)
    ensures SlotsMoved(before, after, n, p, a, t, f)
  {
    SameBare(before, middle);
    forall v, k | v in after && 0 <= k < n
      ensures after[v].proxied[k] == before[v].proxied[k] + WalkGain(p, a, t, v, f, k)
    {
      assert WalkGain(p, a, t, v, f, k)
        == (if t <= k && p[a] == v then f(k - t) else 0) + WalkGain(p, p[a], t + 1, v, f, k);
    }
  }

  lemma SlotsMovedNone(accounts: Accounts, n: nat, p: Proxies, a: AccountId, t: nat, f: nat -> int)
    requires Shaped(accounts, n) && (a !in p || n <= t)
    ensures SlotsMoved(accounts, accounts, n, p, a, t, f)
  {
  }

  lemma RootTallyGain(p: Proxies, votes: Votes, a: AccountId, t: nat, n: nat, f: nat -> int, total: int)
    requires a !in p && t <= n && total == Prefix(f, n - t)
    ensures forall w :: TallyGain(p, votes, a, t, n, f, w) == if (a, w) in votes then total else 0
  {
  }

  /** After the walk no witness exceeds the total vesting shares. */
  ghost predicate TalliesFit(witnesses: map<WitnessId, int>, total: int, n: nat, p: Proxies, votes: Votes,
                             a: AccountId, t: nat, f: nat -> int)
    requires t <= n
  {
    forall w :: w in witnesses ==> witnesses[w] + TallyGain(p, votes, a, t, n, f, w) <= total
  }

  lemma TalliesFitStep(witnesses: map<WitnessId, int>, total: int, n: nat, p: Proxies, votes: Votes,
                       a: AccountId, t: nat, f: nat -> int)
    requires a in p && t < n && TalliesFit(witnesses, total, n, p, votes, a, t, f)
    ensures TalliesFit(witnesses, total, n, p, votes, p[a], t + 1, f)
  {
  }

  lemma TalliesMovedStep(before: map<WitnessId, int>, after: map<WitnessId, int>, n: nat, p: Proxies, votes: Votes,
                         a: AccountId, t: nat, f: nat -> int)
    requires a in p && t < n && TalliesMoved(before, after, n, p, votes, p[a], t + 1, f)
    ensures TalliesMoved(before, after, n, p, votes, a, t, f)
  {
  }

  lemma SameBare(before: Accounts, after: Accounts)
    requires before.Keys == after.Keys
    requires forall x :: x in before ==> after[x] == before[x].(proxied := after[x].proxied)
    ensures Bare(after) == Bare(before) && ProxiesOf(after) == ProxiesOf(before) && StakesOf(after) == StakesOf(before)
  {
    forall x | x in before ensures Bare(after)[x] == Bare(before)[x] { }
    forall x ensures x in ProxiesOf(after) <==> x in ProxiesOf(before) { assert x in before.Keys <==> x in after.Keys; }
    forall x | x in ProxiesOf(before) ensures ProxiesOf(after)[x] == ProxiesOf(before)[x] { assert x in before; }
    forall x | x in before ensures StakesOf(after)[x] == StakesOf(before)[x] { }
  }

  // ----- what each operation does to the caches

  lemma StakesAndSlots(accounts: Accounts)
    ensures StakesOf(accounts).Keys == SlotsOf(accounts).Keys == accounts.Keys
    ensures forall x :: x in accounts ==>
      StakesOf(accounts)[x] == DirectPower(accounts[x]) && SlotsOf(accounts)[x] == accounts[x].proxied
  {
  }

  lemma GraphClosed(accounts: Accounts, n: nat)
    requires Shaped(accounts, n)
    ensures Closed(ProxiesOf(accounts), StakesOf(accounts))
  {
  }

  /** Whatever leaves stakes and slots alone leaves the caches exact. */
  lemma ExactSame(p: Proxies, before: Accounts, after: Accounts, n: nat, votes: Votes, witnesses: map<WitnessId, int>)
    requires Exact(p, before, n, votes, witnesses)
    requires before.Keys == after.Keys
    requires forall x :: x in before ==>
      DirectPower(after[x]) == DirectPower(before[x]) && after[x].proxied == before[x].proxied
    ensures Exact(p, after, n, votes, witnesses)
  {
    assert StakesOf(after) == StakesOf(before) by {
      forall x | x in before ensures StakesOf(after)[x] == StakesOf(before)[x] { }
    }
    assert SlotsOf(after) == SlotsOf(before) by {
      forall x | x in before ensures SlotsOf(after)[x] == SlotsOf(before)[x] { }
    }
  }

  lemma AllExact(p: Proxies, accounts: Accounts, d: Stake, slots: map<AccountId, seq<int>>, n: nat, votes: Votes,
      wits: map<WitnessId, int>)
    requires d == StakesOf(accounts) && slots == SlotsOf(accounts)
    requires SlotsExact(p, d, n, slots) && VotersUnproxied(p, d, votes)
    requires forall v :: v in votes ==> v.1 in wits
    requires forall w :: w in wits ==> wits[w] == Tally(p, d, n, votes, w)
    ensures Exact(p, accounts, n, votes, wits)
  {
  }

  /** An account's own power followed by its slots, negated when it is taken away. */
  ghost function PowerBySlot(account: Account, sign: int): seq<int>
  {
    [sign * DirectPower(account)]
    + seq(|account.proxied|, i requires 0 <= i < |account.proxied| => sign * account.proxied[i])
  }

  lemma PowerBySlotIsLevel(p: Proxies, accounts: Accounts, n: nat, a: AccountId, sign: int)
    requires a in accounts && SlotsExact(p, StakesOf(accounts), n, SlotsOf(accounts))
    requires sign == 1 || sign == -1
    ensures |PowerBySlot(accounts[a], sign)| == n + 1
    ensures forall i: nat :: i <= n ==>
      Fn(PowerBySlot(accounts[a], sign))(i) == sign * Level(p, StakesOf(accounts), a, i)
  {
    StakesAndSlots(accounts);
    var d := StakesOf(accounts);
    assert a in d && SlotsOf(accounts)[a] == accounts[a].proxied;
    LevelZero(p, d, a);
    forall i: nat | i <= n
      ensures Fn(PowerBySlot(accounts[a], sign))(i) == sign * Level(p, d, a, i)
    {
      if i > 0 { assert accounts[a].proxied[i - 1] == Level(p, d, a, i); }
    }
  }

  /** Slots after a walk, when the walk adds what the change of graph or stake adds. */
  lemma MovedSlotsExact(p: Proxies, d: Stake, q: Proxies, e: Stake, before: Accounts, after: Accounts, n: nat,
                        walked: Proxies, a: AccountId, f: nat -> int)
    requires SlotsExact(p, d, n, SlotsOf(before)) && before.Keys == d.Keys == e.Keys
    requires SlotsMoved(before, after, n, walked, a, 0, f)
    requires forall v, k: nat :: v in d && k < n ==>
      Level(q, e, v, k + 1) == Level(p, d, v, k + 1) + WalkGain(walked, a, 0, v, f, k)
    ensures SlotsExact(q, e, n, SlotsOf(after))
  {
    StakesAndSlots(before);
    StakesAndSlots(after);
    var slots := SlotsOf(after);
    forall v | v in e
      ensures v in slots && |slots[v]| == n && forall k :: 0 <= k < n ==> slots[v][k] == Level(q, e, v, k + 1)
    {
      assert v in before && SlotsOf(before)[v] == before[v].proxied && slots[v] == after[v].proxied;
      forall k | 0 <= k < n ensures slots[v][k] == Level(q, e, v, k + 1) {
        assert after[v].proxied[k] == before[v].proxied[k] + WalkGain(walked, a, 0, v, f, k);
        assert SlotsOf(before)[v][k] == Level(p, d, v, k + 1);
      }
    }
  }

  lemma StakesUnmoved(before: Accounts, after: Accounts, n: nat, p: Proxies, a: AccountId, t: nat, f: nat -> int)
    requires SlotsMoved(before, after, n, p, a, t, f)
    ensures StakesOf(after) == StakesOf(before) && ProxiesOf(after) == ProxiesOf(before) && after.Keys == before.Keys
    ensures forall x :: x in before ==> after[x] == before[x].(proxied := after[x].proxied)
  {
    forall x | x in before ensures after[x] == before[x].(proxied := after[x].proxied) {
      assert Bare(after)[x] == Bare(before)[x];
    }
    SameBare(before, after);
  }

  /** Taking an account's power away, its votes and its proxy with it. */
  lemma UnlinkExact(before: Accounts, after: Accounts, n: nat, votes: Votes,
                    wits: map<WitnessId, int>, wits': map<WitnessId, int>, a: AccountId, f: nat -> int)
    requires a in before && Shaped(before, n) && Acyclic(ProxiesOf(before))
    requires Exact(ProxiesOf(before), before, n, votes, wits)
    requires forall i: nat :: i <= n ==> f(i) == -Level(ProxiesOf(before), StakesOf(before), a, i)
    requires SlotsMoved(before, after, n, ProxiesOf(before), a, 0, f)
    requires TalliesMoved(wits, wits', n, ProxiesOf(before), votes, a, 0, f)
    ensures Exact(ProxiesOf(before) - {a}, after, n, VotesWithout(votes, a), wits')
  {
    var p, d := ProxiesOf(before), StakesOf(before);
    GraphClosed(before, n);
    StakesUnmoved(before, after, n, p, a, 0, f);
    forall v, k: nat | v in d && k < n
      ensures Level(p - {a}, d, v, k + 1) == Level(p, d, v, k + 1) + WalkGain(p, a, 0, v, f, k)
    {
      UnlinkSlot(p, d, a, f, v, k);
    }
    MovedSlotsExact(p, d, p - {a}, d, before, after, n, p, a, f);
    forall w | w in wits' ensures wits'[w] == Tally(p - {a}, d, n, VotesWithout(votes, a), w) {
      UnlinkTally(p, d, n, votes, a, f, w);
    }
  }

  lemma UnlinkFits(accounts: Accounts, n: nat, votes: Votes, wits: map<WitnessId, int>, a: AccountId, f: nat -> int)
    requires a in accounts && Shaped(accounts, n) && Acyclic(ProxiesOf(accounts))
    requires Exact(ProxiesOf(accounts), accounts, n, votes, wits)
    requires forall i: nat :: i <= n ==> f(i) == -Level(ProxiesOf(accounts), StakesOf(accounts), a, i)
    ensures TalliesFit(wits, Sum(accounts.Keys, VestingAt(accounts)), n, ProxiesOf(accounts), votes, a, 0, f)
  {
    var p, d := ProxiesOf(accounts), StakesOf(accounts);
    GraphClosed(accounts, n);
    StakeWithinVesting(accounts, n);
    forall w | w in wits
      ensures wits[w] + TallyGain(p, votes, a, 0, n, f, w) <= Sum(accounts.Keys, VestingAt(accounts))
    {
      UnlinkTally(p, d, n, votes, a, f, w);
      TallyBounded(p - {a}, d, n, VotesWithout(votes, a), w);
    }
  }

  /** Giving an account's power to the chain above its new proxy. */
  lemma LinkExact(p: Proxies, before: Accounts, after: Accounts, n: nat, votes: Votes,
                  wits: map<WitnessId, int>, wits': map<WitnessId, int>, a: AccountId, b: AccountId, f: nat -> int)
    requires a in before && b in before && a !in p && ProxiesOf(before) == p[a := b]
    requires Shaped(before, n) && Exact(p, before, n, votes, wits)
    requires forall v :: v in votes ==> v.0 != a
    requires forall i: nat :: i <= n ==> f(i) == Level(p, StakesOf(before), a, i)
    requires SlotsMoved(before, after, n, p[a := b], a, 0, f)
    requires TalliesMoved(wits, wits', n, p[a := b], votes, a, 0, f)
    ensures Exact(p[a := b], after, n, votes, wits')
  {
    hide SlotsExact, Tally, SlotsOf, StakesOf, ProxiesOf;
    var p1, d := p[a := b], StakesOf(before);
    GraphClosed(before, n);
    StakesAndSlots(before);
    StakesUnmoved(before, after, n, p1, a, 0, f);
    forall v, k: nat | v in d && k < n
      ensures Level(p1, d, v, k + 1) == Level(p, d, v, k + 1) + WalkGain(p1, a, 0, v, f, k)
    {
      Attach(p, d, a, b, v, k);
      WalkGainCongruent(p1, a, 0, v, Levels(p, d, a), f, k);
    }
    MovedSlotsExact(p, d, p1, d, before, after, n, p1, a, f);
    LinkVoters(p, d, votes, a, b);
    forall w | w in wits' ensures wits'[w] == Tally(p1, d, n, votes, w) {
      LinkTally(p, d, n, votes, a, b, w);
      TallyGainCongruent(p1, votes, a, 0, n, Levels(p, d, a), f, w);
    }
    AllExact(p1, after, d, SlotsOf(after), n, votes, wits');
  }

  lemma LinkVoters(p: Proxies, d: Stake, votes: Votes, a: AccountId, b: AccountId)
    requires VotersUnproxied(p, d, votes) && forall v :: v in votes ==> v.0 != a
    ensures VotersUnproxied(p[a := b], d, votes)
  {
    forall x, w | (x, w) in votes ensures x in d && x !in p[a := b] { assert (x, w).0 != a; }
  }

  lemma LinkFits(p: Proxies, accounts: Accounts, n: nat, votes: Votes, wits: map<WitnessId, int>, a: AccountId,
      b: AccountId, f: nat -> int)
    requires a in accounts && b in accounts && a !in p && ProxiesOf(accounts) == p[a := b]
    requires Shaped(accounts, n) && Exact(p, accounts, n, votes, wits)
    requires forall v :: v in votes ==> v.0 != a
    requires forall i: nat :: i <= n ==> f(i) == Level(p, StakesOf(accounts), a, i)
    ensures TalliesFit(wits, Sum(accounts.Keys, VestingAt(accounts)), n, p[a := b], votes, a, 0, f)
  {
    var p1, d := p[a := b], StakesOf(accounts);
    GraphClosed(accounts, n);
    StakeWithinVesting(accounts, n);
    LinkVoters(p, d, votes, a, b);
    forall w | w in wits
      ensures wits[w] + TallyGain(p1, votes, a, 0, n, f, w) <= Sum(accounts.Keys, VestingAt(accounts))
    {
      LinkTally(p, d, n, votes, a, b, w);
      TallyGainCongruent(p1, votes, a, 0, n, Levels(p, d, a), f, w);
      TallyBounded(p1, d, n, votes, w);
    }
  }

  /** Changing one account's direct power by `s`: the walk from it with that delta. */
  lemma RestakeExact(p: Proxies, before: Accounts, after: Accounts, final: Accounts, n: nat, votes: Votes,
                     wits: map<WitnessId, int>, wits': map<WitnessId, int>, a: AccountId, s: int)
    requires a in before && Shaped(before, n) && p == ProxiesOf(before) && Exact(p, before, n, votes, wits)
    requires SlotsMoved(before, after, n, p, a, 0, Unit(s))
    requires TalliesMoved(wits, wits', n, p, votes, a, 0, Unit(s))
    requires a in StakesOf(before) && StakesOf(final) == StakesOf(before)[a := StakesOf(before)[a] + s]
    requires SlotsOf(final) == SlotsOf(after)
    ensures Exact(p, final, n, votes, wits')
  {
    hide SlotsExact, Tally, StakesOf, SlotsOf, ProxiesOf, SlotsMoved, TalliesMoved, VotersUnproxied;
    var d := StakesOf(before);
    RestakeSlotsExact(p, before, after, n, a, s);
    GraphClosed(before, n);
    RestakeTallies(p, d, n, votes, wits, wits', a, s);
    AllExact(p, final, d[a := d[a] + s], SlotsOf(after), n, votes, wits');
  }

  lemma RestakeTallies(p: Proxies, d: Stake, n: nat, votes: Votes, wits: map<WitnessId, int>,
      wits': map<WitnessId, int>, a: AccountId, s: int)
    requires a in d && Closed(p, d) && VotersUnproxied(p, d, votes)
    requires forall v :: v in votes ==> v.1 in wits
    requires forall w :: w in wits ==> wits[w] == Tally(p, d, n, votes, w)
    requires TalliesMoved(wits, wits', n, p, votes, a, 0, Unit(s))
    ensures VotersUnproxied(p, d[a := d[a] + s], votes)
    ensures forall v :: v in votes ==> v.1 in wits'
    ensures forall w :: w in wits' ==> wits'[w] == Tally(p, d[a := d[a] + s], n, votes, w)
  {
    forall w | w in wits' ensures wits'[w] == Tally(p, d[a := d[a] + s], n, votes, w) {
      RestakeTally(p, d, n, votes, a, s, w);
    }
  }

  lemma RestakeSlotsExact(p: Proxies, before: Accounts, after: Accounts, n: nat, a: AccountId, s: int)
    requires a in before && SlotsExact(p, StakesOf(before), n, SlotsOf(before))
    requires SlotsMoved(before, after, n, p, a, 0, Unit(s))
    ensures SlotsExact(p, StakesOf(before)[a := StakesOf(before)[a] + s], n, SlotsOf(after))
  {
    var d := StakesOf(before);
    var e := d[a := d[a] + s];
    assert e.Keys == d.Keys == before.Keys;
    forall v, k: nat | v in d && k < n
      ensures Level(p, e, v, k + 1) == Level(p, d, v, k + 1) + WalkGain(p, a, 0, v, Unit(s), k)
    {
      RestakeSlot(p, d, a, s, v, k);
    }
    MovedSlotsExact(p, d, p, e, before, after, n, p, a, Unit(s));
  }

  lemma RestakeStakes(before: Accounts, after: Accounts, final: Accounts, a: AccountId, s: int)
    requires a in before && final.Keys == after.Keys == before.Keys && StakesOf(after) == StakesOf(before)
    requires forall x :: x in after ==> final[x].proxied == after[x].proxied
    requires forall x :: x in after ==> DirectPower(final[x]) == DirectPower(after[x]) + if x == a then s else 0
    ensures StakesOf(final) == StakesOf(before)[a := StakesOf(before)[a] + s] && SlotsOf(final) == SlotsOf(after)
  {
    var e := StakesOf(before)[a := StakesOf(before)[a] + s];
    forall x | x in e ensures StakesOf(final)[x] == e[x] { assert StakesOf(after)[x] == DirectPower(after[x]); }
    forall x | x in after ensures SlotsOf(final)[x] == SlotsOf(after)[x] { }
  }

  lemma RestakedStakes(accounts: Accounts, final: Accounts, a: AccountId, s: int)
    requires a in accounts && final.Keys == accounts.Keys
    requires forall x :: x in accounts ==> DirectPower(final[x]) == DirectPower(accounts[x]) + if x == a then s else 0
    ensures var d := StakesOf(accounts); a in d && StakesOf(final) == d[a := d[a] + s]
  {
    hide DirectPower;
    var e := StakesOf(accounts)[a := StakesOf(accounts)[a] + s];
    forall x | x in e ensures x in final && StakesOf(final)[x] == e[x] { assert x in accounts; }
    assert StakesOf(final).Keys == e.Keys;
  }

  lemma RestakeFitsOne(p: Proxies, d: Stake, n: nat, votes: Votes, a: AccountId, s: int, w: WitnessId)
    requires a in d && Closed(p, d) && VotersUnproxied(p, d, votes) && NonNegative(d[a := d[a] + s])
    ensures Tally(p, d, n, votes, w) + TallyGain(p, votes, a, 0, n, Unit(s), w) <= TotalStake(d[a := d[a] + s])
  {
    hide Tally, TallyGain, TotalStake;
    RestakeTally(p, d, n, votes, a, s, w);
    TallyBounded(p, d[a := d[a] + s], n, votes, w);
  }

  lemma RestakeFits(p: Proxies, accounts: Accounts, final: Accounts, n: nat, votes: Votes, wits: map<WitnessId, int>,
      a: AccountId, s: int, total: int)
    requires a in accounts && Shaped(accounts, n) && p == ProxiesOf(accounts) && Exact(p, accounts, n, votes, wits)
    requires Shaped(final, n) && final.Keys == accounts.Keys
    requires forall x :: x in accounts ==> DirectPower(final[x]) == DirectPower(accounts[x]) + if x == a then s else 0
    requires Sum(final.Keys, VestingAt(final)) <= total
    ensures TalliesFit(wits, total, n, p, votes, a, 0, Unit(s))
  {
    hide StakesOf, ProxiesOf, VestingAt, Tally, Shaped, SlotsExact, SlotsOf, VotersUnproxied, TotalStake;
    GraphClosed(accounts, n);
    StakeWithinVesting(final, n);
    RestakedStakes(accounts, final, a, s);
    forall w | w in wits ensures wits[w] + TallyGain(p, votes, a, 0, n, Unit(s), w) <= total {
      RestakeFitsOne(p, StakesOf(accounts), n, votes, a, s, w);
    }
  }

  lemma CastVotePower(p: Proxies, accounts: Accounts, n: nat, votes: Votes, a: AccountId, w: WitnessId, w': WitnessId)
    requires a in accounts && (a, w) !in votes && SlotsExact(p, StakesOf(accounts), n, SlotsOf(accounts))
    ensures Tally(p, StakesOf(accounts), n, votes + {(a, w)}, w')
         == Tally(p, StakesOf(accounts), n, votes, w') + if w' == w then GovernancePower(accounts[a]) else 0
  {
    CachedPower(p, accounts, n, a);
    CastVoteTally(p, StakesOf(accounts), n, votes, a, w, w');
  }

  /** One more vote record of `a` for `w` ... */
  lemma VoteAdded(p: Proxies, accounts: Accounts, n: nat, votes: Votes, wits: map<WitnessId, int>, a: AccountId,
      w: WitnessId)
    requires a in accounts && a !in p && w in wits && (a, w) !in votes
    requires Exact(p, accounts, n, votes, wits)
    ensures Exact(p, accounts, n, votes + {(a, w)}, wits[w := wits[w] + GovernancePower(accounts[a])])
  {
    hide SlotsExact, Tally, GovernancePower;
    StakesAndSlots(accounts);
    forall x | x in wits
      ensures wits[w := wits[w] + GovernancePower(accounts[a])][x]
           == Tally(p, StakesOf(accounts), n, votes + {(a, w)}, x)
    {
      CastVotePower(p, accounts, n, votes, a, w, x);
    }
    AllExact(p, accounts, StakesOf(accounts), SlotsOf(accounts), n, votes + {(a, w)},
        wits[w := wits[w] + GovernancePower(accounts[a])]);
  }

  /** ... and one less. */
  lemma VoteRemoved(p: Proxies, accounts: Accounts, n: nat, votes: Votes, wits: map<WitnessId, int>, a: AccountId,
      w: WitnessId)
    requires a in accounts && w in wits && (a, w) in votes
    requires Exact(p, accounts, n, votes, wits)
    ensures Exact(p, accounts, n, votes - {(a, w)}, wits[w := wits[w] - GovernancePower(accounts[a])])
  {
    hide SlotsExact, Tally, GovernancePower;
    var rest := votes - {(a, w)};
    assert rest + {(a, w)} == votes;
    forall x | x in wits
      ensures wits[w := wits[w] - GovernancePower(accounts[a])][x] == Tally(p, StakesOf(accounts), n, rest, x)
    {
      CastVotePower(p, accounts, n, rest, a, w, x);
    }
    AllExact(p, accounts, StakesOf(accounts), SlotsOf(accounts), n, rest,
        wits[w := wits[w] - GovernancePower(accounts[a])]);
  }

  lemma VotesByInsert(votes: Votes, a: AccountId, w: WitnessId, x: AccountId)
    requires (a, w) !in votes
    ensures |VotesBy(votes + {(a, w)}, x)| == |VotesBy(votes, x)| + if x == a then 1 else 0
  {
    if x == a {
      assert VotesBy(votes + {(a, w)}, a) == VotesBy(votes, a) + {(a, w)};
    } else {
      assert VotesBy(votes + {(a, w)}, x) == VotesBy(votes, x);
    }
  }

  lemma VotesByWithout(votes: Votes, a: AccountId, x: AccountId)
    ensures VotesBy(VotesWithout(votes, a), x) == if x == a then {} else VotesBy(votes, x)
  {
  }

  /** Only cached slots differ. */
  ghost predicate SameButSlots(before: Accounts, after: Accounts)
  {
    && after.Keys == before.Keys
    && forall x :: x in before ==> after[x] == before[x].(proxied := after[x].proxied)
  }

  lemma SameFields(before: Accounts, after: Accounts, x: AccountId)
    requires SameButSlots(before, after) && x in before
    ensures x in after && after[x].proxy == before[x].proxy && after[x].expiry == before[x].expiry
  {
  }

  ghost function Cleared(account: Account): Account
  {
    account.(proxy := None, votedFor := 0)
  }

  lemma ClearedGraph(before: Accounts, after: Accounts, a: AccountId, account: Account)
    requires a in before && SameButSlots(before[a := account], after)
    ensures ProxiesOf(after)
         == if account.proxy.Some? then ProxiesOf(before)[a := account.proxy.value] else ProxiesOf(before) - {a}
  {
    var q := if account.proxy.Some? then ProxiesOf(before)[a := account.proxy.value] else ProxiesOf(before) - {a};
    forall x ensures x in ProxiesOf(after) <==> x in q { assert x in before[a := account] <==> x in after; }
    forall x | x in q ensures ProxiesOf(after)[x] == q[x] { assert x in before[a := account]; }
  }

  lemma ClearedCounts(before: Accounts, after: Accounts, votes: Votes, maxVotes: nat, a: AccountId, account: Account)
    requires a in before && CountsExact(before, votes, maxVotes)
    requires account.votedFor == 0 && (!account.canVote ==> account.proxy.None?)
    requires SameButSlots(before[a := account], after)
    ensures CountsExact(after, VotesWithout(votes, a), maxVotes)
  {
    forall x | x in after
      ensures after[x].votedFor == |VotesBy(VotesWithout(votes, a), x)| <= maxVotes
      ensures !after[x].canVote ==> after[x].proxy.None? && VotesBy(VotesWithout(votes, a), x) == {}
    {
      VotesByWithout(votes, a, x);
      assert x in before[a := account];
      assert x in before;
    }
  }

  lemma DropConsistent(before: Accounts, nullified: Accounts, after: Accounts, votes: Votes,
                       wits: map<WitnessId, int>, wits': map<WitnessId, int>, total: int, depth: nat, maxVotes: nat,
                       a: AccountId, account: Account)
    requires a in before && Consistent(before, votes, wits, total, depth, maxVotes)
    requires account.vesting == before[a].vesting && account.delayed == before[a].delayed
    requires account.proxy.None? && account.votedFor == 0 && |account.proxied| == depth
    requires SameButSlots(before, nullified) && Shaped(nullified, depth)
    requires Exact(ProxiesOf(before) - {a}, nullified, depth, VotesWithout(votes, a), wits')
    requires after == nullified[a := account.(proxied := nullified[a].proxied)]
    ensures SameButSlots(before[a := account], after)
    ensures Consistent(after, VotesWithout(votes, a), wits', total, depth, maxVotes)
  {
    hide Exact, CountsExact, Acyclic, VestingAt, StakesOf, SlotsOf;
    ClearedGraph(before, after, a, account);
    UnlinkAcyclic(ProxiesOf(before), a);
    ClearedCounts(before, after, votes, maxVotes, a, account);
    ExactSame(ProxiesOf(before) - {a}, nullified, after, depth, VotesWithout(votes, a), wits');
    SameVestingTotal(before, after);
    Whole(after, ProxiesOf(before) - {a}, VotesWithout(votes, a), wits', total, depth, maxVotes);
  }

  // ----- the loop check

  /** A chain whose first `n` hops end at an account with a proxy has its top above. */
  lemma TopIsAbove(p: Proxies, b: AccountId, n: nat, top: nat)
    requires Up(p, b, n).Some? && Up(p, b, n).value in p && TopAt(p, b, top)
    ensures n < top
  {
    if top <= n {
      if top < n { UpStopsAtRoot(p, b, Up(p, b, top).value, top, n); }
    }
  }

  lemma UpOneMore(p: Proxies, b: AccountId, n: nat)
    requires Up(p, b, n).Some? && Up(p, b, n).value in p
    ensures Up(p, b, n + 1) == Some(p[Up(p, b, n).value])
  {
    var c := Up(p, b, n).value;
    UpCompose(p, b, n, 1);
    assert Up(p, p[c], 0) == Some(p[c]);
  }

  /** In an acyclic graph a chain never returns to an account it has passed. */
  lemma ChainAllNew(p: Proxies, b: AccountId, i: nat, j: nat)
    requires Acyclic(p) && i < j && Up(p, b, j).Some?
    ensures Up(p, b, i) != Up(p, b, j)
  {
    UpCompose(p, b, i, j - i);
  }

  lemma NewProxyAcyclic(p: Proxies, a: AccountId, b: AccountId, depth: nat)
    requires Acyclic(p) && ChainFits(p, a, b, depth)
    ensures Acyclic(p[a := b])
  {
    FitsAcyclic(p, a, b, depth);
    assert (p - {a})[a := b] == p[a := b];
  }

  lemma ProxyConsistent(before: Accounts, linked: Accounts, after: Accounts, votes: Votes,
                        wits: map<WitnessId, int>, wits': map<WitnessId, int>,
                        total: int, depth: nat, maxVotes: nat, a: AccountId, account: Account)
    requires a in before && Consistent(before, votes, wits, total, depth, maxVotes)
    requires account.proxy.Some? && account.votedFor == 0 && account.canVote && account.vesting == before[a].vesting
    requires ChainFits(ProxiesOf(before), a, account.proxy.value, depth)
    requires SameButSlots(before[a := account], linked) && SameButSlots(linked, after) && Shaped(after, depth)
    requires Exact(ProxiesOf(before)[a := account.proxy.value], after, depth, VotesWithout(votes, a), wits')
    ensures SameButSlots(before[a := account], after)
    ensures Consistent(after, VotesWithout(votes, a), wits', total, depth, maxVotes)
  {
    hide Exact, CountsExact, Acyclic, VestingAt, ChainFits;
    ClearedGraph(before, after, a, account);
    NewProxyAcyclic(ProxiesOf(before), a, account.proxy.value, depth);
    ClearedCounts(before, after, votes, maxVotes, a, account);
    SameVestingTotal(before, after);
    Whole(after, ProxiesOf(before)[a := account.proxy.value], VotesWithout(votes, a), wits', total, depth, maxVotes);
  }

  /** The state between clearing the old proxy's caches and filling the new one's. */
  lemma LinkPrepared(before: Accounts, nullified: Accounts, linked: Accounts, votes: Votes, wits: map<WitnessId, int>,
                     total: int, depth: nat, a: AccountId, account: Account)
    requires a in before && Shaped(before, depth) && SameButSlots(before, nullified) && Shaped(nullified, depth)
    requires account.proxy.Some? && account.proxy.value in before && |account.proxied| == depth
    requires account.vesting == before[a].vesting && account.delayed == before[a].delayed
    requires linked == nullified[a := account.(proxied := nullified[a].proxied)]
    requires
      && Exact(ProxiesOf(before) - {a}, nullified, depth, votes, wits) && total == Sum(before.Keys, VestingAt(before))
    ensures Shaped(linked, depth) && SameButSlots(before[a := account], linked)
    ensures ProxiesOf(linked) == (ProxiesOf(before) - {a})[a := account.proxy.value]
         == ProxiesOf(before)[a := account.proxy.value]
    ensures Exact(ProxiesOf(before) - {a}, linked, depth, votes, wits) && total == Sum(linked.Keys, VestingAt(linked))
  {
    hide Exact, ProxiesOf, VestingAt;
    var p := ProxiesOf(before);
    LinkedGraph(before, nullified, linked, depth, a, account);
    assert (p - {a})[a := account.proxy.value] == p[a := account.proxy.value];
    ExactSame(p - {a}, nullified, linked, depth, votes, wits);
    SameVestingTotal(before, linked);
  }

  lemma MovedShape(before: Accounts, after: Accounts, n: nat, p: Proxies, a: AccountId, t: nat, f: nat -> int)
    requires SlotsMoved(before, after, n, p, a, t, f)
    ensures Shaped(after, n) && SameButSlots(before, after)
  {
    StakesUnmoved(before, after, n, p, a, t, f);
  }

  /** Refreshing the expiration touches no cache. */
  lemma RefreshConsistent(before: Accounts, votes: Votes, wits: map<WitnessId, int>, total: int,
                          depth: nat, maxVotes: nat,
                          a: AccountId, expiry: Option<nat>)
    requires a in before && Consistent(before, votes, wits, total, depth, maxVotes)
    ensures Consistent(before[a := before[a].(expiry := expiry)], votes, wits, total, depth, maxVotes)
    ensures ProxiesOf(before[a := before[a].(expiry := expiry)]) == ProxiesOf(before)
  {
    hide Exact, Acyclic, VestingAt, StakesOf, SlotsOf;
    var after := before[a := before[a].(expiry := expiry)];
    assert ProxiesOf(after) == ProxiesOf(before) by {
      forall x | x in ProxiesOf(before) ensures ProxiesOf(after)[x] == ProxiesOf(before)[x] { }
    }
    ExactSame(ProxiesOf(before), before, after, depth, votes, wits);
    SameVestingTotal(before, after);
    Whole(after, ProxiesOf(before), votes, wits, total, depth, maxVotes);
  }

  lemma ProxiedHoldsNoVotes(accounts: Accounts, votes: Votes, wits: map<WitnessId, int>, total: int, depth: nat,
      maxVotes: nat, a: AccountId)
    requires a in accounts && accounts[a].proxy.Some? && Consistent(accounts, votes, wits, total, depth, maxVotes)
    ensures VotesWithout(votes, a) == votes && accounts[a].votedFor == 0
  {
    assert a in ProxiesOf(accounts);
    assert forall x, w :: (x, w) in votes ==> x != a;
    assert VotesBy(votes, a) == {};
  }

  lemma LinkedGraph(before: Accounts, nullified: Accounts, linked: Accounts, depth: nat, a: AccountId, account: Account)
    requires a in before && Shaped(before, depth) && SameButSlots(before, nullified) && Shaped(nullified, depth)
    requires account.proxy.Some? && account.proxy.value in before
    requires account.vesting == before[a].vesting && account.delayed == before[a].delayed && |account.proxied| == depth
    requires linked == nullified[a := account.(proxied := nullified[a].proxied)]
    ensures Shaped(linked, depth) && SameButSlots(before[a := account], linked)
    ensures ProxiesOf(linked) == ProxiesOf(before)[a := account.proxy.value]
    ensures StakesOf(linked) == StakesOf(nullified)
    ensures linked.Keys == before.Keys
  {
    ClearedGraph(before, linked, a, account);
    forall x | x in linked ensures StakesOf(linked)[x] == StakesOf(nullified)[x] { assert x in before; }
  }

  lemma SameCounts(before: Accounts, after: Accounts, votes: Votes, maxVotes: nat)
    requires CountsExact(before, votes, maxVotes) && before.Keys == after.Keys
    requires forall x :: x in before ==>
      after[x].votedFor == before[x].votedFor && after[x].canVote == before[x].canVote
      && after[x].proxy == before[x].proxy
    ensures CountsExact(after, votes, maxVotes)
  {
  }

  lemma Whole(accounts: Accounts, p: Proxies, votes: Votes, wits: map<WitnessId, int>, total: int, depth: nat,
      maxVotes: nat)
    requires Shaped(accounts, depth) && p == ProxiesOf(accounts) && Acyclic(p) && Exact(p, accounts, depth, votes, wits)
    requires CountsExact(accounts, votes, maxVotes) && total == Sum(accounts.Keys, VestingAt(accounts))
    ensures Consistent(accounts, votes, wits, total, depth, maxVotes)
  {
  }

  // ----- single votes

  lemma SameGraph(before: Accounts, after: Accounts)
    requires before.Keys == after.Keys && forall x :: x in before ==> after[x].proxy == before[x].proxy
    ensures ProxiesOf(after) == ProxiesOf(before)
  {
    forall x ensures x in ProxiesOf(after) <==> x in ProxiesOf(before) { assert x in before <==> x in after; }
    forall x | x in ProxiesOf(before) ensures ProxiesOf(after)[x] == ProxiesOf(before)[x] { assert x in before; }
  }

  /** Casting a vote: one more record, one more witness voted for. */
  lemma CastConsistent(before: Accounts, votes: Votes, wits: map<WitnessId, int>, total: int, depth: nat, maxVotes: nat,
                       a: AccountId, w: WitnessId, expiry: Option<nat>)
    requires a in before && w in wits && (a, w) !in votes && Consistent(before, votes, wits, total, depth, maxVotes)
    requires before[a].proxy.None? && before[a].canVote && before[a].votedFor < maxVotes
    ensures Consistent(before[a := before[a].(expiry := expiry, votedFor := before[a].votedFor + 1)], votes + {(a, w)},
                       wits[w := wits[w] + GovernancePower(before[a])], total, depth, maxVotes)
    ensures before[a].votedFor + 1 == |VotesBy(votes + {(a, w)}, a)|
  {
    hide Exact, Acyclic, VestingAt, StakesOf, SlotsOf;
    var after := before[a := before[a].(expiry := expiry, votedFor := before[a].votedFor + 1)];
    var wits' := wits[w := wits[w] + GovernancePower(before[a])];
    SameGraph(before, after);
    VoteAdded(ProxiesOf(before), before, depth, votes, wits, a, w);
    ExactSame(ProxiesOf(before), before, after, depth, votes + {(a, w)}, wits');
    SameVestingTotal(before, after);
    forall x | x in after ensures |VotesBy(votes + {(a, w)}, x)| == |VotesBy(votes, x)| + if x == a then 1 else 0 {
      VotesByInsert(votes, a, w, x);
    }
    Whole(after, ProxiesOf(before), votes + {(a, w)}, wits', total, depth, maxVotes);
  }

  /** Withdrawing one. */
  lemma WithdrawConsistent(before: Accounts, votes: Votes, wits: map<WitnessId, int>, total: int,
                           depth: nat, maxVotes: nat,
                           a: AccountId, w: WitnessId, expiry: Option<nat>)
    requires a in before && w in wits && (a, w) in votes && Consistent(before, votes, wits, total, depth, maxVotes)
    ensures before[a].votedFor > 0
    ensures Consistent(before[a := before[a].(expiry := expiry, votedFor := before[a].votedFor - 1)], votes - {(a, w)},
                       wits[w := wits[w] - GovernancePower(before[a])], total, depth, maxVotes)
    ensures before[a].votedFor - 1 == |VotesBy(votes - {(a, w)}, a)|
  {
    hide Exact, Acyclic, VestingAt, StakesOf, SlotsOf;
    var rest := votes - {(a, w)};
    assert rest + {(a, w)} == votes;
    VotesByInsert(rest, a, w, a);
    var after := before[a := before[a].(expiry := expiry, votedFor := before[a].votedFor - 1)];
    var wits' := wits[w := wits[w] - GovernancePower(before[a])];
    SameGraph(before, after);
    VoteRemoved(ProxiesOf(before), before, depth, votes, wits, a, w);
    ExactSame(ProxiesOf(before), before, after, depth, rest, wits');
    SameVestingTotal(before, after);
    forall x | x in after ensures |VotesBy(votes, x)| == |VotesBy(rest, x)| + if x == a then 1 else 0 {
      VotesByInsert(rest, a, w, x);
    }
    Whole(after, ProxiesOf(before), rest, wits', total, depth, maxVotes);
  }

  /** No witness can exceed the total vesting shares. */
  lemma WitnessBounded(accounts: Accounts, votes: Votes, wits: map<WitnessId, int>, total: int, depth: nat,
      maxVotes: nat, w: WitnessId)
    requires w in wits && Consistent(accounts, votes, wits, total, depth, maxVotes)
    ensures wits[w] <= total
  {
    GraphClosed(accounts, depth);
    StakeWithinVesting(accounts, depth);
    TallyBounded(ProxiesOf(accounts), StakesOf(accounts), depth, votes, w);
  }

  lemma WitnessesKnown(accounts: Accounts, votes: Votes, wits: map<WitnessId, int>, total: int, depth: nat,
      maxVotes: nat)
    requires Consistent(accounts, votes, wits, total, depth, maxVotes)
    ensures forall v :: v in votes ==> v.1 in wits
  {
  }

  // ----- stake

  /** A change of vesting and delayed votes of one account, with the walk that follows it. */
  lemma RestakeConsistent(before: Accounts, walked: Accounts, after: Accounts, votes: Votes,
                          wits: map<WitnessId, int>, wits': map<WitnessId, int>, total: int, depth: nat, maxVotes: nat,
                          a: AccountId, vesting: int, delayed: int)
    requires a in before && Consistent(before, votes, wits, total, depth, maxVotes)
    requires 0 <= delayed <= vesting
    requires SlotsMoved(before, walked, depth, ProxiesOf(before), a, 0,
        Unit(vesting - delayed - DirectPower(before[a])))
    requires TalliesMoved(wits, wits', depth, ProxiesOf(before), votes, a, 0,
        Unit(vesting - delayed - DirectPower(before[a])))
    requires after == walked[a := walked[a].(vesting := vesting, delayed := delayed)]
    ensures SameButSlots(before[a := before[a].(vesting := vesting, delayed := delayed)], after)
    ensures Consistent(after, votes, wits', total + vesting - before[a].vesting, depth, maxVotes)
  {
    hide Exact, Acyclic, VestingAt, StakesOf, SlotsOf, SlotsMoved, TalliesMoved, CountsExact, ProxiesOf;
    var s := vesting - delayed - DirectPower(before[a]);
    var p := ProxiesOf(before);
    MovedShape(before, walked, depth, p, a, 0, Unit(s));
    StakesUnmoved(before, walked, depth, p, a, 0, Unit(s));
    RestakeShape(before, walked, after, votes, depth, maxVotes, a, vesting, delayed);
    StakesAndSlots(before);
    RestakeStakes(before, walked, after, a, s);
    RestakeExact(p, before, walked, after, depth, votes, wits, wits', a, s);
    Whole(after, p, votes, wits', total + vesting - before[a].vesting, depth, maxVotes);
  }

  lemma RestakeShape(before: Accounts, walked: Accounts, after: Accounts, votes: Votes, depth: nat, maxVotes: nat,
                     a: AccountId, vesting: int, delayed: int)
    requires a in before && SameButSlots(before, walked) && Shaped(walked, depth) && 0 <= delayed <= vesting
    requires CountsExact(before, votes, maxVotes)
    requires after == walked[a := walked[a].(vesting := vesting, delayed := delayed)]
    ensures Shaped(after, depth) && CountsExact(after, votes, maxVotes) && ProxiesOf(after) == ProxiesOf(before)
    ensures SameButSlots(before[a := before[a].(vesting := vesting, delayed := delayed)], after)
    ensures Sum(after.Keys, VestingAt(after)) == Sum(before.Keys, VestingAt(before)) + vesting - before[a].vesting
  {
    hide VestingAt, CountsExact, ProxiesOf;
    var middle := before[a := before[a].(vesting := vesting, delayed := delayed)];
    forall x | x in before
      ensures after[x] == middle[x].(proxied := after[x].proxied)
      ensures
        && after[x].proxy == before[x].proxy && after[x].canVote == before[x].canVote
        && after[x].votedFor == before[x].votedFor
    {
    }
    SameGraph(before, after);
    SameCounts(before, after, votes, maxVotes);
    RevestTotal(before, a, middle[a]);
    SameVestingTotal(middle, after);
  }

  /** Vesting and delayed votes that grow together leave all power where it was. */
  lemma DelayedConsistent(before: Accounts, votes: Votes, wits: map<WitnessId, int>, total: int,
                          depth: nat, maxVotes: nat,
                          a: AccountId, amount: int)
    requires a in before && Consistent(before, votes, wits, total, depth, maxVotes)
    requires 0 <= before[a].delayed + amount
    ensures Consistent(before[a := before[a].(vesting := before[a].vesting + amount,
        delayed := before[a].delayed + amount)],
                       votes, wits, total + amount, depth, maxVotes)
  {
    hide Exact, Acyclic, VestingAt, StakesOf, SlotsOf;
    var account := before[a].(vesting := before[a].vesting + amount, delayed := before[a].delayed + amount);
    var after := before[a := account];
    SameGraph(before, after);
    ExactSame(ProxiesOf(before), before, after, depth, votes, wits);
    RevestTotal(before, a, account);
    Whole(after, ProxiesOf(before), votes, wits, total + amount, depth, maxVotes);
  }

  /** The walk that follows a change of stake leaves every witness within the total. */
  lemma RestakeWalkFits(before: Accounts, votes: Votes, wits: map<WitnessId, int>, total: int,
                        depth: nat, maxVotes: nat,
                        a: AccountId, vesting: int, delayed: int)
    requires a in before && Consistent(before, votes, wits, total, depth, maxVotes)
    requires 0 <= delayed <= vesting
    ensures TalliesFit(wits, total + vesting - before[a].vesting, depth, ProxiesOf(before), votes, a, 0,
        Unit(vesting - delayed - DirectPower(before[a])))
  {
    hide Exact, Acyclic, VestingAt, StakesOf, SlotsOf, CountsExact, ProxiesOf, TalliesFit;
    var after := before[a := before[a].(vesting := vesting, delayed := delayed)];
    RevestTotal(before, a, after[a]);
    RestakeFits(ProxiesOf(before), before, after, depth, votes, wits, a, vesting - delayed - DirectPower(before[a]),
        total + vesting - before[a].vesting);
  }

  // ----- new accounts and witnesses

  lemma NewAccountConsistent(before: Accounts, votes: Votes, wits: map<WitnessId, int>, total: int,
                             depth: nat, maxVotes: nat,
                             a: AccountId, account: Account)
    requires a !in before && Consistent(before, votes, wits, total, depth, maxVotes)
    requires account == Account(0, 0, None, seq(depth, i => 0), true, 0, None)
    ensures Consistent(before[a := account], votes, wits, total, depth, maxVotes)
  {
    hide CountsExact, Acyclic, Exact, VestingAt, ProxiesOf;
    var after := before[a := account];
    NewAccountGraph(before, after, a, account);
    NewAccountExact(before, after, votes, wits, depth, a, account);
    NewAccountCounts(before, after, votes, wits, maxVotes, depth, a, account);
    Whole(after, ProxiesOf(before), votes, wits, total, depth, maxVotes);
  }

  lemma NewAccountGraph(before: Accounts, after: Accounts, a: AccountId, account: Account)
    requires a !in before && after == before[a := account] && account.proxy.None? && account.vesting == 0
    ensures ProxiesOf(after) == ProxiesOf(before)
    ensures Sum(after.Keys, VestingAt(after)) == Sum(before.Keys, VestingAt(before))
  {
    forall x | x in ProxiesOf(before) ensures ProxiesOf(after)[x] == ProxiesOf(before)[x] { }
    SumInsert(before.Keys, VestingAt(after), a);
    assert after.Keys == before.Keys + {a};
    forall x | x in before.Keys ensures VestingAt(before)(x) == VestingAt(after)(x) { assert x in before; }
    SumCongruent(before.Keys, VestingAt(before), VestingAt(after));
  }

  lemma NewAccountExact(before: Accounts, after: Accounts, votes: Votes, wits: map<WitnessId, int>, depth: nat,
      a: AccountId, account: Account)
    requires a !in before && Shaped(before, depth) && after == before[a := account]
    requires DirectPower(account) == 0 && account.proxied == seq(depth, i => 0)
    requires Exact(ProxiesOf(before), before, depth, votes, wits)
    ensures Exact(ProxiesOf(before), after, depth, votes, wits)
  {
    var p, d := ProxiesOf(before), StakesOf(before);
    GraphClosed(before, depth);
    assert StakesOf(after) == d[a := 0] by {
      forall x | x in after ensures StakesOf(after)[x] == d[a := 0][x] { }
    }
    NewAccountSlots(before, after, depth, a, account);
    forall w | w in wits
      ensures wits[w] == Tally(p, d[a := 0], depth, votes, w)
    {
      NewAccountTally(p, d, depth, votes, a, 0, w);
    }
  }

  lemma NewAccountSlots(before: Accounts, after: Accounts, depth: nat, a: AccountId, account: Account)
    requires a !in before && Shaped(before, depth) && after == before[a := account]
    requires account.proxied == seq(depth, i => 0)
    requires SlotsExact(ProxiesOf(before), StakesOf(before), depth, SlotsOf(before))
    ensures SlotsExact(ProxiesOf(before), StakesOf(before)[a := 0], depth, SlotsOf(after))
  {
    var p, d := ProxiesOf(before), StakesOf(before);
    GraphClosed(before, depth);
    var slots := SlotsOf(after);
    forall v | v in d[a := 0]
      ensures v in slots && |slots[v]| == depth && forall k :: 0 <= k < depth ==>
        slots[v][k] == Level(p, d[a := 0], v, k + 1)
    {
      assert v in after && slots[v] == after[v].proxied;
      if v != a { assert v in before && SlotsOf(before)[v] == before[v].proxied; }
      forall k | 0 <= k < depth ensures slots[v][k] == Level(p, d[a := 0], v, k + 1) {
        NewAccountLevel(p, d, a, 0, v, k + 1);
      }
    }
  }

  lemma NewAccountCounts(before: Accounts, after: Accounts, votes: Votes, wits: map<WitnessId, int>, maxVotes: nat,
      depth: nat, a: AccountId, account: Account)
    requires a !in before && after == before[a := account] && account.votedFor == 0 && account.canVote
    requires CountsExact(before, votes, maxVotes) && Exact(ProxiesOf(before), before, depth, votes, wits)
    ensures CountsExact(after, votes, maxVotes)
  {
    assert forall x, w :: (x, w) in votes ==> x in before;
    assert VotesBy(votes, a) == {};
  }

  lemma NewWitnessConsistent(accounts: Accounts, votes: Votes, wits: map<WitnessId, int>, total: int, depth: nat,
      maxVotes: nat, w: WitnessId)
    requires w !in wits && Consistent(accounts, votes, wits, total, depth, maxVotes)
    ensures Consistent(accounts, votes, wits[w := 0], total, depth, maxVotes)
  {
    var p, d := ProxiesOf(accounts), StakesOf(accounts);
    assert forall x :: (x, w) !in votes by {
      assert forall v :: v in votes ==> v.1 != w;
    }
    SumZero(d.Keys, Share(p, d, depth, votes, w));
  }

  // ----- ending governance activity in bulk

  /** The accounts of `done` cleared, all others as they were. */
  ghost function ClearedAll(before: Accounts, done: set<AccountId>, decline: bool): Accounts
  {
    map x | x in before ::
      if x !in done then before[x]
      else if decline then Cleared(before[x]).(canVote := false)
      else Cleared(before[x]).(expiry := None)
  }

  ghost function VotesOutside(votes: Votes, done: set<AccountId>): Votes
  {
    set v | v in votes && v.0 !in done
  }

  lemma ClearedAllNone(before: Accounts, votes: Votes, decline: bool)
    ensures SameButSlots(ClearedAll(before, {}, decline), before) && VotesOutside(votes, {}) == votes
  {
  }

  lemma ClearedAllStep(before: Accounts, middle: Accounts, after: Accounts, votes: Votes, done: set<AccountId>,
      a: AccountId, decline: bool)
    requires a in before && a !in done && SameButSlots(ClearedAll(before, done, decline), middle)
    requires SameButSlots(middle[a :=
        if decline then Cleared(middle[a]).(canVote := false)
        else Cleared(middle[a]).(expiry := None)], after)
    ensures SameButSlots(ClearedAll(before, done + {a}, decline), after)
    ensures VotesWithout(VotesOutside(votes, done), a) == VotesOutside(votes, done + {a})
  {
    var target, mid := ClearedAll(before, done + {a}, decline), ClearedAll(before, done, decline);
    forall x | x in before ensures x in after && after[x] == target[x].(proxied := after[x].proxied) {
      assert x in mid && middle[x] == mid[x].(proxied := middle[x].proxied);
    }
    assert forall x :: x in after ==> x in middle && x in mid;
  }

  // ----- totals the chain checks

  function CountedAt(accounts: Accounts, depth: nat): AccountId -> int
  {
    x => if x !in accounts then 0
         else if accounts[x].proxy.None? then GovernancePower(accounts[x])
         else if 0 < depth <= |accounts[x].proxied| then accounts[x].proxied[depth - 1]
         else DirectPower(accounts[x])
  }

  function DelayedAt(accounts: Accounts): AccountId -> int
  {
    x => if x in accounts then accounts[x].delayed else 0
  }

  /** Every vesting share is counted exactly once: as a vote that can be cast, as a vote
      stuck too deep in a proxy chain, or as a delayed vote. */
  lemma VestingAccountedFor(accounts: Accounts, votes: Votes, wits: map<WitnessId, int>, total: int, depth: nat,
      maxVotes: nat)
    requires Consistent(accounts, votes, wits, total, depth, maxVotes)
    ensures total == Sum(accounts.Keys, CountedAt(accounts, depth)) + Sum(accounts.Keys, DelayedAt(accounts))
  {
    var p, d := ProxiesOf(accounts), StakesOf(accounts);
    GraphClosed(accounts, depth);
    assert d.Keys == accounts.Keys;
    forall x | x in d.Keys
      ensures Counted(p, d, depth)(x) == CountedAt(accounts, depth)(x)
    {
      CountedIsCached(accounts, depth, x);
    }
    SumCongruent(d.Keys, Counted(p, d, depth), CountedAt(accounts, depth));
    Conservation(p, d, depth);
    forall x | x in accounts.Keys
      ensures VestingAt(accounts)(x) == StakeOf(d)(x) + DelayedAt(accounts)(x)
    {
      assert x in accounts;
    }
    SumAdd(accounts.Keys, StakeOf(d), DelayedAt(accounts), VestingAt(accounts));
  }

  lemma CountedIsCached(accounts: Accounts, depth: nat, x: AccountId)
    requires
      && x in accounts && Shaped(accounts, depth)
      && SlotsExact(ProxiesOf(accounts), StakesOf(accounts), depth, SlotsOf(accounts))
    ensures Counted(ProxiesOf(accounts), StakesOf(accounts), depth)(x) == CountedAt(accounts, depth)(x)
  {
    var p, d := ProxiesOf(accounts), StakesOf(accounts);
    assert x in d && SlotsOf(accounts)[x] == accounts[x].proxied;
    if x in p {
      if depth == 0 {
        LevelZero(p, d, x);
      } else {
        assert accounts[x].proxied[depth - 1] == Level(p, d, x, depth);
      }
    } else {
      CachedPower(p, accounts, depth, x);
    }
  }

  lemma ShareIsCached(accounts: Accounts, votes: Votes, wits: map<WitnessId, int>, total: int, depth: nat,
      maxVotes: nat, x: AccountId, w: WitnessId)
    requires x in accounts && Consistent(accounts, votes, wits, total, depth, maxVotes)
    ensures var share := Share(ProxiesOf(accounts), StakesOf(accounts), depth, votes, w)(x);
      0 <= share && share == if accounts[x].proxy.None? && (x, w) in votes then GovernancePower(accounts[x]) else 0
  {
    var p, d := ProxiesOf(accounts), StakesOf(accounts);
    assert x in d && (x in p <==> accounts[x].proxy.Some?);
    CachedPower(p, accounts, depth, x);
    StakeWithinVesting(accounts, depth);
    forall i: nat | i <= depth ensures 0 <= Levels(p, d, x)(i) { LevelNonNegative(p, d, x, i); }
    PrefixNonNegative(Levels(p, d, x), depth);
  }

  /** Part of a witness's votes never exceeds the total vesting shares. */
  lemma PartialTallyBounded(accounts: Accounts, votes: Votes, wits: map<WitnessId, int>, total: int,
                            depth: nat, maxVotes: nat,
                            some: set<AccountId>, w: WitnessId)
    requires some <= accounts.Keys && w in wits && Consistent(accounts, votes, wits, total, depth, maxVotes)
    ensures Sum(some, Share(ProxiesOf(accounts), StakesOf(accounts), depth, votes, w)) <= total
  {
    var f := Share(ProxiesOf(accounts), StakesOf(accounts), depth, votes, w);
    forall x | x in accounts.Keys
      ensures 0 <= f(x)
    {
      ShareIsCached(accounts, votes, wits, total, depth, maxVotes, x, w);
    }
    SumSubset(some, accounts.Keys, f);
    assert StakesOf(accounts).Keys == accounts.Keys;
    WitnessBounded(accounts, votes, wits, total, depth, maxVotes, w);
  }

  /** Votes of the accounts of `done` only. */
  ghost predicate PartlyTallied(accounts: Accounts, votes: Votes, depth: nat, wits: map<WitnessId, int>,
      done: set<AccountId>)
  {
    forall w :: w in wits ==> wits[w] == Sum(done, Share(ProxiesOf(accounts), StakesOf(accounts), depth, votes, w))
  }

  lemma PartlyTalliedStep(accounts: Accounts, votes: Votes, exact: map<WitnessId, int>, total: int,
                          depth: nat, maxVotes: nat,
                          wits: map<WitnessId, int>, done: set<AccountId>, x: AccountId)
    requires Consistent(accounts, votes, exact, total, depth, maxVotes) && wits.Keys == exact.Keys
    requires PartlyTallied(accounts, votes, depth, wits, done) && x in accounts && x !in done && done <= accounts.Keys
    ensures forall w :: w in wits && accounts[x].proxy.None? && (x, w) in votes ==>
      wits[w] + GovernancePower(accounts[x]) <= total
    ensures PartlyTallied(accounts, votes, depth,
      map w | w in wits :: wits[w] +
        if accounts[x].proxy.None? && (x, w) in votes then GovernancePower(accounts[x]) else 0, done + {x})
  {
    hide Consistent, Share;
    forall w | w in wits
      ensures var f := Share(ProxiesOf(accounts), StakesOf(accounts), depth, votes, w);
        Sum(done + {x}, f)
          == wits[w] + (if accounts[x].proxy.None? && (x, w) in votes then GovernancePower(accounts[x]) else 0)
        && Sum(done + {x}, f) <= total
    {
      ShareIsCached(accounts, votes, exact, total, depth, maxVotes, x, w);
      SumInsert(done, Share(ProxiesOf(accounts), StakesOf(accounts), depth, votes, w), x);
      PartialTallyBounded(accounts, votes, exact, total, depth, maxVotes, done + {x}, w);
    }
  }

  lemma FullyTallied(accounts: Accounts, votes: Votes, exact: map<WitnessId, int>, total: int, depth: nat,
      maxVotes: nat, wits: map<WitnessId, int>)
    requires Consistent(accounts, votes, exact, total, depth, maxVotes) && wits.Keys == exact.Keys
    requires PartlyTallied(accounts, votes, depth, wits, accounts.Keys)
    ensures wits == exact
  {
    assert StakesOf(accounts).Keys == accounts.Keys;
    forall w | w in wits ensures wits[w] == exact[w] { assert w in exact; }
  }

  lemma NothingTallied(accounts: Accounts, votes: Votes, depth: nat, wits: map<WitnessId, int>)
    requires forall w :: w in wits ==> wits[w] == 0
    ensures PartlyTallied(accounts, votes, depth, wits, {})
  {
  }
}
