/** The chain database's governance operations over that state. */
module Governance {
  import opened Common
  import opened Sums
  import opened ProxyForest
  import opened VoteTally
  import opened GovernanceState

  /** Adds `delta[i]` to slot `i + t`, for every slot there is. */
  method AddShifted(slots: seq<int>, delta: seq<int>, t: nat) returns (r: seq<int>)
    requires t < |slots| < |delta|
    ensures |r| == |slots|
    ensures forall k :: 0 <= k < |slots| ==> r[k] == slots[k] + if t <= k then delta[k - t] else 0
  {
    r := slots;
    var i := |slots| - t - 1;
    while i >= 0
      invariant -1 <= i < |slots| - t && |r| == |slots|
      invariant forall k :: 0 <= k < |slots| ==> r[k] == slots[k] + if i < k - t then delta[k - t] else 0
    {
      r := r[i + t := r[i + t] + delta[i]];
      i := i - 1;
    }
  }

  method TotalDelta(delta: seq<int>, n: nat) returns (total: int)
    requires n < |delta|
    ensures total == Prefix(Fn(delta), n)
  {
    total := 0;
    var i: int := n;
    while i >= 0
      invariant -1 <= i <= n
      invariant total + (if i >= 0 then Prefix(Fn(delta), i) else 0) == Prefix(Fn(delta), n)
    {
      total := total + delta[i];
      i := i - 1;
    }
  }

  class Database {
    const depth: nat
    const maxVotes: nat
    const expirationPeriod: nat
    const firstExpiration: nat
    const expirationShift: nat
    const restricted: set<AccountId>

    var accounts: Accounts
    var witnesses: map<WitnessId, int>
    var votes: Votes
    var declineRequests: map<AccountId, nat>
    var totalVesting: int

    ghost predicate Valid()
      reads this
    {
      && 0 < expirationShift
      && Consistent(accounts, votes, witnesses, totalVesting, depth, maxVotes)
      && (forall x :: x in declineRequests ==> x in accounts)
    }

    constructor (depth: nat, maxVotes: nat, expirationPeriod: nat, firstExpiration: nat, expirationShift: nat,
        restricted: set<AccountId>)
      requires 0 < expirationShift
      ensures Valid() && accounts == map[] && witnesses == map[] && votes == {} && totalVesting == 0
      ensures this.restricted == restricted
    {
      this.depth := depth;
      this.maxVotes := maxVotes;
      this.expirationPeriod := expirationPeriod;
      this.firstExpiration := firstExpiration;
      this.expirationShift := expirationShift;
      this.restricted := restricted;
      accounts, witnesses, votes, declineRequests, totalVesting := map[], map[], {}, map[], 0;
      new;
      assert ProxiesOf(accounts) == map[];
      forall x, k: nat | 0 < k ensures Up(ProxiesOf(accounts), x, k) != Some(x) { }
    }

    /** When governance votes refreshed now run out. */
    function VoteExpiration(now: nat): nat
      requires 0 < expirationShift
    {
      var due := now + expirationPeriod;
      if due < firstExpiration then firstExpiration + due % expirationShift else due
    }

    /** Votes last the whole period, and none runs out before the first date set for that. Those that would are
        spread over the time after it, each by the remainder of its own date. */
    ghost predicate RunsOut(expiry: Option<nat>, now: nat)
    {
      && expiry.Some?
      && var due, date := now + expirationPeriod, expiry.value;
      if firstExpiration <= due then date == due
      else
        && firstExpiration <= date < firstExpiration + expirationShift
        && exists k: nat :: due == k * expirationShift + (date - firstExpiration)
    }

    lemma ExpirationExact(now: nat)
      requires 0 < expirationShift
      ensures RunsOut(Some(VoteExpiration(now)), now) && now + expirationPeriod <= VoteExpiration(now)
    {
      var due := now + expirationPeriod;
      if due < firstExpiration {
        var k := due / expirationShift;
        assert due == k * expirationShift + due % expirationShift;
      }
    }

    // ----- cache updates

    /** The bound on the new total is the assertion the chain makes; every caller proves it. */
    method AdjustWitnessVote(w: WitnessId, delta: int)
      requires w in witnesses && witnesses[w] + delta <= totalVesting
      modifies this`witnesses
      ensures witnesses == old(witnesses)[w := old(witnesses[w]) + delta]
    {
      witnesses := witnesses[w := witnesses[w] + delta];
    }

    method AdjustWitnessVotes(a: AccountId, delta: int)
      requires forall v :: v in votes ==> v.1 in witnesses
      requires forall w :: (a, w) in votes ==> witnesses[w] + delta <= totalVesting
      modifies this`witnesses
      ensures witnesses.Keys == old(witnesses.Keys)
      ensures forall w :: w in witnesses ==>
        witnesses[w] == old(witnesses)[w] + if (a, w) in votes then delta else 0
    {
      var rest := set v | v in votes && v.0 == a;
      assert forall w :: (a, w) in votes ==> (a, w) in rest;
      while rest != {}
        invariant rest <= votes && forall v :: v in rest ==> v.0 == a
        invariant witnesses.Keys == old(witnesses.Keys)
        invariant forall w :: w in witnesses ==>
          witnesses[w] == old(witnesses)[w] + if (a, w) in votes && (a, w) !in rest then delta else 0
        decreases |rest|
      {
        var v :| v in rest;
        assert v == (a, v.1);
        AdjustWitnessVote(v.1, delta);
        rest := rest - {v};
      }
    }

    /** Adds `delta[i]`, for stake `i` hops below the start of the walk, to the slots
        of every account above `a` and to the votes of the account the chain ends at. */
    method AdjustProxiedWitnessVotes(a: AccountId, delta: seq<int>, t: nat, ghost p: Proxies)
      requires Shaped(accounts, depth) && a in accounts && |delta| == depth + 1 && t <= depth
      requires p == ProxiesOf(accounts)
      requires forall v :: v in votes ==> v.1 in witnesses
      requires TalliesFit(witnesses, totalVesting, depth, p, votes, a, t, Fn(delta))
      modifies this`accounts, this`witnesses
      ensures SlotsMoved(old(accounts), accounts, depth, p, a, t, Fn(delta))
      ensures TalliesMoved(old(witnesses), witnesses, depth, p, votes, a, t, Fn(delta))
      decreases depth - t
    {
      hide WalkGain, SlotsMoved, Prefix, Bare;
      if accounts[a].proxy.Some? {
        if t >= depth {
          SlotsMovedNone(accounts, depth, p, a, t, Fn(delta));
          return;
        }
        var proxy := accounts[a].proxy.value;
        var slots := AddShifted(accounts[proxy].proxied, delta, t);
        accounts := accounts[proxy := accounts[proxy].(proxied := slots)];
        ghost var middle := accounts;
        SameBare(old(accounts), accounts);
        TalliesFitStep(witnesses, totalVesting, depth, p, votes, a, t, Fn(delta));
        AdjustProxiedWitnessVotes(proxy, delta, t + 1, p);
        SlotsMovedStep(old(accounts), middle, accounts, depth, p, a, t, Fn(delta), slots);
        TalliesMovedStep(old(witnesses), witnesses, depth, p, votes, a, t, Fn(delta));
      } else {
        SlotsMovedNone(accounts, depth, p, a, t, Fn(delta));
        var total := TotalDelta(delta, depth - t);
        RootTallyGain(p, votes, a, t, depth, Fn(delta), total);
        AdjustWitnessVotes(a, total);
      }
    }

    /** The single-delta form: the stake at the start of the walk changed by `delta`. */
    method AdjustProxiedWitnessVotesOne(a: AccountId, delta: int, t: nat, ghost p: Proxies)
      requires Shaped(accounts, depth) && a in accounts && t <= depth
      requires p == ProxiesOf(accounts)
      requires forall v :: v in votes ==> v.1 in witnesses
      requires TalliesFit(witnesses, totalVesting, depth, p, votes, a, t, Unit(delta))
      modifies this`accounts, this`witnesses
      ensures SlotsMoved(old(accounts), accounts, depth, p, a, t, Unit(delta))
      ensures TalliesMoved(old(witnesses), witnesses, depth, p, votes, a, t, Unit(delta))
      decreases depth - t
    {
      hide WalkGain, SlotsMoved, Prefix, Bare;
      if accounts[a].proxy.Some? {
        if t >= depth {
          SlotsMovedNone(accounts, depth, p, a, t, Unit(delta));
          return;
        }
        var proxy := accounts[a].proxy.value;
        var slots := accounts[proxy].proxied;
        slots := slots[t := slots[t] + delta];
        accounts := accounts[proxy := accounts[proxy].(proxied := slots)];
        ghost var middle := accounts;
        SameBare(old(accounts), accounts);
        TalliesFitStep(witnesses, totalVesting, depth, p, votes, a, t, Unit(delta));
        AdjustProxiedWitnessVotesOne(proxy, delta, t + 1, p);
        SlotsMovedStep(old(accounts), middle, accounts, depth, p, a, t, Unit(delta), slots);
        TalliesMovedStep(old(witnesses), witnesses, depth, p, votes, a, t, Unit(delta));
      } else {
        SlotsMovedNone(accounts, depth, p, a, t, Unit(delta));
        PrefixUnit(delta, depth - t);
        RootTallyGain(p, votes, a, t, depth, Unit(delta), delta);
        AdjustWitnessVotes(a, delta);
      }
    }

    // ----- taking governance power away

    /** Subtracts everything the account contributes, ahead of its records being cleared. */
    method NullifyProxiedWitnessVotes(a: AccountId)
      requires Shaped(accounts, depth) && Acyclic(ProxiesOf(accounts)) && a in accounts
      requires Exact(ProxiesOf(accounts), accounts, depth, votes, witnesses)
      requires totalVesting == Sum(accounts.Keys, VestingAt(accounts))
      modifies this`accounts, this`witnesses
      ensures Shaped(accounts, depth) && SameButSlots(old(accounts), accounts)
      ensures witnesses.Keys == old(witnesses.Keys)
      ensures Exact(old(ProxiesOf(accounts)) - {a}, accounts, depth, VotesWithout(votes, a), witnesses)
    {
      ghost var p := ProxiesOf(accounts);
      var delta := [-DirectPower(accounts[a])];
      for i := 0 to depth
        invariant |delta| == i + 1
        invariant delta == PowerBySlot(accounts[a], -1)[..i + 1]
      {
        delta := delta + [-accounts[a].proxied[i]];
      }
      assert delta == PowerBySlot(accounts[a], -1);
      PowerBySlotIsLevel(p, accounts, depth, a, -1);
      UnlinkFits(accounts, depth, votes, witnesses, a, Fn(delta));
      AdjustProxiedWitnessVotes(a, delta, 0, p);
      StakesUnmoved(old(accounts), accounts, depth, p, a, 0, Fn(delta));
      UnlinkExact(old(accounts), accounts, depth, votes, old(witnesses), witnesses, a, Fn(delta));
    }

    method ClearWitnessVotes(a: AccountId)
      requires a in accounts
      modifies this`votes, this`accounts
      ensures votes == VotesWithout(old(votes), a)
      ensures accounts == old(accounts)[a := old(accounts)[a].(votedFor := 0)]
    {
      var mine := set v | v in votes && v.0 == a;
      while mine != {}
        invariant accounts == old(accounts) && mine <= votes <= old(votes)
        invariant forall v :: v in mine ==> v.0 == a
        invariant forall v :: v in old(votes) && v !in votes ==> v.0 == a
        invariant forall v :: v in votes && v.0 == a ==> v in mine
        decreases |mine|
      {
        var v :| v in mine;
        votes := votes - {v};
        mine := mine - {v};
      }
      accounts := accounts[a := accounts[a].(votedFor := 0)];
    }

    /** Ends an account's governance activity: its power is taken away, its vote records
        and its proxy are removed. `canVote` and the expiration are set by the caller. */
    method DropGovernance(a: AccountId, canVote: bool, expiry: Option<nat>)
      requires Valid() && a in accounts
      modifies this`accounts, this`witnesses, this`votes
      ensures Valid()
      ensures votes == VotesWithout(old(votes), a) && witnesses.Keys == old(witnesses.Keys)
      ensures SameButSlots(old(accounts)[a := Cleared(old(accounts)[a]).(canVote := canVote, expiry := expiry)],
          accounts)
    {
      hide Exact, CountsExact, Acyclic, ProxiesOf, VestingAt, StakesOf, SlotsOf;
      ghost var account := Cleared(accounts[a]).(canVote := canVote, expiry := expiry);
      NullifyProxiedWitnessVotes(a);
      ghost var nullified := accounts;
      ClearWitnessVotes(a);
      accounts := accounts[a := accounts[a].(proxy := None, canVote := canVote, expiry := expiry)];
      DropConsistent(old(accounts), nullified, accounts, old(votes), old(witnesses), witnesses, totalVesting, depth,
          maxVotes, a, account);
    }

    // ----- operations

    /** Walks the chain above the new proxy, refusing loops and chains that are too long. */
    method ProxyChainFits(a: AccountId, b: AccountId) returns (fits: bool)
      requires Shaped(accounts, depth) && Acyclic(ProxiesOf(accounts)) && a in accounts && b in accounts && a != b
      ensures fits <==> ChainFits(ProxiesOf(accounts), a, b, depth)
    {
      ghost var p := ProxiesOf(accounts);
      var chain := {a, b};
      var current := b;
      ghost var n := 0;
      while accounts[current].proxy.Some?
        invariant current in accounts && Up(p, b, n) == Some(current)
        invariant n == 0 || n + 2 <= depth
        invariant |chain| == n + 2
          && forall x :: x in chain <==> x == a || exists j: nat :: j <= n && Up(p, b, j) == Some(x)
        invariant forall j: nat :: j <= n ==> Up(p, b, j) != Some(a)
        decreases depth + 2 - n
      {
        var next := accounts[current].proxy.value;
        UpOneMore(p, b, n);
        forall top: nat | TopAt(p, b, top) ensures n < top { TopIsAbove(p, b, n, top); }
        if next in chain {
          forall j: nat | j <= n ensures Up(p, b, j) != Some(next) { ChainAllNew(p, b, j, n + 1); }
          return false;
        }
        chain := chain + {next};
        current := next;
        if |chain| > depth {
          return false;
        }
        n := n + 1;
      }
      assert TopAt(p, b, n);
      return true;
    }

    /** Gives the power of `a`, just linked to a proxy, to the chain above it. */
    method AddProxiedPower(a: AccountId, ghost p: Proxies)
      requires Shaped(accounts, depth) && a in accounts && accounts[a].proxy.Some?
      requires a !in p && ProxiesOf(accounts) == p[a := accounts[a].proxy.value]
      requires Exact(p, accounts, depth, votes, witnesses) && forall v :: v in votes ==> v.0 != a
      requires totalVesting == Sum(accounts.Keys, VestingAt(accounts))
      modifies this`accounts, this`witnesses
      ensures Shaped(accounts, depth) && SameButSlots(old(accounts), accounts)
      ensures witnesses.Keys == old(witnesses.Keys)
      ensures Exact(p[a := old(accounts)[a].proxy.value], accounts, depth, votes, witnesses)
    {
      var delta := [DirectPower(accounts[a])];
      for i := 0 to depth
        invariant |delta| == i + 1
        invariant delta == PowerBySlot(accounts[a], 1)[..i + 1]
      {
        delta := delta + [accounts[a].proxied[i]];
      }
      assert delta == PowerBySlot(accounts[a], 1);
      PowerBySlotIsLevel(p, accounts, depth, a, 1);
      ghost var b := accounts[a].proxy.value;
      LinkFits(p, accounts, depth, votes, witnesses, a, b, Fn(delta));
      AdjustProxiedWitnessVotes(a, delta, 0, p[a := b]);
      MovedShape(old(accounts), accounts, depth, p[a := b], a, 0, Fn(delta));
      LinkExact(p, old(accounts), accounts, depth, votes, old(witnesses), witnesses, a, b, Fn(delta));
    }

    /** Sets the proxy of an account whose power has just been nullified. */
    method LinkToProxy(a: AccountId, b: AccountId, ghost before: Accounts, ghost wits: map<WitnessId, int>)
      requires
        && a in before && b in before && before[a].canVote
        && Consistent(before, votes, wits, totalVesting, depth, maxVotes)
      requires ChainFits(ProxiesOf(before), a, b, depth)
      requires SameButSlots(before, accounts) && Shaped(accounts, depth)
      requires Exact(ProxiesOf(before) - {a}, accounts, depth, VotesWithout(votes, a), witnesses)
      modifies this`accounts, this`witnesses, this`votes
      ensures Consistent(accounts, votes, witnesses, totalVesting, depth, maxVotes)
      ensures votes == VotesWithout(old(votes), a) && witnesses.Keys == old(witnesses.Keys)
      ensures accounts.Keys == before.Keys && SameButSlots(before[a := Cleared(before[a]).(proxy := Some(b))], accounts)
    {
      hide Exact, CountsExact, Acyclic, ProxiesOf, VestingAt, ChainFits, StakesOf, SlotsOf;
      ghost var p := ProxiesOf(before);
      ClearWitnessVotes(a);
      accounts := accounts[a := accounts[a].(proxy := Some(b))];
      ghost var account, linked := Cleared(before[a]).(proxy := Some(b)), accounts;
      LinkPrepared(before, old(accounts), linked, votes, witnesses, totalVesting, depth, a, account);
      AddProxiedPower(a, p - {a});
      ProxyConsistent(before, linked, accounts, old(votes), wits, witnesses, totalVesting, depth, maxVotes, a, account);
    }

    /** Renews the expiration of an account's governance votes and takes its power out of its chain. */
    method Detach(a: AccountId, expiry: Option<nat>) returns (ghost refreshed: Accounts)
      requires Valid() && a in accounts
      modifies this`accounts, this`witnesses
      ensures refreshed == old(accounts)[a := old(accounts)[a].(expiry := expiry)]
      ensures Consistent(refreshed, votes, old(witnesses), totalVesting, depth, maxVotes)
      ensures SameButSlots(refreshed, accounts) && Shaped(accounts, depth) && witnesses.Keys == old(witnesses.Keys)
      ensures accounts.Keys == old(accounts).Keys && accounts[a].proxy == old(accounts)[a].proxy
      ensures ProxiesOf(accounts) == ProxiesOf(refreshed) == old(ProxiesOf(accounts)) && Acyclic(ProxiesOf(accounts))
      ensures Exact(ProxiesOf(refreshed) - {a}, accounts, depth, VotesWithout(votes, a), witnesses)
    {
      hide Exact, CountsExact, Acyclic, ProxiesOf, VestingAt, StakesOf, SlotsOf;
      RefreshConsistent(accounts, votes, witnesses, totalVesting, depth, maxVotes, a, expiry);
      accounts := accounts[a := accounts[a].(expiry := expiry)];
      refreshed := accounts;
      NullifyProxiedWitnessVotes(a);
      SameBare(refreshed, accounts);
    }

    /** Removes the proxy of an account whose power has just been nullified. */
    method Unlink(a: AccountId, ghost before: Accounts, ghost wits: map<WitnessId, int>)
      requires a in before && before[a].proxy.Some? && Consistent(before, votes, wits, totalVesting, depth, maxVotes)
      requires SameButSlots(before, accounts) && Shaped(accounts, depth)
      requires Exact(ProxiesOf(before) - {a}, accounts, depth, VotesWithout(votes, a), witnesses)
      modifies this`accounts
      ensures Consistent(accounts, votes, witnesses, totalVesting, depth, maxVotes)
      ensures
        && votes == VotesWithout(votes, a) && accounts.Keys == before.Keys
        && SameButSlots(before[a := Cleared(before[a])], accounts)
    {
      hide Exact, CountsExact, Acyclic, ProxiesOf, VestingAt, StakesOf, SlotsOf;
      ProxiedHoldsNoVotes(before, votes, wits, totalVesting, depth, maxVotes, a);
      ghost var nullified := accounts;
      accounts := accounts[a := accounts[a].(proxy := None)];
      DropConsistent(before, nullified, accounts, votes, wits, witnesses, totalVesting, depth, maxVotes, a,
          Cleared(before[a]));
    }

    /** Votes through another account from now on, or stops doing so. */
    method WitnessProxy(a: AccountId, proxy: Option<AccountId>, now: nat) returns (ok: bool)
      requires Valid() && proxy != Some(a)
      modifies this`accounts, this`witnesses, this`votes
      ensures Valid()
      ensures ok <==>
        && a !in restricted && a in old(accounts) && old(accounts)[a].canVote
        && (if proxy.Some? then
              && proxy.value in old(accounts) && old(accounts)[a].proxy != proxy
              && ChainFits(old(ProxiesOf(accounts)), a, proxy.value, depth)
            else old(accounts)[a].proxy.Some?)
      ensures !ok ==> accounts == old(accounts) && witnesses == old(witnesses) && votes == old(votes)
      ensures ok ==>
        && votes == VotesWithout(old(votes), a) && witnesses.Keys == old(witnesses.Keys)
        && SameButSlots(old(accounts)
             [a := Cleared(old(accounts)[a]).(proxy := proxy, expiry := Some(VoteExpiration(now)))], accounts)
      ensures ok ==> a in accounts && accounts[a].proxy == proxy && RunsOut(accounts[a].expiry, now)
    {
      hide Consistent, Exact, Acyclic, ProxiesOf, ChainFits, Shaped, SameButSlots, RunsOut;
      if a in restricted || a !in accounts || !accounts[a].canVote {
        return false;
      }
      var undoAccounts, undoWitnesses := accounts, witnesses;
      ghost var refreshed := Detach(a, Some(VoteExpiration(now)));
      ok := if proxy.Some? then proxy.value in accounts && accounts[a].proxy != proxy else accounts[a].proxy.Some?;
      if ok && proxy.Some? {
        ok := ProxyChainFits(a, proxy.value);
      }
      if !ok {
        accounts, witnesses := undoAccounts, undoWitnesses;
        return;
      }
      if proxy.Some? {
        LinkToProxy(a, proxy.value, refreshed, undoWitnesses);
      } else {
        Unlink(a, refreshed, undoWitnesses);
      }
      assert refreshed[a := Cleared(refreshed[a]).(proxy := proxy)]
        == old(accounts)[a := Cleared(old(accounts)[a]).(proxy := proxy, expiry := Some(VoteExpiration(now)))];
      ExpirationExact(now);
      SameFields(old(accounts)[a := Cleared(old(accounts)[a]).(proxy := proxy, expiry := Some(VoteExpiration(now)))],
          accounts, a);
    }

    /** Approves a witness, or withdraws an approval. */
    method WitnessVote(a: AccountId, w: WitnessId, approve: bool, now: nat) returns (ok: bool)
      requires Valid()
      modifies this`accounts, this`witnesses, this`votes
      ensures Valid()
      ensures ok <==>
        && a !in restricted && a in old(accounts) && old(accounts)[a].proxy.None? && old(accounts)[a].canVote
        && w in old(witnesses)
        && (if (a, w) in old(votes) then !approve else approve && old(accounts)[a].votedFor < maxVotes)
      ensures !ok ==> accounts == old(accounts) && witnesses == old(witnesses) && votes == old(votes)
      ensures ok ==>
        && votes == (if approve then old(votes) + {(a, w)} else old(votes) - {(a, w)})
        && witnesses.Keys == old(witnesses.Keys)
        && accounts == old(accounts)[a := old(accounts)[a].(
             votedFor := |VotesBy(votes, a)|, expiry := Some(VoteExpiration(now)))]
        && RunsOut(accounts[a].expiry, now)
    {
      hide Consistent, VotesBy, RunsOut;
      ExpirationExact(now);
      if a in restricted || a !in accounts || accounts[a].proxy.Some? || !accounts[a].canVote || w !in witnesses {
        return false;
      }
      ok := if (a, w) in votes then !approve else approve && accounts[a].votedFor < maxVotes;
      if ok {
        if approve {
          Approve(a, w, Some(VoteExpiration(now)));
        } else {
          Withdraw(a, w, Some(VoteExpiration(now)));
        }
      }
    }

    method Approve(a: AccountId, w: WitnessId, expiry: Option<nat>)
      requires Valid() && a in accounts && accounts[a].proxy.None? && accounts[a].canVote && w in witnesses
      requires (a, w) !in votes && accounts[a].votedFor < maxVotes
      modifies this`accounts, this`witnesses, this`votes
      ensures Valid()
      ensures votes == old(votes) + {(a, w)} && witnesses.Keys == old(witnesses.Keys)
      ensures accounts == old(accounts)[a := old(accounts)[a].(votedFor := |VotesBy(votes, a)|, expiry := expiry)]
    {
      hide Exact, Acyclic, CountsExact, VestingAt, ProxiesOf, Shaped;
      ghost var counted := accounts[a := accounts[a].(expiry := expiry, votedFor := accounts[a].votedFor + 1)];
      CastConsistent(accounts, votes, witnesses, totalVesting, depth, maxVotes, a, w, expiry);
      WitnessBounded(counted, votes + {(a, w)}, witnesses[w := witnesses[w] + GovernancePower(accounts[a])],
                     totalVesting, depth, maxVotes, w);
      accounts := accounts[a := accounts[a].(expiry := expiry)];
      votes := votes + {(a, w)};
      AdjustWitnessVote(w, GovernancePower(accounts[a]));
      accounts := accounts[a := accounts[a].(votedFor := accounts[a].votedFor + 1)];
      assert accounts == counted;
    }

    method Withdraw(a: AccountId, w: WitnessId, expiry: Option<nat>)
      requires
        && Valid() && a in accounts && accounts[a].proxy.None? && accounts[a].canVote && w in witnesses
        && (a, w) in votes
      modifies this`accounts, this`witnesses, this`votes
      ensures Valid()
      ensures votes == old(votes) - {(a, w)} && witnesses.Keys == old(witnesses.Keys)
      ensures accounts == old(accounts)[a := old(accounts)[a].(votedFor := |VotesBy(votes, a)|, expiry := expiry)]
    {
      hide Exact, Acyclic, CountsExact, VestingAt, ProxiesOf, Shaped;
      WithdrawConsistent(accounts, votes, witnesses, totalVesting, depth, maxVotes, a, w, expiry);
      ghost var counted := accounts[a := accounts[a].(expiry := expiry, votedFor := accounts[a].votedFor - 1)];
      WitnessBounded(counted, votes - {(a, w)}, witnesses[w := witnesses[w] - GovernancePower(accounts[a])],
                     totalVesting, depth, maxVotes, w);
      accounts := accounts[a := accounts[a].(expiry := expiry)];
      AdjustWitnessVote(w, -GovernancePower(accounts[a]));
      accounts := accounts[a := accounts[a].(votedFor := accounts[a].votedFor - 1)];
      votes := votes - {(a, w)};
      assert accounts == counted;
    }

    // ----- stake

    /** Changes an account's vesting and delayed votes, and the total with them, then
        walks its chain with the change of direct power. */
    method ChangeStake(a: AccountId, vesting: int, delayed: int)
      requires Valid() && a in accounts && 0 <= delayed <= vesting
      modifies this`accounts, this`witnesses, this`totalVesting
      ensures Valid() && witnesses.Keys == old(witnesses.Keys)
      ensures totalVesting == old(totalVesting) + vesting - old(accounts)[a].vesting
      ensures SameButSlots(old(accounts)[a := old(accounts)[a].(vesting := vesting, delayed := delayed)], accounts)
    {
      hide Exact, Acyclic, CountsExact, VestingAt, SlotsMoved, TalliesFit, ProxiesOf;
      var change := vesting - delayed - DirectPower(accounts[a]);
      ghost var p := ProxiesOf(accounts);
      RestakeWalkFits(accounts, votes, witnesses, totalVesting, depth, maxVotes, a, vesting, delayed);
      ghost var total := totalVesting;
      totalVesting := totalVesting + vesting - accounts[a].vesting;
      WitnessesKnown(accounts, votes, witnesses, total, depth, maxVotes);
      AdjustProxiedWitnessVotesOne(a, change, 0, p);
      ghost var walked := accounts;
      MovedShape(old(accounts), walked, depth, p, a, 0, Unit(change));
      accounts := accounts[a := accounts[a].(vesting := vesting, delayed := delayed)];
      RestakeConsistent(old(accounts), walked, accounts, votes, old(witnesses), witnesses, total, depth, maxVotes, a,
          vesting, delayed);
    }

    /** Rewards claimed or vested at once: power at once. */
    method AddVesting(a: AccountId, amount: nat)
      requires Valid() && a in accounts
      modifies this`accounts, this`witnesses, this`totalVesting
      ensures Valid() && witnesses.Keys == old(witnesses.Keys) && totalVesting == old(totalVesting) + amount
      ensures SameButSlots(old(accounts)[a := old(accounts)[a].(vesting := old(accounts)[a].vesting + amount)],
          accounts)
    {
      hide Exact, Acyclic, CountsExact, VestingAt, ProxiesOf;
      ChangeStake(a, accounts[a].vesting + amount, accounts[a].delayed);
    }

    /** Powering up, or receiving routed shares: the new shares vote only later. */
    method AddDelayedVesting(a: AccountId, amount: nat)
      requires Valid() && a in accounts
      modifies this`accounts, this`totalVesting
      ensures Valid() && totalVesting == old(totalVesting) + amount
      ensures accounts == old(accounts)[a := old(accounts)[a].(
        vesting := old(accounts)[a].vesting + amount, delayed := old(accounts)[a].delayed + amount)]
    {
      hide Exact, Acyclic, CountsExact, VestingAt, ProxiesOf;
      DelayedConsistent(accounts, votes, witnesses, totalVesting, depth, maxVotes, a, amount);
      accounts := accounts[a := accounts[a].(vesting := accounts[a].vesting + amount,
        delayed := accounts[a].delayed + amount)];
      totalVesting := totalVesting + amount;
    }

    /** Delayed votes that have waited long enough start to count. */
    method MatureDelayedVotes(a: AccountId, amount: nat)
      requires Valid() && a in accounts && amount <= accounts[a].delayed
      modifies this`accounts, this`witnesses, this`totalVesting
      ensures Valid() && witnesses.Keys == old(witnesses.Keys) && totalVesting == old(totalVesting)
      ensures SameButSlots(old(accounts)[a := old(accounts)[a].(delayed := old(accounts)[a].delayed - amount)],
          accounts)
    {
      hide Exact, Acyclic, CountsExact, VestingAt, ProxiesOf;
      ChangeStake(a, accounts[a].vesting, accounts[a].delayed - amount);
    }

    /** Shares leave an account: delayed votes go first, only the leftover costs power. */
    method RemoveVesting(a: AccountId, amount: nat)
      requires Valid() && a in accounts && amount <= accounts[a].vesting
      modifies this`accounts, this`witnesses, this`totalVesting
      ensures Valid() && witnesses.Keys == old(witnesses.Keys) && totalVesting == old(totalVesting) - amount
      ensures SameButSlots(old(accounts)[a := old(accounts)[a].(
        vesting := old(accounts)[a].vesting - amount,
        delayed := if amount >= old(accounts)[a].delayed then 0 else old(accounts)[a].delayed - amount)], accounts)
    {
      hide Exact, Acyclic, CountsExact, VestingAt, ProxiesOf;
      var delayed := accounts[a].delayed;
      if amount >= delayed {
        ChangeStake(a, accounts[a].vesting - amount, 0);
      } else {
        ChangeStake(a, accounts[a].vesting - amount, delayed - amount);
      }
    }

    /** Restricted accounts hand vesting shares over directly, but none that are delegated; the receiver's
        shares are delayed. */
    method TransferVests(from: AccountId, to: AccountId, amount: nat, delegated: nat) returns (ok: bool)
      requires Valid()
      modifies this`accounts, this`witnesses, this`totalVesting
      ensures Valid() && witnesses.Keys == old(witnesses.Keys) && totalVesting == old(totalVesting)
      ensures ok <==>
        && from in restricted && from in old(accounts) && to in old(accounts)
        && 0 < amount <= old(accounts)[from].vesting - delegated
        && old(accounts)[from].delayed <= old(accounts)[from].vesting - amount
      ensures !ok ==> accounts == old(accounts) && witnesses == old(witnesses)
      ensures ok && from != to ==> SameButSlots(old(accounts)
        [from := old(accounts)[from].(vesting := old(accounts)[from].vesting - amount)]
        [to := old(accounts)[to].(vesting := old(accounts)[to].vesting + amount,
          delayed := old(accounts)[to].delayed + amount)], accounts)
      ensures ok && from == to ==>
        SameButSlots(old(accounts)[from := old(accounts)[from].(delayed := old(accounts)[from].delayed + amount)],
            accounts)
    {
      hide Exact, Acyclic, CountsExact, VestingAt, ProxiesOf;
      if from !in restricted || from !in accounts || to !in accounts || amount == 0
        || accounts[from].vesting - delegated < amount
        || accounts[from].vesting - amount < accounts[from].delayed {
        return false;
      }
      ChangeStake(from, accounts[from].vesting - amount, accounts[from].delayed);
      AddDelayedVesting(to, amount);
      return true;
    }

    method CreateAccount(a: AccountId)
      requires Valid() && a !in accounts
      modifies this`accounts
      ensures Valid() && accounts == old(accounts)[a := Account(0, 0, None, seq(depth, i => 0), true, 0, None)]
    {
      var account := Account(0, 0, None, seq(depth, i => 0), true, 0, None);
      NewAccountConsistent(accounts, votes, witnesses, totalVesting, depth, maxVotes, a, account);
      accounts := accounts[a := account];
    }

    method CreateWitness(w: WitnessId)
      requires Valid() && w !in witnesses
      modifies this`witnesses
      ensures Valid() && witnesses == old(witnesses)[w := 0]
    {
      NewWitnessConsistent(accounts, votes, witnesses, totalVesting, depth, maxVotes, w);
      witnesses := witnesses[w := 0];
    }

    // ----- per-block processing

    /** Due requests to decline voting rights take effect, earliest first; `budget` is how many
        accounts the block can free of their proposal votes. */
    method ProcessDeclineVotingRights(now: nat, budget: nat) returns (done: set<AccountId>)
      requires Valid()
      modifies this`accounts, this`witnesses, this`votes, this`declineRequests
      ensures Valid() && witnesses.Keys == old(witnesses.Keys)
      ensures done <= (set x | x in old(declineRequests) && old(declineRequests)[x] <= now) && |done| <= budget
      ensures |done| < budget ==> done == (set x | x in old(declineRequests) && old(declineRequests)[x] <= now)
      ensures declineRequests == old(declineRequests) - done
      ensures votes == VotesOutside(old(votes), done) && SameButSlots(ClearedAll(old(accounts), done, true), accounts)
    {
      hide Consistent, ClearedAll;
      done := {};
      ClearedAllNone(accounts, votes, true);
      while true
        invariant Valid() && witnesses.Keys == old(witnesses.Keys) && accounts.Keys == old(accounts.Keys)
        invariant done <= (set x | x in old(declineRequests) && old(declineRequests)[x] <= now) && |done| <= budget
        invariant declineRequests == old(declineRequests) - done
        invariant
          && votes == VotesOutside(old(votes), done) && SameButSlots(ClearedAll(old(accounts), done, true), accounts)
        decreases |declineRequests|
      {
        var due := EarliestDue(declineRequests, now);
        if due.None? || |done| == budget {
          if due.None? { NothingDue(old(declineRequests), done, now); }
          break;
        }
        var a := due.value;
        ghost var middle := accounts;
        DropGovernance(a, false, accounts[a].expiry);
        ClearedAllStep(old(accounts), middle, accounts, old(votes), done, a, true);
        assert |(declineRequests - {a}).Keys| < |declineRequests.Keys| by {
          assert (declineRequests - {a}).Keys == declineRequests.Keys - {a}; }
        declineRequests := declineRequests - {a};
        done := done + {a};
      }
    }

    /** Governance votes that were not refreshed in time are removed, earliest first. */
    method RemoveExpiredGovernanceVotes(now: nat, budget: nat) returns (done: set<AccountId>)
      requires Valid()
      modifies this`accounts, this`witnesses, this`votes
      ensures Valid() && witnesses.Keys == old(witnesses.Keys)
      ensures done <= ExpiredBy(old(accounts), now) && |done| <= budget
      ensures |done| < budget ==> done == ExpiredBy(old(accounts), now)
      ensures votes == VotesOutside(old(votes), done) && SameButSlots(ClearedAll(old(accounts), done, false), accounts)
    {
      hide Consistent, Expunged, ExpiredBy, ClearedAll, VotesOutside, SameButSlots;
      done := {};
      NoneExpunged(accounts, votes, now, budget);
      while true
        invariant Valid() && witnesses.Keys == old(witnesses.Keys)
        invariant Expunged(old(accounts), accounts, old(votes), votes, done, now, budget)
        decreases |ExpiredBy(old(accounts), now) - done|
      {
        var dates := map x | x in accounts && accounts[x].expiry.Some? :: accounts[x].expiry.value;
        var due := EarliestDue(dates, now);
        if due.None? || |done| == budget {
          forall x | due.None? && x in accounts && accounts[x].expiry.Some?
            ensures now < accounts[x].expiry.value
          {
            assert x in dates;
          }
          AllExpunged(old(accounts), accounts, old(votes), votes, done, now, budget);
          break;
        }
        var a := due.value;
        ghost var before, kept := accounts, votes;
        DropGovernance(a, accounts[a].canVote, None);
        ExpungedOneMore(old(accounts), before, accounts, old(votes), kept, votes, done, now, budget, a);
        done := done + {a};
      }
    }

    // ----- recounting and checking

    /** Counting all witness votes afresh changes nothing. */
    method RetallyWitnessVotes()
      requires Valid()
      modifies this`witnesses
      ensures witnesses == old(witnesses)
    {
      hide Consistent, PartlyTallied;
      WitnessesKnown(accounts, votes, witnesses, totalVesting, depth, maxVotes);
      witnesses := map w | w in witnesses :: 0;
      var rest := accounts.Keys;
      ghost var done: set<AccountId> := {};
      NothingTallied(accounts, votes, depth, witnesses);
      while exists x :: x in rest
        invariant done == accounts.Keys - rest && rest <= accounts.Keys && witnesses.Keys == old(witnesses.Keys)
        invariant PartlyTallied(accounts, votes, depth, witnesses, done)
        decreases |rest|
      {
        var x :| x in rest;
        PartlyTalliedStep(accounts, votes, old(witnesses), totalVesting, depth, maxVotes, witnesses, done, x);
        ghost var next := map w | w in witnesses ::
          witnesses[w] + if accounts[x].proxy.None? && (x, w) in votes then GovernancePower(accounts[x]) else 0;
        if accounts[x].proxy.None? {
          AdjustWitnessVotes(x, GovernancePower(accounts[x]));
        }
        assert witnesses == next by { forall w | w in next ensures w in witnesses && witnesses[w] == next[w] { } }
        rest, done := rest - {x}, done + {x};
      }
      assert done == accounts.Keys;
      FullyTallied(accounts, votes, old(witnesses), totalVesting, depth, maxVotes, witnesses);
    }

    /** The chain's own run-time check that no witness has too many votes succeeds ... */
    method ValidateWitnessVotes() returns (ok: bool)
      requires Valid()
      ensures ok
    {
      forall w | w in witnesses ensures witnesses[w] <= totalVesting {
        WitnessBounded(accounts, votes, witnesses, totalVesting, depth, maxVotes, w);
      }
      ok := forall w :: w in witnesses ==> witnesses[w] <= totalVesting;
    }

    /** ... and so does its check of the vote totals. */
    method ValidateInvariants() returns (ok: bool)
      requires Valid()
      ensures ok
    {
      ok := ValidateWitnessVotes();
      var total := Total(accounts.Keys, CountedAt(accounts, depth));
      var delayed := Total(accounts.Keys, DelayedAt(accounts));
      VestingAccountedFor(accounts, votes, witnesses, totalVesting, depth, maxVotes);
      ok := ok && (forall x :: x in accounts ==> accounts[x].delayed <= accounts[x].vesting)
        && totalVesting == total + delayed;
    }

    // ----- runs

    method DeclineVotingRights(a: AccountId, decline: bool, effective: nat) returns (ok: bool)
      requires Valid()
      modifies this`declineRequests
      ensures Valid()
      ensures ok <==> a in accounts && accounts[a].canVote && (decline <==> a !in old(declineRequests))
      ensures declineRequests ==
        if !ok then old(declineRequests)
        else if decline then old(declineRequests)[a := effective]
        else old(declineRequests) - {a}
    {
      if a !in accounts || !accounts[a].canVote || decline == (a in declineRequests) {
        return false;
      }
      declineRequests := if decline then declineRequests[a := effective] else declineRequests - {a};
      return true;
    }

    /** Applies a step; one that the chain would refuse, or that makes no sense, changes nothing. */
    method Apply(step: Step)
      requires Valid()
      modifies this
      ensures Valid()
    {
      hide Consistent;
      match step {
        case CreateAccount(a) => if a !in accounts { CreateAccount(a); }
        case CreateWitness(w) => if w !in witnesses { CreateWitness(w); }
        case Vote(a, w, approve, now) => var _ := WitnessVote(a, w, approve, now);
        case Proxy(a, proxy, now) => if proxy != Some(a) { var _ := WitnessProxy(a, proxy, now); }
        case Decline(a, decline, effective) => var _ := DeclineVotingRights(a, decline, effective);
        case ProcessDeclines(now, budget) => var _ := ProcessDeclineVotingRights(now, budget);
        case Expire(now, budget) => var _ := RemoveExpiredGovernanceVotes(now, budget);
        case Vest(a, amount) => if a in accounts { AddVesting(a, amount); }
        case VestDelayed(a, amount) => if a in accounts { AddDelayedVesting(a, amount); }
        case Mature(a, amount) => if a in accounts && amount <= accounts[a].delayed { MatureDelayedVotes(a, amount); }
        case Unvest(a, amount) => if a in accounts && amount <= accounts[a].vesting { RemoveVesting(a, amount); }
        case MoveVests(from, to, amount, delegated) => var _ := TransferVests(from, to, amount, delegated);
        case Retally => RetallyWitnessVotes();
      }
    }

    /** After every run from genesis: no proxy loops, exact slots, exact and bounded witness votes,
        no votes held by proxied accounts, and every vesting share counted once. */
    method Run(steps: seq<Step>)
      requires Valid()
      modifies this
      ensures Valid() && Acyclic(ProxiesOf(accounts))
      ensures forall x, k :: x in accounts && 0 <= k < depth ==>
        k < |accounts[x].proxied| && accounts[x].proxied[k] == Level(ProxiesOf(accounts), StakesOf(accounts), x, k + 1)
      ensures forall w :: w in witnesses ==>
        witnesses[w] == Tally(ProxiesOf(accounts), StakesOf(accounts), depth, votes, w) <= totalVesting
      ensures forall x, w :: (x, w) in votes ==> x in accounts && accounts[x].proxy.None?
      ensures totalVesting == Sum(accounts.Keys, CountedAt(accounts, depth)) + Sum(accounts.Keys, DelayedAt(accounts))
    {
      for i := 0 to |steps|
        invariant Valid()
      {
        Apply(steps[i]);
      }
      VestingAccountedFor(accounts, votes, witnesses, totalVesting, depth, maxVotes);
      StakesAndSlots(accounts);
      forall w | w in witnesses ensures witnesses[w] <= totalVesting {
        WitnessBounded(accounts, votes, witnesses, totalVesting, depth, maxVotes, w);
      }
      forall x, w | (x, w) in votes
        ensures x in accounts && accounts[x].proxy.None?
      {
        assert x !in ProxiesOf(accounts);
      }
    }
  }

  datatype Step =
    | CreateAccount(a: AccountId)
    | CreateWitness(w: WitnessId)
    | Vote(a: AccountId, w: WitnessId, approve: bool, now: nat)
    | Proxy(a: AccountId, proxy: Option<AccountId>, now: nat)
    | Decline(a: AccountId, decline: bool, effective: nat)
    | ProcessDeclines(now: nat, budget: nat)
    | Expire(now: nat, budget: nat)
    | Vest(a: AccountId, amount: nat)
    | VestDelayed(a: AccountId, amount: nat)
    | Mature(a: AccountId, amount: nat)
    | Unvest(a: AccountId, amount: nat)
    | MoveVests(from: AccountId, to: AccountId, amount: nat, delegated: nat)
    | Retally

  lemma NothingDue(requests: map<AccountId, nat>, done: set<AccountId>, now: nat)
    requires done <= (set x | x in requests && requests[x] <= now)
    requires forall x :: x in requests - done ==> now < (requests - done)[x]
    ensures done == (set x | x in requests && requests[x] <= now)
  {
    var rest := requests - done;
    forall x | x in requests && x !in done ensures now < requests[x] { assert x in rest && rest[x] == requests[x]; }
  }

  ghost function ExpiredBy(accounts: Accounts, now: nat): set<AccountId>
  {
    set x | x in accounts && accounts[x].expiry.Some? && accounts[x].expiry.value <= now
  }

  /** The governance votes of `done`, all of them expired, have been removed. */
  ghost predicate Expunged(was: Accounts, accounts: Accounts, cast: Votes, votes: Votes, done: set<AccountId>, now: nat,
      budget: nat)
  {
    && done <= ExpiredBy(was, now) && |done| <= budget
    && votes == VotesOutside(cast, done) && SameButSlots(ClearedAll(was, done, false), accounts)
  }

  lemma NoneExpunged(accounts: Accounts, votes: Votes, now: nat, budget: nat)
    ensures Expunged(accounts, accounts, votes, votes, {}, now, budget)
  {
    hide ClearedAll, VotesOutside, SameButSlots;
    ClearedAllNone(accounts, votes, false);
  }

  /** An expiry date that is still set is the one from the start. */
  lemma ExpiryKept(was: Accounts, accounts: Accounts, done: set<AccountId>, x: AccountId)
    requires SameButSlots(ClearedAll(was, done, false), accounts)
    ensures x in accounts <==> x in was
    ensures x in was ==>
      accounts[x].expiry == (if x in done then None else was[x].expiry) && accounts[x].canVote == was[x].canVote
  {
    if x in was { assert x in ClearedAll(was, done, false); }
    if x in accounts { assert x in ClearedAll(was, done, false); }
  }

  lemma AllExpunged(was: Accounts, accounts: Accounts, cast: Votes, votes: Votes, done: set<AccountId>, now: nat,
      budget: nat)
    requires Expunged(was, accounts, cast, votes, done, now, budget)
    requires |done| == budget || forall x :: x in accounts && accounts[x].expiry.Some? ==>
      now < accounts[x].expiry.value
    ensures done <= ExpiredBy(was, now) && |done| <= budget && (|done| < budget ==> done == ExpiredBy(was, now))
    ensures votes == VotesOutside(cast, done) && SameButSlots(ClearedAll(was, done, false), accounts)
  {
    hide ClearedAll, VotesOutside, SameButSlots;
    if |done| < budget {
      forall x | x in ExpiredBy(was, now) ensures x in done { ExpiryKept(was, accounts, done, x); }
    }
  }

  lemma ExpungedOneMore(was: Accounts, before: Accounts, after: Accounts, cast: Votes, kept: Votes, votes: Votes,
      done: set<AccountId>, now: nat, budget: nat, a: AccountId)
    requires Expunged(was, before, cast, kept, done, now, budget) && |done| != budget
    requires a in before && before[a].expiry.Some? && before[a].expiry.value <= now && votes == VotesWithout(kept, a)
    requires SameButSlots(before[a := Cleared(before[a]).(canVote := before[a].canVote, expiry := None)], after)
    ensures Expunged(was, after, cast, votes, done + {a}, now, budget)
    ensures |ExpiredBy(was, now) - (done + {a})| < |ExpiredBy(was, now) - done|
  {
    ExpiryKept(was, before, done, a);
    assert a in ExpiredBy(was, now) && a !in done;
    hide ClearedAll, VotesOutside, SameButSlots, ExpiredBy;
    ClearedAllStep(was, before, after, cast, done, a, false);
    var all := ExpiredBy(was, now);
    assert all - done == (all - (done + {a})) + {a};
  }

  /** The entry that comes first by date, then by key, if its date has come. */
  method EarliestDue(dates: map<AccountId, nat>, now: nat) returns (first: Option<AccountId>)
    ensures first.None? <==> forall x :: x in dates ==> now < dates[x]
    ensures first.Some? ==> first.value in dates && dates[first.value] <= now
    ensures first.Some? ==> forall x :: x in dates ==>
      dates[first.value] < dates[x] || (dates[first.value] == dates[x] && first.value <= x)
  {
    first := None;
    var rest := dates.Keys;
    while exists x :: x in rest
      invariant rest <= dates.Keys
      invariant first.None? ==> forall x :: x in dates && x !in rest ==> now < dates[x]
      invariant first.Some? ==> first.value in dates && dates[first.value] <= now
      invariant first.Some? ==> forall x :: x in dates && x !in rest ==>
        dates[first.value] < dates[x] || (dates[first.value] == dates[x] && first.value <= x)
      decreases |rest|
    {
      var x :| x in rest;
      rest := rest - {x};
      if dates[x] <= now {
        if first.None? || dates[x] < dates[first.value] || (dates[x] == dates[first.value] && x < first.value) {
          first := Some(x);
        }
      }
    }
  }
}
