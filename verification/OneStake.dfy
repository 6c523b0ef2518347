/** Vesting shares as the ledger, the stake accounts and governance each keep them: every step changes all three
    alike. */
module OneStake {
  import opened Common
  import opened Funds
  import opened SharePrice
  import opened LedgerState
  import opened LedgerSteps
  import opened Withdrawals
  import opened StakeState
  import opened GovernanceState
  import Ledger
  import Stake
  import Governance
  import VoteTally

  type Id = int

  function Vest(a: Id): Holder
  {
    Holder(Vesting(a), Vests)
  }

  /** The ledger has every account's shares and liquid HIVE, the total of shares and the fund. */
  ghost predicate LedgerHas(funds: Balances, vests: int, hs: Holdings, p: Purse)
  {
    && p.total == vests && At(funds, Fund()) == p.fund && p.liquid.Keys == hs.Keys
    && (forall a :: a in hs ==> At(funds, Vest(a)) == hs[a].vesting && At(funds, Liq(a, Hive)) == p.liquid[a])
  }

  /** Governance has every account's shares, and their total. */
  ghost predicate GovernanceHas(accounts: Accounts, vesting: int, hs: Holdings, total: int)
  {
    && vesting == total && accounts.Keys == hs.Keys
    && forall a :: a in hs ==> accounts[a].vesting == hs[a].vesting
  }

  // ---- The ledger ----

  lemma HasAt(funds: Balances, vests: int, hs: Holdings, p: Purse, a: Id)
    requires LedgerHas(funds, vests, hs, p)
    ensures p.total == vests && At(funds, Fund()) == p.fund && (a in hs <==> a in p.liquid)
    ensures a in hs ==> At(funds, Vest(a)) == hs[a].vesting && At(funds, Liq(a, Hive)) == p.liquid[a]
  {
  }

  lemma PoweredUpHas(funds: Balances, vests: int, hs: Holdings, p: Purse, from: Id, to: Id, amount: nat, shares: nat)
    requires LedgerHas(funds, vests, hs, p) && from in hs && to in hs && amount <= p.liquid[from]
    ensures amount <= At(funds, Liq(from, Hive))
    ensures LedgerHas(Credited(Moved(funds, Liq(from, Hive), Fund(), amount), Vest(to), shares), vests + shares,
        Plus(hs, to, shares), Purse(p.total + shares, p.fund + amount, p.liquid[from := p.liquid[from] - amount]))
  {
  }

  lemma MovedHas(funds: Balances, vests: int, hs: Holdings, p: Purse, from: Id, to: Id, n: nat)
    requires LedgerHas(funds, vests, hs, p) && from in hs && to in hs && n <= hs[from].vesting
    ensures n <= At(funds, Vest(from))
    ensures LedgerHas(Moved(funds, Vest(from), Vest(to), n), vests, Plus(Minus(hs, from, n), to, n), p)
  {
    MovedShares(funds, from, to, n);
    hide At, Moved;
    var after := Plus(Minus(hs, from, n), to, n);
    forall a | a in hs
      ensures a in after
      ensures after[a].vesting == hs[a].vesting - (if a == from then n else 0) + if a == to then n else 0
    {
    }
  }

  lemma MovedShares(funds: Balances, from: Id, to: Id, n: nat)
    requires n <= At(funds, Vest(from))
    ensures var moved := Moved(funds, Vest(from), Vest(to), n);
      && (forall a ::
            At(moved, Vest(a)) == At(funds, Vest(a)) - (if a == from then n else 0) + if a == to then n else 0)
      && At(moved, Fund()) == At(funds, Fund()) && forall a :: At(moved, Liq(a, Hive)) == At(funds, Liq(a, Hive))
  {
  }

  lemma RedeemedHas(funds: Balances, vests: int, hs: Holdings, p: Purse, from: Id, to: Id, n: nat)
    requires LedgerHas(funds, vests, hs, p) && from in hs && to in hs && 0 < n <= hs[from].vesting && Covered(p, n)
    ensures var hive := Worth(n, vests, At(funds, Fund()));
      && n <= At(funds, Vest(from)) && hive <= At(funds, Fund())
      && LedgerHas(Moved(Debited(funds, Vest(from), n), Fund(), Liq(to, Hive), hive), vests - n, Minus(hs, from, n),
           Redeemed(p, to, n))
  {
    RedeemWithin(n, p.total, p.fund);
    hide Worth;
  }

  lemma IssuedHas(funds: Balances, vests: int, hs: Holdings, p: Purse, after: Balances, a: Id, shares: nat, hive: nat,
      coins: nat)
    requires LedgerHas(funds, vests, hs, p) && a in hs
    requires At(after, Fund()) == At(funds, Fund()) + hive && At(after, Vest(a)) == At(funds, Vest(a)) + shares
    requires At(after, Liq(a, Hive)) == At(funds, Liq(a, Hive)) + coins
    requires forall x :: x != a ==>
      At(after, Vest(x)) == At(funds, Vest(x)) && At(after, Liq(x, Hive)) == At(funds, Liq(x, Hive))
    ensures LedgerHas(after, vests + shares, Plus(hs, a, shares),
        Purse(p.total + shares, p.fund + hive, p.liquid[a := p.liquid[a] + coins]))
    ensures coins == 0 ==> p.liquid[a := p.liquid[a] + coins] == p.liquid
  {
    hide At;
  }

  /** What a claim does to the balances that count here. */
  lemma ClaimedFunds(st: State, a: Id, hive: nat, hbd: nat, shares: nat)
    requires Claimable(st.funds, a, hive, hbd, shares)
    ensures var after, funds := Claimed(st, a, hive, hbd, shares).funds, st.funds;
      && At(after, Fund()) == At(funds, Fund()) + ToMove(funds, a, shares)
      && At(after, Vest(a)) == At(funds, Vest(a)) + shares
      && At(after, Liq(a, Hive)) == At(funds, Liq(a, Hive)) + hive
      && forall x :: x != a ==>
           At(after, Vest(x)) == At(funds, Vest(x)) && At(after, Liq(x, Hive)) == At(funds, Liq(x, Hive))
    ensures var t := Claimed(st, a, hive, hbd, shares);
      t.supply.vests == st.supply.vests + shares && t.accounts == st.accounts
  {
    hide ToMove;
  }

  lemma NewcomerHas(st: State, hs: Holdings, p: Purse, accounts: Accounts, vesting: int, a: Id, account: Account)
    requires Sound(st) && a !in st.accounts && st.accounts == hs.Keys
    requires LedgerHas(st.funds, st.supply.vests, hs, p) && GovernanceHas(accounts, vesting, hs, p.total)
    requires account.vesting == 0
    ensures LedgerHas(st.funds, st.supply.vests, hs[a := Stake.NEWCOMER], p.(liquid := p.liquid[a := 0]))
    ensures GovernanceHas(accounts[a := account], vesting, hs[a := Stake.NEWCOMER], p.total)
  {
    hide Parties, FeesPaid, Counts, Book;
    assert !Known(st, Vest(a)) && !Known(st, Liq(a, Hive));
    assert At(st.funds, Vest(a)) == 0 && At(st.funds, Liq(a, Hive)) == 0;
  }

  /** Steps that leave everybody's shares alone. */
  lemma SameVesting(funds: Balances, vests: int, hs: Holdings, p: Purse, accounts: Accounts, vesting: int,
      after: Holdings)
    requires LedgerHas(funds, vests, hs, p) && GovernanceHas(accounts, vesting, hs, p.total)
    requires after.Keys == hs.Keys && forall a :: a in hs ==> after[a].vesting == hs[a].vesting
    ensures LedgerHas(funds, vests, after, p) && GovernanceHas(accounts, vesting, after, p.total)
  {
  }

  // ---- Governance ----

  lemma GovernanceAt(accounts: Accounts, vesting: int, hs: Holdings, total: int, a: Id)
    requires GovernanceHas(accounts, vesting, hs, total)
    ensures vesting == total && accounts.Keys == hs.Keys && (a in hs ==> accounts[a].vesting == hs[a].vesting)
  {
  }

  /** Only one account's shares have changed. */
  lemma ChangedHas(accounts: Accounts, vesting: int, hs: Holdings, total: int, after: Accounts, a: Id, account: Account,
      h: Holding)
    requires GovernanceHas(accounts, vesting, hs, total) && a in hs && SameButSlots(accounts[a := account], after)
    requires account.vesting == h.vesting
    ensures var change := h.vesting - hs[a].vesting; GovernanceHas(after, vesting + change, hs[a := h], total + change)
  {
    forall x | x in hs ensures x in after && after[x].vesting == hs[a := h][x].vesting {
      assert x in accounts[a := account];
    }
    assert after.Keys == hs.Keys;
  }

  lemma UnchangedSlots(accounts: Accounts)
    ensures SameButSlots(accounts, accounts)
  {
  }

  /** Shares handed over have left one account and reached the other. */
  lemma HandedHas(accounts: Accounts, vesting: int, hs: Holdings, total: int, after: Accounts, from: Id, to: Id, n: nat)
    requires GovernanceHas(accounts, vesting, hs, total) && from in hs && to in hs && n <= hs[from].vesting
    requires from != to ==> SameButSlots(accounts
      [from := accounts[from].(vesting := accounts[from].vesting - n)]
      [to := accounts[to].(vesting := accounts[to].vesting + n, delayed := accounts[to].delayed + n)], after)
    requires from == to ==>
      SameButSlots(accounts[from := accounts[from].(delayed := accounts[from].delayed + n)], after)
    ensures GovernanceHas(after, vesting, Plus(Minus(hs, from, n), to, n), total)
  {
    assert after.Keys == accounts.Keys;
    forall x | x in hs ensures after[x].vesting == Plus(Minus(hs, from, n), to, n)[x].vesting { assert x in accounts; }
  }

  lemma NoneNegative(accounts: Accounts, votes: VoteTally.Votes, witnesses: map<VoteTally.WitnessId, int>, total: int,
      depth: nat, maxVotes: nat, a: Id)
    requires Consistent(accounts, votes, witnesses, total, depth, maxVotes) && a in accounts
    ensures 0 <= accounts[a].delayed <= accounts[a].vesting
  {
  }

  // ---- One part of a power-down ----

  /** Shares drawn from an account and given to another, whichever comes first. */
  lemma DrawnAndGiven(v: Holdings, from: Id, drawn: nat, to: Id, n: nat)
    requires from in v && to in v && drawn + n <= v[from].vesting
    ensures Plus(Minus(Minus(v, from, drawn), from, n), to, n) == Minus(Plus(v, to, n), from, drawn + n)
    ensures Minus(Minus(v, from, drawn), from, n) == Minus(v, from, drawn + n)
  {
  }

  lemma GivenMore(hs: Holdings, rs: Routes, part: nat, ts: seq<Id>, i: nat)
    requires i < |ts|
    ensures Withdrawals.Vested(hs, rs, part, ts[..i + 1])
         == Plus(Withdrawals.Vested(hs, rs, part, ts[..i]), ts[i], Deposit(rs, part, ts[i]))
    ensures Deposits(rs, part, ts[..i + 1]) == Deposits(rs, part, ts[..i]) + Deposit(rs, part, ts[i])
  {
    assert ts[..i + 1][..i] == ts[..i];
  }

  lemma NothingDrawn(v: Holdings, from: Id)
    requires from in v
    ensures Minus(v, from, 0) == v
  {
    assert v[from := v[from]] == v;
  }

  lemma NothingGiven(v: Holdings, to: Id)
    ensures Plus(v, to, 0) == v
  {
    if to in v { assert v[to := v[to]] == v; }
  }

  // ---- The three together ----

  class Chain {
    const l: Ledger.Ledger
    const s: Stake.Stakes
    const g: Governance.Database

    ghost predicate Agree()
      reads this, l, s, g
    {
      && l.accounts == s.holdings.Keys && l.restricted == s.restricted == g.restricted && l.treasury == s.treasury
      && LedgerHas(l.funds, l.supply.vests, s.holdings, s.Money())
      && GovernanceHas(g.accounts, g.totalVesting, s.holdings, s.total)
    }

    ghost predicate Valid()
      reads this, l, s, g
    {
      l.Valid() && s.Valid() && g.Valid() && Agree()
    }

    constructor (treasury: Id, restricted: set<Id>, depth: nat, maxVotes: nat, period: nat, first: nat, shift: nat)
      requires 0 < shift
      ensures Valid() && fresh(l) && fresh(s) && fresh(g)
    {
      l := new Ledger.Ledger(treasury, restricted);
      s := new Stake.Stakes(treasury, restricted);
      g := new Governance.Database(depth, maxVotes, period, first, shift, restricted);
    }

    /** HIVE becomes shares. */
    method PowerUp(from: Id, to: Id, amount: nat) returns (ok: bool)
      requires Valid() && amount > 0
      modifies l, s, g
      ensures Valid()
      ensures ok <==>
        && from in old(l.accounts) && to in old(l.accounts) && from !in l.restricted && to != l.treasury
        && amount <= At(old(l.funds), Liq(from, Hive))
    {
      hide Sound, Consistent, LedgerHas, GovernanceHas, Credited, Moved, At, Shares, SameButSlots;
      hide Stake.Booked, Stake.Sane, Stake.Routed, VestedTotal;
      var shares := Shares(amount, s.total, s.fund);
      HasAt(l.funds, l.supply.vests, s.holdings, s.Money(), from);
      GovernanceAt(g.accounts, g.totalVesting, s.holdings, s.total, to);
      ghost var accounts, hs := g.accounts, s.holdings;
      if from in s.holdings && to in s.holdings && amount <= s.liquid[from] {
        PoweredUpHas(l.funds, l.supply.vests, s.holdings, s.Money(), from, to, amount, shares);
      }
      ok := l.TransferToVesting(from, to, amount);
      var same := s.PowerUp(from, to, amount);
      assert same == ok;
      if ok {
        g.AddDelayedVesting(to, shares);
        UnchangedSlots(g.accounts);
        ChangedHas(accounts, old(g.totalVesting), hs, old(s.total), g.accounts, to, g.accounts[to], s.holdings[to]);
      }
    }

    /** A restricted account hands shares over. */
    method TransferShares(from: Id, to: Id, n: nat) returns (ok: bool)
      requires Valid()
      modifies l, s, g
      ensures Valid()
      ensures ok <==>
        && from in l.restricted && from in old(l.accounts) && to in old(l.accounts)
        && 0 < n <= old(s.holdings)[from].vesting - old(s.holdings)[from].delegated
        && old(g.accounts)[from].delayed <= old(s.holdings)[from].vesting - n
    {
      hide Sound, Consistent, LedgerHas, GovernanceHas, Moved, At, Plus, Minus, SameButSlots;
      hide Stake.Booked, Stake.Sane, Stake.Routed, VestedTotal;
      GovernanceAt(g.accounts, g.totalVesting, s.holdings, s.total, from);
      HasAt(l.funds, l.supply.vests, s.holdings, s.Money(), from);
      ok := from in s.holdings && to in s.holdings;
      if !ok { return; }
      ghost var hs := s.holdings;
      NoneNegative(g.accounts, g.votes, g.witnesses, g.totalVesting, g.depth, g.maxVotes, from);
      var delegated, delayed := s.holdings[from].delegated, g.accounts[from].delayed;
      var same := g.TransferVests(from, to, n, delegated);
      ok := s.TransferShares(from, to, n, delayed);
      assert same == ok;
      if ok {
        HandedHas(old(g.accounts), old(g.totalVesting), hs, s.total, g.accounts, from, to, n);
        MovedHas(l.funds, l.supply.vests, hs, s.Money(), from, to, n);
        var moved := l.WithdrawShares(from, to, n, true);
      }
    }

    // ---- Power-down ----

    /** First pass in the ledger: shares go straight from the account to the vesting of each target. */
    method VestInLedger(from: Id, rs: Routes, part: nat, ts: seq<Id>, ghost hs: Holdings, ghost p: Purse)
      requires l.Valid() && LedgerHas(l.funds, l.supply.vests, hs, p) && l.accounts == hs.Keys
      requires from in hs && Deposits(rs, part, ts) <= part <= hs[from].vesting && forall t :: t in ts ==> t in hs
      modifies l
      ensures l.Valid() && l.accounts == hs.Keys
      ensures LedgerHas(l.funds, l.supply.vests,
          Minus(Withdrawals.Vested(hs, rs, part, ts), from, Deposits(rs, part, ts)), p)
    {
      hide Sound, LedgerHas, Moved, At, Minus, Plus, Deposit, Deposits, Withdrawals.Vested;
      NothingDrawn(hs, from);
      NoTargets(hs, rs, part);
      assert ts[..0] == [];
      for i := 0 to |ts|
        invariant l.Valid() && l.accounts == hs.Keys
        invariant LedgerHas(l.funds, l.supply.vests,
            Minus(Withdrawals.Vested(hs, rs, part, ts[..i]), from, Deposits(rs, part, ts[..i])), p)
      {
        var n := Deposit(rs, part, ts[i]);
        ghost var v, drawn := Withdrawals.Vested(hs, rs, part, ts[..i]), Deposits(rs, part, ts[..i]);
        DepositsPrefix(rs, part, ts, i);
        GivenMore(hs, rs, part, ts, i);
        StillThere(hs, rs, part, ts[..i], from, drawn, n);
        HasAt(l.funds, l.supply.vests, Minus(v, from, drawn), p, from);
        DrawnAndGiven(v, from, drawn, ts[i], n);
        if n > 0 {
          MovedHas(l.funds, l.supply.vests, Minus(v, from, drawn), p, from, ts[i], n);
          var ok := l.WithdrawShares(from, ts[i], n, true);
        } else {
          NothingGiven(v, ts[i]);
        }
      }
      assert ts[..|ts|] == ts;
    }

    /** Second pass in the ledger: shares are redeemed for each target, at the price of the moment. */
    method PayInLedger(from: Id, rs: Routes, part: nat, ts: seq<Id>, ghost v: Holdings, ghost drawn: nat,
        ghost p: Purse)
      requires from in v && drawn + Deposits(rs, part, ts) <= v[from].vesting && l.accounts == v.Keys
      requires l.Valid() && LedgerHas(l.funds, l.supply.vests, Minus(v, from, drawn), p)
      requires Covered(p, Deposits(rs, part, ts)) && forall t :: t in ts ==> t in v && t in p.liquid
      modifies l
      ensures l.Valid() && l.accounts == v.Keys
      ensures LedgerHas(l.funds, l.supply.vests, Minus(v, from, drawn + Deposits(rs, part, ts)),
          PaidOut(p, rs, part, ts))
    {
      hide Sound, LedgerHas, At, Minus, Deposit, Deposits, Worth, Redeemed;
      NoTargets(v, rs, part);
      assert ts[..0] == [];
      for i := 0 to |ts|
        invariant Deposits(rs, part, ts[..i]) <= Deposits(rs, part, ts)
        invariant l.Valid() && l.accounts == v.Keys
        invariant LedgerHas(l.funds, l.supply.vests, Minus(v, from, drawn + Deposits(rs, part, ts[..i])),
            PaidOut(p, rs, part, ts[..i]))
      {
        var n := Deposit(rs, part, ts[i]);
        DepositsPrefix(rs, part, ts, i);
        PaidMore(p, rs, part, ts, i);
        ghost var q := PaidOut(p, rs, part, ts[..i]);
        RedeemInLedger(from, ts[i], n, v, drawn + Deposits(rs, part, ts[..i]), q);
      }
      assert ts[..|ts|] == ts;
    }

    method RedeemInLedger(from: Id, to: Id, n: nat, ghost v: Holdings, ghost drawn: nat, ghost q: Purse)
      requires from in v && to in v && drawn + n <= v[from].vesting && l.accounts == v.Keys
      requires l.Valid() && LedgerHas(l.funds, l.supply.vests, Minus(v, from, drawn), q) && Covered(q, n)
      modifies l
      ensures l.Valid() && l.accounts == v.Keys
      ensures LedgerHas(l.funds, l.supply.vests, Minus(v, from, drawn + n), Redeemed(q, to, n))
    {
      hide Sound, LedgerHas, At, Minus, Worth, Moved, Debited, Issued;
      MinusAt(v, from, drawn);
      if n > 0 {
        DrawnAndGiven(v, from, drawn, to, n);
        HasAt(l.funds, l.supply.vests, Minus(v, from, drawn), q, from);
        RedeemedHas(l.funds, l.supply.vests, Minus(v, from, drawn), q, from, to, n);
        VestsIssued(l.supply, n);
        var ok := l.WithdrawShares(from, to, n, false);
      }
    }

    /** Governance: targets get delayed votes, and the account itself loses what leaves it for good. */
    method PayInGovernance(from: Id, rs: Routes, part: nat, ts: seq<Id>, ghost hs: Holdings, ghost total: int)
      requires g.Valid() && GovernanceHas(g.accounts, g.totalVesting, hs, total)
      requires from in hs && Deposits(rs, part, ts) <= part <= hs[from].vesting && forall t :: t in ts ==> t in hs
      modifies g`accounts, g`witnesses, g`totalVesting
      ensures g.Valid()
      ensures GovernanceHas(g.accounts, g.totalVesting, Minus(Withdrawals.Vested(hs, rs, part, ts), from, part),
          total + Deposits(rs, part, ts) - part)
    {
      hide Consistent, GovernanceHas, Minus, Deposit, Deposits, Withdrawals.Vested, SameButSlots, PartlyGiven;
      var own: nat := 0;
      GivenNothing(g.accounts, g.totalVesting, hs, total, rs, part, from);
      assert ts[..0] == [];
      for i := 0 to |ts|
        invariant g.Valid() && own <= Deposits(rs, part, ts[..i])
        invariant PartlyGiven(g.accounts, g.totalVesting, hs, total, rs, part, ts[..i], from, own)
      {
        var n := Deposit(rs, part, ts[i]);
        GivenMore(hs, rs, part, ts, i);
        DepositsPrefix(rs, part, ts, i);
        ghost var before, vesting := g.accounts, g.totalVesting;
        GivenAt(before, vesting, hs, total, rs, part, ts[..i], from, own, ts[i]);
        if ts[i] == from {
          GivenSelf(before, vesting, hs, total, rs, part, ts, i, from, own);
          own := own + n;
        } else {
          if n > 0 { g.AddDelayedVesting(ts[i], n); }
          GivenOther(before, vesting, hs, total, rs, part, ts, i, from, own, g.accounts);
        }
      }
      assert ts[..|ts|] == ts;
      ghost var before, vesting := g.accounts, g.totalVesting;
      GivenAt(before, vesting, hs, total, rs, part, ts, from, own, from);
      var taken := part - own;
      ghost var account := before[from].(vesting := before[from].vesting - taken,
        delayed := if taken >= before[from].delayed then 0 else before[from].delayed - taken);
      g.RemoveVesting(from, taken);
      GivenTaken(before, vesting, hs, total, rs, part, ts, from, own, g.accounts, account);
    }

    /** One part of a power-down, routes and all. */
    method Payout(from: Id) returns (ok: bool)
      requires Valid()
      modifies l, s, g
      ensures Valid()
      ensures ok <==> from in old(s.holdings) && old(s.holdings)[from].down.next.Some?
    {
      hide Sound, Consistent, LedgerHas, GovernanceHas, Deposits, Withdrawals.Vested, Coins, NextPart,
        PaidOut, Redeemed, Minus;
      hide Stake.Booked, Stake.Sane, Stake.Routed, VestedTotal, Stake.PartPaid, Stake.PaidIn, Split, Planned;
      ok := from in s.holdings && s.holdings[from].down.next.Some?;
      if !ok { return; }
      ghost var hs, p := s.holdings, s.Money();
      Stake.RoutesOf(s.routes, s.routeCounts, s.holdings.Keys, from);
      Stake.PartNumbers(s.holdings, s.restricted, from);
      var part := NextPart(s.holdings[from].down);
      var rs := s.routes[from];
      var invalid, borrowed, vested, paid, _, _ := s.Payout(from);
      Targets(hs, p, rs, part, from, vested, paid, s.holdings, s.Money());
      PayoutInLedger(from, rs, part, vested, paid, hs, p, s.holdings, s.Money());
      PayInGovernance(from, rs, part, vested, hs, p.total);
      PaidAlike(l.funds, l.supply.vests, g.accounts, g.totalVesting, hs, p, rs, part, from, vested, paid, s.holdings,
          s.Money());
    }

    method PayoutInLedger(from: Id, rs: Routes, part: nat, vested: seq<Id>, paid: seq<Id>, ghost hs: Holdings,
        ghost p: Purse, ghost after: Holdings, ghost q: Purse)
      requires l.Valid() && LedgerHas(l.funds, l.supply.vests, hs, p) && l.accounts == hs.Keys
      requires Planned(hs, p, rs, part, from, vested, paid, after, q)
      modifies l
      ensures l.Valid() && l.accounts == hs.Keys
      ensures LedgerHas(l.funds, l.supply.vests, Minus(Withdrawals.Vested(hs, rs, part, vested), from, part), q)
    {
      hide Sound, LedgerHas, Deposits, Withdrawals.Vested, PaidOut, Redeemed, Minus;
      VestInLedger(from, rs, part, vested, hs, p);
      ghost var v := Withdrawals.Vested(hs, rs, part, vested);
      PayInLedger(from, rs, part, paid, v, Deposits(rs, part, vested), p);
      var left := part - Deposits(rs, part, vested) - Deposits(rs, part, paid);
      RedeemInLedger(from, from, left, v, part - left, PaidOut(p, rs, part, paid));
    }

    // ---- Rewards ----

    /** A block's inflation, with the producer's part as shares. */
    method ProduceBlock(producer: Id, content: nat, vesting: nat, reward: nat, hbd: nat) returns (ok: bool)
      requires Valid()
      modifies l, s, g
      ensures Valid()
      ensures ok <==> producer in l.accounts && l.treasury in l.accounts
    {
      hide Sound, Consistent, LedgerHas, GovernanceHas, At, Shares, SameButSlots, Plus;
      hide Stake.Booked, Stake.Sane, Stake.Routed, VestedTotal;
      ghost var accounts, hs, p, funds := g.accounts, s.holdings, s.Money(), l.funds;
      HasAt(l.funds, l.supply.vests, s.holdings, p, producer);
      GovernanceAt(g.accounts, g.totalVesting, s.holdings, s.total, producer);
      ok := l.ProcessFunds(producer, content, vesting, reward, hbd);
      if ok {
        s.AddToFund(vesting);
        var shares := Shares(reward, s.total, s.fund);
        s.ProducerReward(producer, reward);
        g.AddVesting(producer, shares);
        Elsewhere(funds, l.funds, producer, l.treasury);
        IssuedHas(funds, old(l.supply.vests), hs, p, l.funds, producer, shares, vesting + reward, 0);
        RaisedHas(accounts, old(g.totalVesting), hs, old(s.total), g.accounts, producer, shares);
      }
    }

    /** Rewards are claimed; it fails where shares would be left without any HIVE behind them. */
    method ClaimReward(a: Id, hive: nat, hbd: nat, shares: nat) returns (ok: bool)
      requires Valid()
      modifies l, s, g
      ensures Valid()
      ensures ok <==>
        && a in old(l.accounts) && a !in l.restricted && Claimable(old(l.funds), a, hive, hbd, shares)
        && (old(s.total) + shares > 0 ==> old(s.fund) + ToMove(old(l.funds), a, shares) > 0)
    {
      hide Sound, Consistent, LedgerHas, GovernanceHas, At, SameButSlots, ToMove, Claimable, Claimed, Plus;
      hide Stake.Booked, Stake.Sane, Stake.Routed, VestedTotal;
      ghost var accounts, hs, p, st := g.accounts, s.holdings, s.Money(), l.Now();
      HasAt(l.funds, l.supply.vests, s.holdings, p, a);
      GovernanceAt(g.accounts, g.totalVesting, s.holdings, s.total, a);
      ok := a in l.accounts && a !in l.restricted && Claimable(l.funds, a, hive, hbd, shares);
      if !ok { return; }
      ClaimedFunds(st, a, hive, hbd, shares);
      ToMoveDefined(l.funds, a, hive, hbd, shares);
      var move := ToMove(l.funds, a, shares);
      ok := s.ClaimReward(a, shares, move, hive);
      if ok {
        var same := l.ClaimRewards(a, hive, hbd, shares);
        g.AddVesting(a, shares);
        IssuedHas(st.funds, st.supply.vests, hs, p, l.funds, a, shares, move, hive);
        RaisedHas(accounts, old(g.totalVesting), hs, old(s.total), g.accounts, a, shares);
      }
    }

    method CreateAccount(a: Id) returns (ok: bool)
      requires Valid()
      modifies l, s, g
      ensures Valid() && (ok <==> a !in old(l.accounts))
    {
      hide Sound, Consistent, LedgerHas, GovernanceHas;
      hide Stake.Booked, Stake.Sane, Stake.Routed, VestedTotal;
      GovernanceAt(g.accounts, g.totalVesting, s.holdings, s.total, a);
      ghost var st, hs, p, accounts := l.Now(), s.holdings, s.Money(), g.accounts;
      ok := l.CreateAccount(a);
      if ok {
        var same := s.CreateAccount(a);
        g.CreateAccount(a);
        NewcomerHas(st, hs, p, accounts, g.totalVesting, a, g.accounts[a]);
      }
    }

    // ---- Runs ----

    /** Steps of the stake accounts that leave everybody's shares alone. */
    method InStake(step: Own)
      requires Valid()
      modifies s
      ensures Valid()
    {
      hide Sound, Consistent, LedgerHas, GovernanceHas, RateFor, Started, Stake.Available, Percent;
      hide Stake.Booked, Stake.Sane, Stake.Routed, VestedTotal;
      match step {
        case Withdraw(a, shares, now) => var _ := s.WithdrawVesting(a, shares, now);
        case Reroute(from, to, percent, autoVest) => var _ := s.SetRoute(from, to, percent, autoVest);
        case Lending(k, shares, mana, downMana, minShares, minUpdate, now, period) =>
          var _ := s.Delegate(k, shares, mana, downMana, minShares, minUpdate, now, period);
        case DelegationsDue(now) => s.ClearExpiredDelegations(now);
      }
      SameVesting(l.funds, l.supply.vests, old(s.holdings), s.Money(), g.accounts, g.totalVesting, s.holdings);
    }

    /** Votes and proxies leave them alone too. */
    method InGovernance(ballot: Ballot)
      requires Valid()
      modifies g
      ensures Valid()
    {
      hide Sound, Consistent, LedgerHas, GovernanceHas, ChainFits, ProxiesOf;
      hide Stake.Booked, Stake.Sane, Stake.Routed, VestedTotal;
      ghost var before := g.accounts;
      match ballot {
        case Vote(a, w, approve, now) => var _ := g.WitnessVote(a, w, approve, now);
        case Proxy(a, proxy, now) => if proxy != Some(a) { var _ := g.WitnessProxy(a, proxy, now); }
      }
      SameAccounts(before, g.accounts, g.totalVesting, s.holdings, s.total);
    }

    method Apply(step: Step)
      requires Valid()
      modifies l, s, g
      ensures Valid()
    {
      hide Sound, Consistent, LedgerHas, GovernanceHas, Claimable, ToMove;
      hide Stake.Booked, Stake.Sane, Stake.Routed, VestedTotal;
      match step
      case NewAccount(a) => var _ := CreateAccount(a);
      case Up(from, to, amount) => if amount > 0 { var _ := PowerUp(from, to, amount); }
      case Hand(from, to, n) => var _ := TransferShares(from, to, n);
      case PartDue(from) => var _ := Payout(from);
      case Produce(producer, content, vesting, reward, hbd) =>
        var _ := ProduceBlock(producer, content, vesting, reward, hbd);
      case Claim(a, hive, hbd, shares) => var _ := ClaimReward(a, hive, hbd, shares);
      case OnlyStake(own) => InStake(own);
      case OnlyGovernance(ballot) => InGovernance(ballot);
    }

    /** After every run the ledger, the stake accounts and governance have the same shares for every account, and
        the same total, which is the sum over all of them. */
    method Run(steps: seq<Step>)
      requires Valid()
      modifies l, s, g
      ensures Valid()
      ensures forall a :: a in l.accounts ==>
        a in s.holdings && a in g.accounts && At(l.funds, Vest(a)) == s.holdings[a].vesting == g.accounts[a].vesting
      ensures l.supply.vests == s.total == g.totalVesting == VestedTotal(s.holdings)
    {
      hide Sound, Consistent, Stake.Booked, Stake.Sane, Stake.Routed, VestedTotal;
      for i := 0 to |steps|
        invariant Valid()
      {
        Apply(steps[i]);
      }
    }
  }

  datatype Own =
    | Withdraw(Id, nat, nat)
    | Reroute(Id, Id, nat, bool)
    | Lending(Link, nat, int, int, nat, nat, nat, nat)
    | DelegationsDue(nat)

  datatype Ballot = Vote(Id, VoteTally.WitnessId, bool, nat) | Proxy(Id, Option<Id>, nat)

  datatype Step =
    | NewAccount(Id)
    | Up(Id, Id, nat)
    | Hand(Id, Id, nat)
    | PartDue(Id)
    | Produce(Id, nat, nat, nat, nat)
    | Claim(Id, nat, nat, nat)
    | OnlyStake(Own)
    | OnlyGovernance(Ballot)

  lemma SameAccounts(accounts: Accounts, after: Accounts, vesting: int, hs: Holdings, total: int)
    requires GovernanceHas(accounts, vesting, hs, total)
    requires after.Keys == accounts.Keys && forall a :: a in accounts ==> after[a].vesting == accounts[a].vesting
    ensures GovernanceHas(after, vesting, hs, total)
  {
  }

  lemma Elsewhere(funds: Balances, after: Balances, producer: Id, treasury: Id)
    requires forall h :: h !in {Pool(), Fund(), Liq(treasury, Hbd), Vest(producer)} ==> At(after, h) == At(funds, h)
    ensures forall x :: x != producer ==> At(after, Vest(x)) == At(funds, Vest(x))
    ensures forall x :: At(after, Liq(x, Hive)) == At(funds, Liq(x, Hive))
  {
    hide At;
  }

  lemma NoTargets(hs: Holdings, rs: Routes, part: nat)
    ensures Withdrawals.Vested(hs, rs, part, []) == hs && Deposits(rs, part, []) == 0
  {
  }

  lemma MinusAt(v: Holdings, from: Id, drawn: nat)
    requires from in v && drawn <= v[from].vesting
    ensures Minus(v, from, drawn).Keys == v.Keys && Minus(v, from, drawn)[from].vesting == v[from].vesting - drawn
  {
  }

  /** What has not been drawn yet is still there. */
  lemma StillThere(hs: Holdings, rs: Routes, part: nat, ts: seq<Id>, from: Id, drawn: nat, n: nat)
    requires from in hs && drawn + n <= hs[from].vesting
    ensures var v := Withdrawals.Vested(hs, rs, part, ts);
      v.Keys == hs.Keys && drawn + n <= v[from].vesting && Minus(v, from, drawn).Keys == hs.Keys
      && Minus(v, from, drawn)[from].vesting >= n
  {
    VestedGrows(hs, rs, part, ts);
  }

  lemma PaidMore(p: Purse, rs: Routes, part: nat, ts: seq<Id>, i: nat)
    requires Covered(p, Deposits(rs, part, ts)) && (forall t :: t in ts ==> t in p.liquid) && i < |ts|
    requires Deposits(rs, part, ts[..i]) + Deposit(rs, part, ts[i]) <= Deposits(rs, part, ts)
    ensures Deposits(rs, part, ts[..i + 1]) == Deposits(rs, part, ts[..i]) + Deposit(rs, part, ts[i])
    ensures var q, n := PaidOut(p, rs, part, ts[..i]), Deposit(rs, part, ts[i]);
      Covered(q, n) && PaidOut(p, rs, part, ts[..i + 1]) == Redeemed(q, ts[i], n)
  {
    hide Deposit, Redeemed;
    assert ts[..i + 1][..i] == ts[..i];
  }

  /** Governance while targets are getting their shares; `own` is what the account itself is a target for. */
  ghost predicate PartlyGiven(accounts: Accounts, vesting: int, hs: Holdings, total: int, rs: Routes, part: nat,
      ts: seq<Id>, from: Id, own: nat)
  {
    var v := Withdrawals.Vested(hs, rs, part, ts);
    && from in v && from in hs && v.Keys == hs.Keys && v[from].vesting == hs[from].vesting + own
    && GovernanceHas(accounts, vesting, Minus(v, from, own), total + Deposits(rs, part, ts) - own)
  }

  lemma GivenNothing(accounts: Accounts, vesting: int, hs: Holdings, total: int, rs: Routes, part: nat, from: Id)
    requires GovernanceHas(accounts, vesting, hs, total) && from in hs
    ensures PartlyGiven(accounts, vesting, hs, total, rs, part, [], from, 0) && Deposits(rs, part, []) == 0
  {
    hide GovernanceHas;
    NothingDrawn(hs, from);
  }

  lemma GivenAt(accounts: Accounts, vesting: int, hs: Holdings, total: int, rs: Routes, part: nat, ts: seq<Id>,
      from: Id, own: nat, a: Id)
    requires PartlyGiven(accounts, vesting, hs, total, rs, part, ts, from, own)
    ensures accounts.Keys == hs.Keys && from in hs && accounts[from].vesting == hs[from].vesting
  {
    hide Deposits, Withdrawals.Vested;
  }

  lemma GivenSelf(accounts: Accounts, vesting: int, hs: Holdings, total: int, rs: Routes, part: nat,
      ts: seq<Id>, i: nat,
      from: Id, own: nat)
    requires i < |ts| && ts[i] == from && PartlyGiven(accounts, vesting, hs, total, rs, part, ts[..i], from, own)
    ensures PartlyGiven(accounts, vesting, hs, total, rs, part, ts[..i + 1], from, own + Deposit(rs, part, from))
  {
    GivenMore(hs, rs, part, ts, i);
    hide GovernanceHas, Deposits, Withdrawals.Vested, Deposit;
    var v, n := Withdrawals.Vested(hs, rs, part, ts[..i]), Deposit(rs, part, from);
    assert Minus(Plus(v, from, n), from, own + n) == Minus(v, from, own);
  }

  lemma GivenOther(accounts: Accounts, vesting: int, hs: Holdings, total: int, rs: Routes, part: nat, ts: seq<Id>,
      i: nat, from: Id, own: nat, after: Accounts)
    requires i < |ts| && ts[i] != from && ts[i] in hs && ts[i] in accounts
    requires PartlyGiven(accounts, vesting, hs, total, rs, part, ts[..i], from, own)
    requires var n, t := Deposit(rs, part, ts[i]), ts[i];
      after == if n > 0 then accounts[t := accounts[t].(vesting := accounts[t].vesting + n,
        delayed := accounts[t].delayed + n)]
        else accounts
    ensures PartlyGiven(after, vesting + Deposit(rs, part, ts[i]), hs, total, rs, part, ts[..i + 1], from, own)
  {
    GivenMore(hs, rs, part, ts, i);
    hide Deposits, Withdrawals.Vested, Deposit;
    var v, n, t := Withdrawals.Vested(hs, rs, part, ts[..i]), Deposit(rs, part, ts[i]), ts[i];
    var given := Minus(v, from, own);
    assert Minus(Plus(v, t, n), from, own) == given[t := given[t].(vesting := given[t].vesting + n)];
  }

  lemma GivenTaken(accounts: Accounts, vesting: int, hs: Holdings, total: int, rs: Routes, part: nat, ts: seq<Id>,
      from: Id, own: nat, after: Accounts, account: Account)
    requires PartlyGiven(accounts, vesting, hs, total, rs, part, ts, from, own) && own <= part <= hs[from].vesting
    requires from in accounts && account.vesting == accounts[from].vesting - (part - own)
    requires SameButSlots(accounts[from := account], after)
    ensures GovernanceHas(after, vesting - (part - own), Minus(Withdrawals.Vested(hs, rs, part, ts), from, part),
        total + Deposits(rs, part, ts) - part)
  {
    hide Deposits, Withdrawals.Vested, SameButSlots;
    var v := Withdrawals.Vested(hs, rs, part, ts);
    var given := Minus(v, from, own);
    var taken := given[from].(vesting := v[from].vesting - part);
    ChangedHas(accounts, vesting, given, total + Deposits(rs, part, ts) - own, after, from, account, taken);
    assert given[from := taken] == Minus(v, from, part);
  }

  /** What a payout tells of its targets, and of shares and money afterwards. */
  ghost predicate Planned(hs: Holdings, p: Purse, rs: Routes, part: nat, from: Id, vested: seq<Id>, paid: seq<Id>,
      after: Holdings, q: Purse)
  {
    var v, given, sold := Withdrawals.Vested(hs, rs, part, vested),
      Deposits(rs, part, vested), Deposits(rs, part, paid);
    && from in hs && part <= hs[from].vesting && given + sold <= part
    && (forall t :: t in vested ==> t in hs) && (forall t :: t in paid ==> t in hs && t in p.liquid)
    && v.Keys == hs.Keys && part <= v[from].vesting && Minus(v, from, part).Keys == after.Keys == hs.Keys
    && (forall a :: a in hs ==> after[a].vesting == Minus(v, from, part)[a].vesting)
    && Covered(p, sold) && Covered(PaidOut(p, rs, part, paid), part - given - sold)
    && q == Redeemed(PaidOut(p, rs, part, paid), from, part - given - sold)
  }

  lemma Targets(hs: Holdings, p: Purse, rs: Routes, part: nat, from: Id, vested: seq<Id>, paid: seq<Id>,
      after: Holdings,
      q: Purse)
    requires from in hs && hs[from].down.next.Some? && part == NextPart(hs[from].down) && p.liquid.Keys == hs.Keys
    requires Split(rs, vested, paid) && rs.Keys <= hs.Keys && part <= hs[from].vesting
    requires Deposits(rs, part, vested) + Deposits(rs, part, paid) <= part
    requires Stake.PartPaid(hs, after, from, rs, part, vested) && Stake.PaidIn(p, q, from, rs, part, vested, paid)
    ensures Planned(hs, p, rs, part, from, vested, paid, after, q)
    ensures from in hs && Deposits(rs, part, vested) <= part <= hs[from].vesting && forall t :: t in vested ==> t in hs
  {
    hide Deposits, NextPart, Redeemed, Deposit, Advanced;
    VestedGrows(hs, rs, part, vested);
    hide Withdrawals.Vested;
  }

  /** Ledger and governance have what the stake accounts have after a payout. */
  lemma PaidAlike(funds: Balances, vests: int, accounts: Accounts, vesting: int, hs: Holdings, p: Purse, rs: Routes,
      part: nat, from: Id, vested: seq<Id>, paid: seq<Id>, after: Holdings, q: Purse)
    requires Planned(hs, p, rs, part, from, vested, paid, after, q)
    requires q.total == p.total - (part - Deposits(rs, part, vested))
    requires var v := Minus(Withdrawals.Vested(hs, rs, part, vested), from, part);
      LedgerHas(funds, vests, v, q) && GovernanceHas(accounts, vesting, v, p.total + Deposits(rs, part, vested) - part)
    ensures LedgerHas(funds, vests, after, q) && GovernanceHas(accounts, vesting, after, q.total)
    ensures after.Keys == hs.Keys
  {
    hide LedgerHas, GovernanceHas, Deposits, Withdrawals.Vested, PaidOut, Redeemed, Minus;
    SameVesting(funds, vests, Minus(Withdrawals.Vested(hs, rs, part, vested), from, part), q, accounts, vesting, after);
  }

  lemma VestsIssued(supply: Supply, n: nat)
    ensures Issued(supply, Vests, 0 - n).vests == supply.vests - n
  {
  }

  lemma ToMoveDefined(funds: Balances, a: Id, hive: nat, hbd: nat, shares: nat)
    requires Claimable(funds, a, hive, hbd, shares)
    ensures shares <= At(funds, Holder(Rewards(a), RewardVests))
  {
  }

  lemma RaisedHas(accounts: Accounts, vesting: int, hs: Holdings, total: int, after: Accounts, a: Id, shares: nat)
    requires GovernanceHas(accounts, vesting, hs, total) && a in hs && a in accounts
    requires SameButSlots(accounts[a := accounts[a].(vesting := accounts[a].vesting + shares)], after)
    ensures GovernanceHas(after, vesting + shares, Plus(hs, a, shares), total + shares)
  {
    ChangedHas(accounts, vesting, hs, total, after, a, accounts[a].(vesting := accounts[a].vesting + shares),
        hs[a].(vesting := hs[a].vesting + shares));
  }
}
