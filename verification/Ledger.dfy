/** The token ledger: every operation that moves, issues or burns tokens. */
module Ledger {
  import opened Common
  import opened Sums
  import opened Arithmetic
  import opened Funds
  import opened Market
  import opened LedgerState
  import opened OrderBook
  import opened LedgerSteps
  import opened SharePrice
  import opened AuthorPayout
  import opened Conversions
  import opened Audit

  const ORDER_LIFETIME: nat := 60 * 60 * 24 * 28
  const MAX_PENDING_ESCROWS: nat := 255
  const MAX_WITHDRAWALS: nat := 100
  const SAVINGS_DELAY: nat := 60 * 60 * 24 * 3

  class Ledger {
    /** The treasury, and the accounts that may not make liquid transfers. */
    const treasury: Name
    const restricted: set<Name>
    var accounts: set<Name>
    var funds: Balances
    var supply: Supply
    var orders: map<nat, Order>
    var nextOrder: nat
    var escrows: map<Key, Escrow>
    var withdrawals: map<Key, SavingsRequest>
    var conversions: map<Key, nat>
    var collaterals: map<Key, Collateralized>
    var openEscrows: map<Name, nat>
    var openWithdrawals: map<Name, nat>

    ghost function Now(): State
      reads this
    {
      State(accounts, funds, supply, orders, nextOrder, escrows, withdrawals, conversions, collaterals, openEscrows,
          openWithdrawals)
    }

    ghost predicate Valid()
      reads this
    {
      Sound(Now())
    }

    constructor (treasury: Name, restricted: set<Name>)
      ensures Valid() && Now() == Empty() && this.treasury == treasury && this.restricted == restricted
    {
      this.treasury, this.restricted := treasury, restricted;
      accounts, funds, supply, orders, nextOrder := {}, map[], Supply(0, 0, 0, 0, 0), map[], 0;
      escrows, withdrawals, conversions, collaterals := map[], map[], map[], map[];
      openEscrows, openWithdrawals := map[], map[];
    }

    method CreateAccount(a: Name) returns (ok: bool)
      requires Valid()
      modifies this
      ensures Valid()
      ensures ok <==> a !in old(accounts)
      ensures Now() == if ok then WithAccount(old(Now()), a) else old(Now())
    {
      hide Sound;
      ok := a !in accounts;
      if ok {
        AddAccount(Now(), a);
        accounts, openEscrows, openWithdrawals := accounts + {a}, openEscrows[a := 0], openWithdrawals[a := 0];
      }
    }

    // ---- Moving, issuing and burning ----

    method Move(from: Holder, to: Holder, n: nat)
      requires Valid() && Open(Now(), to) && n <= At(funds, from) && from.token == to.token
      requires !from.place.ForSale? && !to.place.ForSale?
      modifies this`funds
      ensures Valid() && funds == Moved(old(funds), from, to, n)
    {
      hide Sound, Open;
      MoveSound(Now(), from, to, n);
      funds := Moved(funds, from, to, n);
    }

    method Issue(to: Holder, n: nat)
      requires Valid() && Open(Now(), to) && !to.place.ForSale?
      modifies this`funds, this`supply
      ensures Valid() && funds == Credited(old(funds), to, n) && supply == Issued(old(supply), to.token, n)
    {
      hide Sound, Open;
      IssueSound(Now(), to, n);
      funds, supply := Credited(funds, to, n), Issued(supply, to.token, n);
    }

    method Burn(from: Holder, n: nat)
      requires Valid() && n <= At(funds, from) && !from.place.ForSale?
      modifies this`funds, this`supply
      ensures Valid() && funds == Debited(old(funds), from, n) && supply == Issued(old(supply), from.token, 0 - n)
    {
      hide Sound;
      BurnSound(Now(), from, n);
      funds, supply := Debited(funds, from, n), Issued(supply, from.token, 0 - n);
    }

    // ---- Transfers ----

    /** HIVE sent to the treasury is burned and arrives as HBD; everything else just moves. */
    method Transfer(from: Name, to: Name, token: Token, amount: nat, feed: Option<Price>) returns (ok: bool)
      requires Valid() && (feed.Some? ==> IsPrice(feed.value))
      modifies this
      ensures Valid()
      ensures ok <==>
        && from in old(accounts) && to in old(accounts) && Coin(token) && from !in restricted
        && amount <= At(old(funds), Liq(from, token))
        && (token == Hive && to == treasury ==> feed.Some?)
      ensures !ok ==> Now() == old(Now())
      ensures ok && !(token == Hive && to == treasury) ==>
        Now() == old(Now()).(funds := Moved(old(funds), Liq(from, token), Liq(to, token), amount))
      ensures ok && token == Hive && to == treasury ==>
        var hbd := ToHbd(amount, feed.value);
        Now() == old(Now()).(funds := Credited(Debited(old(funds), Liq(from, Hive), amount), Liq(to, Hbd), hbd),
          supply := Issued(Issued(old(supply), Hive, 0 - amount), Hbd, hbd))
      ensures ok && !(token == Hive && to == treasury) ==> forall h ::
        At(funds, h) == At(old(funds), h)
          + Only(h, Holder(Liquid(to), token), amount) - Only(h, Holder(Liquid(from), token), amount)
      ensures ok && token == Hive && to == treasury ==>
        var hbd := At(funds, Holder(Liquid(to), Hbd)) - At(old(funds), Holder(Liquid(to), Hbd));
        && hbd * feed.value.quote <= amount * feed.value.base < hbd * feed.value.quote + feed.value.quote
        && forall h ::
            At(funds, h) == At(old(funds), h)
              + Only(h, Holder(Liquid(to), Hbd), hbd) - Only(h, Holder(Liquid(from), Hive), amount)
    {
      hide Sound, ToHbd;
      ok := from in accounts && to in accounts && Coin(token) && from !in restricted
        && amount <= At(funds, Liq(from, token));
      if !ok { return; }
      if token == Hive && to == treasury {
        if feed.None? { ok := false; return; }
        ToHbdExact(amount, feed.value);
        Burn(Liq(from, Hive), amount);
        Issue(Liq(to, Hbd), ToHbd(amount, feed.value));
      } else {
        Move(Liq(from, token), Liq(to, token), amount);
      }
    }

    // ---- Savings ----

    /** Interest on HBD savings is created when the savings next change. */
    method PayInterest(a: Name, token: Token, interest: nat)
      requires Valid() && a in accounts && Coin(token)
      modifies this`funds, this`supply
      ensures Valid()
      ensures Now() == WithInterest(old(Now()), a, token, interest)
      ensures forall h ::
        At(funds, h) == At(old(funds), h) + Only(h, Holder(Savings(a), Hbd), if token == Hbd then interest else 0)
    {
      hide Sound;
      if token == Hbd {
        Issue(Holder(Savings(a), Hbd), interest);
      }
    }

    method TransferToSavings(from: Name, to: Name, token: Token, amount: nat, interest: nat) returns (ok: bool)
      requires Valid()
      modifies this
      ensures Valid()
      ensures ok <==>
        && from in old(accounts) && to in old(accounts) && Coin(token) && from !in restricted && to != treasury
        && amount <= At(old(funds), Liq(from, token))
      ensures !ok ==> Now() == old(Now())
      ensures ok ==>
        var s := old(Now()).(funds := Moved(old(funds), Liq(from, token), Holder(Savings(to), token), amount));
        Now() == WithInterest(s, to, token, interest)
      ensures ok ==> forall h ::
        At(funds, h) == At(old(funds), h)
          + Only(h, Holder(Savings(to), token), amount + (if token == Hbd then interest else 0))
          - Only(h, Holder(Liquid(from), token), amount)
    {
      hide Sound;
      ok := from in accounts && to in accounts && Coin(token) && from !in restricted && to != treasury &&
        amount <= At(funds, Liq(from, token));
      if ok {
        Move(Liq(from, token), Holder(Savings(to), token), amount);
        PayInterest(to, token, interest);
      }
    }

    method TransferFromSavings(from: Name, to: Name, token: Token, amount: nat, id: nat, now: nat,
        interest: nat) returns (ok: bool)
      requires Valid()
      modifies this
      ensures Valid()
      ensures ok <==>
        && from in old(accounts) && to in old(accounts) && Coin(token) && from !in restricted
        && (to == treasury ==> token == Hbd)
        && |Owned(old(withdrawals).Keys, from)| < MAX_WITHDRAWALS && Key(from, id) !in old(withdrawals)
        && amount <= At(old(funds), Holder(Savings(from), token))
      ensures !ok ==> Now() == old(Now())
      ensures ok ==>
        var r := SavingsRequest(to, token, now + SAVINGS_DELAY);
        from in old(openWithdrawals) &&
        Now() == WithInterest(WithdrawalOpened(old(Now()), Key(from, id), r, amount), from, token, interest)
      ensures ok ==>
        && withdrawals == old(withdrawals)[Key(from, id) := SavingsRequest(to, token, now + SAVINGS_DELAY)]
        && forall h ::
            At(funds, h) == At(old(funds), h)
              + Only(h, Holder(WithdrawalFunds(from, id), token), amount)
              + Only(h, Holder(Savings(from), token), (if token == Hbd then interest else 0) - amount)
    {
      hide Conserved, Backed, FeesPaid, Parties, Book;
      ok := from in accounts && to in accounts && Coin(token) && from !in restricted
        && (to == treasury ==> token == Hbd);
      if !ok { return; }
      var k := Key(from, id);
      ok := openWithdrawals[from] < MAX_WITHDRAWALS && k !in withdrawals
        && amount <= At(funds, Holder(Savings(from), token));
      if ok {
        var r := SavingsRequest(to, token, now + SAVINGS_DELAY);
        WithdrawalOpenedSound(Now(), k, r, amount);
        WithdrawalOpenedBalances(Now(), k, r, amount);
        withdrawals := withdrawals[k := r];
        openWithdrawals := openWithdrawals[from := openWithdrawals[from] + 1];
        funds := Moved(funds, Holder(Savings(from), token), Leaving(k, token), amount);
        assert Now() == WithdrawalOpened(old(Now()), k, r, amount);
        hide WithdrawalOpened;
        PayInterest(from, token, interest);
      }
    }

    method CancelTransferFromSavings(from: Name, id: nat, interest: nat) returns (ok: bool)
      requires Valid()
      modifies this
      ensures Valid()
      ensures ok <==> Key(from, id) in old(withdrawals)
      ensures !ok ==> Now() == old(Now())
      ensures ok ==>
        && from in old(openWithdrawals) && old(openWithdrawals)[from] > 0
        && Now() == WithInterest(PutBack(old(Now()), Key(from, id)), from, old(withdrawals)[Key(from, id)].token,
             interest)
      ensures ok ==>
        var r := old(withdrawals)[Key(from, id)];
        var n := At(old(funds), Holder(WithdrawalFunds(from, id), r.token));
        && withdrawals == old(withdrawals) - {Key(from, id)}
        && forall h ::
            At(funds, h) == At(old(funds), h)
              + Only(h, Holder(Savings(from), r.token), n + (if r.token == Hbd then interest else 0))
              - Only(h, Holder(WithdrawalFunds(from, id), r.token), n)
    {
      hide Conserved, Backed, FeesPaid, Counts, Book;
      var k := Key(from, id);
      ok := k in withdrawals;
      if ok {
        PutBackSound(Now(), k);
        PutBackBalances(Now(), k);
        var token := withdrawals[k].token;
        funds := Moved(funds, Leaving(k, token), Holder(Savings(from), token), At(funds, Leaving(k, token)));
        withdrawals := withdrawals - {k};
        openWithdrawals := openWithdrawals[from := openWithdrawals[from] - 1];
        PayInterest(from, token, interest);
      }
    }

    method Deliver(k: Key)
      requires Valid() && k in withdrawals
      modifies this`funds, this`withdrawals, this`openWithdrawals
      ensures k.owner in old(openWithdrawals) && old(openWithdrawals)[k.owner] > 0
      ensures Valid() && Now() == Delivered(old(Now()), k)
      ensures withdrawals == old(withdrawals) - {k}
      ensures forall h :: At(funds, h) == At(old(funds), h) + Delivering(old(Now()), h)(k)
    {
      hide Sound, At, Only;
      DeliveredSound(Now(), k);
      DeliveredBalances(Now(), k);
      var r := withdrawals[k];
      funds := Moved(funds, Leaving(k, r.token), Liq(r.to, r.token), At(funds, Leaving(k, r.token)));
      withdrawals := withdrawals - {k};
      openWithdrawals := openWithdrawals[k.owner := openWithdrawals[k.owner] - 1];
    }

    /** Every withdrawal that is due reaches its receiver, and no other. */
    method ProcessSavingsWithdrawals(now: nat) returns (paid: seq<Key>)
      requires Valid()
      modifies this`funds, this`withdrawals, this`openWithdrawals
      ensures Valid()
      ensures Now() == DeliverAll(old(Now()), paid)
      ensures forall k :: k in paid ==> k in old(withdrawals) && old(withdrawals)[k].complete <= now
      ensures withdrawals == NotDue(old(withdrawals), now)
      ensures var due := set k | k in old(withdrawals) && old(withdrawals)[k].complete <= now;
        forall h :: At(funds, h) == At(old(funds), h) + Sum(due, Delivering(old(Now()), h))
    {
      hide Sound, NotDue, AllReached, Delivering;
      paid := [];
      ghost var s := Now();
      NoneReached(s);
      while exists k :: k in withdrawals && withdrawals[k].complete <= now
        invariant Valid() && Now() == DeliverAll(s, paid) && AllReached(s, Now())
        invariant forall k :: k in withdrawals ==> k in s.withdrawals && withdrawals[k] == s.withdrawals[k]
        invariant forall k :: k in s.withdrawals && k !in withdrawals ==> s.withdrawals[k].complete <= now
        invariant forall k :: k in paid ==> k in s.withdrawals && s.withdrawals[k].complete <= now
        decreases withdrawals.Keys
      {
        hide DeliverAll, Delivered;
        var k :| k in withdrawals && withdrawals[k].complete <= now;
        ghost var t := Now();
        Deliver(k);
        OneMoreReached(s, t, Now(), k);
        DeliverOneMore(s, paid, k);
        paid := paid + [k];
      }
      AllDelivered(s.withdrawals, withdrawals, now);
      ReachedDue(s, Now(), now);
    }

    // ---- Vesting and rewards ----

    /** HIVE becomes vesting shares at the current share price. */
    method TransferToVesting(from: Name, to: Name, amount: nat) returns (ok: bool)
      requires Valid()
      modifies this
      ensures Valid()
      ensures ok <==>
        && from in old(accounts) && to in old(accounts) && from !in restricted && to != treasury
        && amount <= At(old(funds), Liq(from, Hive))
      ensures Now() == if ok then PoweredUp(old(Now()), from, to, amount) else old(Now())
      ensures ok ==>
        var fund, vests := At(old(funds), Holder(VestingFund, Hive)), old(supply).vests;
        var shares := supply.vests - vests;
        && (if fund > 0 && vests > 0 then shares * fund <= amount * vests < shares * fund + fund
            else shares == amount * 1000)
        && forall h ::
            At(funds, h) == At(old(funds), h) - Only(h, Holder(Liquid(from), Hive), amount)
              + Only(h, Holder(VestingFund, Hive), amount) + Only(h, Holder(Vesting(to), Vests), shares)
    {
      hide Sound, Shares, At, Only;
      ok := from in accounts && to in accounts && from !in restricted && to != treasury
        && amount <= At(funds, Liq(from, Hive));
      if ok {
        PoweredUpBalances(Now(), from, to, amount);
        var shares := Shares(amount, supply.vests, At(funds, Fund()));
        Move(Liq(from, Hive), Fund(), amount);
        Issue(Holder(Vesting(to), Vests), shares);
      }
    }

    /** Shares leave an account: to another account's vesting, or as the HIVE they stand for. */
    method WithdrawShares(from: Name, to: Name, shares: nat, autoVest: bool) returns (ok: bool)
      requires Valid()
      modifies this
      ensures Valid()
      ensures ok <==>
        && from in old(accounts) && to in old(accounts) && shares <= At(old(funds), Holder(Vesting(from), Vests))
        && (autoVest || Worth(shares, old(supply).vests, At(old(funds), Fund())) <= At(old(funds), Fund()))
      ensures !ok ==> Now() == old(Now())
      ensures ok && autoVest ==>
        Now() == old(Now()).(funds :=
          Moved(old(funds), Holder(Vesting(from), Vests), Holder(Vesting(to), Vests), shares))
      ensures ok && !autoVest ==> Now() == PoweredDown(old(Now()), from, to, shares)
      ensures ok && autoVest ==> forall h ::
        At(funds, h) == At(old(funds), h)
          + Only(h, Holder(Vesting(to), Vests), shares) - Only(h, Holder(Vesting(from), Vests), shares)
      ensures ok && !autoVest ==>
        var fund, vests := At(old(funds), Holder(VestingFund, Hive)), old(supply).vests;
        var hive := fund - At(funds, Holder(VestingFund, Hive));
        && (if fund > 0 && vests > 0 then hive * vests <= shares * fund < (hive + 1) * vests
            else hive * 1000 <= shares < (hive + 1) * 1000)
        && supply.vests == vests - shares
        && forall h ::
            At(funds, h) == At(old(funds), h) - Only(h, Holder(Vesting(from), Vests), shares)
              - Only(h, Holder(VestingFund, Hive), hive) + Only(h, Holder(Liquid(to), Hive), hive)
    {
      hide Sound, Worth, At, Only;
      ok := from in accounts && to in accounts && shares <= At(funds, Holder(Vesting(from), Vests));
      if !ok { return; }
      if autoVest {
        MovedBalances(funds, Holder(Vesting(from), Vests), Holder(Vesting(to), Vests), shares);
        Move(Holder(Vesting(from), Vests), Holder(Vesting(to), Vests), shares);
      } else {
        var hive := Worth(shares, supply.vests, At(funds, Fund()));
        ok := hive <= At(funds, Fund());
        if ok {
          PoweredDownBalances(Now(), from, to, shares);
          DebitedElsewhere(funds, Holder(Vesting(from), Vests), shares, Fund());
          Burn(Holder(Vesting(from), Vests), shares);
          Move(Fund(), Liq(to, Hive), hive);
        }
      }
    }

    method CreateVesting(to: Name, hive: nat)
      requires Valid() && to in accounts
      modifies this`funds, this`supply
      ensures Valid()
      ensures var shares := Shares(hive, old(supply).vests, At(old(funds), Fund()));
        && funds == Credited(Credited(old(funds), Fund(), hive), Holder(Vesting(to), Vests), shares)
        && supply == old(supply).(hive := old(supply).hive + hive, vests := old(supply).vests + shares)
    {
      hide Sound, Shares;
      var shares := Shares(hive, supply.vests, At(funds, Fund()));
      Issue(Fund(), hive);
      Issue(Holder(Vesting(to), Vests), shares);
    }

    /** A block's inflation: to the reward fund, the vesting fund, the treasury, and the producer's vesting. */
    method ProcessFunds(producer: Name, content: nat, vesting: nat, reward: nat, hbd: nat) returns (ok: bool)
      requires Valid()
      modifies this`funds, this`supply
      ensures Valid()
      ensures ok <==> producer in accounts && treasury in accounts
      ensures !ok ==> Now() == old(Now())
      ensures ok ==>
        var shares := Shares(reward, old(supply).vests, At(old(funds), Fund()) + vesting);
        && supply == old(supply).(hive := old(supply).hive + content + vesting + reward, hbd := old(supply).hbd + hbd,
             vests := old(supply).vests + shares)
        && At(funds, Pool()) == At(old(funds), Pool()) + content
        && At(funds, Fund()) == At(old(funds), Fund()) + vesting + reward
        && At(funds, Liq(treasury, Hbd)) == At(old(funds), Liq(treasury, Hbd)) + hbd
        && At(funds, Holder(Vesting(producer), Vests)) == At(old(funds), Holder(Vesting(producer), Vests)) + shares
        && forall h :: h !in {Pool(), Fund(), Liq(treasury, Hbd), Holder(Vesting(producer), Vests)} ==>
             At(funds, h) == At(old(funds), h)
      ensures ok ==>
        var fund, vests := At(old(funds), Holder(VestingFund, Hive)) + vesting, old(supply).vests;
        var shares := At(funds, Holder(Vesting(producer), Vests)) - At(old(funds), Holder(Vesting(producer), Vests));
        if fund > 0 && vests > 0 then shares * fund <= reward * vests < shares * fund + fund
        else shares == reward * 1000
    {
      hide Sound, Shares;
      ok := producer in accounts && treasury in accounts;
      if ok {
        SharesExact(reward, supply.vests, At(funds, Fund()) + vesting);
        IssueInflation(content, vesting, hbd);
        CreateVesting(producer, reward);
      }
    }

    method IssueInflation(content: nat, vesting: nat, hbd: nat)
      requires Valid() && treasury in accounts
      modifies this`funds, this`supply
      ensures Valid()
      ensures supply == old(supply).(hive := old(supply).hive + content + vesting, hbd := old(supply).hbd + hbd)
      ensures At(funds, Pool()) == At(old(funds), Pool()) + content
      ensures At(funds, Fund()) == At(old(funds), Fund()) + vesting
      ensures At(funds, Liq(treasury, Hbd)) == At(old(funds), Liq(treasury, Hbd)) + hbd
      ensures forall h :: h !in {Pool(), Fund(), Liq(treasury, Hbd)} ==> At(funds, h) == At(old(funds), h)
    {
      hide Sound;
      Issue(Pool(), content);
      Issue(Fund(), vesting);
      Issue(Liq(treasury, Hbd), hbd);
    }

    method AwardCoins(a: Name, hive: nat, burned: nat, hbd: nat)
      requires Valid() && a in accounts && hive + burned <= At(funds, Pool())
      modifies this`funds, this`supply
      ensures Valid() && funds == AwardedCoins(old(funds), a, hive, burned, hbd)
      ensures supply == old(supply).(hive := old(supply).hive - burned, hbd := old(supply).hbd + hbd)
    {
      hide Sound;
      Move(Pool(), Holder(Rewards(a), Hive), hive);
      Burn(Pool(), burned);
      Issue(Holder(Rewards(a), Hbd), hbd);
    }

    method AwardShares(a: Name, vesting: nat, shares: nat)
      requires Valid() && a in accounts && vesting <= At(funds, Pool())
      modifies this`funds, this`supply
      ensures Valid() && funds == AwardedShares(old(funds), a, vesting, shares)
      ensures supply == old(supply).(hive := old(supply).hive - vesting,
        pendingHive := old(supply).pendingHive + vesting, rewardVests := old(supply).rewardVests + shares)
    {
      hide Sound;
      Burn(Pool(), vesting);
      Issue(Holder(Rewards(a), PendingHive), vesting);
      Issue(Holder(Rewards(a), RewardVests), shares);
    }

    /** A reward leaves the reward fund as HIVE, as HBD, and as vesting shares not yet claimed. */
    method AwardReward(a: Name, hive: nat, burned: nat, hbd: nat, vesting: nat) returns (ok: bool)
      requires Valid()
      modifies this`funds, this`supply
      ensures Valid()
      ensures ok <==>
        && a in accounts && hive + burned + vesting <= At(old(funds), Pool())
        && At(old(funds), Fund()) + old(supply).pendingHive > 0
      ensures Now() == if ok then Awarded(old(Now()), a, hive, burned, hbd, vesting) else old(Now())
      ensures ok ==>
        var fund := At(old(funds), Holder(VestingFund, Hive)) + old(supply).pendingHive;
        var vests := old(supply).vests + old(supply).rewardVests;
        var shares := supply.rewardVests - old(supply).rewardVests;
        && (if vests > 0 then shares * fund <= vesting * vests < shares * fund + fund else shares == 0)
        && forall h ::
            At(funds, h) == At(old(funds), h) - Only(h, Holder(RewardFund, Hive), hive + burned + vesting)
              + Only(h, Holder(Rewards(a), Hive), hive) + Only(h, Holder(Rewards(a), Hbd), hbd)
              + Only(h, Holder(Rewards(a), PendingHive), vesting) + Only(h, Holder(Rewards(a), RewardVests), shares)
    {
      hide Sound, RewardShares, AwardedCoins, AwardedShares, At, Only;
      ok := a in accounts && hive + burned + vesting <= At(funds, Pool()) && At(funds, Fund()) + supply.pendingHive > 0;
      if ok {
        var shares := SharesFor(vesting, supply.vests + supply.rewardVests, At(funds, Fund()) + supply.pendingHive);
        RewardSharesAre(Now(), vesting);
        AwardedPool(funds, a, hive, burned, hbd);
        AwardedBalances(Now(), a, hive, burned, hbd, vesting);
        AwardCoins(a, hive, burned, hbd);
        AwardShares(a, vesting, shares);
      }
    }

    method ClaimCoins(a: Name, hive: nat, hbd: nat)
      requires Valid() && a in accounts
      requires hive <= At(funds, Holder(Rewards(a), Hive)) && hbd <= At(funds, Holder(Rewards(a), Hbd))
      modifies this`funds
      ensures Valid() && funds == Collected(old(funds), a, hive, hbd)
    {
      hide Sound;
      Move(Holder(Rewards(a), Hive), Liq(a, Hive), hive);
      Move(Holder(Rewards(a), Hbd), Liq(a, Hbd), hbd);
    }

    method ClaimShares(a: Name, shares: nat, move: nat)
      requires Valid() && a in accounts
      requires
        && shares <= At(funds, Holder(Rewards(a), RewardVests)) && move <= At(funds, Holder(Rewards(a), PendingHive))
      modifies this`funds, this`supply
      ensures Valid() && funds == Vested(old(funds), a, shares, move) && supply == Unlocked(old(supply), shares, move)
    {
      hide Sound;
      Burn(Holder(Rewards(a), RewardVests), shares);
      Issue(Holder(Vesting(a), Vests), shares);
      Burn(Holder(Rewards(a), PendingHive), move);
      Issue(Fund(), move);
    }

    method ClaimRewards(a: Name, hive: nat, hbd: nat, shares: nat) returns (ok: bool)
      requires Valid()
      modifies this
      ensures Valid()
      ensures ok <==> a in old(accounts) && a !in restricted && Claimable(old(funds), a, hive, hbd, shares)
      ensures Now() == if ok then Claimed(old(Now()), a, hive, hbd, shares) else old(Now())
      ensures ok ==>
        var pending := At(old(funds), Holder(Rewards(a), PendingHive));
        var all := At(old(funds), Holder(Rewards(a), RewardVests));
        var move := supply.hive - old(supply).hive;
        && (if shares == all then move == pending else move * all <= shares * pending < move * all + all)
        && forall h ::
            At(funds, h) == At(old(funds), h)
              + Only(h, Holder(Liquid(a), Hive), hive) - Only(h, Holder(Rewards(a), Hive), hive)
              + Only(h, Holder(Liquid(a), Hbd), hbd) - Only(h, Holder(Rewards(a), Hbd), hbd)
              + Only(h, Holder(Vesting(a), Vests), shares) - Only(h, Holder(Rewards(a), RewardVests), shares)
              + Only(h, Holder(VestingFund, Hive), move) - Only(h, Holder(Rewards(a), PendingHive), move)
    {
      hide Sound, ToMove, Vested, Collected, At, Only;
      ok := a in accounts && a !in restricted && Claimable(funds, a, hive, hbd, shares);
      if ok {
        var move := ToMove(funds, a, shares);
        ClaimedBalances(Now(), a, hive, hbd, shares);
        ToMoveBound(funds, a, shares);
        CollectedElsewhere(funds, a, hive, hbd);
        ClaimCoins(a, hive, hbd);
        ClaimShares(a, shares, move);
      }
    }

    // ---- Conversions ----

    method Convert(k: Key, amount: nat, feed: Option<Price>, now: nat) returns (ok: bool)
      requires Valid()
      modifies this
      ensures Valid()
      ensures ok <==>
        && k.owner in old(accounts) && amount <= At(old(funds), Liq(k.owner, Hbd)) && feed.Some?
        && k !in old(conversions)
      ensures !ok ==> Now() == old(Now())
      ensures ok ==> Now() == old(Now()).(conversions := old(conversions)[k := now + CONVERSION_DELAY],
        funds := Moved(old(funds), Liq(k.owner, Hbd), Converting(k), amount))
      ensures ok ==> forall h ::
        At(funds, h) == At(old(funds), h) - Only(h, Holder(Liquid(k.owner), Hbd), amount)
          + Only(h, Holder(ConversionFunds(k.owner, k.id), Hbd), amount)
    {
      hide Sound;
      ok := k.owner in accounts && amount <= At(funds, Liq(k.owner, Hbd)) && feed.Some? && k !in conversions;
      if ok {
        AddConversionSound(Now(), k, now + CONVERSION_DELAY);
        conversions := conversions[k := now + CONVERSION_DELAY];
        Move(Liq(k.owner, Hbd), Converting(k), amount);
      }
    }

    /** HBD is created at once against HIVE that stays pledged until the request comes due. */
    method CollateralizedConvert(k: Key, amount: nat, median: Option<Price>, low: Price, printing: bool,
        withinLimit: bool, now: nat)
      returns (ok: bool)
      requires Valid() && IsPrice(low)
      modifies this
      ensures Valid()
      ensures ok <==>
        && k.owner in old(accounts) && amount <= At(old(funds), Liq(k.owner, Hive)) && median.Some? && printing
        && Immediate(amount, low) > 0 && withinLimit && k !in old(collaterals)
      ensures !ok ==> Now() == old(Now())
      ensures ok ==>
        var hbd := Immediate(amount, low);
        Now() == old(Now()).(collaterals := old(collaterals)[k := Collateralized(hbd, now + CONVERSION_DELAY)],
          funds := Credited(Moved(old(funds), Liq(k.owner, Hive), Pledged(k), amount), Liq(k.owner, Hbd), hbd),
          supply := Issued(old(supply), Hbd, hbd))
      ensures ok ==>
        var hbd := supply.hbd - old(supply).hbd;
        && (hbd * 21 * low.quote <= (amount / 2) * 20 * low.base < (hbd + 1) * 21 * low.quote)
        && collaterals == old(collaterals)[k := Collateralized(hbd, now + CONVERSION_DELAY)]
        && forall h ::
            At(funds, h) == At(old(funds), h) - Only(h, Holder(Liquid(k.owner), Hive), amount)
              + Only(h, Holder(CollateralFunds(k.owner, k.id), Hive), amount)
              + Only(h, Holder(Liquid(k.owner), Hbd), hbd)
    {
      hide Sound, Immediate, At, Only;
      var hbd := Immediate(amount, low);
      ok := k.owner in accounts && amount <= At(funds, Liq(k.owner, Hive)) && median.Some? && printing
        && hbd > 0 && withinLimit && k !in collaterals;
      if ok {
        var c := Collateralized(hbd, now + CONVERSION_DELAY);
        AddCollateralSound(Now(), k, c);
        ImmediateExact(amount, low);
        PledgedBalances(funds, k, amount, hbd);
        collaterals := collaterals[k := c];
        Move(Liq(k.owner, Hive), Pledged(k), amount);
        Issue(Liq(k.owner, Hbd), hbd);
      }
    }

    /** Requests to convert HBD that are due give up their HBD. */
    method DrawConversions(now: nat, p: Price) returns (due: seq<Payment>, hbd: nat, issue: nat)
      requires Valid() && IsPrice(p)
      modifies this`funds, this`conversions
      ensures Sound(Without(Now(), hbd, 0))
      ensures RegularDrawn(old(Now()), Now(), due, p, now) && hbd == GivenUp(due) && issue == Owed(due)
      ensures forall k :: k in conversions ==> conversions[k] > now
      ensures forall i :: 0 <= i < |due| ==> AtPrice(due[i], old(Now()), p)
    {
      hide Sound, ToHive, RegularDrawn, GivenUp, Owed, AtPrice;
      due, hbd, issue := [], 0, 0;
      ghost var s := Now();
      NoneDrawn(s, p, now);
      while exists k :: k in conversions && conversions[k] <= now
        invariant Sound(Without(Now(), hbd, 0))
        invariant RegularDrawn(s, Now(), due, p, now) && hbd == GivenUp(due) && issue == Owed(due)
        decreases conversions.Keys
      {
        var k :| k in conversions && conversions[k] <= now;
        var n := At(funds, Converting(k));
        var amount := ToHive(n, p);
        DrawConversion(Now(), k, hbd);
        RegularStep(s, Now(), due, p, now, k);
        OneMore(due, Payment(k, n, amount));
        due, issue, hbd := due + [Payment(k, n, amount)], issue + amount, hbd + n;
        funds, conversions := Debited(funds, Converting(k), n), conversions - {k};
      }
      DrawnAtPrice(s, Now(), due, p, now);
    }

    /** Collateral of the requests that are due: what the created HBD is worth is to be burned. */
    method DrawCollaterals(now: nat, p: Price, hbd: nat) returns (due: seq<Payment>, hive: nat, issue: int)
      requires Sound(Without(Now(), hbd, 0)) && IsPrice(p)
      modifies this`funds, this`collaterals
      ensures Sound(Without(Now(), hbd, hive))
      ensures SecuredDrawn(old(Now()), Now(), due, p, now) && hive == GivenUp(due) && hive + issue == Owed(due)
      ensures forall k :: k in collaterals ==> collaterals[k].date > now
      ensures forall i :: 0 <= i < |due| ==> AboveFee(due[i], old(Now()), p)
    {
      hide Sound, Required, SecuredDrawn, GivenUp, Owed, AboveFee;
      due, hive, issue := [], 0, 0;
      ghost var s := Now();
      NoneDrawn(s, p, now);
      while exists k :: k in collaterals && collaterals[k].date <= now
        invariant Sound(Without(Now(), hbd, hive))
        invariant SecuredDrawn(s, Now(), due, p, now) && hive == GivenUp(due) && hive + issue == Owed(due)
        decreases collaterals.Keys
      {
        var k :| k in collaterals && collaterals[k].date <= now;
        var n := At(funds, Pledged(k));
        var required: int := Required(collaterals[k].converted, p);
        var excess: int := n - required;
        if excess < 0 { required := n; }
        DrawCollateral(Now(), k, hbd, hive);
        SecuredStep(s, Now(), due, p, now, k);
        OneMore(due, Payment(k, n, excess));
        due, issue, hive := due + [Payment(k, n, excess)], issue - required, hive + n;
        funds, collaterals := Debited(funds, Pledged(k), n), collaterals - {k};
      }
      DrawnAboveFee(s, Now(), due, p, now);
    }

    /** The collected HIVE is handed out, to the last unit. */
    method PayConversions(due: seq<Payment>, collected: nat) returns (hive: nat)
      requires Sound(Without(Now(), 0, collected)) && collected == Owed(due)
      requires forall i :: 0 <= i < |due| ==> due[i].key.owner in accounts
      modifies this`funds
      ensures hive == 0 && Valid()
      ensures PaidTo(old(funds), funds, due)
    {
      hide Sound;
      hive := collected;
      var i := 0;
      while i < |due|
        invariant 0 <= i <= |due|
        invariant Sound(Without(Now(), 0, hive)) && hive + Owed(due[..i]) == Owed(due)
        invariant PaidTo(old(funds), funds, due[..i])
      {
        hide Owed, PaidTo;
        OwedPrefix(due, i);
        assert due[..i + 1] == due[..i] + [due[i]];
        OneMore(due[..i], due[i]);
        if due[i].amount < 0 {
          PaidSkip(old(funds), funds, due[..i], due[i]);
        } else {
          PaidStep(old(funds), funds, due[..i], due[i]);
          PayOut(Now(), due[i].key.owner, due[i].amount, hive);
          funds := Credited(funds, Liq(due[i].key.owner, Hive), due[i].amount);
          hive := hive - due[i].amount;
        }
        i := i + 1;
      }
      assert due[..i] == due;
      assert Without(Now(), 0, 0) == Now();
    }

    /** Every request that is due is settled: what HBD came in is burned, and HIVE is issued or burned
        so that what the owners are owed is there, neither more nor less. */
    method ProcessConversions(now: nat, median: Option<Price>,
        market: Price) returns (regular: seq<Payment>, secured: seq<Payment>)
      requires Valid() && IsPrice(market) && (median.Some? ==> IsPrice(median.value))
      modifies this
      ensures Valid()
      ensures median.None? ==> Now() == old(Now())
      ensures median.Some? ==> Converted(old(Now()), Now(), regular, secured, median.value, market, now)
      ensures median.Some? ==>
        && (forall i :: 0 <= i < |regular| ==> AtPrice(regular[i], old(Now()), median.value))
        && (forall i :: 0 <= i < |secured| ==> AboveFee(secured[i], old(Now()), market))
    {
      hide Sound, RegularDrawn, SecuredDrawn, PaidTo, Converted, Owed, GivenUp, AtPrice, AboveFee;
      regular, secured := [], [];
      if median.None? { return; }
      ghost var s := Now();
      var hbd, issue;
      regular, hbd, issue := DrawConversions(now, median.value);
      ghost var m := Now();
      var hive, more;
      secured, hive, more := DrawCollaterals(now, market, hbd);
      ghost var n := Now();
      var toIssue := issue + more;
      OwedJoin(regular, secured);
      assert hive + toIssue >= 0;
      DrawnFrame(s, m, n, regular, secured, median.value, market, now);
      OwnersKnown(s, m, n, regular, secured, median.value, market, now);
      supply := supply.(hive := supply.hive + toIssue, hbd := supply.hbd - hbd);
      assert Without(Now(), 0, hive + toIssue) == Without(n, hbd, hive);
      var left := PayConversions(regular + secured, hive + toIssue);
      ConvertedWhole(s, m, n, Now(), regular, secured, median.value, market, now);
      ConvertedAbove(s, Now(), regular, secured, median.value, market, now);
    }

    // ---- Escrows ----

    method OpenEscrow(k: Key, e: Escrow, hive: nat, hbd: nat, fee: nat)
      requires Valid() && k !in escrows && !Approved(e)
      requires k.owner in accounts && e.to in accounts && e.agent in accounts && Coin(e.feeToken)
      requires Affords(funds, k.owner, hive, hbd, fee, e.feeToken)
      modifies this`funds, this`escrows, this`openEscrows
      ensures k.owner in old(openEscrows)
      ensures Valid() && Now() == EscrowOpened(old(Now()), k, e, hive, hbd, fee)
    {
      hide Sound, Deposited;
      EscrowOpenedSound(Now(), k, e, hive, hbd, fee);
      escrows := escrows[k := e];
      openEscrows := openEscrows[k.owner := openEscrows[k.owner] + 1];
      funds := Deposited(funds, k, hive, hbd, fee, e.feeToken);
    }

    method EscrowTransfer(k: Key, to: Name, agent: Name, hive: nat, hbd: nat, fee: nat, feeToken: Token, deadline: nat,
        expires: nat, now: nat)
      returns (ok: bool)
      requires Valid()
      modifies this
      ensures Valid()
      ensures ok <==>
        && k.owner in old(accounts) && to in old(accounts) && agent in old(accounts) && k.owner != agent && to != agent
        && Coin(feeToken) && (hive > 0 || hbd > 0) && now < deadline < expires
        && |Owned(old(escrows).Keys, k.owner)| < MAX_PENDING_ESCROWS && k !in old(escrows)
        && Affords(old(funds), k.owner, hive, hbd, fee, feeToken)
      ensures !ok ==> Now() == old(Now())
      ensures ok ==>
        && k.owner in old(openEscrows)
        && Now() == EscrowOpened(old(Now()), k, Escrow(to, agent, feeToken, false, false, false, deadline, expires),
             hive, hbd, fee)
      ensures ok ==>
        && escrows == old(escrows)[k := Escrow(to, agent, feeToken, false, false, false, deadline, expires)]
        && forall h ::
            At(funds, h) == At(old(funds), h)
              - Only(h, Holder(Liquid(k.owner), Hive), hive) + Only(h, Holder(EscrowFunds(k.owner, k.id), Hive), hive)
              - Only(h, Holder(Liquid(k.owner), Hbd), hbd) + Only(h, Holder(EscrowFunds(k.owner, k.id), Hbd), hbd)
              - Only(h, Holder(Liquid(k.owner), feeToken), fee)
              + Only(h, Holder(EscrowFee(k.owner, k.id), feeToken), fee)
    {
      hide Conserved, Backed, FeesPaid, Parties, Book, EscrowOpened, Affords;
      EscrowDepositIs(Now(), k, Escrow(to, agent, feeToken, false, false, false, deadline, expires), hive, hbd, fee);
      ok := k.owner in accounts && to in accounts && agent in accounts && k.owner != agent && to != agent
        && Coin(feeToken) && (hive > 0 || hbd > 0) && now < deadline < expires;
      if !ok { return; }
      ok := openEscrows[k.owner] < MAX_PENDING_ESCROWS && k !in escrows
        && Affords(funds, k.owner, hive, hbd, fee, feeToken);
      if ok {
        OpenEscrow(k, Escrow(to, agent, feeToken, false, false, false, deadline, expires), hive, hbd, fee);
      }
    }

    /** The sender gets everything back. */
    method ReturnEscrow(k: Key)
      requires Valid() && k in escrows
      modifies this`funds, this`escrows, this`openEscrows
      ensures k.owner in old(openEscrows) && old(openEscrows)[k.owner] > 0
      ensures Valid() && Now() == Returned(old(Now()), k)
      ensures escrows == old(escrows) - {k}
      ensures forall h :: At(funds, h) == At(old(funds), h) + GivenBack(old(Now()), h)(k)
    {
      hide Sound, Moved;
      ReturnedSound(Now(), k);
      GivenBackAll(Now(), k);
      var fee := escrows[k].feeToken;
      funds := Moved(funds, InEscrow(k, Hive), Liq(k.owner, Hive), At(funds, InEscrow(k, Hive)));
      funds := Moved(funds, InEscrow(k, Hbd), Liq(k.owner, Hbd), At(funds, InEscrow(k, Hbd)));
      funds := Moved(funds, Fee(k, fee), Liq(k.owner, fee), At(funds, Fee(k, fee)));
      openEscrows := openEscrows[k.owner := openEscrows[k.owner] - 1];
      escrows := escrows - {k};
    }

    /** The receiver and the agent each approve once; either may turn the escrow down instead. */
    method EscrowApprove(k: Key, to: Name, agent: Name, who: Name, approve: bool, now: nat) returns (ok: bool)
      requires Valid()
      modifies this
      ensures Valid()
      ensures ok <==>
        && (who == to || who == agent) && k in old(escrows)
        && var e := old(escrows)[k];
        && e.to == to && e.agent == agent && now <= e.deadline
        && (who == to ==> !e.toApproved) && (who == agent ==> !e.agentApproved)
      ensures !ok ==> Now() == old(Now())
      ensures ok && !approve ==>
        k.owner in old(openEscrows) && old(openEscrows)[k.owner] > 0 && Now() == Returned(old(Now()), k)
      ensures ok && approve ==>
        var e := old(escrows)[k];
        var a := e.(toApproved := e.toApproved || who == to, agentApproved := e.agentApproved || who == agent);
        Now() == if Approved(a) then Agreed(old(Now()), k) else old(Now()).(escrows := old(escrows)[k := a])
      ensures ok && approve ==>
        var e := old(escrows)[k];
        var settled := (e.toApproved || who == to) && (e.agentApproved || who == agent);
        var fee := At(old(funds), Holder(EscrowFee(k.owner, k.id), e.feeToken));
        forall h :: At(funds, h) == At(old(funds), h) + if !settled then 0 else
          Only(h, Holder(Liquid(agent), e.feeToken), fee)
            - Only(h, Holder(EscrowFee(k.owner, k.id), e.feeToken), fee)
      ensures ok && !approve ==> forall h :: At(funds, h) == At(old(funds), h) + GivenBack(old(Now()), h)(k)
    {
      hide Conserved, Backed, FeesPaid, Book, Counts, At, Only, GivenBack;
      ok := (who == to || who == agent) && k in escrows;
      if !ok { return; }
      var e := escrows[k];
      ok := e.to == to && e.agent == agent && now <= e.deadline && (who == to ==> !e.toApproved)
        && (who == agent ==> !e.agentApproved);
      if !ok { return; }
      if approve {
        var a := e.(toApproved := e.toApproved || who == to, agentApproved := e.agentApproved || who == agent);
        if Approved(a) {
          AgreedSound(Now(), k);
          AgreedBalances(Now(), k);
          funds := Moved(funds, Fee(k, e.feeToken), Liq(agent, e.feeToken), At(funds, Fee(k, e.feeToken)));
        } else {
          ChangeEscrow(Now(), k, a);
        }
        escrows := escrows[k := a];
      } else {
        ReturnEscrow(k);
      }
    }

    method EscrowDispute(k: Key, to: Name, agent: Name, now: nat) returns (ok: bool)
      requires Valid()
      modifies this
      ensures Valid()
      ensures ok <==>
        && k in old(escrows)
        && var e := old(escrows)[k]; now < e.expires && Approved(e) && !e.disputed && e.to == to && e.agent == agent
      ensures Now()
           == if ok then old(Now()).(escrows := old(escrows)[k := old(escrows)[k].(disputed := true)]) else old(Now())
    {
      hide Conserved, Backed, Book, Counts;
      ok := k in escrows;
      if !ok { return; }
      var e := escrows[k];
      ok := now < e.expires && Approved(e) && !e.disputed && e.to == to && e.agent == agent;
      if ok {
        ChangeEscrow(Now(), k, e.(disputed := true));
        escrows := escrows[k := e.(disputed := true)];
      }
    }

    method EscrowRelease(k: Key, to: Name, agent: Name, who: Name, receiver: Name, hive: nat, hbd: nat,
        now: nat) returns (ok: bool)
      requires Valid()
      modifies this
      ensures Valid()
      ensures ok <==>
        && k in old(escrows) && old(escrows)[k].to == to && old(escrows)[k].agent == agent && (hive > 0 || hbd > 0)
        && hive <= At(old(funds), InEscrow(k, Hive)) && hbd <= At(old(funds), InEscrow(k, Hbd))
        && MayRelease(old(escrows)[k], k.owner, who, receiver, now)
      ensures !ok ==> Now() == old(Now())
      ensures ok ==>
        && k.owner in old(openEscrows) && old(openEscrows)[k.owner] > 0
        && Now() == Released(old(Now()), k, receiver, hive, hbd)
      ensures ok ==> forall h ::
        At(funds, h) == At(old(funds), h)
          + Only(h, Holder(Liquid(receiver), Hive), hive) - Only(h, Holder(EscrowFunds(k.owner, k.id), Hive), hive)
          + Only(h, Holder(Liquid(receiver), Hbd), hbd) - Only(h, Holder(EscrowFunds(k.owner, k.id), Hbd), hbd)
      ensures ok ==>
        (k in escrows <==>
           hive < At(old(funds), Holder(EscrowFunds(k.owner, k.id), Hive))
           || hbd < At(old(funds), Holder(EscrowFunds(k.owner, k.id), Hbd)))
    {
      hide Conserved, Backed, FeesPaid, Book, Counts, Moved, At, Only;
      ok := k in escrows && escrows[k].to == to && escrows[k].agent == agent && (hive > 0 || hbd > 0)
        && hive <= At(funds, InEscrow(k, Hive)) && hbd <= At(funds, InEscrow(k, Hbd))
        && MayRelease(escrows[k], k.owner, who, receiver, now);
      if ok {
        ReleasedSound(Now(), k, receiver, hive, hbd);
        ReleasedBalances(Now(), k, receiver, hive, hbd);
        funds := Moved(funds, InEscrow(k, Hive), Liq(receiver, Hive), hive);
        MovedAt(old(funds), InEscrow(k, Hive), Liq(receiver, Hive), hive);
        funds := Moved(funds, InEscrow(k, Hbd), Liq(receiver, Hbd), hbd);
        if At(funds, InEscrow(k, Hive)) == 0 && At(funds, InEscrow(k, Hbd)) == 0 {
          openEscrows := openEscrows[k.owner := openEscrows[k.owner] - 1];
          escrows := escrows - {k};
        }
      }
    }

    /** Every escrow not approved in time is returned, and no other. */
    method ExpireEscrows(now: nat) returns (gone: seq<Key>)
      requires Valid()
      modifies this`funds, this`escrows, this`openEscrows
      ensures Valid()
      ensures Now() == ReturnAll(old(Now()), gone)
      ensures forall k :: k in gone ==> k in old(escrows) && Lapsed(old(escrows)[k], now)
      ensures escrows == NotLapsed(old(escrows), now)
      ensures forall k :: k in escrows <==>
        k in old(escrows) && (now < old(escrows)[k].deadline
          || (old(escrows)[k].toApproved && old(escrows)[k].agentApproved))
      ensures var due := set k | k in old(escrows) && Lapsed(old(escrows)[k], now);
        forall h :: At(funds, h) == At(old(funds), h) + Sum(due, GivenBack(old(Now()), h))
    {
      hide Sound, Lapsed, NotLapsed, AllGivenBack, GivenBack;
      gone := [];
      ghost var s := Now();
      NoneGivenBack(s);
      while exists k :: k in escrows && Lapsed(escrows[k], now)
        invariant Valid() && Now() == ReturnAll(s, gone) && AllGivenBack(s, Now())
        invariant forall k :: k in escrows ==> k in s.escrows && escrows[k] == s.escrows[k]
        invariant forall k :: k in s.escrows && k !in escrows ==> Lapsed(s.escrows[k], now)
        invariant forall k :: k in gone ==> k in s.escrows && Lapsed(s.escrows[k], now)
        decreases escrows.Keys
      {
        hide ReturnAll, Returned;
        var k :| k in escrows && Lapsed(escrows[k], now);
        ghost var t := Now();
        ReturnEscrow(k);
        OneMoreGivenBack(s, t, Now(), k);
        ReturnOneMore(s, gone, k);
        gone := gone + [k];
      }
      AllReturned(s.escrows, escrows, now);
      GivenBackDue(s, Now(), now);
      StillOpen(s.escrows, now);
    }

    // ---- The market ----

    /** The order that the new order `id` trades with next, if any. */
    method BestOffer(id: nat) returns (best: Option<nat>)
      requires id in orders && IsTerms(orders[id].terms) && Book(funds, orders, id)
      ensures best.None? ==> Clear(orders, id)
      ensures best.Some? ==> Pair(Now(), id, best.value) && Best(Now(), id, best.value)
    {
      hide Live, Crosses, Ahead;
      best := None;
      var todo := orders.Keys;
      while exists j :: j in todo
        invariant todo <= orders.Keys
        invariant best.None? ==> forall j :: j in orders && j !in todo && Opposed(orders[id], orders[j]) ==>
          !Crosses(orders[id].terms, orders[j].terms)
        invariant best.Some? ==>
          && Pair(Now(), id, best.value) && Crosses(orders[id].terms, orders[best.value].terms)
          && forall j ::
              && j in orders && j !in todo && j != best.value
              && Opposed(orders[id], orders[j]) && Crosses(orders[id].terms, orders[j].terms) ==>
              Ahead(orders[best.value].terms, best.value, orders[j].terms, j)
        decreases todo
      {
        var j :| j in todo;
        if Opposed(orders[id], orders[j]) && Crosses(orders[id].terms, orders[j].terms) {
          if best.None? {
            best := Some(j);
          } else if j != best.value {
            AheadEither(orders[j].terms, j, orders[best.value].terms, best.value);
            if Ahead(orders[j].terms, j, orders[best.value].terms, best.value) {
              Overtake(Now(), id, j, best.value, todo);
              best := Some(j);
            }
          }
        }
        todo := todo - {j};
      }
    }

    /** The order leaves the book and its seller gets back what was left. */
    method CancelOrder(id: nat)
      requires Whole(Now()) && id in orders
      modifies this`orders, this`funds
      ensures Whole(Now()) && Now() == Refunded(old(Now()), id) && orders == old(orders) - {id}
      ensures forall h :: At(funds, h) == At(old(funds), h) + Refunding(old(Now()), h)(id)
    {
      hide Whole, Refunding, At;
      RefundedBalances(Now(), id);
      RefundedWhole(Now(), id);
      var o := orders[id];
      funds := Moved(funds, Offered(id, o), Wallet(o, o.sells), At(funds, Offered(id, o)));
      orders := orders - {id};
    }

    /** After a fill: an order with nothing left is removed, one with only dust is cancelled. */
    method CloseOrder(id: nat)
      requires Whole(Now()) && id in orders && IsTerms(orders[id].terms)
      modifies this`orders, this`funds
      ensures Whole(Now()) && Now() == Closed(old(Now()), id)
    {
      hide Whole;
      ClosedWhole(Now(), id);
      var left := At(funds, Offered(id, orders[id]));
      if left == 0 {
        orders := orders - {id};
      } else if Proceeds(left, orders[id].terms) == 0 {
        CancelOrder(id);
      }
    }

    /** A new order trades with a resting one, at the resting one's price. */
    method MatchOrders(id: nat, rest: nat) returns (fill: Fill)
      requires Whole(Now()) && Pair(Now(), id, rest)
      modifies this`orders, this`funds
      ensures fill == FillOf(old(Now()), id, rest)
      ensures AtRestingPrice(fill, At(old(funds), Holder(ForSale(id), old(orders)[id].sells)),
        At(old(funds), Holder(ForSale(rest), old(orders)[rest].sells)), old(orders)[rest].terms)
      ensures Whole(Now()) && Now() == Matched(old(Now()), id, rest)
      ensures var n, o := old(orders)[id], old(orders)[rest];
        var dustNew := Dust(old(Now()), orders, id, fill.newPays);
        var dustOld := Dust(old(Now()), orders, rest, fill.oldPays);
        forall h ::
          At(funds, h) == At(old(funds), h)
            + Only(h, Holder(Liquid(n.seller), o.sells), fill.oldPays)
            + Only(h, Holder(Liquid(o.seller), n.sells), fill.newPays)
            + Only(h, Holder(Liquid(n.seller), n.sells), dustNew)
            + Only(h, Holder(Liquid(o.seller), o.sells), dustOld)
            - Only(h, Holder(ForSale(id), n.sells), fill.newPays + dustNew)
            - Only(h, Holder(ForSale(rest), o.sells), fill.oldPays + dustOld)
    {
      hide Whole, Match, Closed, AtRestingPrice;
      ghost var s := Now();
      MatchedBalances(s, id, rest);
      MatchAtRestingPrice(Amount(s, id), Amount(s, rest), orders[rest].terms);
      TradedWhole(s, id, rest);
      TradedAmounts(s, id, rest, id);
      MatchWithinOffers(Amount(s, id), Amount(s, rest), orders[rest].terms);
      var n, o := orders[id], orders[rest];
      fill := Match(At(funds, Offered(id, n)), At(funds, Offered(rest, o)), o.terms);
      funds := Moved(funds, Offered(rest, o), Wallet(n, o.sells), fill.oldPays);
      funds := Moved(funds, Offered(id, n), Wallet(o, n.sells), fill.newPays);
      assert Now() == Traded(s, id, rest);
      ClosedOthers(Now(), id, rest);
      CloseOrder(id);
      CloseOrder(rest);
    }

    /** A new order trades down the other side of the book until it is done or nothing crosses it. */
    method ApplyOrder(id: nat) returns (trades: seq<Trade>)
      requires Whole(Now()) && Book(funds, orders, id)
      requires id in orders && IsTerms(orders[id].terms) && Live(At(funds, Offered(id, orders[id])), orders[id].terms)
      modifies this`orders, this`funds
      ensures Valid()
      ensures Genuine(old(Now()), id, trades) && Now() == After(old(Now()), id, trades)
      ensures Fair(old(Now()), id, trades)
      ensures id in orders ==> Clear(orders, id)
      ensures var n := old(orders)[id];
        forall h: Holder :: !h.place.ForSale? ==>
          At(funds, h) == At(old(funds), h)
            + Only(h, Holder(Liquid(n.seller), Other(n.sells)), Got(trades))
            + Only(h, Holder(Liquid(n.seller), n.sells), Dust(old(Now()), orders, id, Paid(trades)))
            + SellersGet(old(orders), n.sells, trades, h) + DustBack(old(Now()), orders, trades, h)
    {
      hide Whole, Book, Best, Pair, Matched, Live, FillOf;
      ghost var s := Now();
      trades := [];
      LimitHonoured(s, id, []);
      var next := BestOffer(id);
      while id in orders && next.Some?
        invariant Whole(Now()) && Book(funds, orders, id)
        invariant Genuine(s, id, trades) && Now() == After(s, id, trades) && Fair(s, id, trades)
        invariant id in orders ==> next.None? ==> Clear(orders, id)
        invariant id in orders ==> next.Some? ==> Pair(Now(), id, next.value) && Best(Now(), id, next.value)
        decreases orders.Keys
      {
        ghost var t := Now();
        var rest := next.value;
        PairIn(t, id, rest);
        MatchedBook(t, id, rest);
        OneLeaves(t, id, rest);
        var terms := orders[rest].terms;
        var fill := MatchOrders(id, rest);
        ghost var earlier := trades;
        trades := trades + [Trade(rest, terms, fill)];
        assert trades[..|trades| - 1] == earlier;
        LimitHonoured(s, id, trades);
        if id in orders {
          next := BestOffer(id);
        }
      }
      Admitted(Now(), id);
      RunPaid(s, id, trades);
    }

    /** What an order must satisfy before anything is done with it. */
    predicate MayOrder(owner: Name, number: nat, sells: Token, amount: nat, terms: Terms, expires: nat, now: nat)
      reads this
    {
      && owner in accounts && Coin(sells) && IsTerms(terms) && Live(amount, terms)
      && now < expires <= now + ORDER_LIFETIME
      && amount <= At(funds, Liq(owner, sells)) && FreeNumber(orders, owner, number)
    }

    /** A limit order is placed, trades, and rests with what is left, unless it must be filled at once and is not. */
    method CreateOrder(owner: Name, number: nat, sells: Token, amount: nat, terms: Terms, expires: nat,
        fillOrKill: bool, now: nat)
      returns (ok: bool, trades: seq<Trade>)
      requires Valid()
      modifies this
      ensures Valid()
      ensures !old(MayOrder(owner, number, sells, amount, terms, expires, now)) ==> !ok
      ensures !ok ==> Now() == old(Now())
      ensures old(MayOrder(owner, number, sells, amount, terms, expires, now)) ==>
        var s, id := Entered(old(Now()), Order(owner, number, sells, terms, expires), amount), old(nextOrder);
        && id in s.orders && s.orders[id].terms == terms && Amount(s, id) == amount
        && Genuine(s, id, trades) && Fair(s, id, trades)
        && (ok <==> fillOrKill ==> id !in After(s, id, trades).orders)
        && (ok ==> Now() == After(s, id, trades))
        && (ok && id in orders ==> Clear(orders, id))
      ensures ok ==>
        var id := old(nextOrder);
        forall h: Holder :: !h.place.ForSale? ==>
          At(funds, h) == At(old(funds), h)
            - Only(h, Holder(Liquid(owner), sells), if id in orders then amount else Paid(trades))
            + Only(h, Holder(Liquid(owner), Other(sells)), Got(trades))
            + SellersGet(old(orders), sells, trades, h) + DustBack(old(Now()), orders, trades, h)
    {
      hide Sound, Book, Whole, Genuine, Fair, Live;
      trades := [];
      ok := MayOrder(owner, number, sells, amount, terms, expires, now);
      if !ok { return; }
      ghost var s := Now();
      var o := Order(owner, number, sells, terms, expires);
      var savedFunds, savedOrders, id := funds, orders, nextOrder;
      EnteredWhole(s, o, amount);
      EnteredAmount(s, o, amount);
      EnteredBook(s, o, amount);
      orders, nextOrder := orders[id := o], nextOrder + 1;
      funds := Moved(funds, Wallet(o, sells), Offered(id, o), amount);
      assert Now() == Entered(s, o, amount);
      trades := ApplyOrder(id);
      EnteredPaid(s, o, amount, trades);
      if fillOrKill && id in orders {
        ok := false;
        funds, orders, nextOrder := savedFunds, savedOrders, id;
        assert Now() == s;
      }
    }

    method CancelOwnOrder(owner: Name, number: nat) returns (ok: bool)
      requires Valid()
      modifies this
      ensures Valid()
      ensures ok <==> !FreeNumber(old(orders), owner, number)
      ensures !ok ==> Now() == old(Now())
      ensures ok ==>
        exists id :: id in old(orders) && old(orders)[id].seller == owner && old(orders)[id].number == number
          && Now() == Refunded(old(Now()), id) && orders == old(orders) - {id}
          && forall h :: At(funds, h) == At(old(funds), h) + Refunding(old(Now()), h)(id)
    {
      hide Book, Whole, Refunded;
      ok := !FreeNumber(orders, owner, number);
      if ok {
        var id :| id in orders && orders[id].seller == owner && orders[id].number == number;
        RefundedSound(Now(), id);
        CancelOrder(id);
      }
    }

    /** Every order past its expiration is cancelled, and no other. */
    method ClearExpiredOrders(now: nat) returns (gone: seq<nat>)
      requires Valid()
      modifies this`orders, this`funds
      ensures Valid()
      ensures Now() == RefundAll(old(Now()), gone)
      ensures forall i :: i in gone ==> i in old(orders) && old(orders)[i].expires < now
      ensures orders == Unexpired(old(orders), now)
      ensures var due := set i: nat | i in old(orders) && old(orders)[i].expires < now;
        forall h :: At(funds, h) == At(old(funds), h) + Sum(due, Refunding(old(Now()), h))
    {
      hide Whole, Refunded, Sound, Unexpired, AllRefunded, Refunding;
      gone := [];
      ghost var s := Now();
      NoneRefunded(s);
      while exists i :: i in orders && orders[i].expires < now
        invariant Valid() && Now() == RefundAll(s, gone) && AllRefunded(s, Now())
        invariant Shrunk(orders, s.orders)
        invariant forall i :: i in s.orders && i !in orders ==> s.orders[i].expires < now
        invariant forall i :: i in gone ==> i in s.orders && s.orders[i].expires < now
        decreases orders.Keys
      {
        hide RefundAll;
        var i :| i in orders && orders[i].expires < now;
        RefundedSound(Now(), i);
        RefundedFrame(Now(), i);
        SoundWhole(Now());
        ghost var t := Now();
        CancelOrder(i);
        OneMoreRefunded(s, t, Now(), i);
        RefundOneMore(s, gone, i);
        gone := gone + [i];
      }
      AllCancelled(s.orders, orders, now);
      RefundedDue(s, Now(), now);
    }

    // ---- Runs ----

    method Apply(step: Step) returns (ok: bool)
      requires Valid() && Priced(step)
      modifies this
      ensures Valid()
    {
      hide Sound;
      ok := true;
      match step
      case NewAccount(a) => ok := CreateAccount(a);
      case Send(from, to, token, amount, feed) => ok := Transfer(from, to, token, amount, feed);
      case Save(from, to, token, amount, interest) => ok := TransferToSavings(from, to, token, amount, interest);
      case Unsave(from, to, token, amount, id, now, interest) =>
        ok := TransferFromSavings(from, to, token, amount, id, now, interest);
      case KeepSaved(from, id, interest) => ok := CancelTransferFromSavings(from, id, interest);
      case SavingsDue(now) => var paid := ProcessSavingsWithdrawals(now);
      case PowerUp(from, to, amount) => ok := TransferToVesting(from, to, amount);
      case PowerDown(from, to, shares, autoVest) => ok := WithdrawShares(from, to, shares, autoVest);
      case Inflate(producer, content, vesting, reward, hbd) =>
        ok := ProcessFunds(producer, content, vesting, reward, hbd);
      case Award(a, hive, burned, hbd, vesting) => ok := AwardReward(a, hive, burned, hbd, vesting);
      case Claim(a, hive, hbd, shares) => ok := ClaimRewards(a, hive, hbd, shares);
      case StartConversion(k, amount, feed, now) => ok := Convert(k, amount, feed, now);
      case Pledge(k, amount, median, low, printing, withinLimit, now) =>
        ok := CollateralizedConvert(k, amount, median, low, printing, withinLimit, now);
      case ConversionsDue(now, median, market) => var regular, secured := ProcessConversions(now, median, market);
      case Deposit(k, to, agent, hive, hbd, fee, feeToken, deadline, expires, now) =>
        ok := EscrowTransfer(k, to, agent, hive, hbd, fee, feeToken, deadline, expires, now);
      case Approve(k, to, agent, who, approve, now) => ok := EscrowApprove(k, to, agent, who, approve, now);
      case Dispute(k, to, agent, now) => ok := EscrowDispute(k, to, agent, now);
      case Release(k, to, agent, who, receiver, hive, hbd, now) =>
        ok := EscrowRelease(k, to, agent, who, receiver, hive, hbd, now);
      case EscrowsDue(now) => var gone := ExpireEscrows(now);
      case Offer(owner, number, sells, amount, terms, expires, fillOrKill, now) =>
        var trades;
        ok, trades := CreateOrder(owner, number, sells, amount, terms, expires, fillOrKill, now);
      case Withdraw(owner, number) => ok := CancelOwnOrder(owner, number);
      case OrdersDue(now) => var gone := ClearExpiredOrders(now);
    }

    /** After any run of operations the books balance, whatever failed on the way. */
    method Run(steps: seq<Step>)
      requires Valid() && forall i :: 0 <= i < |steps| ==> Priced(steps[i])
      modifies this
      ensures Valid()
      ensures forall token :: Counted(Now(), token) == Of(supply, token)
      ensures Counted(Now(), Hive) + Counted(Now(), PendingHive) == CurrentSupply(supply)
      ensures Uncrossed(orders, nextOrder) && Resting(funds, orders, nextOrder)
    {
      hide Whole, Uncrossed, Resting, Numbered, Counted, Of;
      for i := 0 to |steps|
        invariant Valid()
      {
        var ok := Apply(steps[i]);
      }
      forall token ensures Counted(Now(), token) == Of(supply, token) {
        AuditPasses(Now(), token);
      }
      CurrentSupplyCounted(Now());
    }
  }

  datatype Step =
    | NewAccount(Name)
    | Send(Name, Name, Token, nat, Option<Price>)
    | Save(Name, Name, Token, nat, nat)
    | Unsave(Name, Name, Token, nat, nat, nat, nat)
    | KeepSaved(Name, nat, nat)
    | SavingsDue(nat)
    | PowerUp(Name, Name, nat)
    | PowerDown(Name, Name, nat, bool)
    | Inflate(Name, nat, nat, nat, nat)
    | Award(Name, nat, nat, nat, nat)
    | Claim(Name, nat, nat, nat)
    | StartConversion(Key, nat, Option<Price>, nat)
    | Pledge(Key, nat, Option<Price>, Price, bool, bool, nat)
    | ConversionsDue(nat, Option<Price>, Price)
    | Deposit(Key, Name, Name, nat, nat, nat, Token, nat, nat, nat)
    | Approve(Key, Name, Name, Name, bool, nat)
    | Dispute(Key, Name, Name, nat)
    | Release(Key, Name, Name, Name, Name, nat, nat, nat)
    | EscrowsDue(nat)
    | Offer(Name, nat, Token, nat, Terms, nat, bool, nat)
    | Withdraw(Name, nat)
    | OrdersDue(nat)

  /** The price feeds a step comes with are prices. */
  predicate Priced(step: Step)
  {
    match step
    case Send(_, _, _, _, feed) => feed.Some? ==> IsPrice(feed.value)
    case Pledge(_, _, _, low, _, _, _) => IsPrice(low)
    case ConversionsDue(_, median, market) => IsPrice(market) && (median.Some? ==> IsPrice(median.value))
    case _ => true
  }

  lemma SoundWhole(s: State)
    requires Sound(s)
    ensures Whole(s)
  {
  }

  function WithInterest(s: State, a: Name, token: Token, interest: nat): State
  {
    if token != Hbd then s else
      s.(funds := Credited(s.funds, Holder(Savings(a), Hbd), interest), supply := Issued(s.supply, Hbd, interest))
  }

  lemma AheadEither(a: Terms, i: nat, b: Terms, j: nat)
    requires i != j
    ensures Ahead(a, i, b, j) || Ahead(b, j, a, i)
  {
  }

  /** The best so far is overtaken, and with it everything behind it. */
  lemma Overtake(s: State, id: nat, j: nat, best: nat, todo: set<nat>)
    requires id in s.orders && Book(s.funds, s.orders, id) && j in s.orders && best in s.orders
    requires IsTerms(s.orders[id].terms) && Ahead(s.orders[j].terms, j, s.orders[best].terms, best)
    requires forall k ::
      && k in s.orders && k !in todo && k != best
      && Opposed(s.orders[id], s.orders[k]) && Crosses(s.orders[id].terms, s.orders[k].terms) ==>
      Ahead(s.orders[best].terms, best, s.orders[k].terms, k)
    ensures forall k ::
      && k in s.orders && k !in todo && Opposed(s.orders[id], s.orders[k])
      && Crosses(s.orders[id].terms, s.orders[k].terms) ==>
      Ahead(s.orders[j].terms, j, s.orders[k].terms, k)
  {
    hide Live, Crosses, Ahead;
    forall k | k in s.orders && k !in todo && k != best
      && Opposed(s.orders[id], s.orders[k]) && Crosses(s.orders[id].terms, s.orders[k].terms)
      ensures Ahead(s.orders[j].terms, j, s.orders[k].terms, k)
    {
      AheadTransitive(s.orders[j].terms, j, s.orders[best].terms, best, s.orders[k].terms, k);
    }
  }
}
