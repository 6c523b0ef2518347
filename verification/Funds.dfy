/** All balances of the chain in one place: every object that can hold tokens is a holder. */
module Funds {
  import opened Sums

  type Name = int

  /** Hive set aside as the counterweight of unclaimed vesting rewards is kept apart, and so are
      unclaimed and claimed vesting shares. */
  datatype Token = Hive | PendingHive | Hbd | Vests | RewardVests

  datatype Place =
    | Liquid(a: Name)
    | Savings(a: Name)
    | Rewards(a: Name)
    | Vesting(a: Name)
    | ForSale(order: nat)
    | EscrowFunds(a: Name, id: nat)
    | EscrowFee(a: Name, id: nat)
    | WithdrawalFunds(a: Name, id: nat)
    | ConversionFunds(a: Name, id: nat)
    | CollateralFunds(a: Name, id: nat)
    | RewardFund
    | VestingFund

  datatype Holder = Holder(place: Place, token: Token)

  type Balances = map<Holder, nat>

  function At(funds: Balances, h: Holder): nat
  {
    if h in funds then funds[h] else 0
  }

  ghost function Amounts(funds: Balances, token: Token): Holder -> int
  {
    (h: Holder) => if h.token == token then At(funds, h) else 0
  }

  ghost function Held(funds: Balances, token: Token): int
  {
    Sum(funds.Keys, Amounts(funds, token))
  }

  /** One balance set to a new value. */
  lemma SetTotal(funds: Balances, h: Holder, n: nat, token: Token)
    ensures Held(funds[h := n], token) == Held(funds, token) + if h.token == token then n - At(funds, h) else 0
  {
    var f, g := Amounts(funds, token), Amounts(funds[h := n], token);
    if h in funds {
      assert funds[h := n].Keys == funds.Keys;
      SumChangeOne(funds.Keys, f, g, h);
    } else {
      assert funds[h := n].Keys == funds.Keys + {h};
      SumInsert(funds.Keys, g, h);
      SumCongruent(funds.Keys, f, g);
    }
  }

  /** Tokens added to, or taken from, one holder. */
  function Credited(funds: Balances, h: Holder, n: nat): Balances
  {
    funds[h := At(funds, h) + n]
  }

  function Debited(funds: Balances, h: Holder, n: nat): Balances
    requires n <= At(funds, h)
  {
    funds[h := At(funds, h) - n]
  }

  function Moved(funds: Balances, from: Holder, to: Holder, n: nat): Balances
    requires n <= At(funds, from)
  {
    Credited(Debited(funds, from, n), to, n)
  }

  /** An amount that counts for one holder only. */
  ghost function Only(h: Holder, to: Holder, n: int): int
  {
    if h == to then n else 0
  }

  /** A move as every holder sees it, the two it is between being the same or not. */
  lemma MovedBalances(funds: Balances, from: Holder, to: Holder, n: nat)
    requires n <= At(funds, from)
    ensures forall h :: At(Moved(funds, from, to, n), h) == At(funds, h) + Only(h, to, n) - Only(h, from, n)
  {
  }

  lemma MovedAt(funds: Balances, from: Holder, to: Holder, n: nat)
    requires n <= At(funds, from) && from != to
    ensures At(Moved(funds, from, to, n), from) == At(funds, from) - n
    ensures At(Moved(funds, from, to, n), to) == At(funds, to) + n
    ensures forall h :: h != from && h != to ==> At(Moved(funds, from, to, n), h) == At(funds, h)
  {
  }

  lemma DebitedElsewhere(funds: Balances, from: Holder, n: nat, h: Holder)
    requires n <= At(funds, from) && h != from
    ensures At(Debited(funds, from, n), h) == At(funds, h)
  {
  }

  lemma MovedElsewhere(funds: Balances, from: Holder, to: Holder, n: nat, h: Holder)
    requires n <= At(funds, from) && h != from && h != to
    ensures At(Moved(funds, from, to, n), h) == At(funds, h)
  {
  }

  lemma CreditedTotal(funds: Balances, h: Holder, n: nat)
    ensures forall token :: Held(Credited(funds, h, n), token) == Held(funds, token) + if h.token == token then n else 0
  {
    forall token ensures Held(Credited(funds, h, n), token) == Held(funds, token) + if h.token == token then n else 0 {
      SetTotal(funds, h, At(funds, h) + n, token);
    }
  }

  lemma DebitedTotal(funds: Balances, h: Holder, n: nat)
    requires n <= At(funds, h)
    ensures forall token :: Held(Debited(funds, h, n), token) == Held(funds, token) - if h.token == token then n else 0
  {
    forall token ensures Held(Debited(funds, h, n), token) == Held(funds, token) - if h.token == token then n else 0 {
      SetTotal(funds, h, At(funds, h) - n, token);
    }
  }

  /** Moving tokens of one kind changes no total. */
  lemma MovedTotal(funds: Balances, from: Holder, to: Holder, n: nat)
    requires n <= At(funds, from) && from.token == to.token
    ensures forall token :: Held(Moved(funds, from, to, n), token) == Held(funds, token)
  {
    DebitedTotal(funds, from, n);
    CreditedTotal(Debited(funds, from, n), to, n);
  }

  /** No single balance exceeds the total of its token. */
  lemma AtMostTotal(funds: Balances, h: Holder)
    ensures At(funds, h) <= Held(funds, h.token)
  {
    var f := Amounts(funds, h.token);
    if h in funds {
      SumTermAtMost(funds.Keys, f, h);
    } else {
      SumNonNegative(funds.Keys, f);
    }
  }

  /** The total may be taken over any set that covers the non-empty holders of the token. */
  lemma TotalOver(funds: Balances, token: Token, holders: set<Holder>)
    requires forall h :: h in funds && funds[h] > 0 && h.token == token ==> h in holders
    ensures Held(funds, token) == Sum(holders, Amounts(funds, token))
  {
    var f := Amounts(funds, token);
    var both := funds.Keys * holders;
    assert funds.Keys == both + (funds.Keys - holders) && holders == both + (holders - funds.Keys);
    SumDisjoint(both, funds.Keys - holders, f);
    SumDisjoint(both, holders - funds.Keys, f);
    SumZero(funds.Keys - holders, f);
    SumZero(holders - funds.Keys, f);
  }
}
