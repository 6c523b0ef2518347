/** The objects that hold tokens besides accounts, and what every state of the ledger keeps. */
module LedgerState {
  import opened Sums
  import opened Funds
  import opened Market

  /** `number` is the owner's own numbering of their orders. */
  datatype Order = Order(seller: Name, number: nat, sells: Token, terms: Terms, expires: nat)

  datatype Escrow = Escrow(to: Name, agent: Name, feeToken: Token, toApproved: bool, agentApproved: bool,
    disputed: bool, deadline: nat, expires: nat)

  datatype SavingsRequest = SavingsRequest(to: Name, token: Token, complete: nat)

  datatype Collateralized = Collateralized(converted: nat, date: nat)

  datatype Key = Key(owner: Name, id: nat)

  datatype Supply = Supply(hive: int, pendingHive: int, hbd: int, vests: int, rewardVests: int)

  datatype State = State(
    accounts: set<Name>,
    funds: Balances,
    supply: Supply,
    orders: map<nat, Order>,
    nextOrder: nat,
    escrows: map<Key, Escrow>,
    withdrawals: map<Key, SavingsRequest>,
    conversions: map<Key, nat>,
    collaterals: map<Key, Collateralized>,
    openEscrows: map<Name, nat>,
    openWithdrawals: map<Name, nat>)

  function Of(s: Supply, token: Token): int
  {
    match token
    case Hive => s.hive
    case PendingHive => s.pendingHive
    case Hbd => s.hbd
    case Vests => s.vests
    case RewardVests => s.rewardVests
  }

  function Issued(s: Supply, token: Token, n: int): Supply
  {
    match token
    case Hive => s.(hive := s.hive + n)
    case PendingHive => s.(pendingHive := s.pendingHive + n)
    case Hbd => s.(hbd := s.hbd + n)
    case Vests => s.(vests := s.vests + n)
    case RewardVests => s.(rewardVests := s.rewardVests + n)
  }

  predicate Coin(token: Token)
  {
    token == Hive || token == Hbd
  }

  predicate Approved(e: Escrow)
  {
    e.toApproved && e.agentApproved
  }

  function Offered(id: nat, o: Order): Holder
  {
    Holder(ForSale(id), o.sells)
  }

  // ---- The invariant ----

  /** Each token's balances add up to its recorded supply. */
  ghost predicate Conserved(funds: Balances, supply: Supply)
  {
    forall token :: Held(funds, token) == Of(supply, token)
  }

  /** The holders that exist: accounts, pending objects and the two funds. */
  predicate Known(s: State, h: Holder)
  {
    match h.place
    case Liquid(a) => a in s.accounts && Coin(h.token)
    case Savings(a) => a in s.accounts && Coin(h.token)
    case Rewards(a) => a in s.accounts && h.token != Vests
    case Vesting(a) => a in s.accounts && h.token == Vests
    case ForSale(id) => id in s.orders && h.token == s.orders[id].sells
    case EscrowFunds(a, id) => Key(a, id) in s.escrows && Coin(h.token)
    case EscrowFee(a, id) => Key(a, id) in s.escrows && h.token == s.escrows[Key(a, id)].feeToken
    case WithdrawalFunds(a, id) => Key(a, id) in s.withdrawals && h.token == s.withdrawals[Key(a, id)].token
    case ConversionFunds(a, id) => Key(a, id) in s.conversions && h.token == Hbd
    case CollateralFunds(a, id) => Key(a, id) in s.collaterals && h.token == Hive
    case RewardFund => h.token == Hive
    case VestingFund => h.token == Hive
  }

  /** No tokens outside the holders that exist. */
  ghost predicate Backed(s: State)
  {
    forall h :: h in s.funds && s.funds[h] > 0 ==> Known(s, h)
  }

  ghost predicate Parties(s: State)
  {
    && (forall id :: id in s.orders ==>
         s.orders[id].seller in s.accounts && Coin(s.orders[id].sells) && id < s.nextOrder)
    && (forall k :: k in s.escrows ==>
      k.owner in s.accounts && s.escrows[k].to in s.accounts
      && s.escrows[k].agent in s.accounts && Coin(s.escrows[k].feeToken))
    && (forall k :: k in s.withdrawals ==>
      k.owner in s.accounts && s.withdrawals[k].to in s.accounts && Coin(s.withdrawals[k].token))
    && (forall k :: k in s.conversions ==> k.owner in s.accounts)
    && (forall k :: k in s.collaterals ==> k.owner in s.accounts)
  }

  /** The agent has been paid once everyone approved. */
  ghost predicate FeesPaid(funds: Balances, escrows: map<Key, Escrow>)
  {
    forall k, token :: k in escrows && Approved(escrows[k]) ==> At(funds, Holder(EscrowFee(k.owner, k.id), token)) == 0
  }

  ghost function Owned(keys: set<Key>, a: Name): set<Key>
  {
    set k | k in keys && k.owner == a
  }

  ghost predicate Counts(counts: map<Name, nat>, keys: set<Key>, accounts: set<Name>)
  {
    counts.Keys == accounts && forall a :: a in accounts ==> counts[a] == |Owned(keys, a)|
  }

  ghost predicate Whole(s: State)
  {
    && Conserved(s.funds, s.supply)
    && Backed(s)
    && Parties(s)
    && FeesPaid(s.funds, s.escrows)
    && Counts(s.openEscrows, s.escrows.Keys, s.accounts)
    && Counts(s.openWithdrawals, s.withdrawals.Keys, s.accounts)
  }

  predicate Opposed(a: Order, b: Order)
  {
    a.sells != b.sells
  }

  /** Every order but `id` asks a price, and still has something worth selling at it. */
  ghost predicate Resting(funds: Balances, orders: map<nat, Order>, id: nat)
  {
    forall i :: i in orders && i != id ==>
      IsTerms(orders[i].terms) && Live(At(funds, Offered(i, orders[i])), orders[i].terms)
  }

  /** No two orders but `id` could trade. */
  ghost predicate Uncrossed(orders: map<nat, Order>, id: nat)
  {
    forall i, j :: i in orders && j in orders && i != id && j != id && Opposed(orders[i], orders[j]) ==>
      !Crosses(orders[i].terms, orders[j].terms)
  }

  ghost predicate Numbered(orders: map<nat, Order>)
  {
    forall i, j ::
      && i in orders && j in orders && orders[i].seller == orders[j].seller
      && orders[i].number == orders[j].number ==>
      i == j
  }

  ghost predicate Book(funds: Balances, orders: map<nat, Order>, id: nat)
  {
    Resting(funds, orders, id) && Uncrossed(orders, id) && Numbered(orders)
  }

  /** The order book is in order; `nextOrder` is no order's id, so no order is exempt. */
  ghost predicate Sound(s: State)
  {
    Whole(s) && Book(s.funds, s.orders, s.nextOrder)
  }

  // ---- Small steps ----

  /** A holder that may be paid into. */
  ghost predicate Open(s: State, h: Holder)
  {
    && Known(s, h)
    && (h.place.EscrowFee? && Key(h.place.a, h.place.id) in s.escrows ==>
           !Approved(s.escrows[Key(h.place.a, h.place.id)]))
  }

  lemma OpenKept(s: State, h: Holder, funds: Balances)
    requires Open(s, h)
    ensures Open(s.(funds := funds), h)
  {
  }

  /** Paying into a holder that exists breaks nothing but the totals. */
  lemma CreditKeeps(s: State, h: Holder, n: nat, supply: Supply)
    requires Open(s, h) && Backed(s) && FeesPaid(s.funds, s.escrows) && Parties(s)
    ensures var t := s.(funds := Credited(s.funds, h, n), supply := supply);
      Backed(t) && FeesPaid(t.funds, t.escrows) && Parties(t)
  {
  }

  lemma DebitKeeps(s: State, h: Holder, n: nat, supply: Supply)
    requires Backed(s) && FeesPaid(s.funds, s.escrows) && Parties(s) && n <= At(s.funds, h)
    ensures var t := s.(funds := Debited(s.funds, h, n), supply := supply);
      Backed(t) && FeesPaid(t.funds, t.escrows) && Parties(t)
  {
  }

  lemma MoveWhole(s: State, from: Holder, to: Holder, n: nat)
    requires Whole(s) && Open(s, to) && n <= At(s.funds, from) && from.token == to.token
    ensures Whole(s.(funds := Moved(s.funds, from, to, n)))
  {
    hide Backed, FeesPaid, Parties, Counts, Open, Held;
    MovedTotal(s.funds, from, to, n);
    OpenKept(s, to, Debited(s.funds, from, n));
    DebitKeeps(s, from, n, s.supply);
    CreditKeeps(s.(funds := Debited(s.funds, from, n)), to, n, s.supply);
  }

  lemma IssueWhole(s: State, h: Holder, n: nat)
    requires Whole(s) && Open(s, h)
    ensures Whole(s.(funds := Credited(s.funds, h, n), supply := Issued(s.supply, h.token, n)))
  {
    hide Backed, FeesPaid, Parties, Counts, Open, Held;
    CreditedTotal(s.funds, h, n);
    CreditKeeps(s, h, n, Issued(s.supply, h.token, n));
  }

  lemma BurnWhole(s: State, h: Holder, n: nat)
    requires Whole(s) && n <= At(s.funds, h)
    ensures Whole(s.(funds := Debited(s.funds, h, n), supply := Issued(s.supply, h.token, 0 - n)))
  {
    hide Backed, FeesPaid, Parties, Counts, Open, Held;
    DebitedTotal(s.funds, h, n);
    DebitKeeps(s, h, n, Issued(s.supply, h.token, 0 - n));
  }

  // ---- Objects come and go ----

  lemma CountAdded(counts: map<Name, nat>, keys: set<Key>, accounts: set<Name>, k: Key)
    requires Counts(counts, keys, accounts) && k !in keys && k.owner in accounts
    ensures k.owner in counts
    ensures Counts(counts[k.owner := counts[k.owner] + 1], keys + {k}, accounts)
  {
    assert Owned(keys + {k}, k.owner) == Owned(keys, k.owner) + {k};
    forall a | a in accounts && a != k.owner ensures |Owned(keys + {k}, a)| == |Owned(keys, a)| {
      assert Owned(keys + {k}, a) == Owned(keys, a);
    }
  }

  lemma CountRemoved(counts: map<Name, nat>, keys: set<Key>, accounts: set<Name>, k: Key)
    requires Counts(counts, keys, accounts) && k in keys && k.owner in accounts
    ensures k.owner in counts && counts[k.owner] > 0
    ensures Counts(counts[k.owner := counts[k.owner] - 1], keys - {k}, accounts)
  {
    assert k in Owned(keys, k.owner);
    assert Owned(keys - {k}, k.owner) == Owned(keys, k.owner) - {k};
    forall a | a in accounts && a != k.owner ensures |Owned(keys - {k}, a)| == |Owned(keys, a)| {
      assert Owned(keys - {k}, a) == Owned(keys, a);
    }
  }

  function WithOrder(s: State, o: Order): State
  {
    s.(orders := s.orders[s.nextOrder := o], nextOrder := s.nextOrder + 1)
  }

  lemma AddOrder(s: State, o: Order)
    requires Whole(s) && o.seller in s.accounts && Coin(o.sells)
    ensures Whole(WithOrder(s, o))
  {
    hide Conserved, Counts, FeesPaid;
  }

  function WithoutOrder(s: State, id: nat): State
  {
    s.(orders := s.orders - {id})
  }

  lemma RemoveOrder(s: State, id: nat)
    requires Whole(s) && id in s.orders && At(s.funds, Offered(id, s.orders[id])) == 0
    ensures Whole(WithoutOrder(s, id))
  {
    hide Conserved, Counts, FeesPaid;
  }

  function WithEscrow(s: State, k: Key, e: Escrow): State
    requires k.owner in s.openEscrows
  {
    s.(escrows := s.escrows[k := e], openEscrows := s.openEscrows[k.owner := s.openEscrows[k.owner] + 1])
  }

  lemma AddEscrow(s: State, k: Key, e: Escrow)
    requires Whole(s) && k !in s.escrows && !Approved(e)
    requires k.owner in s.accounts && e.to in s.accounts && e.agent in s.accounts && Coin(e.feeToken)
    ensures k.owner in s.openEscrows
    ensures Whole(WithEscrow(s, k, e))
  {
    hide Conserved, Counts;
    CountAdded(s.openEscrows, s.escrows.Keys, s.accounts, k);
    assert s.escrows[k := e].Keys == s.escrows.Keys + {k};
  }

  lemma ChangeEscrow(s: State, k: Key, e: Escrow)
    requires Whole(s) && k in s.escrows
    requires e.to == s.escrows[k].to && e.agent == s.escrows[k].agent && e.feeToken == s.escrows[k].feeToken
    requires Approved(e) ==> At(s.funds, Holder(EscrowFee(k.owner, k.id), e.feeToken)) == 0
    ensures Whole(s.(escrows := s.escrows[k := e]))
  {
    hide Conserved, Counts;
    var t := s.(escrows := s.escrows[k := e]);
    assert t.escrows.Keys == s.escrows.Keys;
    forall token | Approved(e) ensures At(s.funds, Holder(EscrowFee(k.owner, k.id), token)) == 0 {
      var h := Holder(EscrowFee(k.owner, k.id), token);
      assert token != e.feeToken ==> !Known(s, h);
    }
  }

  function WithoutEscrow(s: State, k: Key): State
    requires k.owner in s.openEscrows && s.openEscrows[k.owner] > 0
  {
    s.(escrows := s.escrows - {k}, openEscrows := s.openEscrows[k.owner := s.openEscrows[k.owner] - 1])
  }

  ghost predicate Drained(s: State, k: Key)
  {
    forall token ::
      At(s.funds, Holder(EscrowFunds(k.owner, k.id), token)) == 0
      && At(s.funds, Holder(EscrowFee(k.owner, k.id), token)) == 0
  }

  lemma RemoveEscrow(s: State, k: Key)
    requires Whole(s) && k in s.escrows && Drained(s, k)
    ensures k.owner in s.openEscrows && s.openEscrows[k.owner] > 0
    ensures Whole(WithoutEscrow(s, k))
  {
    hide Conserved, Counts;
    CountRemoved(s.openEscrows, s.escrows.Keys, s.accounts, k);
    assert (s.escrows - {k}).Keys == s.escrows.Keys - {k};
  }

  function WithWithdrawal(s: State, k: Key, r: SavingsRequest): State
    requires k.owner in s.openWithdrawals
  {
    s.(withdrawals := s.withdrawals[k := r],
         openWithdrawals := s.openWithdrawals[k.owner := s.openWithdrawals[k.owner] + 1])
  }

  lemma AddWithdrawal(s: State, k: Key, r: SavingsRequest)
    requires Whole(s) && k !in s.withdrawals && k.owner in s.accounts && r.to in s.accounts && Coin(r.token)
    ensures k.owner in s.openWithdrawals
    ensures Whole(WithWithdrawal(s, k, r))
  {
    hide Conserved, Counts, FeesPaid;
    CountAdded(s.openWithdrawals, s.withdrawals.Keys, s.accounts, k);
    assert s.withdrawals[k := r].Keys == s.withdrawals.Keys + {k};
  }

  function WithoutWithdrawal(s: State, k: Key): State
    requires k.owner in s.openWithdrawals && s.openWithdrawals[k.owner] > 0
  {
    s.(withdrawals := s.withdrawals - {k},
         openWithdrawals := s.openWithdrawals[k.owner := s.openWithdrawals[k.owner] - 1])
  }

  lemma RemoveWithdrawal(s: State, k: Key)
    requires
      && Whole(s) && k in s.withdrawals
      && At(s.funds, Holder(WithdrawalFunds(k.owner, k.id), s.withdrawals[k].token)) == 0
    ensures k.owner in s.openWithdrawals && s.openWithdrawals[k.owner] > 0
    ensures Whole(WithoutWithdrawal(s, k))
  {
    hide Conserved, Counts, FeesPaid;
    CountRemoved(s.openWithdrawals, s.withdrawals.Keys, s.accounts, k);
    assert (s.withdrawals - {k}).Keys == s.withdrawals.Keys - {k};
  }

  lemma AddConversion(s: State, k: Key, date: nat)
    requires Whole(s) && k.owner in s.accounts
    ensures Whole(s.(conversions := s.conversions[k := date]))
  {
    hide Conserved, Counts, FeesPaid;
  }

  lemma RemoveConversion(s: State, k: Key)
    requires Whole(s) && k in s.conversions && At(s.funds, Holder(ConversionFunds(k.owner, k.id), Hbd)) == 0
    ensures Whole(s.(conversions := s.conversions - {k}))
  {
    hide Conserved, Counts, FeesPaid;
  }

  lemma AddCollateral(s: State, k: Key, c: Collateralized)
    requires Whole(s) && k.owner in s.accounts
    ensures Whole(s.(collaterals := s.collaterals[k := c]))
  {
    hide Conserved, Counts, FeesPaid;
  }

  lemma RemoveCollateral(s: State, k: Key)
    requires Whole(s) && k in s.collaterals && At(s.funds, Holder(CollateralFunds(k.owner, k.id), Hive)) == 0
    ensures Whole(s.(collaterals := s.collaterals - {k}))
  {
    hide Conserved, Counts, FeesPaid;
  }

  // ---- Steps that leave the order book alone ----

  lemma BookKept(before: Balances, after: Balances, orders: map<nat, Order>, id: nat)
    requires Book(before, orders, id)
    requires forall i :: i in orders && i != id ==>
      At(after, Offered(i, orders[i])) == At(before, Offered(i, orders[i]))
    ensures Book(after, orders, id)
  {
    hide Uncrossed, Numbered, Live;
  }

  lemma MoveSound(s: State, from: Holder, to: Holder, n: nat)
    requires Sound(s) && Open(s, to) && n <= At(s.funds, from) && from.token == to.token
    requires !from.place.ForSale? && !to.place.ForSale?
    ensures Sound(s.(funds := Moved(s.funds, from, to, n)))
  {
    hide Whole, Book, Open;
    MoveWhole(s, from, to, n);
    BookKept(s.funds, Moved(s.funds, from, to, n), s.orders, s.nextOrder);
  }

  lemma IssueSound(s: State, h: Holder, n: nat)
    requires Sound(s) && Open(s, h) && !h.place.ForSale?
    ensures Sound(s.(funds := Credited(s.funds, h, n), supply := Issued(s.supply, h.token, n)))
  {
    hide Whole, Book, Open;
    IssueWhole(s, h, n);
    BookKept(s.funds, Credited(s.funds, h, n), s.orders, s.nextOrder);
  }

  lemma BurnSound(s: State, h: Holder, n: nat)
    requires Sound(s) && n <= At(s.funds, h) && !h.place.ForSale?
    ensures Sound(s.(funds := Debited(s.funds, h, n), supply := Issued(s.supply, h.token, 0 - n)))
  {
    hide Whole, Book;
    BurnWhole(s, h, n);
    BookKept(s.funds, Debited(s.funds, h, n), s.orders, s.nextOrder);
  }

  // ---- Accounts ----

  function WithAccount(s: State, a: Name): State
  {
    s.(accounts := s.accounts + {a}, openEscrows := s.openEscrows[a := 0], openWithdrawals := s.openWithdrawals[a := 0])
  }

  lemma AddAccount(s: State, a: Name)
    requires Sound(s) && a !in s.accounts
    ensures Sound(WithAccount(s, a))
  {
    hide Conserved, FeesPaid, Book, Counts;
    CountsNew(s.openEscrows, s.escrows.Keys, s.accounts, a);
    CountsNew(s.openWithdrawals, s.withdrawals.Keys, s.accounts, a);
  }

  lemma CountsNew(counts: map<Name, nat>, keys: set<Key>, accounts: set<Name>, a: Name)
    requires Counts(counts, keys, accounts) && a !in accounts && forall k :: k in keys ==> k.owner in accounts
    ensures Counts(counts[a := 0], keys, accounts + {a})
  {
    assert Owned(keys, a) == {};
  }

  function Empty(): State
  {
    State({}, map[], Supply(0, 0, 0, 0, 0), map[], 0, map[], map[], map[], map[], map[], map[])
  }
}
