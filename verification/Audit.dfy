/** The bookkeeping check run on the whole state: each token's supply equals the sum over the objects that hold it. */
module Audit {
  import opened Sums
  import opened Funds
  import opened LedgerState

  function LiquidPlace(a: Name): Place { Liquid(a) }
  function SavingsPlace(a: Name): Place { Savings(a) }
  function RewardsPlace(a: Name): Place { Rewards(a) }
  function VestingPlace(a: Name): Place { Vesting(a) }
  function SalePlace(id: nat): Place { ForSale(id) }
  function EscrowPlace(k: Key): Place { EscrowFunds(k.owner, k.id) }
  function FeePlace(k: Key): Place { EscrowFee(k.owner, k.id) }
  function WithdrawalPlace(k: Key): Place { WithdrawalFunds(k.owner, k.id) }
  function ConversionPlace(k: Key): Place { ConversionFunds(k.owner, k.id) }
  function CollateralPlace(k: Key): Place { CollateralFunds(k.owner, k.id) }

  ghost function Holding<K(!new)>(keys: set<K>, place: K -> Place, token: Token): set<Holder>
  {
    set k | k in keys :: Holder(place(k), token)
  }

  ghost function Part<K(!new)>(funds: Balances, keys: set<K>, place: K -> Place, token: Token): int
  {
    Sum(keys, k => At(funds, Holder(place(k), token)))
  }

  lemma PartSum<K(!new)>(funds: Balances, keys: set<K>, place: K -> Place, token: Token)
    requires forall k, l :: k in keys && l in keys && place(k) == place(l) ==> k == l
    ensures Sum(Holding(keys, place, token), Amounts(funds, token)) == Part(funds, keys, place, token)
  {
    SumImage(keys, Holding(keys, place, token), k => Holder(place(k), token), Amounts(funds, token),
        k => At(funds, Holder(place(k), token)));
  }

  /** Two kinds of place share no holder. */
  lemma Separate<K(!new), L(!new)>(ks: set<K>, p: K -> Place, ls: set<L>, q: L -> Place, token: Token)
    requires forall k, l :: p(k) != q(l)
    ensures Holding(ks, p, token) !! Holding(ls, q, token)
  {
  }

  /** The sums of two kinds of place add up to the sum over both. */
  lemma TwoParts<K(!new), L(!new)>(funds: Balances, ks: set<K>, p: K -> Place, ls: set<L>, q: L -> Place, token: Token)
    requires forall k, l :: k in ks && l in ks && p(k) == p(l) ==> k == l
    requires forall k, l :: k in ls && l in ls && q(k) == q(l) ==> k == l
    requires forall k, l :: p(k) != q(l)
    ensures Sum(Holding(ks, p, token) + Holding(ls, q, token), Amounts(funds, token))
         == Part(funds, ks, p, token) + Part(funds, ls, q, token)
  {
    PartSum(funds, ks, p, token);
    PartSum(funds, ls, q, token);
    Separate(ks, p, ls, q, token);
    SumDisjoint(Holding(ks, p, token), Holding(ls, q, token), Amounts(funds, token));
  }

  ghost function AccountHolders(s: State, token: Token): set<Holder>
  {
    Holding(s.accounts, LiquidPlace, token) + Holding(s.accounts, SavingsPlace, token)
    + (Holding(s.accounts, RewardsPlace, token) + Holding(s.accounts, VestingPlace, token))
  }

  ghost function InAccounts(s: State, token: Token): int
  {
    Part(s.funds, s.accounts, LiquidPlace, token) + Part(s.funds, s.accounts, SavingsPlace, token)
    + (Part(s.funds, s.accounts, RewardsPlace, token) + Part(s.funds, s.accounts, VestingPlace, token))
  }

  lemma AccountsSum(s: State, token: Token)
    ensures Sum(AccountHolders(s, token), Amounts(s.funds, token)) == InAccounts(s, token)
  {
    var f := Amounts(s.funds, token);
    var l, v := Holding(s.accounts, LiquidPlace, token), Holding(s.accounts, SavingsPlace, token);
    var r, p := Holding(s.accounts, RewardsPlace, token), Holding(s.accounts, VestingPlace, token);
    TwoParts(s.funds, s.accounts, LiquidPlace, s.accounts, SavingsPlace, token);
    TwoParts(s.funds, s.accounts, RewardsPlace, s.accounts, VestingPlace, token);
    hide Part, Amounts;
    SumDisjoint(l + v, r + p, f);
  }

  ghost function ObjectHolders(s: State, token: Token): set<Holder>
  {
    Holding(s.orders.Keys, SalePlace, token)
    + (Holding(s.escrows.Keys, EscrowPlace, token) + Holding(s.escrows.Keys, FeePlace, token))
  }

  ghost function InOrdersAndEscrows(s: State, token: Token): int
  {
    Part(s.funds, s.orders.Keys, SalePlace, token)
    + (Part(s.funds, s.escrows.Keys, EscrowPlace, token) + Part(s.funds, s.escrows.Keys, FeePlace, token))
  }

  lemma ObjectsSum(s: State, token: Token)
    ensures Sum(ObjectHolders(s, token), Amounts(s.funds, token)) == InOrdersAndEscrows(s, token)
  {
    var f := Amounts(s.funds, token);
    var o := Holding(s.orders.Keys, SalePlace, token);
    var e, g := Holding(s.escrows.Keys, EscrowPlace, token), Holding(s.escrows.Keys, FeePlace, token);
    PartSum(s.funds, s.orders.Keys, SalePlace, token);
    TwoParts(s.funds, s.escrows.Keys, EscrowPlace, s.escrows.Keys, FeePlace, token);
    hide Part, Amounts;
    SumDisjoint(o, e + g, f);
  }

  ghost function RequestHolders(s: State, token: Token): set<Holder>
  {
    Holding(s.withdrawals.Keys, WithdrawalPlace, token)
    + (Holding(s.conversions.Keys, ConversionPlace, token) + Holding(s.collaterals.Keys, CollateralPlace, token))
  }

  ghost function InRequests(s: State, token: Token): int
  {
    Part(s.funds, s.withdrawals.Keys, WithdrawalPlace, token)
    + (Part(s.funds, s.conversions.Keys, ConversionPlace, token)
       + Part(s.funds, s.collaterals.Keys, CollateralPlace, token))
  }

  lemma RequestsSum(s: State, token: Token)
    ensures Sum(RequestHolders(s, token), Amounts(s.funds, token)) == InRequests(s, token)
  {
    var f := Amounts(s.funds, token);
    var w := Holding(s.withdrawals.Keys, WithdrawalPlace, token);
    var c, p := Holding(s.conversions.Keys, ConversionPlace, token),
      Holding(s.collaterals.Keys, CollateralPlace, token);
    PartSum(s.funds, s.withdrawals.Keys, WithdrawalPlace, token);
    TwoParts(s.funds, s.conversions.Keys, ConversionPlace, s.collaterals.Keys, CollateralPlace, token);
    hide Part, Amounts;
    SumDisjoint(w, c + p, f);
  }

  /** The two funds of the chain itself. */
  ghost function FundHolders(token: Token): set<Holder>
  {
    {Holder(RewardFund, token)} + {Holder(VestingFund, token)}
  }

  ghost function InFunds(s: State, token: Token): int
  {
    At(s.funds, Holder(RewardFund, token)) + At(s.funds, Holder(VestingFund, token))
  }

  lemma FundsSum(s: State, token: Token)
    ensures Sum(FundHolders(token), Amounts(s.funds, token)) == InFunds(s, token)
  {
    var f := Amounts(s.funds, token);
    SumDisjoint({Holder(RewardFund, token)}, {Holder(VestingFund, token)}, f);
    SumSingle({Holder(RewardFund, token)}, f, Holder(RewardFund, token));
    SumSingle({Holder(VestingFund, token)}, f, Holder(VestingFund, token));
  }

  /** What the check adds up, over every object of every kind. */
  ghost function Counted(s: State, token: Token): int
  {
    InAccounts(s, token) + InOrdersAndEscrows(s, token) + (InRequests(s, token) + InFunds(s, token))
  }

  lemma Covers(s: State, token: Token)
    requires Backed(s)
    ensures forall h :: h in s.funds && s.funds[h] > 0 && h.token == token ==>
      h in AccountHolders(s, token) + ObjectHolders(s, token) + (RequestHolders(s, token) + FundHolders(token))
  {
    forall h | h in s.funds && s.funds[h] > 0 && h.token == token
      ensures h in AccountHolders(s, token) + ObjectHolders(s, token) + (RequestHolders(s, token) + FundHolders(token))
    {
      Placed(s, h);
    }
  }

  lemma Placed(s: State, h: Holder)
    requires Known(s, h)
    ensures h in AccountHolders(s, h.token) + ObjectHolders(s, h.token)
        + (RequestHolders(s, h.token) + FundHolders(h.token))
  {
    match h.place
    case Liquid(a) =>
    case Savings(a) =>
    case Rewards(a) =>
    case Vesting(a) =>
    case ForSale(id) =>
    case EscrowFunds(a, id) => assert Key(a, id) in s.escrows.Keys;
    case EscrowFee(a, id) => assert Key(a, id) in s.escrows.Keys;
    case WithdrawalFunds(a, id) => assert Key(a, id) in s.withdrawals.Keys;
    case ConversionFunds(a, id) => assert Key(a, id) in s.conversions.Keys;
    case CollateralFunds(a, id) => assert Key(a, id) in s.collaterals.Keys;
    case RewardFund =>
    case VestingFund =>
  }

  function Group(p: Place): nat
  {
    if p.Liquid? || p.Savings? || p.Rewards? || p.Vesting? then 0
    else if p.ForSale? || p.EscrowFunds? || p.EscrowFee? then 1
    else if p.WithdrawalFunds? || p.ConversionFunds? || p.CollateralFunds? then 2
    else 3
  }

  lemma AllIn<K(!new)>(keys: set<K>, place: K -> Place, token: Token, group: nat)
    requires forall k :: Group(place(k)) == group
    ensures forall h :: h in Holding(keys, place, token) ==> Group(h.place) == group
  {
  }

  lemma AccountsGrouped(s: State, token: Token)
    ensures forall h :: h in AccountHolders(s, token) ==> Group(h.place) == 0
  {
    hide Holding;
    AllIn(s.accounts, LiquidPlace, token, 0);
    AllIn(s.accounts, SavingsPlace, token, 0);
    AllIn(s.accounts, RewardsPlace, token, 0);
    AllIn(s.accounts, VestingPlace, token, 0);
  }

  lemma OthersGrouped(s: State, token: Token)
    ensures forall h :: h in ObjectHolders(s, token) ==> Group(h.place) == 1
    ensures forall h :: h in RequestHolders(s, token) ==> Group(h.place) == 2
  {
    hide Holding;
    AllIn(s.orders.Keys, SalePlace, token, 1);
    AllIn(s.escrows.Keys, EscrowPlace, token, 1);
    AllIn(s.escrows.Keys, FeePlace, token, 1);
    AllIn(s.withdrawals.Keys, WithdrawalPlace, token, 2);
    AllIn(s.conversions.Keys, ConversionPlace, token, 2);
    AllIn(s.collaterals.Keys, CollateralPlace, token, 2);
  }

  /** The four groups share no holder. */
  lemma Apart(s: State, token: Token)
    ensures AccountHolders(s, token) !! ObjectHolders(s, token)
    ensures RequestHolders(s, token) !! FundHolders(token)
    ensures AccountHolders(s, token) + ObjectHolders(s, token) !! RequestHolders(s, token) + FundHolders(token)
  {
    hide AccountHolders, ObjectHolders, RequestHolders;
    AccountsGrouped(s, token);
    OthersGrouped(s, token);
  }

  /** The check succeeds in every sound state, for every token. */
  lemma AuditPasses(s: State, token: Token)
    requires Sound(s)
    ensures Counted(s, token) == Of(s.supply, token)
  {
    hide Backed, Parties, FeesPaid, Counts, Book, Of, AccountHolders, ObjectHolders, RequestHolders, FundHolders, Held;
    hide InAccounts, InOrdersAndEscrows, InRequests, InFunds;
    Apart(s, token);
    Covers(s, token);
    var a, o, r, f := AccountHolders(s, token), ObjectHolders(s, token), RequestHolders(s, token), FundHolders(token);
    TotalOver(s.funds, token, a + o + (r + f));
    AccountsSum(s, token);
    ObjectsSum(s, token);
    RequestsSum(s, token);
    FundsSum(s, token);
    SumDisjoint(r, f, Amounts(s.funds, token));
    SumDisjoint(a, o, Amounts(s.funds, token));
    SumDisjoint(a + o, r + f, Amounts(s.funds, token));
  }

  /** The HIVE supply the node records includes what stands behind rewards not yet claimed. */
  function CurrentSupply(s: Supply): int
  {
    s.hive + s.pendingHive
  }

  /** The recorded supply of HIVE is what is counted, in either form. */
  lemma CurrentSupplyCounted(s: State)
    requires Sound(s)
    ensures Counted(s, Hive) + Counted(s, PendingHive) == CurrentSupply(s.supply)
  {
    hide Sound, Counted;
    AuditPasses(s, Hive);
    AuditPasses(s, PendingHive);
  }
}
