/** Steps of the ledger that move tokens and open or close one object, as functions of its state. */
module LedgerSteps {
  import opened Sums
  import opened Funds
  import opened LedgerState
  import opened OrderBook
  import opened Arithmetic
  import opened SharePrice

  function Liq(a: Name, token: Token): Holder
  {
    Holder(Liquid(a), token)
  }

  function InEscrow(k: Key, token: Token): Holder
  {
    Holder(EscrowFunds(k.owner, k.id), token)
  }

  function Fee(k: Key, token: Token): Holder
  {
    Holder(EscrowFee(k.owner, k.id), token)
  }

  function Leaving(k: Key, token: Token): Holder
  {
    Holder(WithdrawalFunds(k.owner, k.id), token)
  }

  /** The whole of one balance handed to another holder. */
  function Emptied(s: State, from: Holder, to: Holder): State
  {
    s.(funds := Moved(s.funds, from, to, At(s.funds, from)))
  }

  lemma EmptiedSound(s: State, from: Holder, to: Holder)
    requires
      && Sound(s) && Open(s, to) && from.token == to.token && from != to && !from.place.ForSale? && !to.place.ForSale?
    ensures Sound(Emptied(s, from, to))
    ensures At(Emptied(s, from, to).funds, from) == 0
    ensures forall h :: h != from && h != to ==> At(Emptied(s, from, to).funds, h) == At(s.funds, h)
  {
    hide Sound, Open;
    MoveSound(s, from, to, At(s.funds, from));
  }

  // ---- Escrows ----

  function Drawn(s: State, k: Key, fee: Token): State
  {
    Emptied(Emptied(Emptied(s, InEscrow(k, Hive), Liq(k.owner, Hive)), InEscrow(k, Hbd), Liq(k.owner, Hbd)),
      Fee(k, fee), Liq(k.owner, fee))
  }

  /** An escrow called off: the sender gets back everything, the agent's fee included. */
  function Returned(s: State, k: Key): State
    requires k in s.escrows && k.owner in s.openEscrows && s.openEscrows[k.owner] > 0
  {
    WithoutEscrow(Drawn(s, k, s.escrows[k].feeToken), k)
  }

  lemma ReturnedSound(s: State, k: Key)
    requires Sound(s) && k in s.escrows
    ensures k.owner in s.openEscrows && s.openEscrows[k.owner] > 0
    ensures Sound(Returned(s, k))
  {
    hide Emptied, Conserved, Backed, FeesPaid, Counts, Book;
    assert forall token :: Coin(token) ==> Open(s, Liq(k.owner, token));
    var fee := s.escrows[k].feeToken;
    var a := Emptied(s, InEscrow(k, Hive), Liq(k.owner, Hive));
    EmptiedSound(s, InEscrow(k, Hive), Liq(k.owner, Hive));
    EmptiedFrame(s, InEscrow(k, Hive), Liq(k.owner, Hive));
    var b := Emptied(a, InEscrow(k, Hbd), Liq(k.owner, Hbd));
    EmptiedSound(a, InEscrow(k, Hbd), Liq(k.owner, Hbd));
    EmptiedFrame(a, InEscrow(k, Hbd), Liq(k.owner, Hbd));
    var c := Emptied(b, Fee(k, fee), Liq(k.owner, fee));
    EmptiedSound(b, Fee(k, fee), Liq(k.owner, fee));
    EmptiedFrame(b, Fee(k, fee), Liq(k.owner, fee));
    OnlyHolders(c, k);
    RemoveEscrow(c, k);
  }

  lemma EmptiedFrame(s: State, from: Holder, to: Holder)
    ensures var t := Emptied(s, from, to); t == s.(funds := t.funds)
  {
  }

  /** An escrow holds HIVE, HBD and its fee, and nothing else. */
  lemma OnlyHolders(s: State, k: Key)
    requires Whole(s) && k in s.escrows
    requires At(s.funds, InEscrow(k, Hive)) == 0 && At(s.funds, InEscrow(k, Hbd)) == 0
    requires At(s.funds, Fee(k, s.escrows[k].feeToken)) == 0
    ensures Drained(s, k)
  {
    hide Conserved, FeesPaid, Counts, Parties;
    forall token ensures At(s.funds, InEscrow(k, token)) == 0 && At(s.funds, Fee(k, token)) == 0 {
      assert Known(s, InEscrow(k, token)) ==> Coin(token);
      assert Known(s, Fee(k, token)) ==> token == s.escrows[k].feeToken;
    }
  }

  /** What an escrow that is called off does to the balance of a holder. */
  ghost function GivenBack(s: State, h: Holder): Key -> int
  {
    (k: Key) => if k !in s.escrows then 0 else
      var fee := s.escrows[k].feeToken;
      Back(s, h, k, EscrowFunds(k.owner, k.id), Hive) + Back(s, h, k, EscrowFunds(k.owner, k.id), Hbd)
        + Back(s, h, k, EscrowFee(k.owner, k.id), fee)
  }

  ghost function Back(s: State, h: Holder, k: Key, from: Place, token: Token): int
  {
    var n := At(s.funds, Holder(from, token));
    Only(h, Holder(Liquid(k.owner), token), n) - Only(h, Holder(from, token), n)
  }

  lemma GivenBackAll(s: State, k: Key)
    requires k in s.escrows && k.owner in s.openEscrows && s.openEscrows[k.owner] > 0
    ensures forall h :: At(Returned(s, k).funds, h) == At(s.funds, h) + GivenBack(s, h)(k)
  {
    hide Moved;
    var fee := s.escrows[k].feeToken;
    var a := Emptied(s, InEscrow(k, Hive), Liq(k.owner, Hive));
    MovedBalances(s.funds, InEscrow(k, Hive), Liq(k.owner, Hive), At(s.funds, InEscrow(k, Hive)));
    var b := Emptied(a, InEscrow(k, Hbd), Liq(k.owner, Hbd));
    MovedBalances(a.funds, InEscrow(k, Hbd), Liq(k.owner, Hbd), At(a.funds, InEscrow(k, Hbd)));
    MovedBalances(b.funds, Fee(k, fee), Liq(k.owner, fee), At(b.funds, Fee(k, fee)));
  }

  /** The balances after some escrows have been called off. */
  ghost predicate AllGivenBack(s: State, t: State)
  {
    forall h :: At(t.funds, h) == At(s.funds, h) + Sum(s.escrows.Keys - t.escrows.Keys, GivenBack(s, h))
  }

  lemma NoneGivenBack(s: State)
    ensures AllGivenBack(s, s)
  {
    assert s.escrows.Keys - s.escrows.Keys == {};
  }

  lemma OneMoreGivenBack(s: State, t: State, u: State, k: Key)
    requires AllGivenBack(s, t) && k in t.escrows && u.escrows == t.escrows - {k}
    requires forall j :: j in t.escrows ==> j in s.escrows && t.escrows[j] == s.escrows[j]
    requires forall h :: At(u.funds, h) == At(t.funds, h) + GivenBack(t, h)(k)
    ensures AllGivenBack(s, u)
  {
    hide GivenBack, At;
    var done := s.escrows.Keys - t.escrows.Keys;
    assert s.escrows.Keys - u.escrows.Keys == done + {k};
    forall h ensures At(u.funds, h) == At(s.funds, h) + Sum(s.escrows.Keys - u.escrows.Keys, GivenBack(s, h)) {
      StillInEscrow(s, t, k, h);
      SumInsert(done, GivenBack(s, h), k);
    }
  }

  lemma StillInEscrow(s: State, t: State, k: Key, h: Holder)
    requires AllGivenBack(s, t) && k in t.escrows && k in s.escrows && t.escrows[k] == s.escrows[k]
    ensures GivenBack(t, h)(k) == GivenBack(s, h)(k)
  {
    hide At;
    var done := s.escrows.Keys - t.escrows.Keys;
    SumZero(done, GivenBack(s, InEscrow(k, Hive)));
    SumZero(done, GivenBack(s, InEscrow(k, Hbd)));
    SumZero(done, GivenBack(s, Fee(k, s.escrows[k].feeToken)));
  }

  /** Everyone has agreed: the agent is paid. */
  function Agreed(s: State, k: Key): State
    requires k in s.escrows
  {
    var e := s.escrows[k];
    Emptied(s, Fee(k, e.feeToken), Liq(e.agent, e.feeToken)).(
      escrows := s.escrows[k := e.(toApproved := true, agentApproved := true)])
  }

  /** The agent gets the fee, and nothing else moves. */
  lemma AgreedBalances(s: State, k: Key)
    requires k in s.escrows
    ensures var e := s.escrows[k];
      var fee := At(s.funds, Holder(EscrowFee(k.owner, k.id), e.feeToken));
      forall h ::
        At(Agreed(s, k).funds, h) == At(s.funds, h) + Only(h, Holder(Liquid(e.agent), e.feeToken), fee)
          - Only(h, Holder(EscrowFee(k.owner, k.id), e.feeToken), fee)
  {
    hide Moved;
    var e := s.escrows[k];
    MovedBalances(s.funds, Fee(k, e.feeToken), Liq(e.agent, e.feeToken), At(s.funds, Fee(k, e.feeToken)));
  }

  lemma AgreedSound(s: State, k: Key)
    requires Sound(s) && k in s.escrows
    ensures Sound(Agreed(s, k))
  {
    hide Emptied, Conserved, Backed, FeesPaid, Counts, Book;
    var e := s.escrows[k];
    EmptiedSound(s, Fee(k, e.feeToken), Liq(e.agent, e.feeToken));
    EmptiedFrame(s, Fee(k, e.feeToken), Liq(e.agent, e.feeToken));
    ChangeEscrow(Emptied(s, Fee(k, e.feeToken), Liq(e.agent, e.feeToken)), k,
        e.(toApproved := true, agentApproved := true));
  }

  predicate Lapsed(e: Escrow, now: nat)
  {
    !Approved(e) && e.deadline <= now
  }

  function NotLapsed(escrows: map<Key, Escrow>, now: nat): map<Key, Escrow>
  {
    map k | k in escrows && !Lapsed(escrows[k], now) :: escrows[k]
  }

  lemma StillOpen(escrows: map<Key, Escrow>, now: nat)
    ensures forall k :: k in NotLapsed(escrows, now) <==>
      k in escrows && (now < escrows[k].deadline || (escrows[k].toApproved && escrows[k].agentApproved))
  {
  }

  lemma AllReturned(before: map<Key, Escrow>, after: map<Key, Escrow>, now: nat)
    requires forall k :: k in after ==> k in before && after[k] == before[k] && !Lapsed(after[k], now)
    requires forall k :: k in before && k !in after ==> Lapsed(before[k], now)
    ensures after == NotLapsed(before, now)
  {
  }

  function Paying(s: State, k: Key, receiver: Name, hive: nat, hbd: nat): State
    requires hive <= At(s.funds, InEscrow(k, Hive)) && hbd <= At(s.funds, InEscrow(k, Hbd))
  {
    s.(funds := Moved(Moved(s.funds, InEscrow(k, Hive), Liq(receiver, Hive), hive),
      InEscrow(k, Hbd), Liq(receiver, Hbd), hbd))
  }

  /** Part of an escrow is paid out; an escrow with nothing left is closed. */
  function Released(s: State, k: Key, receiver: Name, hive: nat, hbd: nat): State
    requires k.owner in s.openEscrows && s.openEscrows[k.owner] > 0
    requires hive <= At(s.funds, InEscrow(k, Hive)) && hbd <= At(s.funds, InEscrow(k, Hbd))
  {
    var t := Paying(s, k, receiver, hive, hbd);
    if At(t.funds, InEscrow(k, Hive)) == 0 && At(t.funds, InEscrow(k, Hbd)) == 0 then WithoutEscrow(t, k) else t
  }

  lemma ReleasedSound(s: State, k: Key, receiver: Name, hive: nat, hbd: nat)
    requires Sound(s) && k in s.escrows && Approved(s.escrows[k]) && receiver in s.accounts
    requires hive <= At(s.funds, InEscrow(k, Hive)) && hbd <= At(s.funds, InEscrow(k, Hbd))
    ensures k.owner in s.openEscrows && s.openEscrows[k.owner] > 0
    ensures Sound(Released(s, k, receiver, hive, hbd))
  {
    hide Conserved, Backed, Book, Moved, Owned;
    EscrowCounted(s, k);
    MoveSound(s, InEscrow(k, Hive), Liq(receiver, Hive), hive);
    MovedAt(s.funds, InEscrow(k, Hive), Liq(receiver, Hive), hive);
    var a := s.(funds := Moved(s.funds, InEscrow(k, Hive), Liq(receiver, Hive), hive));
    MoveSound(a, InEscrow(k, Hbd), Liq(receiver, Hbd), hbd);
    var t := Paying(s, k, receiver, hive, hbd);
    if At(t.funds, InEscrow(k, Hive)) == 0 && At(t.funds, InEscrow(k, Hbd)) == 0 {
      OnlyHolders(t, k);
      RemoveEscrow(t, k);
    }
  }

  /** A release as every holder sees it: the receiver gets what leaves the escrow. */
  lemma ReleasedBalances(s: State, k: Key, receiver: Name, hive: nat, hbd: nat)
    requires k.owner in s.openEscrows && s.openEscrows[k.owner] > 0
    requires hive <= At(s.funds, InEscrow(k, Hive)) && hbd <= At(s.funds, InEscrow(k, Hbd))
    ensures var t := Released(s, k, receiver, hive, hbd);
      && (forall h ::
            At(t.funds, h) == At(s.funds, h)
              + Only(h, Holder(Liquid(receiver), Hive), hive) - Only(h, Holder(EscrowFunds(k.owner, k.id), Hive), hive)
              + Only(h, Holder(Liquid(receiver), Hbd), hbd) - Only(h, Holder(EscrowFunds(k.owner, k.id), Hbd), hbd))
      && (k in s.escrows ==>
            (k in t.escrows <==>
               hive < At(s.funds, Holder(EscrowFunds(k.owner, k.id), Hive))
               || hbd < At(s.funds, Holder(EscrowFunds(k.owner, k.id), Hbd))))
  {
    hide Moved, At;
    MovedBalances(s.funds, InEscrow(k, Hive), Liq(receiver, Hive), hive);
    var a := Moved(s.funds, InEscrow(k, Hive), Liq(receiver, Hive), hive);
    MovedBalances(a, InEscrow(k, Hbd), Liq(receiver, Hbd), hbd);
  }

  lemma EscrowCounted(s: State, k: Key)
    requires Whole(s) && k in s.escrows
    ensures k.owner in s.openEscrows && s.openEscrows[k.owner] > 0
  {
    hide Conserved, Backed, FeesPaid;
    CountRemoved(s.openEscrows, s.escrows.Keys, s.accounts, k);
  }

  /** Who may pay an approved escrow out, and to whom. */
  predicate MayRelease(e: Escrow, from: Name, who: Name, receiver: Name, now: nat)
  {
    && (receiver == from || receiver == e.to)
    && Approved(e)
    && if e.disputed then who == e.agent else
      && (who == from || who == e.to)
      && (now < e.expires && who == from ==> receiver == e.to)
      && (now < e.expires && who != from && who == e.to ==> receiver == from)
  }

  /** In a dispute the agent decides; before it expires each party can only pay the other; afterwards either can take
      it all back or pay it over. */
  lemma ReleaseParties(e: Escrow, from: Name, who: Name, receiver: Name, now: nat)
    requires from != e.to
    ensures MayRelease(e, from, who, receiver, now) <==>
      && e.toApproved && e.agentApproved && receiver in {from, e.to}
      && if e.disputed then who == e.agent
         else who in {from, e.to} && (now < e.expires ==> who != receiver)
  {
  }

  /** Until it expires, an escrow between two parties is never paid out by its own receiver. */
  lemma NoSelfRelease(e: Escrow, from: Name, who: Name, receiver: Name, now: nat)
    requires MayRelease(e, from, who, receiver, now)
    requires from != e.to && from != e.agent && e.to != e.agent
    ensures now < e.expires || e.disputed ==> who != receiver
  {
  }

  // ---- Savings ----

  /** A withdrawal that is due reaches its receiver. */
  function Delivered(s: State, k: Key): State
    requires k in s.withdrawals && k.owner in s.openWithdrawals && s.openWithdrawals[k.owner] > 0
  {
    var r := s.withdrawals[k];
    WithoutWithdrawal(Emptied(s, Leaving(k, r.token), Liq(r.to, r.token)), k)
  }

  /** What a withdrawal that reaches its receiver does to the balance of a holder. */
  ghost function Delivering(s: State, h: Holder): Key -> int
  {
    (k: Key) => if k !in s.withdrawals then 0 else
      var r := s.withdrawals[k];
      var n := At(s.funds, Holder(WithdrawalFunds(k.owner, k.id), r.token));
      Only(h, Holder(Liquid(r.to), r.token), n) - Only(h, Holder(WithdrawalFunds(k.owner, k.id), r.token), n)
  }

  lemma DeliveredBalances(s: State, k: Key)
    requires k in s.withdrawals && k.owner in s.openWithdrawals && s.openWithdrawals[k.owner] > 0
    ensures forall h :: At(Delivered(s, k).funds, h) == At(s.funds, h) + Delivering(s, h)(k)
  {
    hide Moved;
    var r := s.withdrawals[k];
    MovedBalances(s.funds, Leaving(k, r.token), Liq(r.to, r.token), At(s.funds, Leaving(k, r.token)));
  }

  /** The balances after some withdrawals have reached their receivers, each to its own. */
  ghost predicate AllReached(s: State, t: State)
  {
    forall h :: At(t.funds, h) == At(s.funds, h) + Sum(s.withdrawals.Keys - t.withdrawals.Keys, Delivering(s, h))
  }

  lemma NoneReached(s: State)
    ensures AllReached(s, s)
  {
    assert s.withdrawals.Keys - s.withdrawals.Keys == {};
  }

  lemma OneMoreReached(s: State, t: State, u: State, k: Key)
    requires AllReached(s, t) && k in t.withdrawals && u.withdrawals == t.withdrawals - {k}
    requires forall j :: j in t.withdrawals ==> j in s.withdrawals && t.withdrawals[j] == s.withdrawals[j]
    requires forall h :: At(u.funds, h) == At(t.funds, h) + Delivering(t, h)(k)
    ensures AllReached(s, u)
  {
    hide Delivering, At;
    var done := s.withdrawals.Keys - t.withdrawals.Keys;
    assert s.withdrawals.Keys - u.withdrawals.Keys == done + {k};
    forall h ensures At(u.funds, h) == At(s.funds, h) + Sum(s.withdrawals.Keys - u.withdrawals.Keys, Delivering(s, h)) {
      StillLeaving(s, t, k, h);
      SumInsert(done, Delivering(s, h), k);
    }
  }

  lemma StillLeaving(s: State, t: State, k: Key, h: Holder)
    requires AllReached(s, t) && k in t.withdrawals && k in s.withdrawals && t.withdrawals[k] == s.withdrawals[k]
    ensures Delivering(t, h)(k) == Delivering(s, h)(k)
  {
    hide At;
    SumZero(s.withdrawals.Keys - t.withdrawals.Keys, Delivering(s, Leaving(k, s.withdrawals[k].token)));
  }

  lemma DeliveredSound(s: State, k: Key)
    requires Sound(s) && k in s.withdrawals
    ensures k.owner in s.openWithdrawals && s.openWithdrawals[k.owner] > 0
    ensures Sound(Delivered(s, k))
  {
    hide Emptied, Conserved, Backed, FeesPaid, Counts, Book;
    var r := s.withdrawals[k];
    EmptiedSound(s, Leaving(k, r.token), Liq(r.to, r.token));
    EmptiedFrame(s, Leaving(k, r.token), Liq(r.to, r.token));
    RemoveWithdrawal(Emptied(s, Leaving(k, r.token), Liq(r.to, r.token)), k);
  }

  /** A withdrawal that is called off goes back to the savings it came from. */
  function PutBack(s: State, k: Key): State
    requires k in s.withdrawals && k.owner in s.openWithdrawals && s.openWithdrawals[k.owner] > 0
  {
    var r := s.withdrawals[k];
    WithoutWithdrawal(Emptied(s, Leaving(k, r.token), Holder(Savings(k.owner), r.token)), k)
  }

  lemma PutBackBalances(s: State, k: Key)
    requires k in s.withdrawals && k.owner in s.openWithdrawals && s.openWithdrawals[k.owner] > 0
    ensures var token := s.withdrawals[k].token;
      var n := At(s.funds, Holder(WithdrawalFunds(k.owner, k.id), token));
      forall h ::
        At(PutBack(s, k).funds, h) == At(s.funds, h) + Only(h, Holder(Savings(k.owner), token), n)
          - Only(h, Holder(WithdrawalFunds(k.owner, k.id), token), n)
  {
    hide Moved;
    var token := s.withdrawals[k].token;
    MovedBalances(s.funds, Leaving(k, token), Holder(Savings(k.owner), token), At(s.funds, Leaving(k, token)));
  }

  lemma PutBackSound(s: State, k: Key)
    requires Sound(s) && k in s.withdrawals
    ensures k.owner in s.openWithdrawals && s.openWithdrawals[k.owner] > 0
    ensures Sound(PutBack(s, k))
  {
    hide Emptied, Conserved, Backed, FeesPaid, Counts, Book;
    var r := s.withdrawals[k];
    EmptiedSound(s, Leaving(k, r.token), Holder(Savings(k.owner), r.token));
    EmptiedFrame(s, Leaving(k, r.token), Holder(Savings(k.owner), r.token));
    RemoveWithdrawal(Emptied(s, Leaving(k, r.token), Holder(Savings(k.owner), r.token)), k);
  }

  // ---- Vesting ----

  function Fund(): Holder
  {
    Holder(VestingFund, Hive)
  }

  function PoweredUp(s: State, from: Name, to: Name, amount: nat): State
    requires amount <= At(s.funds, Liq(from, Hive))
  {
    var shares := Shares(amount, s.supply.vests, At(s.funds, Fund()));
    s.(funds := Credited(Moved(s.funds, Liq(from, Hive), Fund(), amount), Holder(Vesting(to), Vests), shares),
      supply := Issued(s.supply, Vests, shares))
  }

  /** Powering up as every holder sees it, at the most shares the HIVE pays for. */
  lemma PoweredUpBalances(s: State, from: Name, to: Name, amount: nat)
    requires amount <= At(s.funds, Liq(from, Hive))
    ensures var t, fund := PoweredUp(s, from, to, amount), At(s.funds, Holder(VestingFund, Hive));
      var shares := t.supply.vests - s.supply.vests;
      && (if fund > 0 && s.supply.vests > 0 then shares * fund <= amount * s.supply.vests < shares * fund + fund
          else shares == amount * 1000)
      && forall h ::
          At(t.funds, h) == At(s.funds, h) - Only(h, Holder(Liquid(from), Hive), amount)
            + Only(h, Holder(VestingFund, Hive), amount) + Only(h, Holder(Vesting(to), Vests), shares)
  {
    hide Moved, Shares;
    SharesExact(amount, s.supply.vests, At(s.funds, Fund()));
    MovedBalances(s.funds, Liq(from, Hive), Fund(), amount);
  }

  function PoweredDown(s: State, from: Name, to: Name, shares: nat): State
    requires
      && shares <= At(s.funds, Holder(Vesting(from), Vests))
      && Worth(shares, s.supply.vests, At(s.funds, Fund())) <= At(s.funds, Fund())
  {
    var hive := Worth(shares, s.supply.vests, At(s.funds, Fund()));
    s.(funds := Moved(Debited(s.funds, Holder(Vesting(from), Vests), shares), Fund(), Liq(to, Hive), hive),
      supply := Issued(s.supply, Vests, 0 - shares))
  }

  /** Powering down as every holder sees it, for the most HIVE the shares stand for. */
  lemma PoweredDownBalances(s: State, from: Name, to: Name, shares: nat)
    requires shares <= At(s.funds, Holder(Vesting(from), Vests))
    requires Worth(shares, s.supply.vests, At(s.funds, Fund())) <= At(s.funds, Fund())
    ensures var t, fund := PoweredDown(s, from, to, shares), At(s.funds, Holder(VestingFund, Hive));
      var hive := fund - At(t.funds, Holder(VestingFund, Hive));
      && (if fund > 0 && s.supply.vests > 0 then hive * s.supply.vests <= shares * fund < (hive + 1) * s.supply.vests
          else hive * 1000 <= shares < (hive + 1) * 1000)
      && t.supply.vests == s.supply.vests - shares
      && forall h ::
          At(t.funds, h) == At(s.funds, h) - Only(h, Holder(Vesting(from), Vests), shares)
            - Only(h, Holder(VestingFund, Hive), hive) + Only(h, Holder(Liquid(to), Hive), hive)
  {
    hide Moved, Worth;
    var hive := Worth(shares, s.supply.vests, At(s.funds, Fund()));
    WorthExact(shares, s.supply.vests, At(s.funds, Fund()));
    assert (hive + 1) * s.supply.vests == hive * s.supply.vests + s.supply.vests;
    MovedBalances(Debited(s.funds, Holder(Vesting(from), Vests), shares), Fund(), Liq(to, Hive), hive);
  }

  /** While anything is vested the fund covers every account's shares, so a payout never fails. */
  lemma PayoutCovered(s: State, from: Name, shares: nat)
    requires Sound(s) && shares <= At(s.funds, Holder(Vesting(from), Vests)) && At(s.funds, Fund()) > 0
    ensures Worth(shares, s.supply.vests, At(s.funds, Fund())) <= At(s.funds, Fund())
  {
    hide Backed, Parties, FeesPaid, Counts, Book, MulDiv, Held;
    AtMostTotal(s.funds, Holder(Vesting(from), Vests));
    assert shares <= s.supply.vests;
    if s.supply.vests <= 0 {
      MulDivShare(0, 1000, 1000000);
      MulDivAtMost(0, 1000, 1000000);
    } else {
      MulDivShare(shares, At(s.funds, Fund()), s.supply.vests);
    }
  }

  /** A share never loses value by someone powering up: HIVE per share does not fall. */
  lemma PowerUpKeepsValue(s: State, from: Name, to: Name, amount: nat)
    requires amount <= At(s.funds, Liq(from, Hive)) && s.supply.vests > 0 && At(s.funds, Fund()) > 0
    ensures var t := PoweredUp(s, from, to, amount);
      At(t.funds, Fund()) * s.supply.vests >= At(s.funds, Fund()) * t.supply.vests
  {
    hide Shares;
    IssueKeepsValue(amount, s.supply.vests, At(s.funds, Fund()));
  }

  /** Nor by someone powering down. */
  lemma PowerDownKeepsValue(s: State, from: Name, to: Name, shares: nat)
    requires shares <= At(s.funds, Holder(Vesting(from), Vests)) && s.supply.vests > 0 && At(s.funds, Fund()) > 0
    requires Worth(shares, s.supply.vests, At(s.funds, Fund())) <= At(s.funds, Fund())
    ensures var t := PoweredDown(s, from, to, shares);
      At(t.funds, Fund()) * s.supply.vests >= At(s.funds, Fund()) * t.supply.vests
  {
    hide Worth;
    RedeemKeepsValue(shares, s.supply.vests, At(s.funds, Fund()));
  }

  // ---- Rewards ----

  function SharesFor(hive: nat, vests: int, fund: int): nat
    requires fund > 0
  {
    if vests <= 0 then 0 else MulDiv(hive, vests, fund)
  }

  lemma SharesForExact(hive: nat, vests: int, fund: int)
    requires fund > 0
    ensures var n := SharesFor(hive, vests, fund);
      if vests > 0 then n * fund <= hive * vests < n * fund + fund else n == 0
  {
    if vests > 0 {
      MulDivBounds(hive, vests, fund);
    }
  }

  /** Rewarded shares are priced with the rewards not yet claimed counted in. */
  function RewardShares(s: State, hive: nat): nat
    requires At(s.funds, Fund()) + s.supply.pendingHive > 0
  {
    SharesFor(hive, s.supply.vests + s.supply.rewardVests, At(s.funds, Fund()) + s.supply.pendingHive)
  }

  lemma RewardSharesAre(s: State, hive: nat)
    requires At(s.funds, Fund()) + s.supply.pendingHive > 0
    ensures RewardShares(s, hive)
         == SharesFor(hive, s.supply.vests + s.supply.rewardVests, At(s.funds, Fund()) + s.supply.pendingHive)
  {
  }

  function Pool(): Holder
  {
    Holder(RewardFund, Hive)
  }

  function AwardedCoins(funds: Balances, a: Name, hive: nat, burned: nat, hbd: nat): Balances
    requires hive + burned <= At(funds, Pool())
  {
    Credited(Debited(Moved(funds, Pool(), Holder(Rewards(a), Hive), hive), Pool(), burned), Holder(Rewards(a), Hbd),
        hbd)
  }

  lemma AwardedPool(funds: Balances, a: Name, hive: nat, burned: nat, hbd: nat)
    requires hive + burned <= At(funds, Pool())
    ensures At(AwardedCoins(funds, a, hive, burned, hbd), Pool()) == At(funds, Pool()) - hive - burned
  {
  }

  function AwardedShares(funds: Balances, a: Name, vesting: nat, shares: nat): Balances
    requires vesting <= At(funds, Pool())
  {
    Credited(Credited(Debited(funds, Pool(), vesting), Holder(Rewards(a), PendingHive), vesting),
        Holder(Rewards(a), RewardVests), shares)
  }

  function Awarded(s: State, a: Name, hive: nat, burned: nat, hbd: nat, vesting: nat): State
    requires hive + burned + vesting <= At(s.funds, Pool()) && At(s.funds, Fund()) + s.supply.pendingHive > 0
  {
    AwardedPool(s.funds, a, hive, burned, hbd);
    var shares := RewardShares(s, vesting);
    s.(funds := AwardedShares(AwardedCoins(s.funds, a, hive, burned, hbd), a, vesting, shares),
      supply := s.supply.(hive := s.supply.hive - burned - vesting, hbd := s.supply.hbd + hbd,
        pendingHive := s.supply.pendingHive + vesting, rewardVests := s.supply.rewardVests + shares))
  }

  /** A reward as every holder sees it: it leaves the reward fund, and its shares count at the price with all
      unclaimed rewards in. */
  lemma AwardedBalances(s: State, a: Name, hive: nat, burned: nat, hbd: nat, vesting: nat)
    requires hive + burned + vesting <= At(s.funds, Pool()) && At(s.funds, Fund()) + s.supply.pendingHive > 0
    ensures var t := Awarded(s, a, hive, burned, hbd, vesting);
      var fund, vests := At(s.funds, Holder(VestingFund, Hive)) + s.supply.pendingHive,
        s.supply.vests + s.supply.rewardVests;
      var shares := t.supply.rewardVests - s.supply.rewardVests;
      && (if vests > 0 then shares * fund <= vesting * vests < shares * fund + fund else shares == 0)
      && forall h ::
          At(t.funds, h) == At(s.funds, h) - Only(h, Holder(RewardFund, Hive), hive + burned + vesting)
            + Only(h, Holder(Rewards(a), Hive), hive) + Only(h, Holder(Rewards(a), Hbd), hbd)
            + Only(h, Holder(Rewards(a), PendingHive), vesting) + Only(h, Holder(Rewards(a), RewardVests), shares)
  {
    hide Moved, SharesFor, AwardedCoins, AwardedShares;
    var shares := RewardShares(s, vesting);
    SharesForExact(vesting, s.supply.vests + s.supply.rewardVests, At(s.funds, Fund()) + s.supply.pendingHive);
    AwardedPool(s.funds, a, hive, burned, hbd);
    AwardedCoinsAt(s.funds, a, hive, burned, hbd);
    AwardedSharesAt(AwardedCoins(s.funds, a, hive, burned, hbd), a, vesting, shares);
    hide At;
  }

  lemma AwardedCoinsAt(funds: Balances, a: Name, hive: nat, burned: nat, hbd: nat)
    requires hive + burned <= At(funds, Pool())
    ensures forall h ::
      At(AwardedCoins(funds, a, hive, burned, hbd), h) == At(funds, h)
        - Only(h, Holder(RewardFund, Hive), hive + burned)
        + Only(h, Holder(Rewards(a), Hive), hive) + Only(h, Holder(Rewards(a), Hbd), hbd)
  {
  }

  lemma AwardedSharesAt(funds: Balances, a: Name, vesting: nat, shares: nat)
    requires vesting <= At(funds, Pool())
    ensures forall h ::
      At(AwardedShares(funds, a, vesting, shares), h) == At(funds, h) - Only(h, Holder(RewardFund, Hive), vesting)
        + Only(h, Holder(Rewards(a), PendingHive), vesting) + Only(h, Holder(Rewards(a), RewardVests), shares)
  {
  }

  predicate Claimable(funds: Balances, a: Name, hive: nat, hbd: nat, shares: nat)
  {
    hive <= At(funds, Holder(Rewards(a), Hive)) && hbd <= At(funds, Holder(Rewards(a), Hbd))
    && shares <= At(funds, Holder(Rewards(a), RewardVests))
  }

  /** The HIVE behind the claimed shares: all of it for all of them, else in proportion. */
  function ToMove(funds: Balances, a: Name, shares: nat): nat
    requires shares <= At(funds, Holder(Rewards(a), RewardVests))
  {
    var pending, all := At(funds, Holder(Rewards(a), PendingHive)), At(funds, Holder(Rewards(a), RewardVests));
    if shares == all then pending else MulDiv(shares, pending, all)
  }

  /** A claim takes the whole HIVE for all the shares, and else the most that is in proportion; never more than is
      there, and never so that the shares that stay are worth less. */
  lemma ToMoveBound(funds: Balances, a: Name, shares: nat)
    requires shares <= At(funds, Holder(Rewards(a), RewardVests))
    ensures var pending, all := At(funds, Holder(Rewards(a), PendingHive)), At(funds, Holder(Rewards(a), RewardVests));
      var move := ToMove(funds, a, shares);
      && move <= pending && (pending - move) * all >= pending * (all - shares)
      && if shares == all then move == pending else move * all <= shares * pending < move * all + all
  {
    var pending, all := At(funds, Holder(Rewards(a), PendingHive)), At(funds, Holder(Rewards(a), RewardVests));
    if shares != all {
      MulDivShare(shares, pending, all);
      MulDivBounds(shares, pending, all);
    }
  }

  function Collected(funds: Balances, a: Name, hive: nat, hbd: nat): Balances
    requires hive <= At(funds, Holder(Rewards(a), Hive)) && hbd <= At(funds, Holder(Rewards(a), Hbd))
  {
    Moved(Moved(funds, Holder(Rewards(a), Hive), Liq(a, Hive), hive), Holder(Rewards(a), Hbd), Liq(a, Hbd), hbd)
  }

  lemma CollectedElsewhere(funds: Balances, a: Name, hive: nat, hbd: nat)
    requires hive <= At(funds, Holder(Rewards(a), Hive)) && hbd <= At(funds, Holder(Rewards(a), Hbd))
    ensures forall h: Holder :: !Coin(h.token) ==> At(Collected(funds, a, hive, hbd), h) == At(funds, h)
  {
  }

  /** Rewarded shares become vested ones, and the HIVE behind them joins the fund. */
  function Vested(funds: Balances, a: Name, shares: nat, move: nat): Balances
    requires shares <= At(funds, Holder(Rewards(a), RewardVests)) && move <= At(funds, Holder(Rewards(a), PendingHive))
  {
    var vested := Credited(Debited(funds, Holder(Rewards(a), RewardVests), shares), Holder(Vesting(a), Vests), shares);
    Credited(Debited(vested, Holder(Rewards(a), PendingHive), move), Fund(), move)
  }

  function Unlocked(supply: Supply, shares: nat, move: nat): Supply
  {
    Issued(Issued(Issued(Issued(supply, RewardVests, 0 - shares), Vests, shares), PendingHive, 0 - move), Hive, move)
  }

  function Claimed(s: State, a: Name, hive: nat, hbd: nat, shares: nat): State
    requires Claimable(s.funds, a, hive, hbd, shares)
  {
    ToMoveBound(s.funds, a, shares);
    CollectedElsewhere(s.funds, a, hive, hbd);
    var move := ToMove(s.funds, a, shares);
    s.(funds := Vested(Collected(s.funds, a, hive, hbd), a, shares, move), supply := Unlocked(s.supply, shares, move))
  }

  /** A claim as every holder sees it: the HIVE behind the shares joins the fund, all of it for all the shares, and
      else the most that is in proportion. */
  lemma ClaimedBalances(s: State, a: Name, hive: nat, hbd: nat, shares: nat)
    requires Claimable(s.funds, a, hive, hbd, shares)
    ensures var t := Claimed(s, a, hive, hbd, shares);
      var pending := At(s.funds, Holder(Rewards(a), PendingHive));
      var all := At(s.funds, Holder(Rewards(a), RewardVests));
      var move := t.supply.hive - s.supply.hive;
      && (if shares == all then move == pending else move * all <= shares * pending < move * all + all)
      && forall h ::
          At(t.funds, h) == At(s.funds, h)
            + Only(h, Holder(Liquid(a), Hive), hive) - Only(h, Holder(Rewards(a), Hive), hive)
            + Only(h, Holder(Liquid(a), Hbd), hbd) - Only(h, Holder(Rewards(a), Hbd), hbd)
            + Only(h, Holder(Vesting(a), Vests), shares) - Only(h, Holder(Rewards(a), RewardVests), shares)
            + Only(h, Holder(VestingFund, Hive), move) - Only(h, Holder(Rewards(a), PendingHive), move)
  {
    hide ToMove, Vested, Collected;
    ToMoveBound(s.funds, a, shares);
    CollectedElsewhere(s.funds, a, hive, hbd);
    CollectedAt(s.funds, a, hive, hbd);
    VestedAt(Collected(s.funds, a, hive, hbd), a, shares, ToMove(s.funds, a, shares));
    hide At;
  }

  lemma CollectedAt(funds: Balances, a: Name, hive: nat, hbd: nat)
    requires hive <= At(funds, Holder(Rewards(a), Hive)) && hbd <= At(funds, Holder(Rewards(a), Hbd))
    ensures forall h ::
      At(Collected(funds, a, hive, hbd), h) == At(funds, h)
        + Only(h, Holder(Liquid(a), Hive), hive) - Only(h, Holder(Rewards(a), Hive), hive)
        + Only(h, Holder(Liquid(a), Hbd), hbd) - Only(h, Holder(Rewards(a), Hbd), hbd)
  {
  }

  lemma VestedAt(funds: Balances, a: Name, shares: nat, move: nat)
    requires shares <= At(funds, Holder(Rewards(a), RewardVests)) && move <= At(funds, Holder(Rewards(a), PendingHive))
    ensures forall h ::
      At(Vested(funds, a, shares, move), h) == At(funds, h)
        + Only(h, Holder(Vesting(a), Vests), shares) - Only(h, Holder(Rewards(a), RewardVests), shares)
        + Only(h, Holder(VestingFund, Hive), move) - Only(h, Holder(Rewards(a), PendingHive), move)
  {
  }

  // ---- Opening objects ----

  /** The sender has the amounts to put in escrow, and the fee. */
  predicate Affords(funds: Balances, a: Name, hive: nat, hbd: nat, fee: nat, feeToken: Token)
  {
    && hive + (if feeToken == Hive then fee else 0) <= At(funds, Liq(a, Hive))
    && hbd + (if feeToken == Hbd then fee else 0) <= At(funds, Liq(a, Hbd))
  }

  function Deposited(funds: Balances, k: Key, hive: nat, hbd: nat, fee: nat, feeToken: Token): Balances
    requires Coin(feeToken) && Affords(funds, k.owner, hive, hbd, fee, feeToken)
  {
    var a := Moved(funds, Liq(k.owner, Hive), InEscrow(k, Hive), hive);
    var b := Moved(a, Liq(k.owner, Hbd), InEscrow(k, Hbd), hbd);
    Moved(b, Liq(k.owner, feeToken), Fee(k, feeToken), fee)
  }

  function EscrowOpened(s: State, k: Key, e: Escrow, hive: nat, hbd: nat, fee: nat): State
    requires k.owner in s.openEscrows && Coin(e.feeToken) && Affords(s.funds, k.owner, hive, hbd, fee, e.feeToken)
  {
    WithEscrow(s, k, e).(funds := Deposited(s.funds, k, hive, hbd, fee, e.feeToken))
  }

  lemma EscrowOpenedSound(s: State, k: Key, e: Escrow, hive: nat, hbd: nat, fee: nat)
    requires Sound(s) && k !in s.escrows && !Approved(e)
    requires k.owner in s.accounts && e.to in s.accounts && e.agent in s.accounts && Coin(e.feeToken)
    requires Affords(s.funds, k.owner, hive, hbd, fee, e.feeToken)
    ensures k.owner in s.openEscrows
    ensures Sound(EscrowOpened(s, k, e, hive, hbd, fee))
  {
    hide Conserved, Backed, FeesPaid, Parties, Counts, Book;
    AddEscrow(s, k, e);
    var t := WithEscrow(s, k, e);
    OpenEscrowHolders(t, k);
    MoveSound(t, Liq(k.owner, Hive), InEscrow(k, Hive), hive);
    var a := t.(funds := Moved(s.funds, Liq(k.owner, Hive), InEscrow(k, Hive), hive));
    OpenEscrowHolders(a, k);
    MoveSound(a, Liq(k.owner, Hbd), InEscrow(k, Hbd), hbd);
    var b := a.(funds := Moved(a.funds, Liq(k.owner, Hbd), InEscrow(k, Hbd), hbd));
    OpenEscrowHolders(b, k);
    MoveSound(b, Liq(k.owner, e.feeToken), Fee(k, e.feeToken), fee);
  }

  /** What opening an escrow does to every balance. */
  lemma EscrowDepositIs(s: State, k: Key, e: Escrow, hive: nat, hbd: nat, fee: nat)
    ensures
      && k.owner in s.openEscrows && Coin(e.feeToken) && Affords(s.funds, k.owner, hive, hbd, fee, e.feeToken) ==>
      var t := EscrowOpened(s, k, e, hive, hbd, fee);
      && t.escrows == s.escrows[k := e]
      && forall h ::
          At(t.funds, h) == At(s.funds, h)
            - Only(h, Holder(Liquid(k.owner), Hive), hive) + Only(h, Holder(EscrowFunds(k.owner, k.id), Hive), hive)
            - Only(h, Holder(Liquid(k.owner), Hbd), hbd) + Only(h, Holder(EscrowFunds(k.owner, k.id), Hbd), hbd)
            - Only(h, Holder(Liquid(k.owner), e.feeToken), fee)
            + Only(h, Holder(EscrowFee(k.owner, k.id), e.feeToken), fee)
  {
    hide Moved;
    if k.owner in s.openEscrows && Coin(e.feeToken) && Affords(s.funds, k.owner, hive, hbd, fee, e.feeToken) {
      MovedBalances(s.funds, Liq(k.owner, Hive), InEscrow(k, Hive), hive);
      var a := Moved(s.funds, Liq(k.owner, Hive), InEscrow(k, Hive), hive);
      MovedBalances(a, Liq(k.owner, Hbd), InEscrow(k, Hbd), hbd);
      var b := Moved(a, Liq(k.owner, Hbd), InEscrow(k, Hbd), hbd);
      MovedBalances(b, Liq(k.owner, e.feeToken), Fee(k, e.feeToken), fee);
    }
  }

  lemma OpenEscrowHolders(s: State, k: Key)
    requires k in s.escrows && !Approved(s.escrows[k])
    ensures forall token :: Coin(token) ==> Open(s, InEscrow(k, token))
    ensures Open(s, Fee(k, s.escrows[k].feeToken))
  {
  }

  lemma GivenBackDue(s: State, t: State, now: nat)
    requires AllGivenBack(s, t) && t.escrows == NotLapsed(s.escrows, now)
    ensures var due := set k | k in s.escrows && Lapsed(s.escrows[k], now);
      forall h :: At(t.funds, h) == At(s.funds, h) + Sum(due, GivenBack(s, h))
  {
    hide GivenBack, Lapsed;
    assert s.escrows.Keys - t.escrows.Keys == set k | k in s.escrows && Lapsed(s.escrows[k], now);
  }

  function ReturnAll(s: State, keys: seq<Key>): State
  {
    if keys == [] then s else
      var t, k := ReturnAll(s, keys[..|keys| - 1]), keys[|keys| - 1];
      if k in t.escrows && k.owner in t.openEscrows && t.openEscrows[k.owner] > 0 then Returned(t, k) else t
  }

  function NotDue(requests: map<Key, SavingsRequest>, now: nat): map<Key, SavingsRequest>
  {
    map k | k in requests && requests[k].complete > now :: requests[k]
  }

  lemma AllDelivered(before: map<Key, SavingsRequest>, after: map<Key, SavingsRequest>, now: nat)
    requires forall k :: k in after ==> k in before && after[k] == before[k] && after[k].complete > now
    requires forall k :: k in before && k !in after ==> before[k].complete <= now
    ensures after == NotDue(before, now)
  {
  }

  lemma ReachedDue(s: State, t: State, now: nat)
    requires AllReached(s, t) && t.withdrawals == NotDue(s.withdrawals, now)
    ensures var due := set k | k in s.withdrawals && s.withdrawals[k].complete <= now;
      forall h :: At(t.funds, h) == At(s.funds, h) + Sum(due, Delivering(s, h))
  {
    hide Delivering;
    assert s.withdrawals.Keys - t.withdrawals.Keys
        == set k | k in s.withdrawals && s.withdrawals[k].complete <= now;
  }

  function DeliverAll(s: State, keys: seq<Key>): State
  {
    if keys == [] then s else
      var t, k := DeliverAll(s, keys[..|keys| - 1]), keys[|keys| - 1];
      if k in t.withdrawals && k.owner in t.openWithdrawals && t.openWithdrawals[k.owner] > 0
        then Delivered(t, k) else t
  }

  function WithdrawalOpened(s: State, k: Key, r: SavingsRequest, amount: nat): State
    requires k.owner in s.openWithdrawals && amount <= At(s.funds, Holder(Savings(k.owner), r.token))
  {
    WithWithdrawal(s, k, r).(funds := Moved(s.funds, Holder(Savings(k.owner), r.token), Leaving(k, r.token), amount))
  }

  lemma WithdrawalOpenedBalances(s: State, k: Key, r: SavingsRequest, amount: nat)
    requires k.owner in s.openWithdrawals && amount <= At(s.funds, Holder(Savings(k.owner), r.token))
    ensures var t := WithdrawalOpened(s, k, r, amount);
      && t.withdrawals == s.withdrawals[k := r]
      && forall h ::
          At(t.funds, h) == At(s.funds, h) + Only(h, Holder(WithdrawalFunds(k.owner, k.id), r.token), amount)
            - Only(h, Holder(Savings(k.owner), r.token), amount)
  {
    hide Moved;
    MovedBalances(s.funds, Holder(Savings(k.owner), r.token), Leaving(k, r.token), amount);
  }

  lemma WithdrawalOpenedSound(s: State, k: Key, r: SavingsRequest, amount: nat)
    requires Sound(s) && k !in s.withdrawals && k.owner in s.accounts && r.to in s.accounts && Coin(r.token)
    requires amount <= At(s.funds, Holder(Savings(k.owner), r.token))
    ensures k.owner in s.openWithdrawals
    ensures Sound(WithdrawalOpened(s, k, r, amount))
  {
    hide Conserved, Backed, FeesPaid, Parties, Counts, Book;
    AddWithdrawal(s, k, r);
    MoveSound(WithWithdrawal(s, k, r), Holder(Savings(k.owner), r.token), Leaving(k, r.token), amount);
  }

  /** A live withdrawal called off at once is undone without a trace. */
  lemma PutBackUndoes(s: State, k: Key, r: SavingsRequest, amount: nat)
    requires Sound(s) && k !in s.withdrawals && k.owner in s.accounts && r.to in s.accounts && Coin(r.token)
    requires amount <= At(s.funds, Holder(Savings(k.owner), r.token))
    ensures k.owner in s.openWithdrawals
    ensures var t := PutBack(WithdrawalOpened(s, k, r, amount), k);
      t == s.(funds := t.funds) && forall h :: At(t.funds, h) == At(s.funds, h)
  {
    hide Conserved, Backed, FeesPaid, Parties, Counts, Book, Moved;
    AddWithdrawal(s, k, r);
    NothingLeaving(s, k);
    BackAgain(s.funds, Holder(Savings(k.owner), r.token), Leaving(k, r.token), amount);
    assert s.withdrawals[k := r] - {k} == s.withdrawals;
    var c := s.openWithdrawals[k.owner];
    assert s.openWithdrawals[k.owner := c + 1][k.owner := c] == s.openWithdrawals;
  }

  lemma NothingLeaving(s: State, k: Key)
    requires Backed(s) && k !in s.withdrawals
    ensures forall token :: At(s.funds, Leaving(k, token)) == 0
  {
    assert forall token :: !Known(s, Leaving(k, token));
  }

  lemma BackAgain(funds: Balances, from: Holder, to: Holder, n: nat)
    requires n <= At(funds, from) && from != to && At(funds, to) == 0
    ensures var there := Moved(funds, from, to, n);
      At(there, to) == n && forall h :: At(Moved(there, to, from, n), h) == At(funds, h)
  {
  }

  /** An escrow turned down is undone without a trace. */
  lemma ReturnedUndoes(s: State, k: Key, e: Escrow, hive: nat, hbd: nat, fee: nat)
    requires Sound(s) && k !in s.escrows && !Approved(e)
    requires k.owner in s.accounts && e.to in s.accounts && e.agent in s.accounts && Coin(e.feeToken)
    requires Affords(s.funds, k.owner, hive, hbd, fee, e.feeToken)
    ensures k.owner in s.openEscrows
    ensures var t := Returned(EscrowOpened(s, k, e, hive, hbd, fee), k);
      t == s.(funds := t.funds) && forall h :: At(t.funds, h) == At(s.funds, h)
  {
    hide Conserved, Backed, FeesPaid, Parties, Counts, Book, Deposited, Drawn;
    AddEscrow(s, k, e);
    NothingYet(s, k);
    AllBack(s, k, e, hive, hbd, fee);
    assert s.escrows[k := e] - {k} == s.escrows;
    var c := s.openEscrows[k.owner];
    assert s.openEscrows[k.owner := c + 1][k.owner := c] == s.openEscrows;
  }

  lemma AllBack(s: State, k: Key, e: Escrow, hive: nat, hbd: nat, fee: nat)
    requires k.owner in s.openEscrows && Coin(e.feeToken)
    requires forall token :: At(s.funds, InEscrow(k, token)) == 0 && At(s.funds, Fee(k, token)) == 0
    requires Affords(s.funds, k.owner, hive, hbd, fee, e.feeToken)
    ensures var t := EscrowOpened(s, k, e, hive, hbd, fee); var after := Drawn(t, k, e.feeToken).funds;
      Drawn(t, k, e.feeToken) == t.(funds := after) && forall h :: At(after, h) == At(s.funds, h)
  {
    hide EscrowOpened, Drawn, At;
    OpenedFunds(s, k, e, hive, hbd, fee);
    DrawnFunds(EscrowOpened(s, k, e, hive, hbd, fee), k, e.feeToken);
  }

  lemma NothingYet(s: State, k: Key)
    requires Backed(s) && k !in s.escrows
    ensures forall token :: At(s.funds, InEscrow(k, token)) == 0 && At(s.funds, Fee(k, token)) == 0
  {
    assert forall token :: !Known(s, InEscrow(k, token)) && !Known(s, Fee(k, token));
  }

  lemma OpenedFunds(s: State, k: Key, e: Escrow, hive: nat, hbd: nat, fee: nat)
    requires k.owner in s.openEscrows && Coin(e.feeToken)
    requires Affords(s.funds, k.owner, hive, hbd, fee, e.feeToken)
    ensures var after := EscrowOpened(s, k, e, hive, hbd, fee).funds;
      && At(after, InEscrow(k, Hive)) == At(s.funds, InEscrow(k, Hive)) + hive
      && At(after, InEscrow(k, Hbd)) == At(s.funds, InEscrow(k, Hbd)) + hbd
      && At(after, Fee(k, e.feeToken)) == At(s.funds, Fee(k, e.feeToken)) + fee
      && At(after, Liq(k.owner, Hive))
           == At(s.funds, Liq(k.owner, Hive)) - hive - (if e.feeToken == Hive then fee else 0)
      && At(after, Liq(k.owner, Hbd)) == At(s.funds, Liq(k.owner, Hbd)) - hbd - (if e.feeToken == Hbd then fee else 0)
      && forall h :: !Touched(h, k, e.feeToken) ==> At(after, h) == At(s.funds, h)
  {
    hide Moved;
    MovedAt(s.funds, Liq(k.owner, Hive), InEscrow(k, Hive), hive);
    var a := Moved(s.funds, Liq(k.owner, Hive), InEscrow(k, Hive), hive);
    MovedAt(a, Liq(k.owner, Hbd), InEscrow(k, Hbd), hbd);
    var b := Moved(a, Liq(k.owner, Hbd), InEscrow(k, Hbd), hbd);
    MovedAt(b, Liq(k.owner, e.feeToken), Fee(k, e.feeToken), fee);
  }

  predicate Touched(h: Holder, k: Key, fee: Token)
  {
    h == InEscrow(k, Hive) || h == InEscrow(k, Hbd) || h == Fee(k, fee) || h == Liq(k.owner, Hive) || h == Liq(k.owner,
         Hbd)
  }

  lemma DrawnFunds(s: State, k: Key, fee: Token)
    requires Coin(fee)
    ensures var after := Drawn(s, k, fee).funds; Drawn(s, k, fee) == s.(funds := after)
    ensures var after := Drawn(s, k, fee).funds;
      && At(after, InEscrow(k, Hive)) == 0 && At(after, InEscrow(k, Hbd)) == 0 && At(after, Fee(k, fee)) == 0
      && At(after, Liq(k.owner, Hive))
           == At(s.funds, Liq(k.owner, Hive)) + At(s.funds, InEscrow(k, Hive))
           + (if fee == Hive then At(s.funds, Fee(k, fee)) else 0)
      && At(after, Liq(k.owner, Hbd))
           == At(s.funds, Liq(k.owner, Hbd)) + At(s.funds, InEscrow(k, Hbd))
           + (if fee == Hbd then At(s.funds, Fee(k, fee)) else 0)
      && forall h :: !Touched(h, k, fee) ==> At(after, h) == At(s.funds, h)
  {
    hide Moved;
    MovedAt(s.funds, InEscrow(k, Hive), Liq(k.owner, Hive), At(s.funds, InEscrow(k, Hive)));
    var a := Emptied(s, InEscrow(k, Hive), Liq(k.owner, Hive));
    MovedAt(a.funds, InEscrow(k, Hbd), Liq(k.owner, Hbd), At(a.funds, InEscrow(k, Hbd)));
    var b := Emptied(a, InEscrow(k, Hbd), Liq(k.owner, Hbd));
    MovedAt(b.funds, Fee(k, fee), Liq(k.owner, fee), At(b.funds, Fee(k, fee)));
  }

  lemma ReturnOneMore(s: State, keys: seq<Key>, k: Key)
    requires var t := ReturnAll(s, keys); k in t.escrows && k.owner in t.openEscrows && t.openEscrows[k.owner] > 0
    ensures ReturnAll(s, keys + [k]) == Returned(ReturnAll(s, keys), k)
  {
    assert (keys + [k])[..|keys|] == keys;
  }

  lemma DeliverOneMore(s: State, keys: seq<Key>, k: Key)
    requires var t := DeliverAll(s, keys);
      k in t.withdrawals && k.owner in t.openWithdrawals && t.openWithdrawals[k.owner] > 0
    ensures DeliverAll(s, keys + [k]) == Delivered(DeliverAll(s, keys), k)
  {
    assert (keys + [k])[..|keys|] == keys;
  }
}
