/** Trading a new order against the resting ones, as functions of the ledger's state. */
module OrderBook {
  import opened Sums
  import opened Arithmetic
  import opened Funds
  import opened Market
  import opened LedgerState

  function Amount(s: State, id: nat): nat
    requires id in s.orders
  {
    At(s.funds, Offered(id, s.orders[id]))
  }

  /** Where a seller is paid, or refunded. */
  function Wallet(o: Order, token: Token): Holder
  {
    Holder(Liquid(o.seller), token)
  }

  /** An order taken out of the book, its seller getting back what was left. */
  function Refunded(s: State, id: nat): State
    requires id in s.orders
  {
    var o := s.orders[id];
    WithoutOrder(s.(funds := Moved(s.funds, Offered(id, o), Wallet(o, o.sells), Amount(s, id))), id)
  }

  /** After a fill: an order with nothing left, or nothing worth selling, leaves the book. */
  function Closed(s: State, id: nat): State
    requires id in s.orders && IsTerms(s.orders[id].terms)
  {
    if Amount(s, id) == 0 then WithoutOrder(s, id)
    else if Proceeds(Amount(s, id), s.orders[id].terms) == 0 then Refunded(s, id)
    else s
  }

  predicate Pair(s: State, new_: nat, rest: nat)
  {
    && new_ in s.orders && rest in s.orders && new_ != rest
    && IsTerms(s.orders[new_].terms) && IsTerms(s.orders[rest].terms)
    && Opposed(s.orders[new_], s.orders[rest])
  }

  function FillOf(s: State, new_: nat, rest: nat): Fill
    requires Pair(s, new_, rest)
  {
    Match(Amount(s, new_), Amount(s, rest), s.orders[rest].terms)
  }

  /** Both sides pay each other. */
  function Traded(s: State, new_: nat, rest: nat): State
    requires Pair(s, new_, rest)
  {
    var n, o, f := s.orders[new_], s.orders[rest], FillOf(s, new_, rest);
    MatchWithinOffers(Amount(s, new_), Amount(s, rest), o.terms);
    s.(funds := Moved(Moved(s.funds, Offered(rest, o), Wallet(n, o.sells), f.oldPays),
      Offered(new_, n), Wallet(o, n.sells), f.newPays))
  }

  function Matched(s: State, new_: nat, rest: nat): State
    requires Pair(s, new_, rest)
  {
    Closed(Closed(Traded(s, new_, rest), new_), rest)
  }

  // ---- What each step keeps ----

  lemma RefundedWhole(s: State, id: nat)
    requires Whole(s) && id in s.orders
    ensures Whole(Refunded(s, id))
  {
    hide Conserved, Backed, FeesPaid, Counts;
    var o := s.orders[id];
    MoveWhole(s, Offered(id, o), Wallet(o, o.sells), Amount(s, id));
    RemoveOrder(s.(funds := Moved(s.funds, Offered(id, o), Wallet(o, o.sells), Amount(s, id))), id);
  }

  lemma ClosedWhole(s: State, id: nat)
    requires Whole(s) && id in s.orders && IsTerms(s.orders[id].terms)
    ensures Whole(Closed(s, id))
  {
    hide Whole;
    if Amount(s, id) == 0 {
      RemoveOrder(s, id);
    } else {
      RefundedWhole(s, id);
    }
  }

  lemma TradedWhole(s: State, new_: nat, rest: nat)
    requires Whole(s) && Pair(s, new_, rest)
    ensures Whole(Traded(s, new_, rest))
  {
    hide Conserved, Backed, FeesPaid, Counts, Match;
    var n, o, f := s.orders[new_], s.orders[rest], FillOf(s, new_, rest);
    MatchWithinOffers(Amount(s, new_), Amount(s, rest), o.terms);
    MoveWhole(s, Offered(rest, o), Wallet(n, o.sells), f.oldPays);
    var t := s.(funds := Moved(s.funds, Offered(rest, o), Wallet(n, o.sells), f.oldPays));
    MoveWhole(t, Offered(new_, n), Wallet(o, n.sells), f.newPays);
  }

  /** What a trade leaves for sale. */
  lemma TradedAmounts(s: State, new_: nat, rest: nat, i: nat)
    requires Pair(s, new_, rest) && i in s.orders
    ensures Traded(s, new_, rest).orders == s.orders
    ensures var f := FillOf(s, new_, rest);
      Amount(Traded(s, new_, rest), i) ==
      Amount(s, i) - if i == new_ then f.newPays else if i == rest then f.oldPays else 0
  {
    hide Match;
    MatchWithinOffers(Amount(s, new_), Amount(s, rest), s.orders[rest].terms);
  }

  lemma RefundedOthers(s: State, id: nat, i: nat)
    requires id in s.orders && i in s.orders && i != id
    ensures var t := Refunded(s, id); t.orders == s.orders - {id} && Amount(t, i) == Amount(s, i)
  {
    hide Moved;
    var o := s.orders[id];
    MovedElsewhere(s.funds, Offered(id, o), Wallet(o, o.sells), Amount(s, id), Offered(i, s.orders[i]));
  }

  /** Closing an order leaves the others, and what they have for sale. */
  lemma ClosedOthers(s: State, id: nat, i: nat)
    requires id in s.orders && IsTerms(s.orders[id].terms) && i in s.orders && i != id
    ensures var t := Closed(s, id); i in t.orders && t.orders[i] == s.orders[i] && Amount(t, i) == Amount(s, i)
  {
    hide Proceeds, Refunded;
    RefundedOthers(s, id, i);
  }

  /** An order is kept exactly when it is still worth resting. */
  lemma ClosedSelf(s: State, id: nat)
    requires id in s.orders && IsTerms(s.orders[id].terms)
    ensures Live(Amount(s, id), s.orders[id].terms) ==> Closed(s, id) == s
    ensures !Live(Amount(s, id), s.orders[id].terms) ==> Closed(s, id).orders == s.orders - {id}
  {
    hide Proceeds, Moved;
  }

  // ---- What each step does to the balances ----

  /** What an order that is refunded does to the balance of a holder. */
  ghost function Refunding(s: State, h: Holder): nat -> int
  {
    (id: nat) => if id !in s.orders then 0 else
      var o := s.orders[id];
      var n := At(s.funds, Holder(ForSale(id), o.sells));
      Only(h, Holder(Liquid(o.seller), o.sells), n) - Only(h, Holder(ForSale(id), o.sells), n)
  }

  lemma RefundedBalances(s: State, id: nat)
    requires id in s.orders
    ensures forall h :: At(Refunded(s, id).funds, h) == At(s.funds, h) + Refunding(s, h)(id)
  {
    hide Moved;
    var o := s.orders[id];
    MovedBalances(s.funds, Offered(id, o), Wallet(o, o.sells), Amount(s, id));
  }

  lemma RefundedLeaves(s: State, id: nat)
    requires id in s.orders
    ensures Refunded(s, id).orders == s.orders - {id}
  {
    hide Moved;
  }

  lemma NothingRefunded(s: State, id: nat)
    requires id in s.orders
    ensures Amount(s, id) == 0 ==> forall h :: Refunding(s, h)(id) == 0
  {
    hide At;
  }

  /** An order that leaves the book gives back what it had left. */
  lemma ClosedBalances(s: State, id: nat)
    requires id in s.orders && IsTerms(s.orders[id].terms)
    ensures var t := Closed(s, id);
      forall h :: At(t.funds, h) == At(s.funds, h) + if id in t.orders then 0 else Refunding(s, h)(id)
  {
    hide Proceeds, Refunded, Refunding, At;
    RefundedBalances(s, id);
    RefundedLeaves(s, id);
    NothingRefunded(s, id);
  }

  /** A trade: the new order's seller gets what the resting order pays, and the other way round. */
  lemma TradedBalances(s: State, new_: nat, rest: nat)
    requires Pair(s, new_, rest)
    ensures var n, o, f := s.orders[new_], s.orders[rest], FillOf(s, new_, rest);
      forall h ::
        At(Traded(s, new_, rest).funds, h) == At(s.funds, h)
          + Only(h, Holder(Liquid(n.seller), o.sells), f.oldPays) - Only(h, Holder(ForSale(rest), o.sells), f.oldPays)
          + Only(h, Holder(Liquid(o.seller), n.sells), f.newPays) - Only(h, Holder(ForSale(new_), n.sells), f.newPays)
  {
    hide Match, Moved;
    var n, o, f := s.orders[new_], s.orders[rest], FillOf(s, new_, rest);
    MatchWithinOffers(Amount(s, new_), Amount(s, rest), o.terms);
    MovedBalances(s.funds, Offered(rest, o), Wallet(n, o.sells), f.oldPays);
    var a := Moved(s.funds, Offered(rest, o), Wallet(n, o.sells), f.oldPays);
    MovedBalances(a, Offered(new_, n), Wallet(o, n.sells), f.newPays);
  }

  /** What is given back of an order that traded and left. */
  ghost function Dust(s: State, left: map<nat, Order>, id: nat, paid: nat): int
    requires id in s.orders
  {
    if id in left then 0 else Amount(s, id) - paid
  }

  /** A match as every holder sees it. Each side gets what the other pays; an order that leaves gives back the rest. */
  lemma MatchedBalances(s: State, new_: nat, rest: nat)
    requires Pair(s, new_, rest)
    ensures var n, o, f, t := s.orders[new_], s.orders[rest], FillOf(s, new_, rest), Matched(s, new_, rest);
      var dustNew, dustOld := Dust(s, t.orders, new_, f.newPays), Dust(s, t.orders, rest, f.oldPays);
      forall h ::
        At(t.funds, h) == At(s.funds, h)
          + Only(h, Holder(Liquid(n.seller), o.sells), f.oldPays)
          + Only(h, Holder(Liquid(o.seller), n.sells), f.newPays)
          + Only(h, Holder(Liquid(n.seller), n.sells), dustNew) + Only(h, Holder(Liquid(o.seller), o.sells), dustOld)
          - Only(h, Holder(ForSale(new_), n.sells), f.newPays + dustNew)
          - Only(h, Holder(ForSale(rest), o.sells), f.oldPays + dustOld)
  {
    hide Matched, Traded, FillOf, At;
    TradedBalances(s, new_, rest);
    TradedAmounts(s, new_, rest, new_);
    TradedAmounts(s, new_, rest, rest);
    MatchedRefunds(s, new_, rest);
  }

  lemma MatchedRefunds(s: State, new_: nat, rest: nat)
    requires Pair(s, new_, rest)
    ensures var a, t := Traded(s, new_, rest), Matched(s, new_, rest);
      forall h ::
        At(t.funds, h) == At(a.funds, h) + (if new_ in t.orders then 0 else Refunding(a, h)(new_))
          + if rest in t.orders then 0 else Refunding(a, h)(rest)
  {
    hide Closed, Traded, Live, Refunding, At;
    TradedAmounts(s, new_, rest, new_);
    var a := Traded(s, new_, rest);
    var b := Closed(a, new_);
    ClosedOthers(a, new_, rest);
    ClosedBalances(a, new_);
    ClosedBalances(b, rest);
    ClosedSelf(b, rest);
    RefundingAlike(a, b, rest);
    if new_ in b.orders { ClosedOthers(b, rest, new_); }
  }

  lemma RefundingAlike(s: State, t: State, id: nat)
    requires id in s.orders && id in t.orders && s.orders[id] == t.orders[id] && Amount(s, id) == Amount(t, id)
    ensures forall h :: Refunding(t, h)(id) == Refunding(s, h)(id)
  {
    hide At;
  }

  /** The orders after a match: both keep what they did not pay, and leave if that is not worth resting. */
  lemma MatchedOrders(s: State, new_: nat, rest: nat, i: nat)
    requires Pair(s, new_, rest) && i in s.orders
    ensures var f, t := FillOf(s, new_, rest), Matched(s, new_, rest);
      var left := Amount(s, i) - if i == new_ then f.newPays else if i == rest then f.oldPays else 0;
      && (i in t.orders ==> t.orders[i] == s.orders[i] && Amount(t, i) == left)
      && (i == new_ || i == rest ==> left >= 0 && (i in t.orders <==> Live(left, s.orders[i].terms)))
      && (i != new_ && i != rest ==> i in t.orders)
  {
    hide Closed, Traded, FillOf, Live;
    MatchWithinOffers(Amount(s, new_), Amount(s, rest), s.orders[rest].terms);
    TradedAmounts(s, new_, rest, i);
    var a := Traded(s, new_, rest);
    var b := Closed(a, new_);
    ClosedSelf(a, new_);
    ClosedOthers(a, new_, rest);
    ClosedSelf(b, rest);
    if i != new_ { ClosedOthers(a, new_, i); }
    if i != rest && i in b.orders { ClosedOthers(b, rest, i); }
  }

  /** A match takes at least one of the two orders out of the book. */
  lemma OneLeaves(s: State, new_: nat, rest: nat)
    requires Pair(s, new_, rest)
    ensures var t := Matched(s, new_, rest); new_ !in t.orders || rest !in t.orders
  {
    hide Matched, Live, FillOf;
    MatchWithinOffers(Amount(s, new_), Amount(s, rest), s.orders[rest].terms);
    FillIs(s, new_, rest);
    NothingLeft(s.orders[new_].terms);
    NothingLeft(s.orders[rest].terms);
    MatchedOrders(s, new_, rest, new_);
    MatchedOrders(s, new_, rest, rest);
  }

  lemma FillIs(s: State, new_: nat, rest: nat)
    requires Pair(s, new_, rest)
    ensures FillOf(s, new_, rest) == Match(Amount(s, new_), Amount(s, rest), s.orders[rest].terms)
  {
  }

  /** A match leaves the book in order. */
  lemma MatchedBook(s: State, new_: nat, rest: nat)
    requires Pair(s, new_, rest) && Book(s.funds, s.orders, new_)
    ensures var t := Matched(s, new_, rest);
      && Book(t.funds, t.orders, new_)
      && Shrunk(t.orders, s.orders)
  {
    hide Matched, Live, Opposed;
    var t := Matched(s, new_, rest);
    MatchedShrinks(s, new_, rest);
    forall i | i in t.orders && i != new_ ensures Live(Amount(t, i), t.orders[i].terms) {
      MatchedOrders(s, new_, rest, i);
    }
  }

  lemma NothingLeft(t: Terms)
    requires IsTerms(t)
    ensures !Live(0, t)
  {
  }

  /** Orders leave a book, and those that stay do not change. */
  ghost predicate Shrunk(after: map<nat, Order>, before: map<nat, Order>)
  {
    forall i :: i in after ==> i in before && after[i] == before[i]
  }

  lemma MatchedShrinks(s: State, new_: nat, rest: nat)
    requires Pair(s, new_, rest)
    ensures Shrunk(Matched(s, new_, rest).orders, s.orders)
  {
    hide Closed, Traded, Live;
    TradedAmounts(s, new_, rest, new_);
    var a := Traded(s, new_, rest);
    ClosedOthers(a, new_, rest);
    ClosedSelf(a, new_);
    ClosedSelf(Closed(a, new_), rest);
  }

  // ---- Entering the book ----

  predicate FreeNumber(orders: map<nat, Order>, seller: Name, number: nat)
  {
    forall i :: i in orders ==> orders[i].seller != seller || orders[i].number != number
  }

  function Entered(s: State, o: Order, amount: nat): State
    requires amount <= At(s.funds, Wallet(o, o.sells))
  {
    var t := WithOrder(s, o);
    t.(funds := Moved(s.funds, Wallet(o, o.sells), Offered(s.nextOrder, o), amount))
  }

  lemma EnteredWhole(s: State, o: Order, amount: nat)
    requires Sound(s) && o.seller in s.accounts && Coin(o.sells) && amount <= At(s.funds, Wallet(o, o.sells))
    ensures Whole(Entered(s, o, amount))
  {
    hide Whole, Book, Moved;
    AddOrder(s, o);
    MoveWhole(WithOrder(s, o), Wallet(o, o.sells), Offered(s.nextOrder, o), amount);
  }

  lemma EnteredAmount(s: State, o: Order, amount: nat)
    requires Sound(s) && amount <= At(s.funds, Wallet(o, o.sells))
    ensures s.nextOrder !in s.orders
    ensures Amount(Entered(s, o, amount), s.nextOrder) == amount
  {
    hide Conserved, FeesPaid, Counts, Book;
    assert !Known(s, Offered(s.nextOrder, o));
  }

  lemma EnteredBook(s: State, o: Order, amount: nat)
    requires Sound(s) && amount <= At(s.funds, Wallet(o, o.sells)) && FreeNumber(s.orders, o.seller, o.number)
    ensures var t := Entered(s, o, amount); Book(t.funds, t.orders, s.nextOrder)
  {
    hide Whole, Live, Moved, Crosses;
    var t := Entered(s, o, amount);
    EnteredAmount(s, o, amount);
    forall i | i in s.orders ensures At(t.funds, Offered(i, s.orders[i])) == At(s.funds, Offered(i, s.orders[i])) {
      MovedElsewhere(s.funds, Wallet(o, o.sells), Offered(s.nextOrder, o), amount, Offered(i, s.orders[i]));
    }
  }

  /** Nothing on the other side could trade with the order. */
  ghost predicate Clear(orders: map<nat, Order>, id: nat)
    requires id in orders
  {
    forall j :: j in orders && Opposed(orders[id], orders[j]) ==> !Crosses(orders[id].terms, orders[j].terms)
  }

  /** A new order that is worth resting and can trade no more takes its place in the book. */
  lemma Admitted(s: State, id: nat)
    requires Whole(s) && Book(s.funds, s.orders, id)
    requires id in s.orders ==>
      IsTerms(s.orders[id].terms) && Live(Amount(s, id), s.orders[id].terms) && Clear(s.orders, id)
    ensures Sound(s)
  {
    hide Conserved, Backed, FeesPaid, Counts, Live;
    forall i, j | i in s.orders && j in s.orders && Opposed(s.orders[i], s.orders[j])
      ensures !Crosses(s.orders[i].terms, s.orders[j].terms)
    {
      CrossesEither(s.orders[i].terms, s.orders[j].terms);
    }
  }

  lemma CrossesEither(a: Terms, b: Terms)
    ensures Crosses(a, b) <==> Crosses(b, a)
  {
  }

  /** An order taken out of the book leaves it in order. */
  lemma RefundedSound(s: State, id: nat)
    requires Sound(s) && id in s.orders
    ensures Sound(Refunded(s, id))
  {
    hide Whole, Live, Crosses, Refunded;
    var t := Refunded(s, id);
    RefundedWhole(s, id);
    RefundedFrame(s, id);
    forall i | i in t.orders ensures At(t.funds, Offered(i, t.orders[i])) == At(s.funds, Offered(i, s.orders[i])) {
      RefundedOthers(s, id, i);
    }
  }

  lemma RefundedFrame(s: State, id: nat)
    requires id in s.orders
    ensures var t := Refunded(s, id); t == s.(funds := t.funds, orders := s.orders - {id})
  {
  }

  // ---- Priority ----

  /** The better price goes first, and of equal prices the older order. */
  predicate Ahead(a: Terms, i: nat, b: Terms, j: nat)
  {
    a.base * b.quote > b.base * a.quote || (a.base * b.quote == b.base * a.quote && i < j)
  }

  /** An order is ahead exactly if it hands over no less for any amount, and more for some unless it is older. */
  lemma AheadExact(a: Terms, i: nat, b: Terms, j: nat)
    requires IsTerms(a) && IsTerms(b)
    ensures Ahead(a, i, b, j) <==>
      && (forall n: nat :: Yields(n, b) <= Yields(n, a))
      && (i < j || exists n: nat :: Yields(n, b) < Yields(n, a))
  {
    hide Yields;
    var n := a.quote * b.quote;
    YieldsWhole(a, b.quote);
    YieldsWhole(b, a.quote);
    assert b.quote * a.quote == n;
    if a.base * b.quote >= b.base * a.quote {
      forall m: nat ensures Yields(m, b) <= Yields(m, a) { RatioYields(m, a, b); }
    }
    if b.base * a.quote >= a.base * b.quote {
      forall m: nat ensures Yields(m, a) <= Yields(m, b) { RatioYields(m, b, a); }
    }
    assert Yields(n, a) == a.base * b.quote && Yields(n, b) == b.base * a.quote;
  }

  lemma YieldsWhole(t: Terms, k: nat)
    requires IsTerms(t)
    ensures Yields(t.quote * k, t) == t.base * k && Yields(k * t.quote, t) == t.base * k
  {
    assert t.quote * k * t.base == (t.base * k) * t.quote && k * t.quote == t.quote * k;
    QuotientExact(t.base * k, t.quote);
  }

  lemma AheadTransitive(a: Terms, i: nat, b: Terms, j: nat, c: Terms, k: nat)
    requires IsTerms(a) && IsTerms(b) && IsTerms(c) && Ahead(a, i, b, j) && Ahead(b, j, c, k)
    ensures Ahead(a, i, c, k)
  {
    Chain(a.base, a.quote, b.base, b.quote, c.base, c.quote);
  }

  /** Ratios compare transitively, and strictly when either comparison is strict. */
  lemma Chain(a: nat, p: nat, b: nat, q: nat, c: nat, r: nat)
    requires p > 0 && q > 0 && r > 0 && a * q >= b * p && b * r >= c * q
    ensures a * r >= c * p
    ensures a * q > b * p || b * r > c * q ==> a * r > c * p
  {
    Swap(a, r, q);
    Swap(c, p, q);
    Swap(b, p, r);
    MulMonotone(b * p, a * q, r);
    MulMonotone(c * q, b * r, p);
    if a * q > b * p { MulStrict(b * p, a * q, r); }
    if b * r > c * q { MulStrict(c * q, b * r, p); }
    if a * r < c * p { MulStrict(a * r, c * p, q); }
  }

  lemma Swap(x: nat, y: nat, z: nat)
    ensures (x * y) * z == (x * z) * y
  {
  }

  /** The order `id` trades with next: it crosses, and nothing that crosses is ahead of it. */
  ghost predicate Best(s: State, id: nat, rest: nat)
    requires Pair(s, id, rest)
  {
    && Crosses(s.orders[id].terms, s.orders[rest].terms)
    && forall j ::
        && j in s.orders && j != rest && Opposed(s.orders[id], s.orders[j])
        && Crosses(s.orders[id].terms, s.orders[j].terms) ==>
        Ahead(s.orders[rest].terms, rest, s.orders[j].terms, j)
  }

  // ---- Whole runs of trades ----

  datatype Trade = Trade(order: nat, terms: Terms, fill: Fill)

  function Paid(trades: seq<Trade>): nat
  {
    if trades == [] then 0 else Paid(trades[..|trades| - 1]) + trades[|trades| - 1].fill.newPays
  }

  function Got(trades: seq<Trade>): nat
  {
    if trades == [] then 0 else Got(trades[..|trades| - 1]) + trades[|trades| - 1].fill.oldPays
  }

  function After(s: State, id: nat, trades: seq<Trade>): State
  {
    if trades == [] then s else
      var t := After(s, id, trades[..|trades| - 1]);
      var rest := trades[|trades| - 1].order;
      if Pair(t, id, rest) then Matched(t, id, rest) else t
  }

  /** Each trade is with the best order left at the time, and its fill is the one a match gives. */
  ghost predicate Genuine(s: State, id: nat, trades: seq<Trade>)
  {
    trades != [] ==>
      var last, t := trades[|trades| - 1], After(s, id, trades[..|trades| - 1]);
      && Genuine(s, id, trades[..|trades| - 1])
      && Pair(t, id, last.order)
      && Best(t, id, last.order)
      && last.terms == t.orders[last.order].terms
      && last.fill == FillOf(t, id, last.order)
  }

  /** The state of an order part-way: it has paid for what it got, at its limit or better. */
  ghost predicate Fair(s: State, id: nat, trades: seq<Trade>)
    requires id in s.orders && IsTerms(s.orders[id].terms)
  {
    var o, t := s.orders[id], After(s, id, trades);
    && Paid(trades) <= Amount(s, id)
    && var left := Amount(s, id) - Paid(trades);
    && (id in t.orders <==> Live(left, o.terms))
    && (id in t.orders ==>
         t.orders[id] == o && Amount(t, id) == left && Paid(trades) * o.terms.quote <= Got(trades) * o.terms.base)
    && Paid(trades) * o.terms.quote < (Got(trades) + 1) * o.terms.base
  }

  /** Over a whole run of trades an order gets its limit price or better, short of at most one unit;
      it rests with exactly what it has not paid, and leaves only when that is worth nothing at its price. */
  lemma {:induction false} LimitHonoured(s: State, id: nat, trades: seq<Trade>)
    requires id in s.orders && IsTerms(s.orders[id].terms) && Live(Amount(s, id), s.orders[id].terms)
    requires Genuine(s, id, trades)
    ensures Fair(s, id, trades)
  {
    hide Matched, Live, Pair, FillOf, Best;
    if trades != [] {
      var last, before := trades[|trades| - 1], trades[..|trades| - 1];
      var t := After(s, id, before);
      LimitHonoured(s, id, before);
      PairIn(t, id, last.order);
      MatchedOrders(t, id, last.order, id);
      FairStep(t, id, last.order, Paid(before), Got(before));
      NothingLeft(s.orders[id].terms);
    }
  }

  lemma PairIn(s: State, id: nat, rest: nat)
    requires Pair(s, id, rest)
    ensures id in s.orders && rest in s.orders
  {
  }

  lemma FairStep(s: State, id: nat, rest: nat, paid: nat, got: nat)
    requires Pair(s, id, rest) && Best(s, id, rest)
    requires paid * s.orders[id].terms.quote <= got * s.orders[id].terms.base
    ensures var o, f := s.orders[id].terms, FillOf(s, id, rest);
      && f.newPays <= Amount(s, id)
      && (paid + f.newPays) * o.quote < (got + f.oldPays + 1) * o.base
      && (f.newPays < Amount(s, id) ==> (paid + f.newPays) * o.quote <= (got + f.oldPays) * o.base)
  {
    hide Ahead, Match, Crosses;
    var o, r, f := s.orders[id].terms, s.orders[rest].terms, FillOf(s, id, rest);
    MatchWithinOffers(Amount(s, id), Amount(s, rest), r);
    MatchAtLimit(Amount(s, id), Amount(s, rest), o, r);
    MulDivBounds(f.newPays, o.quote, o.base);
    MulMonotone(Proceeds(f.newPays, o), f.oldPays, o.base);
    assert (paid + f.newPays) * o.quote == paid * o.quote + f.newPays * o.quote;
    assert (got + f.oldPays) * o.base == got * o.base + f.oldPays * o.base;
    assert (got + f.oldPays + 1) * o.base == got * o.base + f.oldPays * o.base + o.base;
  }

  lemma {:induction false} GenuinePrefix(s: State, id: nat, trades: seq<Trade>, i: nat)
    requires Genuine(s, id, trades) && i <= |trades|
    ensures Genuine(s, id, trades[..i])
    ensures Shrunk(After(s, id, trades).orders, After(s, id, trades[..i]).orders)
    decreases |trades|
  {
    hide Matched, Pair, Best, FillOf;
    if i == |trades| {
      assert trades[..i] == trades;
    } else {
      var before := trades[..|trades| - 1];
      assert before[..i] == trades[..i];
      GenuinePrefix(s, id, before, i);
      MatchedShrinks(After(s, id, before), id, trades[|trades| - 1].order);
    }
  }

  /** One trade of a genuine run. */
  lemma GenuineAt(s: State, id: nat, trades: seq<Trade>, k: nat)
    requires Genuine(s, id, trades) && k < |trades|
    ensures Genuine(s, id, trades[..k])
    ensures var t, trade := After(s, id, trades[..k]), trades[k];
      && Pair(t, id, trade.order) && Best(t, id, trade.order)
      && trade.terms == t.orders[trade.order].terms && trade.fill == FillOf(t, id, trade.order)
      && After(s, id, trades[..k + 1]) == Matched(t, id, trade.order)
  {
    hide Matched, Pair, Best, FillOf, Shrunk;
    GenuinePrefix(s, id, trades, k + 1);
    assert trades[..k + 1][..k] == trades[..k];
  }

  /** An order traded later was in the book, behind the one traded earlier. */
  lemma StillBehind(early: State, late: State, id: nat, first: nat, second: nat)
    requires Pair(early, id, first) && Best(early, id, first) && Pair(late, id, second) && Best(late, id, second)
    requires Shrunk(late.orders, Matched(early, id, first).orders)
    ensures Ahead(early.orders[first].terms, first, late.orders[second].terms, second)
  {
    hide Matched, Ahead, Crosses;
    MatchedShrinks(early, id, first);
    OneLeaves(early, id, first);
  }

  /** Price-time priority: trades happen in the order of price, and at one price oldest first. */
  lemma PriceTimePriority(s: State, id: nat, trades: seq<Trade>, i: nat, j: nat)
    requires Genuine(s, id, trades) && i < j < |trades|
    ensures Ahead(trades[i].terms, trades[i].order, trades[j].terms, trades[j].order)
  {
    hide Genuine, After, Matched, FillOf, Ahead, Best, Pair, Shrunk;
    GenuineAt(s, id, trades, j);
    GenuineAt(s, id, trades, i);
    assert trades[..j][..i + 1] == trades[..i + 1];
    GenuinePrefix(s, id, trades[..j], i + 1);
    StillBehind(After(s, id, trades[..i]), After(s, id, trades[..j]), id, trades[i].order, trades[j].order);
  }

  lemma {:induction false} BookThroughout(s: State, id: nat, trades: seq<Trade>)
    requires Genuine(s, id, trades) && Book(s.funds, s.orders, id)
    ensures var t := After(s, id, trades); Book(t.funds, t.orders, id)
  {
    hide Matched, Pair, Best, FillOf, Book;
    if trades != [] {
      var before := trades[..|trades| - 1];
      BookThroughout(s, id, before);
      MatchedBook(After(s, id, before), id, trades[|trades| - 1].order);
    }
  }

  /** No trade is empty on either side, and each side gets its limit price or better up to one truncation. */
  lemma EveryTradePays(s: State, id: nat, trades: seq<Trade>, k: nat)
    requires id in s.orders && IsTerms(s.orders[id].terms) && Live(Amount(s, id), s.orders[id].terms)
    requires Genuine(s, id, trades) && Book(s.funds, s.orders, id) && k < |trades|
    ensures trades[k].fill.newPays > 0 && trades[k].fill.oldPays > 0
    ensures IsTerms(trades[k].terms)
    ensures Proceeds(trades[k].fill.newPays, s.orders[id].terms) <= trades[k].fill.oldPays
    ensures Proceeds(trades[k].fill.oldPays, trades[k].terms) <= trades[k].fill.newPays
  {
    hide Genuine, After, Matched, Live, Best, Book, FillOf, Proceeds, Fair;
    GenuineAt(s, id, trades, k);
    BookThroughout(s, id, trades[..k]);
    LimitHonoured(s, id, trades[..k]);
    FairOrder(s, id, trades[..k]);
    TradePays(After(s, id, trades[..k]), id, trades[k].order);
  }

  lemma FairOrder(s: State, id: nat, trades: seq<Trade>)
    requires id in s.orders && IsTerms(s.orders[id].terms) && Fair(s, id, trades) && id in After(s, id, trades).orders
    ensures
      && After(s, id, trades).orders[id].terms == s.orders[id].terms
      && Live(Amount(After(s, id, trades), id), s.orders[id].terms)
  {
    hide After, Live, Proceeds;
  }

  lemma TradePays(t: State, id: nat, rest: nat)
    requires
      && Pair(t, id, rest) && Best(t, id, rest) && Book(t.funds, t.orders, id)
      && Live(Amount(t, id), t.orders[id].terms)
    ensures var f := FillOf(t, id, rest);
      && f.newPays > 0 && f.oldPays > 0
      && Proceeds(f.newPays, t.orders[id].terms) <= f.oldPays && Proceeds(f.oldPays, t.orders[rest].terms) <= f.newPays
  {
    hide Live, Crosses, Ahead, Match, Proceeds;
    MatchGivesBoth(Amount(t, id), Amount(t, rest), t.orders[id].terms, t.orders[rest].terms);
    MatchAtLimit(Amount(t, id), Amount(t, rest), t.orders[id].terms, t.orders[rest].terms);
  }

  // ---- What a whole run does to the balances ----

  function Other(token: Token): Token
  {
    if token == Hive then Hbd else Hive
  }

  /** What the new order pays to the sellers of the resting orders, as far as it goes to one holder. */
  ghost function SellersGet(orders: map<nat, Order>, sells: Token, trades: seq<Trade>, h: Holder): int
  {
    if trades == [] then 0 else
      var last := trades[|trades| - 1];
      SellersGet(orders, sells, trades[..|trades| - 1], h)
        + if last.order in orders then Only(h, Holder(Liquid(orders[last.order].seller), sells), last.fill.newPays)
          else 0
  }

  /** What resting orders that left the book had not sold, as far as it goes to one holder. */
  ghost function DustBack(s: State, left: map<nat, Order>, trades: seq<Trade>, h: Holder): int
  {
    if trades == [] then 0 else
      var last := trades[|trades| - 1];
      DustBack(s, left, trades[..|trades| - 1], h)
        + if last.order !in s.orders then 0 else
            var o := s.orders[last.order];
            Only(h, Holder(Liquid(o.seller), o.sells), Dust(s, left, last.order, last.fill.oldPays))
  }

  /** While the new order is in the book it has what it has not paid, and every order it has not traded with has
      what it had; those it has traded with are gone. */
  lemma {:induction false} Untouched(s: State, id: nat, trades: seq<Trade>)
    requires Genuine(s, id, trades) && id in After(s, id, trades).orders
    ensures var t := After(s, id, trades);
      && id in s.orders && t.orders[id] == s.orders[id] && Amount(t, id) == Amount(s, id) - Paid(trades)
      && (forall i :: i in t.orders && i != id ==>
            i in s.orders && t.orders[i] == s.orders[i] && Amount(t, i) == Amount(s, i))
      && (forall k :: 0 <= k < |trades| ==> trades[k].order !in t.orders)
  {
    hide Matched, Pair, Best, FillOf, Amount;
    if trades != [] {
      var last, before := trades[|trades| - 1], trades[..|trades| - 1];
      var t, u := After(s, id, before), After(s, id, trades);
      PairIn(t, id, last.order);
      Untouched(s, id, before);
      MatchedShrinks(t, id, last.order);
      OneLeaves(t, id, last.order);
      MatchedOrders(t, id, last.order, id);
      forall i | i in u.orders && i != id ensures Amount(u, i) == Amount(s, i) {
        MatchedOrders(t, id, last.order, i);
      }
      forall k | 0 <= k < |trades| ensures trades[k].order !in u.orders {
        if k < |before| { assert trades[k] == before[k]; }
      }
    }
  }

  /** Dust depends only on which of the traded orders are left. */
  lemma {:induction false} DustAlike(s: State, left: map<nat, Order>, more: map<nat, Order>, trades: seq<Trade>,
      h: Holder)
    requires forall k :: 0 <= k < |trades| ==> (trades[k].order in left <==> trades[k].order in more)
    ensures DustBack(s, left, trades, h) == DustBack(s, more, trades, h)
  {
    if trades != [] {
      var before := trades[..|trades| - 1];
      forall k | 0 <= k < |before| ensures before[k].order in left <==> before[k].order in more {
        assert before[k] == trades[k];
      }
      DustAlike(s, left, more, before, h);
    }
  }

  /** Over a whole run: the new order's seller gets all that was paid to the order, and back what it has not paid if
      it leaves; each resting seller gets what the new order paid for theirs, and back what was left of it if it
      leaves. No other balance but what is for sale changes. */
  lemma {:induction false} TradesPaid(s: State, id: nat, trades: seq<Trade>, h: Holder)
    requires Genuine(s, id, trades) && id in s.orders && !h.place.ForSale?
    requires forall i :: i in s.orders ==> Coin(s.orders[i].sells)
    ensures var n, t := s.orders[id], After(s, id, trades);
      At(t.funds, h) == At(s.funds, h)
        + Only(h, Holder(Liquid(n.seller), Other(n.sells)), Got(trades))
        + Only(h, Holder(Liquid(n.seller), n.sells), Dust(s, t.orders, id, Paid(trades)))
        + SellersGet(s.orders, n.sells, trades, h) + DustBack(s, t.orders, trades, h)
  {
    hide Matched, Pair, Best, FillOf, Amount, At, Coin;
    if trades != [] {
      var last, before := trades[|trades| - 1], trades[..|trades| - 1];
      var t, u := After(s, id, before), After(s, id, trades);
      PairIn(t, id, last.order);
      TradesPaid(s, id, before, h);
      Untouched(s, id, before);
      PairSells(t, id, last.order);
      MatchedBalances(t, id, last.order);
      MatchedShrinks(t, id, last.order);
      DustAlike(s, t.orders, u.orders, before, h);
    }
  }

  lemma PairSells(s: State, id: nat, rest: nat)
    requires Pair(s, id, rest) && Coin(s.orders[id].sells) && Coin(s.orders[rest].sells)
    ensures s.orders[rest].sells == Other(s.orders[id].sells)
  {
  }

  lemma RunPaid(s: State, id: nat, trades: seq<Trade>)
    requires Genuine(s, id, trades) && id in s.orders && Whole(s)
    ensures var n, t := s.orders[id], After(s, id, trades);
      forall h: Holder :: !h.place.ForSale? ==>
        At(t.funds, h) == At(s.funds, h)
          + Only(h, Holder(Liquid(n.seller), Other(n.sells)), Got(trades))
          + Only(h, Holder(Liquid(n.seller), n.sells), Dust(s, t.orders, id, Paid(trades)))
          + SellersGet(s.orders, n.sells, trades, h) + DustBack(s, t.orders, trades, h)
  {
    hide Genuine, After, Conserved, Backed, FeesPaid, Counts, Coin, At, Paid, Got, SellersGet, DustBack;
    var n, t := s.orders[id], After(s, id, trades);
    forall h: Holder | !h.place.ForSale?
      ensures At(t.funds, h) == At(s.funds, h)
        + Only(h, Holder(Liquid(n.seller), Other(n.sells)), Got(trades))
        + Only(h, Holder(Liquid(n.seller), n.sells), Dust(s, t.orders, id, Paid(trades)))
        + SellersGet(s.orders, n.sells, trades, h) + DustBack(s, t.orders, trades, h)
    {
      TradesPaid(s, id, trades, h);
    }
  }

  /** The same seen from before the new order took its amount out of its seller's balance. */
  lemma EnteredPaid(s: State, o: Order, amount: nat, trades: seq<Trade>)
    requires Sound(s) && amount <= At(s.funds, Wallet(o, o.sells)) && IsTerms(o.terms)
    requires var e := Entered(s, o, amount);
      && Genuine(e, s.nextOrder, trades)
      && forall h: Holder :: !h.place.ForSale? ==>
          At(After(e, s.nextOrder, trades).funds, h) == At(e.funds, h)
            + Only(h, Holder(Liquid(o.seller), Other(o.sells)), Got(trades))
            + Only(h, Holder(Liquid(o.seller), o.sells),
                  Dust(e, After(e, s.nextOrder, trades).orders, s.nextOrder, Paid(trades)))
            + SellersGet(e.orders, o.sells, trades, h)
            + DustBack(e, After(e, s.nextOrder, trades).orders, trades, h)
    ensures var e, id := Entered(s, o, amount), s.nextOrder;
      var t := After(e, id, trades);
      forall h: Holder :: !h.place.ForSale? ==>
        At(t.funds, h) == At(s.funds, h)
          - Only(h, Holder(Liquid(o.seller), o.sells), if id in t.orders then amount else Paid(trades))
          + Only(h, Holder(Liquid(o.seller), Other(o.sells)), Got(trades))
          + SellersGet(s.orders, o.sells, trades, h) + DustBack(s, t.orders, trades, h)
  {
    hide Genuine, After, Sound, Paid, Got, SellersGet, DustBack;
    var e, id := Entered(s, o, amount), s.nextOrder;
    EnteredAmount(s, o, amount);
    NotItself(e, id, trades);
    forall h: Holder | !h.place.ForSale?
      ensures SellersGet(s.orders, o.sells, trades, h) == SellersGet(e.orders, o.sells, trades, h)
      ensures DustBack(s, After(e, id, trades).orders, trades, h) == DustBack(e, After(e, id, trades).orders, trades, h)
    {
      EnteredAlike(s, o, amount, After(e, id, trades).orders, trades, h);
    }
  }

  /** An order never trades with itself. */
  lemma NotItself(s: State, id: nat, trades: seq<Trade>)
    requires Genuine(s, id, trades)
    ensures forall k :: 0 <= k < |trades| ==> trades[k].order != id
  {
    hide Genuine, After, Best, Matched, FillOf;
    forall k | 0 <= k < |trades| ensures trades[k].order != id {
      GenuineAt(s, id, trades, k);
    }
  }

  lemma {:induction false} EnteredAlike(s: State, o: Order, amount: nat, left: map<nat, Order>, trades: seq<Trade>,
      h: Holder)
    requires s.nextOrder !in s.orders && amount <= At(s.funds, Wallet(o, o.sells))
    requires forall k :: 0 <= k < |trades| ==> trades[k].order != s.nextOrder
    ensures var e := Entered(s, o, amount);
      && SellersGet(s.orders, o.sells, trades, h) == SellersGet(e.orders, o.sells, trades, h)
      && DustBack(s, left, trades, h) == DustBack(e, left, trades, h)
  {
    if trades != [] {
      EnteredAlike(s, o, amount, left, trades[..|trades| - 1], h);
    }
  }

  // ---- Clearing ----

  /** The balances after some orders have been refunded. */
  ghost predicate AllRefunded(s: State, t: State)
  {
    forall h :: At(t.funds, h) == At(s.funds, h) + Sum(s.orders.Keys - t.orders.Keys, Refunding(s, h))
  }

  lemma NoneRefunded(s: State)
    ensures AllRefunded(s, s)
  {
    assert s.orders.Keys - s.orders.Keys == {};
  }

  lemma OneMoreRefunded(s: State, t: State, u: State, id: nat)
    requires AllRefunded(s, t) && id in t.orders && u.orders == t.orders - {id} && Shrunk(t.orders, s.orders)
    requires forall h :: At(u.funds, h) == At(t.funds, h) + Refunding(t, h)(id)
    ensures AllRefunded(s, u)
  {
    hide Refunding, At;
    var done := s.orders.Keys - t.orders.Keys;
    assert s.orders.Keys - u.orders.Keys == done + {id};
    forall h ensures At(u.funds, h) == At(s.funds, h) + Sum(s.orders.Keys - u.orders.Keys, Refunding(s, h)) {
      StillForSale(s, t, id, h);
      SumInsert(done, Refunding(s, h), id);
    }
  }

  lemma StillForSale(s: State, t: State, id: nat, h: Holder)
    requires AllRefunded(s, t) && id in t.orders && Shrunk(t.orders, s.orders)
    ensures Refunding(t, h)(id) == Refunding(s, h)(id)
  {
    hide At;
    var from := Holder(ForSale(id), s.orders[id].sells);
    forall i | i in s.orders.Keys - t.orders.Keys ensures Refunding(s, from)(i) == 0 { }
    SumZero(s.orders.Keys - t.orders.Keys, Refunding(s, from));
  }

  lemma RefundedDue(s: State, t: State, now: nat)
    requires AllRefunded(s, t) && t.orders == Unexpired(s.orders, now)
    ensures var due := set i: nat | i in s.orders && s.orders[i].expires < now;
      forall h :: At(t.funds, h) == At(s.funds, h) + Sum(due, Refunding(s, h))
  {
    hide Refunding;
    assert s.orders.Keys - t.orders.Keys == set i: nat | i in s.orders && s.orders[i].expires < now;
  }

  function RefundAll(s: State, ids: seq<nat>): State
  {
    if ids == [] then s else
      var t := RefundAll(s, ids[..|ids| - 1]);
      if ids[|ids| - 1] in t.orders then Refunded(t, ids[|ids| - 1]) else t
  }

  lemma RefundOneMore(s: State, ids: seq<nat>, id: nat)
    requires id in RefundAll(s, ids).orders
    ensures RefundAll(s, ids + [id]) == Refunded(RefundAll(s, ids), id)
  {
    assert (ids + [id])[..|ids|] == ids;
  }

  function Unexpired(orders: map<nat, Order>, now: nat): map<nat, Order>
  {
    map i | i in orders && orders[i].expires >= now :: orders[i]
  }

  lemma AllCancelled(before: map<nat, Order>, after: map<nat, Order>, now: nat)
    requires Shrunk(after, before)
    requires forall i :: i in after ==> after[i].expires >= now
    requires forall i :: i in before && i !in after ==> before[i].expires < now
    ensures after == Unexpired(before, now)
  {
  }
}
