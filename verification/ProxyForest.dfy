/** The proxy graph as a value, and the meaning of the cached vote totals:
    sums of direct stake over the accounts a given number of hops below. */
module ProxyForest {
  import opened Common
  import opened Sums

  type AccountId = int

  /** Who casts votes for whom; an account without an entry votes for itself. */
  type Proxies = map<AccountId, AccountId>

  /** Direct governance power of every account. */
  type Stake = map<AccountId, int>

  /** The account `k` proxy hops above `x`, if the chain is that long. */
  ghost function Up(p: Proxies, x: AccountId, k: nat): Option<AccountId>
    decreases k
  {
    if k == 0 then Some(x) else if x in p then Up(p, p[x], k - 1) else None
  }

  ghost predicate Acyclic(p: Proxies)
  {
    forall x, k: nat :: 0 < k ==> Up(p, x, k) != Some(x)
  }

  /** Both ends of every proxy link are accounts. */
  ghost predicate Closed(p: Proxies, d: Stake)
  {
    forall x :: x in p ==> x in d && p[x] in d
  }

  ghost predicate NonNegative(d: Stake)
  {
    forall x :: x in d ==> 0 <= d[x]
  }

  ghost function Hit(p: Proxies, d: Stake, v: AccountId, x: AccountId, i: nat): int
  {
    if x in d && Up(p, x, i) == Some(v) then d[x] else 0
  }

  ghost function HitAt(p: Proxies, d: Stake, v: AccountId, i: nat): AccountId -> int
  {
    x => Hit(p, d, v, x, i)
  }

  ghost function HitsOf(p: Proxies, d: Stake, v: AccountId, x: AccountId): nat -> int
  {
    (i: nat) => Hit(p, d, v, x, i)
  }

  /** Direct power of all accounts exactly `i` hops below `v`. */
  ghost function Level(p: Proxies, d: Stake, v: AccountId, i: nat): int
  {
    Sum(d.Keys, HitAt(p, d, v, i))
  }

  ghost function Levels(p: Proxies, d: Stake, v: AccountId): nat -> int
  {
    (i: nat) => Level(p, d, v, i)
  }

  /** `f(0) + ... + f(n)` */
  ghost function Prefix(f: nat -> int, n: nat): int
  {
    if n == 0 then f(0) else Prefix(f, n - 1) + f(n)
  }

  /** Power an account votes with: its own and everything at most `n` hops below. */
  ghost function Power(p: Proxies, d: Stake, v: AccountId, n: nat): int
  {
    Prefix(Levels(p, d, v), n)
  }

  // ----- hops

  lemma {:induction false} UpCompose(p: Proxies, x: AccountId, i: nat, j: nat)
    ensures Up(p, x, i).None? ==> Up(p, x, i + j) == None
    ensures Up(p, x, i).Some? ==> Up(p, x, i + j) == Up(p, Up(p, x, i).value, j)
    decreases i
  {
    if i > 0 && x in p {
      UpCompose(p, p[x], i - 1, j);
    }
  }

  /** Nothing lies above an account without a proxy. */
  lemma UpStopsAtRoot(p: Proxies, x: AccountId, r: AccountId, m: nat, k: nat)
    requires Up(p, x, m) == Some(r) && r !in p && m < k
    ensures Up(p, x, k) == None
  {
    UpCompose(p, x, m, k - m);
  }

  lemma {:induction false} UpClosed(p: Proxies, d: Stake, x: AccountId, k: nat)
    requires Closed(p, d) && x in d && Up(p, x, k).Some?
    ensures Up(p, x, k).value in d
    decreases k
  {
    if k > 0 {
      UpClosed(p, d, p[x], k - 1);
    }
  }

  /** Before a walk reaches `a`, the proxy of `a` does not matter. */
  lemma {:induction false} UpAvoiding(p: Proxies, a: AccountId, b: AccountId, x: AccountId, k: nat)
    requires a !in p
    requires forall m: nat :: m < k ==> Up(p, x, m) != Some(a)
    ensures Up(p[a := b], x, k) == Up(p, x, k)
    decreases k
  {
    if k > 0 {
      assert Up(p, x, 0) != Some(a);
      if x in p {
        forall m: nat | m < k - 1 ensures Up(p, p[x], m) != Some(a) {
          assert Up(p, x, m + 1) != Some(a);
        }
        UpAvoiding(p, a, b, p[x], k - 1);
      }
    }
  }

  lemma UpReaching(p: Proxies, a: AccountId, b: AccountId, x: AccountId, m: nat, k: nat)
    requires a !in p && Up(p, x, m) == Some(a) && m <= k
    ensures Up(p[a := b], x, k) == Up(p[a := b], a, k - m)
  {
    forall n: nat | n < m ensures Up(p, x, n) != Some(a) {
      if Up(p, x, n) == Some(a) {
        UpStopsAtRoot(p, x, a, n, m);
      }
    }
    UpAvoiding(p, a, b, x, m);
    UpCompose(p[a := b], x, m, k - m);
  }

  // ----- what a walk up the chain adds

  /** What adding `delta(i)` for stake `i` hops below the start adds to slot `k`
      of account `v`, for a walk that is `t` hops above the start at `c`. */
  ghost function WalkGain(p: Proxies, c: AccountId, t: nat, v: AccountId, delta: nat -> int, k: nat): int
    decreases k - t
  {
    if t > k || c !in p then 0
    else (if p[c] == v then delta(k - t) else 0) + WalkGain(p, p[c], t + 1, v, delta, k)
  }

  /** What the walk adds to the votes cast by `r`, cut off after `n` hops. */
  ghost function RootGain(p: Proxies, c: AccountId, t: nat, n: nat, delta: nat -> int, r: AccountId): int
    requires t <= n
    decreases n - t
  {
    if c !in p then (if c == r then Prefix(delta, n - t) else 0)
    else if t == n then 0
    else RootGain(p, p[c], t + 1, n, delta, r)
  }

  lemma {:induction false} WalkGainCongruent(p: Proxies, c: AccountId, t: nat, v: AccountId, f: nat -> int,
      g: nat -> int, k: nat)
    requires forall i: nat :: i <= k ==> f(i) == g(i)
    ensures WalkGain(p, c, t, v, f, k) == WalkGain(p, c, t, v, g, k)
    decreases k - t
  {
    if t <= k && c in p {
      WalkGainCongruent(p, p[c], t + 1, v, f, g, k);
    }
  }

  lemma {:induction false} WalkGainNegated(p: Proxies, c: AccountId, t: nat, v: AccountId, f: nat -> int, g: nat -> int,
      k: nat)
    requires forall i: nat :: i <= k ==> g(i) == -f(i)
    ensures WalkGain(p, c, t, v, g, k) == -WalkGain(p, c, t, v, f, k)
    decreases k - t
  {
    if t <= k && c in p {
      WalkGainNegated(p, p[c], t + 1, v, f, g, k);
    }
  }

  /** A delta that is non-zero only at `m` is felt only at the account it reaches. */
  lemma {:induction false} WalkGainUnit(p: Proxies, c: AccountId, t: nat, v: AccountId, f: nat -> int, m: nat, k: nat)
    requires forall i: nat :: i <= k && i != m ==> f(i) == 0
    ensures WalkGain(p, c, t, v, f, k)
         == if m + t <= k && Up(p, c, k - m - t + 1) == Some(v) then f(m) else 0
    decreases k - t
  {
    if t <= k && c in p {
      WalkGainUnit(p, p[c], t + 1, v, f, m, k);
      if m + t == k {
        assert Up(p, c, 1) == Some(p[c]) by { assert Up(p, p[c], 0) == Some(p[c]); }
      }
    }
  }

  ghost function RowOf(f: (AccountId, nat) -> int, x: AccountId): nat -> int
  {
    (i: nat) => f(x, i)
  }

  ghost function ColumnOf(f: (AccountId, nat) -> int, i: nat): AccountId -> int
  {
    x => f(x, i)
  }

  ghost function WalkGainOf(p: Proxies, c: AccountId, t: nat, v: AccountId, f: (AccountId, nat) -> int,
      k: nat): AccountId -> int
  {
    x => WalkGain(p, c, t, v, RowOf(f, x), k)
  }

  /** A walk with summed deltas gains the sum of the walks. */
  lemma {:induction false} WalkGainSum(p: Proxies, c: AccountId, t: nat, v: AccountId, s: set<AccountId>,
                                       f: (AccountId, nat) -> int, total: nat -> int, k: nat)
    requires forall i: nat :: i <= k ==> total(i) == Sum(s, ColumnOf(f, i))
    ensures WalkGain(p, c, t, v, total, k) == Sum(s, WalkGainOf(p, c, t, v, f, k))
    decreases k - t
  {
    if t > k || c !in p {
      SumZero(s, WalkGainOf(p, c, t, v, f, k));
    } else {
      WalkGainSum(p, p[c], t + 1, v, s, f, total, k);
      if p[c] == v {
        SumAdd(s, ColumnOf(f, k - t), WalkGainOf(p, p[c], t + 1, v, f, k), WalkGainOf(p, c, t, v, f, k));
      } else {
        SumCongruent(s, WalkGainOf(p, c, t, v, f, k), WalkGainOf(p, p[c], t + 1, v, f, k));
      }
    }
  }

  // ----- linking an account to a proxy

  ghost function HitsTable(p: Proxies, d: Stake, a: AccountId): (AccountId, nat) -> int
  {
    (x, i: nat) => Hit(p, d, a, x, i)
  }

  /** One account's share of the change that linking `a` to `b` makes. */
  lemma AttachOne(p: Proxies, d: Stake, a: AccountId, b: AccountId, v: AccountId, x: AccountId, k: nat)
    requires a !in p
    ensures Hit(p[a := b], d, v, x, k + 1)
         == Hit(p, d, v, x, k + 1) + WalkGain(p[a := b], a, 0, v, HitsOf(p, d, a, x), k)
  {
    var p1 := p[a := b];
    var f := HitsOf(p, d, a, x);
    if m: nat :| m <= k && Up(p, x, m) == Some(a) {
      UpReaching(p, a, b, x, m, k + 1);
      UpStopsAtRoot(p, x, a, m, k + 1);
      forall i: nat | i <= k && i != m ensures f(i) == 0 {
        if Up(p, x, i) == Some(a) {
          if i < m { UpStopsAtRoot(p, x, a, i, m); } else { UpStopsAtRoot(p, x, a, m, i); }
        }
      }
      WalkGainUnit(p1, a, 0, v, f, m, k);
    } else {
      assert forall m: nat :: m < k + 1 ==> Up(p, x, m) != Some(a);
      UpAvoiding(p, a, b, x, k + 1);
      WalkGainUnit(p1, a, 0, v, f, 0, k);
    }
  }

  /** Linking `a` to `b` adds the whole subtree of `a` to every account above it,
      exactly as the recursive walk over the new chain adds it. */
  lemma Attach(p: Proxies, d: Stake, a: AccountId, b: AccountId, v: AccountId, k: nat)
    requires a !in p
    ensures Level(p[a := b], d, v, k + 1)
         == Level(p, d, v, k + 1) + WalkGain(p[a := b], a, 0, v, Levels(p, d, a), k)
  {
    var p1 := p[a := b];
    var f := HitsTable(p, d, a);
    forall i: nat | i <= k ensures Levels(p, d, a)(i) == Sum(d.Keys, ColumnOf(f, i)) {
      SumCongruent(d.Keys, HitAt(p, d, a, i), ColumnOf(f, i));
    }
    WalkGainSum(p1, a, 0, v, d.Keys, f, Levels(p, d, a), k);
    forall x | x in d.Keys
      ensures HitAt(p1, d, v, k + 1)(x) == HitAt(p, d, v, k + 1)(x) + WalkGainOf(p1, a, 0, v, f, k)(x)
    {
      AttachOne(p, d, a, b, v, x, k);
      WalkGainCongruent(p1, a, 0, v, HitsOf(p, d, a, x), RowOf(f, x), k);
    }
    SumAdd(d.Keys, HitAt(p, d, v, k + 1), WalkGainOf(p1, a, 0, v, f, k), HitAt(p1, d, v, k + 1));
  }

  lemma {:induction false} WalkMisses(p: Proxies, c: AccountId, t: nat, v: AccountId, f: nat -> int, k: nat)
    requires forall j: nat :: 0 < j ==> Up(p, c, j) != Some(v)
    ensures WalkGain(p, c, t, v, f, k) == 0
    decreases k - t
  {
    if t <= k && c in p {
      assert Up(p, c, 1) == Some(p[c]) by { assert Up(p, p[c], 0) == Some(p[c]); }
      forall j: nat | 0 < j ensures Up(p, p[c], j) != Some(v) {
        assert Up(p, c, j + 1) != Some(v);
      }
      WalkMisses(p, p[c], t + 1, v, f, k);
    }
  }

  /** What lies below an account does not depend on the account's own proxy. */
  lemma BelowUnaffected(p: Proxies, d: Stake, a: AccountId, b: AccountId, i: nat)
    requires a !in p && Acyclic(p[a := b])
    ensures Level(p[a := b], d, a, i) == Level(p, d, a, i)
  {
    if i == 0 {
      SumCongruent(d.Keys, HitAt(p[a := b], d, a, 0), HitAt(p, d, a, 0));
    } else {
      Attach(p, d, a, b, a, i - 1);
      WalkMisses(p[a := b], a, 0, a, Levels(p, d, a), i - 1);
    }
  }

  /** A new link closes a loop only if its target already leads back to its source. */
  lemma AttachAcyclic(p: Proxies, a: AccountId, b: AccountId)
    requires a !in p && Acyclic(p)
    requires forall j: nat :: Up(p, b, j) != Some(a)
    ensures Acyclic(p[a := b])
  {
    var p1 := p[a := b];
    forall x, k: nat | 0 < k ensures Up(p1, x, k) != Some(x) {
      if m: nat :| m < k && Up(p, x, m) == Some(a) {
        UpReaching(p, a, b, x, m, k);
        UpAvoiding(p, a, b, b, k - m - 1);
        if Up(p1, x, k) == Some(x) {
          UpCompose(p, b, k - m - 1, m);
          assert false;
        }
      } else {
        UpAvoiding(p, a, b, x, k);
      }
    }
  }

  lemma DetachAcyclic(p: Proxies, a: AccountId, b: AccountId)
    requires a !in p && Acyclic(p[a := b])
    ensures Acyclic(p)
  {
    forall x, k: nat | 0 < k ensures Up(p, x, k) != Some(x) {
      if Up(p, x, k) == Some(x) {
        forall m: nat | m < k ensures Up(p, x, m) != Some(a) {
          if Up(p, x, m) == Some(a) { UpStopsAtRoot(p, x, a, m, k); }
        }
        UpAvoiding(p, a, b, x, k);
      }
    }
  }

  // ----- changing one account's stake

  lemma RestakeLevel(p: Proxies, d: Stake, a: AccountId, s: int, v: AccountId, i: nat)
    requires a in d
    ensures Level(p, d[a := s], v, i)
         == Level(p, d, v, i) + if Up(p, a, i) == Some(v) then s - d[a] else 0
  {
    assert d[a := s].Keys == d.Keys;
    SumChangeOne(d.Keys, HitAt(p, d, v, i), HitAt(p, d[a := s], v, i), a);
  }

  /** A new account has nothing below it and is below nothing. */
  lemma NewAccountUp(p: Proxies, d: Stake, a: AccountId, i: nat)
    requires a !in d && Closed(p, d)
    ensures Up(p, a, i) == if i == 0 then Some(a) else None
  {
  }

  lemma NewAccountUnseen(p: Proxies, d: Stake, a: AccountId, i: nat)
    requires a !in d && Closed(p, d)
    ensures Level(p, d, a, i) == 0
  {
    forall x | x in d.Keys ensures HitAt(p, d, a, i)(x) == 0 {
      if Up(p, x, i) == Some(a) { UpClosed(p, d, x, i); }
    }
    SumZero(d.Keys, HitAt(p, d, a, i));
  }

  lemma NewAccountLevel(p: Proxies, d: Stake, a: AccountId, s: int, v: AccountId, i: nat)
    requires a !in d && Closed(p, d)
    ensures Level(p, d[a := s], v, i) == if v == a && i == 0 then s else Level(p, d, v, i)
    ensures v == a ==> Level(p, d, v, i) == 0
  {
    NewAccountUnseen(p, d, a, i);
    hide Up;
    NewAccountUp(p, d, a, i);
    var d1 := d[a := s];
    assert d1.Keys == d.Keys + {a};
    SumInsert(d.Keys, HitAt(p, d1, v, i), a);
    SumCongruent(d.Keys, HitAt(p, d1, v, i), HitAt(p, d, v, i));
  }

  lemma LevelZero(p: Proxies, d: Stake, v: AccountId)
    requires v in d
    ensures Level(p, d, v, 0) == d[v]
  {
    SumSingle(d.Keys, HitAt(p, d, v, 0), v);
  }

  lemma LevelNonNegative(p: Proxies, d: Stake, v: AccountId, i: nat)
    requires NonNegative(d)
    ensures 0 <= Level(p, d, v, i)
  {
    SumNonNegative(d.Keys, HitAt(p, d, v, i));
  }

  // ----- what the walk adds to the top of the chain

  lemma {:induction false} PrefixAdd(f: nat -> int, g: nat -> int, h: nat -> int, n: nat)
    requires forall i: nat :: i <= n ==> h(i) == f(i) + g(i)
    ensures Prefix(h, n) == Prefix(f, n) + Prefix(g, n)
  {
    if n > 0 { PrefixAdd(f, g, h, n - 1); }
  }

  lemma {:induction false} PrefixCongruent(f: nat -> int, g: nat -> int, n: nat)
    requires forall i: nat :: i <= n ==> f(i) == g(i)
    ensures Prefix(f, n) == Prefix(g, n)
  {
    if n > 0 { PrefixCongruent(f, g, n - 1); }
  }

  lemma {:induction false} PrefixNonNegative(f: nat -> int, n: nat)
    requires forall i: nat :: i <= n ==> 0 <= f(i)
    ensures 0 <= Prefix(f, n)
  {
    if n > 0 { PrefixNonNegative(f, n - 1); }
  }

  /** Total added to the slots `0 .. n-1` of `r`. */
  ghost function SlotGain(p: Proxies, c: AccountId, t: nat, r: AccountId, delta: nat -> int, n: nat): int
  {
    if n == 0 then 0 else SlotGain(p, c, t, r, delta, n - 1) + WalkGain(p, c, t, r, delta, n - 1)
  }

  lemma {:induction false} SlotGainUnfold(p: Proxies, c: AccountId, t: nat, r: AccountId, delta: nat -> int, n: nat)
    requires c in p
    ensures SlotGain(p, c, t, r, delta, n)
         == (if p[c] == r && t < n then Prefix(delta, n - 1 - t) else 0) + SlotGain(p, p[c], t + 1, r, delta, n)
  {
    if n > 0 { SlotGainUnfold(p, c, t, r, delta, n - 1); }
  }

  lemma {:induction false} SlotGainAtRoot(p: Proxies, c: AccountId, t: nat, r: AccountId, delta: nat -> int, n: nat)
    requires c !in p || n <= t
    ensures SlotGain(p, c, t, r, delta, n) == 0
  {
    if n > 0 { SlotGainAtRoot(p, c, t, r, delta, n - 1); }
  }

  /** The votes a chain's top casts move by exactly what its slots moved. */
  lemma {:induction false} RootGainIsSlotGain(p: Proxies, c: AccountId, t: nat, n: nat, delta: nat -> int, r: AccountId)
    requires t <= n && c in p && r !in p
    ensures RootGain(p, c, t, n, delta, r) == SlotGain(p, c, t, r, delta, n)
    decreases n - t
  {
    if t == n {
      SlotGainAtRoot(p, c, t, r, delta, n);
    } else {
      SlotGainUnfold(p, c, t, r, delta, n);
      if p[c] in p {
        RootGainIsSlotGain(p, p[c], t + 1, n, delta, r);
      } else {
        SlotGainAtRoot(p, p[c], t + 1, r, delta, n);
      }
    }
  }

  // ----- conservation

  /** Where the stake of `x` is counted: the top of its chain, or the account
      `n` hops up when the chain is longer than that. */
  ghost function Stop(p: Proxies, x: AccountId, n: nat): AccountId
    decreases n
  {
    if n == 0 || x !in p then x else Stop(p, p[x], n - 1)
  }

  ghost function StopHit(p: Proxies, d: Stake, n: nat, x: AccountId, v: AccountId): int
  {
    if x in d && Stop(p, x, n) == v then d[x] else 0
  }

  ghost function StopTable(p: Proxies, d: Stake, n: nat): (AccountId, AccountId) -> int
  {
    (x, v) => StopHit(p, d, n, x, v)
  }

  ghost function StopHitAt(p: Proxies, d: Stake, n: nat, v: AccountId): AccountId -> int
  {
    x => StopHit(p, d, n, x, v)
  }

  ghost function StakeOf(d: Stake): AccountId -> int
  {
    x => if x in d then d[x] else 0
  }

  ghost function TotalStake(d: Stake): int
  {
    Sum(d.Keys, StakeOf(d))
  }

  /** What the chain counts for one account: the power it votes with, or, when it
      has a proxy, only the stake too far below for the walk to carry further. */
  ghost function Counted(p: Proxies, d: Stake, n: nat): AccountId -> int
  {
    v => if v in p then Level(p, d, v, n) else Power(p, d, v, n)
  }

  lemma {:induction false} StopInProxied(p: Proxies, x: AccountId, v: AccountId, n: nat)
    requires v in p
    ensures Stop(p, x, n) == v <==> Up(p, x, n) == Some(v)
    decreases n
  {
    if n > 0 && x in p { StopInProxied(p, p[x], v, n - 1); }
  }

  lemma {:induction false} StopInRoot(p: Proxies, d: Stake, x: AccountId, v: AccountId, n: nat)
    requires v !in p && x in d && Closed(p, d)
    ensures Prefix(HitsOf(p, d, v, x), n) == StopHit(p, d, n, x, v)
    decreases n
  {
    var f := HitsOf(p, d, v, x);
    if n > 0 {
      StopInRoot(p, d, x, v, n - 1);
      StopStep(p, x, n - 1);
      var y := Stop(p, x, n - 1);
      if y == v {
        StopIsUp(p, x, n - 1);
        var m: nat :| m <= n - 1 && Up(p, x, m) == Some(v);
        UpStopsAtRoot(p, x, v, m, n);
      } else {
        StopIsUp(p, x, n);
        if Stop(p, x, n) == v {
          var m: nat :| m <= n && Up(p, x, m) == Some(v);
          if m < n { RootIsStop(p, x, v, m, n - 1); }
        } else if Up(p, x, n) == Some(v) {
          RootIsStop(p, x, v, n, n);
        }
      }
    }
  }

  lemma {:induction false} StopStep(p: Proxies, x: AccountId, n: nat)
    ensures Stop(p, x, n + 1) == if Stop(p, x, n) in p then p[Stop(p, x, n)] else Stop(p, x, n)
    decreases n
  {
    if n > 0 && x in p { StopStep(p, p[x], n - 1); }
  }

  lemma {:induction false} StopIsUp(p: Proxies, x: AccountId, n: nat)
    ensures exists m: nat :: m <= n && Up(p, x, m) == Some(Stop(p, x, n))
    decreases n
  {
    if n > 0 && x in p {
      StopIsUp(p, p[x], n - 1);
      var m: nat :| m <= n - 1 && Up(p, p[x], m) == Some(Stop(p, p[x], n - 1));
      assert Up(p, x, m + 1) == Some(Stop(p, x, n));
    } else {
      assert Up(p, x, 0) == Some(Stop(p, x, n));
    }
  }

  lemma {:induction false} RootIsStop(p: Proxies, x: AccountId, v: AccountId, m: nat, n: nat)
    requires Up(p, x, m) == Some(v) && v !in p && m <= n
    ensures Stop(p, x, n) == v
    decreases m
  {
    if m > 0 { RootIsStop(p, p[x], v, m - 1, n - 1); }
  }

  ghost function HitPrefix(p: Proxies, d: Stake, v: AccountId, n: nat): AccountId -> int
  {
    x => Prefix(HitsOf(p, d, v, x), n)
  }

  lemma {:induction false} PowerAsSum(p: Proxies, d: Stake, v: AccountId, n: nat)
    ensures Power(p, d, v, n) == Sum(d.Keys, HitPrefix(p, d, v, n))
    decreases n
  {
    if n == 0 {
      SumCongruent(d.Keys, HitAt(p, d, v, 0), HitPrefix(p, d, v, 0));
    } else {
      PowerAsSum(p, d, v, n - 1);
      SumAdd(d.Keys, HitPrefix(p, d, v, n - 1), HitAt(p, d, v, n), HitPrefix(p, d, v, n));
    }
  }

  lemma CountedIsStopSum(p: Proxies, d: Stake, n: nat, v: AccountId)
    requires Closed(p, d)
    ensures Counted(p, d, n)(v) == Sum(d.Keys, StopHitAt(p, d, n, v))
  {
    if v in p {
      forall x | x in d.Keys ensures HitAt(p, d, v, n)(x) == StopHitAt(p, d, n, v)(x) {
        StopInProxied(p, x, v, n);
      }
      SumCongruent(d.Keys, HitAt(p, d, v, n), StopHitAt(p, d, n, v));
    } else {
      PowerAsSum(p, d, v, n);
      forall x | x in d.Keys ensures HitPrefix(p, d, v, n)(x) == StopHitAt(p, d, n, v)(x) {
        StopInRoot(p, d, x, v, n);
      }
      SumCongruent(d.Keys, HitPrefix(p, d, v, n), StopHitAt(p, d, n, v));
    }
  }

  lemma StakeStopsOnce(p: Proxies, d: Stake, n: nat, x: AccountId)
    requires Closed(p, d) && x in d
    ensures RowSum(d.Keys, StopTable(p, d, n))(x) == d[x]
  {
    StopIsUp(p, x, n);
    var i: nat :| i <= n && Up(p, x, i) == Some(Stop(p, x, n));
    UpClosed(p, d, x, i);
    SumSingle(d.Keys, Row(StopTable(p, d, n), x), Stop(p, x, n));
  }

  lemma CountedIsColumn(p: Proxies, d: Stake, n: nat, v: AccountId)
    requires Closed(p, d)
    ensures ColumnSum(d.Keys, StopTable(p, d, n))(v) == Counted(p, d, n)(v)
  {
    CountedIsStopSum(p, d, n, v);
    SumCongruent(d.Keys, Column(StopTable(p, d, n), v), StopHitAt(p, d, n, v));
  }

  /** No stake is lost and none is counted twice, whatever the length of the
      chains: the counted power adds up to the total direct stake. */
  lemma Conservation(p: Proxies, d: Stake, n: nat)
    requires Closed(p, d)
    ensures Sum(d.Keys, Counted(p, d, n)) == TotalStake(d)
  {
    var m := StopTable(p, d, n);
    SumSwap(d.Keys, d.Keys, m);
    assert Sum(d.Keys, RowSum(d.Keys, m)) == TotalStake(d) by {
      forall x | x in d.Keys ensures RowSum(d.Keys, m)(x) == StakeOf(d)(x) { StakeStopsOnce(p, d, n, x); }
      SumCongruent(d.Keys, RowSum(d.Keys, m), StakeOf(d));
    }
    assert Sum(d.Keys, ColumnSum(d.Keys, m)) == Sum(d.Keys, Counted(p, d, n)) by {
      forall v | v in d.Keys ensures ColumnSum(d.Keys, m)(v) == Counted(p, d, n)(v) { CountedIsColumn(p, d, n, v); }
      SumCongruent(d.Keys, ColumnSum(d.Keys, m), Counted(p, d, n));
    }
  }

  /** Any set of accounts without proxies votes with at most the total stake. */
  lemma VotersBounded(p: Proxies, d: Stake, n: nat, voters: set<AccountId>, share: AccountId -> int)
    requires Closed(p, d) && NonNegative(d)
    requires forall x :: x in d ==> share(x) == if x in voters then Power(p, d, x, n) else 0
    requires forall x :: x in voters ==> x !in p
    ensures Sum(d.Keys, share) <= TotalStake(d)
  {
    forall v | v in d.Keys ensures share(v) <= Counted(p, d, n)(v) {
      forall i: nat | i <= n ensures 0 <= Levels(p, d, v)(i) { LevelNonNegative(p, d, v, i); }
      PrefixNonNegative(Levels(p, d, v), n);
      LevelNonNegative(p, d, v, n);
    }
    SumMonotone(d.Keys, share, Counted(p, d, n));
    Conservation(p, d, n);
  }
}
