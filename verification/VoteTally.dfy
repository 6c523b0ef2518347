/** What the cached witness totals mean, and how one walk up a proxy chain keeps
    them equal to that meaning. */
module VoteTally {
  import opened Common
  import opened Sums
  import opened ProxyForest

  type WitnessId = int
  type Votes = set<(AccountId, WitnessId)>

  ghost function Share(p: Proxies, d: Stake, n: nat, votes: Votes, w: WitnessId): AccountId -> int
  {
    x => if (x, w) in votes then Power(p, d, x, n) else 0
  }

  /** Votes of a witness: the governance power of the accounts voting for it. */
  ghost function Tally(p: Proxies, d: Stake, n: nat, votes: Votes, w: WitnessId): int
  {
    Sum(d.Keys, Share(p, d, n, votes, w))
  }

  /** Only existing accounts without a proxy hold vote records. */
  ghost predicate VotersUnproxied(p: Proxies, d: Stake, votes: Votes)
  {
    forall x, w :: (x, w) in votes ==> x in d && x !in p
  }

  ghost predicate SlotsExact(p: Proxies, d: Stake, n: nat, slots: map<AccountId, seq<int>>)
  {
    forall v :: v in d ==>
      v in slots && |slots[v]| == n && forall k :: 0 <= k < n ==> slots[v][k] == Level(p, d, v, k + 1)
  }

  /** What a walk from `c` adds to witness `w`: the part of `delta` that the top of
      the chain can still see, when that top is reached and votes for `w`. */
  ghost function TallyGain(p: Proxies, votes: Votes, c: AccountId, t: nat, n: nat, delta: nat -> int, w: WitnessId): int
    requires t <= n
    decreases n - t
  {
    if c !in p then (if (c, w) in votes then Prefix(delta, n - t) else 0)
    else if t == n then 0
    else TallyGain(p, votes, p[c], t + 1, n, delta, w)
  }

  ghost function GainShare(p: Proxies, votes: Votes, c: AccountId, t: nat, n: nat, delta: nat -> int,
      w: WitnessId): AccountId -> int
    requires t <= n
  {
    x => if (x, w) in votes then RootGain(p, c, t, n, delta, x) else 0
  }

  lemma {:induction false} TallyGainIsSum(p: Proxies, d: Stake, votes: Votes, c: AccountId, t: nat, n: nat,
      delta: nat -> int, w: WitnessId)
    requires t <= n && c in d && Closed(p, d)
    ensures TallyGain(p, votes, c, t, n, delta, w) == Sum(d.Keys, GainShare(p, votes, c, t, n, delta, w))
    decreases n - t
  {
    var g := GainShare(p, votes, c, t, n, delta, w);
    if c !in p {
      SumSingle(d.Keys, g, c);
    } else if t == n {
      SumZero(d.Keys, g);
    } else {
      TallyGainIsSum(p, d, votes, p[c], t + 1, n, delta, w);
      SumCongruent(d.Keys, g, GainShare(p, votes, p[c], t + 1, n, delta, w));
    }
  }

  lemma {:induction false} TallyGainNegated(p: Proxies, votes: Votes, c: AccountId, t: nat, n: nat, f: nat -> int,
      g: nat -> int, w: WitnessId)
    requires t <= n && forall i: nat :: i <= n ==> g(i) == -f(i)
    ensures TallyGain(p, votes, c, t, n, g, w) == -TallyGain(p, votes, c, t, n, f, w)
    decreases n - t
  {
    if c !in p {
      PrefixNegated(f, g, n - t);
    } else if t < n {
      TallyGainNegated(p, votes, p[c], t + 1, n, f, g, w);
    }
  }

  lemma {:induction false} PrefixNegated(f: nat -> int, g: nat -> int, n: nat)
    requires forall i: nat :: i <= n ==> g(i) == -f(i)
    ensures Prefix(g, n) == -Prefix(f, n)
  {
    if n > 0 { PrefixNegated(f, g, n - 1); }
  }

  lemma {:induction false} TallyGainCongruent(p: Proxies, votes: Votes, c: AccountId, t: nat, n: nat, f: nat -> int,
      g: nat -> int, w: WitnessId)
    requires t <= n && forall i: nat :: i <= n ==> f(i) == g(i)
    ensures TallyGain(p, votes, c, t, n, f, w) == TallyGain(p, votes, c, t, n, g, w)
    decreases n - t
  {
    if c !in p {
      PrefixCongruent(f, g, n - t);
    } else if t < n {
      TallyGainCongruent(p, votes, p[c], t + 1, n, f, g, w);
    }
  }

  // ----- linking and unlinking an account that holds no votes

  lemma {:induction false} PowerAttach(p: Proxies, d: Stake, a: AccountId, b: AccountId, x: AccountId, n: nat)
    requires a !in p
    ensures Power(p[a := b], d, x, n)
         == Power(p, d, x, n) + SlotGain(p[a := b], a, 0, x, Levels(p, d, a), n)
  {
    if n == 0 {
      SumCongruent(d.Keys, HitAt(p[a := b], d, x, 0), HitAt(p, d, x, 0));
    } else {
      PowerAttach(p, d, a, b, x, n - 1);
      Attach(p, d, a, b, x, n - 1);
    }
  }

  /** Linking `a` to `b` moves every witness by exactly what the walk adds. */
  lemma LinkTally(p: Proxies, d: Stake, n: nat, votes: Votes, a: AccountId, b: AccountId, w: WitnessId)
    requires a !in p && a in d && Closed(p[a := b], d)
    requires VotersUnproxied(p[a := b], d, votes)
    ensures Tally(p[a := b], d, n, votes, w)
         == Tally(p, d, n, votes, w) + TallyGain(p[a := b], votes, a, 0, n, Levels(p, d, a), w)
  {
    var p1 := p[a := b];
    var f := Levels(p, d, a);
    TallyGainIsSum(p1, d, votes, a, 0, n, f, w);
    forall x | x in d.Keys
      ensures Share(p1, d, n, votes, w)(x) == Share(p, d, n, votes, w)(x) + GainShare(p1, votes, a, 0, n, f, w)(x)
    {
      if (x, w) in votes {
        PowerAttach(p, d, a, b, x, n);
        RootGainIsSlotGain(p1, a, 0, n, f, x);
      }
    }
    SumAdd(d.Keys, Share(p, d, n, votes, w), GainShare(p1, votes, a, 0, n, f, w), Share(p1, d, n, votes, w));
  }

  ghost function VotesWithout(votes: Votes, a: AccountId): Votes
  {
    set v | v in votes && v.0 != a
  }

  /** Taking the power of `a` out of whatever it reaches leaves the totals of the
      chain in which `a` has neither a proxy nor votes. */
  lemma UnlinkTally(p: Proxies, d: Stake, n: nat, votes: Votes, a: AccountId, taken: nat -> int, w: WitnessId)
    requires a in d && Closed(p, d) && Acyclic(p) && VotersUnproxied(p, d, votes)
    requires forall i: nat :: i <= n ==> taken(i) == -Level(p, d, a, i)
    ensures Tally(p - {a}, d, n, VotesWithout(votes, a), w)
         == Tally(p, d, n, votes, w) + TallyGain(p, votes, a, 0, n, taken, w)
  {
    var p0 := p - {a};
    var rest := VotesWithout(votes, a);
    if a in p {
      assert p == p0[a := p[a]];
      assert rest == votes by {
        forall x, w | (x, w) in votes ensures x != a { }
      }
      LinkTally(p0, d, n, votes, a, p[a], w);
      forall i: nat | i <= n ensures taken(i) == -Levels(p0, d, a)(i) { BelowUnaffected(p0, d, a, p[a], i); }
      TallyGainNegated(p, votes, a, 0, n, Levels(p0, d, a), taken, w);
    } else {
      assert p0 == p;
      PrefixNegated(Levels(p, d, a), taken, n);
      SumChangeOne(d.Keys, Share(p, d, n, votes, w), Share(p, d, n, rest, w), a);
    }
  }

  /** The same for the slots: the walk with the negated levels undoes the link. */
  lemma UnlinkSlot(p: Proxies, d: Stake, a: AccountId, taken: nat -> int, v: AccountId, k: nat)
    requires a in d && Acyclic(p)
    requires forall i: nat :: i <= k ==> taken(i) == -Level(p, d, a, i)
    ensures Level(p - {a}, d, v, k + 1) == Level(p, d, v, k + 1) + WalkGain(p, a, 0, v, taken, k)
  {
    var p0 := p - {a};
    if a in p {
      assert p == p0[a := p[a]];
      Attach(p0, d, a, p[a], v, k);
      forall i: nat | i <= k ensures taken(i) == -Levels(p0, d, a)(i) { BelowUnaffected(p0, d, a, p[a], i); }
      WalkGainNegated(p, a, 0, v, Levels(p0, d, a), taken, k);
    } else {
      assert p0 == p;
    }
  }

  lemma UnlinkAcyclic(p: Proxies, a: AccountId)
    requires Acyclic(p)
    ensures Acyclic(p - {a})
  {
    if a in p {
      assert p == (p - {a})[a := p[a]];
      DetachAcyclic(p - {a}, a, p[a]);
    } else {
      assert p - {a} == p;
    }
  }

  // ----- changing stake

  /** A change of `s` in the stake right at the start of the walk. */
  ghost function Unit(s: int): nat -> int
  {
    (i: nat) => if i == 0 then s else 0
  }

  lemma {:induction false} PrefixUnit(s: int, n: nat)
    ensures Prefix(Unit(s), n) == s
  {
    if n > 0 { PrefixUnit(s, n - 1); }
  }

  lemma RestakeSlot(p: Proxies, d: Stake, a: AccountId, s: int, v: AccountId, k: nat)
    requires a in d
    ensures Level(p, d[a := d[a] + s], v, k + 1)
         == Level(p, d, v, k + 1) + WalkGain(p, a, 0, v, Unit(s), k)
  {
    RestakeLevel(p, d, a, d[a] + s, v, k + 1);
    WalkGainUnit(p, a, 0, v, Unit(s), 0, k);
  }

  lemma {:induction false} PowerRestake(p: Proxies, d: Stake, a: AccountId, s: int, x: AccountId, n: nat)
    requires a in d && a in p && x !in p
    ensures Power(p, d[a := d[a] + s], x, n) == Power(p, d, x, n) + SlotGain(p, a, 0, x, Unit(s), n)
  {
    if n == 0 {
      RestakeLevel(p, d, a, d[a] + s, x, 0);
    } else {
      PowerRestake(p, d, a, s, x, n - 1);
      RestakeSlot(p, d, a, s, x, n - 1);
    }
  }

  lemma {:induction false} PowerRestakeRoot(p: Proxies, d: Stake, a: AccountId, s: int, x: AccountId, n: nat)
    requires a in d && a !in p
    ensures Power(p, d[a := d[a] + s], x, n) == Power(p, d, x, n) + if x == a then s else 0
  {
    RestakeLevel(p, d, a, d[a] + s, x, n);
    if n > 0 {
      PowerRestakeRoot(p, d, a, s, x, n - 1);
    }
  }

  lemma RestakeTally(p: Proxies, d: Stake, n: nat, votes: Votes, a: AccountId, s: int, w: WitnessId)
    requires a in d && Closed(p, d) && VotersUnproxied(p, d, votes)
    ensures Tally(p, d[a := d[a] + s], n, votes, w)
         == Tally(p, d, n, votes, w) + TallyGain(p, votes, a, 0, n, Unit(s), w)
  {
    var d1 := d[a := d[a] + s];
    assert d1.Keys == d.Keys;
    var g := GainShare(p, votes, a, 0, n, Unit(s), w);
    TallyGainIsSum(p, d, votes, a, 0, n, Unit(s), w);
    PrefixUnit(s, n);
    forall x | x in d.Keys
      ensures Share(p, d1, n, votes, w)(x) == Share(p, d, n, votes, w)(x) + g(x)
    {
      if (x, w) in votes {
        if a in p {
          PowerRestake(p, d, a, s, x, n);
          RootGainIsSlotGain(p, a, 0, n, Unit(s), x);
        } else {
          PowerRestakeRoot(p, d, a, s, x, n);
        }
      }
    }
    SumAdd(d.Keys, Share(p, d, n, votes, w), g, Share(p, d1, n, votes, w));
  }

  /** A new account changes no total. */
  lemma NewAccountTally(p: Proxies, d: Stake, n: nat, votes: Votes, a: AccountId, s: int, w: WitnessId)
    requires a !in d && Closed(p, d) && VotersUnproxied(p, d, votes)
    ensures Tally(p, d[a := s], n, votes, w) == Tally(p, d, n, votes, w)
  {
    var d1 := d[a := s];
    assert d1.Keys == d.Keys + {a};
    SumInsert(d.Keys, Share(p, d1, n, votes, w), a);
    forall x | x in d.Keys ensures Share(p, d1, n, votes, w)(x) == Share(p, d, n, votes, w)(x) {
      forall i: nat | i <= n ensures Levels(p, d1, x)(i) == Levels(p, d, x)(i) { NewAccountLevel(p, d, a, s, x, i); }
      PrefixCongruent(Levels(p, d1, x), Levels(p, d, x), n);
    }
    SumCongruent(d.Keys, Share(p, d1, n, votes, w), Share(p, d, n, votes, w));
  }

  /** No witness has more votes than there is stake. */
  lemma TallyBounded(p: Proxies, d: Stake, n: nat, votes: Votes, w: WitnessId)
    requires Closed(p, d) && NonNegative(d) && VotersUnproxied(p, d, votes)
    ensures Tally(p, d, n, votes, w) <= TotalStake(d)
  {
    var voters := set x | x in d && (x, w) in votes;
    VotersBounded(p, d, n, voters, Share(p, d, n, votes, w));
  }

  lemma CastVoteTally(p: Proxies, d: Stake, n: nat, votes: Votes, a: AccountId, w: WitnessId, w': WitnessId)
    requires a in d && (a, w) !in votes
    ensures Tally(p, d, n, votes + {(a, w)}, w') == Tally(p, d, n, votes, w') + if w' == w then Power(p, d, a, n) else 0
  {
    var f, g := Share(p, d, n, votes, w'), Share(p, d, n, votes + {(a, w)}, w');
    if w' == w {
      SumChangeOne(d.Keys, f, g, a);
    } else {
      SumCongruent(d.Keys, f, g);
    }
  }
}
