/** What a block that enters the fork database pulls in from the cache, and when a cached block is lost on the way. */
module Cascade {
  import opened BlockTree

  /** Once `top` has entered, `d` is to enter too: it is cached, and so is everything in between. */
  ghost predicate Follows(cache: set<Block>, invalid: set<BlockId>, top: BlockId, d: BlockId)
    decreases d
  {
    d == top || (d.Hash? && d in cache && d.prev !in invalid && Follows(cache, invalid, top, d.prev))
  }

  /** The blocks that are tried, and leave the cache, once `top` has entered. */
  ghost function Tried(cache: set<Block>, invalid: set<BlockId>, top: BlockId): set<Block>
  {
    set d | d in cache && Follows(cache, invalid, top, d.prev)
  }

  /** What follows `y` reaches so high that a block of the height of `y` is too old afterwards. */
  ghost predicate Outgrown(cache: set<Block>, invalid: set<BlockId>, y: Block, maxSize: nat)
  {
    exists d :: Follows(cache, invalid, y, d) && Num(y) + maxSize <= Num(d)
  }

  /** Two cached children of a block that follows `top`. */
  ghost predicate Siblings(cache: set<Block>, invalid: set<BlockId>, top: BlockId, y: Block, x: Block)
  {
    y in cache && x in cache && y != x && x.prev == y.prev && y.prev !in invalid && Follows(cache, invalid, top, y.prev)
  }

  /** One sibling outgrows another that may come after it. */
  ghost predicate MayLose(cache: set<Block>, invalid: set<BlockId>, top: BlockId, rank: Block -> nat, maxSize: nat)
  {
    exists y, x :: Siblings(cache, invalid, top, y, x) && Outgrown(cache, invalid, y, maxSize) && rank(y) <= rank(x)
  }

  /** One sibling outgrows another that comes after it, or each outgrows the other. */
  ghost predicate MustLose(cache: set<Block>, invalid: set<BlockId>, top: BlockId, rank: Block -> nat, maxSize: nat)
  {
    exists y, x ::
      && Siblings(cache, invalid, top, y, x) && Outgrown(cache, invalid, y, maxSize)
      && (rank(y) < rank(x) || Outgrown(cache, invalid, x, maxSize))
  }

  /** The two agree where the order is settled. */
  lemma LossExact(cache: set<Block>, invalid: set<BlockId>, top: BlockId, rank: Block -> nat, maxSize: nat)
    ensures MustLose(cache, invalid, top, rank, maxSize) ==> MayLose(cache, invalid, top, rank, maxSize)
    ensures (forall x, y :: x in cache && y in cache && x != y ==> rank(x) != rank(y)) ==>
      (MayLose(cache, invalid, top, rank, maxSize) <==> MustLose(cache, invalid, top, rank, maxSize))
  {
    hide Outgrown, Follows;
    if MustLose(cache, invalid, top, rank, maxSize) {
      var y, x :| Siblings(cache, invalid, top, y, x) && Outgrown(cache, invalid, y, maxSize)
        && (rank(y) < rank(x) || Outgrown(cache, invalid, x, maxSize));
      if rank(y) > rank(x) { assert Siblings(cache, invalid, top, x, y); }
    }
  }

  /** In no order is a block lost if nothing in the cache is more than `maxSize` above the one pushed. */
  lemma LowCacheLosesNone(cache: set<Block>, invalid: set<BlockId>, top: BlockId, rank: Block -> nat, maxSize: nat)
    requires forall c :: c in cache ==> Num(c) <= Num(top) + maxSize
    ensures !MayLose(cache, invalid, top, rank, maxSize)
  {
    if MayLose(cache, invalid, top, rank, maxSize) {
      var y, x :| Siblings(cache, invalid, top, y, x) && Outgrown(cache, invalid, y, maxSize) && rank(y) <= rank(x);
      var d :| Follows(cache, invalid, y, d) && Num(y) + maxSize <= Num(d);
      FollowsAbove(cache, invalid, top, y.prev);
    }
  }

  /** One more is too much: at a size of one, of two cached branches of two blocks one is lost in every order. */
  lemma TwoBranchesLose(rank: Block -> nat)
    ensures var b := Hash(Hash(Zero, 0), 0);
      var c, d := Hash(b, 0), Hash(b, 1);
      MustLose({c, Hash(c, 0), d, Hash(d, 0)}, {}, b, rank, 1)
  {
    var b := Hash(Hash(Zero, 0), 0);
    var c, d := Hash(b, 0), Hash(b, 1);
    var cache: set<Block> := {c, Hash(c, 0), d, Hash(d, 0)};
    assert Follows(cache, {}, c, Hash(c, 0)) && Num(Hash(c, 0)) == Num(c) + 1;
    assert Follows(cache, {}, d, Hash(d, 0)) && Num(Hash(d, 0)) == Num(d) + 1;
    assert Siblings(cache, {}, b, c, d);
  }

  // ----- following

  lemma {:induction false} FollowsAbove(cache: set<Block>, invalid: set<BlockId>, top: BlockId, d: BlockId)
    requires Follows(cache, invalid, top, d)
    ensures Num(top) <= Num(d) && (Num(top) == Num(d) ==> top == d)
    decreases d
  {
    if d != top { FollowsAbove(cache, invalid, top, d.prev); }
  }

  lemma {:induction false} FollowsOn(cache: set<Block>, invalid: set<BlockId>, top: BlockId, mid: BlockId, d: BlockId)
    requires Follows(cache, invalid, top, mid) && Follows(cache, invalid, mid, d)
    ensures Follows(cache, invalid, top, d)
    decreases d
  {
    if d != mid { FollowsOn(cache, invalid, top, mid, d.prev); }
  }

  /** Blocks of one height have no follower in common. */
  lemma {:induction false} FollowsOne(cache: set<Block>, invalid: set<BlockId>, c: BlockId, e: BlockId, d: BlockId)
    requires Follows(cache, invalid, c, d) && Follows(cache, invalid, e, d) && Num(c) == Num(e)
    ensures c == e
    decreases d
  {
    FollowsAbove(cache, invalid, c, d);
    FollowsAbove(cache, invalid, e, d);
    if d != c && d != e { FollowsOne(cache, invalid, c, e, d.prev); }
  }

  /** A follower other than the block itself follows one of its children. */
  lemma {:induction false} FollowsChild(cache: set<Block>, invalid: set<BlockId>, top: BlockId,
      d: BlockId) returns (c: Block)
    requires Follows(cache, invalid, top, d) && d != top
    ensures c in cache && c.prev == top && top !in invalid && Follows(cache, invalid, c, d)
    decreases d
  {
    if d.prev == top {
      c := d;
    } else {
      c := FollowsChild(cache, invalid, top, d.prev);
    }
  }

  /** Two caches that agree on what is tried after `top`. */
  ghost predicate Alike(cache: set<Block>, part: set<Block>, invalid: set<BlockId>, top: BlockId)
  {
    part <= cache && forall d :: d in Tried(cache, invalid, top) && d != top ==> d in part
  }

  lemma {:induction false} AlikeFollows(cache: set<Block>, part: set<Block>, invalid: set<BlockId>, top: BlockId,
      d: BlockId)
    requires Alike(cache, part, invalid, top)
    ensures Follows(cache, invalid, top, d) <==> Follows(part, invalid, top, d)
    decreases d
  {
    if d != top && d.Hash? { AlikeFollows(cache, part, invalid, top, d.prev); }
  }

  lemma AlikeBelow(cache: set<Block>, part: set<Block>, invalid: set<BlockId>, top: BlockId, y: BlockId)
    requires Alike(cache, part, invalid, top) && Follows(cache, invalid, top, y) && top.Hash? && y.Hash?
    ensures Alike(cache, part, invalid, y)
  {
    forall d | d in Tried(cache, invalid, y) && d != y ensures d in part {
      FollowsOn(cache, invalid, top, y, d.prev);
      FollowsAbove(cache, invalid, top, d.prev);
      assert d in Tried(cache, invalid, top);
    }
  }

  lemma AlikeOutgrown(cache: set<Block>, part: set<Block>, invalid: set<BlockId>, y: Block, maxSize: nat)
    requires Alike(cache, part, invalid, y)
    ensures Outgrown(cache, invalid, y, maxSize) <==> Outgrown(part, invalid, y, maxSize)
  {
    hide Alike, Follows;
    forall d ensures Follows(cache, invalid, y, d) <==> Follows(part, invalid, y, d) {
      AlikeFollows(cache, part, invalid, y, d);
    }
  }

  lemma AlikeSiblings(cache: set<Block>, part: set<Block>, invalid: set<BlockId>, top: Block, y: Block, x: Block,
      maxSize: nat)
    requires Alike(cache, part, invalid, top)
    ensures Siblings(cache, invalid, top, y, x) <==> Siblings(part, invalid, top, y, x)
    ensures Siblings(cache, invalid, top, y, x) ==>
      (Outgrown(cache, invalid, y, maxSize) <==> Outgrown(part, invalid, y, maxSize))
  {
    AlikeFollows(cache, part, invalid, top, y.prev);
    if Siblings(cache, invalid, top, y, x) {
      FollowsAbove(cache, invalid, top, y.prev);
      assert y in Tried(cache, invalid, top) && x in Tried(cache, invalid, top);
      assert Follows(cache, invalid, top, y);
      AlikeBelow(cache, part, invalid, top, y);
      AlikeOutgrown(cache, part, invalid, y, maxSize);
    }
  }

  lemma SiblingsSwap(cache: set<Block>, invalid: set<BlockId>, top: BlockId, y: Block, x: Block)
    ensures Siblings(cache, invalid, top, y, x) ==> Siblings(cache, invalid, top, x, y)
  {
    hide Follows;
  }

  lemma AlikeLoss(cache: set<Block>, part: set<Block>, invalid: set<BlockId>, top: Block, rank: Block -> nat,
      maxSize: nat)
    requires Alike(cache, part, invalid, top)
    ensures MayLose(cache, invalid, top, rank, maxSize) <==> MayLose(part, invalid, top, rank, maxSize)
    ensures MustLose(cache, invalid, top, rank, maxSize) <==> MustLose(part, invalid, top, rank, maxSize)
  {
    hide Alike, Siblings, Outgrown, Follows;
    forall y, x
      ensures Siblings(cache, invalid, top, y, x) <==> Siblings(part, invalid, top, y, x)
      ensures Siblings(cache, invalid, top, y, x) ==> Siblings(cache, invalid, top, x, y)
      ensures Siblings(cache, invalid, top, y, x) ==>
        (Outgrown(cache, invalid, y, maxSize) <==> Outgrown(part, invalid, y, maxSize))
    {
      AlikeSiblings(cache, part, invalid, top, y, x, maxSize);
      SiblingsSwap(cache, invalid, top, y, x);
    }
  }

  lemma LossBelow(cache: set<Block>, invalid: set<BlockId>, top: BlockId, c: Block, rank: Block -> nat, maxSize: nat)
    requires Follows(cache, invalid, top, c) && MayLose(cache, invalid, c, rank, maxSize)
    ensures MayLose(cache, invalid, top, rank, maxSize)
  {
    hide Outgrown;
    var y, x :| Siblings(cache, invalid, c, y, x) && Outgrown(cache, invalid, y, maxSize) && rank(y) <= rank(x);
    FollowsOn(cache, invalid, top, c, y.prev);
    assert Siblings(cache, invalid, top, y, x);
  }

  lemma {:induction false} FollowsMore(cache: set<Block>, part: set<Block>, invalid: set<BlockId>, top: BlockId,
      d: BlockId)
    requires part <= cache && Follows(part, invalid, top, d)
    ensures Follows(cache, invalid, top, d)
    decreases d
  {
    if d != top { FollowsMore(cache, part, invalid, top, d.prev); }
  }

  /** Whatever was lost before: a child tried, and what is tried after it, was to be tried from the start. */
  lemma TriedBelow(cache: set<Block>, part: set<Block>, invalid: set<BlockId>, b: Block, c: Block)
    requires part <= cache && c in cache && c.prev == b
    ensures c in Tried(cache, invalid, b)
    ensures b !in invalid ==> Tried(part, invalid, c) <= Tried(cache, invalid, b)
  {
    if b !in invalid {
      forall d | d in Tried(part, invalid, c) ensures d in Tried(cache, invalid, b) {
        FollowsMore(cache, part, invalid, c, d.prev);
        FollowsOn(cache, invalid, b, c, d.prev);
      }
    }
  }

  lemma NotTriedSelf(cache: set<Block>, invalid: set<BlockId>, b: Block)
    ensures b !in Tried(cache, invalid, b)
  {
    if b in Tried(cache, invalid, b) { FollowsAbove(cache, invalid, b, b.prev); }
  }

  // ----- pushing the children of a block one after the other

  /** The children of `b` that have left the cache. */
  ghost function Gone(cache: set<Block>, left: set<Block>, b: BlockId): set<Block>
  {
    set c | c in cache && c !in left && c.prev == b
  }

  /** Exactly the children gone and what was tried after them have left the cache, and no child
      still waiting comes earlier in the order. */
  ghost predicate Left(cache: set<Block>, left: set<Block>, invalid: set<BlockId>, b: BlockId, rank: Block -> nat)
  {
    && left <= cache
    && (forall d :: d in cache && d !in left && d.prev != b ==>
          b !in invalid && exists c :: c in Gone(cache, left, b) && d in Tried(cache, invalid, c))
    && (b !in invalid ==> forall c, d :: c in Gone(cache, left, b) && d in Tried(cache, invalid, c) ==> d !in left)
    && (forall c, e :: c in Gone(cache, left, b) && e in left && e.prev == b ==> rank(c) <= rank(e))
  }

  /** None of the children gone outgrew the others. */
  ghost predicate Passed(cache: set<Block>, gone: set<Block>, invalid: set<BlockId>, rank: Block -> nat, maxSize: nat)
  {
    && (forall c :: c in gone ==> !MustLose(cache, invalid, c, rank, maxSize))
    && (forall y, x :: y in gone && x in gone && y != x && Outgrown(cache, invalid, y, maxSize) ==>
          rank(x) <= rank(y) && !Outgrown(cache, invalid, x, maxSize))
  }

  /** The head has risen from height `was` to the highest block that entered. */
  ghost predicate Topped(cache: set<Block>, gone: set<Block>, invalid: set<BlockId>, was: nat, now: nat)
  {
    && was <= now
    && (forall c, d :: c in gone && Follows(cache, invalid, c, d) ==> Num(d) <= now)
    && (now == was || exists c, d :: c in gone && Follows(cache, invalid, c, d) && Num(d) == now)
  }

  /** What is tried after a child still waiting is still there. */
  lemma LeftAlike(cache: set<Block>, left: set<Block>, invalid: set<BlockId>, b: Block, rank: Block -> nat, c: Block)
    requires Left(cache, left, invalid, b, rank) && c in left && c.prev == b
    ensures Alike(cache, left - {c}, invalid, c)
  {
    forall d | d in Tried(cache, invalid, c) && d != c ensures d in left - {c} {
      FollowsAbove(cache, invalid, c, d.prev);
      assert Num(c) == Num(b) + 1;
      if d !in left {
        var e :| e in Gone(cache, left, b) && d in Tried(cache, invalid, e);
        assert Num(e) == Num(b) + 1;
        FollowsOne(cache, invalid, c, e, d.prev);
      }
    }
  }

  lemma TriedAlike(cache: set<Block>, part: set<Block>, invalid: set<BlockId>, c: Block)
    requires Alike(cache, part, invalid, c)
    ensures Tried(part, invalid, c) == Tried(cache, invalid, c)
  {
    forall d: Block ensures d in Tried(part, invalid, c) <==> d in Tried(cache, invalid, c) {
      AlikeFollows(cache, part, invalid, c, d.prev);
      if d.prev == c.prev && Follows(cache, invalid, c, d.prev) { FollowsAbove(cache, invalid, c, d.prev); }
    }
  }

  lemma LeftRefused(cache: set<Block>, left: set<Block>, invalid: set<BlockId>, b: Block, rank: Block -> nat, c: Block)
    requires Left(cache, left, invalid, b, rank) && c in left && c.prev == b && b in invalid
    requires forall e :: e in left && e.prev == b ==> rank(c) <= rank(e)
    ensures Left(cache, left - {c}, invalid, b, rank)
  {
  }

  lemma LeftEntered(cache: set<Block>, left: set<Block>, invalid: set<BlockId>, b: Block, rank: Block -> nat, c: Block)
    requires Left(cache, left, invalid, b, rank) && c in left && c.prev == b && b !in invalid
    requires forall e :: e in left && e.prev == b ==> rank(c) <= rank(e)
    ensures var after := left - {c} - Tried(left - {c}, invalid, c);
      Left(cache, after, invalid, b, rank) && Gone(cache, after, b) == Gone(cache, left, b) + {c}
  {
    LeftAlike(cache, left, invalid, b, rank, c);
    TriedAlike(cache, left - {c}, invalid, c);
    var tried := Tried(cache, invalid, c);
    var after := left - {c} - tried;
    forall d | d in tried ensures d.prev != b {
      FollowsAbove(cache, invalid, c, d.prev);
      assert Num(c) == Num(b) + 1;
    }
    hide Tried;
    assert Gone(cache, after, b) == Gone(cache, left, b) + {c};
  }

  lemma ChildSiblings(cache: set<Block>, invalid: set<BlockId>, b: Block, y: Block, x: Block, maxSize: nat)
    requires y in cache && x in cache && y != x && y.prev == x.prev == b && b !in invalid
    ensures Siblings(cache, invalid, b, y, x)
  {
  }

  /** A child that is too old by then was outgrown. */
  lemma TooOldOutgrown(cache: set<Block>, left: set<Block>, invalid: set<BlockId>, b: Block, rank: Block -> nat,
      maxSize: nat, c: Block, was: nat, now: nat)
    requires Left(cache, left, invalid, b, rank) && c in left && c.prev == b && b !in invalid
    requires
      && Topped(cache, Gone(cache, left, b), invalid, was, now) && was <= Num(b) + maxSize && Num(c) + maxSize <= now
    ensures MayLose(cache, invalid, b, rank, maxSize)
  {
    assert Num(c) == Num(b) + 1;
    var y, d :| y in Gone(cache, left, b) && Follows(cache, invalid, y, d) && Num(d) == now;
    assert Num(y) == Num(b) + 1;
    assert Outgrown(cache, invalid, y, maxSize);
    ChildSiblings(cache, invalid, b, y, c, maxSize);
    assert rank(y) <= rank(c);
  }

  /** One that is not outgrew nothing before it. */
  lemma PassedOne(cache: set<Block>, gone: set<Block>, invalid: set<BlockId>, b: Block, rank: Block -> nat,
      maxSize: nat, c: Block, was: nat, now: nat)
    requires Passed(cache, gone, invalid, rank, maxSize) && Topped(cache, gone, invalid, was, now)
    requires forall y :: y in gone ==> y.prev == b && rank(y) <= rank(c)
    requires c.prev == b && now < Num(c) + maxSize && !MustLose(cache, invalid, c, rank, maxSize)
    ensures Passed(cache, gone + {c}, invalid, rank, maxSize)
  {
    hide MustLose, Follows;
    forall y | y in gone ensures !Outgrown(cache, invalid, y, maxSize) {
      assert Num(y) == Num(b) + 1 == Num(c);
    }
  }

  lemma ToppedOne(cache: set<Block>, part: set<Block>, gone: set<Block>, invalid: set<BlockId>, c: Block, was: nat,
      before: nat, now: BlockId)
    requires Topped(cache, gone, invalid, was, before) && Alike(cache, part, invalid, c)
    requires before <= Num(now) && forall d :: Follows(part, invalid, c, d) ==> Num(d) <= Num(now)
    requires before == Num(now) || Follows(part, invalid, c, now)
    ensures Topped(cache, gone + {c}, invalid, was, Num(now))
  {
    hide Follows, Num, Alike;
    forall d ensures Follows(cache, invalid, c, d) <==> Follows(part, invalid, c, d) {
      AlikeFollows(cache, part, invalid, c, d);
    }
  }

  /** When no child waits any more, everything that was to be tried has been, and nothing had to
      be lost. */
  lemma AllPassed(cache: set<Block>, left: set<Block>, invalid: set<BlockId>, b: Block, rank: Block -> nat,
      maxSize: nat)
    requires Left(cache, left, invalid, b, rank) && forall c :: c in left ==> c.prev != b
    requires b !in invalid ==> Passed(cache, Gone(cache, left, b), invalid, rank, maxSize)
    ensures left == cache - Tried(cache, invalid, b)
    ensures !MustLose(cache, invalid, b, rank, maxSize)
  {
    forall d: Block | d in cache ensures d in Tried(cache, invalid, b) <==> d !in left {
      AllTried(cache, left, invalid, b, rank, d);
    }
    forall y, x | Siblings(cache, invalid, b, y, x) && Outgrown(cache, invalid, y, maxSize)
      ensures rank(x) <= rank(y) && !Outgrown(cache, invalid, x, maxSize)
    {
      NotOutgrown(cache, left, invalid, b, rank, maxSize, y, x);
    }
  }

  lemma AllTried(cache: set<Block>, left: set<Block>, invalid: set<BlockId>, b: Block, rank: Block -> nat, d: Block)
    requires Left(cache, left, invalid, b, rank) && d in cache && forall c :: c in left ==> c.prev != b
    ensures d in Tried(cache, invalid, b) <==> d !in left
  {
    if d.prev == b {
    } else if Follows(cache, invalid, b, d.prev) {
      var c := FollowsChild(cache, invalid, b, d.prev);
      assert c in Gone(cache, left, b) && d in Tried(cache, invalid, c);
    } else if d !in left {
      var c :| c in Gone(cache, left, b) && d in Tried(cache, invalid, c);
      FollowsOn(cache, invalid, b, c, d.prev);
    }
  }

  lemma NotOutgrown(cache: set<Block>, left: set<Block>, invalid: set<BlockId>, b: Block, rank: Block -> nat,
      maxSize: nat, y: Block, x: Block)
    requires b !in invalid ==> Passed(cache, Gone(cache, left, b), invalid, rank, maxSize)
    requires
      && (forall c :: c in left ==> c.prev != b) && Siblings(cache, invalid, b, y, x)
      && Outgrown(cache, invalid, y, maxSize)
    ensures rank(x) <= rank(y) && !Outgrown(cache, invalid, x, maxSize)
  {
    hide Outgrown;
    if y.prev == b {
      assert y in Gone(cache, left, b) && x in Gone(cache, left, b);
    } else {
      var c := FollowsChild(cache, invalid, b, y.prev);
      assert c in Gone(cache, left, b);
      assert Siblings(cache, invalid, c, y, x);
    }
  }

  /** The head after everything that follows `top` has entered: the one before, unless a strictly higher block
      was among them. */
  ghost predicate Raised(cache: set<Block>, invalid: set<BlockId>, top: BlockId, was: BlockId, now: BlockId)
  {
    && (now == was || (Num(was) < Num(now) && Follows(cache, invalid, top, now)))
    && forall d :: Follows(cache, invalid, top, d) ==> Num(d) <= Num(now)
  }

  lemma RaisedAfter(cache: set<Block>, invalid: set<BlockId>, b: Block, was: BlockId, entered: BlockId, now: BlockId)
    requires Raised(cache, invalid, b, entered, now)
    requires entered == was || (entered == b && Num(was) < Num(entered))
    ensures Raised(cache, invalid, b, was, now)
  {
    hide Num;
  }

  lemma TipRaised(invalid: set<BlockId>, b: Block, was: BlockId, now: BlockId)
    requires was == b.prev && Raised({}, invalid, b, was, now)
    ensures now == b
  {
    assert Follows({}, invalid, b, b);
  }

  /** The next child to be tried. */
  predicate Next(left: set<Block>, b: BlockId, rank: Block -> nat, c: Block)
  {
    c in left && c.prev == b && forall e :: e in left && e.prev == b ==> rank(c) <= rank(e)
  }

  lemma {:induction false} NextExists(left: set<Block>, b: BlockId, rank: Block -> nat, e: Block)
    requires e in left && e.prev == b
    ensures exists c :: c in left && Next(left, b, rank, c)
    decreases rank(e)
  {
    if f :| f in left && f.prev == b && rank(f) < rank(e) {
      NextExists(left, b, rank, f);
    } else {
      assert Next(left, b, rank, e);
    }
  }

  lemma NextIsChild(left: set<Block>, b: BlockId, rank: Block -> nat, c: Block)
    requires Next(left, b, rank, c)
    ensures c in left && c.prev == b
  {
  }

  /** Some children of `b` have been tried, in order, and the head has gone from `was` to `now`. */
  ghost predicate Halfway(cache: set<Block>, left: set<Block>, invalid: set<BlockId>, b: Block, rank: Block -> nat,
      maxSize: nat, was: BlockId, now: BlockId)
  {
    var gone := Gone(cache, left, b);
    && Left(cache, left, invalid, b, rank) && Num(b) <= Num(was) <= Num(b) + maxSize
    && (b in invalid ==> now == was)
    && (b !in invalid ==>
           Passed(cache, gone, invalid, rank, maxSize) && Topped(cache, gone, invalid, Num(was), Num(now)))
    && (now == was
        || (b !in invalid && Num(was) < Num(now) && exists c :: c in gone && Follows(cache, invalid, c, now)))
  }

  lemma HalfwayStart(cache: set<Block>, invalid: set<BlockId>, b: Block, rank: Block -> nat, maxSize: nat,
      head: BlockId)
    requires Num(b) <= Num(head) <= Num(b) + maxSize
    ensures Halfway(cache, cache, invalid, b, rank, maxSize, head, head)
  {
    assert Gone(cache, cache, b) == {};
  }

  /** A child refused because its parent is invalid. */
  lemma HalfwayRefused(cache: set<Block>, left: set<Block>, invalid: set<BlockId>, b: Block, rank: Block -> nat,
      maxSize: nat, was: BlockId, now: BlockId, c: Block)
    requires Halfway(cache, left, invalid, b, rank, maxSize, was, now) && Next(left, b, rank, c) && b in invalid
    ensures Num(c) + maxSize > Num(now) && Halfway(cache, left - {c}, invalid, b, rank, maxSize, was, now)
  {
    LeftRefused(cache, left, invalid, b, rank, c);
  }

  /** A child that enters, with everything that follows it. */
  lemma HalfwayEntered(cache: set<Block>, left: set<Block>, invalid: set<BlockId>, b: Block, rank: Block -> nat,
      maxSize: nat, was: BlockId, before: BlockId, now: BlockId, c: Block)
    requires Halfway(cache, left, invalid, b, rank, maxSize, was, before) && Next(left, b, rank, c) && b !in invalid
    requires Num(before) < Num(c) + maxSize && !MustLose(left - {c}, invalid, c, rank, maxSize)
    requires Raised(left - {c}, invalid, c, before, now)
    ensures Halfway(cache, left - {c} - Tried(left - {c}, invalid, c), invalid, b, rank, maxSize, was, now)
  {
    var gone := Gone(cache, left, b);
    LeftEntered(cache, left, invalid, b, rank, c);
    LeftAlike(cache, left, invalid, b, rank, c);
    AlikeLoss(cache, left - {c}, invalid, c, rank, maxSize);
    PassedOne(cache, gone, invalid, b, rank, maxSize, c, Num(was), Num(before));
    ToppedOne(cache, left - {c}, gone, invalid, c, Num(was), Num(before), now);
    AlikeFollows(cache, left - {c}, invalid, c, now);
    hide Left, Passed, Topped, Alike, MustLose, Follows, Tried, Gone;
  }

  /** A child that is lost was too old; so was a block lost after it. */
  lemma HalfwayLost(cache: set<Block>, left: set<Block>, invalid: set<BlockId>, b: Block, rank: Block -> nat,
      maxSize: nat, was: BlockId, now: BlockId, c: Block)
    requires Halfway(cache, left, invalid, b, rank, maxSize, was, now) && Next(left, b, rank, c) && b !in invalid
    requires Num(c) + maxSize <= Num(now) || MayLose(left - {c}, invalid, c, rank, maxSize)
    ensures MayLose(cache, invalid, b, rank, maxSize)
  {
    if Num(c) + maxSize <= Num(now) {
      TooOldOutgrown(cache, left, invalid, b, rank, maxSize, c, Num(was), Num(now));
    } else {
      LeftAlike(cache, left, invalid, b, rank, c);
      AlikeLoss(cache, left - {c}, invalid, c, rank, maxSize);
      LossBelow(cache, invalid, b, c, rank, maxSize);
    }
  }

  lemma HalfwayEnd(cache: set<Block>, left: set<Block>, invalid: set<BlockId>, b: Block, rank: Block -> nat,
      maxSize: nat, was: BlockId, now: BlockId)
    requires Halfway(cache, left, invalid, b, rank, maxSize, was, now) && forall c :: c in left ==> c.prev != b
    ensures left == cache - Tried(cache, invalid, b)
    ensures !MustLose(cache, invalid, b, rank, maxSize) && Raised(cache, invalid, b, was, now)
  {
    AllPassed(cache, left, invalid, b, rank, maxSize);
    if now != was {
      var c :| c in Gone(cache, left, b) && Follows(cache, invalid, c, now);
      FollowsOn(cache, invalid, b, c, now);
    }
    forall d | Follows(cache, invalid, b, d) ensures Num(d) <= Num(now) {
      if d != b {
        var c := FollowsChild(cache, invalid, b, d);
        assert c in Gone(cache, left, b);
      }
    }
  }
}
