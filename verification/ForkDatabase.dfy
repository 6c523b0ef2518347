/** The fork database: a tree of recent blocks, a cache of blocks whose parent is not
    known yet, and the head of the chain being followed. */
module ForkDatabase {
  import opened Common
  import opened BlockTree
  import opened Cascade
  import opened ForkState

  datatype Outcome = Done | Unlinkable | Refused

  datatype Step =
    | Start(b: Block)
    | Push(b: Block, rank: Block -> nat)
    | Pop
    | Switch(h: BlockId)
    | Resize(size: nat)
    | Invalidate(bad: BlockId)

  class Database {
    var index: Index
    var unlinked: set<Block>
    var head: Option<BlockId>
    var maxSize: nat
    var invalid: set<BlockId>

    ghost function Now(): Snapshot
      reads this
    {
      Snapshot(index, unlinked, head)
    }

    ghost predicate Valid()
      reads this
    {
      Sound(Now()) && Tree(index)
    }

    constructor ()
      ensures Valid() && Now() == Snapshot(map[], {}, None) && maxSize == 1024 && invalid == {}
    {
      index, unlinked, head, maxSize, invalid := map[], {}, None, 1024, {};
    }

    // ----- pushing

    /** Links a block into the index, then everything in the cache that it makes linkable. Children of
        one block come out of the cache in the order of `rank`; ties are open. Children that are too old
        by the time they are tried are lost. */
    method PushItem(b: Block, rank: Block -> nat,
        ghost exempt: set<BlockId>) returns (r: Outcome, ghost lost: set<Block>)
      requires Sound(Now())
      modifies this`index, this`unlinked, this`head
      ensures Sound(Now()) && Grown(old(Now()), Now(), {b} + (old(unlinked) - unlinked))
      ensures head == old(head) || (head.Some? && (old(head).None? || Num(head.value) > Num(old(head).value)))
      ensures old(Settled(Now(), exempt)) ==> Settled(Now(), exempt)
      ensures Kept(old(Now()), Now(), invalid, lost) && Lost(old(Now()), Now(), lost, maxSize)
      ensures b !in index ==> Now() == old(Now())
      ensures old(Tree(index)) && b in index && b !in old(index) ==> (Tree(index) <==> old(Anchored(Now(), b)))
      ensures old(Tree(index)) && b in old(index) ==> Tree(index)
      ensures Pushed(old(Now()), Now(), b, rank, r, lost)
      decreases unlinked, 1
    {
      hide Num, Grown, Kept, Lost, Settled, Sound, Tree, Follows, Tried, MayLose, MustLose, Raised, Pushed, Enters;
      lost := {};
      NothingGrown(Now(), {b} + (unlinked - unlinked), invalid, maxSize);
      PushedNot(Now(), b, rank);
      if head.Some? && Num(b) <= Threshold(head, maxSize) {
        return Unlinkable, {};
      }
      var linked := false;
      if head.Some? && b.prev != Zero {
        if b.prev !in index {
          return Unlinkable, {};
        }
        if b.prev in invalid {
          return Refused, {};
        }
        linked := true;
      }
      EnteredGrown(Now(), b, linked);
      EnteredHead(Now(), b, linked, maxSize);
      EnteredSettled(Now(), b, linked, exempt);
      if Tree(index) { EnteredTree(Now(), b); }
      Enter(b, linked);
      ghost var entered := Now();
      lost := PushNext(b, rank, exempt);
      r := Done;
      GrownTogether(old(Now()), entered, Now(), {b}, old(unlinked) - unlinked, {b} + (old(unlinked) - unlinked));
      GrownHead(old(Now()), Now(), {b} + (old(unlinked) - unlinked));
      if !Tree(entered.index) { StaysBroken(entered, Now(), old(unlinked) - unlinked); }
      NotLostSelf(entered, Now(), b, lost);
      EnteredKept(old(Now()), b, linked, Now(), old(unlinked) - unlinked, invalid, lost, maxSize);
      PushedThrough(old(Now()), linked, Now(), b, rank, lost);
    }

    method Enter(b: Block, linked: bool)
      modifies this`index, this`head
      ensures Now() == Entered(old(Now()), b, linked)
    {
      if b !in index {
        index := index[b := Item(b, linked)];
      }
      if head.None? || Num(b) > Num(head.value) {
        head := Some(b);
      }
    }

    /** Tries the cached children of a block that has just entered. One that is refused or too old is
        dropped, and its siblings are tried all the same. */
    method PushNext(b: Block, rank: Block -> nat, ghost exempt: set<BlockId>) returns (ghost lost: set<Block>)
      requires Sound(Now()) && b in index && head.Some? && Num(b) <= Num(head.value) <= Num(b) + maxSize
      modifies this`index, this`unlinked, this`head
      ensures Sound(Now()) && Grown(old(Now()), Now(), old(unlinked) - unlinked)
      ensures head == old(head) || (head.Some? && (old(head).None? || Num(head.value) > Num(old(head).value)))
      ensures old(Settled(Now(), exempt + {b})) ==> Settled(Now(), exempt)
      ensures Kept(old(Now()), Now(), invalid, lost) && Lost(old(Now()), Now(), lost, maxSize)
      ensures old(Tree(index)) ==> Tree(index)
      ensures old(unlinked) - Tried(old(unlinked), invalid, b) <= unlinked
      ensures lost != {} ==> MayLose(old(unlinked), invalid, b, rank, maxSize)
      ensures lost == {} ==>
        && !MustLose(old(unlinked), invalid, b, rank, maxSize)
        && unlinked == old(unlinked) - Tried(old(unlinked), invalid, b)
        && head.Some? && Raised(old(unlinked), invalid, b, old(head.value), head.value)
      decreases unlinked, 0
    {
      hide Num, Grown, Kept, Lost, Settled, Sound, Tree, Follows, Tried, MayLose, MustLose,
        Halfway, Raised, Next, Pushed;
      lost := {};
      NothingGrown(Now(), unlinked - unlinked, invalid, maxSize);
      HalfwayStart(unlinked, invalid, b, rank, maxSize, head.value);
      while exists c :: c in unlinked && c.prev == b
        invariant Sound(Now()) && b in index && head.Some? && unlinked <= old(unlinked)
        invariant old(Settled(Now(), exempt + {b})) ==> Settled(Now(), exempt + {b})
        invariant Grown(old(Now()), Now(), old(unlinked) - unlinked)
        invariant Kept(old(Now()), Now(), invalid, lost) && Lost(old(Now()), Now(), lost, maxSize)
        invariant old(Tree(index)) ==> Tree(index)
        invariant old(unlinked) - Tried(old(unlinked), invalid, b) <= unlinked
        invariant
          if lost == {} then Halfway(old(unlinked), unlinked, invalid, b, rank, maxSize, old(head.value), head.value)
          else MayLose(old(unlinked), invalid, b, rank, maxSize)
        decreases unlinked
      {
        ghost var child :| child in unlinked && child.prev == b;
        NextExists(unlinked, b, rank, child);
        var c :| c in unlinked && Next(unlinked, b, rank, c);
        NextIsChild(unlinked, b, rank, c);
        ghost var before := Now();
        ErasedGrown(before, c, exempt + {b});
        unlinked := unlinked - {c};
        ghost var erased := Now();
        var pushed;
        ghost var more;
        pushed, more := PushItem(c, rank, exempt + {b});
        PushedBelow(old(Now()), before, Now(), c, b);
        TriedStep(old(unlinked), before, Now(), c, b, rank, pushed, more);
        if lost == {} {
          HalfwayStep(old(unlinked), before, erased, Now(), c, b, rank, old(head.value), pushed, more);
        }
        LostBy(old(Now()), before, Now(), c, b, rank, lost, pushed, more);
        lost := lost + Dropped(c, pushed, more);
      }
      if lost == {} {
        HalfwayEnd(old(unlinked), unlinked, invalid, b, rank, maxSize, old(head.value), head.value);
      }
      GrownHead(old(Now()), Now(), old(unlinked) - unlinked);
      if Settled(Now(), exempt + {b}) { SettledWithout(Now(), exempt, b); }
    }

    /** What is lost when `c` is tried: the block itself if it is too old, or what was lost after it. */
    static ghost function Dropped(c: Block, pushed: Outcome, more: set<Block>): set<Block>
    {
      if pushed.Unlinkable? then more + {c} else more
    }

    /** How a push of `b` ends: exactly when it enters, whether cached blocks are lost and, if none is, what has
        left the cache and how far the head has risen. */
    ghost predicate Pushed(s: Snapshot, t: Snapshot, b: Block, rank: Block -> nat, r: Outcome, lost: set<Block>)
      reads this
    {
      if Enters(s, invalid, maxSize, b) then
        && r.Done? && b in t.index && s.unlinked - Tried(s.unlinked, invalid, b) <= t.unlinked
        && (lost != {} ==> MayLose(s.unlinked, invalid, b, rank, maxSize))
        && (lost == {} ==>
              && !MustLose(s.unlinked, invalid, b, rank, maxSize)
              && t.unlinked == s.unlinked - Tried(s.unlinked, invalid, b)
              && t.head.Some? && Raised(s.unlinked, invalid, b, if s.head.Some? then s.head.value else b, t.head.value))
      else
        && t == s && lost == {}
        && r == if Num(b) > Threshold(s.head, maxSize) && b.prev in s.index then Refused else Unlinkable
    }

    lemma PushedNot(s: Snapshot, b: Block, rank: Block -> nat)
      ensures s.head.Some? && Num(b) <= Threshold(s.head, maxSize) ==> Pushed(s, s, b, rank, Unlinkable, {})
      ensures s.head.Some? && b.prev != Zero && b.prev !in s.index ==> Pushed(s, s, b, rank, Unlinkable, {})
      ensures
        && s.head.Some? && Num(b) > Threshold(s.head, maxSize) && b.prev != Zero && b.prev in s.index
        && b.prev in invalid ==>
        Pushed(s, s, b, rank, Refused, {})
      ensures
        s.head.None?
        || (Num(b) > Threshold(s.head, maxSize) && (b.prev == Zero || (b.prev in s.index && b.prev !in invalid))) ==>
        Enters(s, invalid, maxSize, b)
    {
      hide Raised, MayLose, MustLose, Tried, Num;
    }

    lemma PushedThrough(s: Snapshot, linked: bool, t: Snapshot, b: Block, rank: Block -> nat, lost: set<Block>)
      requires Enters(s, invalid, maxSize, b) && b in t.index
      requires s.unlinked - Tried(s.unlinked, invalid, b) <= t.unlinked
      requires lost != {} ==> MayLose(s.unlinked, invalid, b, rank, maxSize)
      requires lost == {} ==>
        && !MustLose(s.unlinked, invalid, b, rank, maxSize)
        && t.unlinked == s.unlinked - Tried(s.unlinked, invalid, b)
        && t.head.Some? && Raised(s.unlinked, invalid, b, Entered(s, b, linked).head.value, t.head.value)
      ensures Pushed(s, t, b, rank, Done, lost)
    {
      hide Raised, MayLose, MustLose, Tried, Num;
      if lost == {} {
        RaisedAfter(s.unlinked, invalid, b, if s.head.Some? then s.head.value else b, Entered(s, b, linked).head.value,
            t.head.value);
      }
    }

    lemma NotLostSelf(s: Snapshot, t: Snapshot, b: Block, lost: set<Block>)
      requires Lost(s, t, lost, maxSize) && s.unlinked - Tried(s.unlinked, invalid, b) <= t.unlinked
      ensures b !in lost
    {
      hide Num, Follows, Tried;
      NotTriedSelf(s.unlinked, invalid, b);
    }

    /** Only blocks that were to be tried leave the cache. */
    lemma TriedStep(cache: set<Block>, before: Snapshot, after: Snapshot, c: Block, b: Block, rank: Block -> nat,
        pushed: Outcome, more: set<Block>)
      requires before.unlinked <= cache && c in before.unlinked && c.prev == b && b in before.index && before.head.Some?
      requires cache - Tried(cache, invalid, b) <= before.unlinked
      requires Pushed(before.(unlinked := before.unlinked - {c}), after, c, rank, pushed, more)
      ensures cache - Tried(cache, invalid, b) <= after.unlinked
    {
      hide Follows, Tried, MayLose, MustLose, Raised, Num;
      TriedBelow(cache, before.unlinked - {c}, invalid, b, c);
    }

    lemma HalfwayStep(cache: set<Block>, before: Snapshot, erased: Snapshot, after: Snapshot, c: Block, b: Block,
        rank: Block -> nat, was: BlockId, pushed: Outcome, more: set<Block>)
      requires before.head.Some? && after.head.Some? && b in before.index
      requires Halfway(cache, before.unlinked, invalid, b, rank, maxSize, was, before.head.value)
      requires Next(before.unlinked, b, rank, c) && erased == before.(unlinked := before.unlinked - {c})
      requires Pushed(erased, after, c, rank, pushed, more)
      ensures
        if Dropped(c, pushed, more) == {} then
          Halfway(cache, after.unlinked, invalid, b, rank, maxSize, was, after.head.value)
        else MayLose(cache, invalid, b, rank, maxSize)
    {
      hide Halfway, MayLose, MustLose, Tried, Raised, Follows;
      var now := before.head.value;
      assert Num(c) == Num(b) + 1;
      assert pushed.Unlinkable? ==> c in Dropped(c, pushed, more);
      if b in invalid {
        HalfwayRefused(cache, before.unlinked, invalid, b, rank, maxSize, was, now, c);
      } else if pushed.Unlinkable? || more != {} {
        HalfwayLost(cache, before.unlinked, invalid, b, rank, maxSize, was, now, c);
      } else {
        HalfwayEntered(cache, before.unlinked, invalid, b, rank, maxSize, was, now, after.head.value, c);
      }
    }

    /** The cache and what is lost, after `c` has been tried. */
    lemma LostBy(s: Snapshot, before: Snapshot, after: Snapshot, c: Block, b: Block, rank: Block -> nat,
        lost: set<Block>, pushed: Outcome, more: set<Block>)
      requires c in before.unlinked && c.prev == b && b in before.index && before.head.Some?
      requires Grown(s, before, s.unlinked - before.unlinked) && Grown(s, before, s.unlinked)
      requires Kept(s, before, invalid, lost) && Lost(s, before, lost, maxSize)
      requires var erased := before.(unlinked := before.unlinked - {c});
        && Grown(erased, after, {c} + (erased.unlinked - after.unlinked)) && Grown(erased, after, before.unlinked)
        && Kept(erased, after, invalid, more) && Lost(erased, after, more, maxSize)
        && Pushed(erased, after, c, rank, pushed, more)
      ensures var all := lost + Dropped(c, pushed, more); Kept(s, after, invalid, all) && Lost(s, after, all, maxSize)
    {
      hide Grown, Lost, Kept, Num, MayLose, MustLose, Tried, Raised;
      assert c.prev in invalid || c in after.index || pushed.Unlinkable?;
      if pushed.Unlinkable? {
        KeptUnder(before.(unlinked := before.unlinked - {c}), after, invalid, more, {c});
        LostNow(s, before, c, lost, maxSize);
      } else {
        LostStep(s, before, after, c, lost, more, maxSize);
      }
      assert lost + Dropped(c, pushed, more) == if pushed.Unlinkable? then lost + {c} else lost + more;
      KeptStep(s, before, after, c, invalid, lost, Dropped(c, pushed, more));
    }

    /** Pushes a block; one that does not link is cached for later. A push ends normally exactly if its block
        enters. Cached blocks are lost exactly if one is outgrown by a sibling that comes before it. */
    method PushBlock(b: Block, rank: Block -> nat) returns (r: Outcome, ghost lost: set<Block>)
      requires Valid()
      modifies this`index, this`unlinked, this`head
      ensures Sound(Now()) && Grown(old(Now()), Now().(unlinked := unlinked - {b}), {b} + old(unlinked))
      ensures head == old(head) || (head.Some? && (old(head).None? || Num(head.value) > Num(old(head).value)))
      ensures Tree(index) <==> b !in index || old(Anchored(Now(), b))
      ensures r.Done? <==> old(Enters(Now(), invalid, maxSize, b))
      ensures r.Done? <==>
        old(head).None?
        || (Num(old(head).value) < Num(b) + maxSize
            && (b.prev == Zero || (b.prev in old(index) && b.prev !in invalid)))
      ensures r.Done? ==> b in index
      ensures !r.Done? ==>
        && r == (if Num(b) > Threshold(old(head), maxSize) && b.prev in old(index) then Refused else Unlinkable)
        && Now() == old(Now()).(unlinked := old(unlinked) + if r.Refused? then {} else {b})
      ensures old(Settled(Now(), {})) ==>
        (Settled(Now(), {}) <==> !(old(head).Some? && Num(b) <= Threshold(old(head), maxSize) && b.prev in old(index)))
      ensures Kept(old(Now()), Now(), invalid, lost) && Lost(old(Now()), Now(), lost, maxSize)
      ensures r.Done? ==> old(unlinked) - Tried(old(unlinked), invalid, b) <= unlinked
      ensures r.Done? && MustLose(old(unlinked), invalid, b, rank, maxSize) ==> lost != {}
      ensures lost != {} ==> r.Done? && MayLose(old(unlinked), invalid, b, rank, maxSize)
      ensures
        && r.Done?
        && (forall x, y :: x in old(unlinked) && y in old(unlinked) && x != y ==> rank(x) != rank(y)) ==>
        (lost != {} <==> MayLose(old(unlinked), invalid, b, rank, maxSize))
      ensures (forall c :: c in old(unlinked) ==> Num(c) <= Num(b) + maxSize) ==> lost == {}
      ensures r.Done? && lost == {} ==>
        && unlinked == old(unlinked) - Tried(old(unlinked), invalid, b)
        && Raised(old(unlinked), invalid, b, if old(head).Some? then old(head).value else b, head.value)
    {
      hide Num, Grown, Kept, Lost, Tree, Sound, Enters, MayLose, MustLose, Tried, Raised, Follows;
      r, lost := PushItem(b, rank, {});
      ghost var pushed := Now();
      if r.Unlinkable? {
        unlinked := unlinked + {b};
      }
      CachedGrown(old(Now()), pushed, Now(), b);
      GrownHead(old(Now()), Now().(unlinked := unlinked - {b}), {b} + old(unlinked));
      CachedKept(old(Now()), pushed, Now(), b, invalid, lost, maxSize);
      LossExact(old(unlinked), invalid, b, rank, maxSize);
      if forall c :: c in old(unlinked) ==> Num(c) <= Num(b) + maxSize {
        LowCacheLosesNone(old(unlinked), invalid, b, rank, maxSize);
      }
      EntersWhen(old(Now()), invalid, maxSize, b);
      EntersExactly(old(Now()), invalid, maxSize, b);
    }

    /** A block whose parent is not there only goes into the cache. */
    method PushOrphan(b: Block, rank: Block -> nat)
      requires Valid() && head.Some? && b.prev != Zero && b.prev !in index
      modifies this`index, this`unlinked, this`head
      ensures Valid() && Now() == old(Now()).(unlinked := old(unlinked) + {b})
    {
      hide Num, Grown, Kept, Lost, Tree, MayLose, MustLose, Tried, Follows, Settled;
      var _, _ := PushBlock(b, rank);
    }

    /** With nothing cached, a block on top of the head becomes the head. */
    method PushTip(b: Block, rank: Block -> nat)
      requires Valid() && unlinked == {} && head == Some(b.prev) && b.prev !in invalid && maxSize > 0
      modifies this`index, this`unlinked, this`head
      ensures Valid() && unlinked == {} && head == Some(b) && index.Keys == old(index).Keys + {b}
    {
      hide Tree, Kept, Lost, MayLose, MustLose, Tried, Follows, Settled, Raised;
      TipEnters(Now(), invalid, maxSize, b);
      var _, lost := PushBlock(b, rank);
      TipRaised(invalid, b, old(head.value), head.value);
    }

    method StartBlock(b: Block)
      requires Valid() && head.None?
      modifies this`index, this`head
      ensures Valid() && index == map[b := Item(b, false)] && head == Some(b)
    {
      index := index[b := Item(b, false)];
      head := Some(b);
      OneBlockTree(b);
    }

    /** Steps back to the parent of the head. */
    method PopBlock() returns (ok: bool)
      requires Valid()
      modifies this`head
      ensures Valid()
      ensures ok <==> old(head).Some? && index[old(head).value].linked
      ensures head == if ok then Some(old(head).value.prev) else old(head)
    {
      if head.None? || !index[head.value].linked {
        return false;
      }
      head := Some(head.value.prev);
      return true;
    }

    method SetHead(h: BlockId)
      requires Valid() && h in index
      modifies this`head
      ensures Valid() && head == Some(h)
    {
      head := Some(h);
    }

    method MarkInvalid(b: BlockId)
      requires Valid()
      modifies this`invalid
      ensures Valid() && invalid == old(invalid) + {b}
    {
      invalid := invalid + {b};
    }

    /** Drops everything too far below the head; pointers to dropped parents go dead. */
    method SetMaxSize(size: nat)
      requires Valid() && size > 0
      modifies this`maxSize, this`index, this`unlinked
      ensures Valid() && maxSize == size
      ensures head.None? ==> index == old(index) && unlinked == old(unlinked)
      ensures head.Some? ==>
        index.Keys == Above(old(index).Keys, Threshold(head, size))
        && unlinked == Above(old(unlinked), Threshold(head, size))
      ensures head.Some? ==> forall k ::
        && (k in index <==> k in old(index) && Num(head.value) < Num(k) + size)
        && (k in unlinked <==> k in old(unlinked) && Num(head.value) < Num(k) + size)
      ensures old(Settled(Now(), {})) ==> Settled(Now(), {})
    {
      hide Num, Tree, Shaped;
      maxSize := size;
      if head.None? {
        return;
      }
      var low := Threshold(head, size);
      WeakPointers(index);
      while exists k :: k in index && Num(k) <= low
        invariant
          && maxSize == size && unlinked == old(unlinked) && index.Keys <= old(index).Keys
          && forall k :: k in old(index) && low < Num(k) ==> k in index
        invariant forall k :: k in index ==> k.Hash? && index[k] == Item(k, old(index)[k].linked && k.prev in index)
        decreases index.Keys
      {
        var gone :| gone in index && Num(gone) <= low;
        ghost var keys := index.Keys;
        index := map k | k in index && k != gone :: Item(k, index[k].linked && k.prev != gone);
        assert index.Keys == keys - {gone};
      }
      ghost var trimmed := index;
      while exists c :: c in unlinked && Num(c) <= low
        invariant
          && maxSize == size && index == trimmed && unlinked <= old(unlinked)
          && forall c :: c in old(unlinked) && low < Num(c) ==> c in unlinked
        decreases unlinked
      {
        var gone :| gone in unlinked && Num(gone) <= low;
        unlinked := unlinked - {gone};
      }
      assert index.Keys == Above(old(index).Keys, low);
      assert unlinked == Above(old(unlinked), low);
      TrimmedTree(old(index), index, low);
      HeadAbove(head.value, size);
      BlocksAbove(old(index), old(unlinked), head.value, size);
    }

    // ----- queries

    method OldestBlockNum() returns (low: nat)
      requires Valid() && head.Some?
      ensures Lowest(index, low)
    {
      hide Num;
      low := Num(head.value);
      var rest := index.Keys;
      while rest != {}
        invariant rest <= index.Keys && exists k :: k in index && Num(k) == low
        invariant forall k :: k in index && k !in rest ==> low <= Num(k)
        decreases rest
      {
        var k :| k in rest;
        rest := rest - {k};
        if Num(k) < low {
          low := Num(k);
        }
      }
    }

    /** Walks parent pointers from the head. */
    method WalkMainBranchToNum(n: nat) returns (r: Option<BlockId>)
      requires Valid() && head.Some?
      ensures r == MainAt(index, head.value, n)
    {
      hide Num, Tree, Shaped, Ancestor;
      var h := head.value;
      if n > Num(h) {
        return None;
      }
      var next := h;
      assert Ancestor(h, 0) == h by { AncestorZero(h); }
      while Num(next) > n
        invariant n <= Num(next) <= Num(h) && next in index && next == AtHeight(h, Num(next))
        decreases Num(next)
      {
        StepDown(index, h, next, n);
        if !index[next].linked {
          return None;
        }
        next := next.prev;
      }
      return Some(next);
    }

    /** Takes a shortcut when only one block has the wanted number. */
    method FetchBlockOnMainBranchByNumber(n: nat) returns (r: Option<BlockId>)
      requires Valid()
      ensures r == if head.None? then None else MainAt(index, head.value, n)
    {
      hide Num, Tree, Shaped, Ancestor;
      if head.None? || n > Num(head.value) {
        return None;
      }
      ghost var low := LowestExists(index);
      var candidates := set k | k in index && Num(k) == n;
      OnlyCandidate(index, head.value, low, n);
      AncestorNum(head.value, Num(head.value) - n);
      if |candidates| == 1 {
        var only :| only in candidates;
        assert AtHeight(head.value, n) in candidates;
        Singleton(candidates, only);
        return Some(only);
      }
      if |candidates| == 0 {
        assert AtHeight(head.value, n) !in candidates;
        return None;
      }
      r := WalkMainBranchToNum(n);
    }

    /** The two branches down to the most recent common ancestor. It fails exactly when a block is
        unknown or the chains do not meet at or just below the lowest height kept. */
    method FetchBranchFrom(first: BlockId, second: BlockId,
        ghost low: nat) returns (r: Option<(seq<BlockId>, seq<BlockId>)>)
      requires Valid() && (index != map[] ==> Lowest(index, low))
      ensures r.Some? ==> first in index && second in index && Parted(first, second, r.value.0, r.value.1)
      ensures r.Some? <==> first in index && second in index && Meet(first, second, low)
    {
      hide Num, Tree, Shaped, Ancestor, Lowest;
      if first !in index || second !in index {
        return None;
      }
      StartDescent(first);
      StartDescent(second);
      var a, b := first, second;
      var fromA, fromB: seq<BlockId> := [], [];
      while Num(a) > Num(b)
        invariant b == second && a in index && Descended(first, a, fromA) && (a == first || Num(second) <= Num(a))
        decreases Num(a)
      {
        Descend(index, first, a, fromA, b);
        fromA := fromA + [a];
        assert index[a].linked;
        a := a.prev;
      }
      while Num(b) > Num(a)
        invariant b in index && Descended(second, b, fromB) && Num(a) <= Num(b)
        invariant Num(first) <= Num(a) || Num(second) <= Num(a)
        decreases Num(b)
      {
        Descend(index, second, b, fromB, a);
        fromB := fromB + [b];
        assert index[b].linked;
        b := b.prev;
      }
      KeptIsBlock(index, a);
      KeptIsBlock(index, b);
      while a.prev != b.prev
        invariant a in index && b in index && a.Hash? && b.Hash? && Num(a) == Num(b)
        invariant Descended(first, a, fromA) && Descended(second, b, fromB) && DifferAbove(first, second, Num(a))
        decreases Num(a)
      {
        DescendBoth(index, first, second, a, b, fromA, fromB, low);
        fromA, fromB := fromA + [a], fromB + [b];
        if !index[a].linked || !index[b].linked {
          return None;
        }
        a, b := a.prev, b.prev;
        KeptIsBlock(index, a);
        KeptIsBlock(index, b);
      }
      DescentEnds(index, first, second, a, b, fromA, fromB, low);
      if a != b {
        fromA, fromB := fromA + [a], fromB + [b];
      }
      return Some((fromA, fromB));
    }

    /** Ids of blocks at ever closer heights from the lowest height up to the reference block.
        `after` blocks above the reference will be appended by the caller. */
    method GetBlockchainSynopsis(reference: BlockId, after: nat)
      returns (synopsis: seq<BlockId>, needed: Option<nat>, ok: bool, ghost oldest: nat)
      requires Valid()
      ensures head.None? ==> ok && synopsis == [] && needed == None
      ensures head.Some? ==> Lowest(index, oldest)
      ensures head.Some? ==>
        var ref, low := if reference == Zero then head.value else reference, oldest;
        && (Num(ref) < low ==> ok && synopsis == [] && needed == Some(Num(ref)))
        && (low <= Num(ref) ==> needed == None && (ok <==> ref in index))
        && (ref in index ==> synopsis == BlocksAt(ref, Heights(low, Num(ref), Num(ref) + after)))
    {
      hide Num, Tree, Shaped, Ancestor, Lowest, BlocksAt;
      synopsis, needed, ok, oldest := [], None, true, 0;
      if head.None? {
        return;
      }
      var low := OldestBlockNum();
      oldest := low;
      var ref := if reference == Zero then head.value else reference;
      if Num(ref) < low {
        needed := Some(Num(ref));
        NotBelow(index, ref, low);
        return;
      }
      if ref !in index {
        ok := false;
        return;
      }
      AboveLow(index, ref, low);
      var branch := BranchDown(ref, low);
      synopsis := EverCloser(branch, ref, low, Num(ref) + after);
    }

    /** The blocks from the reference down to the lowest height, along the links. */
    method BranchDown(ref: BlockId, ghost low: nat) returns (branch: seq<BlockId>)
      requires Valid() && ref in index && Lowest(index, low) && 1 <= low <= Num(ref)
      ensures branch == Branch(ref, Num(ref) - low + 1)
    {
      hide Num, Tree, Shaped, Ancestor, Lowest;
      branch := [];
      var next := Some(ref);
      StartDescent(ref);
      while next.Some?
        invariant next.Some? ==> next.value in index && Descended(ref, next.value, branch)
        invariant next.None? ==> branch == Branch(ref, Num(ref) - low + 1)
        decreases next.Some?, if next.Some? then Num(next.value) else 0
      {
        var at := next.value;
        AboveLow(index, at, low);
        PointerIn(index, at);
        DescentStep(ref, at, branch);
        EndsAtLow(index, at, low);
        branch := branch + [at];
        next := if index[at].linked then Some(at.prev) else None;
      }
    }

    /** Blocks of a branch at ever closer heights. */
    static method EverCloser(branch: seq<BlockId>, ref: BlockId, low: nat, high: nat) returns (synopsis: seq<BlockId>)
      requires 1 <= low <= Num(ref) <= high && branch == Branch(ref, Num(ref) - low + 1)
      ensures synopsis == BlocksAt(ref, Heights(low, Num(ref), high))
    {
      hide Num, Ancestor, BlocksAt, Heights;
      synopsis := [];
      var height := low;
      ghost var all := Heights(low, Num(ref), high);
      while true
        invariant low <= height <= Num(ref)
        invariant synopsis + BlocksAt(ref, Heights(height, Num(ref), high)) == BlocksAt(ref, all)
        decreases Num(ref) - height
      {
        BlocksAtFirst(ref, height, high);
        BranchAt(ref, low, height);
        synopsis := synopsis + [branch[|branch| - (height - low) - 1]];
        height := height + (high - height + 2) / 2;
        if height > Num(ref) {
          BlocksAtNone(ref);
          break;
        }
      }
    }

    // ----- runs

    /** Steps outside the protocol change nothing: a second start, a push of a block without a
        parent, a switch to an unknown block, a size of zero. */
    method Apply(step: Step)
      requires Valid()
      modifies this
      ensures Valid()
    {
      hide Tree, Num, Grown, Kept;
      match step {
        case Start(b) => if head.None? { StartBlock(b); }
        case Push(b, rank) => if b.prev != Zero { var _, _ := PushBlock(b, rank); }
        case Pop => var _ := PopBlock();
        case Switch(h) => if h in index { SetHead(h); }
        case Resize(size) => if size > 0 { SetMaxSize(size); }
        case Invalidate(bad) => MarkInvalid(bad);
      }
    }

    /** Blocks pushed one after another. The head stays until a strictly higher block takes its place; of blocks of
        one height the first to become the head is kept, and no block that enters is higher than the head. */
    method PushAll(bs: seq<Block>, rank: Block -> nat)
      requires Valid() && forall i :: 0 <= i < |bs| ==> bs[i].prev != Zero
      modifies this`index, this`unlinked, this`head
      ensures Valid()
      ensures head == old(head) || (head.Some? && (old(head).None? || Num(head.value) > Num(old(head).value)))
      ensures head == old(head) || (head.Some? && (head.value in bs || head.value in old(unlinked)))
      ensures forall k :: k in index && k !in old(index) ==> head.Some? && Num(k) <= Num(head.value)
    {
      hide Tree, Num, Sound, Grown, Kept, Lost, Settled, Enters, MayLose, MustLose, Tried, Raised, Follows;
      ghost var sources := old(unlinked) + set j | 0 <= j < |bs| :: bs[j];
      PushingStarts(Now(), sources);
      for i := 0 to |bs|
        invariant Valid() && unlinked <= sources && Grown(old(Now()), Now().(unlinked := {}), sources)
      {
        ghost var before := Now();
        var _, _ := PushBlock(bs[i], rank);
        PushingGoesOn(old(Now()), before, Now(), bs[i], sources);
      }
      GrownHead(old(Now()), Now().(unlinked := {}), sources);
      GrownBelow(old(Now()), Now().(unlinked := {}), sources);
    }

    /** After every run, every block above the lowest height has its parent in the index. */
    method Run(steps: seq<Step>)
      requires Valid()
      modifies this
      ensures Valid()
      ensures forall k, j :: k in index && j in index && Num(j) < Num(k) ==>
        k.Hash? && k.prev in index && index[k].linked
    {
      for i := 0 to |steps|
        invariant Valid()
      {
        Apply(steps[i]);
      }
    }
  }

  /** A database of one first block and a size of one. */
  method Small() returns (db: Database)
    ensures fresh(db) && db.Valid() && db.maxSize == 1 && db.invalid == {}
    ensures var first := Hash(Zero, 0); db.index.Keys == {first} && db.head == Some(first) && db.unlinked == {}
  {
    hide Tree;
    var first := Hash(Zero, 0);
    db := new Database();
    db.StartBlock(first);
    db.SetMaxSize(1);
    assert db.index.Keys == {first};
  }

  /** Two branches of two blocks arrive before the block they grow from. */
  method TwoBranches(rank: Block -> nat) returns (db: Database)
    ensures fresh(db) && db.Valid() && db.maxSize == 1 && db.invalid == {}
    ensures var first := Hash(Zero, 0);
      var c, d := Hash(Hash(first, 0), 0), Hash(Hash(first, 0), 1);
      db.index.Keys == {first} && db.head == Some(first) && db.unlinked == {c, Hash(c, 0), d, Hash(d, 0)}
  {
    hide Tree, Sound, Num;
    var first := Hash(Zero, 0);
    var c, d := Hash(Hash(first, 0), 0), Hash(Hash(first, 0), 1);
    db := Small();
    db.PushOrphan(c, rank);
    db.PushOrphan(Hash(c, 0), rank);
    db.PushOrphan(d, rank);
    db.PushOrphan(Hash(d, 0), rank);
  }

  /** Of such branches only a first block can be lost: the second ones are never too old. */
  lemma FirstsLost(s: Snapshot, t: Snapshot, lost: set<Block>, x: Block)
    requires var first := Hash(Zero, 0);
      var b := Hash(first, 0);
      var c, d := Hash(b, 0), Hash(b, 1);
      && s.index.Keys == {first} && s.head == Some(first) && s.unlinked == {c, Hash(c, 0), d, Hash(d, 0)}
      && Grown(s, t.(unlinked := t.unlinked - {b}), {b} + s.unlinked) && Lost(s, t, lost, 1) && x in lost
    ensures var b := Hash(Hash(Zero, 0), 0); x in {Hash(b, 0), Hash(b, 1)} && x !in t.index && x !in t.unlinked
  {
    var b := Hash(Hash(Zero, 0), 0);
    var c, d := Hash(b, 0), Hash(b, 1);
    assert Num(c) == 3 && Num(d) == 3;
    assert Num(Hash(c, 0)) == 4 && Num(Hash(d, 0)) == 4;
    hide Num;
  }

  /** The block they grow from enters then, but of one of the branches the first block is lost, whatever the order. */
  method LostBranch(rank: Block -> nat) returns (db: Database, ghost lost: Block)
    ensures fresh(db) && db.Valid() && Settled(db.Now(), {})
    ensures var b := Hash(Hash(Zero, 0), 0);
      b in db.index && lost in {Hash(b, 0), Hash(b, 1)} && lost !in db.index && lost !in db.unlinked
  {
    hide Tree, Grown, Kept, Lost, MayLose, MustLose, Follows, Tried, Raised;
    db := TwoBranches(rank);
    TwoBranchesLose(rank);
    ghost var before := db.Now();
    var r;
    ghost var all;
    r, all := db.PushBlock(Hash(Hash(Zero, 0), 0), rank);
    lost :| lost in all;
    FirstsLost(before, db.Now(), all, lost);
  }

  /** A block that is too old is cached although its parent is linked. */
  method OldCached(rank: Block -> nat) returns (db: Database, r: Outcome)
    ensures fresh(db) && db.Valid() && r.Unlinkable? && !Settled(db.Now(), {})
  {
    hide Tree, Grown, Kept, Lost, MayLose, MustLose, Follows, Tried, Raised;
    db := Small();
    var first := Hash(Zero, 0);
    db.PushTip(Hash(first, 0), rank);
    db.PushTip(Hash(Hash(first, 0), 0), rank);
    ghost var lost;
    r, lost := db.PushBlock(Hash(first, 1), rank);
  }
}
