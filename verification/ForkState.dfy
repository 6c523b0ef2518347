/** States of the fork database, and what its operations do to them. */
module ForkState {
  import opened Common
  import opened BlockTree

  datatype Snapshot = Snapshot(index: Index, unlinked: set<Block>, head: Option<BlockId>)

  /** The head is a block of the index. */
  ghost predicate Sound(s: Snapshot)
  {
    Shaped(s.index) && if s.head.None? then s.index == map[] else s.head.value in s.index
  }

  /** What pushing changes: blocks only enter the index, and only from `sources`; the head stays, unless a
      strictly higher block takes its place. */
  ghost predicate Grown(s: Snapshot, t: Snapshot, sources: set<Block>)
  {
    && t.unlinked <= s.unlinked
    && (forall k :: k in s.index ==> k in t.index && t.index[k] == s.index[k])
    && (forall k :: k in t.index && k !in s.index ==> k in sources && t.head.Some? && Num(k) <= Num(t.head.value))
    && (t.head == s.head
        || (t.head.Some? && t.head.value in sources && (s.head.Some? ==> Num(s.head.value) < Num(t.head.value))))
  }

  /** Among blocks of one height the first to be the head stays. */
  lemma GrownHead(s: Snapshot, t: Snapshot, sources: set<Block>)
    requires Grown(s, t, sources)
    ensures t.head == s.head
      || (t.head.Some? && t.head.value in sources && (s.head.None? || Num(s.head.value) < Num(t.head.value)))
  {
    hide Num;
  }

  lemma GrownBelow(s: Snapshot, t: Snapshot, sources: set<Block>)
    requires Grown(s, t, sources)
    ensures forall k :: k in t.index && k !in s.index ==> t.head.Some? && Num(k) <= Num(t.head.value)
  {
    hide Num;
  }

  lemma PushingStarts(s: Snapshot, sources: set<Block>)
    ensures Grown(s, s.(unlinked := {}), sources)
  {
    hide Num;
  }

  lemma PushingGoesOn(s: Snapshot, t: Snapshot, u: Snapshot, b: Block, sources: set<Block>)
    requires Grown(s, t.(unlinked := {}), sources) && t.unlinked <= sources && b in sources
    requires Grown(t, u.(unlinked := u.unlinked - {b}), {b} + t.unlinked)
    ensures u.unlinked <= sources && Grown(s, u.(unlinked := {}), sources)
  {
    hide Num;
  }

  /** Cached blocks are kept or enter the index, unless they are lost or their parent is known to be invalid. */
  ghost predicate Kept(s: Snapshot, t: Snapshot, invalid: set<BlockId>, lost: set<Block>)
  {
    forall c :: c in s.unlinked && c !in t.unlinked ==> c in t.index || c.prev in invalid || c in lost
  }

  /** Lost blocks have left the cache without entering, because they are too old for the head. */
  ghost predicate Lost(s: Snapshot, t: Snapshot, lost: set<Block>, maxSize: nat)
  {
    forall x :: x in lost ==>
      && x in s.unlinked && x !in t.unlinked && (x in t.index ==> x in s.index)
      && t.head.Some? && Num(x) <= Threshold(t.head, maxSize)
  }

  /** No cached block waits for a parent that is already in the index, except below `exempt`. */
  ghost predicate Settled(s: Snapshot, exempt: set<BlockId>)
  {
    forall c :: c in s.unlinked && c.prev in s.index ==> c.prev in exempt
  }

  /** A block that may enter without breaking the tree: one with a parent, or a first block
      in a database that reaches down to first blocks. */
  ghost predicate Anchored(s: Snapshot, b: Block)
  {
    b.prev != Zero || s.head.None? || b in s.index || exists k :: k in s.index && Num(k) == 1
  }

  function Threshold(head: Option<BlockId>, maxSize: nat): nat
  {
    if head.None? || Num(head.value) <= maxSize then 0 else Num(head.value) - maxSize
  }

  /** The block passes every test on entering: it is not too old, and its parent is known and valid. */
  ghost predicate Enters(s: Snapshot, invalid: set<BlockId>, maxSize: nat, b: Block)
  {
    s.head.None?
    || (Num(b) > Threshold(s.head, maxSize) && (b.prev == Zero || (b.prev in s.index && b.prev !in invalid)))
  }

  lemma EnteredHead(s: Snapshot, b: Block, linked: bool, maxSize: nat)
    requires s.head.None? || Num(b) > Threshold(s.head, maxSize)
    ensures var h := Entered(s, b, linked).head; h.Some? && Num(b) <= Num(h.value) <= Num(b) + maxSize
  {
  }

  /** The state right after a block enters. */
  ghost function Entered(s: Snapshot, b: Block, linked: bool): Snapshot
  {
    Snapshot(
      if b in s.index then s.index else s.index[b := Item(b, linked)],
      s.unlinked,
      if s.head.None? || Num(b) > Num(s.head.value) then Some(b) else s.head)
  }

  lemma EnteredGrown(s: Snapshot, b: Block, linked: bool)
    requires Sound(s) && (linked ==> b.prev in s.index)
    ensures Sound(Entered(s, b, linked)) && Grown(s, Entered(s, b, linked), {b}) && b in Entered(s, b, linked).index
    ensures Kept(s, Entered(s, b, linked), {}, {})
  {
    hide Num;
  }

  lemma EnteredSettled(s: Snapshot, b: Block, linked: bool, exempt: set<BlockId>)
    ensures Settled(s, exempt) ==> Settled(Entered(s, b, linked), exempt + {b})
  {
    hide Num;
  }

  lemma EnteredKept(s: Snapshot, b: Block, linked: bool, t: Snapshot, sources: set<Block>, invalid: set<BlockId>,
      lost: set<Block>, maxSize: nat)
    requires Grown(Entered(s, b, linked), t, sources) && b !in lost
    ensures b in t.index && (Kept(Entered(s, b, linked), t, invalid, lost) ==> Kept(s, t, invalid, lost))
    ensures Lost(Entered(s, b, linked), t, lost, maxSize) ==> Lost(s, t, lost, maxSize)
  {
    hide Num;
  }

  lemma StaysIn(s: Snapshot, t: Snapshot, sources: set<Block>, k: BlockId)
    requires Grown(s, t, sources) && k in s.index
    ensures k in t.index
  {
  }

  lemma LinkedStaysTree(index: Index, b: Block)
    requires Tree(index) && b.prev in index
    ensures Tree(index[b := Item(b, true)])
  {
    assert Num(b) == Num(b.prev) + 1;
    hide Num;
    var t := index[b := Item(b, true)];
    forall k, j | k in t && j in t && Num(j) < Num(k) ensures t[k].linked {
      if j == b && k != b { assert Num(b.prev) < Num(k); }
    }
  }

  lemma FirstStaysTree(index: Index, b: Block, f: BlockId)
    requires Tree(index) && b.prev == Zero && f in index && Num(f) == 1 && b !in index
    ensures Tree(index[b := Item(b, false)])
  {
    hide Num;
    FirstNum(b);
    AllPositive(index);
    var t := index[b := Item(b, false)];
    assert Shaped(t);
    forall k, j | k in t && j in t && Num(j) < Num(k) ensures t[k].linked {
      FirstKeeps(index, f, k);
    }
  }

  lemma FirstKeeps(index: Index, f: BlockId, k: BlockId)
    requires Tree(index) && f in index && Num(f) == 1
    ensures k in index && Num(k) > 1 ==> index[k].linked
  {
  }

  lemma FirstBreaksTree(index: Index, b: Block)
    requires Tree(index) && index != map[] && b.prev == Zero && b !in index && forall k :: k in index ==> Num(k) != 1
    ensures !Tree(index[b := Item(b, false)])
  {
    assert Num(b) == 1;
    var low := LowestExists(index);
    var k :| k in index && Num(k) == low;
    NumPositive(k);
    var p := k.prev;
    assert Num(p) < low;
    hide Num;
    assert p !in index;
    var t := index[b := Item(b, false)];
    assert k in t && b in t && Num(b) < Num(k) && !t[k].linked;
  }

  /** Entering keeps the tree exactly when the block is anchored. */
  lemma EnteredTree(s: Snapshot, b: Block)
    requires Sound(s) && Tree(s.index) && (s.head.None? || b.prev == Zero || b.prev in s.index)
    ensures Tree(Entered(s, b, s.head.Some? && b.prev != Zero).index) <==> Anchored(s, b)
  {
    hide Tree, Num, Shaped;
    if s.head.None? {
      assert s.index[b := Item(b, false)] == map[b := Item(b, false)];
      OneBlockTree(b);
    } else if b !in s.index {
      if b.prev != Zero {
        LinkedStaysTree(s.index, b);
      } else if f :| f in s.index && Num(f) == 1 {
        FirstStaysTree(s.index, b, f);
      } else {
        FirstBreaksTree(s.index, b);
      }
    }
  }

  lemma OneBlockTree(b: Block)
    ensures Tree(map[b := Item(b, false)])
  {
  }

  /** For example, a database started at height two that takes in a first block is no tree any more. */
  lemma BrokenByFirst()
    ensures var start, first := Hash(Hash(Zero, 0), 0), Hash(Zero, 1);
      var index := map[start := Item(start, false)];
      Tree(index) && !Tree(index[first := Item(first, false)])
  {
    var start, first := Hash(Hash(Zero, 0), 0), Hash(Zero, 1);
    OneBlockTree(start);
    assert Num(start) == 2;
    FirstBreaksTree(map[start := Item(start, false)], first);
  }

  lemma FirstNum(b: Block)
    requires b.prev == Zero
    ensures Num(b) == 1
  {
  }

  lemma AllPositive(index: Index)
    requires Shaped(index)
    ensures forall k :: k in index ==> Num(k) >= 1
  {
  }

  lemma NumPositive(b: BlockId)
    ensures b.Hash? ==> Num(b) >= 1
  {
  }

  lemma GrownTogether(s: Snapshot, t: Snapshot, u: Snapshot, a: set<Block>, b: set<Block>, all: set<Block>)
    requires Grown(s, t, a) && Grown(t, u, b) && a <= all && b <= all
    ensures Grown(s, u, all)
  {
    hide Num;
  }

  lemma KeptStep(s: Snapshot, before: Snapshot, after: Snapshot, c: Block, invalid: set<BlockId>, lost: set<Block>,
      more: set<Block>)
    requires Kept(s, before, invalid, lost) && Grown(s, before, s.unlinked)
    requires Kept(before.(unlinked := before.unlinked - {c}), after, invalid, more)
    requires Grown(before.(unlinked := before.unlinked - {c}), after, before.unlinked)
    requires c in after.index || c.prev in invalid || c in more
    ensures Kept(s, after, invalid, lost + more)
  {
    hide Num;
  }

  lemma NothingGrown(s: Snapshot, sources: set<Block>, invalid: set<BlockId>, maxSize: nat)
    requires Sound(s)
    ensures Grown(s, s, sources) && Kept(s, s, invalid, {}) && Lost(s, s, {}, maxSize)
  {
  }

  lemma PushedBelow(s: Snapshot, before: Snapshot, after: Snapshot, c: Block, b: Block)
    requires
      && Grown(s, before, s.unlinked - before.unlinked) && c in before.unlinked && b in before.index
      && before.head.Some?
    requires
      Grown(before.(unlinked := before.unlinked - {c}), after, {c} + (before.unlinked - {c} - after.unlinked))
    ensures Grown(s, after, s.unlinked - after.unlinked)
    ensures Grown(before.(unlinked := before.unlinked - {c}), after, before.unlinked) && Grown(s, before, s.unlinked)
    ensures b in after.index && after.head.Some?
    ensures after.unlinked <= before.unlinked - {c} && after.unlinked <= s.unlinked
  {
    hide Num;
    var erased := before.(unlinked := before.unlinked - {c});
    var gone := s.unlinked - after.unlinked;
    assert Grown(s, erased, s.unlinked - before.unlinked);
    GrownTogether(s, erased, after, s.unlinked - before.unlinked, {c} + (before.unlinked - {c} - after.unlinked), gone);
  }

  /** What was lost stays lost, and what is lost now was still waiting before. */
  lemma LostStep(s: Snapshot, before: Snapshot, after: Snapshot, c: Block, lost: set<Block>, more: set<Block>,
      maxSize: nat)
    requires Lost(s, before, lost, maxSize) && Grown(s, before, s.unlinked - before.unlinked) && c in before.unlinked
    requires Grown(before.(unlinked := before.unlinked - {c}), after, {c} + (before.unlinked - {c} - after.unlinked))
    requires Lost(before.(unlinked := before.unlinked - {c}), after, more, maxSize)
    ensures Lost(s, after, lost + more, maxSize)
  {
    hide Num;
  }

  /** A child that is too old is lost at once. */
  lemma LostNow(s: Snapshot, before: Snapshot, c: Block, lost: set<Block>, maxSize: nat)
    requires Lost(s, before, lost, maxSize) && Grown(s, before, s.unlinked - before.unlinked) && c in before.unlinked
    requires before.head.Some? && Num(c) <= Threshold(before.head, maxSize)
    ensures Lost(s, before.(unlinked := before.unlinked - {c}), lost + {c}, maxSize)
  {
    hide Num;
  }

  lemma ErasedGrown(s: Snapshot, c: Block, exempt: set<BlockId>)
    requires Sound(s)
    ensures Sound(s.(unlinked := s.unlinked - {c}))
    ensures Settled(s, exempt) ==> Settled(s.(unlinked := s.unlinked - {c}), exempt)
    ensures Grown(s, s.(unlinked := s.unlinked - {c}), {})
  {
    hide Num;
  }

  /** When no child of `b` waits any more, `b` need not be exempt. */
  lemma SettledWithout(s: Snapshot, exempt: set<BlockId>, b: Block)
    requires Settled(s, exempt + {b}) && forall c :: c in s.unlinked ==> c.prev != b
    ensures Settled(s, exempt)
  {
  }

  /** Once broken, a tree is not mended by blocks that enter later. */
  lemma StaysBroken(s: Snapshot, t: Snapshot, sources: set<Block>)
    requires Grown(s, t, sources) && Sound(s) && !Tree(s.index)
    ensures !Tree(t.index)
  {
    hide Num;
    var k, j :| k in s.index && j in s.index && Num(j) < Num(k) && !s.index[k].linked;
    assert k in t.index && j in t.index && !t.index[k].linked;
  }

  lemma CachedGrown(s: Snapshot, t: Snapshot, u: Snapshot, b: Block)
    requires Sound(t) && Grown(s, t, {b} + (s.unlinked - t.unlinked))
    requires u == t || u == t.(unlinked := t.unlinked + {b})
    ensures Sound(u) && Grown(s, u.(unlinked := u.unlinked - {b}), {b} + s.unlinked)
  {
    hide Num;
  }

  lemma CachedKept(s: Snapshot, t: Snapshot, u: Snapshot, b: Block, invalid: set<BlockId>, lost: set<Block>,
      maxSize: nat)
    requires Kept(s, t, invalid, lost) && Lost(s, t, lost, maxSize)
    requires u == t || (u == t.(unlinked := t.unlinked + {b}) && lost == {})
    ensures Kept(s, u, invalid, lost) && Lost(s, u, lost, maxSize)
  {
    hide Num;
  }

  lemma KeptUnder(s: Snapshot, t: Snapshot, invalid: set<BlockId>, lost: set<Block>, more: set<Block>)
    requires Kept(s, t, invalid, lost)
    ensures Kept(s, t, invalid, lost + more)
  {
  }

  lemma EntersWhen(s: Snapshot, invalid: set<BlockId>, maxSize: nat, b: Block)
    ensures Enters(s, invalid, maxSize, b) ==> s.head.None? || Num(b) > Threshold(s.head, maxSize)
    ensures !Enters(s, invalid, maxSize, b) ==>
      s.head.Some? && (Num(b) <= Threshold(s.head, maxSize) || b.prev !in s.index || b.prev in invalid)
  {
    hide Num;
  }

  /** A block enters exactly if it is less than the size below the head, on a parent that is there and not invalid. */
  lemma EntersExactly(s: Snapshot, invalid: set<BlockId>, maxSize: nat, b: Block)
    ensures Enters(s, invalid, maxSize, b) <==>
      s.head.None?
      || (Num(s.head.value) < Num(b) + maxSize && (b.prev == Zero || (b.prev in s.index && b.prev !in invalid)))
  {
  }

  lemma TipEnters(s: Snapshot, invalid: set<BlockId>, maxSize: nat, b: Block)
    requires Sound(s) && s.head == Some(b.prev) && b.prev !in invalid && maxSize > 0
    ensures Enters(s, invalid, maxSize, b)
  {
  }

  /** What is above the threshold is less than the size below the head. */
  lemma AboveSize(ids: set<BlockId>, head: BlockId, size: nat)
    requires forall k :: k in ids ==> Num(k) > 0
    ensures forall k :: k in Above(ids, Threshold(Some(head), size)) <==> k in ids && Num(head) < Num(k) + size
  {
    hide Num;
  }

  lemma BlocksAbove(index: Index, unlinked: set<Block>, head: BlockId, size: nat)
    requires Shaped(index)
    ensures var low := Threshold(Some(head), size);
      forall k ::
        && (k in Above(index.Keys, low) <==> k in index && Num(head) < Num(k) + size)
        && (k in Above(unlinked, low) <==> k in unlinked && Num(head) < Num(k) + size)
  {
    AllPositive(index);
    AboveSize(index.Keys, head, size);
    AboveSize(unlinked, head, size);
  }

  ghost function Above(ids: set<BlockId>, low: nat): set<BlockId>
  {
    set k | k in ids && low < Num(k)
  }

  lemma HeadAbove(head: BlockId, size: nat)
    requires size > 0 && head.Hash?
    ensures Threshold(Some(head), size) < Num(head)
  {
  }

  lemma WeakPointers(index: Index)
    requires Shaped(index)
    ensures forall k :: k in index ==> k.Hash? && index[k] == Item(k, index[k].linked && k.prev in index)
  {
  }

  lemma TrimmedTree(index: Index, trimmed: Index, low: nat)
    requires Tree(index) && trimmed.Keys == Above(index.Keys, low)
    requires forall k :: k in trimmed ==> k.Hash? && trimmed[k] == Item(k, index[k].linked && k.prev in trimmed)
    ensures Tree(trimmed)
  {
    forall k, j | k in trimmed && j in trimmed && Num(j) < Num(k) ensures trimmed[k].linked {
      ParentAbove(k, j, low);
      assert index[k].linked && k.prev in index;
    }
  }

  lemma ParentAbove(k: Block, j: BlockId, low: nat)
    requires low < Num(j) < Num(k)
    ensures low < Num(k.prev)
  {
  }

  lemma AncestorZero(h: BlockId)
    ensures Ancestor(h, 0) == h
  {
  }

  lemma Singleton(s: set<BlockId>, x: BlockId)
    requires x in s && |s| == 1
    ensures forall y :: y in s ==> y == x
  {
    assert |s - {x}| == 0;
    forall y | y in s ensures y == x { assert y !in s - {x}; }
  }

  /** One step of the walk from `h`, now at `next`, towards height `n`. */
  lemma StepDown(index: Index, h: BlockId, next: BlockId, n: nat)
    requires Tree(index) && next in index && n < Num(next) <= Num(h) && next == AtHeight(h, Num(next))
    ensures next.Hash? && Num(next.prev) == Num(next) - 1 && next.prev == AtHeight(h, Num(next.prev))
    ensures index[next].linked ==> next.prev in index
    ensures !index[next].linked ==> AtHeight(h, n) !in index
  {
    hide Num, Ancestor, Tree;
    AncestorStep(h, Num(h) - Num(next));
    AncestorNum(h, Num(h) - n);
    PrevNum(next);
    HigherLinked(index, next, AtHeight(h, n));
  }

  lemma HigherLinked(index: Index, k: BlockId, j: BlockId)
    requires Tree(index) && k in index && Num(j) < Num(k)
    ensures k.Hash? && (index[k].linked ==> k.prev in index) && (j in index ==> index[k].linked)
  {
  }

  lemma PrevNum(b: BlockId)
    ensures b.Hash? ==> Num(b) == Num(b.prev) + 1
  {
  }

  // ----- walking two branches

  /** The walk from `top` has passed these blocks and is at `at`. */
  ghost predicate Descended(top: BlockId, at: BlockId, passed: seq<BlockId>)
  {
    Num(at) <= Num(top) && at == AtHeight(top, Num(at)) && passed == Branch(top, Num(top) - Num(at))
  }

  ghost predicate DifferAbove(a: BlockId, b: BlockId, h: nat)
  {
    forall n :: h < n <= Num(a) && n <= Num(b) ==> AtHeight(a, n) != AtHeight(b, n)
  }

  /** The chains of `a` and `b` agree just below the lowest height kept, or higher up. */
  ghost predicate Meet(a: BlockId, b: BlockId, low: nat)
  {
    1 <= low && low - 1 <= Num(a) && low - 1 <= Num(b) && AtHeight(a, low - 1) == AtHeight(b, low - 1)
  }

  lemma StartDescent(top: BlockId)
    ensures Descended(top, top, [])
  {
  }

  lemma KeptIsBlock(index: Index, a: BlockId)
    requires Tree(index) && a in index
    ensures a.Hash? && Num(a) == Num(a.prev) + 1
  {
  }

  lemma DescentStep(top: BlockId, at: BlockId, passed: seq<BlockId>)
    requires Descended(top, at, passed) && at.Hash?
    ensures Descended(top, at.prev, passed + [at]) && Num(at.prev) == Num(at) - 1
  {
    hide Num, Ancestor;
    PrevNum(at);
    AncestorStep(top, Num(top) - Num(at));
    assert Branch(top, Num(top) - Num(at.prev)) == Branch(top, Num(top) - Num(at)) + [at];
  }

  /** Above another block of the index there is always a parent to go down to. */
  lemma Descend(index: Index, top: BlockId, at: BlockId, passed: seq<BlockId>, other: BlockId)
    requires Tree(index) && at in index && other in index && Num(other) < Num(at) && Descended(top, at, passed)
    ensures at.Hash? && index[at].linked && at.prev in index && Num(at.prev) == Num(at) - 1
    ensures Descended(top, at.prev, passed + [at])
  {
    hide Num, Ancestor, Tree, Descended;
    HigherLinked(index, at, other);
    DescentStep(top, at, passed);
  }

  lemma AboveLow(index: Index, a: BlockId, low: nat)
    requires Tree(index) && Lowest(index, low) && a in index
    ensures 1 <= low <= Num(a) && (low < Num(a) ==> index[a].linked)
  {
    var k :| k in index && Num(k) == low;
    NumPositive(k);
    if low < Num(a) { HigherLinked(index, a, k); }
  }

  /** Going down one more on both sides; when that is impossible the chains do not meet. */
  lemma DescendBoth(index: Index, first: BlockId, second: BlockId, a: BlockId, b: BlockId, fromA: seq<BlockId>,
      fromB: seq<BlockId>, low: nat)
    requires Tree(index) && Lowest(index, low) && a in index && b in index && a.Hash? && b.Hash? && Num(a) == Num(b)
    requires
      && Descended(first, a, fromA) && Descended(second, b, fromB) && DifferAbove(first, second, Num(a))
      && a.prev != b.prev
    ensures
      && Descended(first, a.prev, fromA + [a]) && Descended(second, b.prev, fromB + [b])
      && Num(a.prev) == Num(b.prev) < Num(a)
    ensures DifferAbove(first, second, Num(a.prev))
    ensures index[a].linked ==> a.prev in index
    ensures index[b].linked ==> b.prev in index
    ensures !index[a].linked || !index[b].linked ==> !Meet(first, second, low)
  {
    hide Num, Ancestor, Tree, Lowest, Descended, DifferAbove, Meet;
    DescentStep(first, a, fromA);
    DescentStep(second, b, fromB);
    DifferHere(first, second, a, b, fromA, fromB);
    AboveLow(index, a, low);
    AboveLow(index, b, low);
    PointerIn(index, a);
    PointerIn(index, b);
    if Num(a) == low { NotMet(first, second, a.prev, b.prev, fromA + [a], fromB + [b], low); }
  }

  lemma NotMet(first: BlockId, second: BlockId, a: BlockId, b: BlockId, fromA: seq<BlockId>, fromB: seq<BlockId>,
      low: nat)
    requires Descended(first, a, fromA) && Descended(second, b, fromB) && Num(a) == Num(b) == low - 1 && a != b
    ensures !Meet(first, second, low)
  {
    hide Num, Ancestor;
  }

  lemma PointerIn(index: Index, a: BlockId)
    requires Tree(index) && a in index
    ensures a.Hash? && (index[a].linked ==> a.prev in index)
  {
  }

  lemma DescentEnds(index: Index, first: BlockId, second: BlockId, a: BlockId, b: BlockId, fromA: seq<BlockId>,
      fromB: seq<BlockId>, low: nat)
    requires Tree(index) && Lowest(index, low) && a in index && b in index && a.Hash? && b.Hash? && Num(a) == Num(b)
    requires
      && Descended(first, a, fromA) && Descended(second, b, fromB) && DifferAbove(first, second, Num(a))
      && a.prev == b.prev
    ensures Meet(first, second, low)
    ensures if a == b then Parted(first, second, fromA, fromB) else Parted(first, second, fromA + [a], fromB + [b])
  {
    hide Num, Ancestor, Tree, Lowest, Parted, DifferAbove;
    AboveLow(index, a, low);
    assert Meet(first, second, low) by {
      DescentStep(first, a, fromA);
      DescentStep(second, b, fromB);
      MeetBelow(first, second, Num(a.prev), low - 1);
    }
    if a == b {
      PartedAt(first, second, a, fromA, fromB);
    } else {
      DescentStep(first, a, fromA);
      DescentStep(second, b, fromB);
      DifferHere(first, second, a, b, fromA, fromB);
      PartedAt(first, second, a.prev, fromA + [a], fromB + [b]);
    }
  }

  lemma DifferHere(first: BlockId, second: BlockId, a: BlockId, b: BlockId, fromA: seq<BlockId>, fromB: seq<BlockId>)
    requires Descended(first, a, fromA) && Descended(second, b, fromB) && Num(a) == Num(b) > 0 && a != b
    requires DifferAbove(first, second, Num(a))
    ensures DifferAbove(first, second, Num(a) - 1)
  {
    hide Num, Ancestor;
  }

  lemma PartedAt(first: BlockId, second: BlockId, meet: BlockId, fromA: seq<BlockId>, fromB: seq<BlockId>)
    requires Descended(first, meet, fromA) && Descended(second, meet, fromB) && DifferAbove(first, second, Num(meet))
    ensures Parted(first, second, fromA, fromB)
  {
    hide Num, Ancestor;
  }

  // ----- synopsis

  /** Heights listed in a synopsis that starts at `low`: each step halves what is left up to
      `high`, and the list stops at the reference height. */
  ghost function Heights(low: nat, ref: nat, high: nat): seq<nat>
    requires ref <= high
    decreases ref + 1 - low
  {
    if ref < low then [] else [low] + Heights(low + (high - low + 2) / 2, ref, high)
  }

  ghost function BlocksAt(ref: BlockId, heights: seq<nat>): seq<BlockId>
  {
    seq(|heights|, i requires 0 <= i < |heights| => if heights[i] <= Num(ref) then AtHeight(ref, heights[i]) else Zero)
  }

  ghost predicate Rising(s: seq<nat>)
  {
    forall i, j :: 0 <= i < j < |s| ==> s[i] < s[j]
  }

  /** They start at `low`, rise, and stay within the reference. */
  lemma {:induction false} HeightsRise(low: nat, ref: nat, high: nat)
    requires low <= ref <= high
    ensures var s := Heights(low, ref, high); s != [] && s[0] == low && Rising(s) && forall i :: 0 <= i < |s| ==>
      low <= s[i] <= ref
    decreases ref - low
  {
    var next := low + (high - low + 2) / 2;
    if next <= ref {
      HeightsRise(next, ref, high);
    }
  }

  /** The binary logarithm, rounded down. */
  ghost function Log2(n: nat): nat
    requires n > 0
  {
    if n == 1 then 0 else 1 + Log2(n / 2)
  }

  ghost function Power2(n: nat): nat
  {
    if n == 0 then 1 else 2 * Power2(n - 1)
  }

  lemma {:induction false} Log2Bounds(n: nat)
    requires n > 0
    ensures Power2(Log2(n)) <= n < Power2(Log2(n) + 1)
  {
    if n > 1 { Log2Bounds(n / 2); }
  }

  /** Without further blocks the list ends at the reference, after logarithmically many steps. */
  lemma {:induction false} HeightsLogarithmic(low: nat, ref: nat)
    requires low <= ref
    ensures var s := Heights(low, ref, ref); |s| == Log2(ref - low + 1) + 1 && s[|s| - 1] == ref
    decreases ref - low
  {
    var next := low + (ref - low + 2) / 2;
    if next <= ref {
      assert ref - next + 1 == (ref - low + 1) / 2;
      HeightsLogarithmic(next, ref);
    }
  }

  /** With further blocks it is no longer than logarithmic in the whole range. */
  lemma {:induction false} HeightsShort(low: nat, ref: nat, high: nat)
    requires low <= ref <= high
    ensures |Heights(low, ref, high)| <= Log2(high - low + 1) + 1
    decreases ref - low
  {
    var next := low + (high - low + 2) / 2;
    if next <= ref {
      assert high - next + 1 == (high - low + 1) / 2;
      HeightsShort(next, ref, high);
    }
  }

  lemma NotBelow(index: Index, ref: BlockId, low: nat)
    requires Lowest(index, low) && Num(ref) < low
    ensures ref !in index
  {
  }

  lemma EndsAtLow(index: Index, at: BlockId, low: nat)
    requires Tree(index) && Lowest(index, low) && at in index
    ensures at.Hash? && Num(at) == Num(at.prev) + 1
    ensures !index[at].linked ==> Num(at) == low
  {
    hide Num;
    AboveLow(index, at, low);
    PrevNum(at);
  }

  lemma BlocksAtNone(ref: BlockId)
    ensures BlocksAt(ref, []) == []
  {
  }

  lemma BlocksAtFirst(ref: BlockId, height: nat, high: nat)
    requires height <= Num(ref) <= high
    ensures BlocksAt(ref, Heights(height, Num(ref), high))
         == [AtHeight(ref, height)] + BlocksAt(ref, Heights(height + (high - height + 2) / 2, Num(ref), high))
    ensures height + (high - height + 2) / 2 > Num(ref) ==>
      Heights(height + (high - height + 2) / 2, Num(ref), high) == []
  {
  }

  lemma BranchAt(ref: BlockId, low: nat, height: nat)
    requires 1 <= low <= height <= Num(ref)
    ensures var branch := Branch(ref, Num(ref) - low + 1);
      0 <= |branch| - (height - low) - 1 < |branch| && branch[|branch| - (height - low) - 1] == AtHeight(ref, height)
  {
  }
}
