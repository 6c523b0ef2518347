/** Two nodes synchronising: one describes its chain by a synopsis, the other replies with
    the ids that follow the highest block they share. */
module ChainSync {
  import opened Common
  import opened BlockTree
  import opened ForkState
  import ForkDatabase

  /** The block is on the chain that ends in `head`. */
  ghost predicate OnChain(head: BlockId, id: BlockId)
  {
    1 <= Num(id) && Below(id, head)
  }

  /** The first `count` ids of a chain from height `first` on. */
  ghost function ChainFrom(head: BlockId, first: nat, count: nat): seq<BlockId>
    requires first + count <= Num(head) + 1
  {
    seq(count, i requires 0 <= i < count => AtHeight(head, first + i))
  }

  lemma OnChainBelow(head: BlockId, a: BlockId, b: BlockId)
    requires Below(a, b) && OnChain(head, b) && 1 <= Num(a)
    ensures OnChain(head, a)
  {
    hide Num, Ancestor;
    assert Ancestor(head, Num(head) - Num(b)) == b && Ancestor(b, Num(b) - Num(a)) == a;
    hide AtHeight;
    AncestorCompose(head, Num(head) - Num(b), Num(b) - Num(a));
    assert Num(head) - Num(b) + (Num(b) - Num(a)) == Num(head) - Num(a);
    IsAtHeight(head, a);
  }

  lemma IsAtHeight(head: BlockId, a: BlockId)
    requires Num(a) <= Num(head) && Ancestor(head, Num(head) - Num(a)) == a
    ensures Below(a, head)
  {
  }

  /** The last entry of a synopsis the chain shares; entries that are the zero id count as shared. */
  ghost predicate HighestShared(head: BlockId, synopsis: seq<BlockId>, i: nat)
  {
    && i < |synopsis| && (synopsis[i] == Zero || OnChain(head, synopsis[i]))
    && forall j :: i < j < |synopsis| ==> synopsis[j] != Zero && !OnChain(head, synopsis[j])
  }

  /** A node's view of the chain: recent blocks in the fork database, older ones in the log. */
  class BlockReader {
    const fork: ForkDatabase.Database
    var log: map<nat, BlockId>

    constructor (fork: ForkDatabase.Database, log: map<nat, BlockId>)
      ensures this.fork == fork && this.log == log
    {
      this.fork := fork;
      this.log := log;
    }

    /** The log holds blocks of the main chain only, and all of those the fork database dropped. */
    ghost predicate Valid()
      reads this, fork
    {
      && fork.Valid()
      && (fork.head.None? ==> log == map[])
      && (fork.head.Some? ==>
           && (forall n :: n in log ==> 1 <= n <= Num(fork.head.value) && log[n] == AtHeight(fork.head.value, n))
           && (forall n :: 1 <= n <= Num(fork.head.value) && n !in log ==> AtHeight(fork.head.value, n) in fork.index))
    }

    /** The zero id stands for "not found". */
    method BlockIdForNum(n: nat) returns (id: BlockId)
      ensures id == if n in log then log[n] else Zero
    {
      id := if n in log then log[n] else Zero;
    }

    method IsIncludedBlock(id: BlockId) returns (included: bool)
      requires Valid() && fork.head.Some?
      ensures included <==> id == Zero || OnChain(fork.head.value, id)
    {
      hide Num, Ancestor, Tree, Shaped;
      var n := Num(id);
      ZeroNum(id);
      if n == 0 {
        return id == Zero;
      }
      var item := fork.FetchBlockOnMainBranchByNumber(n);
      if item.Some? {
        return id == item.value;
      }
      var stored := BlockIdForNum(n);
      return id == stored;
    }

    /** Replies to a synopsis with at most `limit` ids, and says how many more there are. It fails
        exactly when the synopsis is not empty and no entry is shared. */
    method GetBlockIds(synopsis: seq<BlockId>, limit: nat) returns (reply: Option<seq<BlockId>>, remaining: nat)
      requires Valid() && limit > 0
      ensures fork.head.None? ==> reply == Some([]) && remaining == 0
      ensures fork.head.Some? ==>
        (reply.None? <==>
          && synopsis != []
          && forall i :: 0 <= i < |synopsis| ==> synopsis[i] != Zero && !OnChain(fork.head.value, synopsis[i]))
      ensures fork.head.Some? && reply.Some? ==>
        exists last: BlockId ::
          && (if synopsis == [] then last == Zero
              else exists i: nat :: HighestShared(fork.head.value, synopsis, i) && last == synopsis[i])
          && Replied(fork.head.value, last, limit, reply.value, remaining)
    {
      hide Num, Ancestor, Tree, Shaped;
      if fork.head.None? {
        return Some([]), 0;
      }
      var head := fork.head.value;
      var last := Zero;
      if synopsis != [] && synopsis != [Zero] {
        var i := |synopsis|;
        var found := false;
        while i > 0 && !found
          invariant 0 <= i <= |synopsis|
          invariant !found ==> forall j :: i <= j < |synopsis| ==> synopsis[j] != Zero && !OnChain(head, synopsis[j])
          invariant found ==> HighestShared(head, synopsis, i) && last == synopsis[i]
          decreases i, !found
        {
          i := i - 1;
          found := IsIncludedBlock(synopsis[i]);
          if found {
            last := synopsis[i];
          }
        }
        if !found {
          return None, 0;
        }
      } else if synopsis == [Zero] {
        assert HighestShared(head, synopsis, 0);
      }
      var ids, more := IdsFrom(last, limit);
      return Some(ids), more;
    }

    method FillFromFork(ids: seq<BlockId>, first: nat, from: nat, end: nat, ghost oldest: nat) returns (r: seq<BlockId>)
      requires Valid() && fork.head.Some? && end <= Num(fork.head.value) && Lowest(fork.index, oldest)
      requires oldest <= from && first <= from && end < first + |ids|
      ensures |r| == |ids|
      ensures forall i :: 0 <= i < |r| ==>
        r[i] == if from <= first + i <= end then AtHeight(fork.head.value, first + i) else ids[i]
    {
      hide Num, Ancestor, Tree, Shaped, Lowest;
      r := ids;
      var n := from;
      while n <= end
        invariant from <= n && (from <= end ==> n <= end + 1) && (end < from ==> n == from) && |r| == |ids|
        invariant forall i :: 0 <= i < |r| ==>
          r[i] == if from <= first + i < n then AtHeight(fork.head.value, first + i) else ids[i]
        decreases end + 1 - n
      {
        var item := fork.FetchBlockOnMainBranchByNumber(n);
        OnlyCandidate(fork.index, fork.head.value, oldest, n);
        assert item.Some?;
        r := r[n - first := item.value];
        n := n + 1;
      }
    }

    method FillFromLog(ids: seq<BlockId>, first: nat, end: nat, ghost oldest: nat) returns (r: seq<BlockId>)
      requires Valid() && fork.head.Some? && 1 <= first && Lowest(fork.index, oldest)
      requires end < oldest && end <= Num(fork.head.value) && end < first + |ids|
      ensures |r| == |ids|
      ensures forall i :: 0 <= i < |r| ==>
        r[i] == if first + i <= end then AtHeight(fork.head.value, first + i) else ids[i]
    {
      hide Num, Ancestor, Tree, Shaped, Lowest;
      r := ids;
      var n := first;
      while n <= end
        invariant first <= n && (first <= end ==> n <= end + 1) && (end < first ==> n == first) && |r| == |ids|
        invariant forall i :: 0 <= i < |r| ==>
          r[i] == if first + i < n then AtHeight(fork.head.value, first + i) else ids[i]
        decreases end + 1 - n
      {
        LoggedBelow(fork.index, oldest, fork.head.value, n);
        var id := BlockIdForNum(n);
        r := r[n - first := id];
        n := n + 1;
      }
    }

    /** The ids from a shared block on: from the fork database first, then the older ones from the log. */
    method IdsFrom(last: BlockId, limit: nat) returns (ids: seq<BlockId>, remaining: nat)
      requires Valid() && fork.head.Some? && limit > 0 && (last == Zero || OnChain(fork.head.value, last))
      ensures Replied(fork.head.value, last, limit, ids, remaining)
    {
      hide Num, Ancestor, Tree, Shaped;
      var head := fork.head.value;
      HeadNum(fork.index, head);
      ZeroNum(last);
      var first := Num(last);
      if first == 0 {
        first := 1;
      }
      var end := if Num(head) < first + limit - 1 then Num(head) else first + limit - 1;
      var size := end - first + 1;
      var oldest := fork.OldestBlockNum();
      LowestPositive(fork.index, oldest);
      var fromFork := if oldest < first then first else oldest;
      var lastLogged := if oldest - 1 < end then oldest - 1 else end;
      ids := FillFromFork(seq(size, i => Zero), first, fromFork, end, oldest);
      ids := FillFromLog(ids, first, lastLogged, oldest);
      assert ids == ChainFrom(head, first, size);
      AncestorNum(head, Num(head) - end);
      if |ids| > 0 && Num(ids[|ids| - 1]) < Num(head) {
        remaining := Num(head) - end;
      } else {
        remaining := 0;
      }
    }
  }

  /** A reply is the run of the chain that starts at the shared block. */
  ghost predicate Replied(head: BlockId, last: BlockId, limit: nat, ids: seq<BlockId>, remaining: nat)
  {
    var first := if Num(last) == 0 then 1 else Num(last);
    && first <= Num(head) && 0 < |ids| <= limit && |ids| + remaining == Num(head) - first + 1
    && (remaining > 0 ==> |ids| == limit)
    && ids == ChainFrom(head, first, |ids|)
  }

  lemma ZeroNum(id: BlockId)
    ensures Num(id) == 0 <==> id == Zero
  {
  }

  lemma HeadNum(index: Index, head: BlockId)
    requires Tree(index) && head in index
    ensures Num(head) >= 1
  {
  }

  lemma LowestPositive(index: Index, low: nat)
    requires Tree(index) && Lowest(index, low)
    ensures low >= 1
  {
  }

  /** Below the lowest height kept, the index holds nothing. */
  lemma LoggedBelow(index: Index, low: nat, head: BlockId, n: nat)
    requires Lowest(index, low) && n < low && n <= Num(head)
    ensures AtHeight(head, n) !in index
  {
    AncestorNum(head, Num(head) - n);
  }

  /** A synopsis answered by a peer, whatever the two have in common. The peer replies exactly when its
      chain holds the oldest block on the node's branch. The reply is then a run of the peer's chain; it
      starts at the highest entry both share, and everything the synopsis lists above that is unknown
      to the peer. */
  method SyncRound(node: ForkDatabase.Database, peer: BlockReader, reference: BlockId, after: nat, limit: nat)
    returns (synopsis: seq<BlockId>, reply: Option<seq<BlockId>>, remaining: nat, ghost shared: nat)
    requires node.Valid() && node.head.Some? && (reference == Zero || reference in node.index)
    requires peer.Valid() && peer.fork.head.Some? && limit > 0
    ensures synopsis != [] && (reply.Some? <==> OnChain(peer.fork.head.value, synopsis[0]))
    ensures var ref := if reference == Zero then node.head.value else reference;
      exists low: nat :: Lowest(node.index, low) && low <= Num(ref) && synopsis[0] == AtHeight(ref, low)
    ensures reply.Some? ==> shared < |synopsis| && 0 < |reply.value| <= limit && reply.value[0] == synopsis[shared]
    ensures reply.Some? ==> forall i :: 0 <= i < |synopsis| ==>
      (OnChain(peer.fork.head.value, synopsis[i]) <==> i <= shared)
    ensures reply.Some? ==> |reply.value| + remaining == Num(peer.fork.head.value) - Num(reply.value[0]) + 1
    ensures reply.Some? ==> forall i :: 0 <= i < |reply.value| ==>
      Num(reply.value[i]) == Num(reply.value[0]) + i && OnChain(peer.fork.head.value, reply.value[i])
  {
    hide Num, Ancestor, Tree, Shaped, Lowest, BlocksAt;
    var needed, ok;
    ghost var low;
    synopsis, needed, ok, low := node.GetBlockchainSynopsis(reference, after);
    ghost var ref := if reference == Zero then node.head.value else reference;
    ghost var head := peer.fork.head.value;
    AboveLow(node.index, ref, low);
    SynopsisShape(ref, low, after, synopsis);
    reply, remaining := peer.GetBlockIds(synopsis, limit);
    shared := 0;
    if reply.Some? {
      ghost var last: BlockId :| (exists i: nat :: HighestShared(head, synopsis, i) && last == synopsis[i])
        && Replied(head, last, limit, reply.value, remaining);
      shared :| HighestShared(head, synopsis, shared) && last == synopsis[shared];
      SharedPrefix(head, ref, synopsis, shared);
      ReplyShape(head, last, limit, reply.value, remaining);
    }
  }

  lemma SynopsisShape(ref: BlockId, low: nat, after: nat, ids: seq<BlockId>)
    requires 1 <= low <= Num(ref) && ids == BlocksAt(ref, Heights(low, Num(ref), Num(ref) + after))
    ensures ids != [] && ids[0] == AtHeight(ref, low)
    ensures forall i :: 0 <= i < |ids| ==> Below(ids[i], ref) && 1 <= Num(ids[i]) && ids[i] != Zero
    ensures forall i, j :: 0 <= i < j < |ids| ==> Num(ids[i]) < Num(ids[j])
  {
    var heights := Heights(low, Num(ref), Num(ref) + after);
    HeightsRise(low, Num(ref), Num(ref) + after);
    hide Num, Ancestor, Heights;
    forall i | 0 <= i < |ids| ensures Num(ids[i]) == heights[i] && Below(ids[i], ref) && ids[i] != Zero {
      AncestorNum(ref, Num(ref) - heights[i]);
      ZeroNum(ids[i]);
    }
  }

  /** Sharing an entry means sharing all entries below it. */
  lemma SharedPrefix(head: BlockId, ref: BlockId, ids: seq<BlockId>, shared: nat)
    requires HighestShared(head, ids, shared)
    requires forall i :: 0 <= i < |ids| ==> Below(ids[i], ref) && 1 <= Num(ids[i]) && ids[i] != Zero
    requires forall i, j :: 0 <= i < j < |ids| ==> Num(ids[i]) < Num(ids[j])
    ensures forall i :: 0 <= i < |ids| ==> (OnChain(head, ids[i]) <==> i <= shared)
  {
    hide Num, Ancestor;
    forall i | 0 <= i < |ids| ensures OnChain(head, ids[i]) <==> i <= shared {
      if i < shared {
        AncestorCompose(ref, Num(ref) - Num(ids[shared]), Num(ids[shared]) - Num(ids[i]));
        OnChainBelow(head, ids[i], ids[shared]);
      }
    }
  }

  lemma AtHeightBelow(head: BlockId, h: nat)
    requires h <= Num(head)
    ensures Num(AtHeight(head, h)) == h && Below(AtHeight(head, h), head)
  {
    AncestorNum(head, Num(head) - h);
  }

  lemma BelowIsAtHeight(a: BlockId, head: BlockId)
    requires Below(a, head)
    ensures AtHeight(head, Num(a)) == a
  {
  }

  lemma ReplyShape(head: BlockId, last: BlockId, limit: nat, ids: seq<BlockId>, remaining: nat)
    requires OnChain(head, last) && Replied(head, last, limit, ids, remaining)
    ensures ids[0] == last
    ensures forall i :: 0 <= i < |ids| ==> Num(ids[i]) == Num(last) + i && OnChain(head, ids[i])
  {
    hide Num, Ancestor, Below, AtHeight;
    var first := Num(last);
    AtHeightBelow(head, first);
    forall i | 0 <= i < |ids| ensures Num(ids[i]) == first + i && OnChain(head, ids[i]) {
      AtHeightBelow(head, first + i);
      assert ids[i] == ChainFrom(head, first, |ids|)[i] == AtHeight(head, first + i);
    }
    assert ids[0] == AtHeight(head, first) == last by { BelowIsAtHeight(last, head); }
  }
}
