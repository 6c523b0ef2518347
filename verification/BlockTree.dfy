/** Blocks, identified by an ideal hash: an id determines the previous id. */
module BlockTree {
  import opened Common

  datatype BlockId = Zero | Hash(prev: BlockId, rest: int)

  /** The block number is part of the id. */
  function Num(id: BlockId): nat
  {
    match id
    case Zero => 0
    case Hash(prev, _) => Num(prev) + 1
  }

  type Block = b: BlockId | b.Hash? witness Hash(Zero, 0)

  /** The ancestor `k` blocks below. */
  ghost function Ancestor(id: BlockId, k: nat): BlockId
    requires k <= Num(id)
    decreases k
  {
    if k == 0 then id else Ancestor(id.prev, k - 1)
  }

  lemma {:induction false} AncestorNum(id: BlockId, k: nat)
    requires k <= Num(id)
    ensures Num(Ancestor(id, k)) == Num(id) - k
    decreases k
  {
    if k > 0 { AncestorNum(id.prev, k - 1); }
  }

  lemma {:induction false} AncestorStep(id: BlockId, k: nat)
    requires k < Num(id)
    ensures Num(Ancestor(id, k)) == Num(id) - k && Ancestor(id, k).Hash? && Ancestor(id, k + 1) == Ancestor(id, k).prev
    decreases k
  {
    AncestorNum(id, k);
    if k > 0 { AncestorStep(id.prev, k - 1); }
  }

  /** The ancestor at a given height. */
  ghost function AtHeight(id: BlockId, n: nat): BlockId
    requires n <= Num(id)
  {
    Ancestor(id, Num(id) - n)
  }

  lemma {:induction false} AncestorCompose(id: BlockId, i: nat, j: nat)
    requires i + j <= Num(id)
    ensures Num(Ancestor(id, i)) == Num(id) - i && Ancestor(Ancestor(id, i), j) == Ancestor(id, i + j)
    decreases i
  {
    AncestorNum(id, i);
    if i > 0 { AncestorCompose(id.prev, i - 1, j); }
  }

  /** Chains that meet stay together below. */
  lemma MeetBelow(a: BlockId, b: BlockId, n: nat, m: nat)
    requires m <= n <= Num(a) && n <= Num(b) && AtHeight(a, n) == AtHeight(b, n)
    ensures AtHeight(a, m) == AtHeight(b, m)
  {
    hide Num, Ancestor;
    AncestorCompose(a, Num(a) - n, n - m);
    AncestorCompose(b, Num(b) - n, n - m);
  }

  /** A block and its ancestors, highest first. */
  ghost function Branch(id: BlockId, count: nat): seq<BlockId>
    requires count <= Num(id)
  {
    seq(count, i requires 0 <= i < count => Ancestor(id, i))
  }

  /** `a` is `b` or lies below it. */
  ghost predicate Below(a: BlockId, b: BlockId)
  {
    Num(a) <= Num(b) && AtHeight(b, Num(a)) == a
  }

  /** Two branches that end just above the most recent common ancestor. */
  ghost predicate Parted(a: BlockId, b: BlockId, fromA: seq<BlockId>, fromB: seq<BlockId>)
  {
    && |fromA| <= Num(a) && |fromB| <= Num(b)
    && fromA == Branch(a, |fromA|) && fromB == Branch(b, |fromB|)
    && Ancestor(a, |fromA|) == Ancestor(b, |fromB|)
    && forall n :: Num(a) - |fromA| < n <= Num(a) && n <= Num(b) ==> AtHeight(a, n) != AtHeight(b, n)
  }

  /** Such branches share no block, and one is empty exactly when its block lies below the other's. */
  lemma PartedDisjoint(a: BlockId, b: BlockId, fromA: seq<BlockId>, fromB: seq<BlockId>)
    requires Parted(a, b, fromA, fromB)
    ensures forall x :: x in fromA ==> x !in fromB
    ensures fromA == [] <==> Below(a, b)
    ensures fromB == [] <==> Below(b, a)
  {
    AncestorNum(a, |fromA|);
    AncestorNum(b, |fromB|);
    forall i, j | 0 <= i < |fromA| && 0 <= j < |fromB| ensures fromA[i] != fromB[j] {
      AncestorNum(a, i);
      AncestorNum(b, j);
      var n := Num(a) - i;
      if Num(b) - j == n { assert AtHeight(a, n) != AtHeight(b, n); }
    }
    assert Num(a) - |fromA| == Num(b) - |fromB|;
    if Num(a) <= Num(b) && fromA != [] { assert AtHeight(a, Num(a)) != AtHeight(b, Num(a)); }
    if Num(b) <= Num(a) && fromB != [] { assert AtHeight(a, Num(b)) != AtHeight(b, Num(b)); }
  }

  /** `linked` says whether the pointer to the parent item is alive. */
  datatype Item = Item(id: BlockId, linked: bool)

  type Index = map<BlockId, Item>

  ghost predicate Lowest(index: Index, n: nat)
  {
    && (exists k :: k in index && Num(k) == n)
    && (forall k :: k in index ==> n <= Num(k))
  }

  /** Parent pointers lead into the index. */
  ghost predicate Shaped(index: Index)
  {
    forall k :: k in index ==> index[k].id == k && k.Hash? && (index[k].linked ==> k.prev in index)
  }

  /** Moreover, only blocks at the lowest height lack one. */
  ghost predicate Tree(index: Index)
  {
    && Shaped(index)
    && (forall k, j :: k in index && j in index && Num(j) < Num(k) ==> index[k].linked)
  }

  /** In such a tree every block's ancestors down to the lowest height are present. */
  lemma {:induction false} AncestorsPresent(index: Index, id: BlockId, low: nat, k: nat)
    requires Tree(index) && Lowest(index, low) && id in index && k <= Num(id) - low
    ensures Ancestor(id, k) in index
    decreases k
  {
    hide Tree, Lowest, Num;
    if k > 0 {
      ParentPresent(index, id, low);
      AncestorsPresent(index, id.prev, low, k - 1);
    }
  }

  lemma ParentPresent(index: Index, id: BlockId, low: nat)
    requires Tree(index) && Lowest(index, low) && id in index && low < Num(id)
    ensures id.Hash? && id.prev in index && Num(id) == Num(id.prev) + 1
  {
    var k :| k in index && Num(k) == low;
  }

  /** The block of the chain below `head` at a height, if the index still holds it. */
  ghost function MainAt(index: Index, head: BlockId, n: nat): Option<BlockId>
  {
    if n <= Num(head) && AtHeight(head, n) in index then Some(AtHeight(head, n)) else None
  }

  /** The only candidate at a height is the ancestor. */
  lemma OnlyCandidate(index: Index, head: BlockId, low: nat, n: nat)
    requires Tree(index) && Lowest(index, low) && head in index && n <= Num(head)
    ensures low <= n ==> AtHeight(head, n) in index && Num(AtHeight(head, n)) == n
  {
    hide Num, Tree, Ancestor, Lowest;
    AncestorNum(head, Num(head) - n);
    if low <= n { AncestorsPresent(index, head, low, Num(head) - n); }
  }

  lemma {:induction false} LowestExists(index: Index) returns (low: nat)
    requires index != map[]
    ensures Lowest(index, low)
    decreases |index|
  {
    var k :| k in index;
    var rest := index - {k};
    assert rest.Keys == index.Keys - {k};
    hide Num;
    if rest == map[] {
      low := Num(k);
      forall j | j in index ensures j == k { assert j in index.Keys; assert j !in rest.Keys; }
    } else {
      var l := LowestExists(rest);
      low := if Num(k) < l then Num(k) else l;
      var w :| w in rest && Num(w) == l;
      assert w in index;
      forall j | j in index ensures low <= Num(j) { if j != k { assert j in rest; } }
    }
  }
}
