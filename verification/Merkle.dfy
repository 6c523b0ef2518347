/** The Merkle root of a block's transactions: digests are hashed in pairs, in
    place, level by level; an odd digest is carried to the next level unchanged. */
module Merkle {

  /** One level up. */
  ghost function PairUp<D>(s: seq<D>, pair: (D, D) -> D): (r: seq<D>)
    ensures |r| == (|s| + 1) / 2
  {
    if |s| < 2 then s else [pair(s[0], s[1])] + PairUp(s[2..], pair)
  }

  ghost function Root<D>(s: seq<D>, pair: (D, D) -> D): D
    requires |s| > 0
    decreases |s|
  {
    if |s| == 1 then s[0] else Root(PairUp(s, pair), pair)
  }

  ghost predicate Injective<D(!new)>(pair: (D, D) -> D)
  {
    forall a, b, c, d :: pair(a, b) == pair(c, d) ==> a == c && b == d
  }

  ghost predicate PowerOfTwo(k: nat)
  {
    k == 1 || (k > 1 && k % 2 == 0 && PowerOfTwo(k / 2))
  }

  /** Entry `i` of the level above, read off directly. */
  ghost function PairAt<D>(s: seq<D>, pair: (D, D) -> D, i: nat): D
    requires i < (|s| + 1) / 2
  {
    if 2 * i + 1 < |s| then pair(s[2 * i], s[2 * i + 1]) else s[2 * i]
  }

  lemma {:induction false} PairUpAt<D>(s: seq<D>, pair: (D, D) -> D, i: nat)
    requires i < (|s| + 1) / 2
    ensures PairUp(s, pair)[i] == PairAt(s, pair, i)
    decreases |s|
  {
    if |s| >= 2 && i > 0 {
      PairUpAt(s[2..], pair, i - 1);
    }
  }

  /** Pairing respects a split at an even position. */
  lemma {:induction false} PairUpSplit<D>(s: seq<D>, pair: (D, D) -> D, k: nat)
    requires k % 2 == 0 && k <= |s|
    ensures PairUp(s, pair) == PairUp(s[..k], pair) + PairUp(s[k..], pair)
    decreases k
  {
    if k == 0 {
      assert s[..0] == [] && s[0..] == s;
    } else {
      PairUpSplit(s[2..], pair, k - 2);
      assert s[2..][..k - 2] == s[..k][2..] && s[2..][k - 2..] == s[k..] && s[..k][..2] == s[..2];
      FirstPair(s, pair);
      FirstPair(s[..k], pair);
      hide PairUp;
    }
  }

  lemma FirstPair<D>(s: seq<D>, pair: (D, D) -> D)
    requires |s| >= 2
    ensures PairUp(s, pair) == [pair(s[..2][0], s[..2][1])] + PairUp(s[2..], pair)
  {
  }

  /** The level-by-level root is the root of the balanced tree whose left subtree holds the
      largest power of two of leaves that leaves some for the right. */
  lemma {:induction false} RootIsTree<D>(s: seq<D>, pair: (D, D) -> D, k: nat)
    requires PowerOfTwo(k) && k < |s| <= 2 * k
    ensures Root(s, pair) == pair(Root(s[..k], pair), Root(s[k..], pair))
    decreases k
  {
    var t := PairUp(s, pair);
    if k == 1 {
      assert t == [pair(s[0], s[1])] by { PairUpAt(s, pair, 0); }
      assert s[..1] == [s[0]] && s[1..] == [s[1]];
    } else {
      PairUpSplit(s, pair, k);
      var left, right := PairUp(s[..k], pair), PairUp(s[k..], pair);
      assert t[..k / 2] == left && t[k / 2..] == right;
      RootIsTree(t, pair, k / 2);
      RootUp(s[..k], pair);
      RootUp(s[k..], pair);
    }
  }

  /** There is always such a split. */
  lemma {:induction false} SplitPoint(n: nat) returns (k: nat)
    requires n >= 2
    ensures PowerOfTwo(k) && k < n <= 2 * k
  {
    if n == 2 {
      k := 1;
    } else {
      var half := SplitPoint((n + 1) / 2);
      k := 2 * half;
    }
  }

  lemma RootUp<D>(s: seq<D>, pair: (D, D) -> D)
    requires |s| > 0
    ensures Root(PairUp(s, pair), pair) == Root(s, pair)
  {
    if |s| == 1 { assert PairUp(s, pair) == s; }
  }

  lemma PairUpInjective<D(!new)>(s: seq<D>, t: seq<D>, pair: (D, D) -> D)
    requires Injective(pair) && |s| == |t| && PairUp(s, pair) == PairUp(t, pair)
    ensures s == t
  {
    forall i | 0 <= i < |s| ensures s[i] == t[i] {
      var m := i / 2;
      PairUpAt(s, pair, m);
      PairUpAt(t, pair, m);
      assert i == 2 * m || i == 2 * m + 1;
      hide PairUp;
      if 2 * m + 1 < |s| {
        assert pair(s[2 * m], s[2 * m + 1]) == pair(t[2 * m], t[2 * m + 1]);
      }
    }
  }

  /** Two lists of the same length with the same root are the same list. */
  lemma {:induction false} RootInjective<D(!new)>(s: seq<D>, t: seq<D>, pair: (D, D) -> D)
    requires Injective(pair) && |s| == |t| > 0 && Root(s, pair) == Root(t, pair)
    ensures s == t
    decreases |s|
  {
    if |s| > 1 {
      RootInjective(PairUp(s, pair), PairUp(t, pair), pair);
      PairUpInjective(s, t, pair);
    }
  }

  /** Lengths matter: a carried digest makes a shorter list with the same root. */
  lemma ShorterListSameRoot<D>(a: D, b: D, c: D, pair: (D, D) -> D)
    ensures Root([a, b, c], pair) == Root([pair(a, b), c], pair)
  {
    assert PairUp([a, b, c], pair) == [pair(a, b), c] by { assert [a, b, c][2..] == [c]; }
  }

  /** The value stored in the block header. */
  ghost function MerkleRoot<D>(digests: seq<D>, pair: (D, D) -> D, seal: D -> D, empty: D): D
  {
    if digests == [] then empty else seal(Root(digests, pair))
  }

  /** Among non-empty blocks with equal headers, the transactions are equal exactly when their
      numbers are. */
  lemma EqualHeadersEqualTransactions<D(!new)>(s: seq<D>, t: seq<D>, pair: (D, D) -> D, seal: D -> D, empty: D)
    requires Injective(pair) && (forall a, b :: seal(a) == seal(b) ==> a == b)
    requires s != [] && t != [] && MerkleRoot(s, pair, seal, empty) == MerkleRoot(t, pair, seal, empty)
    ensures s == t <==> |s| == |t|
  {
    if |s| == |t| { RootInjective(s, t, pair); }
  }

  /** The in-place loop. */
  method ComputeMerkleRoot<D(0)>(digests: seq<D>, pair: (D, D) -> D, seal: D -> D, empty: D) returns (root: D)
    ensures root == MerkleRoot(digests, pair, seal, empty)
  {
    if |digests| == 0 {
      return empty;
    }
    var ids := new D[|digests|](i requires 0 <= i < |digests| => digests[i]);
    assert ids[..] == digests;
    var count := ids.Length;
    assert ids[..count] == digests;
    while count > 1
      invariant 1 <= count <= ids.Length
      invariant Root(ids[..count], pair) == Root(digests, pair)
    {
      ghost var level := ids[..count];
      count := HashPairs(ids, count, pair);
      assert ids[..count] == PairUp(level, pair);
    }
    assert ids[..1] == [ids[0]];
    return seal(ids[0]);
  }

  /** One round over the first `count` digests: each is read before its cell is overwritten. */
  method HashPairs<D>(ids: array<D>, count: nat, pair: (D, D) -> D) returns (k: nat)
    requires 1 < count <= ids.Length
    modifies ids
    ensures k == (count + 1) / 2 && ids[..k] == PairUp(old(ids[..count]), pair)
  {
    hide PairUp;
    ghost var level := ids[..count];
    var max := count - count % 2;
    var i := 0;
    k := 0;
    while i < max
      invariant 0 <= i <= max && i == 2 * k
      invariant forall j :: 0 <= j < k ==> ids[j] == PairAt(level, pair, j)
      invariant forall j :: i <= j < count ==> ids[j] == level[j]
    {
      ids[k] := pair(ids[i], ids[i + 1]);
      k := k + 1;
      i := i + 2;
    }
    if count % 2 == 1 {
      ids[k] := ids[max];
      k := k + 1;
    }
    forall j | 0 <= j < k ensures ids[j] == PairUp(level, pair)[j] {
      PairUpAt(level, pair, j);
    }
  }
}
