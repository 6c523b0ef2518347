/** Dividing an amount into truncated parts. */
module Parts {
  import opened Sums
  import opened Arithmetic

  /** Truncated parts of an amount add up to at most the truncated part of their sum. */
  lemma {:induction false} PartsWithin<T(!new)>(keys: set<T>, weight: T -> int, part: T -> int, amount: nat, whole: nat)
    requires whole > 0
    requires forall k :: k in keys ==> weight(k) >= 0 && part(k) == MulDiv(amount, weight(k), whole)
    ensures Sum(keys, weight) >= 0
    ensures Sum(keys, part) <= MulDiv(amount, Sum(keys, weight), whole)
    decreases |keys|
  {
    hide MulDiv;
    if keys == {} {
    } else {
      var k :| k in keys;
      PartsWithin(keys - {k}, weight, part, amount, whole);
      SumRemove(keys, part, k);
      SumRemove(keys, weight, k);
      hide Sum;
      MulDivSuperadditive(amount, Sum(keys - {k}, weight), weight(k), whole);
    }
  }

  /** They miss it by less than one unit for each part. */
  lemma {:induction false} PartsMiss<T(!new)>(keys: set<T>, weight: T -> int, part: T -> int, amount: nat, whole: nat)
    requires whole > 0 && keys != {}
    requires forall k :: k in keys ==> weight(k) >= 0 && part(k) == MulDiv(amount, weight(k), whole)
    ensures amount * Sum(keys, weight) < (Sum(keys, part) + |keys|) * whole
    decreases |keys|
  {
    hide MulDiv;
    var k :| k in keys;
    var rest := keys - {k};
    SumRemove(keys, part, k);
    SumRemove(keys, weight, k);
    MulDivBounds(amount, weight(k), whole);
    var w, p, n := Sum(rest, weight), Sum(rest, part), |rest|;
    assert |keys| == n + 1;
    if rest != {} {
      PartsMiss(rest, weight, part, amount, whole);
    }
    hide Sum;
    OneMorePart(amount, w, weight(k), p + n, part(k), whole);
  }

  lemma OneMorePart(amount: int, w: int, more: int, p: int, part: int, whole: int)
    requires amount * w <= p * whole && amount * more < part * whole + whole
    ensures amount * (more + w) < (part + 1 + p) * whole
  {
    assert amount * (more + w) == amount * more + amount * w;
    assert (part + 1 + p) * whole == part * whole + whole + p * whole;
  }

  /** Parts of the whole miss the amount by less than one unit for each. */
  lemma WholeMissed<T(!new)>(keys: set<T>, weight: T -> int, part: T -> int, amount: nat, whole: nat)
    requires whole > 0 && Sum(keys, weight) == whole
    requires forall k :: k in keys ==> weight(k) >= 0 && part(k) == MulDiv(amount, weight(k), whole)
    ensures amount < Sum(keys, part) + |keys|
  {
    hide MulDiv;
    assert keys != {};
    PartsMiss(keys, weight, part, amount, whole);
    PartsWithin(keys, weight, part, amount, whole);
    var got := Sum(keys, part) + |keys|;
    forall k | k in keys ensures part(k) >= 0 { }
    SumNonNegative(keys, part);
    hide Sum;
    if got <= amount { MulMonotone(got, amount, whole); }
  }
}
