/** Votes on a post: what each weighs, and the totals kept next to them. */
module Votes {
  import opened Sums
  import opened Arithmetic
  import opened Parts

  datatype Name = Name(id: nat)

  /** `weight` is the voter's claim on the curation reward, `rshares` the signed strength of the vote. */
  datatype Vote = Vote(percent: int, weight: nat, rshares: int)

  type VoteMap = map<Name, Vote>

  datatype Post = Post(author: Name, created: nat, cashout: nat, votes: VoteMap, net: int, positive: int, total: int,
    netVotes: int,
    allowVotes: bool, allowCuration: bool, maxPayout: nat, beneficiaries: seq<Beneficiary>)

  datatype Beneficiary = Beneficiary(account: Name, weight: nat)

  /** The rules in force: whether an edited vote counts like a new one, and how a weight shrinks with the age of
      the post. */
  datatype Rules = Rules(freeEdits: bool, auction: nat, early: nat, mid: nat, curationPercent: nat)

  /** Since edits are free there is no auction at the start of a post. */
  predicate Modern(r: Rules)
  {
    r.freeEdits && r.auction == 0
  }

  function Up(rshares: int): int
  {
    if rshares > 0 then rshares else 0
  }

  function Sign(x: int): int
  {
    if x > 0 then 1 else if x < 0 then -1 else 0
  }

  // ---- Totals over the votes ----

  ghost function Weights(vs: VoteMap): Name -> int { v => if v in vs then vs[v].weight else 0 }
  ghost function Strengths(vs: VoteMap): Name -> int { v => if v in vs then vs[v].rshares else 0 }
  ghost function UpStrengths(vs: VoteMap): Name -> int { v => if v in vs then Up(vs[v].rshares) else 0 }
  ghost function Signs(vs: VoteMap): Name -> int { v => if v in vs then Sign(vs[v].percent) else 0 }

  ghost function WeightSum(vs: VoteMap): int { Sum(vs.Keys, Weights(vs)) }
  ghost function StrengthSum(vs: VoteMap): int { Sum(vs.Keys, Strengths(vs)) }
  ghost function UpSum(vs: VoteMap): int { Sum(vs.Keys, UpStrengths(vs)) }
  ghost function SignSum(vs: VoteMap): int { Sum(vs.Keys, Signs(vs)) }

  /** The vote cast before, or one that counts for nothing. */
  function Previous(vs: VoteMap, v: Name): Vote
  {
    if v in vs then vs[v] else Vote(0, 0, 0)
  }

  lemma SetOne(vs: VoteMap, v: Name, x: Vote, f: Name -> int, g: Name -> int, was: int)
    requires forall y :: y in vs.Keys && y != v ==> f(y) == g(y)
    requires was == if v in vs then f(v) else 0
    ensures Sum(vs[v := x].Keys, g) == Sum(vs.Keys, f) + g(v) - was
  {
    if v in vs {
      assert vs[v := x].Keys == vs.Keys;
      SumChangeOne(vs.Keys, f, g, v);
    } else {
      assert vs[v := x].Keys == vs.Keys + {v};
      SumInsert(vs.Keys, g, v);
      SumCongruent(vs.Keys, f, g);
    }
  }

  lemma VoteSet(vs: VoteMap, v: Name, x: Vote)
    ensures WeightSum(vs[v := x]) == WeightSum(vs) + x.weight - Previous(vs, v).weight
    ensures StrengthSum(vs[v := x]) == StrengthSum(vs) + x.rshares - Previous(vs, v).rshares
    ensures UpSum(vs[v := x]) == UpSum(vs) + Up(x.rshares) - Up(Previous(vs, v).rshares)
    ensures SignSum(vs[v := x]) == SignSum(vs) + Sign(x.percent) - Sign(Previous(vs, v).percent)
  {
    var after := vs[v := x];
    SetOne(vs, v, x, Weights(vs), Weights(after), Previous(vs, v).weight);
    SetOne(vs, v, x, Strengths(vs), Strengths(after), Previous(vs, v).rshares);
    SetOne(vs, v, x, UpStrengths(vs), UpStrengths(after), Up(Previous(vs, v).rshares));
    SetOne(vs, v, x, Signs(vs), Signs(after), Sign(Previous(vs, v).percent));
  }

  /** The weights handed out never exceed the total they are measured against. */
  ghost predicate Weighed(p: Post)
  {
    WeightSum(p.votes) <= p.total && p.net == StrengthSum(p.votes) && p.netVotes == SignSum(p.votes)
  }

  /** On a post only ever voted on under modern rules the totals are exact. */
  ghost predicate Exact(p: Post)
  {
    Weighed(p) && p.total == WeightSum(p.votes) && p.positive == UpSum(p.votes)
  }

  // ---- Curators ----

  /** A voter's share of the curation reward, truncated. */
  function Claim(p: Post, reward: nat, v: Name): nat
  {
    if v in p.votes && p.total > 0 then MulDiv(reward, p.votes[v].weight, p.total) else 0
  }

  ghost function Claims(p: Post, reward: nat): Name -> int
  {
    v => Claim(p, reward, v)
  }

  ghost function ClaimSum(p: Post, reward: nat, voters: set<Name>): int
  {
    Sum(voters, Claims(p, reward))
  }

  /** Curators together never claim more than the reward. */
  lemma ClaimsWithin(p: Post, reward: nat)
    requires Weighed(p)
    ensures 0 <= ClaimSum(p, reward, p.votes.Keys) <= reward
  {
    forall v | v in p.votes.Keys ensures Claims(p, reward)(v) >= 0 { }
    SumNonNegative(p.votes.Keys, Claims(p, reward));
    if p.total > 0 {
      forall v | v in p.votes.Keys
        ensures Weights(p.votes)(v) >= 0 && Claims(p, reward)(v) == MulDiv(reward, Weights(p.votes)(v), p.total)
      { }
      PartsWithin(p.votes.Keys, Weights(p.votes), Claims(p, reward), reward, p.total);
      MulDivAtMost(reward, WeightSum(p.votes), p.total);
    } else {
      forall v | v in p.votes.Keys ensures Claims(p, reward)(v) == 0 { }
      SumZero(p.votes.Keys, Claims(p, reward));
    }
  }

  /** A share of a reward by weight, truncated. */
  ghost predicate ByWeight(n: int, reward: nat, weight: nat, total: nat)
  {
    n * total <= reward * weight < (n + 1) * total
  }

  lemma ClaimExact(p: Post, reward: nat, v: Name)
    ensures if v in p.votes && p.total > 0 then ByWeight(Claim(p, reward, v), reward, p.votes[v].weight, p.total)
      else Claim(p, reward, v) == 0
  {
    if v in p.votes && p.total > 0 { MulDivBounds(reward, p.votes[v].weight, p.total); }
  }

  /** On a post with exact totals curators together miss the reward by less than one unit each. */
  lemma ClaimsMiss(p: Post, reward: nat)
    requires Exact(p) && p.total > 0
    ensures reward < ClaimSum(p, reward, p.votes.Keys) + |p.votes|
  {
    forall v | v in p.votes.Keys
      ensures Weights(p.votes)(v) >= 0 && Claims(p, reward)(v) == MulDiv(reward, Weights(p.votes)(v), p.total)
    { }
    WholeMissed(p.votes.Keys, Weights(p.votes), Claims(p, reward), reward, p.total);
    assert |p.votes.Keys| == |p.votes|;
  }

  lemma ClaimsOf(p: Post, reward: nat, done: set<Name>, v: Name)
    requires Weighed(p) && done < p.votes.Keys && v in p.votes.Keys && v !in done
    ensures ClaimSum(p, reward, done + {v}) == ClaimSum(p, reward, done) + Claim(p, reward, v)
    ensures ClaimSum(p, reward, done) + Claim(p, reward, v) <= reward
  {
    SumInsert(done, Claims(p, reward), v);
    forall u | u in p.votes.Keys ensures Claims(p, reward)(u) >= 0 { }
    SumSubset(done + {v}, p.votes.Keys, Claims(p, reward));
    ClaimsWithin(p, reward);
  }
}
