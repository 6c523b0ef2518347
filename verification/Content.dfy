/** Voting on posts and paying them out of the reward fund. */
module Content {
  import opened Common
  import opened Sums
  import opened Arithmetic
  import opened Parts
  import opened Votes
  import opened AuthorPayout

  const VOTE_DUST: nat := 50000
  const LOCKOUT: nat := 60 * 60 * 12
  const DECAY: nat := 60 * 60 * 24 * 15
  const MIN_PAYOUT: nat := 20

  datatype Id = Id(n: nat)

  // ---- The strength and weight of a vote ----

  /** Mana spent, less the dust threshold, and less the closer the post is to its payout. */
  function Strength(percent: int, mana: nat, left: nat): int
  {
    var full := if mana <= VOTE_DUST then 0 else mana - VOTE_DUST;
    var kept := if left < LOCKOUT then MulDiv(full, left, LOCKOUT) else full;
    if percent < 0 then -kept else kept
  }

  /** The strength of a vote: its sign is the vote's, and its size what was spent above the dust threshold, in
      proportion to the time left once that is short. */
  ghost predicate AsStrong(rshares: int, percent: int, mana: nat, left: nat)
  {
    var size := if percent < 0 then -rshares else rshares;
    if mana <= VOTE_DUST then size == 0
    else if left >= LOCKOUT then size == mana - VOTE_DUST
    else ByWeight(size, mana - VOTE_DUST, left, LOCKOUT)
  }

  lemma StrengthExact(percent: int, mana: nat, left: nat)
    ensures AsStrong(Strength(percent, mana, left), percent, mana, left)
  {
    if mana <= VOTE_DUST {
      MulDivAtMost(0, if left < LOCKOUT then left else 0, LOCKOUT);
    } else {
      MulDivBounds(mana - VOTE_DUST, left, LOCKOUT);
    }
  }

  /** What a vote adds to its voter's claim, and to the total: during an auction the difference is nobody's. */
  function WeightFor(full: nat, age: nat, r: Rules): (nat, nat)
  {
    if age < r.auction then (MulDiv(full, age, r.auction), full)
    else if age >= r.early && r.early > 0 then
      var w := if age < r.early + r.mid then full / 2 else full / 8;
      (w, w)
    else (full, full)
  }

  /** The weight of a vote: in proportion to the age of the post during an auction, whose loss still counts in the
      total; afterwards all of it to an early vote, half to a later one, and an eighth to a late one. */
  ghost predicate AsHeavy(weight: int, counted: int, full: nat, age: nat, r: Rules)
  {
    if age < r.auction then counted == full && ByWeight(weight, full, age, r.auction)
    else if r.early == 0 || age < r.early then counted == weight == full
    else if age < r.early + r.mid then counted == weight && weight * 2 <= full < weight * 2 + 2
    else counted == weight && weight * 8 <= full < weight * 8 + 8
  }

  lemma WeightExact(full: nat, age: nat, r: Rules)
    ensures AsHeavy(WeightFor(full, age, r).0, WeightFor(full, age, r).1, full, age, r)
  {
    if age < r.auction { MulDivBounds(full, age, r.auction); }
  }

  lemma WeightWithin(full: nat, age: nat, r: Rules)
    ensures WeightFor(full, age, r).0 <= WeightFor(full, age, r).1
    ensures r.auction == 0 ==> WeightFor(full, age, r).0 == WeightFor(full, age, r).1
  {
    if age < r.auction { MulDivAtMost(full, age, r.auction); }
  }

  // ---- Beneficiaries ----

  function Share(author: nat, b: Beneficiary): nat
  {
    MulDiv(author, b.weight, HUNDRED_PERCENT)
  }

  function Shares(author: nat, bs: seq<Beneficiary>): nat
  {
    if bs == [] then 0 else Shares(author, bs[..|bs| - 1]) + Share(author, bs[|bs| - 1])
  }

  function SharesTo(author: nat, bs: seq<Beneficiary>, a: Name): nat
  {
    if bs == [] then 0 else
      SharesTo(author, bs[..|bs| - 1], a)
      + if bs[|bs| - 1].account == a then Share(author, bs[|bs| - 1]) else 0
  }

  function TotalWeight(bs: seq<Beneficiary>): nat
  {
    if bs == [] then 0 else TotalWeight(bs[..|bs| - 1]) + bs[|bs| - 1].weight
  }

  lemma {:induction false} SharesBound(author: nat, bs: seq<Beneficiary>)
    ensures Shares(author, bs) <= MulDiv(author, TotalWeight(bs), HUNDRED_PERCENT)
  {
    hide MulDiv;
    if bs == [] {
    } else {
      SharesBound(author, bs[..|bs| - 1]);
      MulDivSuperadditive(author, TotalWeight(bs[..|bs| - 1]), bs[|bs| - 1].weight, HUNDRED_PERCENT);
    }
  }

  lemma ShareExact(author: nat, b: Beneficiary)
    ensures ByWeight(Share(author, b), author, b.weight, HUNDRED_PERCENT)
  {
    MulDivBounds(author, b.weight, HUNDRED_PERCENT);
  }

  /** Beneficiaries miss their part of the author's reward by less than one unit each. */
  lemma {:induction false} SharesMiss(author: nat, bs: seq<Beneficiary>)
    ensures author * TotalWeight(bs) <= (Shares(author, bs) + |bs|) * HUNDRED_PERCENT
  {
    hide Share;
    if bs != [] {
      var init, last := bs[..|bs| - 1], bs[|bs| - 1];
      SharesMiss(author, init);
      ShareExact(author, last);
      OneMorePart(author, TotalWeight(init), last.weight, Shares(author, init) + |init|, Share(author, last),
          HUNDRED_PERCENT);
    }
  }

  /** Beneficiaries together never take more than the author's part. */
  lemma SharesWithin(author: nat, bs: seq<Beneficiary>)
    requires TotalWeight(bs) <= HUNDRED_PERCENT
    ensures Shares(author, bs) <= author
  {
    SharesBound(author, bs);
    MulDivAtMost(author, TotalWeight(bs), HUNDRED_PERCENT);
  }

  lemma {:induction false} SharesPrefix(author: nat, bs: seq<Beneficiary>, i: nat)
    requires i < |bs|
    ensures Shares(author, bs[..i]) + Share(author, bs[i]) <= Shares(author, bs)
    decreases |bs|
  {
    hide Share;
    if i == |bs| - 1 {
    } else {
      assert bs[..|bs| - 1][..i] == bs[..i];
      SharesPrefix(author, bs[..|bs| - 1], i);
    }
  }

  lemma SharesOneMore(author: nat, bs: seq<Beneficiary>, i: nat)
    requires i < |bs|
    ensures Shares(author, bs[..i + 1]) == Shares(author, bs[..i]) + Share(author, bs[i])
    ensures forall a ::
      SharesTo(author, bs[..i + 1], a)
      == SharesTo(author, bs[..i], a) + if bs[i].account == a then Share(author, bs[i]) else 0
  {
    assert bs[..i + 1][..i] == bs[..i];
  }

  // ---- What a post earns ----

  /** The fund, all claims on it, the price, and the curators' percentage, as they stand when a round of payouts
      begins. */
  datatype Round = Round(fund: nat, claims: nat, price: Option<Price>, curationPercent: nat)

  predicate IsRound(r: Round)
  {
    (r.price.Some? ==> IsPrice(r.price.value)) && r.curationPercent <= HUNDRED_PERCENT
  }

  /** A post's part of the fund for its claim, before the limits. */
  function Part(r: Round, claim: nat): nat
    requires r.claims > 0
  {
    MulDiv(r.fund, claim, r.claims)
  }

  /** Nothing if that is dust, and never more than the author accepts. */
  function Earned(r: Round, claim: nat, maxPayout: nat): nat
    requires r.claims > 0 && IsRound(r)
  {
    if r.price.None? then 0 else
      var payout := if ToHbd(Part(r, claim), r.price.value) < MIN_PAYOUT then 0 else Part(r, claim);
      var limit := MulDiv(maxPayout, r.price.value.quote, r.price.value.base);
      if payout <= limit then payout else limit
  }

  lemma EarnedWithin(r: Round, claim: nat, maxPayout: nat)
    requires r.claims > 0 && IsRound(r)
    ensures Earned(r, claim, maxPayout) <= Part(r, claim)
  {
    hide Part, ToHbd;
  }

  /** What a post earns: its part of the fund by its claim, unless that is worth less than the least payout, and at
      most what the author accepts; without a price nothing. */
  ghost predicate AsEarned(reward: nat, part: nat, r: Round, claim: nat, maxPayout: nat)
  {
    ByWeight(part, r.fund, claim, r.claims) && (
      if r.price.None? then reward == 0 else
        var p := r.price.value;
        reward * p.base <= maxPayout * p.quote && (
          if part * p.base < MIN_PAYOUT * p.quote then reward == 0
          else if part * p.base <= maxPayout * p.quote then reward == part
          else maxPayout * p.quote < (reward + 1) * p.base))
  }

  lemma EarnedExact(r: Round, claim: nat, maxPayout: nat)
    requires r.claims > 0 && IsRound(r)
    ensures AsEarned(Earned(r, claim, maxPayout), Part(r, claim), r, claim, maxPayout)
    ensures r.price.Some? ==> ToHbd(Earned(r, claim, maxPayout), r.price.value) <= maxPayout
  {
    MulDivBounds(r.fund, claim, r.claims);
    if r.price.Some? {
      var p, part := r.price.value, Part(r, claim);
      hide Part;
      DustAt(part, p);
      var limit := MulDiv(maxPayout, p.quote, p.base);
      MulDivBounds(maxPayout, p.quote, p.base);
      assert (limit + 1) * p.base == limit * p.base + p.base;
      LimitAt(part, limit, maxPayout * p.quote, p.base);
      var reward := Earned(r, claim, maxPayout);
      MulMonotone(reward, limit, p.base);
      QuotientMonotone(reward * p.base, maxPayout * p.quote, p.quote);
      QuotientExact(maxPayout, p.quote);
    }
  }

  lemma DustAt(part: nat, p: Price)
    requires IsPrice(p)
    ensures ToHbd(part, p) < MIN_PAYOUT <==> part * p.base < MIN_PAYOUT * p.quote
  {
    if part * p.base < MIN_PAYOUT * p.quote {
      QuotientBelow(part * p.base, p.quote, MIN_PAYOUT);
    } else {
      QuotientAtLeast(part * p.base, p.quote, MIN_PAYOUT);
    }
  }

  lemma LimitAt(part: nat, limit: nat, worth: nat, base: nat)
    requires base > 0 && limit * base <= worth < limit * base + base
    ensures part <= limit <==> part * base <= worth
  {
    if part <= limit { MulMonotone(part, limit, base); } else { MulStrict(limit, part, base); }
  }

  lemma ForCuratorsExact(r: Round, reward: nat)
    requires IsRound(r)
    ensures ByWeight(ForCurators(r, reward), reward, r.curationPercent, HUNDRED_PERCENT)
  {
    MulDivBounds(reward, r.curationPercent, HUNDRED_PERCENT);
  }

  function ForCurators(r: Round, reward: nat): nat
    requires IsRound(r)
    ensures ForCurators(r, reward) <= reward
  {
    MulDivAtMost(reward, r.curationPercent, HUNDRED_PERCENT);
    MulDiv(reward, r.curationPercent, HUNDRED_PERCENT)
  }

  /** What the curators of a post are paid out of a reward for them. */
  ghost function ToCurators(p: Post, reward: nat): int
  {
    if p.allowCuration && p.total > 0 then ClaimSum(p, reward, p.votes.Keys) else 0
  }

  /** What leaves the fund for a post: the author's part, beneficiaries included, and what curators claimed. */
  ghost function Claimed(r: Round, p: Post, reward: nat): int
    requires IsRound(r)
  {
    reward - ForCurators(r, reward) + ToCurators(p, ForCurators(r, reward))
  }

  lemma ClaimedWithin(r: Round, p: Post, reward: nat)
    requires IsRound(r) && Weighed(p)
    ensures 0 <= Claimed(r, p, reward) <= reward
  {
    hide Weighed, ClaimSum, ForCurators;
    ClaimsWithin(p, ForCurators(r, reward));
  }

  predicate Sharing(p: Post)
  {
    TotalWeight(p.beneficiaries) <= HUNDRED_PERCENT
  }

  type Wallets = map<Name, nat>

  function Got(w: Wallets, a: Name): nat
  {
    if a in w then w[a] else 0
  }

  function Paid(w: Wallets, a: Name, n: nat): Wallets
  {
    w[a := Got(w, a) + n]
  }

  ghost function GotBy(w: Wallets): Name -> int { a => Got(w, a) }
  ghost function AllGot(w: Wallets): int { Sum(w.Keys, GotBy(w)) }

  lemma PaidAdds(w: Wallets, a: Name, n: nat)
    ensures AllGot(Paid(w, a, n)) == AllGot(w) + n
  {
    var after := Paid(w, a, n);
    if a in w {
      assert after.Keys == w.Keys;
      SumChangeOne(w.Keys, GotBy(w), GotBy(after), a);
    } else {
      assert after.Keys == w.Keys + {a};
      SumInsert(w.Keys, GotBy(after), a);
      SumCongruent(w.Keys, GotBy(w), GotBy(after));
    }
  }

  // ---- Who gets what ----

  /** What an account gets from a post: as a curator, as a beneficiary, and as the author. */
  function Income(r: Round, p: Post, reward: nat, a: Name): int
    requires IsRound(r)
  {
    var author := reward - ForCurators(r, reward);
    (if p.allowCuration then Claim(p, ForCurators(r, reward), a) else 0)
    + SharesTo(author, p.beneficiaries, a)
    + (if a == p.author then author - Shares(author, p.beneficiaries) else 0)
  }

  ghost predicate CuratorsPaid(before: Wallets, after: Wallets, p: Post, reward: nat, done: set<Name>)
  {
    && (forall a :: Got(after, a) == Got(before, a) + if a in done then Claim(p, reward, a) else 0)
    && AllGot(after) == AllGot(before) + ClaimSum(p, reward, done)
  }

  lemma CuratorPaid(before: Wallets, after: Wallets, p: Post, reward: nat, done: set<Name>, v: Name)
    requires
      && Weighed(p) && done < p.votes.Keys && v in p.votes.Keys && v !in done
      && CuratorsPaid(before, after, p, reward, done)
    ensures CuratorsPaid(before, Paid(after, v, Claim(p, reward, v)), p, reward, done + {v})
  {
    hide Claim, ClaimSum, AllGot, Weighed;
    ClaimsOf(p, reward, done, v);
    PaidAdds(after, v, Claim(p, reward, v));
  }

  lemma CuratorSkipped(before: Wallets, after: Wallets, p: Post, reward: nat, done: set<Name>, v: Name)
    requires
      && Weighed(p) && done < p.votes.Keys && v in p.votes.Keys && v !in done
      && CuratorsPaid(before, after, p, reward, done)
    requires Claim(p, reward, v) == 0
    ensures CuratorsPaid(before, after, p, reward, done + {v})
  {
    hide Claim, ClaimSum, AllGot, Weighed;
    ClaimsOf(p, reward, done, v);
  }

  /** Every voter has got their share by weight, and nobody else anything. */
  ghost predicate CuratorsShare(before: Wallets, after: Wallets, p: Post, reward: nat)
  {
    forall a ::
      var claim := Got(after, a) - Got(before, a);
      if p.allowCuration && p.total > 0 && a in p.votes then ByWeight(claim, reward, p.votes[a].weight, p.total)
      else claim == 0
  }

  lemma CuratorsGot(before: Wallets, after: Wallets, p: Post, reward: nat)
    requires forall a :: Got(after, a) == Got(before, a) + if p.allowCuration then Claim(p, reward, a) else 0
    ensures CuratorsShare(before, after, p, reward)
  {
    hide Claim, ByWeight, Got;
    forall a ensures
      var claim := Got(after, a) - Got(before, a);
      if p.allowCuration && p.total > 0 && a in p.votes then ByWeight(claim, reward, p.votes[a].weight, p.total)
      else claim == 0
    {
      ClaimExact(p, reward, a);
    }
  }

  ghost predicate BenefitsPaid(before: Wallets, after: Wallets, author: nat, bs: seq<Beneficiary>)
  {
    && (forall a :: Got(after, a) == Got(before, a) + SharesTo(author, bs, a))
    && AllGot(after) == AllGot(before) + Shares(author, bs)
  }

  lemma BenefitPaid(before: Wallets, after: Wallets, author: nat, bs: seq<Beneficiary>, i: nat)
    requires i < |bs| && BenefitsPaid(before, after, author, bs[..i])
    ensures BenefitsPaid(before, Paid(after, bs[i].account, Share(author, bs[i])), author, bs[..i + 1])
  {
    hide Share, Shares, SharesTo, AllGot;
    SharesOneMore(author, bs, i);
    PaidAdds(after, bs[i].account, Share(author, bs[i]));
  }

  // ---- Posts and the fund ----

  ghost predicate Sound(posts: map<Id, Post>)
  {
    forall id :: id in posts ==> Weighed(posts[id]) && Sharing(posts[id])
  }

  /** The state of a post after a vote, from the vote's strength and what it adds to its voter's claim and to the
      total. */
  function WithVote(p: Post, voter: Name, vote: Vote, counted: nat, r: Rules): Post
  {
    var was := Previous(p.votes, voter);
    p.(votes := p.votes[voter := vote],
      net := p.net + vote.rshares - was.rshares,
      positive := p.positive + (if voter !in p.votes || r.freeEdits then Up(vote.rshares) - Up(was.rshares) else 0),
      total := p.total + counted - was.weight,
      netVotes := p.netVotes + Sign(vote.percent) - Sign(was.percent))
  }

  /** Whatever a vote or an edit counts for, if no less is added to the total than to the voter's claim, claims
      stay covered. */
  lemma VoteWeighed(p: Post, voter: Name, vote: Vote, counted: nat, r: Rules)
    requires Weighed(p) && vote.weight <= counted
    ensures Weighed(WithVote(p, voter, vote, counted, r))
  {
    hide WeightSum, StrengthSum, SignSum;
    VoteSet(p.votes, voter, vote);
  }

  lemma VoteExact(p: Post, voter: Name, vote: Vote, counted: nat, r: Rules)
    requires Exact(p) && Modern(r) && vote.weight == counted
    ensures Exact(WithVote(p, voter, vote, counted, r))
  {
    hide WeightSum, StrengthSum, SignSum, UpSum;
    VoteSet(p.votes, voter, vote);
  }

  lemma VoteKept(p: Post, voter: Name, vote: Vote, counted: nat, r: Rules)
    ensures var q := WithVote(p, voter, vote, counted, r);
      && q.votes == p.votes[voter := vote] && q.total - p.total + Previous(p.votes, voter).weight == counted
  {
  }

  // ---- A round of payouts ----

  predicate Due(p: Post, now: nat)
  {
    p.cashout <= now
  }

  ghost function DueIds(posts: map<Id, Post>, now: nat): set<Id>
  {
    set id | id in posts && Due(posts[id], now)
  }

  /** A post's claim on the fund: nothing without a positive strength. */
  function ClaimOf(curve: int -> nat, p: Post): nat
  {
    if p.net > 0 then curve(p.net) else 0
  }

  ghost function ClaimsOn(curve: int -> nat, posts: map<Id, Post>): Id -> int
  {
    id => if id in posts then ClaimOf(curve, posts[id]) else 0
  }

  ghost function PartsOf(curve: int -> nat, posts: map<Id, Post>, r: Round): Id -> int
    requires r.claims > 0
  {
    id => if id in posts then Part(r, ClaimOf(curve, posts[id])) else 0
  }

  /** What a post takes from the fund in a round. */
  ghost function Takes(curve: int -> nat, p: Post, r: Round): int
    requires r.claims > 0 && IsRound(r)
  {
    if p.net > 0 then Claimed(r, p, Earned(r, curve(p.net), p.maxPayout)) else 0
  }

  ghost function TakesOf(curve: int -> nat, posts: map<Id, Post>, r: Round): Id -> int
    requires r.claims > 0 && IsRound(r)
  {
    id => if id in posts then Takes(curve, posts[id], r) else 0
  }

  /** All posts due together have parts within the fund, because every one of their claims was counted first. */
  lemma PartsFit(curve: int -> nat, posts: map<Id, Post>, ids: set<Id>, r: Round)
    requires r.claims > 0 && ids <= posts.Keys && Sum(ids, ClaimsOn(curve, posts)) <= r.claims
    ensures 0 <= Sum(ids, PartsOf(curve, posts, r)) <= r.fund
  {
    PartsWithin(ids, ClaimsOn(curve, posts), PartsOf(curve, posts, r), r.fund, r.claims);
    MulDivAtMost(r.fund, Sum(ids, ClaimsOn(curve, posts)), r.claims);
    SumNonNegative(ids, PartsOf(curve, posts, r));
  }

  lemma TakesWithin(curve: int -> nat, p: Post, r: Round)
    requires r.claims > 0 && IsRound(r) && Weighed(p)
    ensures 0 <= Takes(curve, p, r) <= Part(r, ClaimOf(curve, p))
    ensures p.net > 0 ==> Earned(r, curve(p.net), p.maxPayout) <= Part(r, ClaimOf(curve, p))
  {
    hide Claimed, Earned, Part, Weighed;
    if p.net > 0 {
      EarnedWithin(r, curve(p.net), p.maxPayout);
      ClaimedWithin(r, p, Earned(r, curve(p.net), p.maxPayout));
    }
  }

  /** What a post takes is worth no more than its author accepts; the reward it is paid from is its part of the fund
      if that is neither dust nor above this limit, and what of it does not leave is what curators did not claim. */
  ghost predicate Within(curve: int -> nat, p: Post, r: Round)
    requires r.claims > 0 && IsRound(r)
  {
    var takes := Takes(curve, p, r);
    if p.net <= 0 || r.price.None? then takes == 0 else
      var reward := Earned(r, curve(p.net), p.maxPayout);
      var curation := ForCurators(r, reward);
      && 0 <= takes <= reward && takes * r.price.value.base <= p.maxPayout * r.price.value.quote
      && AsEarned(reward, Part(r, curve(p.net)), r, curve(p.net), p.maxPayout)
      && ByWeight(curation, reward, r.curationPercent, HUNDRED_PERCENT) && reward - curation <= takes
      && (p.allowCuration && p.total > 0 && Exact(p) ==> reward < takes + |p.votes|)
  }

  lemma TakesLimited(curve: int -> nat, p: Post, r: Round)
    requires r.claims > 0 && IsRound(r) && Weighed(p)
    ensures Within(curve, p, r)
  {
    hide Earned, Part, Weighed, ForCurators, AsEarned, ByWeight, ClaimSum, Exact;
    if p.net > 0 {
      var reward := Earned(r, curve(p.net), p.maxPayout);
      EarnedExact(r, curve(p.net), p.maxPayout);
      ForCuratorsExact(r, reward);
      ClaimedWithin(r, p, reward);
      ClaimsWithin(p, ForCurators(r, reward));
      if Exact(p) && p.total > 0 { ClaimsMiss(p, ForCurators(r, reward)); }
      NothingEarned(r, curve(p.net), p.maxPayout);
      if r.price.Some? {
        EarnedBelow(r, curve(p.net), p.maxPayout);
        MulMonotone(Takes(curve, p, r), reward, r.price.value.base);
      }
    }
  }

  ghost predicate AllWithin(curve: int -> nat, posts: map<Id, Post>, r: Round, now: nat)
    requires r.claims > 0 && IsRound(r)
  {
    forall id :: id in posts && Due(posts[id], now) ==> Within(curve, posts[id], r)
  }

  lemma AllLimited(curve: int -> nat, posts: map<Id, Post>, r: Round, now: nat)
    requires r.claims > 0 && IsRound(r) && Sound(posts)
    ensures AllWithin(curve, posts, r, now)
  {
    hide Within, Weighed, Sharing;
    forall id | id in posts && Due(posts[id], now) ensures Within(curve, posts[id], r) {
      TakesLimited(curve, posts[id], r);
    }
  }

  lemma NothingEarned(r: Round, claim: nat, maxPayout: nat)
    requires r.claims > 0 && IsRound(r)
    ensures r.price.None? ==> Earned(r, claim, maxPayout) == 0
  {
  }

  lemma EarnedBelow(r: Round, claim: nat, maxPayout: nat)
    requires r.claims > 0 && IsRound(r) && r.price.Some?
    ensures Earned(r, claim, maxPayout) * r.price.value.base <= maxPayout * r.price.value.quote
  {
    hide Earned, Part, ByWeight;
    EarnedExact(r, claim, maxPayout);
  }

  /** Part-way through a round, what is left covers the next post. */
  lemma NextFits(curve: int -> nat, posts: map<Id, Post>, ids: set<Id>, done: set<Id>, id: Id, r: Round)
    requires
      && r.claims > 0 && IsRound(r) && Sound(posts) && ids <= posts.Keys && Sum(ids, ClaimsOn(curve, posts)) <= r.claims
    requires done <= ids && id in ids && id !in done
    ensures Sum(done, TakesOf(curve, posts, r)) + Part(r, ClaimOf(curve, posts[id])) <= r.fund
    ensures Sum(done + {id}, TakesOf(curve, posts, r))
         == Sum(done, TakesOf(curve, posts, r)) + Takes(curve, posts[id], r)
  {
    PartsFit(curve, posts, ids, r);
    hide Takes, Part, Weighed;
    forall i | i in done ensures TakesOf(curve, posts, r)(i) <= PartsOf(curve, posts, r)(i) {
      TakesWithin(curve, posts[i], r);
    }
    SumMonotone(done, TakesOf(curve, posts, r), PartsOf(curve, posts, r));
    SumInsert(done, PartsOf(curve, posts, r), id);
    SumInsert(done, TakesOf(curve, posts, r), id);
    SumSubset(done + {id}, ids, PartsOf(curve, posts, r));
  }

  /** What a post brings an account in a round. */
  function Brings(curve: int -> nat, p: Post, r: Round, a: Name): int
    requires r.claims > 0 && IsRound(r)
  {
    if p.net > 0 then Income(r, p, Earned(r, curve(p.net), p.maxPayout), a) else 0
  }

  ghost function BringsTo(curve: int -> nat, posts: map<Id, Post>, r: Round, a: Name): Id -> int
    requires r.claims > 0 && IsRound(r)
  {
    id => if id in posts then Brings(curve, posts[id], r, a) else 0
  }

  /** Everyone has got what the posts paid so far bring them. */
  ghost predicate Settled(before: Wallets, after: Wallets, curve: int -> nat, posts: map<Id, Post>, r: Round,
      done: set<Id>)
    requires r.claims > 0 && IsRound(r)
  {
    forall a :: Got(after, a) == Got(before, a) + Sum(done, BringsTo(curve, posts, r, a))
  }

  lemma SettledMore(before: Wallets, mid: Wallets, after: Wallets, curve: int -> nat, posts: map<Id, Post>, r: Round,
      done: set<Id>, id: Id)
    requires r.claims > 0 && IsRound(r) && id in posts && id !in done && Settled(before, mid, curve, posts, r, done)
    requires forall a :: Got(after, a) == Got(mid, a) + Brings(curve, posts[id], r, a)
    ensures Settled(before, after, curve, posts, r, done + {id})
  {
    hide Brings, Got;
    forall a ensures Got(after, a) == Got(before, a) + Sum(done + {id}, BringsTo(curve, posts, r, a)) {
      SumInsert(done, BringsTo(curve, posts, r, a), id);
    }
  }

  lemma NothingSettled(w: Wallets, curve: int -> nat, posts: map<Id, Post>, r: Round)
    requires r.claims > 0 && IsRound(r)
    ensures Settled(w, w, curve, posts, r, {})
  {
  }

  function Decayed(claims: nat, elapsed: nat): nat
    ensures Decayed(claims, elapsed) <= claims
  {
    if elapsed <= DECAY then
      MulDivAtMost(claims, elapsed, DECAY);
      claims - MulDiv(claims, elapsed, DECAY)
    else 0
  }

  /** Claims of earlier rounds fade in proportion to the time since, and are gone after the whole span. */
  lemma DecayedExact(claims: nat, elapsed: nat)
    ensures if elapsed <= DECAY then ByWeight(claims - Decayed(claims, elapsed), claims, elapsed, DECAY)
      else Decayed(claims, elapsed) == 0
  {
    MulDivBounds(claims, elapsed, DECAY);
  }

  class Board {
    /** How upvotes turn into curation weight, and a post's strength into a claim on the fund. */
    const curationCurve: int -> nat
    const authorCurve: int -> nat
    var posts: map<Id, Post>
    var wallets: Wallets
    var fund: nat
    var claims: nat
    var updated: nat

    ghost predicate Valid()
      reads this
    {
      Sound(posts)
    }

    constructor (curationCurve: int -> nat, authorCurve: int -> nat)
      ensures Valid() && posts == map[] && wallets == map[] && fund == 0 && claims == 0 && updated == 0
      ensures this.curationCurve == curationCurve && this.authorCurve == authorCurve
    {
      this.curationCurve, this.authorCurve := curationCurve, authorCurve;
      posts, wallets, fund, claims, updated := map[], map[], 0, 0, 0;
    }

    method CreatePost(id: Id, author: Name, now: nat, cashout: nat, allowVotes: bool, allowCuration: bool,
        maxPayout: nat, beneficiaries: seq<Beneficiary>)
      returns (ok: bool)
      requires Valid()
      modifies this`posts
      ensures Valid()
      ensures ok <==> id !in old(posts) && TotalWeight(beneficiaries) <= HUNDRED_PERCENT
      ensures !ok ==> posts == old(posts)
      ensures ok ==>
        && posts == old(posts)[id :=
             Post(author, now, cashout, map[], 0, 0, 0, 0, allowVotes, allowCuration, maxPayout, beneficiaries)]
        && Exact(posts[id])
    {
      ok := id !in posts && TotalWeight(beneficiaries) <= HUNDRED_PERCENT;
      if ok {
        var p := Post(author, now, cashout, map[], 0, 0, 0, 0, allowVotes, allowCuration, maxPayout, beneficiaries);
        posts := posts[id := p];
      }
    }

    /** What a vote of some strength adds: to the voter's claim, and to the total of claims. */
    function Weighing(p: Post, voter: Name, rshares: int, r: Rules, now: nat): (nat, nat)
    {
      if voter in p.votes && !r.freeEdits then (0, 0)
      else if !(rshares > 0 && p.allowCuration && r.curationPercent > 0) then (0, 0)
      else
        var was := Up(Previous(p.votes, voter).rshares);
        var before := curationCurve(if r.freeEdits then p.positive - was else p.positive);
        var after := curationCurve(p.positive + rshares - was);
        if before < after then WeightFor(after - before, if p.created <= now then now - p.created else 0, r) else (0, 0)
    }

    /** What a vote counts for: nothing if it is an edit under the old rules, or does not curate; else its weight in
        what it adds to the curve of upvotes, without the vote it replaces. */
    ghost predicate Weighs(p: Post, voter: Name, vote: Vote, counted: int, r: Rules, now: nat)
    {
      var was := Previous(p.votes, voter).rshares;
      var others := p.positive - if was > 0 then was else 0;
      var from := curationCurve(if r.freeEdits then others else p.positive);
      var to := curationCurve(others + vote.rshares);
      if (voter in p.votes && !r.freeEdits) || vote.rshares <= 0 || !p.allowCuration || r.curationPercent <= 0
        || to <= from
      then vote.weight == 0 && counted == 0
      else AsHeavy(vote.weight, counted, to - from, if p.created <= now then now - p.created else 0, r)
    }

    lemma WeighingExact(p: Post, voter: Name, percent: int, rshares: int, r: Rules, now: nat)
      ensures var w := Weighing(p, voter, rshares, r, now);
        Weighs(p, voter, Vote(percent, w.0, rshares), w.1, r, now)
    {
      hide WeightFor, AsHeavy;
      var was := Up(Previous(p.votes, voter).rshares);
      var before := curationCurve(if r.freeEdits then p.positive - was else p.positive);
      var after := curationCurve(p.positive + rshares - was);
      assert p.positive + rshares - was == p.positive - was + rshares;
      if before < after {
        WeightExact(after - before, if p.created <= now then now - p.created else 0, r);
      }
    }

    /** A post as it was and as it is: the vote is recorded, as strong as what was spent on it, and counts for what
        it weighs in place of what it replaces. */
    ghost predicate Counted(p: Post, q: Post, voter: Name, percent: int, mana: nat, r: Rules, now: nat)
    {
      && voter in q.votes && q.votes == p.votes[voter := q.votes[voter]] && q.votes[voter].percent == percent
      && now < p.cashout && AsStrong(q.votes[voter].rshares, percent, mana, p.cashout - now)
      && Weighs(p, voter, q.votes[voter], q.total - p.total + Previous(p.votes, voter).weight, r, now)
    }

    lemma VoteCounted(p: Post, voter: Name, percent: int, mana: nat, r: Rules, now: nat)
      requires now < p.cashout
      ensures var rshares := Strength(percent, mana, p.cashout - now);
        var w := Weighing(p, voter, rshares, r, now);
        Counted(p, WithVote(p, voter, Vote(percent, w.0, rshares), w.1, r), voter, percent, mana, r, now)
    {
      hide Strength, Weighing, Weighs, AsStrong, WithVote;
      var rshares := Strength(percent, mana, p.cashout - now);
      var w := Weighing(p, voter, rshares, r, now);
      WeighingExact(p, voter, percent, rshares, r, now);
      StrengthExact(percent, mana, p.cashout - now);
      VoteKept(p, voter, Vote(percent, w.0, rshares), w.1, r);
    }

    /** A new vote, or a change of an old one. */
    method CastVote(id: Id, voter: Name, percent: int, mana: nat, canVote: bool, enoughMana: bool, r: Rules,
        now: nat) returns (ok: bool)
      requires Valid()
      modifies this`posts
      ensures Valid()
      ensures ok <==> canVote && (id in old(posts) ==>
          var p := old(posts)[id];
          && (percent > 0 ==> p.allowVotes) && now < p.cashout && enoughMana
          && (if voter in p.votes then percent != p.votes[voter].percent else percent != 0))
      ensures !ok || id !in old(posts) ==> posts == old(posts)
      ensures ok && id in old(posts) ==>
        var p := old(posts)[id];
        var rshares := Strength(percent, mana, p.cashout - now);
        var w := Weighing(p, voter, rshares, r, now);
        && posts == old(posts)[id := WithVote(p, voter, Vote(percent, w.0, rshares), w.1, r)]
        && (Exact(p) && Modern(r) ==> Exact(posts[id]))
      ensures ok && id in old(posts) ==> Counted(old(posts)[id], posts[id], voter, percent, mana, r, now)
    {
      hide Weighed, Strength, Weighing, Exact, WithVote, Counted;
      ok := canVote;
      if !ok || id !in posts { return; }
      var p := posts[id];
      ok := (percent > 0 ==> p.allowVotes) && now < p.cashout && enoughMana
        && (if voter in p.votes then percent != p.votes[voter].percent else percent != 0);
      if !ok { return; }
      var rshares := Strength(percent, mana, p.cashout - now);
      var w := Weighing(p, voter, rshares, r, now);
      WeighingWithin(p, voter, rshares, r, now);
      VoteCounted(p, voter, percent, mana, r, now);
      var vote := Vote(percent, w.0, rshares);
      VoteWeighed(p, voter, vote, w.1, r);
      StillSharing(p, voter, vote, w.1, r);
      if Modern(r) { ExactVote(p, voter, vote, w.1, r); }
      p := Accumulate(p, voter, vote, w.1, r);
      posts := posts[id := p];
    }

    /** The totals kept with a post follow the vote. */
    static method Accumulate(post: Post, voter: Name, vote: Vote, counted: nat, r: Rules) returns (p: Post)
      ensures p == WithVote(post, voter, vote, counted, r)
    {
      var was := Previous(post.votes, voter);
      p := post.(netVotes := post.netVotes - Sign(was.percent) + Sign(vote.percent));
      p := p.(net := p.net + vote.rshares - was.rshares);
      if voter !in p.votes || r.freeEdits {
        p := p.(positive := p.positive + Up(vote.rshares) - Up(was.rshares));
      }
      p := p.(total := p.total + counted - was.weight);
      p := p.(votes := p.votes[voter := vote]);
    }

    lemma WeighingWithin(p: Post, voter: Name, rshares: int, r: Rules, now: nat)
      ensures var w := Weighing(p, voter, rshares, r, now); w.0 <= w.1 && (Modern(r) ==> w.0 == w.1)
    {
      hide WeightFor;
      var was := Up(Previous(p.votes, voter).rshares);
      var before := curationCurve(if r.freeEdits then p.positive - was else p.positive);
      var after := curationCurve(p.positive + rshares - was);
      if before < after {
        WeightWithin(after - before, if p.created <= now then now - p.created else 0, r);
      }
    }

    // ---- Payouts ----

    /** Each voter is paid their claim. */
    method PayVoters(p: Post, reward: nat, balance: nat) returns (unclaimed: nat, left: nat)
      requires Weighed(p) && reward <= balance && p.total > 0
      modifies this`wallets
      ensures CuratorsPaid(old(wallets), wallets, p, reward, p.votes.Keys)
      ensures 0 <= ClaimSum(p, reward, p.votes.Keys) <= reward
      ensures unclaimed == reward - ClaimSum(p, reward, p.votes.Keys)
      ensures left == balance - ClaimSum(p, reward, p.votes.Keys)
    {
      hide Weighed, Claim, ClaimSum, AllGot, CuratorsPaid;
      unclaimed, left := reward, balance;
      var todo := p.votes.Keys;
      ghost var done := {};
      NobodyYet(wallets, p, reward);
      ClaimsWithin(p, reward);
      while todo != {}
        invariant done !! todo && done + todo == p.votes.Keys
        invariant CuratorsPaid(old(wallets), wallets, p, reward, done)
        invariant 0 <= ClaimSum(p, reward, done) <= reward
        invariant unclaimed == reward - ClaimSum(p, reward, done) && left == balance - ClaimSum(p, reward, done)
        decreases todo
      {
        var v :| v in todo;
        ClaimsOf(p, reward, done, v);
        var claim := Claim(p, reward, v);
        if claim > 0 {
          CuratorPaid(old(wallets), wallets, p, reward, done, v);
          unclaimed, left := unclaimed - claim, left - claim;
          wallets := Paid(wallets, v, claim);
        } else {
          CuratorSkipped(old(wallets), wallets, p, reward, done, v);
        }
        todo, done := todo - {v}, done + {v};
      }
      assert done == p.votes.Keys;
    }

    /** Each curator is paid their claim; what truncation leaves is nobody's, and stays in the fund. */
    method PayCurators(p: Post, reward: nat, balance: nat) returns (paid: nat, unclaimed: nat, left: nat)
      requires Weighed(p) && reward <= balance
      modifies this`wallets
      ensures paid == ToCurators(p, reward) <= reward && left == balance - paid
      ensures unclaimed == if p.allowCuration then reward - paid else 0
      ensures AllGot(wallets) == AllGot(old(wallets)) + paid
      ensures forall a :: Got(wallets, a) == Got(old(wallets), a) + if p.allowCuration then Claim(p, reward, a) else 0
      ensures CuratorsShare(old(wallets), wallets, p, reward)
      ensures p.allowCuration && p.total > 0 && Exact(p) ==> reward < paid + |p.votes|
    {
      hide Weighed, Claim, ClaimSum, AllGot, Exact, CuratorsShare;
      var limit := reward;
      unclaimed, left := reward, balance;
      if !p.allowCuration {
        unclaimed, limit := 0, 0;
      } else if p.total > 0 {
        unclaimed, left := PayVoters(p, reward, balance);
        OnlyVoters(p, reward);
      } else {
        NoClaims(p, reward);
      }
      paid := limit - unclaimed;
      CuratorsGot(old(wallets), wallets, p, reward);
      if Exact(p) && p.total > 0 { ClaimsMiss(p, reward); }
    }

    /** Beneficiaries get their parts of the author's reward. */
    method PayBeneficiaries(author: nat, bs: seq<Beneficiary>, balance: nat) returns (total: nat, left: nat)
      requires author <= balance && TotalWeight(bs) <= HUNDRED_PERCENT
      modifies this`wallets
      ensures total == Shares(author, bs) <= author && left == balance - total
      ensures BenefitsPaid(old(wallets), wallets, author, bs)
      ensures forall i :: 0 <= i < |bs| ==> ByWeight(Share(author, bs[i]), author, bs[i].weight, HUNDRED_PERCENT)
      ensures TotalWeight(bs) == HUNDRED_PERCENT ==> author <= total + |bs|
    {
      hide Share, AllGot, ByWeight;
      SharesMiss(author, bs);
      forall i | 0 <= i < |bs| ensures ByWeight(Share(author, bs[i]), author, bs[i].weight, HUNDRED_PERCENT) {
        ShareExact(author, bs[i]);
      }
      SharesWithin(author, bs);
      total, left := 0, balance;
      for i := 0 to |bs|
        invariant total == Shares(author, bs[..i]) <= Shares(author, bs) && left == balance - total
        invariant BenefitsPaid(old(wallets), wallets, author, bs[..i])
      {
        hide Shares, BenefitsPaid;
        SharesPrefix(author, bs, i);
        SharesOneMore(author, bs, i);
        BenefitPaid(old(wallets), wallets, author, bs, i);
        var n := Share(author, bs[i]);
        wallets := Paid(wallets, bs[i].account, n);
        total, left := total + n, left - n;
      }
      assert bs[..|bs|] == bs;
    }

    /** One post is paid: what leaves the fund is what curators, beneficiaries and the author get, to the unit. */
    method Cashout(p: Post, r: Round, reward: nat, balance: nat) returns (claimed: nat, left: nat)
      requires Weighed(p) && Sharing(p) && IsRound(r) && reward <= balance
      modifies this`wallets
      ensures claimed == Claimed(r, p, reward) <= reward && left == balance - claimed
      ensures AllGot(wallets) == AllGot(old(wallets)) + claimed
      ensures forall a :: Got(wallets, a) == Got(old(wallets), a) + Income(r, p, reward, a)
      ensures var curation := ForCurators(r, reward);
        var author := reward - curation;
        && ByWeight(curation, reward, r.curationPercent, HUNDRED_PERCENT)
        && forall a ::
            Got(wallets, a) == Got(old(wallets), a) + (if p.allowCuration then Claim(p, curation, a) else 0)
              + SharesTo(author, p.beneficiaries, a)
              + if a == p.author then author - Shares(author, p.beneficiaries) else 0
    {
      hide Weighed, Claim, AllGot, ForCurators, ToCurators, Shares, SharesTo, TotalWeight, ByWeight;
      ForCuratorsExact(r, reward);
      var curation := ForCurators(r, reward);
      var author := reward - curation;
      var paid, unclaimed, rest := PayCurators(p, curation, balance);
      claimed := author + paid;
      var benefits, remaining := PayBeneficiaries(author, p.beneficiaries, rest);
      PaidAdds(wallets, p.author, author - benefits);
      wallets := Paid(wallets, p.author, author - benefits);
      left := remaining - (author - benefits);
    }

    /** Claims of all posts that are due. */
    method CountClaims(now: nat, claims0: nat) returns (total: nat, someone: bool)
      ensures total == claims0 + Sum(DueIds(posts, now), ClaimsOn(authorCurve, posts))
      ensures someone <==> exists id :: id in posts && Due(posts[id], now) && posts[id].net > 0
    {
      var todo := set id | id in posts && Due(posts[id], now);
      ghost var due := todo;
      assert due == DueIds(posts, now);
      total, someone := claims0, false;
      assert due - todo == {};
      while todo != {}
        invariant todo <= due && total == claims0 + Sum(due - todo, ClaimsOn(authorCurve, posts))
        invariant someone <==> exists id :: id in due - todo && posts[id].net > 0
        decreases todo
      {
        var id :| id in todo;
        SumInsert(due - todo, ClaimsOn(authorCurve, posts), id);
        assert due - (todo - {id}) == (due - todo) + {id};
        if posts[id].net > 0 {
          total, someone := total + authorCurve(posts[id].net), true;
        }
        todo := todo - {id};
      }
      assert due - todo == due;
    }

    /** Every post that is due is paid out of the fund as it stood at the start, and leaves. The fund is never
        overdrawn. The round fails only if posts with a positive strength are due and nothing at all has a claim. */
    method ProcessCashouts(now: nat, price: Option<Price>, curationPercent: nat) returns (ok: bool)
      requires Valid() && curationPercent <= HUNDRED_PERCENT && (price.Some? ==> IsPrice(price.value))
      modifies this`posts, this`wallets, this`fund, this`claims, this`updated
      ensures Valid()
      ensures AllGot(wallets) + fund == AllGot(old(wallets)) + old(fund)
      ensures var total := Decayed(old(claims), if old(updated) <= now then now - old(updated) else 0) +
        Sum(DueIds(old(posts), now), ClaimsOn(authorCurve, old(posts)));
        && (ok <==> total > 0 || forall id :: id in old(posts) && Due(old(posts)[id], now) ==> old(posts)[id].net <= 0)
        && (!ok ==> posts == old(posts) && wallets == old(wallets) && claims == old(claims) && updated == old(updated))
        && (ok ==> claims == total && updated == now && posts == old(posts) - DueIds(old(posts), now))
        && (ok && total > 0 ==>
            var r := Round(old(fund), total, price, curationPercent);
            && fund == old(fund) - Sum(DueIds(old(posts), now), TakesOf(authorCurve, old(posts), r))
            && Settled(old(wallets), wallets, authorCurve, old(posts), r, DueIds(old(posts), now)))
        && (ok && total == 0 ==> fund == old(fund) && wallets == old(wallets))
        && (ok && total > 0 ==>
            AllWithin(authorCurve, old(posts), Round(old(fund), total, price, curationPercent), now))
    {
      hide Weighed, AllGot, Takes, ClaimOf, Decayed, Sharing, Settled, AllWithin, Got;
      var total, someone := CountClaims(now, Decayed(claims, if updated <= now then now - updated else 0));
      ok := total > 0 || !someone;
      if !ok { return; }
      if total > 0 {
        AllLimited(authorCurve, posts, Round(fund, total, price, curationPercent), now);
        PayAll(now, Round(fund, total, price, curationPercent));
      } else {
        posts := DropDue(posts, now);
      }
      claims, updated := total, now;
    }

    method PayAll(now: nat, r: Round)
      requires Valid() && IsRound(r) && r.claims > 0 && r.fund == fund
      requires Sum(DueIds(posts, now), ClaimsOn(authorCurve, posts)) <= r.claims
      modifies this`posts, this`wallets, this`fund
      ensures Valid()
      ensures AllGot(wallets) + fund == AllGot(old(wallets)) + old(fund)
      ensures posts == old(posts) - DueIds(old(posts), now)
      ensures fund == old(fund) - Sum(DueIds(old(posts), now), TakesOf(authorCurve, old(posts), r))
      ensures Settled(old(wallets), wallets, authorCurve, old(posts), r, DueIds(old(posts), now))
    {
      hide Weighed, AllGot, Takes, ClaimOf, Claimed, Income, Part, Earned, Sharing, Settled, Got;
      ghost var all, due, done := posts, DueIds(posts, now), {};
      NothingSettled(wallets, authorCurve, all, r);
      var balance := fund;
      fund := 0;
      assert all - done == all;
      while exists id :: id in posts && Due(posts[id], now)
        invariant done <= due && posts == all - done && fund == 0
        invariant balance == r.fund - Sum(done, TakesOf(authorCurve, all, r))
        invariant AllGot(wallets) + balance == AllGot(old(wallets)) + old(fund)
        invariant Settled(old(wallets), wallets, authorCurve, all, r, done)
        decreases posts.Keys
      {
        ghost var before := wallets;
        var id :| id in posts && Due(posts[id], now);
        var p := posts[id];
        NextFits(authorCurve, all, due, done, id, r);
        TakesWithin(authorCurve, p, r);
        TakesAre(authorCurve, p, r);
        if p.net > 0 {
          var reward := Earned(r, authorCurve(p.net), p.maxPayout);
          var claimed, left := Cashout(p, r, reward, balance);
          balance := left;
        }
        SettledMore(old(wallets), before, wallets, authorCurve, all, r, done, id);
        assert all - done - {id} == all - (done + {id});
        posts, done := posts - {id}, done + {id};
      }
      NoneLeft(all, posts, done, now);
      fund := balance;
    }

    method AddToFund(n: nat)
      requires Valid()
      modifies this`fund
      ensures Valid() && fund == old(fund) + n
    {
      fund := fund + n;
    }

    method Apply(step: Step) returns (ok: bool)
      requires Valid() && Priced(step)
      modifies this
      ensures Valid()
      ensures AllGot(wallets) + fund == AllGot(old(wallets)) + old(fund) + step.Issued()
      ensures AllExact(old(posts)) && ModernStep(step) ==> AllExact(posts)
    {
      hide Sound, AllGot, Decayed, Takes, Exact, Weighing, Strength, ClaimOf, Modern;
      match step
      case Write(id, author, now, cashout, allowVotes, allowCuration, maxPayout, beneficiaries) =>
        ok := CreatePost(id, author, now, cashout, allowVotes, allowCuration, maxPayout, beneficiaries);
      case Ballot(id, voter, percent, mana, canVote, enoughMana, r, now) =>
        ok := CastVote(id, voter, percent, mana, canVote, enoughMana, r, now);
      case Payouts(now, price, curationPercent) => ok := ProcessCashouts(now, price, curationPercent);
      case Fund(n) => AddToFund(n); ok := true;
    }

    /** Over any run, all that was ever put into the fund is in it or has been paid out. Under modern rules
        the totals kept with every post stay the exact sums over its votes. */
    method Run(steps: seq<Step>)
      requires Valid() && forall i :: 0 <= i < |steps| ==> Priced(steps[i])
      modifies this
      ensures Valid()
      ensures AllGot(wallets) + fund == AllGot(old(wallets)) + old(fund) + AllIssued(steps)
      ensures AllExact(old(posts)) && (forall i :: 0 <= i < |steps| ==> ModernStep(steps[i])) ==> AllExact(posts)
    {
      hide Sound, AllGot, AllExact, ModernStep;
      for i := 0 to |steps|
        invariant Valid() && AllGot(wallets) + fund == AllGot(old(wallets)) + old(fund) + AllIssued(steps[..i])
        invariant AllExact(old(posts)) && (forall i :: 0 <= i < |steps| ==> ModernStep(steps[i])) ==> AllExact(posts)
      {
        assert steps[..i + 1][..i] == steps[..i];
        var ok := Apply(steps[i]);
      }
      assert steps[..|steps|] == steps;
    }
  }

  datatype Step =
    | Write(Id, Name, nat, nat, bool, bool, nat, seq<Beneficiary>)
    | Ballot(Id, Name, int, nat, bool, bool, Rules, nat)
    | Payouts(nat, Option<Price>, nat)
    | Fund(n: nat)
  {
    function Issued(): nat { if Fund? then n else 0 }
  }

  predicate Priced(step: Step)
  {
    match step
    case Payouts(_, price, percent) => percent <= HUNDRED_PERCENT && (price.Some? ==> IsPrice(price.value))
    case _ => true
  }

  ghost predicate AllExact(posts: map<Id, Post>)
  {
    forall id :: id in posts ==> Exact(posts[id])
  }

  predicate ModernStep(step: Step)
  {
    match step
    case Ballot(_, _, _, _, _, _, r, _) => Modern(r)
    case _ => true
  }

  function AllIssued(steps: seq<Step>): nat
  {
    if steps == [] then 0 else AllIssued(steps[..|steps| - 1]) + steps[|steps| - 1].Issued()
  }

  function DropDue(posts: map<Id, Post>, now: nat): map<Id, Post>
  {
    map id | id in posts && !Due(posts[id], now) :: posts[id]
  }

  lemma NoneLeft(all: map<Id, Post>, posts: map<Id, Post>, done: set<Id>, now: nat)
    requires done <= DueIds(all, now) && posts == all - done && forall id :: id in posts ==> !Due(posts[id], now)
    ensures done == DueIds(all, now)
  {
    forall id | id in all && id !in done ensures id in posts && posts[id] == all[id] { }
  }

  lemma TakesAre(curve: int -> nat, p: Post, r: Round)
    requires r.claims > 0 && IsRound(r)
    ensures Takes(curve, p, r) == if p.net > 0 then Claimed(r, p, Earned(r, curve(p.net), p.maxPayout)) else 0
  {
  }

  lemma NobodyYet(w: Wallets, p: Post, reward: nat)
    ensures ClaimSum(p, reward, {}) == 0
    ensures CuratorsPaid(w, w, p, reward, {})
  {
  }

  lemma OnlyVoters(p: Post, reward: nat)
    ensures forall a :: a !in p.votes.Keys ==> Claim(p, reward, a) == 0
  {
  }

  lemma NoClaims(p: Post, reward: nat)
    requires p.total <= 0
    ensures forall a :: Claim(p, reward, a) == 0
  {
  }

  lemma StillSharing(p: Post, voter: Name, vote: Vote, counted: nat, r: Rules)
    requires Sharing(p)
    ensures Sharing(WithVote(p, voter, vote, counted, r))
  {
  }

  lemma ExactVote(p: Post, voter: Name, vote: Vote, counted: nat, r: Rules)
    requires Modern(r) && vote.weight == counted
    ensures Exact(p) ==> Exact(WithVote(p, voter, vote, counted, r))
  {
    if Exact(p) { VoteExact(p, voter, vote, counted, r); }
  }

  const CONTENT_CONSTANT: nat := 2500

  /** The author curve in force: about half of the strength while that is small. */
  function ConvergentLinear(net: int): nat
  {
    if net <= 0 then 0
    else (net * net + 2 * net * CONTENT_CONSTANT) / (net + 4 * CONTENT_CONSTANT)
  }

  lemma LeastStrength()
    ensures ConvergentLinear(1) == 0 && Strength(10000, VOTE_DUST + 1, LOCKOUT) == 1
  {
  }

  /** A post with the least positive strength. */
  method LeastPost() returns (board: Board)
    ensures
      && fresh(board) && board.Valid() && board.authorCurve == ConvergentLinear && board.claims == 0
      && board.updated == 0
    ensures board.posts.Keys == {Id(0)} && board.posts[Id(0)].net == 1 && board.posts[Id(0)].cashout == LOCKOUT
  {
    hide Sound, Exact, Strength, ConvergentLinear, Board.Counted;
    LeastStrength();
    board := new Board(ConvergentLinear, ConvergentLinear);
    var ok := board.CreatePost(Id(0), Name(0), 0, LOCKOUT, true, true, 0, []);
    ok := board.CastVote(Id(0), Name(1), 10000, VOTE_DUST + 1, true, true, Rules(true, 0, 0, 0, 0), 0);
  }

  /** A round that fails: the only post due has a strength that the curve rounds to no claim at all, and no
      claim is left over from before. */
  method FailingRound() returns (board: Board, ok: bool)
    ensures fresh(board) && !ok
    ensures Id(0) in board.posts && board.posts[Id(0)].net == 1 && board.posts[Id(0)].cashout == LOCKOUT
  {
    hide Sound, AllGot, Settled, Takes, ConvergentLinear;
    LeastStrength();
    board := LeastPost();
    NoClaimAtAll(board.posts);
    ok := board.ProcessCashouts(LOCKOUT, None, 0);
  }

  lemma NoClaimAtAll(posts: map<Id, Post>)
    requires posts.Keys == {Id(0)} && posts[Id(0)].net == 1 && posts[Id(0)].cashout == LOCKOUT
    ensures Sum(DueIds(posts, LOCKOUT), ClaimsOn(ConvergentLinear, posts)) == 0 && Decayed(0, LOCKOUT) == 0
  {
    assert DueIds(posts, LOCKOUT) == {Id(0)};
    SumInsert({}, ClaimsOn(ConvergentLinear, posts), Id(0));
    assert {} + {Id(0)} == {Id(0)};
    LeastStrength();
  }
}
