/**
 The cashout of comments: how a reward is divided, that every due comment is
 paid exactly once in a block, and that the reward fund is debited exactly what
 curators, beneficiaries and authors are credited.
 */
module Rewards {
  import opened Widths
  import opened WeightedSums
  import opened Quotients
  import opened L = Ledger

  const MIN_PAYOUT: nat := 20                          // BMCHAIN_MIN_PAYOUT
  const SECOND_WINDOW: nat := 60 * 60 * 24 * 30        // BMCHAIN_SECOND_CASHOUT_WINDOW
  const DECAY_SECONDS: nat := 60 * 60 * 24 * 15        // BMCHAIN_RECENT_RSHARES_DECAY_RATE
  const FIRST_PAYOUT_BLOCK: nat := 20 * 60 * 24 * 7    // BMCHAIN_FIRST_PAYOUT_BLOCK

  /** A vote with its weight, or a beneficiary with its percentage. */
  datatype Share = Share(account: nat, weight: nat)

  datatype Post = Post(
    author: nat, netRshares: int, absRshares: nat, voteRshares: nat,
    rewardWeight: nat, totalWeight: nat, votes: seq<Share>, beneficiaries: seq<Share>,
    allowCuration: bool, liquidPercent: nat, cashoutTime: nat, lastPayout: nat)

  /** A payment, without the vesting shares that the price of the moment makes of it. */
  datatype Award = Award(kind: Kind, account: nat, bmt: int)

  function AwardsOf(ps: seq<Payout>): (r: seq<Award>)
    ensures |r| == |ps| && forall i :: 0 <= i < |ps| ==> r[i] == Award(ps[i].kind, ps[i].account, ps[i].bmt)
  {
    seq(|ps|, i requires 0 <= i < |ps| => Award(ps[i].kind, ps[i].account, ps[i].bmt))
  }

  function Sum(aw: seq<Award>): (t: int) {
    if |aw| == 0 then 0 else Sum(aw[..|aw| - 1]) + aw[|aw| - 1].bmt
  }

  lemma {:induction false} SumJoin(a: seq<Award>, b: seq<Award>)
    ensures Sum(a + b) == Sum(a) + Sum(b)
  {
    if |b| == 0 {
      assert a + b == a;
    } else {
      assert (a + b)[..|a + b| - 1] == a + b[..|b| - 1];
      SumJoin(a, b[..|b| - 1]);
    }
  }

  lemma {:induction false} AwardedIsSum(ps: seq<Payout>)
    ensures Awarded(ps) == Sum(AwardsOf(ps))
  {
    if |ps| != 0 {
      AwardedIsSum(ps[..|ps| - 1]);
      assert AwardsOf(ps)[..|ps| - 1] == AwardsOf(ps[..|ps| - 1]);
    }
  }

  // ------------------------------------------------------- how one reward is divided

  /** The share of `pot` that `weight` has in `total`, rounded down. */
  function Portion(pot: nat, weight: nat, total: nat): (p: nat)
    requires 0 < total
  {
    QuotientBounds(pot, weight, total);
    pot * weight / total
  }

  /** What the curators of a comment claim from `pot`, in the order of the votes. */
  function CuratorAwards(votes: seq<Share>, pot: nat, total: nat): (r: seq<Award>)
    requires 0 < total
  {
    if |votes| == 0 then []
    else
      var last := |votes| - 1;
      var claim := Portion(pot, votes[last].weight, total);
      CuratorAwards(votes[..last], pot, total) + if claim > 0 then [Award(Claimable, votes[last].account, claim)] else []
  }

  function Curated(post: Post, pot: nat): (r: seq<Award>) {
    if post.allowCuration && post.totalWeight > 0 then CuratorAwards(post.votes, pot, post.totalWeight) else []
  }

  /** What `pay_curators` hands back to the author. */
  function Unclaimed(post: Post, pot: nat): (r: int) {
    if post.allowCuration then pot - Sum(Curated(post, pot)) else 0
  }

  function BeneficiaryAwards(bs: seq<Share>, tokens: int): (r: seq<Award>)
    ensures |r| == |bs|
  {
    if |bs| == 0 then []
    else
      var last := |bs| - 1;
      BeneficiaryAwards(bs[..last], tokens) + [Award(Claimable, bs[last].account, Quot(tokens * bs[last].weight, FULL_PERCENT))]
  }

  function AuthorAwards(post: Post, tokens: int): (r: seq<Award>) {
    var coins := Quot(tokens * post.liquidPercent, 2 * FULL_PERCENT);
    [Award(Shares, post.author, tokens - coins), Award(Coin, post.author, coins)]
  }

  /** The part of a reward that is set aside for curators. */
  function CurationPot(reward: nat, percent: nat): (pot: nat) {
    reward * percent / FULL_PERCENT
  }

  /** What the author and the beneficiaries share. */
  function AuthorTokens(post: Post, reward: nat, percent: nat): (t: int) {
    reward - CurationPot(reward, percent) + Unclaimed(post, CurationPot(reward, percent))
  }

  function PostAwards(post: Post, reward: nat, percent: nat): (r: seq<Award>) {
    if reward == 0 then []
    else
      var tokens := AuthorTokens(post, reward, percent);
      var bs := BeneficiaryAwards(post.beneficiaries, tokens);
      Curated(post, CurationPot(reward, percent)) + bs + AuthorAwards(post, tokens - Sum(bs))
  }

  /** The whole reward leaves the fund, except that a comment without curation rewards leaves the curators' part in it. */
  function Claimed(post: Post, reward: nat, percent: nat): (c: int) {
    if post.allowCuration then reward else reward - CurationPot(reward, percent)
  }

  /** However the votes and beneficiaries are weighted, what is credited is what is claimed from the fund. */
  lemma {:induction false} AwardsAddUp(post: Post, reward: nat, percent: nat)
    ensures Sum(PostAwards(post, reward, percent)) == Claimed(post, reward, percent)
  {
    hide Quot;
    if reward != 0 {
      var pot := CurationPot(reward, percent);
      var tokens := AuthorTokens(post, reward, percent);
      var bs := BeneficiaryAwards(post.beneficiaries, tokens);
      var author := AuthorAwards(post, tokens - Sum(bs));
      SumJoin(Curated(post, pot) + bs, author);
      SumJoin(Curated(post, pot), bs);
      assert Sum(author) == tokens - Sum(bs) by {
        assert author[..1] == [author[0]];
        assert author[..1][..0] == [];
        assert Sum(author[..1][..0]) == 0;
        assert Sum(author[..1]) == author[0].bmt;
      }
    }
  }

  /** What the protocol lets a comment have: weights within their totals, percentages within 100%. */
  ghost predicate Sane(post: Post) {
    && VotesSane(post)
    && Total(Weights(post.beneficiaries)) <= FULL_PERCENT
    && post.liquidPercent <= FULL_PERCENT
  }

  /** The votes' weights are within the comment's total, or there is no total to share by. */
  ghost predicate VotesSane(post: Post) {
    post.totalWeight > 0 ==> Total(Weights(post.votes)) <= post.totalWeight
  }

  ghost function Weights(s: seq<Share>): (r: seq<int>)
    ensures |r| == |s| && forall i :: 0 <= i < |r| ==> r[i] == s[i].weight
  {
    seq(|s|, i requires 0 <= i < |s| => s[i].weight)
  }

  ghost predicate NoneNegative(aw: seq<Award>) {
    forall i :: 0 <= i < |aw| ==> 0 <= aw[i].bmt
  }

  /** `paid` is at most the share of `pot` that `used` has in `total`. */
  ghost predicate WithinShare(paid: int, total: nat, pot: nat, used: int) {
    paid * total <= pot * used
  }

  lemma SharesAdd(a: int, b: int, total: nat, pot: nat, c: int, d: int)
    requires WithinShare(a, total, pot, c) && WithinShare(b, total, pot, d)
    ensures WithinShare(a + b, total, pot, c + d)
  {
  }

  lemma {:induction false} AppendAward(before: seq<Award>, a: Award)
    ensures Sum(before + [a]) == Sum(before) + a.bmt
  {
    assert (before + [a])[..|before|] == before;
  }

  /** The curators of a comment take at most the pot. */
  lemma {:induction false} CuratorsWithinPot(votes: seq<Share>, pot: nat, total: nat)
    requires 0 < total
    ensures NoneNegative(CuratorAwards(votes, pot, total))
    ensures 0 <= Sum(CuratorAwards(votes, pot, total))
    ensures WithinShare(Sum(CuratorAwards(votes, pot, total)), total, pot, Total(Weights(votes)))
  {
    hide Portion, WithinShare;
    if |votes| == 0 {
      NothingWithin(total, pot);
    } else {
      var last := |votes| - 1;
      CuratorsWithinPot(votes[..last], pot, total);
      OneMoreCurator(votes, pot, total);
    }
  }

  lemma NothingWithin(total: nat, pot: nat)
    ensures WithinShare(0, total, pot, 0)
  {
  }

  lemma {:induction false} OneMoreCurator(votes: seq<Share>, pot: nat, total: nat)
    requires 0 < total && 0 < |votes|
    requires var before := CuratorAwards(votes[..|votes| - 1], pot, total);
             NoneNegative(before) && 0 <= Sum(before) && WithinShare(Sum(before), total, pot, Total(Weights(votes[..|votes| - 1])))
    ensures NoneNegative(CuratorAwards(votes, pot, total))
    ensures 0 <= Sum(CuratorAwards(votes, pot, total))
    ensures WithinShare(Sum(CuratorAwards(votes, pot, total)), total, pot, Total(Weights(votes)))
  {
    hide Portion, WithinShare, Sum;
    var last := |votes| - 1;
    var before := CuratorAwards(votes[..last], pot, total);
    var claim := Portion(pot, votes[last].weight, total);
    if claim > 0 {
      AppendAward(before, Award(Claimable, votes[last].account, claim));
    } else {
      assert CuratorAwards(votes, pot, total) == before;
    }
    assert Weights(votes)[..last] == Weights(votes[..last]);
    PortionWithin(pot, votes[last].weight, total);
    SharesAdd(Sum(before), claim, total, pot, Total(Weights(votes[..last])), votes[last].weight);
  }

  lemma PortionWithin(pot: nat, weight: nat, total: nat)
    requires 0 < total
    ensures WithinShare(Portion(pot, weight, total), total, pot, weight)
  {
    QuotientBounds(pot, weight, total);
  }

  lemma {:induction false} BeneficiariesWithinTokens(bs: seq<Share>, tokens: nat)
    ensures NoneNegative(BeneficiaryAwards(bs, tokens))
    ensures 0 <= Sum(BeneficiaryAwards(bs, tokens))
    ensures WithinShare(Sum(BeneficiaryAwards(bs, tokens)), FULL_PERCENT, tokens, Total(Weights(bs)))
  {
    if |bs| != 0 {
      hide WithinShare, Sum;
      var last := |bs| - 1;
      var before := BeneficiaryAwards(bs[..last], tokens);
      BeneficiariesWithinTokens(bs[..last], tokens);
      assert Weights(bs)[..last] == Weights(bs[..last]);
      var part := Portion(tokens, bs[last].weight, FULL_PERCENT);
      AppendAward(before, Award(Claimable, bs[last].account, part));
      PortionWithin(tokens, bs[last].weight, FULL_PERCENT);
      SharesAdd(Sum(before), part, FULL_PERCENT, tokens, Total(Weights(bs[..last])), bs[last].weight);
    }
  }

  lemma {:induction false} PotWithinReward(reward: nat, percent: nat)
    requires percent <= FULL_PERCENT
    ensures 0 <= CurationPot(reward, percent) <= reward
  {
    QuotientBounds(reward, percent, FULL_PERCENT);
    ScaleDown(reward, percent, FULL_PERCENT, CurationPot(reward, percent));
  }

  /** Nobody is charged: with sane weights every part of a reward is nonnegative. */
  lemma {:induction false} AwardsNotNegative(post: Post, reward: nat, percent: nat)
    requires Sane(post) && percent <= FULL_PERCENT
    ensures NoneNegative(PostAwards(post, reward, percent))
  {
    hide Total, Quot;
    if reward != 0 {
      var pot := CurationPot(reward, percent);
      PotWithinReward(reward, percent);
      UnclaimedWithinPot(post, pot);
      var tokens := AuthorTokens(post, reward, percent);
      var bs := BeneficiaryAwards(post.beneficiaries, tokens);
      BeneficiariesWithinTokens(post.beneficiaries, tokens);
      WeightsNotNegative(post.beneficiaries);
      ScaleDown(tokens, Total(Weights(post.beneficiaries)), FULL_PERCENT, Sum(bs));
      AuthorNotNegative(post, tokens - Sum(bs));
    }
  }

  lemma {:induction false} WeightsNotNegative(s: seq<Share>)
    ensures 0 <= Total(Weights(s))
  {
    TotalNonnegative(Weights(s));
  }

  lemma {:induction false} UnclaimedWithinPot(post: Post, pot: nat)
    requires Sane(post)
    ensures 0 <= Unclaimed(post, pot) <= pot && NoneNegative(Curated(post, pot))
  {
    if post.allowCuration && post.totalWeight > 0 {
      CuratorsWithinPot(post.votes, pot, post.totalWeight);
      WeightsNotNegative(post.votes);
      ScaleDown(pot, Total(Weights(post.votes)), post.totalWeight, Sum(Curated(post, pot)));
    }
  }

  lemma {:induction false} AuthorNotNegative(post: Post, tokens: nat)
    requires post.liquidPercent <= FULL_PERCENT
    ensures NoneNegative(AuthorAwards(post, tokens))
  {
    QuotientBounds(tokens, post.liquidPercent, 2 * FULL_PERCENT);
    ScaleDown(tokens, post.liquidPercent, 2 * FULL_PERCENT, tokens * post.liquidPercent / (2 * FULL_PERCENT));
  }

  // ------------------------------------------------------- the rewards of one block

  /** The reward of a comment from a fund snapshot; small ones count as dust. */
  function Reward(curve: nat -> nat, post: Post, fund: nat, claims: nat): (r: nat)
    requires post.netRshares > 0 ==> claims > 0
  {
    if post.netRshares <= 0 then 0
    else
      var payout := fund * (curve(post.netRshares) * post.rewardWeight / FULL_PERCENT) / claims;
      if payout < MIN_PAYOUT then 0 else payout
  }

  /** The fund's recent claims after `elapsed` seconds of decay, in 128-bit arithmetic. */
  function Decayed(recent: nat, elapsed: nat): (r: nat) {
    (recent - recent * elapsed % U128 / DECAY_SECONDS) % U128
  }

  /** Without overflow the decay takes the elapsed share of the period away and never more than there is. */
  lemma {:induction false} DecayWithin(recent: nat, elapsed: nat)
    requires elapsed <= DECAY_SECONDS && recent * elapsed < U128 && recent < U128
    ensures Decayed(recent, elapsed) == recent - recent * elapsed / DECAY_SECONDS <= recent
  {
    QuotientBounds(recent, elapsed, DECAY_SECONDS);
    ScaleDown(recent, elapsed, DECAY_SECONDS, recent * elapsed / DECAY_SECONDS);
  }

  /** The decay in general: the elapsed share of the product, as far as it fits 128 bits, is taken away in 128 bits. */
  lemma {:induction false} DecayMeans(recent: nat, elapsed: nat) returns (taken: nat)
    ensures IsQuotient(taken, recent * elapsed % U128, DECAY_SECONDS)
    ensures Decayed(recent, elapsed) < U128 && (Decayed(recent, elapsed) + taken) % U128 == recent % U128
  {
    hide IsQuotient;
    var product := recent * elapsed % U128;
    taken := product / DECAY_SECONDS;
    QuotientIs(product, DECAY_SECONDS);
    TakenBack(recent, taken);
  }

  lemma TakenBack(a: nat, b: nat)
    ensures ((a - b) % U128 + b) % U128 == a % U128
  {
    var q := (a - b) / U128;
    assert (a - b) % U128 + b == a - q * U128;
  }

  predicate Due(post: Post, now: nat) {
    post.cashoutTime <= now
  }

  /** A comment after its payout: it is due again one window later. */
  function CashedOut(post: Post, now: nat): (r: Post)
    ensures !Due(r, now)
  {
    post.(netRshares := if post.netRshares > 0 then 0 else post.netRshares,
          absRshares := 0, voteRshares := 0, totalWeight := 0,
          cashoutTime := now + SECOND_WINDOW, lastPayout := now)
  }

  /**
   After a payout: due again exactly one window later; positive votes are used up,
   negative ones stay; the weights that curators shared by are gone, so that until
   new votes come the comment claims nothing and pays no curator.
   */
  lemma CashedOutMeans(curve: nat -> nat, post: Post, now: nat, later: nat, pot: nat)
    ensures var r := CashedOut(post, now);
            && (Due(r, later) <==> now + SECOND_WINDOW <= later) && r.lastPayout == now
            && r.netRshares == (if post.netRshares > 0 then 0 else post.netRshares)
            && r.absRshares == 0 && r.voteRshares == 0 && r.totalWeight == 0
            && ClaimOf(curve, r, later) == 0 && Curated(r, pot) == []
            && r.author == post.author && r.votes == post.votes && r.beneficiaries == post.beneficiaries
            && r.rewardWeight == post.rewardWeight && r.allowCuration == post.allowCuration && r.liquidPercent == post.liquidPercent
  {
  }

  /** The curve's value of a comment that is due, otherwise nothing. */
  function ClaimOf(curve: nat -> nat, post: Post, now: nat): (c: nat) {
    if Due(post, now) && post.netRshares > 0 then curve(post.netRshares) else 0
  }

  ghost function Claims(curve: nat -> nat, posts: seq<Post>, now: nat): (r: seq<int>)
    ensures |r| == |posts| && forall i :: 0 <= i < |r| ==> r[i] == ClaimOf(curve, posts[i], now)
  {
    seq(|posts|, i requires 0 <= i < |posts| => ClaimOf(curve, posts[i], now))
  }

  ghost function DueFlags(posts: seq<Post>, now: nat): (r: seq<int>)
    ensures |r| == |posts| && forall i :: 0 <= i < |r| ==> r[i] == if Due(posts[i], now) then 1 else 0
  {
    seq(|posts|, i requires 0 <= i < |posts| => if Due(posts[i], now) then 1 else 0)
  }

  /** All awards of the comments `order`, in that order, from one snapshot of the fund. */
  ghost function AllAwards(curve: nat -> nat, posts: seq<Post>, order: seq<nat>, fund: nat, claims: nat, percent: nat): (r: seq<Award>)
    requires forall k :: 0 <= k < |order| ==> order[k] < |posts| && (posts[order[k]].netRshares > 0 ==> claims > 0)
  {
    if |order| == 0 then []
    else
      var post := posts[order[|order| - 1]];
      AllAwards(curve, posts, order[..|order| - 1], fund, claims, percent)
      + PostAwards(post, Reward(curve, post, fund, claims), percent)
  }

  /** A reward is at most the share of the fund that the comment's claim has in all claims. */
  lemma {:induction false} RewardWithinShare(curve: nat -> nat, post: Post, fund: nat, claims: nat, now: nat)
    requires Due(post, now) && post.rewardWeight <= FULL_PERCENT && (post.netRshares > 0 ==> claims > 0)
    ensures Reward(curve, post, fund, claims) * claims <= fund * ClaimOf(curve, post, now)
  {
    if post.netRshares > 0 {
      var full := curve(post.netRshares);
      var claim := full * post.rewardWeight / FULL_PERCENT;
      QuotientBounds(full, post.rewardWeight, FULL_PERCENT);
      ScaleDown(full, post.rewardWeight, FULL_PERCENT, claim);
      QuotientBounds(fund, claim, claims);
      Larger(fund, claim, full);
    }
  }

  lemma Larger(n: nat, a: nat, b: nat)
    requires a <= b
    ensures n * a <= n * b
  {
  }

  lemma {:induction false} ClaimedWithinReward(post: Post, reward: nat, percent: nat)
    requires percent <= FULL_PERCENT
    ensures 0 <= Claimed(post, reward, percent) <= reward
  {
    PotWithinReward(reward, percent);
  }

  lemma {:induction false} AllNotNegative(curve: nat -> nat, posts: seq<Post>, order: seq<nat>, fund: nat, claims: nat, percent: nat)
    requires forall k :: 0 <= k < |order| ==> order[k] < |posts| && (posts[order[k]].netRshares > 0 ==> claims > 0)
    requires percent <= FULL_PERCENT && forall i :: 0 <= i < |posts| ==> Sane(posts[i])
    ensures NoneNegative(AllAwards(curve, posts, order, fund, claims, percent))
  {
    hide Sane, Reward, PostAwards;
    if |order| != 0 {
      AllNotNegative(curve, posts, order[..|order| - 1], fund, claims, percent);
      var post := posts[order[|order| - 1]];
      AwardsNotNegative(post, Reward(curve, post, fund, claims), percent);
    }
  }
}
