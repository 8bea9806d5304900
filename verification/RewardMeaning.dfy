/**
 What a comment is paid and who gets it: the reward by its two bounds, and for
 every account what it is credited of each kind.
 */
module RewardMeaning {
  import opened WeightedSums
  import opened Quotients
  import opened L = Ledger
  import opened Rewards
  import M = LedgerMeaning

  // ------------------------------------------------------- the reward

  /** The comment's claim: its curve value weighted by `reward_weight`. */
  ghost function WeightedClaim(curve: nat -> nat, post: Post): (c: nat)
    requires post.netRshares > 0
    ensures IsQuotient(c, curve(post.netRshares) * post.rewardWeight, FULL_PERCENT)
  {
    QuotientIs(curve(post.netRshares) * post.rewardWeight, FULL_PERCENT);
    curve(post.netRshares) * post.rewardWeight / FULL_PERCENT
  }

  /**
   `r` is the comment's reward: nothing without positive votes or when its share of
   the fund is below the smallest payout, otherwise that share rounded down.
   */
  ghost predicate IsReward(r: nat, curve: nat -> nat, post: Post, fund: nat, claims: nat) {
    if post.netRshares <= 0 then r == 0
    else
      var claim := WeightedClaim(curve, post);
      if fund * claim < MIN_PAYOUT * claims then r == 0 else IsQuotient(r, fund * claim, claims)
  }

  lemma {:induction false} RewardMeans(curve: nat -> nat, post: Post, fund: nat, claims: nat)
    requires post.netRshares > 0 ==> claims > 0
    ensures IsReward(Reward(curve, post, fund, claims), curve, post, fund, claims)
  {
    if post.netRshares > 0 {
      var claim := WeightedClaim(curve, post);
      SameClaim(curve, post);
      TimesRight(fund, 0, claim);
      QuotientIs(fund * claim, claims);
      AtLeast(fund * claim, claims, MIN_PAYOUT);
    }
  }

  lemma SameClaim(curve: nat -> nat, post: Post)
    requires post.netRshares > 0
    ensures WeightedClaim(curve, post) == curve(post.netRshares) * post.rewardWeight / FULL_PERCENT
  {
  }

  /** A comment with all claims on a fund of 1000 gets all of it; one whose share would be 19 gets nothing. */
  lemma RewardInstances()
    ensures var post := Post(0, 10, 0, 0, 10000, 0, [], [], true, 0, 0, 0);
            Reward(n => n, post, 1000, 10) == 1000 && Reward(n => n, post, 19, 10) == 0 && Reward(n => n, post, 20, 10) == 20
  {
  }

  /** The curve's values of all comments, negative votes counting as none. */
  ghost function CurveValues(curve: nat -> nat, posts: seq<Post>): (r: seq<int>)
    ensures |r| == |posts| && forall i :: 0 <= i < |r| ==> r[i] == curve(if posts[i].netRshares < 0 then 0 else posts[i].netRshares)
  {
    seq(|posts|, i requires 0 <= i < |posts| => curve(if posts[i].netRshares < 0 then 0 else posts[i].netRshares))
  }

  /** What a block adds to the recent claims: the curve's values of exactly the comments whose time has come and whose votes are positive. */
  lemma {:induction false} ClaimsMean(curve: nat -> nat, posts: seq<Post>, now: nat)
    ensures Total(Claims(curve, posts, now)) ==
            SumOver(CurveValues(curve, posts), set i: nat | i < |posts| && posts[i].cashoutTime <= now && posts[i].netRshares > 0)
  {
    var sel := set i: nat | i < |posts| && posts[i].cashoutTime <= now && posts[i].netRshares > 0;
    TotalIsSum(Claims(curve, posts, now), sel);
    SumAgrees(Claims(curve, posts, now), CurveValues(curve, posts), sel, sel);
  }

  // ------------------------------------------------------- who is credited

  /** What awards of one kind give to account `x`. */
  ghost function CreditTo(aw: seq<Award>, kind: Kind, x: nat): (t: int) {
    if |aw| == 0 then 0
    else CreditTo(aw[..|aw| - 1], kind, x) + if aw[|aw| - 1].kind == kind && aw[|aw| - 1].account == x then aw[|aw| - 1].bmt else 0
  }

  lemma {:induction false} CreditJoin(a: seq<Award>, b: seq<Award>, kind: Kind, x: nat)
    ensures CreditTo(a + b, kind, x) == CreditTo(a, kind, x) + CreditTo(b, kind, x)
  {
    if |b| == 0 {
      assert a + b == a;
    } else {
      assert (a + b)[..|a + b| - 1] == a + b[..|b| - 1];
      CreditJoin(a, b[..|b| - 1], kind, x);
    }
  }

  lemma {:induction false} CreditOne(a: seq<Award>, b: Award, kind: Kind, x: nat)
    ensures CreditTo(a + [b], kind, x) == CreditTo(a, kind, x) + if b.kind == kind && b.account == x then b.bmt else 0
  {
    assert (a + [b])[..|a|] == a;
  }

  ghost function SharesOf(s: seq<Share>, x: nat): (r: set<nat>) {
    set i: nat | i < |s| && s[i].account == x
  }

  /** Every curator's share of the pot by its weight, rounded down. */
  ghost function CuratorShares(votes: seq<Share>, pot: nat, total: nat): (r: seq<int>)
    requires 0 < total
    ensures |r| == |votes| && forall i :: 0 <= i < |votes| ==> r[i] == Portion(pot, votes[i].weight, total)
  {
    seq(|votes|, i requires 0 <= i < |votes| => Portion(pot, votes[i].weight, total))
  }

  lemma {:induction false} CuratorSharesMean(votes: seq<Share>, pot: nat, total: nat, i: nat)
    requires 0 < total && i < |votes|
    ensures IsQuotient(CuratorShares(votes, pot, total)[i], pot * votes[i].weight, total)
  {
    TimesRight(pot, 0, votes[i].weight);
    QuotientIs(pot * votes[i].weight, total);
  }

  /** A voter gets the shares of its votes, as claimable rewards only. */
  lemma {:induction false} CuratorCredits(votes: seq<Share>, pot: nat, total: nat, x: nat)
    requires 0 < total
    ensures CreditTo(CuratorAwards(votes, pot, total), Claimable, x) == SumOver(CuratorShares(votes, pot, total), SharesOf(votes, x))
    ensures CreditTo(CuratorAwards(votes, pot, total), Coin, x) == CreditTo(CuratorAwards(votes, pot, total), Shares, x) == 0
    ensures Sum(CuratorAwards(votes, pot, total)) == Total(CuratorShares(votes, pot, total))
  {
    hide Portion, CuratorAwards, CreditTo, Sum;
    if |votes| == 0 {
      assert CuratorAwards(votes, pot, total) == [] by { NoCurators(pot, total); }
      NoCredit(Claimable, x);
      NoCredit(Coin, x);
      NoCredit(Shares, x);
    } else {
      var last, init := |votes| - 1, votes[..|votes| - 1];
      CuratorCredits(init, pot, total, x);
      var all := CuratorShares(votes, pot, total);
      assert all[..last] == CuratorShares(init, pot, total);
      SumAgrees(all[..last], all[..last], SharesOf(votes, x), SharesOf(init, x));
      LastCurator(votes, pot, total, Claimable, x);
      LastCurator(votes, pot, total, Coin, x);
      LastCurator(votes, pot, total, Shares, x);
    }
  }

  lemma NoCurators(pot: nat, total: nat)
    requires 0 < total
    ensures CuratorAwards([], pot, total) == []
  {
  }

  lemma NoCredit(kind: Kind, x: nat)
    ensures CreditTo([], kind, x) == 0 && Sum([]) == 0
  {
  }

  lemma {:induction false} LastCurator(votes: seq<Share>, pot: nat, total: nat, kind: Kind, x: nat)
    requires 0 < total && 0 < |votes|
    ensures var before, last := CuratorAwards(votes[..|votes| - 1], pot, total), votes[|votes| - 1];
            var part := Portion(pot, last.weight, total);
            && CreditTo(CuratorAwards(votes, pot, total), kind, x) == CreditTo(before, kind, x) + (if kind == Claimable && last.account == x then part else 0)
            && Sum(CuratorAwards(votes, pot, total)) == Sum(before) + part
  {
    hide Portion, CreditTo, Sum;
    var before, last := CuratorAwards(votes[..|votes| - 1], pot, total), votes[|votes| - 1];
    var b := Award(Claimable, last.account, Portion(pot, last.weight, total));
    CreditOne(before, b, kind, x);
    AppendAward(before, b);
    assert before + [] == before;
  }

  /** Every beneficiary's percentage of the tokens, rounded towards zero. */
  ghost function BeneficiaryShares(bs: seq<Share>, tokens: int): (r: seq<int>)
    ensures |r| == |bs| && forall i :: 0 <= i < |bs| ==> r[i] == Quot(tokens * bs[i].weight, FULL_PERCENT)
  {
    seq(|bs|, i requires 0 <= i < |bs| => Quot(tokens * bs[i].weight, FULL_PERCENT))
  }

  lemma {:induction false} QuotMeans(a: int, d: nat)
    requires 0 < d
    ensures if 0 <= a then IsQuotient(Quot(a, d), a, d) else IsQuotient(0 - Quot(a, d), 0 - a, d)
  {
    QuotientIs(if 0 <= a then a else 0 - a, d);
  }

  lemma {:induction false} BeneficiaryCredits(bs: seq<Share>, tokens: int, x: nat)
    ensures CreditTo(BeneficiaryAwards(bs, tokens), Claimable, x) == SumOver(BeneficiaryShares(bs, tokens), SharesOf(bs, x))
    ensures CreditTo(BeneficiaryAwards(bs, tokens), Coin, x) == CreditTo(BeneficiaryAwards(bs, tokens), Shares, x) == 0
    ensures Sum(BeneficiaryAwards(bs, tokens)) == Total(BeneficiaryShares(bs, tokens))
  {
    hide Quot;
    if |bs| != 0 {
      var last, init := |bs| - 1, bs[..|bs| - 1];
      BeneficiaryCredits(init, tokens, x);
      var all := BeneficiaryShares(bs, tokens);
      assert all[..last] == BeneficiaryShares(init, tokens);
      SumAgrees(all[..last], all[..last], SharesOf(bs, x), SharesOf(init, x));
      var before, b := BeneficiaryAwards(init, tokens), Award(Claimable, bs[last].account, all[last]);
      CreditOne(before, b, Claimable, x);
      CreditOne(before, b, Coin, x);
      CreditOne(before, b, Shares, x);
      AppendAward(before, b);
    }
  }

  /** How a positive reward is divided: the numbers, each given by the bounds of its rounding. */
  datatype Division = Division(pot: nat, curators: seq<int>, tokens: int, beneficiaries: seq<int>, left: int, coins: int)

  ghost predicate Divides(d: Division, post: Post, reward: nat, percent: nat) {
    && IsQuotient(d.pot, reward * percent, FULL_PERCENT)
    // every vote has its share of the pot, by its weight in the total
    && |d.curators| == (if post.allowCuration && post.totalWeight > 0 then |post.votes| else 0)
    && (forall i :: 0 <= i < |d.curators| ==> IsQuotient(d.curators[i], d.pot * post.votes[i].weight, post.totalWeight))
    // the author's side has the rest, without the pot when there is no curation
    && d.tokens == (if post.allowCuration then reward - Total(d.curators) else reward - d.pot)
    // every beneficiary has its percentage of that
    && |d.beneficiaries| == |post.beneficiaries|
    && (forall i :: 0 <= i < |d.beneficiaries| ==> IsRounded(d.beneficiaries[i], d.tokens * post.beneficiaries[i].weight, FULL_PERCENT))
    && d.left == d.tokens - Total(d.beneficiaries)
    // half of the author's percentage is paid in coins
    && IsRounded(d.coins, d.left * post.liquidPercent, 2 * FULL_PERCENT)
  }

  /** `x` is the quotient rounded towards zero. */
  ghost predicate IsRounded(x: int, n: int, d: int) {
    if 0 <= n then IsQuotient(x, n, d) else IsQuotient(0 - x, 0 - n, d)
  }

  /** Who gets what of a divided reward. */
  ghost predicate Credits(aw: seq<Award>, d: Division, post: Post, x: nat) {
    && |d.curators| <= |post.votes| && |d.beneficiaries| == |post.beneficiaries|
    && CreditTo(aw, Claimable, x) == SumOver(d.curators, SharesOf(post.votes, x)) + SumOver(d.beneficiaries, SharesOf(post.beneficiaries, x))
    && CreditTo(aw, Shares, x) == (if x == post.author then d.left - d.coins else 0)
    && CreditTo(aw, Coin, x) == (if x == post.author then d.coins else 0)
  }

  ghost function DivisionOf(post: Post, reward: nat, percent: nat): (d: Division) {
    var pot, tokens := CurationPot(reward, percent), AuthorTokens(post, reward, percent);
    var bs := BeneficiaryShares(post.beneficiaries, tokens);
    var left := tokens - Total(bs);
    Division(pot, if post.allowCuration && post.totalWeight > 0 then CuratorShares(post.votes, pot, post.totalWeight) else [],
             tokens, bs, left, Quot(left * post.liquidPercent, 2 * FULL_PERCENT))
  }

  lemma {:induction false} DivisionDivides(post: Post, reward: nat, percent: nat)
    ensures Divides(DivisionOf(post, reward, percent), post, reward, percent)
  {
    hide Quot, Portion, IsQuotient, CuratorAwards;
    var d := DivisionOf(post, reward, percent);
    PotMeans(reward, percent);
    if post.allowCuration && post.totalWeight > 0 {
      CuratorCredits(post.votes, d.pot, post.totalWeight, 0);
      forall i | 0 <= i < |d.curators| ensures IsQuotient(d.curators[i], d.pot * post.votes[i].weight, post.totalWeight) {
        CuratorSharesMean(post.votes, d.pot, post.totalWeight, i);
      }
    }
    forall i | 0 <= i < |d.beneficiaries| ensures IsRounded(d.beneficiaries[i], d.tokens * post.beneficiaries[i].weight, FULL_PERCENT) {
      QuotMeans(d.tokens * post.beneficiaries[i].weight, FULL_PERCENT);
    }
    QuotMeans(d.left * post.liquidPercent, 2 * FULL_PERCENT);
    assert Sum([]) == 0 && Total([]) == 0;
  }

  lemma PotMeans(reward: nat, percent: nat)
    ensures IsQuotient(CurationPot(reward, percent), reward * percent, FULL_PERCENT)
  {
    QuotientIs(reward * percent, FULL_PERCENT);
  }

  /** Each account is credited exactly its parts: voters and beneficiaries claimable, the author shares and coins. */
  lemma {:induction false} PostCredits(post: Post, reward: nat, percent: nat, x: nat)
    ensures reward > 0 ==> Credits(PostAwards(post, reward, percent), DivisionOf(post, reward, percent), post, x)
    ensures reward == 0 ==> PostAwards(post, reward, percent) == []
  {
    hide Quot, CuratorAwards, BeneficiaryAwards;
    if reward > 0 {
      var d := DivisionOf(post, reward, percent);
      var cur, bs := Curated(post, d.pot), BeneficiaryAwards(post.beneficiaries, d.tokens);
      BeneficiaryCredits(post.beneficiaries, d.tokens, x);
      if post.allowCuration && post.totalWeight > 0 { CuratorCredits(post.votes, d.pot, post.totalWeight, x); }
      var author := AuthorAwards(post, d.left);
      assert PostAwards(post, reward, percent) == cur + bs + author;
      ThreeParts(cur, bs, author, Claimable, x);
      ThreeParts(cur, bs, author, Shares, x);
      ThreeParts(cur, bs, author, Coin, x);
      TwoAwards(author, Claimable, x);
      TwoAwards(author, Shares, x);
      TwoAwards(author, Coin, x);
    }
  }

  lemma {:induction false} ThreeParts(a: seq<Award>, b: seq<Award>, c: seq<Award>, kind: Kind, x: nat)
    ensures CreditTo(a + b + c, kind, x) == CreditTo(a, kind, x) + CreditTo(b, kind, x) + CreditTo(c, kind, x)
  {
    CreditJoin(a + b, c, kind, x);
    CreditJoin(a, b, kind, x);
  }

  lemma {:induction false} TwoAwards(aw: seq<Award>, kind: Kind, x: nat)
    requires |aw| == 2
    ensures CreditTo(aw, kind, x) == (if aw[0].kind == kind && aw[0].account == x then aw[0].bmt else 0)
                                     + if aw[1].kind == kind && aw[1].account == x then aw[1].bmt else 0
  {
    assert aw == [] + [aw[0]] + [aw[1]];
    CreditOne([] + [aw[0]], aw[1], kind, x);
    CreditOne([], aw[0], kind, x);
  }

  // ------------------------------------------------------- a whole cashout

  /** The credits of all comments of `order` together. */
  ghost function CreditsOf(curve: nat -> nat, posts: seq<Post>, order: seq<nat>, fund: nat, claims: nat, percent: nat, kind: Kind, x: nat): (t: int)
    requires forall k :: 0 <= k < |order| ==> order[k] < |posts| && (posts[order[k]].netRshares > 0 ==> claims > 0)
  {
    if |order| == 0 then 0
    else
      var post := posts[order[|order| - 1]];
      CreditsOf(curve, posts, order[..|order| - 1], fund, claims, percent, kind, x)
      + CreditTo(PostAwards(post, Reward(curve, post, fund, claims), percent), kind, x)
  }

  lemma {:induction false} AllCredits(curve: nat -> nat, posts: seq<Post>, order: seq<nat>, fund: nat, claims: nat, percent: nat, kind: Kind, x: nat)
    requires forall k :: 0 <= k < |order| ==> order[k] < |posts| && (posts[order[k]].netRshares > 0 ==> claims > 0)
    ensures CreditTo(AllAwards(curve, posts, order, fund, claims, percent), kind, x) == CreditsOf(curve, posts, order, fund, claims, percent, kind, x)
  {
    hide Reward, PostAwards;
    if |order| != 0 {
      AllCredits(curve, posts, order[..|order| - 1], fund, claims, percent, kind, x);
      var post := posts[order[|order| - 1]];
      CreditJoin(AllAwards(curve, posts, order[..|order| - 1], fund, claims, percent), PostAwards(post, Reward(curve, post, fund, claims), percent), kind, x);
    }
  }

  lemma {:induction false} PaidIsCredit(ps: seq<Payout>, kind: Kind, x: nat)
    ensures M.PaidTo(ps, kind, x) == CreditTo(AwardsOf(ps), kind, x)
  {
    if |ps| != 0 {
      PaidIsCredit(ps[..|ps| - 1], kind, x);
      assert AwardsOf(ps)[..|ps| - 1] == AwardsOf(ps[..|ps| - 1]);
    }
  }

  /** In the ledger: coins on the balance, claimable BMT waiting; savings and liquid rewards are untouched. */
  ghost predicate LedgerCredited(l: Ledger, r: Ledger, aw: seq<Award>) {
    && |r.holders| == |l.holders|
    && forall x :: 0 <= x < |l.holders| ==>
         && r.holders[x].balance == l.holders[x].balance + CreditTo(aw, Coin, x)
         && r.holders[x].rewardVestBmt == l.holders[x].rewardVestBmt + CreditTo(aw, Claimable, x)
         && r.holders[x].savings == l.holders[x].savings && r.holders[x].rewardBmt == l.holders[x].rewardBmt
  }

  lemma {:induction false} CashoutCredits(l: Ledger, ps: seq<Payout>, aw: seq<Award>)
    requires Apply(l, Cashout(ps)).Done? && AwardsOf(ps) == aw
    ensures LedgerCredited(l, Apply(l, Cashout(ps)).ledger, aw)
  {
    hide PayAll;
    M.CashoutMeans(l, ps);
    M.PayoutsMean(l, ps);
    forall x | 0 <= x < |l.holders|
      ensures M.PaidTo(ps, Coin, x) == CreditTo(aw, Coin, x) && M.PaidTo(ps, Claimable, x) == CreditTo(aw, Claimable, x)
    {
      PaidIsCredit(ps, Coin, x);
      PaidIsCredit(ps, Claimable, x);
    }
  }
}
