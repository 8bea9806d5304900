/**
 `process_comment_cashout` on the database: the loop over due comments, the
 payments it makes and the debit of the reward fund.
 */
module CommentCashout {
  import opened WeightedSums
  import opened L = Ledger
  import opened Rewards
  import opened RewardMeaning
  import R = LedgerRuns

  ghost predicate KnownShares(s: seq<Share>, n: nat) {
    forall i :: 0 <= i < |s| ==> s[i].account < n
  }

  ghost predicate PostOk(post: Post, n: nat) {
    && post.author < n && KnownShares(post.votes, n) && KnownShares(post.beneficiaries, n)
    && post.rewardWeight <= FULL_PERCENT
  }

  /** The comments of `order` are paid out, the others are as they were. */
  ghost predicate PaidExactly(before: seq<Post>, after: seq<Post>, order: seq<nat>, now: nat) {
    && |after| == |before|
    && (forall k :: 0 <= k < |order| ==> order[k] < |before| && Due(before[order[k]], now))
    && (forall k, m :: 0 <= k < m < |order| ==> order[k] != order[m])
    && (forall i: nat :: i < |before| ==> after[i] == if i in order then CashedOut(before[i], now) else before[i])
  }

  lemma {:induction false} PayOneMore(before: seq<Post>, after: seq<Post>, order: seq<nat>, now: nat, i: nat)
    requires PaidExactly(before, after, order, now) && i < |after| && Due(after[i], now)
    ensures i !in order && |after| == |before| && after[i] == before[i]
    ensures PaidExactly(before, after[i := CashedOut(after[i], now)], order + [i], now)
  {
    assert i !in order;
  }

  /** An amount that is not negative makes vesting shares that are not negative. */
  ghost predicate VestsFollow(ps: seq<Payout>) {
    forall k :: 0 <= k < |ps| ==> 0 <= ps[k].bmt ==> 0 <= ps[k].vests
  }

  ghost predicate FairPrice(price: (Ledger, bool, int) -> int) {
    forall l: Ledger, pending: bool, n: int :: 0 <= n ==> 0 <= price(l, pending, n)
  }

  /** What payments leave alone. */
  ghost predicate SameFrame(l: Ledger, r: Ledger) {
    |r.holders| == |l.holders| && r.fund == l.fund && r.now == l.now
  }

  lemma {:induction false} PayAllKeepsFund(l: Ledger, ps: seq<Payout>)
    requires AllKnown(l, ps)
    ensures PayAll(l, ps).fund == l.fund && PayAll(l, ps).now == l.now
  {
    if |ps| != 0 {
      assert Known(l, ps[|ps| - 1].account);
      PayAllKeepsFund(l, ps[..|ps| - 1]);
    }
  }

  lemma {:induction false} NextCurator(votes: seq<Share>, pot: nat, total: nat, i: nat)
    requires 0 < total && i < |votes|
    ensures var before := CuratorAwards(votes[..i], pot, total);
            var after := CuratorAwards(votes[..i + 1], pot, total);
            var claim := Portion(pot, votes[i].weight, total);
            && after == (if claim > 0 then before + [Award(Claimable, votes[i].account, claim)] else before)
            && Sum(after) == Sum(before) + claim
  {
    hide Portion, Sum;
    assert votes[..i + 1][..i] == votes[..i];
    var before := CuratorAwards(votes[..i], pot, total);
    assert before + [] == before;
    AppendAward(before, Award(Claimable, votes[i].account, Portion(pot, votes[i].weight, total)));
  }

  class Cashier {
    const curve: nat -> nat                       // evaluate_reward_curve with the fund's curve
    const price: (Ledger, bool, int) -> int       // vesting shares for BMT, rounded as the price does
    const percent: nat                            // percent_curation_rewards
    var ledger: Ledger
    var posts: seq<Post>
    var recentClaims: nat                         // recent_claims of the fund
    var lastUpdate: nat                           // last_update of the fund
    ghost var start: Ledger                       // the ledger before the payments of this block
    ghost var paid: seq<Payout>                   // those payments

    ghost predicate Valid()
      reads this
    {
      && percent <= FULL_PERCENT && 0 <= ledger.fund && lastUpdate <= ledger.now
      && (forall n: nat :: 0 < n ==> 0 < curve(n))
      && (forall i :: 0 <= i < |posts| ==> PostOk(posts[i], |ledger.holders|))
      && AllKnown(start, paid) && ledger == PayAll(start, paid)
      && FairPrice(price) && VestsFollow(paid)
    }

    constructor (curve: nat -> nat, price: (Ledger, bool, int) -> int, percent: nat, ledger: Ledger, posts: seq<Post>)
      requires FairPrice(price) && percent <= FULL_PERCENT && 0 <= ledger.fund && forall n: nat :: 0 < n ==> 0 < curve(n)
      requires forall i :: 0 <= i < |posts| ==> PostOk(posts[i], |ledger.holders|)
      ensures Valid() && this.ledger == ledger && this.posts == posts && paid == []
      ensures this.curve == curve && this.price == price && this.percent == percent
      ensures recentClaims == 0 && lastUpdate == ledger.now
    {
      this.curve, this.price, this.percent, this.ledger, this.posts := curve, price, percent, ledger, posts;
      recentClaims, lastUpdate := 0, ledger.now;
      start, paid := ledger, [];
    }

    /** One call of `create_vesting` or `adjust_balance`. */
    method Credit(a: Award)
      requires Valid() && Known(ledger, a.account)
      modifies this`ledger, this`paid
      ensures Valid() && SameFrame(old(ledger), ledger)
      ensures AwardsOf(paid) == old(AwardsOf(paid)) + [a]
      ensures paid[..|old(paid)|] == old(paid)
      ensures a.kind != Coin ==> paid[|old(paid)|].vests == price(old(ledger), a.kind == Claimable, a.bmt)
    {
      var vests := if a.kind == Coin then 0 else price(ledger, a.kind == Claimable, a.bmt);
      var p := Payout(a.kind, a.account, a.bmt, vests);
      ghost var was := paid;
      PayAllKeepsFund(start, paid);
      ledger := Pay(ledger, p);
      paid := paid + [p];
      assert paid[..|was|] == was;
      assert AwardsOf(paid) == AwardsOf(was) + [a];
      PayAllKeepsFund(start, paid);
    }

    /** `pay_curators`: pays every claim above zero and returns what nobody claimed. */
    method PayCurators(post: Post, pot: nat) returns (unclaimed: int)
      requires Valid() && PostOk(post, |ledger.holders|)
      modifies this`ledger, this`paid
      ensures Valid() && SameFrame(old(ledger), ledger)
      ensures AwardsOf(paid) == old(AwardsOf(paid)) + Curated(post, pot)
      ensures unclaimed == Unclaimed(post, pot)
    {
      hide Portion, PayAll, Valid, CuratorAwards, Sum;
      NothingCurated(post.votes, pot, post.totalWeight);
      unclaimed := pot;
      if !post.allowCuration {
        unclaimed := 0;
      } else if post.totalWeight > 0 {
        var i := 0;
        while i < |post.votes|
          invariant i <= |post.votes| && Valid() && SameFrame(old(ledger), ledger)
          invariant AwardsOf(paid) == old(AwardsOf(paid)) + CuratorAwards(post.votes[..i], pot, post.totalWeight)
          invariant unclaimed == pot - Sum(CuratorAwards(post.votes[..i], pot, post.totalWeight))
        {
          var claim := Portion(pot, post.votes[i].weight, post.totalWeight);
          NextCurator(post.votes, pot, post.totalWeight, i);
          if claim > 0 {
            unclaimed := unclaimed - claim;
            Credit(Award(Claimable, post.votes[i].account, claim));
          }
          i := i + 1;
        }
        assert post.votes[..i] == post.votes;
      }
    }

    /** Every beneficiary gets its percentage of the author's tokens. */
    method PayBeneficiaries(post: Post, tokens: int) returns (total: int)
      requires Valid() && PostOk(post, |ledger.holders|)
      modifies this`ledger, this`paid
      ensures Valid() && SameFrame(old(ledger), ledger)
      ensures AwardsOf(paid) == old(AwardsOf(paid)) + BeneficiaryAwards(post.beneficiaries, tokens)
      ensures total == Sum(BeneficiaryAwards(post.beneficiaries, tokens))
    {
      hide Quot, PayAll, Valid, Sum;
      NothingCurated([], 0, 0);
      total := 0;
      var bs, i := post.beneficiaries, 0;
      while i < |bs|
        invariant i <= |bs| && Valid() && SameFrame(old(ledger), ledger)
        invariant AwardsOf(paid) == old(AwardsOf(paid)) + BeneficiaryAwards(bs[..i], tokens)
        invariant total == Sum(BeneficiaryAwards(bs[..i], tokens))
      {
        var part := Quot(tokens * bs[i].weight, FULL_PERCENT);
        assert bs[..i + 1][..i] == bs[..i];
        AppendAward(BeneficiaryAwards(bs[..i], tokens), Award(Claimable, bs[i].account, part));
        Credit(Award(Claimable, bs[i].account, part));
        total := total + part;
        i := i + 1;
      }
      assert bs[..i] == bs;
    }

    /** The payments of one comment. */
    method PayPost(post: Post, reward: nat) returns (claimed: int)
      requires Valid() && PostOk(post, |ledger.holders|)
      modifies this`ledger, this`paid
      ensures Valid() && SameFrame(old(ledger), ledger)
      ensures AwardsOf(paid) == old(AwardsOf(paid)) + PostAwards(post, reward, percent)
      ensures claimed == Claimed(post, reward, percent) == Sum(PostAwards(post, reward, percent))
    {
      hide Quot, PayAll, Valid, Sum, Curated, Unclaimed, BeneficiaryAwards, CurationPot;
      AwardsAddUp(post, reward, percent);
      claimed := 0;
      if reward > 0 {
        var pot := CurationPot(reward, percent);
        var unclaimed := PayCurators(post, pot);
        var tokens := reward - pot + unclaimed;
        claimed := tokens + if post.allowCuration then pot - unclaimed else 0;
        var given := PayBeneficiaries(post, tokens);
        var left := tokens - given;
        var coins := Quot(left * post.liquidPercent, 2 * FULL_PERCENT);
        Credit(Award(Shares, post.author, left - coins));
        Credit(Award(Coin, post.author, coins));
        WithoutCuration(post, pot);
      } else {
        NothingClaimed(percent);
      }
    }

    /** `cashout_comment_helper`: pays one comment and closes its window. */
    method CashOut(i: nat, fund: nat, claims: nat) returns (claimed: int)
      requires Valid() && i < |posts| && (posts[i].netRshares > 0 ==> claims > 0)
      modifies this`ledger, this`paid, this`posts
      ensures Valid() && SameFrame(old(ledger), ledger)
      ensures posts == old(posts)[i := CashedOut(old(posts)[i], ledger.now)]
      ensures AwardsOf(paid) == old(AwardsOf(paid)) + PostAwards(old(posts)[i], Reward(curve, old(posts)[i], fund, claims), percent)
      ensures claimed == Claimed(old(posts)[i], Reward(curve, old(posts)[i], fund, claims), percent)
      ensures Sum(AwardsOf(paid)) == old(Sum(AwardsOf(paid))) + claimed
      ensures IsReward(Reward(curve, old(posts)[i], fund, claims), curve, old(posts)[i], fund, claims)
    {
      hide PayAll, Sum, Reward, PostAwards, Claimed, IsReward;
      RewardMeans(curve, posts[i], fund, claims);
      var post := posts[i];
      var reward := Reward(curve, post, fund, claims);
      claimed := PayPost(post, reward);
      SumJoin(old(AwardsOf(paid)), PostAwards(post, reward, percent));
      posts := posts[i := CashedOut(post, ledger.now)];
    }

    /** The comment at the front of the index by cashout time, if it is due. */
    method EarliestDue() returns (found: bool, i: nat)
      ensures found ==> i < |posts| && Due(posts[i], ledger.now) && forall j :: 0 <= j < |posts| ==> posts[i].cashoutTime <= posts[j].cashoutTime
      ensures !found ==> forall j :: 0 <= j < |posts| ==> !Due(posts[j], ledger.now)
    {
      i := 0;
      var j := 0;
      while j < |posts|
        invariant i <= j <= |posts| && (j > 0 ==> i < j)
        invariant forall k :: 0 <= k < j ==> posts[i].cashoutTime <= posts[k].cashoutTime
      {
        if posts[j].cashoutTime < posts[i].cashoutTime { i := j; }
        j := j + 1;
      }
      found := i < |posts| && Due(posts[i], ledger.now);
    }

    /** The recent claims, raised by every comment that is about to be paid. */
    method SumClaims(decayed: nat) returns (claims: nat)
      ensures claims == decayed + Total(Claims(curve, posts, ledger.now))
    {
      claims := decayed;
      ghost var all := Claims(curve, posts, ledger.now);
      var j := 0;
      while j < |posts|
        invariant j <= |posts| && claims == decayed + Total(all[..j])
      {
        assert all[..j + 1][..j] == all[..j];
        claims := claims + ClaimOf(curve, posts[j], ledger.now);
        j := j + 1;
      }
      assert all[..j] == all;
    }

    /**
     `process_comment_cashout`.  The fund's recent claims decay and take in the
     claims of the comments that are due.  Every due comment is paid exactly once, all from one snapshot
     of the fund; the fund is debited the sum of what is credited and is never
     overdrawn, so the whole is one cashout step of the ledger.
     */
    method Process(block: nat) returns (ghost order: seq<nat>, ghost claims: nat, ghost ps: seq<Payout>)
      requires Valid()
      modifies this
      ensures Valid()
      ensures block <= FIRST_PAYOUT_BLOCK ==>
        ledger == old(ledger) && posts == old(posts) && recentClaims == old(recentClaims) && lastUpdate == old(lastUpdate)
      ensures block > FIRST_PAYOUT_BLOCK ==>
        && old(lastUpdate <= ledger.now)
        && claims == Decayed(old(recentClaims), old(ledger.now - lastUpdate)) + Total(Claims(curve, old(posts), old(ledger).now))
        && recentClaims == claims && lastUpdate == old(ledger).now
        && PaidExactly(old(posts), posts, order, old(ledger).now)
        && (forall j :: 0 <= j < |posts| ==> !Due(posts[j], old(ledger).now))
        && ClaimsCover(old(posts), order, claims)
        && AwardsOf(ps) == AllAwards(curve, old(posts), order, old(ledger).fund, claims, percent)
        && Apply(old(ledger), Cashout(ps)) == Done(ledger)
        && ledger.fund == old(ledger).fund - Awarded(ps) >= 0
        && VestsFollow(ps)
        && Rewarded(curve, old(posts), order, old(ledger).fund, claims)
        && LedgerCredited(old(ledger), ledger, AllAwards(curve, old(posts), order, old(ledger).fund, claims, percent))
    {
      hide PayAll, Sum, Reward, PostAwards, Claimed, Total, Valid, WithinShare, Awarded, PaidExactly, Rewarded, LedgerCredited;
      Basics();
      order, claims, ps := [], 0, [];
      if block <= FIRST_PAYOUT_BLOCK { return; }
      ghost var before, l0 := posts, ledger;
      Restart();
      var fund := ledger.fund;
      var decayed := Decayed(recentClaims, ledger.now - lastUpdate);
      var total := SumClaims(decayed);
      var awarded := 0;
      StartPaying(posts, ledger.now, total, fund);
      var found: bool, i: nat := EarliestDue();
      while found
        invariant Paying(before, l0, order, decayed, fund, total, awarded)
        invariant found ==> i < |posts| && Due(posts[i], l0.now)
        invariant !found ==> forall j :: 0 <= j < |posts| ==> !Due(posts[j], l0.now)
        decreases Total(DueFlags(posts, l0.now))
      {
        Basics();
        FewerDue(curve, posts, l0.now, i);
        PayOneMore(before, posts, order, l0.now, i);
        PositiveClaims(curve, before, l0.now, i, decayed);
        awarded := PayNext(i, before, l0, order, decayed, fund, total, awarded);
        order := order + [i];
        found, i := EarliestDue();
      }
      FundCovers(curve, before, posts, l0.now, decayed, total, awarded, fund);
      Basics();
      ps, claims := paid, total;
      AwardedIsSum(paid);
      WriteBack(awarded, total);
      AllRewarded(curve, before, order, fund, total);
      CashoutCredits(l0, ps, AllAwards(curve, before, order, fund, total, percent));
    }

    /** Between two turns of the loop: the comments of `order` are paid, from the snapshot taken before the first. */
    ghost predicate Paying(before: seq<Post>, l0: Ledger, order: seq<nat>, decayed: nat, fund: nat, total: nat, awarded: int)
      reads this
    {
      && Valid() && SameFrame(l0, ledger) && start == l0 && fund == l0.fund
      && total == decayed + Total(Claims(curve, before, l0.now))
      && PaidExactly(before, posts, order, l0.now) && ClaimsCover(before, order, total)
      && AwardsOf(paid) == AllAwards(curve, before, order, fund, total, percent)
      && awarded == Sum(AwardsOf(paid)) && 0 <= awarded && (total == 0 ==> awarded == 0)
      && WithinShare(awarded, total, fund, Total(Claims(curve, before, l0.now)) - Total(Claims(curve, posts, l0.now)))
    }

    /** One turn of the loop. */
    method PayNext(i: nat, ghost before: seq<Post>, ghost l0: Ledger, ghost order: seq<nat>, ghost decayed: nat, fund: nat, total: nat, awarded: int)
      returns (sum: int)
      requires Valid() && i < |posts| && Due(posts[i], ledger.now) && (posts[i].netRshares > 0 ==> total > 0)
      modifies this`ledger, this`paid, this`posts
      ensures old(Paying(before, l0, order, decayed, fund, total, awarded)) ==> Paying(before, l0, order + [i], decayed, fund, total, sum)
      ensures posts == old(posts)[i := CashedOut(old(posts)[i], old(ledger).now)]
    {
      hide PayAll, Sum, Reward, PostAwards, Claimed, Total, Valid, WithinShare, PaidExactly;
      Basics();
      if Paying(before, l0, order, decayed, fund, total, awarded) {
        PayOneMore(before, posts, order, l0.now, i);
        OneMorePaid(curve, posts, i, fund, total, percent, l0.now, awarded, Total(Claims(curve, before, l0.now)));
        OneMoreAwarded(curve, before, order, i, fund, total, percent);
      }
      var claimed := CashOut(i, fund, total);
      sum := awarded + claimed;
    }

    lemma Basics()
      requires Valid()
      ensures percent <= FULL_PERCENT && 0 <= ledger.fund && lastUpdate <= ledger.now
      ensures forall n: nat :: 0 < n ==> 0 < curve(n)
      ensures forall i :: 0 <= i < |posts| ==> PostOk(posts[i], |ledger.holders|)
      ensures VestsFollow(paid)
    {
    }

    /** Forgets the payments of an earlier block. */
    ghost method Restart()
      requires Valid()
      modifies this`start, this`paid
      ensures Valid() && start == ledger && paid == [] && AwardsOf(paid) == []
    {
      start, paid := ledger, [];
    }

    /** The fund's cached state is written back. */
    method WriteBack(awarded: nat, total: nat)
      requires Valid() && awarded == Awarded(paid) <= ledger.fund
      modifies this
      ensures Valid() && posts == old(posts)
      ensures Apply(old(start), Cashout(old(paid))) == Done(ledger)
      ensures ledger.fund == old(ledger).fund - awarded && recentClaims == total && lastUpdate == old(ledger).now
    {
      PayAllKeepsFund(start, paid);
      recentClaims, lastUpdate := total, ledger.now;
      ledger := ledger.(fund := ledger.fund - awarded);
      start, paid := ledger, [];
    }
  }

  /** A comment with a positive claim that is paid is part of the claims. */
  ghost predicate ClaimsCover(posts: seq<Post>, order: seq<nat>, claims: nat) {
    forall k :: 0 <= k < |order| ==> order[k] < |posts| && (posts[order[k]].netRshares > 0 ==> claims > 0)
  }

  /** Every comment of `order` gets its reward. */
  ghost predicate Rewarded(curve: nat -> nat, posts: seq<Post>, order: seq<nat>, fund: nat, claims: nat) {
    && ClaimsCover(posts, order, claims)
    && forall k :: 0 <= k < |order| ==> IsReward(Reward(curve, posts[order[k]], fund, claims), curve, posts[order[k]], fund, claims)
  }

  lemma {:induction false} AllRewarded(curve: nat -> nat, posts: seq<Post>, order: seq<nat>, fund: nat, claims: nat)
    requires ClaimsCover(posts, order, claims)
    ensures Rewarded(curve, posts, order, fund, claims)
  {
    hide Reward, IsReward;
    forall k | 0 <= k < |order|
      ensures IsReward(Reward(curve, posts[order[k]], fund, claims), curve, posts[order[k]], fund, claims)
    {
      RewardMeans(curve, posts[order[k]], fund, claims);
    }
  }

  lemma {:induction false} StartPaying(posts: seq<Post>, now: nat, total: nat, fund: nat)
    ensures PaidExactly(posts, posts, [], now) && WithinShare(0, total, fund, 0) && Sum([]) == 0
  {
  }

  lemma {:induction false} PositiveClaims(curve: nat -> nat, posts: seq<Post>, now: nat, i: nat, decayed: nat)
    requires i < |posts| && Due(posts[i], now) && forall n: nat :: 0 < n ==> 0 < curve(n)
    ensures posts[i].netRshares > 0 ==> 0 < decayed + Total(Claims(curve, posts, now))
    ensures 0 <= Total(Claims(curve, posts, now))
  {
    TotalNonnegative(Claims(curve, posts, now));
    OneWithinTotal(Claims(curve, posts, now), i);
  }

  lemma {:induction false} FewerDue(curve: nat -> nat, posts: seq<Post>, now: nat, i: nat)
    requires i < |posts| && Due(posts[i], now)
    ensures var after := posts[i := CashedOut(posts[i], now)];
            && 0 <= Total(DueFlags(after, now)) < Total(DueFlags(posts, now))
            && Total(Claims(curve, after, now)) == Total(Claims(curve, posts, now)) - ClaimOf(curve, posts[i], now)
  {
    hide Total;
    var after := posts[i := CashedOut(posts[i], now)];
    assert DueFlags(after, now) == DueFlags(posts, now)[i := 0];
    assert Claims(curve, after, now) == Claims(curve, posts, now)[i := 0];
    TotalUpdate(DueFlags(posts, now), i, 0);
    TotalUpdate(Claims(curve, posts, now), i, 0);
    TotalNonnegative(DueFlags(after, now));
  }

  /** The awards so far stay within the share of the fund that the paid comments' claims have. */
  lemma {:induction false} OneMorePaid(curve: nat -> nat, posts: seq<Post>, i: nat, fund: nat, total: nat, percent: nat, now: nat, awarded: int, all: int)
    requires i < |posts| && Due(posts[i], now) && posts[i].rewardWeight <= FULL_PERCENT && percent <= FULL_PERCENT
    requires posts[i].netRshares > 0 ==> total > 0
    requires WithinShare(awarded, total, fund, all - Total(Claims(curve, posts, now)))
    ensures var claimed := Claimed(posts[i], Reward(curve, posts[i], fund, total), percent);
            && 0 <= claimed && (total == 0 ==> claimed == 0)
            && WithinShare(awarded + claimed, total, fund, all - Total(Claims(curve, posts[i := CashedOut(posts[i], now)], now)))
  {
    hide Total, Claimed, WithinShare;
    var post := posts[i];
    var reward := Reward(curve, post, fund, total);
    ClaimedWithinReward(post, reward, percent);
    RewardWithinShare(curve, post, fund, total, now);
    var claimed := Claimed(post, reward, percent);
    Weaken(claimed, reward, total, fund, ClaimOf(curve, post, now));
    SharesAdd(awarded, claimed, total, fund, all - Total(Claims(curve, posts, now)), ClaimOf(curve, post, now));
    FewerDue(curve, posts, now, i);
  }

  lemma Weaken(a: nat, b: nat, total: nat, fund: nat, c: nat)
    requires a <= b && b * total <= fund * c
    ensures WithinShare(a, total, fund, c)
  {
    Larger(total, a, b);
  }

  lemma {:induction false} OneMoreAwarded(curve: nat -> nat, posts: seq<Post>, order: seq<nat>, i: nat, fund: nat, total: nat, percent: nat)
    requires ClaimsCover(posts, order, total) && i < |posts| && (posts[i].netRshares > 0 ==> total > 0)
    ensures ClaimsCover(posts, order + [i], total)
    ensures AllAwards(curve, posts, order + [i], fund, total, percent)
            == AllAwards(curve, posts, order, fund, total, percent) + PostAwards(posts[i], Reward(curve, posts[i], fund, total), percent)
  {
    hide Reward, PostAwards;
    assert (order + [i])[..|order|] == order;
  }

  lemma {:induction false} FundCovers(curve: nat -> nat, before: seq<Post>, after: seq<Post>, now: nat, decayed: nat, total: nat, awarded: nat, fund: nat)
    requires total == decayed + Total(Claims(curve, before, now)) && (total == 0 ==> awarded == 0)
    requires WithinShare(awarded, total, fund, Total(Claims(curve, before, now)) - Total(Claims(curve, after, now)))
    ensures awarded <= fund
  {
    hide Total;
    TotalNonnegative(Claims(curve, after, now));
    if total > 0 {
      ShareWithinFund(fund, Total(Claims(curve, before, now)) - Total(Claims(curve, after, now)), total, awarded);
    }
  }

  lemma ShareWithinFund(fund: nat, used: int, total: nat, awarded: nat)
    requires 0 < total && used <= total && WithinShare(awarded, total, fund, used)
    ensures awarded <= fund
  {
    if used < 0 {
      assert fund * used <= 0;
    } else {
      ScaleDown(fund, used, total, awarded);
    }
  }


  /** A cashout of comments with sane weights keeps every equation of the ledger. */
  lemma {:induction false} CashoutBalanced(l: Ledger, ps: seq<Payout>, curve: nat -> nat, posts: seq<Post>, order: seq<nat>, claims: nat, percent: nat)
    requires Balanced(l) && 0 <= l.fund && percent <= FULL_PERCENT && ClaimsCover(posts, order, claims)
    requires AwardsOf(ps) == AllAwards(curve, posts, order, l.fund, claims, percent) && VestsFollow(ps)
    requires forall i :: 0 <= i < |posts| ==> Sane(posts[i])
    ensures R.Fair(Cashout(ps)) && Balanced(Next(l, Cashout(ps)))
  {
    hide Gap, Sound, Sane, AllAwards, Next;
    AllNotNegative(curve, posts, order, l.fund, claims, percent);
    forall i | 0 <= i < |ps| ensures 0 <= ps[i].bmt && 0 <= ps[i].vests { assert 0 <= AwardsOf(ps)[i].bmt; }
    R.CashoutKept(l, ps);
  }

  lemma WithoutCuration(post: Post, pot: nat)
    ensures !post.allowCuration ==> Unclaimed(post, pot) == 0
  {
  }

  lemma NothingClaimed(percent: nat)
    ensures CurationPot(0, percent) == 0
  {
  }

  lemma NothingCurated(votes: seq<Share>, pot: nat, total: nat)
    ensures 0 < total ==> CuratorAwards(votes[..0], pot, total) == []
    ensures Sum([]) == 0
  {
  }
}
