/**
 Votes on a comment until its first payout: every vote's weight, the comment's
 total weight, and what curators can claim from the curation pot.
 */
module Curation {
  import opened Wrappers
  import opened Widths
  import opened WeightedSums
  import opened Quotients
  import R = Rewards

  const WINDOW: nat := 30 * 60          // BMCHAIN_REVERSE_AUCTION_WINDOW_SECONDS
  const MAX_VOTE_CHANGES: int := 5

  datatype Vote = Vote(voter: nat, rshares: int, weight: nat, changes: int)

  /** The reward curve of curation: monotone, and its values fit 64 bits. */
  ghost predicate GoodCurve(w: nat -> nat) {
    forall r: nat, s: nat :: r <= s ==> w(r) <= w(s) < U64
  }

  ghost function Weights(votes: seq<Vote>): (r: seq<int>)
    ensures |r| == |votes| && forall i :: 0 <= i < |r| ==> r[i] == votes[i].weight
  {
    seq(|votes|, i requires 0 <= i < |votes| => votes[i].weight)
  }

  ghost function RsharesOf(votes: seq<Vote>): (r: seq<int>)
    ensures |r| == |votes| && forall i :: 0 <= i < |r| ==> r[i] == votes[i].rshares
  {
    seq(|votes|, i requires 0 <= i < |votes| => votes[i].rshares)
  }

  function Sign(rshares: int): (s: int) {
    if rshares > 0 then 1 else if rshares < 0 then -1 else 0
  }

  ghost function Signs(votes: seq<Vote>): (r: seq<int>)
    ensures |r| == |votes| && forall i :: 0 <= i < |r| ==> r[i] == Sign(votes[i].rshares)
  {
    seq(|votes|, i requires 0 <= i < |votes| => Sign(votes[i].rshares))
  }

  /** The table of cases by which a changed vote moves `net_votes`. */
  function NetChange(was: int, now: int): (d: int) {
    if now > 0 && was < 0 then 2
    else if now > 0 && was == 0 then 1
    else if now == 0 && was < 0 then 1
    else if now == 0 && was > 0 then -1
    else if now < 0 && was == 0 then -1
    else if now < 0 && was > 0 then -2
    else 0
  }

  // ------------------------------------------------------- voting power

  const FULL_POWER: nat := 10000                      // BMCHAIN_100_PERCENT
  const MIN_INTERVAL: nat := 3                        // BMCHAIN_MIN_VOTE_INTERVAL_SEC
  const REGENERATION: nat := 5 * 60 * 60 * 24         // BMCHAIN_VOTE_REGENERATION_SECONDS
  const DAY: nat := 60 * 60 * 24
  const DUST: nat := 10000                            // BMCHAIN_VOTE_DUST_THRESHOLD

  datatype Voter = Voter(power: nat, lastVote: nat, vests: nat)

  datatype Refusal = TooSoon | NoPower | NoReserve | NotEnough | TooSmall

  /** The voting power at time `now`, regenerated since the last vote. */
  function CurrentPower(v: Voter, now: nat): (p: nat)
    requires v.lastVote <= now
    ensures v.power <= FULL_POWER ==> v.power <= p <= FULL_POWER
  {
    var p := v.power + FULL_POWER * (now - v.lastVote) / REGENERATION;
    if p < FULL_POWER then p else FULL_POWER
  }

  /** What a vote of `weight` (in hundredths of a percent, negative against) uses of the power and makes in shares. */
  function UsePower(v: Voter, now: nat, weight: int, reserve: nat): (r: Result<(Voter, int), Refusal>)
    requires v.lastVote <= now
  {
    if now - v.lastVote < MIN_INTERVAL then Err(TooSoon)
    else
      var current := CurrentPower(v, now);
      var size: nat := if weight < 0 then -weight else weight;
      var denom := reserve * REGENERATION / DAY;
      if current == 0 then Err(NoPower)
      else if denom <= 0 then Err(NoReserve)
      else
        var used := (current * size / FULL_POWER + denom - 1) / denom;
        var shares := v.vests * used / FULL_POWER;
        if used > current then Err(NotEnough)
        else if shares <= DUST && weight != 0 then Err(TooSmall)
        else Ok((v.(power := current - used, lastVote := now), if weight < 0 then -shares else shares))
  }

  /** An accepted vote leaves a power within its range and makes no more shares than the voter's vesting. */
  lemma {:induction false} PowerWithin(v: Voter, now: nat, weight: int, reserve: nat)
    requires v.lastVote <= now && v.power <= FULL_POWER
    ensures var r := UsePower(v, now, weight, reserve);
            r.Ok? ==>
              && 0 <= r.value.0.power <= CurrentPower(v, now) <= FULL_POWER && r.value.0.vests == v.vests
              && (r.value.1 == 0 <==> weight == 0) && (weight < 0 ==> r.value.1 < 0)
              && 0 - v.vests <= r.value.1 <= v.vests
  {
    hide CurrentPower;
    if UsePower(v, now, weight, reserve).Ok? {
      var current := CurrentPower(v, now);
      var size: nat := if weight < 0 then -weight else weight;
      var denom := reserve * REGENERATION / DAY;
      var used := (current * size / FULL_POWER + denom - 1) / denom;
      PartOf(v.vests, used, FULL_POWER);
      if weight == 0 { NothingUsed(current, denom); }
    }
  }

  lemma NothingUsed(current: nat, denom: nat)
    requires 0 < denom
    ensures (current * 0 / FULL_POWER + denom - 1) / denom == 0
  {
  }

  /** `u` is `n` over `d`, rounded up. */
  ghost predicate RoundsUp(u: int, n: int, d: int) {
    (u - 1) * d < n <= u * d
  }

  lemma {:induction false} RoundUpIs(n: nat, d: nat)
    requires 0 < d
    ensures RoundsUp((n + d - 1) / d, n, d)
  {
    var u := (n + d - 1) / d;
    QuotientIs(n + d - 1, d);
    OneMore(u, d);
    OneMore(u - 1, d);
  }

  /** Power comes back in proportion to the time, up to full power. */
  lemma {:induction false} CurrentPowerMeans(v: Voter, now: nat) returns (regained: nat)
    requires v.lastVote <= now
    ensures IsQuotient(regained, FULL_POWER * (now - v.lastVote), REGENERATION)
    ensures CurrentPower(v, now) == if v.power + regained < FULL_POWER then v.power + regained else FULL_POWER
  {
    regained := FULL_POWER * (now - v.lastVote) / REGENERATION;
    QuotientIs(FULL_POWER * (now - v.lastVote), REGENERATION);
  }

  /**
   The numbers of a vote by the bounds of their rounding, and when it is refused: it
   uses its weight's part of the current power, spread over five times the reserve
   rate and rounded up, and makes that part of the vesting in shares.
   */
  lemma {:induction false} PowerMeans(v: Voter, now: nat, weight: int, reserve: nat) returns (part: nat, used: nat, shares: nat)
    requires v.lastVote <= now
    ensures var current := CurrentPower(v, now);
            && IsQuotient(part, current * (if weight < 0 then -weight else weight), FULL_POWER)
            && (0 < reserve ==> RoundsUp(used, part, 5 * reserve))
            && IsQuotient(shares, v.vests * used, FULL_POWER)
            && UsePower(v, now, weight, reserve) ==
               if now - v.lastVote < MIN_INTERVAL then Err(TooSoon)
               else if current == 0 then Err(NoPower)
               else if reserve == 0 then Err(NoReserve)
               else if used > current then Err(NotEnough)
               else if weight != 0 && shares <= DUST then Err(TooSmall)
               else Ok((Voter(current - used, now, v.vests), if weight < 0 then 0 - shares else shares))
  {
    hide CurrentPower, IsQuotient, RoundsUp;
    var current := CurrentPower(v, now);
    var size: nat := if weight < 0 then -weight else weight;
    TimesRight(current, 0, size);
    part := current * size / FULL_POWER;
    QuotientIs(current * size, FULL_POWER);
    assert reserve * REGENERATION / DAY == 5 * reserve;
    used := if reserve == 0 then 0 else (part + 5 * reserve - 1) / (5 * reserve);
    if reserve > 0 { RoundUpIs(part, 5 * reserve); }
    if reserve > 0 { QuotientIs(part + 5 * reserve - 1, 5 * reserve); }
    TimesRight(v.vests, 0, used);
    shares := v.vests * used / FULL_POWER;
    QuotientIs(v.vests * used, FULL_POWER);
  }

  /** How the weight of a new vote is found: from the curve, or from the cube of its share for old comments. */
  datatype Rule = ByCurve | ByCube

  /** The full weight of a vote with positive `rshares`. */
  function FullWeight(w: nat -> nat, rule: Rule, voteRshares: nat, absRshares: nat, rshares: nat): (r: nat)
    requires 0 < rshares <= absRshares
    requires w(voteRshares) <= w(voteRshares + rshares)
  {
    match rule
    case ByCurve => w(voteRshares + rshares) - w(voteRshares)
    case ByCube => CubeShare(rshares, absRshares)
  }

  /** The cube of `n` over the square of `total`. */
  function CubeShare(n: nat, total: nat): (r: nat)
    requires 0 < total
  {
    var cube, square := n * n * n, total * total;
    Products(n, total);
    Quotient(cube, square)
  }

  lemma Products(n: nat, total: nat)
    requires 0 < total
    ensures 0 <= n * n * n && 0 < total * total
  {
  }

  function Quotient(n: nat, d: nat): (q: nat)
    requires 0 < d
  {
    n / d
  }

  /** The part of a weight that is left when the vote comes early in the reverse auction. */
  function Discounted(full: nat, elapsed: nat): (r: nat)
    ensures r <= full
  {
    var t := if elapsed < WINDOW then elapsed else WINDOW;
    PartOf(full, t, WINDOW);
    full * t / WINDOW
  }

  lemma DiscountOfNothing(elapsed: nat)
    ensures Discounted(0, elapsed) == 0
  {
  }

  lemma PartOf(n: nat, t: nat, d: nat)
    requires t <= d && 0 < d
    ensures 0 <= n * t / d <= n
  {
    QuotientBounds(n, t, d);
    ScaleDown(n, t, d, n * t / d);
  }

  /** The weight by which the total grows for a new vote, after `absRshares` has grown. */
  function Growth(w: nat -> nat, rule: Rule, allow: bool, voteRshares: nat, absRshares: nat, rshares: int): (full: nat)
    requires rshares <= absRshares && (0 < rshares ==> w(voteRshares) <= w(voteRshares + rshares))
  {
    if 0 < rshares && allow then FullWeight(w, rule, voteRshares, absRshares, rshares) else 0
  }

  /** In the reverse auction a weight counts by the elapsed share of the window, rounded down, and from its end on in full. */
  lemma {:induction false} DiscountMeans(full: nat, elapsed: nat)
    ensures elapsed < WINDOW ==> IsQuotient(Discounted(full, elapsed), full * elapsed, WINDOW)
    ensures elapsed >= WINDOW ==> Discounted(full, elapsed) == full
  {
    QuotientIs(full * elapsed, WINDOW);
    QuotientIs(full * WINDOW, WINDOW);
    QuotientWithin(full * WINDOW / WINDOW, full, WINDOW, WINDOW);
  }

  /** Waiting never lowers a weight. */
  lemma {:induction false} LaterCountsMore(full: nat, early: nat, late: nat)
    requires early <= late
    ensures Discounted(full, early) <= Discounted(full, late) <= full
  {
    hide Discounted;
    DiscountMeans(full, early);
    DiscountMeans(full, late);
    if late < WINDOW {
      TimesRight(full, early, late);
      TimesRight(full, 0, early);
      QuotientGrows(Discounted(full, early), full * early, WINDOW, Discounted(full, late), full * late, WINDOW);
    }
  }

  /** What a first vote adds to the total: nothing without positive votes or curation, else its step on the curve or its cubed share. */
  lemma {:induction false} GrowthMeans(w: nat -> nat, rule: Rule, allow: bool, voteRshares: nat, absRshares: nat, rshares: int)
    requires rshares <= absRshares && (0 < rshares ==> w(voteRshares) <= w(voteRshares + rshares))
    ensures var g := Growth(w, rule, allow, voteRshares, absRshares, rshares);
            && (rshares <= 0 || !allow ==> g == 0)
            && (rshares > 0 && allow && rule == ByCurve ==> w(voteRshares) + g == w(voteRshares + rshares))
            && (rshares > 0 && allow && rule == ByCube ==> IsQuotient(g, rshares * rshares * rshares, absRshares * absRshares))
  {
    hide CubeShare;
    if rshares > 0 && allow && rule == ByCube { CubeMeans(rshares, absRshares); }
  }

  lemma {:induction false} CubeMeans(n: nat, total: nat)
    requires 0 < total
    ensures IsQuotient(CubeShare(n, total), n * n * n, total * total)
  {
    Products(n, total);
    QuotientIs(n * n * n, total * total);
  }

  const LOCKOUT: nat := 60 * 60 * 12    // BMCHAIN_UPVOTE_LOCKOUT

  /** A vote as it arrives: who votes, with what standing, how many shares, and when. */
  datatype Ballot = Ballot(
    voter: nat, rshares: int, challenged: bool, canVote: bool, allowVotes: bool,
    now: nat, cashoutTime: nat, discount: bool, elapsed: nat)
  {
    /** Shortly before the payout no vote may raise it any more. */
    predicate MayRaise() { now + LOCKOUT < cashoutTime }
  }

  class Comment {
    const curve: nat -> nat
    const rule: Rule
    const allowCuration: bool           // allow_curation_rewards, and the fund pays curators at all
    var voteRshares: nat
    var absRshares: nat
    var netRshares: int
    var netVotes: int
    var totalWeight: nat                // total_vote_weight
    ghost var forgone: nat              // the weights that changed votes have given up
    var votes: seq<Vote>

    /**
     The votes' weights never exceed the total, on the curve the total never
     exceeds the curve, and the net counts are those of the votes.  On the curve the
     steps of all votes add up: the total and what was given up is how far the curve
     has risen.
     */
    ghost predicate Valid()
      reads this
    {
      && GoodCurve(curve)
      && Total(Weights(votes)) <= totalWeight
      && (rule == ByCurve ==> totalWeight <= curve(voteRshares))
      && (rule == ByCurve && allowCuration ==> curve(0) + totalWeight + forgone == curve(voteRshares))
      && (!allowCuration ==> totalWeight == 0)
      && netRshares == Total(RsharesOf(votes)) && netVotes == Total(Signs(votes))
      && (forall i, j :: 0 <= i < j < |votes| ==> votes[i].voter != votes[j].voter)
    }

    constructor (curve: nat -> nat, rule: Rule, allowCuration: bool)
      requires GoodCurve(curve)
      ensures Valid() && votes == [] && this.curve == curve && this.rule == rule && this.allowCuration == allowCuration
    {
      this.curve, this.rule, this.allowCuration := curve, rule, allowCuration;
      voteRshares, absRshares, totalWeight, votes := 0, 0, 0, [];
      netRshares, netVotes, forgone := 0, 0, 0;
    }

    method Find(voter: nat) returns (i: nat)
      ensures i <= |votes| && (i < |votes| ==> votes[i].voter == voter)
      ensures i == |votes| ==> forall j :: 0 <= j < |votes| ==> votes[j].voter != voter
    {
      i := 0;
      while i < |votes| && votes[i].voter != voter
        invariant i <= |votes| && forall j :: 0 <= j < i ==> votes[j].voter != voter
      {
        i := i + 1;
      }
    }

    /** The votes after a first vote, or after a change that takes the old weight away. */
    ghost predicate Counted(before: seq<Vote>, voter: nat, rshares: int, weight: nat)
      reads this
    {
      if forall j :: 0 <= j < |before| ==> before[j].voter != voter then votes == before + [Vote(voter, rshares, weight, 0)]
      else exists j :: 0 <= j < |before| && before[j].voter == voter && votes == before[j := Vote(voter, rshares, 0, before[j].changes + 1)]
    }

    /**
     When a vote is refused: a challenged or declined voter and a comment without
     votes, a first vote that counts nothing, too many changes, and shortly before
     the payout a vote that would raise it.
     */
    ghost predicate Refuses(b: Ballot)
      reads this
    {
      || b.challenged || !b.canVote || (b.rshares > 0 && !b.allowVotes)
      || (if forall j :: 0 <= j < |votes| ==> votes[j].voter != b.voter then b.rshares == 0 || (b.rshares > 0 && !b.MayRaise())
          else exists j :: 0 <= j < |votes| && votes[j].voter == b.voter
                 && (votes[j].changes >= MAX_VOTE_CHANGES || (votes[j].rshares < b.rshares && !b.MayRaise())))
    }

    /** `vote_evaluator` before the first payout: a first vote counts, a changed one loses its weight. */
    method Cast(b: Ballot) returns (ok: bool)
      requires Valid()
      modifies this
      ensures Valid()
      ensures !ok <==> old(Refuses(b))
      ensures !ok ==> unchanged(this)
      ensures ok ==> absRshares == old(absRshares) + if b.rshares < 0 then -b.rshares else b.rshares
      ensures ok ==> Counted(old(votes), b.voter, b.rshares,
                             var full := Growth(curve, rule, allowCuration, old(voteRshares), absRshares, b.rshares);
                             if b.discount then Discounted(full, b.elapsed) else full)
      ensures (forall j :: 0 <= j < |old(votes)| ==> old(votes)[j].voter != b.voter) ==>
        && totalWeight == (old(totalWeight) + if ok then Growth(curve, rule, allowCuration, old(voteRshares), absRshares, b.rshares) else 0)
        && voteRshares == (old(voteRshares) + if ok && b.rshares > 0 then b.rshares else 0)
      ensures ok ==> forall j :: 0 <= j < |old(votes)| && old(votes)[j].voter == b.voter ==>
        totalWeight == old(totalWeight) - old(votes)[j].weight && voteRshares == old(voteRshares)
    {
      hide Discounted, FullWeight, Growth, Total, Sign, Valid;
      if b.challenged || !b.canVote || (b.rshares > 0 && !b.allowVotes) { return false; }
      var size := if b.rshares < 0 then -b.rshares else b.rshares;
      var i := Find(b.voter);
      OneVoteEach(i);
      if i == |votes| {
        if b.rshares == 0 || (b.rshares > 0 && !b.MayRaise()) { return false; }
        NewVote(b.voter, b.rshares, size, b.discount, b.elapsed);
      } else {
        if votes[i].changes >= MAX_VOTE_CHANGES { return false; }
        if votes[i].rshares < b.rshares && !b.MayRaise() { return false; }
        ChangeVote(i, b.rshares, size);
      }
      ok := true;
    }

    lemma OneVoteEach(i: nat)
      requires Valid()
      ensures i < |votes| ==> forall j :: 0 <= j < |votes| && votes[j].voter == votes[i].voter ==> j == i
    {
    }

    /** The weight that is recorded for a vote and the weight by which the total grows. */
    method Weigh(rshares: nat, discount: bool, elapsed: nat) returns (weight: nat, full: nat)
      requires GoodCurve(curve) && 0 < rshares <= absRshares
      ensures full == FullWeight(curve, rule, voteRshares, absRshares, rshares)
      ensures weight == (if discount then Discounted(full, elapsed) else full) <= full
      ensures rule == ByCurve ==> full == curve(voteRshares + rshares) - curve(voteRshares)
    {
      full := FullWeight(curve, rule, voteRshares, absRshares, rshares);
      weight := if discount then Discounted(full, elapsed) else full;
    }

    method NewVote(voter: nat, rshares: int, size: nat, discount: bool, elapsed: nat)
      requires Valid() && rshares != 0 && size == (if rshares < 0 then -rshares else rshares)
      requires forall j :: 0 <= j < |votes| ==> votes[j].voter != voter
      modifies this
      ensures Valid() && absRshares == old(absRshares) + size
      ensures var full := Growth(curve, rule, allowCuration, old(voteRshares), absRshares, rshares);
              && totalWeight == old(totalWeight) + full
              && votes == old(votes) + [Vote(voter, rshares, if discount then Discounted(full, elapsed) else full, 0)]
      ensures voteRshares == old(voteRshares) + if rshares > 0 then rshares else 0
    {
      hide Total, FullWeight, Discounted;
      absRshares, netRshares := absRshares + size, netRshares + rshares;
      netVotes := if rshares > 0 then netVotes + 1 else netVotes - 1;
      var weight, full := 0, 0;
      if rshares > 0 {
        if allowCuration { weight, full := Weigh(rshares, discount, elapsed); }
        voteRshares := voteRshares + rshares;
      }
      DiscountOfNothing(elapsed);
      var vote := Vote(voter, rshares, weight, 0);
      AppendVote(votes, vote);
      votes := votes + [vote];
      totalWeight := totalWeight + full;
    }

    method ChangeVote(i: nat, rshares: int, size: nat)
      requires Valid() && i < |votes|
      modifies this`votes, this`totalWeight, this`netRshares, this`netVotes, this`absRshares, this`forgone
      ensures forgone == old(forgone) + old(votes)[i].weight
      ensures absRshares == old(absRshares) + size
      ensures Valid() && votes == old(votes)[i := old(votes)[i].(rshares := rshares, weight := 0, changes := old(votes)[i].changes + 1)]
      ensures totalWeight == old(totalWeight) - old(votes)[i].weight
    {
      ghost var before := Weights(votes);
      var vote := votes[i];
      OneWithinTotal(before, i);
      var changed := vote.(rshares := rshares, weight := 0, changes := vote.changes + 1);
      ReplaceVote(votes, i, changed);
      netRshares, absRshares := netRshares - vote.rshares + rshares, absRshares + size;
      netVotes := netVotes + NetChange(vote.rshares, rshares);
      totalWeight := totalWeight - vote.weight;
      forgone := forgone + vote.weight;
      votes := votes[i := changed];
    }

    /** At the first payout the votes of a comment are as a payout needs them. */
    lemma VotesArePayable(post: R.Post)
      requires Valid() && post.votes == SharesOf(votes) && post.totalWeight == totalWeight
      ensures R.VotesSane(post)
    {
      assert R.Weights(post.votes) == Weights(votes);
    }

    /** What the curators claim at the first payout is never more than the curation pot. */
    lemma ClaimsWithinPot(pot: nat)
      requires Valid() && totalWeight > 0
      ensures var aw := R.CuratorAwards(SharesOf(votes), pot, totalWeight);
              R.NoneNegative(aw) && 0 <= R.Sum(aw) <= pot
    {
      hide Total, R.CuratorAwards;
      var shares := SharesOf(votes);
      R.CuratorsWithinPot(shares, pot, totalWeight);
      assert R.Weights(shares) == Weights(votes);
      TotalNonnegative(Weights(votes));
      ScaleDown(pot, Total(Weights(votes)), totalWeight, R.Sum(R.CuratorAwards(shares, pot, totalWeight)));
    }
  }

  lemma {:induction false} AppendVote(votes: seq<Vote>, vote: Vote)
    ensures Total(Weights(votes + [vote])) == Total(Weights(votes)) + vote.weight
    ensures Total(RsharesOf(votes + [vote])) == Total(RsharesOf(votes)) + vote.rshares
    ensures Total(Signs(votes + [vote])) == Total(Signs(votes)) + Sign(vote.rshares)
  {
    hide Total, Sign;
    assert Weights(votes + [vote]) == Weights(votes) + [vote.weight];
    assert RsharesOf(votes + [vote]) == RsharesOf(votes) + [vote.rshares];
    assert Signs(votes + [vote]) == Signs(votes) + [Sign(vote.rshares)];
    TotalAppend(Weights(votes), vote.weight);
    TotalAppend(RsharesOf(votes), vote.rshares);
    TotalAppend(Signs(votes), Sign(vote.rshares));
  }

  /** The case table of `net_votes` is the difference of the signs. */
  lemma {:induction false} ReplaceVote(votes: seq<Vote>, i: nat, vote: Vote)
    requires i < |votes|
    ensures Total(Weights(votes[i := vote])) == Total(Weights(votes)) + vote.weight - votes[i].weight
    ensures Total(RsharesOf(votes[i := vote])) == Total(RsharesOf(votes)) + vote.rshares - votes[i].rshares
    ensures Total(Signs(votes[i := vote])) == Total(Signs(votes)) + NetChange(votes[i].rshares, vote.rshares)
  {
    hide Total;
    assert Weights(votes[i := vote]) == Weights(votes)[i := vote.weight];
    assert RsharesOf(votes[i := vote]) == RsharesOf(votes)[i := vote.rshares];
    assert Signs(votes[i := vote]) == Signs(votes)[i := Sign(vote.rshares)];
    TotalUpdate(Weights(votes), i, vote.weight);
    TotalUpdate(RsharesOf(votes), i, vote.rshares);
    TotalUpdate(Signs(votes), i, Sign(vote.rshares));
  }

  /** The votes as the payout reads them. */
  function SharesOf(votes: seq<Vote>): (r: seq<R.Share>)
    ensures |r| == |votes| && forall i :: 0 <= i < |r| ==> r[i] == R.Share(votes[i].voter, votes[i].weight)
  {
    seq(|votes|, i requires 0 <= i < |votes| => R.Share(votes[i].voter, votes[i].weight))
  }
}
