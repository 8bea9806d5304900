/**
 What the voting operations do, field by field: which proxies, rights, shares and
 records change.  The invariant then fixes every proxied count and tally.
 */
module VotingMeaning {
  import opened Wrappers
  import opened Widths
  import opened VirtualTime
  import opened VotingState
  import opened VotingInvariant
  import P = VotingPreservation

  /** The same account but for what is proxied to it. */
  ghost predicate SameButProxied(x: Account, y: Account) {
    y.vesting == x.vesting && y.proxy == x.proxy && y.canVote == x.canVote && y.votedFor == x.votedFor
  }

  /** The same witnesses but for their votes and times. */
  ghost predicate SameWitnesses(s: State, t: State) {
    |t.witnesses| == |s.witnesses| && forall i :: 0 <= i < |s.witnesses| ==> t.witnesses[i].hasKey == s.witnesses[i].hasKey
  }

  /** Every account but `a` is the same but for what is proxied to it, and so are totals and time. */
  ghost predicate OthersSame(s: State, t: State, a: nat) {
    && a < |s.accounts| == |t.accounts| && SameWitnesses(s, t) && t.now == s.now
    && forall x :: 0 <= x < |s.accounts| && x != a ==> SameButProxied(s.accounts[x], t.accounts[x])
  }

  /** Passing shares up and on to witnesses touches nothing but proxied counts and witnesses. */
  lemma {:induction false} AdjustFrame(s: State, a: nat, delta: seq<int>)
    requires Formed(s) && a < |s.accounts| && |delta| == MAX_PROXY_DEPTH + 1
    ensures AdjustProxied(s, a, delta).Some? ==>
              var t := AdjustProxied(s, a, delta).value;
              && OthersSame(s, t, a) && SameButProxied(s.accounts[a], t.accounts[a])
              && t.votes == s.votes && t.totalVesting == s.totalVesting && Formed(t)
  {
    hide PushUp, RootWithin, Prefix, MovedTo, DueAt;
    P.PushUpFrame(s.accounts, a, delta, 0);
  }

  /** Exactly the witnesses that `a` votes for move, each by `delta` and rescheduled by its new votes. */
  lemma {:induction false} VotersWitnessesMove(s: State, a: nat, delta: int)
    requires Formed(s) && s.now < U128
    requires forall i :: 0 <= i < |s.witnesses| ==> Timely(s.witnesses[i], s.now) && 0 <= s.witnesses[i].votes < U128
    requires forall i: nat :: i < |s.witnesses| && (a, i) in s.votes ==> 0 <= s.witnesses[i].votes + delta < MAX128
    ensures AdjustWitnessVotes(s, a, delta).Some? <==>
            forall i: nat :: i < |s.witnesses| && (a, i) in s.votes ==> s.witnesses[i].votes + delta <= s.totalVesting
    ensures AdjustWitnessVotes(s, a, delta).Some? ==>
              var t := AdjustWitnessVotes(s, a, delta).value;
              && t == s.(witnesses := t.witnesses) && |t.witnesses| == |s.witnesses|
              && forall i: nat :: i < |s.witnesses| ==>
                   if (a, i) in s.votes then VoteChanged(s.witnesses[i], t.witnesses[i], delta, s.now) else t.witnesses[i] == s.witnesses[i]
  {
    hide AdjustVote, VoteChanged;
    forall i: nat | i < |s.witnesses| && (a, i) in s.votes
      ensures AdjustVote(s.witnesses[i], delta, s.now, s.totalVesting).Some? <==> s.witnesses[i].votes + delta <= s.totalVesting
      ensures s.witnesses[i].votes + delta <= s.totalVesting ==>
                VoteChanged(s.witnesses[i], AdjustVote(s.witnesses[i], delta, s.now, s.totalVesting).value, delta, s.now)
    {
      AdjustVoteMeans(s.witnesses[i], delta, s.now, s.totalVesting);
    }
  }

  /**
   A proxy that is set or cleared: the account's proxy is the given one, and when
   one is set its vote records are gone.  Nothing else is chosen by the operation.
   */
  ghost predicate ProxyChanged(s: State, t: State, a: nat, proxy: Option<nat>) {
    && OthersSame(s, t, a) && t.totalVesting == s.totalVesting
    && t.accounts[a].proxy == proxy
    && t.accounts[a].vesting == s.accounts[a].vesting && t.accounts[a].canVote == s.accounts[a].canVote
    && t.accounts[a].votedFor == (if proxy.Some? then 0 else s.accounts[a].votedFor)
    && forall v :: v in t.votes <==> v in s.votes && (proxy.Some? ==> v.0 != a)
  }

  lemma {:induction false} SetProxyMeans(s: State, a: nat, proxy: Option<nat>)
    requires Formed(s) && SetProxy(s, a, proxy).Ok?
    ensures ProxyChanged(s, SetProxy(s, a, proxy).value, a, proxy)
  {
    hide AdjustProxied, CheckChain;
    var delta := OwnDelta(s.accounts[a]);
    AdjustFrame(s, a, Negated(delta));
    var removed := AdjustProxied(s, a, Negated(delta)).value;
    if proxy.Some? {
      AdjustFrame(WithProxy(ClearVotes(removed, a), a, proxy), a, delta);
    }
  }

  /** Voting rights declined: no right to vote, no proxy and no records are left. */
  ghost predicate RightsDeclined(s: State, t: State, a: nat) {
    && OthersSame(s, t, a) && t.totalVesting == s.totalVesting
    && !t.accounts[a].canVote && t.accounts[a].proxy.None? && t.accounts[a].votedFor == 0
    && t.accounts[a].vesting == s.accounts[a].vesting
    && forall v :: v in t.votes <==> v in s.votes && v.0 != a
  }

  lemma {:induction false} DeclineMeans(s: State, a: nat)
    requires Formed(s)
    ensures a >= |s.accounts| ==> Decline(s, a) == Err(UnknownAccount)
    ensures Decline(s, a).Ok? ==> RightsDeclined(s, Decline(s, a).value, a)
  {
    hide AdjustProxied;
    if Decline(s, a).Ok? { AdjustFrame(s, a, Negated(OwnDelta(s.accounts[a]))); }
  }

  /** A vote given or taken back: one record, one counter and one witness's votes change, by the voter's whole weight. */
  ghost predicate VoteRecorded(s: State, t: State, a: nat, w: nat, approve: bool) {
    && OthersSame(s, t, a) && t.totalVesting == s.totalVesting && w < |s.witnesses|
    && t.accounts == s.accounts[a := s.accounts[a].(votedFor := t.accounts[a].votedFor)]
    && (0 < s.accounts[a].votedFor || approve ==> t.accounts[a].votedFor == s.accounts[a].votedFor + if approve then 1 else -1)
    && (forall v :: v in t.votes <==> if v == (a, w) then approve else v in s.votes)
    && ((a, w) in s.votes <==> !approve)
    && (forall i :: 0 <= i < |s.witnesses| && i != w ==> t.witnesses[i] == s.witnesses[i])
    && t.witnesses[w].votes == s.witnesses[w].votes + if approve then Weight(s.accounts[a]) else -Weight(s.accounts[a])
  }

  lemma {:induction false} VoteMeans(s: State, a: nat, w: nat, approve: bool)
    requires Formed(s) && VoteWitness(s, a, w, approve).Ok?
    ensures VoteRecorded(s, VoteWitness(s, a, w, approve).value, a, w, approve)
  {
    hide MovedTo, DueAt, Weight;
  }

  /** When a vote is accepted, given the invariant: everything is asked for but room among the vesting shares, which there always is. */
  ghost predicate MayVote(s: State, a: nat, w: nat, approve: bool) {
    && a < |s.accounts| && w < |s.witnesses| && s.accounts[a].proxy.None?
    && (if approve then
          s.accounts[a].canVote && (a, w) !in s.votes && s.accounts[a].votedFor < MAX_ACCOUNT_WITNESS_VOTES
        else (a, w) in s.votes)
  }

  lemma {:induction false} VoteAcceptedIff(s: State, a: nat, w: nat, approve: bool)
    requires Formed(s) && VoteWitness(s, a, w, approve) != Err(VotesAboveTotal)
    ensures VoteWitness(s, a, w, approve).Ok? <==> MayVote(s, a, w, approve)
  {
    hide AdjustVote, Weight;
  }

  /** New shares: one account and the total grow by the amount, and nothing else is chosen by the operation. */
  ghost predicate SharesAdded(s: State, t: State, a: nat, amount: int) {
    && OthersSame(s, t, a) && t.totalVesting == s.totalVesting + amount && t.votes == s.votes
    && SameButProxied(s.accounts[a].(vesting := s.accounts[a].vesting + amount), t.accounts[a])
  }

  lemma {:induction false} AddVestingMeans(s: State, a: nat, amount: nat)
    requires Formed(s) && AddVesting(s, a, amount) != Err(VotesAboveTotal)
    ensures AddVesting(s, a, amount).Ok? <==> a < |s.accounts| && s.totalVesting + amount < SHARES
    ensures AddVesting(s, a, amount).Ok? ==> SharesAdded(s, AddVesting(s, a, amount).value, a, amount)
  {
    hide AdjustProxied;
    if a < |s.accounts| { AdjustFrame(Paid(s, a, amount), a, OwnOnly(amount)); }
  }

  /** Burnt shares change nothing but their owner and the total. */
  lemma BurnMeans(s: State, a: nat, amount: nat)
    requires a < |s.accounts|
    ensures SharesAdded(s, BurnVesting(s, a, amount), a, 0 - amount)
    ensures forall x :: 0 <= x < |s.accounts| ==> BurnVesting(s, a, amount).accounts[x].proxied == s.accounts[x].proxied
  {
  }

  /** New accounts may vote and hold nothing; new witnesses have no votes and are due at the end of time. */
  lemma NewObjectsMean(s: State, hasKey: bool)
    ensures var t := AddAccount(s);
            && |t.accounts| == |s.accounts| + 1 && t.accounts[..|s.accounts|] == s.accounts && t == s.(accounts := t.accounts)
            && var n := t.accounts[|s.accounts|];
               n.vesting == 0 && n.proxy.None? && n.canVote && n.votedFor == 0 && |n.proxied| == MAX_PROXY_DEPTH && forall k :: 0 <= k < |n.proxied| ==> n.proxied[k] == 0
    ensures var t := AddWitness(s, hasKey);
            && |t.witnesses| == |s.witnesses| + 1 && t.witnesses[..|s.witnesses|] == s.witnesses && t == s.(witnesses := t.witnesses)
            && var n := t.witnesses[|s.witnesses|];
               n.hasKey == hasKey && n.votes == 0 && n.lastUpdate == 0 && n.position == 0 && n.scheduled == MAX128
  {
  }
}
