/**
 The voting state machine: every step from a state with the invariant ends in a
 state with the invariant, hence so does every run.
 */
module VotingRuns {
  import opened Wrappers
  import opened Widths
  import opened WeightedSums
  import opened ProxyForest
  import opened VirtualTime
  import opened VotingState
  import opened VotingInvariant
  import opened VotingPreservation

  lemma InvFormed(s: State)
    requires Inv(s)
    ensures Formed(s)
  {
    forall i: nat | i < |s.witnesses| ensures s.witnesses[i].position < U128 {
      assert Timely(s.witnesses[i], s.now);
    }
  }

  /** Two states that differ only in the witnesses' tallies and times. */
  ghost predicate SameButWitnesses(s: State, t: State) {
    && t == s.(witnesses := t.witnesses)
    && |t.witnesses| == |s.witnesses|
  }

  /** `final` is what the witnesses' votes become when account `a` passes `delta` on to them. */
  ghost predicate Moved(s: State, a: nat, delta: int, final: seq<int>) {
    && |final| == |s.witnesses|
    && forall i: nat :: i < |final| ==>
         && 0 <= final[i] <= s.totalVesting
         && final[i] == s.witnesses[i].votes + if (a, i) in s.votes then delta else 0
  }

  ghost predicate AllTimely(s: State) {
    s.now < U128 && s.totalVesting < SHARES
    && forall i: nat :: i < |s.witnesses| ==> Timely(s.witnesses[i], s.now)
  }

  lemma AdjustEffect(s: State, a: nat, delta: int, final: seq<int>)
    requires Formed(s) && AllTimely(s) && Moved(s, a, delta, final)
    ensures var r := AdjustWitnessVotes(s, a, delta);
            && r.Some? && SameButWitnesses(s, r.value) && AllTimely(r.value)
            && forall i: nat :: i < |final| ==> r.value.witnesses[i].votes == final[i]
  {
    forall i: nat | i < |s.witnesses| && (a, i) in s.votes
      ensures AdjustVote(s.witnesses[i], delta, s.now, s.totalVesting).Some?
      ensures Timely(AdjustVote(s.witnesses[i], delta, s.now, s.totalVesting).value, s.now)
      ensures AdjustVote(s.witnesses[i], delta, s.now, s.totalVesting).value.votes == final[i]
    {
      assert 0 <= final[i] <= s.totalVesting;
      AdjustVoteKeepsTimely(s.witnesses[i], delta, s.now, s.totalVesting);
    }
  }

  /** The delta that arrives at the root of `a`. */
  ghost function RootDelta(r: Reached, delta: seq<int>): (d: int)
    requires |delta| == MAX_PROXY_DEPTH + 1 && (r.Voting? ==> r.depth <= MAX_PROXY_DEPTH)
  {
    if r.Voting? then Prefix(delta, MAX_PROXY_DEPTH + 1 - r.depth) else 0
  }

  ghost predicate MovedAtRoot(s: State, r: Reached, delta: int, final: seq<int>) {
    && |final| == |s.witnesses|
    && forall i: nat :: i < |final| ==>
         && 0 <= final[i] <= s.totalVesting
         && final[i] == s.witnesses[i].votes + if r.Voting? && (r.root, i) in s.votes then delta else 0
  }

  lemma {:induction false} PassOnEffect(s: State, r: Reached, delta: seq<int>, final: seq<int>)
    requires Formed(s) && AllTimely(s) && |delta| == MAX_PROXY_DEPTH + 1 && (r.Voting? ==> r.depth <= MAX_PROXY_DEPTH)
    requires MovedAtRoot(s, r, RootDelta(r, delta), final)
    ensures var t := PassOn(s, r, delta);
            && t.Some? && AllTimely(t.value) && SameButWitnesses(s, t.value)
            && forall i: nat :: i < |final| ==> t.value.witnesses[i].votes == final[i]
  {
    hide AdjustVote, AdjustWitnessVotes, Prefix, Timely, Shaped;
    if r.Voting? {
      AdjustEffect(s, r.root, RootDelta(r, delta), final);
    }
  }

  lemma {:induction false} AdjustProxiedEffect(s: State, a: nat, delta: seq<int>, final: seq<int>)
    requires Formed(s) && AllTimely(s) && a < |s.accounts| && |delta| == MAX_PROXY_DEPTH + 1
    requires var r := RootWithin(s.accounts, a, 0); MovedAtRoot(s, r, RootDelta(r, delta), final)
    ensures var r := AdjustProxied(s, a, delta);
            && r.Some? && AllTimely(r.value)
            && SameButWitnesses(s.(accounts := PushUp(s.accounts, a, delta, 0)), r.value)
            && forall i: nat :: i < |final| ==> r.value.witnesses[i].votes == final[i]
  {
    hide AdjustVote, PushUp, RootWithin, AdjustWitnessVotes;
    PassOnEffect(s.(accounts := PushUp(s.accounts, a, delta, 0)), RootWithin(s.accounts, a, 0), delta, final);
  }

  ghost function Tallies(accounts: seq<Account>, votes: set<(nat, nat)>, n: nat): (t: seq<int>)
    ensures |t| == n
    ensures forall i: nat :: i < n ==> t[i] == SumOver(Weights(accounts), Voters(votes, i))
  {
    seq(n, i requires 0 <= i < n => SumOver(Weights(accounts), Voters(votes, i)))
  }

  /** The tallies of correct accounts stay between zero and all vesting shares. */
  lemma TalliesWithinTotal(accounts: seq<Account>, votes: set<(nat, nat)>, i: nat)
    requires AccountsOk(accounts)
    requires forall v :: v in votes ==> v.0 < |accounts| && accounts[v.0].proxy.None?
    ensures 0 <= SumOver(Weights(accounts), Voters(votes, i)) <= SumOver(Vests(accounts), Indices(Vests(accounts)))
  {
    VotersWithinTotal(accounts, Voters(votes, i));
  }

  /** The invariant from its parts, for accounts whose proxies and vote counters are those of `before`. */
  lemma {:induction false} InvFromParts(before: seq<Account>, t: State)
    requires AccountsOk(t.accounts) && |before| == |t.accounts| && RecordsOk(before, |t.witnesses|, t.votes)
    requires forall x :: 0 <= x < |before| ==> t.accounts[x].votedFor == before[x].votedFor
    requires forall v :: v in t.votes ==> v.0 < |t.accounts| && t.accounts[v.0].proxy.None?
    requires AllTimely(t) && t.totalVesting == SumOver(Vests(t.accounts), Indices(Vests(t.accounts)))
    requires forall i: nat :: i < |t.witnesses| ==> t.witnesses[i].votes == SumOver(Weights(t.accounts), Voters(t.votes, i))
    ensures Inv(t)
  {
  }

  // ------------------------------------------------------- detaching an account

  /** Everything of `a` withdrawn from proxies and witnesses, and `a` left alone. */
  function Detached(removed: State, a: nat): (r: State)
    requires a < |removed.accounts|
  {
    WithProxy(ClearVotes(removed, a), a, None)
  }

  lemma VotersWithout(votes: set<(nat, nat)>, a: nat, i: nat)
    ensures Voters(WithoutVoter(votes, a), i) == Voters(votes, i) - {a}
  {
    var kept := WithoutVoter(votes, a);
    forall x ensures x in Voters(kept, i) <==> x in Voters(votes, i) - {a} {
      if x in Voters(votes, i) - {a} {
        var v :| v in votes && v.1 == i && v.0 == x;
        assert v in kept;
      }
    }
  }

  lemma SumWithout(w: seq<int>, s: set<nat>, a: nat)
    requires a < |w|
    ensures SumOver(w, s - {a}) == SumOver(w, s) - if a in s then w[a] else 0
  {
    SumUpdate(w, a, 0, s);
    SumAgrees(w, w[a := 0], s - {a}, s);
  }

  lemma MemberOfVoters(votes: set<(nat, nat)>, a: nat, i: nat)
    ensures a in Voters(votes, i) <==> (a, i) in votes
  {
    if (a, i) in votes {
      var v := (a, i);
      assert v in votes && v.1 == i && v.0 == a;
    }
  }

  lemma DetachKeepsInv(s: State, a: nat)
    requires Inv(s) && Formed(s) && a < |s.accounts|
    ensures var removed := AdjustProxied(s, a, Negated(OwnDelta(s.accounts[a])));
            && removed.Some? && |removed.value.accounts| == |s.accounts|
            && removed.value.accounts[a] == s.accounts[a]
            && Proxies(removed.value.accounts) == Proxies(s.accounts)
            && Shaped(removed.value.accounts)
            && removed.value.votes == s.votes
            && Inv(Detached(removed.value, a))
  {
    hide AdjustVote, PushUp, RootWithin, Ancestor, SumOver;
    var delta := Negated(OwnDelta(s.accounts[a]));
    var pushed := PushUp(s.accounts, a, delta, 0);
    var kept := WithoutVoter(s.votes, a);
    DetachAccounts(s.accounts, a);
    PushUpFrame(s.accounts, a, delta, 0);
    var loose := pushed[a := pushed[a].(proxy := None)];
    assert Vests(loose) == Vests(s.accounts);
    var final := Tallies(loose, kept, |s.witnesses|);
    var r := RootWithin(s.accounts, a, 0);
    forall i: nat | i < |final|
      ensures 0 <= final[i] <= s.totalVesting
      ensures final[i] == s.witnesses[i].votes + if r.Voting? && (r.root, i) in s.votes then RootDelta(r, delta) else 0
    {
      TalliesWithinTotal(loose, kept, i);
      DetachedTally(s, a, i);
    }
    assert MovedAtRoot(s, r, RootDelta(r, delta), final);
    AdjustProxiedEffect(s, a, delta, final);
    DetachedInv(s, a, AdjustProxied(s, a, delta).value, loose, kept);
  }

  lemma DetachedInv(s: State, a: nat, removed: State, loose: seq<Account>, kept: set<(nat, nat)>)
    requires Inv(s) && a < |s.accounts| == |removed.accounts| && Shaped(removed.accounts)
    requires kept == WithoutVoter(s.votes, a)
    requires loose == removed.accounts[a := removed.accounts[a].(proxy := None)] && AccountsOk(loose)
    requires Vests(loose) == Vests(s.accounts) && removed.votes == s.votes
    requires removed.now == s.now && removed.totalVesting == s.totalVesting && AllTimely(removed)
    requires |removed.witnesses| == |s.witnesses|
    requires forall x :: 0 <= x < |s.accounts| ==> removed.accounts[x] == s.accounts[x].(proxied := removed.accounts[x].proxied)
    requires forall i: nat :: i < |s.witnesses| ==> removed.witnesses[i].votes == SumOver(Weights(loose), Voters(kept, i))
    ensures Inv(Detached(removed, a))
  {
    var t := Detached(removed, a);
    AccountsOkAgree(loose, t.accounts);
    CountersAfterClear(s, a, t.accounts, kept);
  }

  lemma {:induction false} CountersAfterClear(s: State, a: nat, accounts: seq<Account>, kept: set<(nat, nat)>)
    requires RecordsOk(s.accounts, |s.witnesses|, s.votes) && a < |s.accounts| == |accounts|
    requires kept == WithoutVoter(s.votes, a)
    requires forall x :: 0 <= x < |accounts| && x != a ==>
      accounts[x].votedFor == s.accounts[x].votedFor && accounts[x].proxy == s.accounts[x].proxy
    requires accounts[a].votedFor == 0
    ensures RecordsOk(accounts, |s.witnesses|, kept)
  {
    assert VotesBy(kept, a) == {};
    forall x: nat | x < |accounts| && x != a ensures VotesBy(kept, x) == VotesBy(s.votes, x) {}
  }

  /** The tally of one witness after `a` has been withdrawn. */
  lemma DetachedTally(s: State, a: nat, i: nat)
    requires Inv(s) && Formed(s) && a < |s.accounts| && i < |s.witnesses|
    ensures var delta := Negated(OwnDelta(s.accounts[a]));
            var pushed := PushUp(s.accounts, a, delta, 0);
            var loose := pushed[a := pushed[a].(proxy := None)];
            var r := RootWithin(s.accounts, a, 0);
            SumOver(Weights(loose), Voters(WithoutVoter(s.votes, a), i)) ==
            s.witnesses[i].votes + if r.Voting? && (r.root, i) in s.votes then RootDelta(r, delta) else 0
  {
    var own := OwnDelta(s.accounts[a]);
    var delta := Negated(own);
    var pushed := PushUp(s.accounts, a, delta, 0);
    var loose := pushed[a := pushed[a].(proxy := None)];
    var voters := Voters(s.votes, i);
    var r := RootWithin(s.accounts, a, 0);
    assert Weights(loose) == Weights(pushed);
    VotersWithout(s.votes, a, i);
    SumWithout(Weights(pushed), voters, a);
    MemberOfVoters(s.votes, a, i);
    TallyAfterPush(s.accounts, a, delta, voters);
    if s.accounts[a].proxy.None? {
      PrefixNegated(own, MAX_PROXY_DEPTH + 1);
      PrefixOwn(s.accounts[a], MAX_PROXY_DEPTH);
      assert r == Voting(a, 0);
    } else if r.Voting? {
      MemberOfVoters(s.votes, r.root, i);
    }
  }

  // ------------------------------------------------------- attaching an account

  lemma PrefixOwnOnly(amount: int, n: nat)
    requires 0 < n <= MAX_PROXY_DEPTH + 1
    ensures Prefix(OwnOnly(amount), n) == amount
  {
    if n > 1 {
      PrefixOwnOnly(amount, n - 1);
    } else {
      assert Prefix(OwnOnly(amount), 0) == 0;
    }
  }

  /** Walking from a proxied account changes each tally by what arrives at the root. */
  lemma ProxiedTally(accounts: seq<Account>, votes: set<(nat, nat)>, a: nat, delta: seq<int>, i: nat)
    requires Shaped(accounts) && a < |accounts| && |delta| == MAX_PROXY_DEPTH + 1
    requires Acyclic(Proxies(accounts)) && accounts[a].proxy.Some?
    requires forall v :: v in votes ==> v.0 < |accounts| && accounts[v.0].proxy.None?
    ensures var r := RootWithin(accounts, a, 0);
            SumOver(Weights(PushUp(accounts, a, delta, 0)), Voters(votes, i)) ==
            SumOver(Weights(accounts), Voters(votes, i))
            + if r.Voting? && (r.root, i) in votes then RootDelta(r, delta) else 0
  {
    var r := RootWithin(accounts, a, 0);
    TallyAfterPush(accounts, a, delta, Voters(votes, i));
    RootFound(accounts, a, 0);
    if r.Voting? {
      MemberOfVoters(votes, r.root, i);
    }
  }

  lemma AttachKeepsInv(t: State, a: nat, p: nat)
    requires Inv(t) && Formed(t) && a < |t.accounts| && p < |t.accounts| && t.accounts[a].proxy.None?
    requires forall v :: v in t.votes ==> v.0 != a
    requires NotAbove(Proxies(t.accounts), p, a)
    ensures var linked := WithProxy(t, a, Some(p));
            && Formed(linked)
            && AdjustProxied(linked, a, OwnDelta(t.accounts[a])).Some?
            && Inv(AdjustProxied(linked, a, OwnDelta(t.accounts[a])).value)
  {
    hide AdjustVote, PushUp, RootWithin, Ancestor, SumOver;
    var own := OwnDelta(t.accounts[a]);
    var linked := WithProxy(t, a, Some(p));
    AttachAccounts(t.accounts, a, p);
    assert linked.accounts == t.accounts[a := t.accounts[a].(proxy := Some(p))];
    assert Weights(linked.accounts) == Weights(t.accounts);
    assert Vests(linked.accounts) == Vests(t.accounts);
    var pushed := PushUp(linked.accounts, a, own, 0);
    PushUpFrame(linked.accounts, a, own, 0);
    var final := Tallies(pushed, t.votes, |t.witnesses|);
    var r := RootWithin(linked.accounts, a, 0);
    forall i: nat | i < |final|
      ensures 0 <= final[i] <= t.totalVesting
      ensures final[i] == t.witnesses[i].votes + if r.Voting? && (r.root, i) in t.votes then RootDelta(r, own) else 0
    {
      TalliesWithinTotal(pushed, t.votes, i);
      ProxiedTally(linked.accounts, t.votes, a, own, i);
    }
    assert MovedAtRoot(linked, r, RootDelta(r, own), final);
    AdjustProxiedEffect(linked, a, own, final);
    InvFromParts(t.accounts, AdjustProxied(linked, a, own).value);
  }

  // ------------------------------------------------------- the loop check

  lemma {:induction false} RootEndsChain(par: Parents, x: nat, k: nat)
    requires InRange(par) && x < |par| && par[x].None? && 0 < k
    ensures Ancestor(par, x, k).None?
  {
  }

  /** `a` is neither `x` nor anywhere on its proxy chain. */
  ghost predicate NotAbove(par: Parents, x: nat, a: nat)
    requires InRange(par) && x < |par|
  {
    forall j: nat :: Ancestor(par, x, j) != Some(a)
  }

  /** No account above `x` lies in `chain`. */
  ghost predicate AvoidsAbove(par: Parents, x: nat, chain: set<nat>)
    requires InRange(par) && x < |par|
  {
    forall j: nat, y: nat :: 0 < j && Ancestor(par, x, j) == Some(y) ==> y !in chain
  }

  /**
   What `CheckChain` decides: with room for `room` more accounts it accepts
   exactly when the chain above `current` ends within them and meets nothing
   that was met before.
   */
  lemma {:induction false} CheckChainMeaning(accounts: seq<Account>, current: nat, chain: set<nat>, room: nat)
    requires Shaped(accounts) && Acyclic(Proxies(accounts)) && current < |accounts|
    requires current in chain && |chain| + room == MAX_PROXY_DEPTH
    ensures CheckChain(accounts, current, chain).None? <==>
            Ancestor(Proxies(accounts), current, room + 1).None? && AvoidsAbove(Proxies(accounts), current, chain)
    decreases room
  {
    var par := Proxies(accounts);
    if accounts[current].proxy.None? {
      forall j: nat | 0 < j ensures Ancestor(par, current, j).None? { RootEndsChain(par, current, j); }
    } else {
      var next := accounts[current].proxy.value;
      assert Ancestor(par, current, 1) == Ancestor(par, next, 0) == Some(next);
      assert Ancestor(par, current, room + 1) == Ancestor(par, next, room);
      if next in chain {
        assert !AvoidsAbove(par, current, chain);
      } else if room == 0 {
        assert |chain + {next}| == MAX_PROXY_DEPTH + 1;
      } else {
        assert |chain + {next}| == |chain| + 1;
        CheckChainMeaning(accounts, next, chain + {next}, room - 1);
        CheckChainStep(par, current, next, chain);
      }
    }
  }

  lemma CheckChainStep(par: Parents, current: nat, next: nat, chain: set<nat>)
    requires InRange(par) && Acyclic(par) && current < |par| && par[current] == Some(next) && next !in chain
    ensures AvoidsAbove(par, current, chain) <==> AvoidsAbove(par, next, chain + {next})
  {
    if AvoidsAbove(par, next, chain + {next}) {
      forall j: nat, y: nat | 0 < j && Ancestor(par, current, j) == Some(y) ensures y !in chain {
        assert Ancestor(par, current, j) == Ancestor(par, next, j - 1);
      }
    }
    if AvoidsAbove(par, current, chain) {
      forall j: nat, y: nat | 0 < j && Ancestor(par, next, j) == Some(y) ensures y !in chain + {next} {
        assert Ancestor(par, current, j + 1) == Some(y);
      }
    }
  }

  /** A proxy is accepted exactly when at most two proxies are above it and `a` is none of them. */
  lemma {:induction false} ProxyAccepted(accounts: seq<Account>, a: nat, p: nat)
    requires Shaped(accounts) && Acyclic(Proxies(accounts)) && a < |accounts| && p < |accounts| && a != p
    ensures CheckChain(accounts, p, {a, p}).None? <==>
            Ancestor(Proxies(accounts), p, 3).None? && NotAbove(Proxies(accounts), p, a)
  {
    assert |{a, p}| == 2;
    CheckChainMeaning(accounts, p, {a, p}, 2);
    var par := Proxies(accounts);
    if NotAbove(par, p, a) {
      forall j: nat, y: nat | 0 < j && Ancestor(par, p, j) == Some(y) ensures y !in {a, p} {}
    } else {
      var j: nat :| Ancestor(par, p, j) == Some(a);
      assert 0 < j;
    }
  }

  // ------------------------------------------------------- the operations

  lemma ForgetRights(s: State, a: nat)
    requires Inv(s) && a < |s.accounts|
    ensures Inv(s.(accounts := s.accounts[a := s.accounts[a].(canVote := false)]))
  {
    var t := s.(accounts := s.accounts[a := s.accounts[a].(canVote := false)]);
    AccountsOkAgree(s.accounts, t.accounts);
  }

  lemma DeclineKeepsInv(s: State, a: nat)
    requires Inv(s) && Formed(s)
    ensures Decline(s, a) != Err(VotesAboveTotal)
    ensures Decline(s, a).Ok? ==> Inv(Decline(s, a).value)
  {
    hide AdjustVote, AdjustProxied, Inv;
    if a < |s.accounts| {
      DetachKeepsInv(s, a);
      var removed := AdjustProxied(s, a, Negated(OwnDelta(s.accounts[a]))).value;
      ForgetRights(Detached(removed, a), a);
      assert Decline(s, a).value.accounts ==
             Detached(removed, a).accounts[a := Detached(removed, a).accounts[a].(canVote := false)];
    }
  }

  /** Without records of `a` there is nothing to clear. */
  lemma NothingToClear(s: State, removed: State, a: nat)
    requires Inv(s) && a < |s.accounts| && s.accounts[a].proxy.Some?
    requires a < |removed.accounts| && removed.accounts[a] == s.accounts[a] && removed.votes == s.votes
    ensures ClearVotes(removed, a) == removed
  {
    assert VotesBy(s.votes, a) == {};
    assert WithoutVoter(s.votes, a) == s.votes;
  }

  /** Linking `a` to `p` after it has been withdrawn from everything. */
  lemma {:induction false} LinkWithdrawn(s: State, a: nat, p: nat, removed: State)
    requires Inv(s) && a < |s.accounts| && p < |s.accounts| == |removed.accounts|
    requires removed.accounts[a] == s.accounts[a] && removed.votes == s.votes && Shaped(removed.accounts)
    requires Proxies(removed.accounts) == Proxies(s.accounts)
    requires Inv(Detached(removed, a)) && NotAbove(Proxies(s.accounts), p, a)
    ensures var moved := WithProxy(ClearVotes(removed, a), a, Some(p));
            && Formed(moved)
            && AdjustProxied(moved, a, OwnDelta(s.accounts[a])).Some?
            && Inv(AdjustProxied(moved, a, OwnDelta(s.accounts[a])).value)
  {
    hide AdjustVote, PushUp, RootWithin, AdjustWitnessVotes, SumOver;
    var loose := Detached(removed, a);
    StillAvoids(Proxies(s.accounts), a, p);
    assert Proxies(loose.accounts) == Proxies(s.accounts)[a := None];
    InvFormed(loose);
    AttachKeepsInv(loose, a, p);
    assert WithProxy(loose, a, Some(p)) == WithProxy(ClearVotes(removed, a), a, Some(p));
    assert OwnDelta(loose.accounts[a]) == OwnDelta(s.accounts[a]);
  }

  /** Moving `a` from its old proxy, if any, to `p`. */
  lemma {:induction false} MoveToProxy(s: State, a: nat, p: nat, removed: State)
    requires Inv(s) && Formed(s) && a < |s.accounts| && p < |s.accounts| && a != p
    requires AdjustProxied(s, a, Negated(OwnDelta(s.accounts[a]))) == Some(removed)
    ensures |removed.accounts| == |s.accounts| && Shaped(removed.accounts)
    ensures CheckChain(removed.accounts, p, {a, p}).None? <==>
            Ancestor(Proxies(s.accounts), p, 3).None? && NotAbove(Proxies(s.accounts), p, a)
    ensures CheckChain(removed.accounts, p, {a, p}).None? ==>
            var moved := WithProxy(ClearVotes(removed, a), a, Some(p));
            && Formed(moved)
            && AdjustProxied(moved, a, OwnDelta(s.accounts[a])).Some?
            && Inv(AdjustProxied(moved, a, OwnDelta(s.accounts[a])).value)
  {
    hide AdjustVote, PushUp, RootWithin, AdjustWitnessVotes, SumOver, AdjustProxied;
    DetachKeepsInv(s, a);
    ProxyAccepted(removed.accounts, a, p);
    if CheckChain(removed.accounts, p, {a, p}).None? {
      LinkWithdrawn(s, a, p, removed);
    }
  }

  lemma {:induction false} LeaveProxy(s: State, a: nat, removed: State)
    requires Inv(s) && Formed(s) && a < |s.accounts| && s.accounts[a].proxy.Some?
    requires AdjustProxied(s, a, Negated(OwnDelta(s.accounts[a]))) == Some(removed)
    ensures |removed.accounts| == |s.accounts| && Inv(WithProxy(removed, a, None))
  {
    hide AdjustVote, PushUp, RootWithin, AdjustWitnessVotes, SumOver, AdjustProxied;
    DetachKeepsInv(s, a);
    NothingToClear(s, removed, a);
  }

  /** Setting or clearing a proxy succeeds exactly under these conditions and keeps the invariant. */
  lemma {:induction false} SetProxyKeepsInv(s: State, a: nat, proxy: Option<nat>)
    requires Inv(s) && Formed(s)
    ensures SetProxy(s, a, proxy) != Err(VotesAboveTotal)
    ensures SetProxy(s, a, proxy).Ok? ==> Inv(SetProxy(s, a, proxy).value)
    ensures SetProxy(s, a, proxy).Ok? <==>
            && a < |s.accounts| && s.accounts[a].canVote && s.accounts[a].proxy != proxy && proxy != Some(a)
            && (proxy.Some? ==>
                  && proxy.value < |s.accounts|
                  && Ancestor(Proxies(s.accounts), proxy.value, 3).None?
                  && NotAbove(Proxies(s.accounts), proxy.value, a))
  {
    hide AdjustVote, AdjustProxied, Inv, CheckChain;
    if proxy != Some(a) && a < |s.accounts| && s.accounts[a].proxy != proxy && s.accounts[a].canVote {
      assert AdjustProxied(s, a, Negated(OwnDelta(s.accounts[a]))).Some? by { DetachKeepsInv(s, a); }
      var removed := AdjustProxied(s, a, Negated(OwnDelta(s.accounts[a]))).value;
      if proxy.None? {
        LeaveProxy(s, a, removed);
      } else if proxy.value < |s.accounts| {
        MoveToProxy(s, a, proxy.value, removed);
      }
    }
  }

  lemma StillAvoids(par: Parents, a: nat, p: nat)
    requires InRange(par) && a < |par| && p < |par|
    requires NotAbove(par, p, a)
    ensures InRange(par[a := None]) && NotAbove(par[a := None], p, a)
  {
    var cut := par[a := None];
    assert InRange(cut);
    forall j: nat ensures Ancestor(cut, p, j) != Some(a) { CutAncestor(par, a, p, j); }
  }

  lemma {:induction false} GrownTally(s: State, a: nat, amount: nat, i: nat)
    requires Inv(s) && Formed(s) && a < |s.accounts| && i < |s.witnesses|
    ensures var grown := s.accounts[a := s.accounts[a].(vesting := s.accounts[a].vesting + amount)];
            var r := RootWithin(grown, a, 0);
            SumOver(Weights(PushUp(grown, a, OwnOnly(amount), 0)), Voters(s.votes, i)) ==
            s.witnesses[i].votes + if r.Voting? && (r.root, i) in s.votes then RootDelta(r, OwnOnly(amount)) else 0
  {
    hide SumOver, Ancestor, Prefix;
    var grown := s.accounts[a := s.accounts[a].(vesting := s.accounts[a].vesting + amount)];
    var voters := Voters(s.votes, i);
    var r := RootWithin(grown, a, 0);
    assert Weights(grown) == Weights(s.accounts)[a := Weight(s.accounts[a]) + amount];
    SumUpdate(Weights(s.accounts), a, Weight(s.accounts[a]) + amount, voters);
    MemberOfVoters(s.votes, a, i);
    if s.accounts[a].proxy.None? {
      PrefixOwnOnly(amount, MAX_PROXY_DEPTH + 1);
      assert r == Voting(a, 0);
    } else {
      assert Proxies(grown) == Proxies(s.accounts);
      ProxiedTally(grown, s.votes, a, OwnOnly(amount), i);
    }
  }

  /** Paying `amount` to `a` and passing it on. */
  lemma {:induction false} PayAndPass(s: State, a: nat, amount: nat, paid: State)
    requires Inv(s) && Formed(s) && a < |s.accounts| && s.totalVesting + amount < SHARES
    requires paid == Paid(s, a, amount)
    ensures Formed(paid) && AdjustProxied(paid, a, OwnOnly(amount)).Some?
    ensures Inv(AdjustProxied(paid, a, OwnOnly(amount)).value)
  {
    hide AdjustVote, PushUp, RootWithin, Ancestor, SumOver;
    var delta := OwnOnly(amount);
    GrowAccounts(s.accounts, a, amount);
    PushUpFrame(paid.accounts, a, delta, 0);
    var pushed := PushUp(paid.accounts, a, delta, 0);
    assert Vests(paid.accounts) == Vests(s.accounts)[a := s.accounts[a].vesting + amount];
    assert Indices(Vests(paid.accounts)) == Indices(Vests(s.accounts));
    SumUpdate(Vests(s.accounts), a, s.accounts[a].vesting + amount, Indices(Vests(s.accounts)));
    var final := Tallies(pushed, s.votes, |s.witnesses|);
    var r := RootWithin(paid.accounts, a, 0);
    forall i: nat | i < |final|
      ensures 0 <= final[i] <= paid.totalVesting
      ensures final[i] == s.witnesses[i].votes + if r.Voting? && (r.root, i) in s.votes then RootDelta(r, delta) else 0
    {
      TalliesWithinTotal(pushed, s.votes, i);
      GrownTally(s, a, amount, i);
    }
    assert MovedAtRoot(paid, r, RootDelta(r, delta), final);
    AdjustProxiedEffect(paid, a, delta, final);
    InvFromParts(s.accounts, AdjustProxied(paid, a, delta).value);
  }

  lemma {:induction false} AddVestingKeepsInv(s: State, a: nat, amount: nat)
    requires Inv(s) && Formed(s)
    ensures AddVesting(s, a, amount) != Err(VotesAboveTotal)
    ensures AddVesting(s, a, amount).Ok? ==> Inv(AddVesting(s, a, amount).value)
  {
    hide AdjustVote, AdjustProxied, Inv;
    if a < |s.accounts| && s.totalVesting + amount < SHARES {
      PayAndPass(s, a, amount, Paid(s, a, amount));
    }
  }

  // ------------------------------------------------------- voting for a witness

  lemma {:induction false} OneMoreVoter(votes: set<(nat, nat)>, a: nat, w: nat, i: nat)
    ensures Voters(votes + {(a, w)}, i) == Voters(votes, i) + if i == w then {a} else {}
  {
    forall x ensures x in Voters(votes + {(a, w)}, i) <==> x in Voters(votes, i) + if i == w then {a} else {} {
      MemberOfVoters(votes + {(a, w)}, x, i);
      MemberOfVoters(votes, x, i);
    }
  }

  lemma {:induction false} OneFewerVoter(votes: set<(nat, nat)>, a: nat, w: nat, i: nat)
    ensures Voters(votes - {(a, w)}, i) == Voters(votes, i) - if i == w then {a} else {}
  {
    forall x ensures x in Voters(votes - {(a, w)}, i) <==> x in Voters(votes, i) - if i == w then {a} else {} {
      MemberOfVoters(votes - {(a, w)}, x, i);
      MemberOfVoters(votes, x, i);
    }
  }

  /** A state with new votes and one new witness entry has the invariant when the tallies and counters fit. */
  lemma {:induction false} RecountedInv(s: State, t: State, a: nat, w: nat, n: nat)
    requires Inv(s) && a < |s.accounts| && n == |VotesBy(t.votes, a)| <= MAX_ACCOUNT_WITNESS_VOTES
    requires |t.witnesses| == |s.witnesses|
    requires s.accounts[a].proxy.None?
    requires w < |s.witnesses| && t == Recorded(s, a, w, t.witnesses[w], t.votes, n)
    requires forall v :: v in t.votes ==> v in s.votes || (v.0 == a && v.1 < |s.witnesses|)
    requires forall v :: v in s.votes && v.0 != a ==> v in t.votes
    requires forall i: nat :: i < |t.witnesses| ==>
      Timely(t.witnesses[i], t.now) && t.witnesses[i].votes == SumOver(Weights(s.accounts), Voters(t.votes, i))
    ensures Inv(t)
  {
    AccountsOkAgree(s.accounts, t.accounts);
    forall x: nat | x < |t.accounts| && x != a ensures VotesBy(t.votes, x) == VotesBy(s.votes, x) {}
  }

  lemma {:induction false} VoteWitnessKeepsInv(s: State, a: nat, w: nat, approve: bool)
    requires Inv(s) && Formed(s)
    ensures VoteWitness(s, a, w, approve) != Err(VotesAboveTotal)
    ensures VoteWitness(s, a, w, approve).Ok? ==> Inv(VoteWitness(s, a, w, approve).value)
  {
    hide AdjustVote, Weight, Recorded;
    if a < |s.accounts| && s.accounts[a].proxy.None? && (approve ==> s.accounts[a].canVote) && w < |s.witnesses| {
      var voter := s.accounts[a];
      if (a, w) !in s.votes && approve && voter.votedFor < MAX_ACCOUNT_WITNESS_VOTES {
        ApproveKeepsInv(s, a, w);
      } else if (a, w) in s.votes && !approve {
        RejectKeepsInv(s, a, w);
      }
    }
  }

  lemma {:induction false} ApprovedTally(s: State, a: nat, w: nat, i: nat)
    requires Inv(s) && a < |s.accounts| && i < |s.witnesses| && (a, w) !in s.votes
    ensures SumOver(Weights(s.accounts), Voters(s.votes + {(a, w)}, i)) ==
            s.witnesses[i].votes + if i == w then Weight(s.accounts[a]) else 0
  {
    var votes := s.votes + {(a, w)};
    OneMoreVoter(s.votes, a, w, i);
    if i == w {
      MemberOfVoters(s.votes, a, i);
      SumWithout(Weights(s.accounts), Voters(votes, i), a);
      assert Voters(votes, i) - {a} == Voters(s.votes, i);
    } else {
      assert Voters(votes, i) == Voters(s.votes, i);
    }
  }

  lemma {:induction false} RejectedTally(s: State, a: nat, w: nat, i: nat)
    requires Inv(s) && a < |s.accounts| && i < |s.witnesses| && (a, w) in s.votes
    ensures SumOver(Weights(s.accounts), Voters(s.votes - {(a, w)}, i)) ==
            s.witnesses[i].votes - if i == w then Weight(s.accounts[a]) else 0
  {
    OneFewerVoter(s.votes, a, w, i);
    if i == w {
      MemberOfVoters(s.votes, a, i);
      SumWithout(Weights(s.accounts), Voters(s.votes, i), a);
    } else {
      assert Voters(s.votes - {(a, w)}, i) == Voters(s.votes, i);
    }
  }

  lemma OneFewerVote(votes: set<(nat, nat)>, a: nat, w: nat)
    requires (a, w) in votes
    ensures |VotesBy(votes, a)| == |VotesBy(votes - {(a, w)}, a)| + 1
  {
    assert VotesBy(votes, a) == VotesBy(votes - {(a, w)}, a) + {(a, w)};
  }

  /** Recording a vote or its withdrawal adjusts exactly one tally, which never leaves its bounds. */
  lemma {:induction false} RecordKeepsInv(s: State, a: nat, w: nat, delta: int, votes: set<(nat, nat)>, count: nat)
    requires Inv(s) && Formed(s) && a < |s.accounts| && w < |s.witnesses| && s.accounts[a].proxy.None?
    requires forall v :: v in votes ==> v in s.votes || (v.0 == a && v.1 < |s.witnesses|)
    requires forall v :: v in s.votes && v.0 != a ==> v in votes
    requires count == |VotesBy(votes, a)| <= MAX_ACCOUNT_WITNESS_VOTES
    requires forall i: nat :: i < |s.witnesses| ==>
      SumOver(Weights(s.accounts), Voters(votes, i)) == s.witnesses[i].votes + if i == w then delta else 0
    ensures AdjustVote(s.witnesses[w], delta, s.now, s.totalVesting).Some?
    ensures Inv(Recorded(s, a, w, AdjustVote(s.witnesses[w], delta, s.now, s.totalVesting).value, votes, count))
  {
    hide AdjustVote, SumOver, Weight, Ancestor;
    TalliesWithinTotal(s.accounts, votes, w);
    AdjustVoteKeepsTimely(s.witnesses[w], delta, s.now, s.totalVesting);
    var adjusted := AdjustVote(s.witnesses[w], delta, s.now, s.totalVesting).value;
    RecountedInv(s, Recorded(s, a, w, adjusted, votes, count), a, w, count);
  }

  lemma {:induction false} ApproveKeepsInv(s: State, a: nat, w: nat)
    requires Inv(s) && Formed(s) && a < |s.accounts| && w < |s.witnesses| && s.accounts[a].proxy.None?
    requires (a, w) !in s.votes && s.accounts[a].votedFor < MAX_ACCOUNT_WITNESS_VOTES
    ensures var r := AdjustVote(s.witnesses[w], Weight(s.accounts[a]), s.now, s.totalVesting);
            r.Some? && Inv(Recorded(s, a, w, r.value, s.votes + {(a, w)}, s.accounts[a].votedFor + 1))
  {
    hide AdjustVote, SumOver, Weight, Recorded;
    var votes := s.votes + {(a, w)};
    forall i: nat | i < |s.witnesses|
      ensures SumOver(Weights(s.accounts), Voters(votes, i)) ==
              s.witnesses[i].votes + if i == w then Weight(s.accounts[a]) else 0
    {
      ApprovedTally(s, a, w, i);
    }
    OneFewerVote(votes, a, w);
    assert votes - {(a, w)} == s.votes;
    RecordKeepsInv(s, a, w, Weight(s.accounts[a]), votes, s.accounts[a].votedFor + 1);
  }

  lemma {:induction false} RejectKeepsInv(s: State, a: nat, w: nat)
    requires Inv(s) && Formed(s) && a < |s.accounts| && w < |s.witnesses| && s.accounts[a].proxy.None?
    requires (a, w) in s.votes
    ensures var r := AdjustVote(s.witnesses[w], -Weight(s.accounts[a]), s.now, s.totalVesting);
            && 0 < s.accounts[a].votedFor
            && r.Some? && Inv(Recorded(s, a, w, r.value, s.votes - {(a, w)}, s.accounts[a].votedFor - 1))
  {
    hide AdjustVote, SumOver, Weight, Recorded;
    var votes := s.votes - {(a, w)};
    forall i: nat | i < |s.witnesses|
      ensures SumOver(Weights(s.accounts), Voters(votes, i)) ==
              s.witnesses[i].votes + if i == w then -Weight(s.accounts[a]) else 0
    {
      RejectedTally(s, a, w, i);
    }
    OneFewerVote(s.votes, a, w);
    RecordKeepsInv(s, a, w, -Weight(s.accounts[a]), votes, s.accounts[a].votedFor - 1);
  }
}
