/**
 The voting part of the chain database in its own form: objects updated in
 place, loops over indices and a recursive walk.  Every method is proved to do
 what the functions of `VotingState` say, and every evaluator keeps the
 invariant and leaves the state alone when it is refused.
 */
module VotingDatabase {
  import opened Wrappers
  import opened Widths
  import opened WeightedSums
  import opened VirtualTime
  import opened VotingState
  import opened VotingInvariant
  import opened VotingRuns
  import opened VotingMeaning

  lemma {:induction false} RootWithinByProxies(accounts: seq<Account>, other: seq<Account>, a: nat, depth: nat)
    requires Shaped(accounts) && Shaped(other) && |accounts| == |other| && a < |accounts| && depth <= MAX_PROXY_DEPTH
    requires forall x :: 0 <= x < |accounts| ==> other[x].proxy == accounts[x].proxy
    ensures RootWithin(other, a, depth) == RootWithin(accounts, a, depth)
    decreases MAX_PROXY_DEPTH - depth
  {
    if accounts[a].proxy.Some? && depth < MAX_PROXY_DEPTH {
      RootWithinByProxies(accounts, other, accounts[a].proxy.value, depth + 1);
    }
  }

  /** The walk from any depth, as one function. */
  function WalkFrom(s: State, a: nat, delta: seq<int>, depth: nat): (r: Option<State>)
    requires Formed(s) && a < |s.accounts| && |delta| == MAX_PROXY_DEPTH + 1 && depth <= MAX_PROXY_DEPTH
  {
    PassOn(s.(accounts := PushUp(s.accounts, a, delta, depth)), RootWithin(s.accounts, a, depth), delta)
  }

  function Raised(s: State, p: nat, delta: seq<int>, depth: nat): (r: State)
    requires Formed(s) && p < |s.accounts| && |delta| == MAX_PROXY_DEPTH + 1
    ensures Formed(r) && |r.accounts| == |s.accounts|
  {
    s.(accounts := s.accounts[p := s.accounts[p].(proxied := AddShifted(s.accounts[p].proxied, delta, depth))])
  }

  /** One level of the walk: raise the proxy and go on from there. */
  lemma {:induction false} WalkStep(s: State, a: nat, delta: seq<int>, depth: nat)
    requires Formed(s) && a < |s.accounts| && |delta| == MAX_PROXY_DEPTH + 1 && depth < MAX_PROXY_DEPTH
    requires s.accounts[a].proxy.Some?
    ensures WalkFrom(s, a, delta, depth) ==
            WalkFrom(Raised(s, s.accounts[a].proxy.value, delta, depth), s.accounts[a].proxy.value, delta, depth + 1)
  {
    hide PassOn;
    var p := s.accounts[a].proxy.value;
    RootWithinByProxies(s.accounts, Raised(s, p, delta, depth).accounts, p, depth + 1);
  }

  class Database {
    var accounts: seq<Account>
    var witnesses: seq<Witness>
    var votes: set<(nat, nat)>
    var totalVesting: int
    var now: nat

    ghost function View(): (s: State)
      reads this
    {
      State(accounts, witnesses, votes, totalVesting, now)
    }

    constructor ()
      ensures View() == State([], [], {}, 0, 0)
    {
      accounts, witnesses, votes, totalVesting, now := [], [], {}, 0, 0;
    }

    /** Going back to the state at the start of an undo session. */
    method Restore(s: State)
      modifies this
      ensures View() == s
    {
      accounts, witnesses, votes := s.accounts, s.witnesses, s.votes;
      totalVesting, now := s.totalVesting, s.now;
    }

    method Snapshot() returns (s: State)
      ensures s == View()
    {
      s := State(accounts, witnesses, votes, totalVesting, now);
    }

    /** Walks over the votes of `a` in the order of witnesses and adjusts each of them. */
    method AdjustVotesOf(a: nat, delta: int) returns (ok: bool)
      requires Formed(View())
      modifies this`witnesses
      ensures ok <==> AdjustWitnessVotes(old(View()), a, delta).Some?
      ensures ok ==> View() == AdjustWitnessVotes(old(View()), a, delta).value
    {
      hide AdjustVote;
      ghost var before := witnesses;
      var i := 0;
      while i < |witnesses|
        invariant 0 <= i <= |witnesses| == |before|
        invariant forall j: nat :: i <= j < |before| ==> witnesses[j] == before[j]
        invariant forall j: nat :: j < i && (a, j) !in votes ==> witnesses[j] == before[j]
        invariant forall j: nat :: j < i && (a, j) in votes ==>
                    AdjustVote(before[j], delta, now, totalVesting) == Some(witnesses[j])
      {
        if (a, i) in votes {
          var adjusted := AdjustVote(witnesses[i], delta, now, totalVesting);
          if adjusted.None? { return false; }
          witnesses := witnesses[i := adjusted.value];
        }
        i := i + 1;
      }
      ok := true;
      assert witnesses == AdjustWitnessVotes(old(View()), a, delta).value.witnesses;
    }

    /** Adds `delta[i]` at place `i + depth`, from the highest place down. */
    method RaiseProxied(p: nat, delta: seq<int>, depth: nat)
      requires Formed(View()) && p < |accounts| && |delta| == MAX_PROXY_DEPTH + 1 && depth < MAX_PROXY_DEPTH
      modifies this`accounts
      ensures View() == Raised(old(View()), p, delta, depth)
    {
      ghost var before := accounts;
      var proxied := accounts[p].proxied;
      var i := MAX_PROXY_DEPTH - depth;
      while 0 < i
        invariant 0 <= i <= MAX_PROXY_DEPTH - depth && |proxied| == MAX_PROXY_DEPTH
        invariant forall j :: 0 <= j < i + depth ==> proxied[j] == before[p].proxied[j]
        invariant forall j :: i + depth <= j < MAX_PROXY_DEPTH ==> proxied[j] == before[p].proxied[j] + delta[j - depth]
      {
        i := i - 1;
        proxied := proxied[i + depth := proxied[i + depth] + delta[i]];
      }
      assert proxied == AddShifted(before[p].proxied, delta, depth);
      accounts := accounts[p := accounts[p].(proxied := proxied)];
    }

    /** `adjust_proxied_witness_votes` with an array of deltas. */
    method AdjustProxiedVotes(a: nat, delta: seq<int>, depth: nat) returns (ok: bool)
      requires Formed(View()) && a < |accounts| && |delta| == MAX_PROXY_DEPTH + 1 && depth <= MAX_PROXY_DEPTH
      modifies this
      ensures ok <==> WalkFrom(old(View()), a, delta, depth).Some?
      ensures ok ==> View() == WalkFrom(old(View()), a, delta, depth).value
      decreases MAX_PROXY_DEPTH - depth
    {
      hide AdjustWitnessVotes, AdjustVote;
      if accounts[a].proxy.Some? {
        if depth >= MAX_PROXY_DEPTH { return true; }
        WalkStep(View(), a, delta, depth);
        var p := accounts[a].proxy.value;
        RaiseProxied(p, delta, depth);
        ok := AdjustProxiedVotes(p, delta, depth + 1);
      } else {
        var total := 0;
        var i := MAX_PROXY_DEPTH + 1 - depth;
        while 0 < i
          invariant 0 <= i <= MAX_PROXY_DEPTH + 1 - depth
          invariant total == Prefix(delta, MAX_PROXY_DEPTH + 1 - depth) - Prefix(delta, i)
        {
          i := i - 1;
          total := total + delta[i];
        }
        ok := AdjustVotesOf(a, total);
      }
    }

    /** `adjust_proxied_witness_votes` with one number: the array form with only own shares. */
    method AdjustOwnVotes(a: nat, amount: int, depth: nat) returns (ok: bool)
      requires Formed(View()) && a < |accounts| && depth <= MAX_PROXY_DEPTH
      modifies this
      ensures ok <==> WalkFrom(old(View()), a, OwnOnly(amount), depth).Some?
      ensures ok ==> View() == WalkFrom(old(View()), a, OwnOnly(amount), depth).value
      decreases MAX_PROXY_DEPTH - depth
    {
      hide AdjustWitnessVotes, AdjustVote;
      if accounts[a].proxy.Some? {
        if depth >= MAX_PROXY_DEPTH { return true; }
        WalkStep(View(), a, OwnOnly(amount), depth);
        var p := accounts[a].proxy.value;
        var proxied := accounts[p].proxied;
        proxied := proxied[depth := proxied[depth] + amount];
        assert proxied == AddShifted(accounts[p].proxied, OwnOnly(amount), depth);
        accounts := accounts[p := accounts[p].(proxied := proxied)];
        ok := AdjustOwnVotes(p, amount, depth + 1);
      } else {
        PrefixOwnOnly(amount, MAX_PROXY_DEPTH + 1 - depth);
        ok := AdjustVotesOf(a, amount);
      }
    }

    /** `clear_witness_votes`: removes the records of `a` one by one. */
    method ClearVotesOf(a: nat)
      requires a < |accounts|
      modifies this
      ensures View() == ClearVotes(old(View()), a)
    {
      ghost var before := votes;
      var mine := set v | v in votes && v.0 == a;
      while mine != {}
        invariant mine == set v | v in votes && v.0 == a
        invariant WithoutVoter(votes, a) == WithoutVoter(before, a)
        modifies this`votes
        decreases |mine|
      {
        var v :| v in mine;
        votes := votes - {v};
        mine := mine - {v};
        assert WithoutVoter(votes, a) == WithoutVoter(before, a);
      }
      assert votes == WithoutVoter(before, a) by {
        forall v | v in votes ensures v.0 != a {
          assert v.0 == a ==> v in mine;
        }
      }
      accounts := accounts[a := accounts[a].(votedFor := 0)];
    }

    /** The loop that fills `delta` with what has to be taken away. */
    method RemovalDelta(a: nat) returns (delta: seq<int>)
      requires Formed(View()) && a < |accounts|
      ensures delta == Negated(OwnDelta(accounts[a]))
    {
      delta := [-accounts[a].vesting];
      var i := 0;
      while i < MAX_PROXY_DEPTH
        invariant 0 <= i <= MAX_PROXY_DEPTH && |delta| == i + 1
        invariant forall j :: 0 <= j <= i ==> delta[j] == -OwnDelta(accounts[a])[j]
      {
        delta := delta + [-accounts[a].proxied[i]];
        i := i + 1;
      }
    }

    /** The `while` walk that looks for a loop above `proxy`. */
    method FindLoop(a: nat, proxy: nat) returns (error: Option<Error>)
      requires Formed(View()) && proxy < |accounts|
      ensures error == CheckChain(accounts, proxy, {a, proxy})
    {
      var chain := {a, proxy};
      var current: nat := proxy;
      while accounts[current].proxy.Some?
        invariant current < |accounts| && |chain| <= MAX_PROXY_DEPTH
        invariant CheckChain(accounts, current, chain) == CheckChain(accounts, proxy, {a, proxy})
        decreases MAX_PROXY_DEPTH - |chain|
      {
        var next := accounts[current].proxy.value;
        if next in chain { return Some(ProxyLoop); }
        assert |chain + {next}| == |chain| + 1;
        if |chain + {next}| > MAX_PROXY_DEPTH { return Some(ProxyChainTooLong); }
        chain := chain + {next};
        current := next;
      }
      error := None;
    }

    /** The witness-proxy evaluator. */
    method ApplySetProxy(a: nat, proxy: Option<nat>) returns (r: Result<(), Error>)
      requires Inv(View())
      modifies this
      ensures r.Ok? <==> Formed(old(View())) && SetProxy(old(View()), a, proxy).Ok?
      ensures r.Ok? ==> View() == SetProxy(old(View()), a, proxy).value && ProxyChanged(old(View()), View(), a, proxy)
      ensures r.Err? ==> View() == old(View()) && SetProxy(old(View()), a, proxy) == Err(r.error)
      ensures Inv(View())
    {
      hide Inv, PassOn, CheckChain, ProxyChanged;
      InvFormed(View());
      SetProxyKeepsInv(View(), a, proxy);
      if SetProxy(View(), a, proxy).Ok? { SetProxyMeans(View(), a, proxy); }
      var session := Snapshot();
      if proxy == Some(a) { return Err(ProxyToSelf); }
      if a >= |accounts| { return Err(UnknownAccount); }
      if accounts[a].proxy == proxy { return Err(ProxyUnchanged); }
      if !accounts[a].canVote { return Err(VotingDeclined); }
      var delta := RemovalDelta(a);
      assert WalkFrom(session, a, delta, 0) == AdjustProxied(session, a, delta);
      var ok := AdjustProxiedVotes(a, delta, 0);
      assert ok by { assert SetProxy(session, a, proxy) != Err(VotesAboveTotal); }
      assert |accounts| == |session.accounts| && Shaped(accounts) && accounts[a] == session.accounts[a] by {
        DetachKeepsInv(session, a);
      }
      if proxy.None? {
        accounts := accounts[a := accounts[a].(proxy := None)];
        return Ok(());
      }
      if proxy.value >= |accounts| {
        Restore(session);
        return Err(UnknownAccount);
      }
      assert Formed(View()) by { StillFormed(session, a, delta); }
      var looped := FindLoop(a, proxy.value);
      if looped.Some? {
        Restore(session);
        return Err(looped.value);
      }
      ghost var removed := View();
      ClearVotesOf(a);
      accounts := accounts[a := accounts[a].(proxy := proxy)];
      assert View() == WithProxy(ClearVotes(removed, a), a, proxy);
      var back := Opposite(delta);
      assert back == OwnDelta(session.accounts[a]);
      assert WalkFrom(View(), a, back, 0) == AdjustProxied(View(), a, back);
      ok := AdjustProxiedVotes(a, back, 0);
      assert ok by { assert SetProxy(session, a, proxy) != Err(VotesAboveTotal); }
      r := Ok(());
    }

    /** The loop that turns every entry of `delta` around. */
    method Opposite(delta: seq<int>) returns (d: seq<int>)
      ensures d == Negated(delta)
    {
      d := delta;
      var i := 0;
      while i < |d|
        invariant 0 <= i <= |d| == |delta|
        invariant forall j :: 0 <= j < i ==> d[j] == -delta[j]
        invariant forall j :: i <= j < |d| ==> d[j] == delta[j]
      {
        d := d[i := -d[i]];
        i := i + 1;
      }
    }

    /** The witness-vote evaluator. */
    method ApplyVote(a: nat, w: nat, approve: bool) returns (r: Result<(), Error>)
      requires Inv(View())
      modifies this
      ensures r.Ok? <==> Formed(old(View())) && VoteWitness(old(View()), a, w, approve).Ok?
      ensures r.Ok? ==> View() == VoteWitness(old(View()), a, w, approve).value && VoteRecorded(old(View()), View(), a, w, approve)
      ensures r.Err? ==> View() == old(View()) && VoteWitness(old(View()), a, w, approve) == Err(r.error)
      ensures Inv(View())
    {
      hide Inv, AdjustVote, Weight, VoteRecorded;
      InvFormed(View());
      VoteWitnessKeepsInv(View(), a, w, approve);
      if VoteWitness(View(), a, w, approve).Ok? { VoteMeans(View(), a, w, approve); }
      if a >= |accounts| { return Err(UnknownAccount); }
      if accounts[a].proxy.Some? { return Err(ProxySet); }
      if approve && !accounts[a].canVote { return Err(VotingDeclined); }
      if w >= |witnesses| { return Err(UnknownWitness); }
      var voter := accounts[a];
      if (a, w) !in votes {
        if !approve { return Err(VoteMissing); }
        if voter.votedFor >= MAX_ACCOUNT_WITNESS_VOTES { return Err(TooManyVotes); }
        var adjusted := AdjustVote(witnesses[w], Weight(voter), now, totalVesting);
        votes := votes + {(a, w)};
        witnesses := witnesses[w := adjusted.value];
        accounts := accounts[a := voter.(votedFor := voter.votedFor + 1)];
      } else {
        if approve { return Err(VoteExists); }
        var adjusted := AdjustVote(witnesses[w], -Weight(voter), now, totalVesting);
        witnesses := witnesses[w := adjusted.value];
        accounts := accounts[a := voter.(votedFor := if voter.votedFor == 0 then 0xFFFF else voter.votedFor - 1)];
        votes := votes - {(a, w)};
      }
      r := Ok(());
    }

    /** Vesting shares created for `a`: account, totals, then votes. */
    method ApplyVesting(a: nat, amount: nat) returns (r: Result<(), Error>)
      requires Inv(View())
      modifies this
      ensures r.Ok? <==> Formed(old(View())) && AddVesting(old(View()), a, amount).Ok?
      ensures r.Ok? ==> View() == AddVesting(old(View()), a, amount).value && SharesAdded(old(View()), View(), a, amount)
      ensures r.Err? ==> View() == old(View()) && AddVesting(old(View()), a, amount) == Err(r.error)
      ensures Inv(View())
    {
      hide Inv, PassOn, ProxyChanged, VoteRecorded, SharesAdded, RightsDeclined;
      InvFormed(View());
      AddVestingKeepsInv(View(), a, amount);
      AddVestingMeans(View(), a, amount);
      ghost var session := View();
      if a >= |accounts| { return Err(UnknownAccount); }
      if totalVesting + amount >= SHARES { return Err(Overflow); }
      accounts := accounts[a := accounts[a].(vesting := accounts[a].vesting + amount)];
      totalVesting := totalVesting + amount;
      assert View() == Paid(session, a, amount);
      assert WalkFrom(View(), a, OwnOnly(amount), 0) == AdjustProxied(View(), a, OwnOnly(amount));
      var ok := AdjustOwnVotes(a, amount, 0);
      r := Ok(());
    }

    /** One request handled by `process_decline_voting_rights`. */
    method ApplyDecline(a: nat) returns (r: Result<(), Error>)
      requires Inv(View())
      modifies this
      ensures r.Ok? <==> Formed(old(View())) && Decline(old(View()), a).Ok?
      ensures r.Ok? ==> View() == Decline(old(View()), a).value && RightsDeclined(old(View()), View(), a)
      ensures r.Err? ==> View() == old(View()) && Decline(old(View()), a) == Err(r.error)
      ensures Inv(View())
    {
      hide Inv, PassOn, ProxyChanged, VoteRecorded, SharesAdded, RightsDeclined;
      InvFormed(View());
      DeclineKeepsInv(View(), a);
      DeclineMeans(View(), a);
      ghost var session := View();
      if a >= |accounts| { return Err(UnknownAccount); }
      var delta := RemovalDelta(a);
      assert WalkFrom(session, a, delta, 0) == AdjustProxied(session, a, delta);
      var ok := AdjustProxiedVotes(a, delta, 0);
      assert |accounts| == |session.accounts| by { DetachKeepsInv(session, a); }
      ClearVotesOf(a);
      accounts := accounts[a := accounts[a].(canVote := false, proxy := None)];
      r := Ok(());
    }

    /**
     `retally_witness_votes`: every tally is rebuilt from the vote records.  The
     rebuilt tallies are the ones that the incremental updates have kept.
     */
    method Retally() returns (ok: bool)
      requires Inv(View())
      modifies this`witnesses
      ensures ok && Inv(View()) && SameButWitnesses(old(View()), View())
      ensures forall i: nat :: i < |witnesses| ==> witnesses[i].votes == old(witnesses)[i].votes
    {
      hide Inv, AdjustVote, AdjustWitnessVotes, Weight;
      ghost var s0 := View();
      var i := 0;
      while i < |witnesses|
        invariant 0 <= i <= |witnesses| == |s0.witnesses|
        invariant forall j: nat :: j < i ==> witnesses[j] == s0.witnesses[j].(votes := 0, position := 0)
        invariant forall j: nat :: i <= j < |witnesses| ==> witnesses[j] == s0.witnesses[j]
      {
        witnesses := witnesses[i := witnesses[i].(votes := 0, position := 0)];
        i := i + 1;
      }
      ClearedTallies(s0, View());
      var a := 0;
      while a < |accounts|
        invariant 0 <= a <= |accounts| && PartTallied(s0, View(), a)
      {
        PartTalliedFormed(s0, View(), a);
        if accounts[a].proxy.None? {
          ghost var t := View();
          CountAccount(s0, t, a);
          ok := AdjustVotesOf(a, Weight(accounts[a]));
          if !ok { return; }
        } else {
          SkipAccount(s0, View(), a);
        }
        a := a + 1;
      }
      FullyTallied(s0, View());
      ok := true;
    }
  }

  /** A walk leaves every witness's position within 128 bits. */
  lemma {:induction false} StillFormed(s: State, a: nat, delta: seq<int>)
    requires Inv(s) && Formed(s) && a < |s.accounts| && delta == Negated(OwnDelta(s.accounts[a]))
    ensures AdjustProxied(s, a, delta).Some? && Formed(AdjustProxied(s, a, delta).value)
  {
    hide AdjustProxied;
    DetachKeepsInv(s, a);
    InvFormed(Detached(AdjustProxied(s, a, delta).value, a));
  }

  // ------------------------------------------------------- rebuilding tallies

  /** The records of the accounts before `n` have been counted. */
  ghost predicate PartTallied(s: State, t: State, n: nat)
    requires n <= |s.accounts|
  {
    && SameButWitnesses(s, t) && Formed(t) && AllTimely(t)
    && forall i: nat :: i < |t.witnesses| ==> t.witnesses[i].votes == SumOver(Weights(s.accounts)[..n], Voters(s.votes, i))
  }

  lemma {:induction false} PartTalliedFormed(s: State, t: State, n: nat)
    requires n <= |s.accounts| && PartTallied(s, t, n)
    ensures Formed(t) && SameButWitnesses(s, t)
  {
  }

  lemma {:induction false} ClearedTallies(s: State, t: State)
    requires Inv(s) && SameButWitnesses(s, t)
    requires forall j: nat :: j < |t.witnesses| ==> t.witnesses[j] == s.witnesses[j].(votes := 0, position := 0)
    ensures PartTallied(s, t, 0)
  {
    hide AccountsOk, RecordsOk;
    InvFormed(s);
    forall j: nat | j < |t.witnesses| ensures Timely(t.witnesses[j], t.now) && t.witnesses[j].position < U128 {
      assert Timely(s.witnesses[j], s.now);
    }
    assert Weights(s.accounts)[..0] == [];
  }

  /** A part of a tally is never more than the tally. */
  lemma {:induction false} PartOfSum(w: seq<int>, n: nat, sel: set<nat>)
    requires n <= |w| && forall i :: 0 <= i < |w| ==> 0 <= w[i]
    ensures 0 <= SumOver(w[..n], sel) <= SumOver(w, sel)
    decreases |w|
  {
    SumMonotone(w[..n], {}, sel);
    SumEmpty(w[..n]);
    if n < |w| {
      assert w[..|w| - 1][..n] == w[..n];
      PartOfSum(w[..|w| - 1], n, sel);
    } else {
      assert w[..n] == w;
    }
  }

  lemma {:induction false} CountAccount(s: State, t: State, a: nat)
    requires Inv(s) && a < |s.accounts| && PartTallied(s, t, a)
    ensures var r := AdjustWitnessVotes(t, a, Weight(s.accounts[a]));
            r.Some? && PartTallied(s, r.value, a + 1)
  {
    hide SumOver, AdjustWitnessVotes, Weight, AccountsOk, AdjustVote;
    var w := Weights(s.accounts);
    var final := seq(|t.witnesses|, i requires 0 <= i < |t.witnesses| => SumOver(w[..a + 1], Voters(s.votes, i)));
    forall i: nat | i < |final|
      ensures 0 <= final[i] <= s.totalVesting
      ensures final[i] == t.witnesses[i].votes + if (a, i) in s.votes then w[a] else 0
    {
      forall x | 0 <= x < |w| ensures 0 <= w[x] { SharesNonnegative(s.accounts, x); }
      PartOfSum(w, a + 1, Voters(s.votes, i));
      TalliesWithinTotal(s.accounts, s.votes, i);
      assert w[..a + 1] == w[..a] + [w[a]];
      SumAppend(w[..a], w[a], Voters(s.votes, i));
      MemberOfVoters(s.votes, a, i);
    }
    AdjustEffect(t, a, w[a], final);
    TimelyFormed(AdjustWitnessVotes(t, a, w[a]).value, s);
  }

  lemma {:induction false} TimelyFormed(t: State, s: State)
    requires Formed(s) && t.accounts == s.accounts && AllTimely(t)
    ensures Formed(t)
  {
    forall i: nat | i < |t.witnesses| ensures t.witnesses[i].position < U128 { assert Timely(t.witnesses[i], t.now); }
  }

  /** A proxied account has no records, so leaving it out changes nothing. */
  lemma {:induction false} SkipAccount(s: State, t: State, a: nat)
    requires Inv(s) && a < |s.accounts| && s.accounts[a].proxy.Some? && PartTallied(s, t, a)
    ensures PartTallied(s, t, a + 1)
  {
    hide SumOver, AccountsOk, Weight;
    var w := Weights(s.accounts);
    forall i: nat | i < |t.witnesses| ensures t.witnesses[i].votes == SumOver(w[..a + 1], Voters(s.votes, i)) {
      assert w[..a + 1] == w[..a] + [w[a]];
      SumAppend(w[..a], w[a], Voters(s.votes, i));
    }
  }

  lemma {:induction false} FullyTallied(s: State, t: State)
    requires Inv(s) && PartTallied(s, t, |s.accounts|)
    ensures Inv(t) && forall i: nat :: i < |t.witnesses| ==> t.witnesses[i].votes == s.witnesses[i].votes
  {
    hide SumOver, AccountsOk, RecordsOk;
    assert Weights(s.accounts)[..|s.accounts|] == Weights(s.accounts);
  }
}
