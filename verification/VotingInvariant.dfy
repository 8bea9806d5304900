/**
 The invariant of witness voting and the proofs that every operation keeps it.
 */
module VotingInvariant {
  import opened Wrappers
  import opened Widths
  import opened WeightedSums
  import opened ProxyForest
  import opened VirtualTime
  import opened VotingState

  ghost function Proxies(accounts: seq<Account>): (p: Parents)
    ensures |p| == |accounts|
    ensures forall x :: 0 <= x < |p| ==> p[x] == accounts[x].proxy
    ensures Shaped(accounts) ==> InRange(p)
  {
    seq(|accounts|, x requires 0 <= x < |accounts| => accounts[x].proxy)
  }

  ghost function Vests(accounts: seq<Account>): (v: seq<int>)
    ensures |v| == |accounts|
    ensures forall x :: 0 <= x < |v| ==> v[x] == accounts[x].vesting
  {
    seq(|accounts|, x requires 0 <= x < |accounts| => accounts[x].vesting)
  }

  ghost function Weights(accounts: seq<Account>): (v: seq<int>)
    ensures |v| == |accounts|
    ensures forall x :: 0 <= x < |v| ==> v[x] == Weight(accounts[x])
  {
    seq(|accounts|, x requires 0 <= x < |accounts| => Weight(accounts[x]))
  }

  /** The vesting shares held at proxy distance exactly `k` below `a`. */
  ghost function SharesBelow(accounts: seq<Account>, a: nat, k: nat): (t: int)
    requires Shaped(accounts)
  {
    SumOver(Vests(accounts), Below(Proxies(accounts), a, k))
  }

  ghost function Voters(votes: set<(nat, nat)>, w: nat): (s: set<nat>)
  {
    set v | v in votes && v.1 == w :: v.0
  }

  ghost function VotesBy(votes: set<(nat, nat)>, a: nat): (s: set<(nat, nat)>)
  {
    set v | v in votes && v.0 == a
  }

  /** The proxies form a forest and every stored number of proxied votes is the true one. */
  ghost predicate AccountsOk(accounts: seq<Account>) {
    && Shaped(accounts)
    && Acyclic(Proxies(accounts))
    && (forall x :: 0 <= x < |accounts| ==> 0 <= accounts[x].vesting)
    && (forall x: nat, k: nat :: x < |accounts| && k < MAX_PROXY_DEPTH ==>
          accounts[x].proxied[k] == SharesBelow(accounts, x, k + 1))
  }

  /** Vote records name existing parties, no proxied account has one, and the counters agree. */
  ghost predicate RecordsOk(accounts: seq<Account>, witnesses: nat, votes: set<(nat, nat)>) {
    && (forall v :: v in votes ==> v.0 < |accounts| && v.1 < witnesses && accounts[v.0].proxy.None?)
    && (forall x: nat :: x < |accounts| ==>
          accounts[x].votedFor == |VotesBy(votes, x)| <= MAX_ACCOUNT_WITNESS_VOTES)
  }

  ghost predicate TalliesOk(s: State) {
    forall i: nat :: i < |s.witnesses| ==>
      && Timely(s.witnesses[i], s.now)
      && s.witnesses[i].votes == SumOver(Weights(s.accounts), Voters(s.votes, i))
  }

  ghost predicate Inv(s: State) {
    && AccountsOk(s.accounts)
    && RecordsOk(s.accounts, |s.witnesses|, s.votes)
    && TalliesOk(s)
    && s.totalVesting == SumOver(Vests(s.accounts), Indices(Vests(s.accounts)))
    && s.totalVesting < SHARES
    && s.now < U128
  }

  /** Correctness of accounts speaks of nothing but proxies, vesting shares and proxied votes. */
  lemma {:induction false} AccountsOkAgree(accounts: seq<Account>, other: seq<Account>)
    requires AccountsOk(accounts) && |other| == |accounts|
    requires forall x :: 0 <= x < |accounts| ==>
      other[x].proxy == accounts[x].proxy && other[x].vesting == accounts[x].vesting && other[x].proxied == accounts[x].proxied
    ensures AccountsOk(other)
    ensures Proxies(other) == Proxies(accounts) && Vests(other) == Vests(accounts) && Weights(other) == Weights(accounts)
  {
    assert Proxies(other) == Proxies(accounts);
    assert Vests(other) == Vests(accounts);
    assert Weights(other) == Weights(accounts);
  }

  // ---------------------------------------------------------------- weights

  lemma {:induction false} PrefixShifted(p: seq<int>, d: seq<int>, depth: nat, n: nat)
    requires |d| >= |p| && n <= |p|
    ensures Prefix(AddShifted(p, d, depth), n) == Prefix(p, n) + if n >= depth then Prefix(d, n - depth) else 0
  {
    if n != 0 {
      PrefixShifted(p, d, depth, n - 1);
    }
  }

  lemma {:induction false} PrefixNegated(d: seq<int>, n: nat)
    requires n <= |d|
    ensures Prefix(Negated(d), n) == -Prefix(d, n)
  {
    if n != 0 { PrefixNegated(d, n - 1); }
  }

  lemma {:induction false} PrefixOwn(a: Account, n: nat)
    requires n <= |a.proxied|
    ensures Prefix(OwnDelta(a), n + 1) == a.vesting + Prefix(a.proxied, n)
  {
    if n != 0 {
      PrefixOwn(a, n - 1);
    } else {
      assert Prefix(OwnDelta(a), 0) == 0;
    }
  }

  lemma {:induction false} PrefixNonnegative(d: seq<int>, n: nat)
    requires n <= |d| && forall i :: 0 <= i < n ==> 0 <= d[i]
    ensures 0 <= Prefix(d, n)
  {
    if n != 0 { PrefixNonnegative(d, n - 1); }
  }

  /** Nothing stored is negative. */
  lemma SharesNonnegative(accounts: seq<Account>, x: nat)
    requires AccountsOk(accounts) && x < |accounts|
    ensures forall k :: 0 <= k < MAX_PROXY_DEPTH ==> 0 <= accounts[x].proxied[k]
    ensures 0 <= Weight(accounts[x])
  {
    forall k | 0 <= k < MAX_PROXY_DEPTH ensures 0 <= accounts[x].proxied[k] {
      SumMonotone(Vests(accounts), {}, Below(Proxies(accounts), x, k + 1));
    }
    PrefixNonnegative(accounts[x].proxied, MAX_PROXY_DEPTH);
  }

  /** The weight seen at an account at distances zero to `n`. */
  lemma {:induction false} PartialWeights(accounts: seq<Account>, sel: set<nat>, n: nat, part: seq<int>)
    requires AccountsOk(accounts) && n <= MAX_PROXY_DEPTH
    requires |part| == |accounts|
    requires forall x :: 0 <= x < |part| ==> part[x] == accounts[x].vesting + Prefix(accounts[x].proxied, n)
    requires sel == Roots(Proxies(accounts))
    ensures SumOver(part, sel) == RootsUpTo(Proxies(accounts), Vests(accounts), n)
  {
    var par, w := Proxies(accounts), Vests(accounts);
    var level := BelowSums(par, w, n);
    if n == 0 {
      forall x: nat | x < |part| ensures part[x] == level[x] {
        SumUpToSelf(par, w, x);
      }
      SumAgrees(part, level, sel, sel);
    } else {
      var less := seq(|accounts|, x requires 0 <= x < |accounts| => accounts[x].vesting + Prefix(accounts[x].proxied, n - 1));
      PartialWeights(accounts, sel, n - 1, less);
      forall x: nat | x < |part| ensures part[x] == less[x] + level[x] {
        assert accounts[x].proxied[n - 1] == SharesBelow(accounts, x, n - 1 + 1);
      }
      SumAdd(less, level, part, sel);
    }
  }

  lemma SumUpToSelf(par: Parents, w: seq<int>, x: nat)
    requires InRange(par) && |w| == |par| && x < |par|
    ensures SumOver(w, Below(par, x, 0)) == w[x]
  {
    var zeros := seq(|w|, i => 0);
    assert Below(par, x, 0) == {x};
    SumUpdate(zeros, x, w[x], {x});
    SumZero(zeros, {x});
    SumAgrees(w, zeros[x := w[x]], {x}, {x});
  }

  lemma {:induction false} SumZero(w: seq<int>, s: set<nat>)
    requires forall i :: 0 <= i < |w| ==> w[i] == 0
    ensures SumOver(w, s) == 0
  {
    if |w| != 0 { SumZero(w[..|w| - 1], s); }
  }

  /**
   The equation that `validate_invariants` checks: counting each unproxied
   account with its full weight and each proxied one with its last proxied
   entry gives exactly all vesting shares, for proxy chains of any length.
   */
  lemma VestingCountedOnce(accounts: seq<Account>)
    requires AccountsOk(accounts)
    ensures SumOver(Vests(accounts), Indices(Vests(accounts))) ==
            SumOver(CountedVotes(accounts), Indices(CountedVotes(accounts)))
  {
    var par, w := Proxies(accounts), Vests(accounts);
    EveryWeightCountedOnce(par, w, MAX_PROXY_DEPTH);
    PartialWeights(accounts, Roots(par), MAX_PROXY_DEPTH, Weights(accounts));
    var counted := CountedVotes(accounts);
    assert Indices(counted) == Roots(par) + Proxied(par);
    SumDisjoint(counted, Roots(par), Proxied(par));
    SumAgrees(counted, Weights(accounts), Roots(par), Roots(par));
    SumAgrees(counted, BelowSums(par, w, MAX_PROXY_DEPTH), Proxied(par), Proxied(par));
  }

  /** The summand of `total_vsf_votes` in `validate_invariants`. */
  ghost function CountedVotes(accounts: seq<Account>): (c: seq<int>)
    requires Shaped(accounts)
    ensures |c| == |accounts|
    ensures forall x :: 0 <= x < |c| ==>
      c[x] == if accounts[x].proxy.None? then Weight(accounts[x]) else accounts[x].proxied[MAX_PROXY_DEPTH - 1]
  {
    seq(|accounts|, x requires 0 <= x < |accounts| =>
      if accounts[x].proxy.None? then Weight(accounts[x]) else accounts[x].proxied[MAX_PROXY_DEPTH - 1])
  }

  /** However unproxied voters are chosen, together they weigh no more than all vesting shares. */
  lemma VotersWithinTotal(accounts: seq<Account>, voters: set<nat>)
    requires AccountsOk(accounts)
    requires forall x :: x in voters ==> x < |accounts| && accounts[x].proxy.None?
    ensures 0 <= SumOver(Weights(accounts), voters) <= SumOver(Vests(accounts), Indices(Vests(accounts)))
  {
    var par := Proxies(accounts);
    var counted := CountedVotes(accounts);
    VestingCountedOnce(accounts);
    forall x: nat | x < |accounts| ensures 0 <= counted[x] {
      SharesNonnegative(accounts, x);
    }
    SumAgrees(Weights(accounts), counted, voters, voters);
    SumMonotone(counted, voters, Indices(counted));
  }
}
