/**
 The state machine of witness voting: all steps that touch accounts' vesting
 shares, proxies and votes, and what every run of them keeps.
 */
module VotingMachine {
  import opened Wrappers
  import opened WeightedSums
  import opened ProxyForest
  import opened VirtualTime
  import opened VotingState
  import opened VotingInvariant
  import opened VotingRuns
  import P = VotingPreservation

  // ------------------------------------------------------- new objects

  lemma {:induction false} AppendAncestor(par: Parents, x: nat, k: nat)
    requires InRange(par) && x < |par|
    ensures InRange(par + [None]) && Ancestor(par + [None], x, k) == Ancestor(par, x, k)
    decreases k
  {
    if k != 0 && par[x].Some? { AppendAncestor(par, par[x].value, k - 1); }
  }

  lemma {:induction false} AppendBelow(par: Parents, b: nat, k: nat)
    requires InRange(par) && b <= |par| && 0 < k
    ensures InRange(par + [None]) && Below(par + [None], b, k) == if b < |par| then Below(par, b, k) else {}
  {
    var longer := par + [None];
    assert InRange(longer);
    assert Ancestor(longer, |par|, k).None?;
    forall x: nat | x < |par| ensures Ancestor(longer, x, k) == Ancestor(par, x, k) { AppendAncestor(par, x, k); }
  }

  lemma {:induction false} AppendAcyclic(par: Parents)
    requires InRange(par) && Acyclic(par)
    ensures InRange(par + [None]) && Acyclic(par + [None])
  {
    var longer := par + [None];
    assert InRange(longer);
    forall x: nat, k: nat | x < |longer| && 0 < k ensures Ancestor(longer, x, k) != Some(x) {
      if x < |par| { AppendAncestor(par, x, k); }
    }
  }

  lemma {:induction false} AppendAccounts(accounts: seq<Account>)
    requires AccountsOk(accounts)
    ensures AccountsOk(accounts + [NewAccount()])
  {
    hide SumOver, Ancestor;
    var more := accounts + [NewAccount()];
    var par := Proxies(accounts);
    assert Proxies(more) == par + [None];
    assert Vests(more) == Vests(accounts) + [0];
    AppendAcyclic(par);
    forall b: nat, k: nat | b < |more| && k < MAX_PROXY_DEPTH
      ensures more[b].proxied[k] == SharesBelow(more, b, k + 1)
    {
      AppendBelow(par, b, k + 1);
      SumAppend(Vests(accounts), 0, Below(Proxies(more), b, k + 1));
      if b < |accounts| {
        assert accounts[b].proxied[k] == SharesBelow(accounts, b, k + 1);
      } else {
        SumEmpty(Vests(accounts));
      }
    }
  }

  lemma {:induction false} AddAccountKeepsInv(s: State)
    requires Inv(s)
    ensures Inv(AddAccount(s))
  {
    hide SumOver, Ancestor, AdjustVote;
    var t := AddAccount(s);
    AppendAccounts(s.accounts);
    assert Vests(t.accounts) == Vests(s.accounts) + [0];
    SumAppend(Vests(s.accounts), 0, Indices(Vests(t.accounts)));
    SumAgrees(Vests(s.accounts), Vests(s.accounts), Indices(Vests(t.accounts)), Indices(Vests(s.accounts)));
    assert VotesBy(s.votes, |s.accounts|) == {};
    assert Weights(t.accounts) == Weights(s.accounts) + [0] by { assert Weight(NewAccount()) == 0; }
    forall i: nat | i < |s.witnesses|
      ensures SumOver(Weights(t.accounts), Voters(s.votes, i)) == SumOver(Weights(s.accounts), Voters(s.votes, i))
    {
      SumAppend(Weights(s.accounts), 0, Voters(s.votes, i));
    }
  }

  lemma {:induction false} AddWitnessKeepsInv(s: State, hasKey: bool)
    requires Inv(s)
    ensures Inv(AddWitness(s, hasKey))
  {
    hide SumOver, Ancestor, AdjustVote;
    assert Voters(s.votes, |s.witnesses|) == {};
    SumEmpty(Weights(s.accounts));
  }

  // ------------------------------------------------------- vesting burnt behind the voters' back

  /**
   Taking vesting shares away without adjusting votes, as the null-account sweep
   and the one-off burn do, keeps the invariant exactly when nothing is taken or
   the account neither has a proxy nor votes.
   */
  lemma {:induction false} BurnKeepsInvIff(s: State, a: nat, amount: nat)
    requires Inv(s) && a < |s.accounts| && amount <= s.accounts[a].vesting
    ensures Inv(BurnVesting(s, a, amount)) <==>
            amount == 0 || (s.accounts[a].proxy.None? && forall v :: v in s.votes ==> v.0 != a)
  {
    var t := BurnVesting(s, a, amount);
    if amount == 0 {
      assert t == s;
    } else if s.accounts[a].proxy.Some? {
      BurnBelowProxy(s.accounts, a, amount);
    } else if v :| v in s.votes && v.0 == a {
      BurnOfVoter(s, a, amount, v.1);
    } else {
      BurnApart(s, a, amount);
    }
  }

  lemma {:induction false} BurnBelowProxy(accounts: seq<Account>, a: nat, amount: nat)
    requires AccountsOk(accounts) && a < |accounts| && accounts[a].proxy.Some? && 0 < amount
    ensures !AccountsOk(accounts[a := accounts[a].(vesting := accounts[a].vesting - amount)])
  {
    hide SumOver;
    var burnt := accounts[a := accounts[a].(vesting := accounts[a].vesting - amount)];
    var par, p := Proxies(accounts), accounts[a].proxy.value;
    assert Proxies(burnt) == par;
    assert Vests(burnt) == Vests(accounts)[a := accounts[a].vesting - amount];
    assert Ancestor(par, a, 1) == Ancestor(par, p, 0) == Some(p);
    SumUpdate(Vests(accounts), a, accounts[a].vesting - amount, Below(par, p, 1));
    assert accounts[p].proxied[0] == SharesBelow(accounts, p, 0 + 1);
    assert SharesBelow(burnt, p, 0 + 1) == accounts[p].proxied[0] - amount;
  }

  lemma {:induction false} BurnOfVoter(s: State, a: nat, amount: nat, w: nat)
    requires Inv(s) && a < |s.accounts| && 0 < amount && (a, w) in s.votes
    ensures !TalliesOk(BurnVesting(s, a, amount))
  {
    hide SumOver, Ancestor;
    var t := BurnVesting(s, a, amount);
    assert Weights(t.accounts) == Weights(s.accounts)[a := Weight(s.accounts[a]) - amount];
    SumUpdate(Weights(s.accounts), a, Weight(s.accounts[a]) - amount, Voters(s.votes, w));
    MemberOfVoters(s.votes, a, w);
    assert w < |s.witnesses|;
  }

  lemma {:induction false} BurnApart(s: State, a: nat, amount: nat)
    requires Inv(s) && a < |s.accounts| && amount <= s.accounts[a].vesting
    requires s.accounts[a].proxy.None? && forall v :: v in s.votes ==> v.0 != a
    ensures Inv(BurnVesting(s, a, amount))
  {
    hide SumOver, AdjustVote;
    var t := BurnVesting(s, a, amount);
    var par := Proxies(s.accounts);
    assert Proxies(t.accounts) == par;
    assert Vests(t.accounts) == Vests(s.accounts)[a := s.accounts[a].vesting - amount];
    assert Weights(t.accounts) == Weights(s.accounts)[a := Weight(s.accounts[a]) - amount];
    SumUpdate(Vests(s.accounts), a, s.accounts[a].vesting - amount, Indices(Vests(s.accounts)));
    assert Indices(Vests(t.accounts)) == Indices(Vests(s.accounts));
    forall b: nat, k: nat | b < |t.accounts| && k < MAX_PROXY_DEPTH
      ensures t.accounts[b].proxied[k] == SharesBelow(t.accounts, b, k + 1)
    {
      assert s.accounts[b].proxied[k] == SharesBelow(s.accounts, b, k + 1);
      RootEndsChain(par, a, k + 1);
      SumUpdate(Vests(s.accounts), a, s.accounts[a].vesting - amount, Below(par, b, k + 1));
    }
    forall i: nat | i < |s.witnesses|
      ensures SumOver(Weights(t.accounts), Voters(s.votes, i)) == SumOver(Weights(s.accounts), Voters(s.votes, i))
    {
      SumUpdate(Weights(s.accounts), a, Weight(s.accounts[a]) - amount, Voters(s.votes, i));
    }
    InvFromParts(s.accounts, t);
  }

  // ------------------------------------------------------- a new round of witnesses

  lemma {:induction false} RescheduleKeepsInv(s: State, order: seq<nat>, n: nat)
    requires Inv(s)
    ensures Reschedule(s, order, n) != Err(VotesAboveTotal)
    ensures Reschedule(s, order, n).Ok? ==> Inv(Reschedule(s, order, n).value)
  {
    hide Rescheduled, SumOver, Ancestor, TimeOrder;
    if Reschedule(s, order, n).Ok? {
      assert TimelyAt(s.witnesses, s.now) by {
        forall i | 0 <= i < |s.witnesses| ensures Timely(s.witnesses[i], s.now) {}
      }
      RescheduledTimely(s.witnesses, order, n, s.now);
    }
  }

  // ------------------------------------------------------- runs

  datatype Op =
    | CreateAccount
    | CreateWitness(hasKey: bool)
    | ChangeProxy(account: nat, proxy: Option<nat>)
    | Vote(account: nat, voted: nat, approve: bool)
    | GainVesting(account: nat, amount: nat)
    | DeclineRights(account: nat)
    | NewRound(order: seq<nat>, n: nat)

  /** One operation; a refused one leaves the state as it was, since its undo session is dropped. */
  function Step(s: State, op: Op): (r: Result<State, Error>)
    requires Formed(s)
  {
    match op
    case CreateAccount => Ok(AddAccount(s))
    case CreateWitness(hasKey) => Ok(AddWitness(s, hasKey))
    case ChangeProxy(account, proxy) => SetProxy(s, account, proxy)
    case Vote(account, voted, approve) => VoteWitness(s, account, voted, approve)
    case GainVesting(account, amount) => AddVesting(s, account, amount)
    case DeclineRights(account) => Decline(s, account)
    case NewRound(order, n) => Reschedule(s, order, n)
  }

  lemma {:induction false} StepKeepsInv(s: State, op: Op)
    requires Inv(s)
    ensures Formed(s)
    ensures Step(s, op) != Err(VotesAboveTotal)
    ensures Step(s, op).Ok? ==> Inv(Step(s, op).value)
  {
    hide Inv;
    InvFormed(s);
    match op
    case CreateAccount => AddAccountKeepsInv(s);
    case CreateWitness(hasKey) => AddWitnessKeepsInv(s, hasKey);
    case ChangeProxy(account, proxy) => SetProxyKeepsInv(s, account, proxy);
    case Vote(account, voted, approve) => VoteWitnessKeepsInv(s, account, voted, approve);
    case GainVesting(account, amount) => AddVestingKeepsInv(s, account, amount);
    case DeclineRights(account) => DeclineKeepsInv(s, account);
    case NewRound(order, n) => RescheduleKeepsInv(s, order, n);
  }

  /** The states passed through by `ops`, refused ones included, end in `t`. */
  ghost predicate Runs(s: State, ops: seq<Op>, t: State)
    decreases |ops|
  {
    if |ops| == 0 then t == s
    else Formed(s) && Runs(match Step(s, ops[0]) case Ok(next) => next case Err(_) => s, ops[1..], t)
  }

  const Genesis: State := State([], [], {}, 0, 0)

  lemma GenesisInv()
    ensures Inv(Genesis)
  {
    assert Proxies(Genesis.accounts) == [];
  }

  // ------------------------------------------------------- genesis as a run

  function FirstAccounts(count: nat, vests: seq<nat>): (r: seq<Account>)
    ensures |r| == count && forall i :: 0 <= i < count ==> r[i] == NewAccount().(vesting := if i < |vests| then vests[i] else 0)
  {
    seq(count, i requires 0 <= i < count => NewAccount().(vesting := if i < |vests| then vests[i] else 0))
  }

  function FirstWitnesses(miners: nat): (r: seq<Witness>)
    ensures |r| == miners && forall i :: 0 <= i < miners ==> r[i] == NewWitness(true)
  {
    seq(miners, i requires 0 <= i < miners => NewWitness(true))
  }

  /** `count` accounts and `miners` witnesses, the first accounts holding `vests`. */
  function GenesisState(count: nat, miners: nat, vests: seq<nat>): (s: State)
    requires |vests| <= count
  {
    State(FirstAccounts(count, vests), FirstWitnesses(miners), {}, SumOf(vests), 0)
  }

  function SumOf(vests: seq<nat>): (t: nat) {
    if |vests| == 0 then 0 else SumOf(vests[..|vests| - 1]) + vests[|vests| - 1]
  }

  /** Create everything, then give out the shares. */
  function GenesisOps(count: nat, miners: nat, vests: seq<nat>): (ops: seq<Op>)
    decreases count, miners, |vests|
  {
    if |vests| > 0 then
      GenesisOps(count, miners, vests[..|vests| - 1]) + [GainVesting(|vests| - 1, vests[|vests| - 1])]
    else if miners > 0 then GenesisOps(count, miners - 1, []) + [CreateWitness(true)]
    else if count > 0 then GenesisOps(count - 1, 0, []) + [CreateAccount]
    else []
  }

  lemma {:induction false} OneMoreStep(s: State, ops: seq<Op>, t: State, op: Op, u: State)
    requires Runs(s, ops, t) && Formed(t) && Step(t, op) == Ok(u)
    ensures Runs(s, ops + [op], u)
    decreases |ops|
  {
    hide Step, Formed;
    if |ops| == 0 {
      assert (ops + [op])[1..] == [];
    } else {
      var next := match Step(s, ops[0]) case Ok(next) => next case Err(_) => s;
      OneMoreStep(next, ops[1..], t, op, u);
      assert (ops + [op])[1..] == ops[1..] + [op];
    }
  }

  lemma {:induction false} GenesisFormed(count: nat, miners: nat, vests: seq<nat>)
    requires |vests| <= count
    ensures Formed(GenesisState(count, miners, vests))
  {
  }

  /** Without votes and proxies, new shares change nothing but their owner and the total. */
  lemma {:induction false} FirstShares(count: nat, miners: nat, vests: seq<nat>)
    requires 0 < |vests| <= count && SumOf(vests) < SHARES
    ensures var before := GenesisState(count, miners, vests[..|vests| - 1]);
            Formed(before) && AddVesting(before, |vests| - 1, vests[|vests| - 1]) == Ok(GenesisState(count, miners, vests))
  {
    hide AdjustVote, Prefix, PushUp, RootWithin;
    var last, rest := |vests| - 1, vests[..|vests| - 1];
    var before, after := GenesisState(count, miners, rest), GenesisState(count, miners, vests);
    GenesisFormed(count, miners, rest);
    var paid := Paid(before, last, vests[last]);
    assert paid.accounts == after.accounts;
    NobodyMoves(paid, last, vests[last]);
  }

  lemma {:induction false} NobodyMoves(s: State, a: nat, amount: nat)
    requires Formed(s) && a < |s.accounts| && s.accounts[a].proxy.None? && s.votes == {}
    ensures AdjustProxied(s, a, OwnOnly(amount)) == Some(s)
  {
    hide AdjustVote, Prefix;
    assert PushUp(s.accounts, a, OwnOnly(amount), 0) == s.accounts;
    assert RootWithin(s.accounts, a, 0) == Voting(a, 0);
    var t := AdjustWitnessVotes(s, a, Prefix(OwnOnly(amount), MAX_PROXY_DEPTH + 1));
    assert t.Some? && t.value.witnesses == s.witnesses;
  }

  /** The accounts, witnesses and shares that the chain starts with are reached by steps from the empty state. */
  lemma {:induction false} GenesisIsRun(count: nat, miners: nat, vests: seq<nat>)
    requires |vests| <= count && SumOf(vests) < SHARES
    ensures Runs(Genesis, GenesisOps(count, miners, vests), GenesisState(count, miners, vests))
    ensures Inv(GenesisState(count, miners, vests))
    decreases count, miners, |vests|
  {
    hide Inv, Step, AddVesting, Formed;
    var s := GenesisState(count, miners, vests);
    if |vests| > 0 {
      var rest := vests[..|vests| - 1];
      GenesisIsRun(count, miners, rest);
      FirstShares(count, miners, vests);
      StepGain(GenesisState(count, miners, rest), |vests| - 1, vests[|vests| - 1]);
      OneMoreStep(Genesis, GenesisOps(count, miners, rest), GenesisState(count, miners, rest), GainVesting(|vests| - 1, vests[|vests| - 1]), s);
    } else if miners > 0 {
      GenesisIsRun(count, miners - 1, []);
      var before := GenesisState(count, miners - 1, []);
      GenesisFormed(count, miners - 1, []);
      assert vests == [] && s.accounts == before.accounts && s.witnesses == before.witnesses + [NewWitness(true)];
      StepNew(before);
      OneMoreStep(Genesis, GenesisOps(count, miners - 1, []), before, CreateWitness(true), s);
    } else if count > 0 {
      GenesisIsRun(count - 1, 0, []);
      var before := GenesisState(count - 1, 0, []);
      GenesisFormed(count - 1, 0, []);
      assert vests == [] && s.accounts == before.accounts + [NewAccount()] && s.witnesses == before.witnesses;
      StepNew(before);
      OneMoreStep(Genesis, GenesisOps(count - 1, 0, []), before, CreateAccount, s);
    } else {
      assert s == Genesis;
    }
    GenesisInv();
    RunsKeepInv(Genesis, GenesisOps(count, miners, vests), s);
  }

  lemma StepNew(s: State)
    requires Formed(s)
    ensures Step(s, CreateWitness(true)) == Ok(s.(witnesses := s.witnesses + [NewWitness(true)]))
    ensures Step(s, CreateAccount) == Ok(s.(accounts := s.accounts + [NewAccount()]))
  {
  }

  lemma StepGain(s: State, a: nat, amount: nat)
    requires Formed(s)
    ensures Step(s, GainVesting(a, amount)) == AddVesting(s, a, amount)
  {
  }

  // ------------------------------------------------------- burning that breaks the invariant

  /** Two accounts, the first with ten shares, and one witness. */
  function TwoAccounts(): (s: State) {
    GenesisState(2, 1, [10])
  }

  lemma {:induction false} TwoAccountsInv()
    ensures Inv(TwoAccounts()) && Formed(TwoAccounts())
  {
    hide Inv;
    assert SumOf([10]) == 10 by { assert [10][..0] == []; }
    GenesisIsRun(2, 1, [10]);
    InvFormed(TwoAccounts());
  }

  /** Setting a proxy changes of the account itself nothing but the proxy and its vote records. */
  lemma {:induction false} ProxyIsSet(s: State, a: nat, p: nat)
    requires Formed(s) && SetProxy(s, a, Some(p)).Ok?
    ensures var t := SetProxy(s, a, Some(p)).value;
            a < |t.accounts| && t.accounts[a].proxy == Some(p) && t.accounts[a].vesting == s.accounts[a].vesting
  {
    hide PushUp, RootWithin, AdjustVote, Prefix, CheckChain;
    var delta := OwnDelta(s.accounts[a]);
    var removed := AdjustProxied(s, a, Negated(delta)).value;
    P.PushUpFrame(s.accounts, a, Negated(delta), 0);
    AdjustKeepsNow(s, a, Negated(delta));
    var moved := WithProxy(ClearVotes(removed, a), a, Some(p));
    P.PushUpFrame(moved.accounts, a, delta, 0);
  }

  /** The first account proxies to the second; five of its shares are burnt. */
  lemma {:induction false} BurnBreaksProxied()
    ensures Formed(TwoAccounts()) && SetProxy(TwoAccounts(), 0, Some(1)).Ok?
    ensures BurnBreaks(SetProxy(TwoAccounts(), 0, Some(1)).value, 0, 5)
  {
    hide Inv, SetProxy, AdjustProxied, BurnVesting, GenesisState;
    var s := TwoAccounts();
    TwoAccountsInv();
    SetProxyKeepsInv(s, 0, Some(1));
    SecondIsFree(s);
    ProxyIsSet(s, 0, 1);
    BurnKeepsInvIff(SetProxy(s, 0, Some(1)).value, 0, 5);
  }

  lemma {:induction false} SecondIsFree(s: State)
    requires s == TwoAccounts() && Formed(s)
    ensures |s.accounts| == 2 && s.accounts[0] == NewAccount().(vesting := 10) && s.accounts[1] == NewAccount()
    ensures |s.witnesses| == 1 && s.votes == {}
    ensures Ancestor(Proxies(s.accounts), 1, 3).None? && NotAbove(Proxies(s.accounts), 1, 0)
  {
    var par := Proxies(s.accounts);
    RootEndsChain(par, 1, 3);
    forall j: nat ensures Ancestor(par, 1, j) != Some(0) { if j > 0 { RootEndsChain(par, 1, j); } }
  }

  ghost predicate BurnBreaks(s: State, a: nat, amount: nat) {
    Inv(s) && a < |s.accounts| && amount <= s.accounts[a].vesting && !Inv(BurnVesting(s, a, amount))
  }

  /** The first account votes for the witness; five of its shares are burnt. */
  lemma {:induction false} BurnBreaksVoter()
    ensures Formed(TwoAccounts()) && VoteWitness(TwoAccounts(), 0, 0, true).Ok?
    ensures BurnBreaks(VoteWitness(TwoAccounts(), 0, 0, true).value, 0, 5)
  {
    hide Inv, AdjustVote, BurnVesting, GenesisState, Weight;
    var s := TwoAccounts();
    TwoAccountsInv();
    SecondIsFree(s);
    VoteWitnessKeepsInv(s, 0, 0, true);
    var t := VoteWitness(s, 0, 0, true).value;
    assert (0, 0) in t.votes;
    BurnKeepsInvIff(t, 0, 5);
  }

  /**
   On every run the proxies stay a forest, every `proxied_vsf_votes` entry is the
   vesting held at exactly that proxy distance, proxied accounts have no vote
   records, every witness's votes are the summed weight of its voters and stay
   within all vesting shares, and every witness's last update, the current
   virtual time and its scheduled time stay in order.
   */
  lemma {:induction false} RunsKeepInv(s: State, ops: seq<Op>, t: State)
    requires Inv(s) && Runs(s, ops, t)
    ensures Inv(t)
    ensures forall i: nat :: i < |t.witnesses| ==> 0 <= t.witnesses[i].votes <= t.totalVesting
    decreases |ops|
  {
    hide Step;
    if |ops| == 0 {
      forall i: nat | i < |t.witnesses| ensures 0 <= t.witnesses[i].votes <= t.totalVesting {
        TalliesWithinTotal(t.accounts, t.votes, i);
      }
    } else {
      StepKeepsInv(s, ops[0]);
      RunsKeepInv(match Step(s, ops[0]) case Ok(next) => next case Err(_) => s, ops[1..], t);
    }
  }

  lemma {:induction false} AdjustKeepsNow(s: State, a: nat, delta: seq<int>)
    requires Formed(s) && a < |s.accounts| && |delta| == MAX_PROXY_DEPTH + 1
    ensures AdjustProxied(s, a, delta).Some? ==>
              var t := AdjustProxied(s, a, delta).value;
              t.now == s.now && |t.accounts| == |s.accounts| && Formed(t)
  {
    hide PushUp, RootWithin, Prefix;
  }

  /** Virtual time moves backwards only in a new round whose next lap overflows 128 bits, and then to zero. */
  lemma {:induction false} TimeMovesForward(s: State, op: Op)
    requires Inv(s) && Formed(s)
    ensures Step(s, op).Ok? ==> TimeLaw(s, op, Step(s, op).value.now)
  {
    if Step(s, op).Err? { return; }
    hide Inv, AdjustProxied, AdjustVote, CheckChain, Rescheduled, Formed;
    match op
    case CreateAccount =>
    case CreateWitness(hasKey) =>
    case ChangeProxy(a, proxy) => SetProxyKeepsNow(s, a, proxy);
    case Vote(account, voted, approve) =>
    case GainVesting(a, amount) => AddVestingKeepsNow(s, a, amount);
    case DeclineRights(a) => DeclineKeepsNow(s, a);
    case NewRound(order, n) => RoundTime(s, order, n);
  }

  ghost predicate TimeLaw(s: State, op: Op, t: nat) {
    || (if op.NewRound? then s.now <= t else t == s.now)
    || (op.NewRound? && t == 0 && WrapsIn(s, op.order, op.n))
  }

  /** Some witness of the round would start a lap that ends beyond 128 bits. */
  ghost predicate WrapsIn(s: State, order: seq<nat>, n: nat) {
    && NonNegative(s.witnesses) && TimeOrder(s.witnesses, order) && n <= |order|
    && MustReset(s.witnesses, order[..n], NewTime(s.witnesses, order, n, s.now))
  }

  lemma {:induction false} RoundTime(s: State, order: seq<nat>, n: nat)
    requires Inv(s)
    ensures Reschedule(s, order, n).Ok? ==> TimeLaw(s, NewRound(order, n), Reschedule(s, order, n).value.now)
  {
    hide Rescheduled, MustReset;
    if Reschedule(s, order, n).Err? { return; }
    assert TimelyAt(s.witnesses, s.now) by {
      forall i | 0 <= i < |s.witnesses| ensures Timely(s.witnesses[i], s.now) {}
    }
    RescheduledTimely(s.witnesses, order, n, s.now);
  }

  lemma {:induction false} SetProxyKeepsNow(s: State, a: nat, proxy: Option<nat>)
    requires Formed(s)
    ensures SetProxy(s, a, proxy).Ok? ==> SetProxy(s, a, proxy).value.now == s.now
  {
    hide AdjustProxied, CheckChain;
    if SetProxy(s, a, proxy).Ok? {
      var delta := OwnDelta(s.accounts[a]);
      AdjustKeepsNow(s, a, Negated(delta));
      if proxy.Some? {
        var removed := AdjustProxied(s, a, Negated(delta)).value;
        AdjustKeepsNow(WithProxy(ClearVotes(removed, a), a, proxy), a, delta);
      }
    }
  }

  lemma {:induction false} AddVestingKeepsNow(s: State, a: nat, amount: nat)
    requires Formed(s)
    ensures AddVesting(s, a, amount).Ok? ==> AddVesting(s, a, amount).value.now == s.now
  {
    hide AdjustProxied;
    if AddVesting(s, a, amount).Ok? { AdjustKeepsNow(Paid(s, a, amount), a, OwnOnly(amount)); }
  }

  lemma {:induction false} DeclineKeepsNow(s: State, a: nat)
    requires Formed(s)
    ensures Decline(s, a).Ok? ==> Decline(s, a).value.now == s.now
  {
    hide AdjustProxied;
    if Decline(s, a).Ok? { AdjustKeepsNow(s, a, Negated(OwnDelta(s.accounts[a]))); }
  }

  /** Every stored count of shares lies between zero and all vesting shares, so 64 bits never overflow. */
  lemma {:induction false} NoShareOverflows(s: State, x: nat, k: nat)
    requires Inv(s) && x < |s.accounts| && k < MAX_PROXY_DEPTH
    ensures 0 <= s.accounts[x].proxied[k] <= s.totalVesting < SHARES
    ensures 0 <= s.accounts[x].vesting <= s.totalVesting
  {
    var par, w := Proxies(s.accounts), Vests(s.accounts);
    SumMonotone(w, Below(par, x, k + 1), Indices(w));
    SumMonotone(w, Below(par, x, 0), Indices(w));
    SumUpToSelf(par, w, x);
    assert s.accounts[x].proxied[k] == SharesBelow(s.accounts, x, k + 1);
  }
}
