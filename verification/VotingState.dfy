/**
 Accounts, witnesses and witness votes, with the operations of the chain that
 touch them, as functions on values.

 Accounts and witnesses are identified by their object id, which is their index:
 ids are handed out in sequence and these objects are never removed.
 */
module VotingState {
  import opened Wrappers
  import opened Widths
  import opened VirtualTime

  const MAX_PROXY_DEPTH: nat := 4
  const MAX_ACCOUNT_WITNESS_VOTES: nat := 30
  const SHARES: int := 0x8000_0000_0000_0000  // share_type is a checked 64-bit integer

  datatype Account = Account(
    vesting: int,
    proxy: Option<nat>,
    proxied: seq<int>,     // proxied_vsf_votes
    canVote: bool,
    votedFor: nat)         // witnesses_voted_for

  datatype State = State(
    accounts: seq<Account>,
    witnesses: seq<Witness>,
    votes: set<(nat, nat)>,  // (account, witness)
    totalVesting: int,
    now: nat)                // current_virtual_time

  datatype Error =
    | UnknownAccount | UnknownWitness
    | ProxyToSelf | ProxyUnchanged | VotingDeclined
    | ProxyLoop | ProxyChainTooLong
    | ProxySet | VoteMissing | VoteExists | TooManyVotes
    | VotesAboveTotal | Overflow | NotTheIndex

  /** Where a walk up the proxies ends: at an account that votes itself, or at the depth limit. */
  datatype Reached = Voting(root: nat, depth: nat) | BeyondLimit

  predicate Shaped(accounts: seq<Account>) {
    forall x :: 0 <= x < |accounts| ==>
      && |accounts[x].proxied| == MAX_PROXY_DEPTH
      && (accounts[x].proxy.Some? ==> accounts[x].proxy.value < |accounts|)
  }

  predicate Formed(s: State) {
    && Shaped(s.accounts)
    && (forall i :: 0 <= i < |s.witnesses| ==> s.witnesses[i].position < U128)
  }

  function Prefix(v: seq<int>, n: nat): (t: int)
    requires n <= |v|
  {
    if n == 0 then 0 else Prefix(v, n - 1) + v[n - 1]
  }

  /** `witness_vote_weight`: own vesting shares and everything proxied here. */
  function Weight(a: Account): (t: int) {
    a.vesting + Prefix(a.proxied, |a.proxied|)
  }

  function NewAccount(): (a: Account) {
    Account(0, None, [0, 0, 0, 0], true, 0)
  }

  /** What leaves or enters when an account moves: own shares, then the proxied ones by distance. */
  function OwnDelta(a: Account): (d: seq<int>)
    ensures |d| == |a.proxied| + 1
  {
    [a.vesting] + a.proxied
  }

  function Negated(d: seq<int>): (n: seq<int>)
    ensures |n| == |d|
    ensures forall i :: 0 <= i < |d| ==> n[i] == -d[i]
  {
    seq(|d|, i requires 0 <= i < |d| => -d[i])
  }

  /** `delta` added to the proxied votes, shifted up by `depth` places. */
  function AddShifted(proxied: seq<int>, delta: seq<int>, depth: nat): (r: seq<int>)
    requires |delta| >= |proxied|
    ensures |r| == |proxied|
    ensures forall j :: 0 <= j < |r| ==> r[j] == proxied[j] + if j >= depth then delta[j - depth] else 0
  {
    seq(|proxied|, j requires 0 <= j < |proxied| => proxied[j] + if j >= depth then delta[j - depth] else 0)
  }

  /** The accounts after `delta` has been passed up the proxies of `a`, as far as the depth limit. */
  function PushUp(accounts: seq<Account>, a: nat, delta: seq<int>, depth: nat): (r: seq<Account>)
    requires Shaped(accounts) && a < |accounts| && |delta| == MAX_PROXY_DEPTH + 1
    ensures |r| == |accounts| && Shaped(r)
    decreases MAX_PROXY_DEPTH - depth, |accounts|
  {
    if accounts[a].proxy.None? || depth >= MAX_PROXY_DEPTH then accounts
    else
      var p := accounts[a].proxy.value;
      var raised := accounts[p].(proxied := AddShifted(accounts[p].proxied, delta, depth));
      PushUp(accounts[p := raised], p, delta, depth + 1)
  }

  /** The account that votes for `a` and its distance, when that is within the depth limit. */
  function RootWithin(accounts: seq<Account>, a: nat, depth: nat): (r: Reached)
    requires Shaped(accounts) && a < |accounts| && depth <= MAX_PROXY_DEPTH
    ensures r.Voting? ==> r.root < |accounts| && depth <= r.depth <= MAX_PROXY_DEPTH
    decreases MAX_PROXY_DEPTH - depth, |accounts|
  {
    if accounts[a].proxy.None? then Voting(a, depth)
    else if depth >= MAX_PROXY_DEPTH then BeyondLimit
    else RootWithin(accounts, accounts[a].proxy.value, depth + 1)
  }

  /** Every witness that account `a` votes for gets `delta`; refused if any of them refuses. */
  function AdjustWitnessVotes(s: State, a: nat, delta: int): (r: Option<State>)
    requires Formed(s)
  {
    if forall i: nat :: i < |s.witnesses| && (a, i) in s.votes ==>
         AdjustVote(s.witnesses[i], delta, s.now, s.totalVesting).Some?
    then Some(s.(witnesses := seq(|s.witnesses|, i requires 0 <= i < |s.witnesses| =>
                   if (a, i) in s.votes then
                     var w := AdjustVote(s.witnesses[i], delta, s.now, s.totalVesting);
                     if w.Some? then w.value else s.witnesses[i]
                   else s.witnesses[i])))
    else None
  }

  /** What arrives at the end of the walk is passed on to the witnesses voted for there. */
  function PassOn(s: State, reached: Reached, delta: seq<int>): (r: Option<State>)
    requires Formed(s) && |delta| == MAX_PROXY_DEPTH + 1 && (reached.Voting? ==> reached.depth <= MAX_PROXY_DEPTH)
  {
    match reached
    case BeyondLimit => Some(s)
    case Voting(root, depth) => AdjustWitnessVotes(s, root, Prefix(delta, MAX_PROXY_DEPTH + 1 - depth))
  }

  /** `adjust_proxied_witness_votes` from depth zero. */
  function AdjustProxied(s: State, a: nat, delta: seq<int>): (r: Option<State>)
    requires Formed(s) && a < |s.accounts| && |delta| == MAX_PROXY_DEPTH + 1
  {
    PassOn(s.(accounts := PushUp(s.accounts, a, delta, 0)), RootWithin(s.accounts, a, 0), delta)
  }

  function WithoutVoter(votes: set<(nat, nat)>, a: nat): (r: set<(nat, nat)>) {
    set v | v in votes && v.0 != a
  }

  /** `clear_witness_votes`: all records of `a` removed. */
  function ClearVotes(s: State, a: nat): (r: State)
    requires a < |s.accounts|
  {
    s.(votes := WithoutVoter(s.votes, a),
       accounts := s.accounts[a := s.accounts[a].(votedFor := 0)])
  }

  function WithProxy(s: State, a: nat, proxy: Option<nat>): (r: State)
    requires a < |s.accounts|
  {
    s.(accounts := s.accounts[a := s.accounts[a].(proxy := proxy)])
  }

  /** The walk that looks for a proxy loop above `current`; `chain` is what has been met. */
  function CheckChain(accounts: seq<Account>, current: nat, chain: set<nat>): (r: Option<Error>)
    requires Shaped(accounts) && current < |accounts|
    ensures r in {None, Some(ProxyLoop), Some(ProxyChainTooLong)}
    decreases if |chain| > MAX_PROXY_DEPTH then 0 else MAX_PROXY_DEPTH + 1 - |chain|
  {
    if accounts[current].proxy.None? then None
    else
      var next := accounts[current].proxy.value;
      if next in chain then Some(ProxyLoop)
      else if |chain + {next}| > MAX_PROXY_DEPTH then Some(ProxyChainTooLong)
      else CheckChain(accounts, next, chain + {next})
  }

  /** `account_witness_proxy_operation`: set a proxy, or clear it when `proxy` is None. */
  function SetProxy(s: State, a: nat, proxy: Option<nat>): (r: Result<State, Error>)
    requires Formed(s)
  {
    if proxy == Some(a) then Err(ProxyToSelf)
    else if a >= |s.accounts| then Err(UnknownAccount)
    else if s.accounts[a].proxy == proxy then Err(ProxyUnchanged)
    else if !s.accounts[a].canVote then Err(VotingDeclined)
    else
      var removed := AdjustProxied(s, a, Negated(OwnDelta(s.accounts[a])));
      if removed.None? then Err(VotesAboveTotal)
      else if proxy.None? then Ok(WithProxy(removed.value, a, None))
      else if proxy.value >= |s.accounts| then Err(UnknownAccount)
      else
        var looped := CheckChain(removed.value.accounts, proxy.value, {a, proxy.value});
        if looped.Some? then Err(looped.value)
        else
          var moved := WithProxy(ClearVotes(removed.value, a), a, proxy);
          var added := AdjustProxied(moved, a, OwnDelta(s.accounts[a]));
          if added.None? then Err(VotesAboveTotal) else Ok(added.value)
  }

  /** One round of `process_decline_voting_rights`. */
  function Decline(s: State, a: nat): (r: Result<State, Error>)
    requires Formed(s)
  {
    if a >= |s.accounts| then Err(UnknownAccount)
    else
      var removed := AdjustProxied(s, a, Negated(OwnDelta(s.accounts[a])));
      if removed.None? then Err(VotesAboveTotal)
      else
        var cleared := ClearVotes(removed.value, a);
        Ok(cleared.(accounts := cleared.accounts[a := cleared.accounts[a].(canVote := false, proxy := None)]))
  }

  function Recorded(s: State, a: nat, w: nat, adjusted: Witness, votes: set<(nat, nat)>, count: nat): (r: State)
    requires a < |s.accounts| && w < |s.witnesses|
  {
    s.(votes := votes, witnesses := s.witnesses[w := adjusted],
       accounts := s.accounts[a := s.accounts[a].(votedFor := count)])
  }

  /** `account_witness_vote_operation`. */
  function VoteWitness(s: State, a: nat, w: nat, approve: bool): (r: Result<State, Error>)
    requires Formed(s)
  {
    if a >= |s.accounts| then Err(UnknownAccount)
    else if s.accounts[a].proxy.Some? then Err(ProxySet)
    else if approve && !s.accounts[a].canVote then Err(VotingDeclined)
    else if w >= |s.witnesses| then Err(UnknownWitness)
    else
      var voter := s.accounts[a];
      if (a, w) !in s.votes then
        if !approve then Err(VoteMissing)
        else if voter.votedFor >= MAX_ACCOUNT_WITNESS_VOTES then Err(TooManyVotes)
        else
          match AdjustVote(s.witnesses[w], Weight(voter), s.now, s.totalVesting)
          case None => Err(VotesAboveTotal)
          case Some(adjusted) =>
            Ok(Recorded(s, a, w, adjusted, s.votes + {(a, w)}, voter.votedFor + 1))
      else if approve then Err(VoteExists)
      else
        match AdjustVote(s.witnesses[w], -Weight(voter), s.now, s.totalVesting)
        case None => Err(VotesAboveTotal)
        case Some(adjusted) =>
          Ok(Recorded(s, a, w, adjusted, s.votes - {(a, w)},
                      if voter.votedFor == 0 then 0xFFFF else voter.votedFor - 1))
  }

  /** The single-number form of the delta: only own shares change. */
  function OwnOnly(amount: int): (d: seq<int>) {
    [amount, 0, 0, 0, 0]
  }

  function Paid(s: State, a: nat, amount: int): (r: State)
    requires a < |s.accounts|
  {
    s.(accounts := s.accounts[a := s.accounts[a].(vesting := s.accounts[a].vesting + amount)],
       totalVesting := s.totalVesting + amount)
  }

  /** `create_vesting` into vesting shares, and the vesting part of a reward claim. */
  function AddVesting(s: State, a: nat, amount: nat): (r: Result<State, Error>)
    requires Formed(s)
  {
    if a >= |s.accounts| then Err(UnknownAccount)
    else if s.totalVesting + amount >= SHARES then Err(Overflow)
    else
      var passed := AdjustProxied(Paid(s, a, amount), a, OwnOnly(amount));
      if passed.None? then Err(VotesAboveTotal) else Ok(passed.value)
  }

  /** Vesting shares taken away without telling any proxy or witness, as the null-account sweep and the initial burn do. */
  function BurnVesting(s: State, a: nat, amount: nat): (r: State)
    requires a < |s.accounts|
  {
    Paid(s, a, 0 - amount)
  }

  function AddAccount(s: State): (r: State) {
    s.(accounts := s.accounts + [NewAccount()])
  }

  function AddWitness(s: State, hasKey: bool): (r: State) {
    s.(witnesses := s.witnesses + [NewWitness(hasKey)])
  }

  /** A new round: the first `n` witnesses in the order of scheduled time start their next lap. */
  function Reschedule(s: State, order: seq<nat>, n: nat): (r: Result<State, Error>) {
    if TimeOrder(s.witnesses, order) && n <= |order| && NonNegative(s.witnesses) then
      var (witnesses, now) := Rescheduled(s.witnesses, order, n, s.now);
      Ok(s.(witnesses := witnesses, now := now))
    else Err(NotTheIndex)
  }
}
