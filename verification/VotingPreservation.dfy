/**
 Every voting operation keeps the voting invariant, and none of them can trip
 the assertion that a witness has no more votes than there are vesting shares.
 */
module VotingPreservation {
  import opened Wrappers
  import opened WeightedSums
  import opened ProxyForest
  import opened VotingState
  import opened VotingInvariant

  // ------------------------------------------------------- the walk up the proxies

  lemma {:induction false} PushUpFrame(accounts: seq<Account>, a: nat, delta: seq<int>, depth: nat)
    requires Shaped(accounts) && a < |accounts| && |delta| == MAX_PROXY_DEPTH + 1
    ensures var r := PushUp(accounts, a, delta, depth);
            && Proxies(r) == Proxies(accounts) && Vests(r) == Vests(accounts)
            && forall x :: 0 <= x < |r| ==> r[x] == accounts[x].(proxied := r[x].proxied)
    decreases MAX_PROXY_DEPTH - depth
  {
    if accounts[a].proxy.Some? && depth < MAX_PROXY_DEPTH {
      var p := accounts[a].proxy.value;
      var raised := accounts[p := accounts[p].(proxied := AddShifted(accounts[p].proxied, delta, depth))];
      PushUpFrame(raised, p, delta, depth + 1);
      assert Proxies(raised) == Proxies(accounts);
      assert Vests(raised) == Vests(accounts);
    }
  }

  /** An account that is not met on the walk keeps its proxied votes. */
  lemma {:induction false} PushUpOther(accounts: seq<Account>, a: nat, delta: seq<int>, depth: nat, b: nat)
    requires Shaped(accounts) && a < |accounts| && b < |accounts| && |delta| == MAX_PROXY_DEPTH + 1
    requires forall m: nat :: 0 < m && depth + m <= MAX_PROXY_DEPTH ==> Ancestor(Proxies(accounts), a, m) != Some(b)
    ensures PushUp(accounts, a, delta, depth)[b] == accounts[b]
    decreases MAX_PROXY_DEPTH - depth
  {
    if accounts[a].proxy.Some? && depth < MAX_PROXY_DEPTH {
      var p := accounts[a].proxy.value;
      var par := Proxies(accounts);
      var raised := accounts[p := accounts[p].(proxied := AddShifted(accounts[p].proxied, delta, depth))];
      assert Proxies(raised) == par;
      assert Ancestor(par, a, 1) == Ancestor(par, p, 0);
      forall m: nat | 0 < m && depth + 1 + m <= MAX_PROXY_DEPTH ensures Ancestor(par, p, m) != Some(b) {
        assert Ancestor(par, a, m + 1) == Ancestor(par, p, m);
      }
      PushUpOther(raised, p, delta, depth + 1, b);
    }
  }

  /** The ancestor at distance `m` gets the delta shifted by its distance, once. */
  lemma {:induction false} PushUpAt(accounts: seq<Account>, a: nat, delta: seq<int>, depth: nat, b: nat, m: nat)
    requires Shaped(accounts) && a < |accounts| && b < |accounts| && |delta| == MAX_PROXY_DEPTH + 1
    requires Acyclic(Proxies(accounts))
    requires 0 < m && depth + m <= MAX_PROXY_DEPTH && Ancestor(Proxies(accounts), a, m) == Some(b)
    ensures PushUp(accounts, a, delta, depth)[b].proxied == AddShifted(accounts[b].proxied, delta, depth + m - 1)
    decreases m
  {
    var p := accounts[a].proxy.value;
    var par := Proxies(accounts);
    var raised := accounts[p := accounts[p].(proxied := AddShifted(accounts[p].proxied, delta, depth))];
    assert Proxies(raised) == par;
    assert Ancestor(par, p, m - 1) == Some(b);
    assert Ancestor(par, a, 1) == Ancestor(par, p, 0);
    if m == 1 {
      forall i: nat | 0 < i && depth + 1 + i <= MAX_PROXY_DEPTH ensures Ancestor(par, p, i) != Some(b) {
        NeverTwice(par, p, b, 0, i);
      }
      PushUpOther(raised, p, delta, depth + 1, b);
    } else {
      NeverTwice(par, a, p, 1, m - 1);
      PushUpAt(raised, p, delta, depth + 1, b, m - 1);
    }
  }

  lemma {:induction false} RootFound(accounts: seq<Account>, a: nat, depth: nat)
    requires Shaped(accounts) && a < |accounts| && depth <= MAX_PROXY_DEPTH
    ensures var r := RootWithin(accounts, a, depth);
            if r.Voting? then
              Ancestor(Proxies(accounts), a, r.depth - depth) == Some(r.root) && accounts[r.root].proxy.None?
            else
              forall m: nat :: depth + m <= MAX_PROXY_DEPTH ==>
                Ancestor(Proxies(accounts), a, m).Some? && accounts[Ancestor(Proxies(accounts), a, m).value].proxy.Some?
    decreases MAX_PROXY_DEPTH - depth
  {
    var par := Proxies(accounts);
    if accounts[a].proxy.Some? && depth < MAX_PROXY_DEPTH {
      var p := accounts[a].proxy.value;
      RootFound(accounts, p, depth + 1);
      if RootWithin(accounts, a, depth).BeyondLimit? {
        forall m: nat | depth + m <= MAX_PROXY_DEPTH
          ensures Ancestor(par, a, m).Some? && accounts[Ancestor(par, a, m).value].proxy.Some?
        {
          if m > 0 { assert Ancestor(par, a, m) == Ancestor(par, p, m - 1); }
        }
      }
    }
  }

  /** What a walk from depth zero adds to the weight of an unproxied account. */
  ghost function WeightGain(accounts: seq<Account>, a: nat, delta: seq<int>, x: nat): (t: int)
    requires Shaped(accounts) && a < |accounts| && |delta| == MAX_PROXY_DEPTH + 1
  {
    var r := RootWithin(accounts, a, 0);
    if r.Voting? && r.root == x && 0 < r.depth then Prefix(delta, MAX_PROXY_DEPTH + 1 - r.depth) else 0
  }

  lemma WeightAfterPush(accounts: seq<Account>, a: nat, delta: seq<int>, x: nat)
    requires Shaped(accounts) && a < |accounts| && |delta| == MAX_PROXY_DEPTH + 1
    requires Acyclic(Proxies(accounts)) && x < |accounts| && accounts[x].proxy.None?
    ensures Weight(PushUp(accounts, a, delta, 0)[x]) == Weight(accounts[x]) + WeightGain(accounts, a, delta, x)
  {
    var par := Proxies(accounts);
    RootFound(accounts, a, 0);
    PushUpFrame(accounts, a, delta, 0);
    if m: nat :| 0 < m <= MAX_PROXY_DEPTH && Ancestor(par, a, m) == Some(x) {
      PushUpAt(accounts, a, delta, 0, x, m);
      PrefixShifted(accounts[x].proxied, delta, m - 1, MAX_PROXY_DEPTH);
      RootAt(accounts, a, 0, x, m);
    } else {
      PushUpOther(accounts, a, delta, 0, x);
    }
  }

  /** An unproxied ancestor within the depth limit is the root that the walk finds. */
  lemma {:induction false} RootAt(accounts: seq<Account>, a: nat, depth: nat, x: nat, m: nat)
    requires Shaped(accounts) && a < |accounts| && x < |accounts| && accounts[x].proxy.None?
    requires depth + m <= MAX_PROXY_DEPTH && Ancestor(Proxies(accounts), a, m) == Some(x)
    ensures RootWithin(accounts, a, depth) == Voting(x, depth + m)
    decreases m
  {
    if m != 0 {
      RootAt(accounts, accounts[a].proxy.value, depth + 1, x, m - 1);
    }
  }

  /** The summed weight of unproxied voters moves by the gain of the root, if it is one of them. */
  lemma TallyAfterPush(accounts: seq<Account>, a: nat, delta: seq<int>, voters: set<nat>)
    requires Shaped(accounts) && a < |accounts| && |delta| == MAX_PROXY_DEPTH + 1
    requires Acyclic(Proxies(accounts))
    requires forall x :: x in voters ==> x < |accounts| && accounts[x].proxy.None?
    ensures var r := RootWithin(accounts, a, 0);
            SumOver(Weights(PushUp(accounts, a, delta, 0)), voters) ==
            SumOver(Weights(accounts), voters)
            + if r.Voting? && r.root in voters then WeightGain(accounts, a, delta, r.root) else 0
  {
    var pushed := PushUp(accounts, a, delta, 0);
    forall x | x in voters
      ensures Weights(pushed)[x] == Weights(accounts)[x] + WeightGain(accounts, a, delta, x)
    {
      WeightAfterPush(accounts, a, delta, x);
    }
    var r := RootWithin(accounts, a, 0);
    if r.Voting? {
      var expected := Weights(accounts)[r.root := Weights(accounts)[r.root] + WeightGain(accounts, a, delta, r.root)];
      SumUpdate(Weights(accounts), r.root, expected[r.root], voters);
      SumAgrees(Weights(pushed), expected, voters, voters);
    } else {
      SumAgrees(Weights(pushed), Weights(accounts), voters, voters);
    }
  }

  // ------------------------------------------------------- accounts

  /** Taking the shares of `a` away from all its proxies and cutting `a` loose. */
  lemma DetachAccounts(accounts: seq<Account>, a: nat)
    requires AccountsOk(accounts) && a < |accounts|
    ensures var pushed := PushUp(accounts, a, Negated(OwnDelta(accounts[a])), 0);
            && pushed[a] == accounts[a]
            && AccountsOk(pushed[a := pushed[a].(proxy := None)])
  {
    hide PushUp, SumOver;
    var par := Proxies(accounts);
    var own := OwnDelta(accounts[a]);
    var delta := Negated(own);
    var pushed := PushUp(accounts, a, delta, 0);
    PushUpFrame(accounts, a, delta, 0);
    forall m: nat | 0 < m && 0 + m <= MAX_PROXY_DEPTH ensures Ancestor(par, a, m) != Some(a) {
      NeverTwice(par, a, a, 0, m);
    }
    PushUpOther(accounts, a, delta, 0, a);
    var detached := pushed[a := pushed[a].(proxy := None)];
    var cut := par[a := None];
    assert Proxies(detached) == cut;
    assert Vests(detached) == Vests(accounts);
    CutAcyclic(par, a);
    forall b: nat, k: nat | b < |accounts| && k < MAX_PROXY_DEPTH
      ensures detached[b].proxied[k] == SharesBelow(detached, b, k + 1)
    {
      DetachAt(accounts, a, b, k);
      assert detached[b].proxied == pushed[b].proxied;
    }
  }

  /** The proxied votes after a detach are the shares below after the cut. */
  lemma DetachAt(accounts: seq<Account>, a: nat, b: nat, k: nat)
    requires AccountsOk(accounts) && a < |accounts| && b < |accounts| && k < MAX_PROXY_DEPTH
    ensures InRange(Proxies(accounts)[a := None])
    ensures PushUp(accounts, a, Negated(OwnDelta(accounts[a])), 0)[b].proxied[k] ==
            SumOver(Vests(accounts), Below(Proxies(accounts)[a := None], b, k + 1))
  {
    hide PushUp, Ancestor, SumOver;
    var par, w := Proxies(accounts), Vests(accounts);
    var delta := Negated(OwnDelta(accounts[a]));
    assert accounts[b].proxied[k] == SharesBelow(accounts, b, k + 1);
    if m: nat :| 0 < m <= MAX_PROXY_DEPTH && Ancestor(par, a, m) == Some(b) {
      PushUpAt(accounts, a, delta, 0, b, m);
      CutBelowAncestor(par, a, b, m, k + 1);
      if m <= k + 1 {
        OwnDeltaMeaning(accounts, a, k + 1 - m);
        SumMinus(w, Below(par, b, k + 1), Below(par, a, k + 1 - m));
      } else {
        assert Below(par, b, k + 1) - {} == Below(par, b, k + 1);
      }
    } else {
      PushUpOther(accounts, a, delta, 0, b);
      CutBelowOther(par, a, b, k + 1);
    }
  }

  lemma OwnDeltaMeaning(accounts: seq<Account>, a: nat, i: nat)
    requires AccountsOk(accounts) && a < |accounts| && i <= MAX_PROXY_DEPTH
    ensures OwnDelta(accounts[a])[i] == SharesBelow(accounts, a, i)
  {
    if i == 0 {
      SumUpToSelf(Proxies(accounts), Vests(accounts), a);
    } else {
      assert accounts[a].proxied[i - 1] == SharesBelow(accounts, a, i - 1 + 1);
    }
  }

  /** Linking an unproxied `a` to `p` and giving its shares to all its new proxies. */
  lemma AttachAccounts(accounts: seq<Account>, a: nat, p: nat)
    requires AccountsOk(accounts) && a < |accounts| && p < |accounts| && accounts[a].proxy.None?
    requires forall j: nat :: Ancestor(Proxies(accounts), p, j) != Some(a)
    ensures var linked := accounts[a := accounts[a].(proxy := Some(p))];
            && Shaped(linked) && Acyclic(Proxies(linked))
            && AccountsOk(PushUp(linked, a, OwnDelta(accounts[a]), 0))
  {
    hide PushUp, Ancestor, SumOver;
    var par, w := Proxies(accounts), Vests(accounts);
    var own := OwnDelta(accounts[a]);
    var linked := accounts[a := accounts[a].(proxy := Some(p))];
    assert Proxies(linked) == par[a := Some(p)];
    assert Vests(linked) == w;
    LinkAcyclic(par, a, p);
    var pushed := PushUp(linked, a, own, 0);
    PushUpFrame(linked, a, own, 0);
    forall b: nat, k: nat | b < |accounts| && k < MAX_PROXY_DEPTH
      ensures pushed[b].proxied[k] == SharesBelow(pushed, b, k + 1)
    {
      AttachAt(accounts, linked, a, p, b, k);
    }
  }

  lemma AttachAt(accounts: seq<Account>, linked: seq<Account>, a: nat, p: nat, b: nat, k: nat)
    requires AccountsOk(accounts) && a < |accounts| && b < |accounts| && p < |accounts| && k < MAX_PROXY_DEPTH
    requires accounts[a].proxy.None? && linked == accounts[a := accounts[a].(proxy := Some(p))]
    requires Shaped(linked) && Acyclic(Proxies(linked))
    ensures PushUp(linked, a, OwnDelta(accounts[a]), 0)[b].proxied[k] ==
            SumOver(Vests(accounts), Below(Proxies(linked), b, k + 1))
  {
    hide PushUp, Ancestor, SumOver;
    var par, w, linkedPar := Proxies(accounts), Vests(accounts), Proxies(linked);
    var own := OwnDelta(accounts[a]);
    assert linkedPar[a := None] == par;
    assert linked[b].proxied[k] == SharesBelow(accounts, b, k + 1);
    if m: nat :| 0 < m <= MAX_PROXY_DEPTH && Ancestor(linkedPar, a, m) == Some(b) {
      PushUpAt(linked, a, own, 0, b, m);
      LinkedShares(accounts, linkedPar, a, b, m, k + 1);
    } else {
      PushUpOther(linked, a, own, 0, b);
      CutBelowOther(linkedPar, a, b, k + 1);
    }
  }

  /** What an account at distance `m` above `a` gains when `a` is linked below it. */
  lemma LinkedShares(accounts: seq<Account>, linkedPar: Parents, a: nat, b: nat, m: nat, k: nat)
    requires AccountsOk(accounts) && a < |accounts| && k <= MAX_PROXY_DEPTH
    requires InRange(linkedPar) && Acyclic(linkedPar) && |linkedPar| == |accounts|
    requires Proxies(accounts) == linkedPar[a := None]
    requires 0 < m && Ancestor(linkedPar, a, m) == Some(b)
    ensures SumOver(Vests(accounts), Below(linkedPar, b, k)) ==
            SharesBelow(accounts, b, k) + if m <= k then OwnDelta(accounts[a])[k - m] else 0
  {
    CutBelowAncestor(linkedPar, a, b, m, k);
    if m <= k {
      OwnDeltaMeaning(accounts, a, k - m);
      BelowOwnUnchanged(linkedPar, a, k - m);
      SumMinus(Vests(accounts), Below(linkedPar, b, k), Below(linkedPar, a, k - m));
    } else {
      assert Below(linkedPar, b, k) - {} == Below(linkedPar, b, k);
    }
  }

  /** Cutting `a` loose does not change what is below `a` itself. */
  lemma BelowOwnUnchanged(par: Parents, a: nat, k: nat)
    requires InRange(par) && Acyclic(par) && a < |par|
    ensures InRange(par[a := None]) && Below(par[a := None], a, k) == Below(par, a, k)
  {
    forall m: nat | 0 < m <= k ensures Ancestor(par, a, m) != Some(a) {
      NeverTwice(par, a, a, 0, m);
    }
    CutBelowOther(par, a, a, k);
  }

  /** New vesting shares of `a` reach each proxy at its distance. */
  lemma GrowAccounts(accounts: seq<Account>, a: nat, amount: nat)
    requires AccountsOk(accounts) && a < |accounts|
    ensures var grown := accounts[a := accounts[a].(vesting := accounts[a].vesting + amount)];
            && Shaped(grown) && Proxies(grown) == Proxies(accounts)
            && AccountsOk(PushUp(grown, a, OwnOnly(amount), 0))
  {
    hide PushUp, Ancestor, SumOver;
    var grown := accounts[a := accounts[a].(vesting := accounts[a].vesting + amount)];
    assert Proxies(grown) == Proxies(accounts);
    var pushed := PushUp(grown, a, OwnOnly(amount), 0);
    PushUpFrame(grown, a, OwnOnly(amount), 0);
    forall b: nat, k: nat | b < |accounts| && k < MAX_PROXY_DEPTH
      ensures pushed[b].proxied[k] == SharesBelow(pushed, b, k + 1)
    {
      GrowAt(accounts, grown, a, amount, b, k);
    }
  }

  lemma GrowAt(accounts: seq<Account>, grown: seq<Account>, a: nat, amount: nat, b: nat, k: nat)
    requires AccountsOk(accounts) && a < |accounts| && b < |accounts| && k < MAX_PROXY_DEPTH
    requires grown == accounts[a := accounts[a].(vesting := accounts[a].vesting + amount)]
    requires Shaped(grown) && Proxies(grown) == Proxies(accounts)
    ensures PushUp(grown, a, OwnOnly(amount), 0)[b].proxied[k] ==
            SumOver(Vests(grown), Below(Proxies(grown), b, k + 1))
  {
    hide PushUp, Ancestor, SumOver;
    var par := Proxies(accounts);
    var delta := OwnOnly(amount);
    assert grown[b].proxied[k] == SharesBelow(accounts, b, k + 1);
    assert Vests(grown) == Vests(accounts)[a := accounts[a].vesting + amount];
    SumUpdate(Vests(accounts), a, accounts[a].vesting + amount, Below(par, b, k + 1));
    if a in Below(par, b, k + 1) {
      PushUpAt(grown, a, delta, 0, b, k + 1);
    } else if m: nat :| 0 < m <= MAX_PROXY_DEPTH && Ancestor(par, a, m) == Some(b) {
      assert m != k + 1;
      PushUpAt(grown, a, delta, 0, b, m);
    } else {
      PushUpOther(grown, a, delta, 0, b);
    }
  }
}
