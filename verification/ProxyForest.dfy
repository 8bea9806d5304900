/**
 The proxy relation between accounts, seen as a graph: every account names at
 most one proxy.  Chains of proxies, the accounts at an exact distance below a
 given one, and what adding or removing one edge does to them.
 */
module ProxyForest {
  import opened Wrappers
  import opened WeightedSums

  type Parents = seq<Option<nat>>

  ghost predicate InRange(par: Parents) {
    forall x :: 0 <= x < |par| && par[x].Some? ==> par[x].value < |par|
  }

  /** The account reached from `x` by following exactly `k` proxies. */
  ghost function Ancestor(par: Parents, x: nat, k: nat): (r: Option<nat>)
    requires InRange(par) && x < |par|
    ensures r.Some? ==> r.value < |par|
    decreases k, |par|
  {
    if k == 0 then Some(x)
    else if par[x].None? then None
    else Ancestor(par, par[x].value, k - 1)
  }

  ghost predicate Acyclic(par: Parents)
    requires InRange(par)
  {
    forall x: nat, k: nat :: x < |par| && 0 < k ==> Ancestor(par, x, k) != Some(x)
  }

  /** The accounts whose proxy distance to `a` is exactly `k`. */
  ghost function Below(par: Parents, a: nat, k: nat): (s: set<nat>)
    requires InRange(par)
  {
    set x: nat | x < |par| && Ancestor(par, x, k) == Some(a)
  }

  lemma {:induction false} AncestorAdd(par: Parents, x: nat, i: nat, j: nat)
    requires InRange(par) && x < |par|
    ensures Ancestor(par, x, i).Some? ==> Ancestor(par, x, i + j) == Ancestor(par, Ancestor(par, x, i).value, j)
    ensures Ancestor(par, x, i).None? ==> Ancestor(par, x, i + j).None?
    decreases i
  {
    if i != 0 && par[x].Some? {
      AncestorAdd(par, par[x].value, i - 1, j);
    }
  }

  /** In an acyclic relation a chain does not come back to an account it has met. */
  lemma NeverTwice(par: Parents, x: nat, a: nat, i: nat, d: nat)
    requires InRange(par) && Acyclic(par) && x < |par|
    requires Ancestor(par, x, i) == Some(a) && 0 < d
    ensures Ancestor(par, x, i + d) != Some(a)
  {
    AncestorAdd(par, x, i, d);
  }

  lemma DistanceUnique(par: Parents, x: nat, a: nat, i: nat, j: nat)
    requires InRange(par) && Acyclic(par) && x < |par|
    requires Ancestor(par, x, i) == Some(a) && Ancestor(par, x, j) == Some(a)
    ensures i == j
  {
    var lo, hi := if i <= j then i else j, if i <= j then j else i;
    if lo < hi {
      NeverTwice(par, x, a, lo, hi - lo);
    }
  }

  /** Where the chain of `x` does not leave through `a`, cutting `a` loose changes nothing. */
  lemma {:induction false} CutAncestor(par: Parents, a: nat, x: nat, k: nat)
    requires InRange(par) && a < |par| && x < |par|
    ensures InRange(par[a := None])
    ensures Ancestor(par[a := None], x, k).Some? ==>
              Ancestor(par[a := None], x, k) == Ancestor(par, x, k)
              && forall j: nat :: j < k ==> Ancestor(par, x, j) != Some(a)
    ensures Ancestor(par, x, k).Some? && Ancestor(par[a := None], x, k).None? ==>
              exists j: nat :: j < k && Ancestor(par, x, j) == Some(a)
    decreases k
  {
    if k != 0 && par[x].Some? {
      if x == a {
        assert Ancestor(par, x, 0) == Some(a);
      } else {
        var y := par[x].value;
        CutAncestor(par, a, y, k - 1);
        if Ancestor(par[a := None], x, k).Some? {
          forall j: nat | j < k ensures Ancestor(par, x, j) != Some(a) {
            if j > 0 { assert Ancestor(par, x, j) == Ancestor(par, y, j - 1); }
          }
        } else if Ancestor(par, x, k).Some? {
          var j: nat :| j < k - 1 && Ancestor(par, y, j) == Some(a);
          assert Ancestor(par, x, j + 1) == Some(a);
        }
      }
    }
  }

  lemma CutAcyclic(par: Parents, a: nat)
    requires InRange(par) && Acyclic(par) && a < |par|
    ensures InRange(par[a := None]) && Acyclic(par[a := None])
  {
    var cut := par[a := None];
    assert InRange(cut);
    forall x: nat, k: nat | x < |par| && 0 < k ensures Ancestor(cut, x, k) != Some(x) {
      CutAncestor(par, a, x, k);
    }
  }

  /**
   Cutting `a` loose: an account `b` at distance `m` above `a` loses exactly the
   accounts that reached it through `a`.
   */
  lemma CutBelowAncestor(par: Parents, a: nat, b: nat, m: nat, k: nat)
    requires InRange(par) && Acyclic(par) && a < |par|
    requires 0 < m && Ancestor(par, a, m) == Some(b)
    ensures InRange(par[a := None])
    ensures m <= k ==> Below(par, a, k - m) <= Below(par, b, k)
    ensures Below(par[a := None], b, k) ==
            Below(par, b, k) - (if m <= k then Below(par, a, k - m) else {})
  {
    var cut := par[a := None];
    assert InRange(cut);
    forall x: nat | x < |par|
      ensures m <= k && x in Below(par, a, k - m) ==> x in Below(par, b, k) && x !in Below(cut, b, k)
      ensures x in Below(cut, b, k) ==> x in Below(par, b, k)
      ensures x in Below(par, b, k) && x !in Below(cut, b, k) ==> m <= k && x in Below(par, a, k - m)
    {
      CutAncestor(par, a, x, k);
      if m <= k && Ancestor(par, x, k - m) == Some(a) {
        AncestorAdd(par, x, k - m, m);
      }
      if Ancestor(par, x, k) == Some(b) && Ancestor(cut, x, k).None? {
        var j: nat :| j < k && Ancestor(par, x, j) == Some(a);
        AncestorAdd(par, x, j, k - j);
        DistanceUnique(par, a, b, m, k - j);
      }
    }
  }

  /** Cutting `a` loose takes nothing from an account that is no ancestor of `a` within `k`. */
  lemma CutBelowOther(par: Parents, a: nat, b: nat, k: nat)
    requires InRange(par) && a < |par|
    requires forall m: nat :: 0 < m <= k ==> Ancestor(par, a, m) != Some(b)
    ensures InRange(par[a := None])
    ensures Below(par[a := None], b, k) == Below(par, b, k)
  {
    var cut := par[a := None];
    assert InRange(cut);
    forall x: nat | x < |par| ensures x in Below(cut, b, k) <==> x in Below(par, b, k) {
      CutAncestor(par, a, x, k);
      if Ancestor(par, x, k) == Some(b) && Ancestor(cut, x, k).None? {
        var j: nat :| j < k && Ancestor(par, x, j) == Some(a);
        AncestorAdd(par, x, j, k - j);
      }
    }
  }

  /** A chain that reaches `a` after linking `a` already reached it before. */
  lemma {:induction false} LinkReaches(par: Parents, a: nat, p: nat, x: nat, i: nat)
    requires InRange(par) && a < |par| && p < |par| && x < |par|
    requires InRange(par[a := Some(p)]) && Ancestor(par[a := Some(p)], x, i) == Some(a)
    ensures exists j: nat :: Ancestor(par, x, j) == Some(a)
    decreases i
  {
    if x == a {
      assert Ancestor(par, x, 0) == Some(a);
    } else {
      var y := par[x].value;
      LinkReaches(par, a, p, y, i - 1);
      var j: nat :| Ancestor(par, y, j) == Some(a);
      assert Ancestor(par, x, j + 1) == Some(a);
    }
  }

  lemma {:induction false} LinkUnchanged(par: Parents, linked: Parents, a: nat, p: nat, x: nat, k: nat)
    requires InRange(par) && a < |par| && p < |par| && x < |par|
    requires linked == par[a := Some(p)] && InRange(linked)
    requires forall j: nat :: j < k ==> Ancestor(linked, x, j) != Some(a)
    ensures Ancestor(linked, x, k) == Ancestor(par, x, k)
    decreases k
  {
    if k != 0 {
      assert Ancestor(linked, x, 0) == Some(x);
      if par[x].Some? {
        var y := par[x].value;
        forall j: nat | j < k - 1 ensures Ancestor(linked, y, j) != Some(a) {
          assert Ancestor(linked, x, j + 1) == Ancestor(linked, y, j);
        }
        LinkUnchanged(par, linked, a, p, y, k - 1);
      }
    }
  }

  /** Linking `a` to a proxy whose own chain avoids `a` creates no loop. */
  lemma LinkAcyclic(par: Parents, a: nat, p: nat)
    requires InRange(par) && Acyclic(par) && a < |par| && p < |par|
    requires forall j: nat :: Ancestor(par, p, j) != Some(a)
    ensures InRange(par[a := Some(p)]) && Acyclic(par[a := Some(p)])
  {
    var linked := par[a := Some(p)];
    assert InRange(linked);
    forall x: nat, k: nat | x < |par| && 0 < k ensures Ancestor(linked, x, k) != Some(x) {
      if Ancestor(linked, x, k) == Some(x) {
        if j: nat :| j < k && Ancestor(linked, x, j) == Some(a) {
          // the loop through x also runs through a, hence from p back to a
          AncestorAdd(linked, x, j, k - j);
          AncestorAdd(linked, a, k - j, j);
          assert Ancestor(linked, a, k) == Some(a);
          assert Ancestor(linked, p, k - 1) == Some(a);
          LinkReaches(par, a, p, p, k - 1);
          assert false;
        } else {
          LinkUnchanged(par, linked, a, p, x, k);
        }
      }
    }
  }

  /** The accounts whose `k`-step ancestor is one of the first `n` accounts and lies in `sel`. */
  ghost function Landing(par: Parents, k: nat, n: nat, sel: set<nat>): (s: set<nat>)
    requires InRange(par)
  {
    set y: nat | y < |par| && Ancestor(par, y, k).Some?
                 && Ancestor(par, y, k).value < n && Ancestor(par, y, k).value in sel
  }

  /** Summing fibre sums over the targets in `sel` sums the weights of everything that lands in `sel`. */
  lemma {:induction false} FibreSum(par: Parents, w: seq<int>, k: nat, fibres: seq<int>, sel: set<nat>)
    requires InRange(par) && |w| == |par| && |fibres| <= |par|
    requires forall x: nat :: x < |fibres| ==> fibres[x] == SumOver(w, Below(par, x, k))
    ensures SumOver(fibres, sel) == SumOver(w, Landing(par, k, |fibres|, sel))
  {
    if |fibres| == 0 {
      assert Landing(par, k, 0, sel) == {};
      SumEmpty(w);
    } else {
      var last: nat := |fibres| - 1;
      FibreSum(par, w, k, fibres[..last], sel);
      var rest := Landing(par, k, last, sel);
      if last in sel {
        assert Landing(par, k, |fibres|, sel) == rest + Below(par, last, k);
        SumDisjoint(w, rest, Below(par, last, k));
      } else {
        assert Landing(par, k, |fibres|, sel) == rest;
      }
    }
  }

  ghost function BelowSums(par: Parents, w: seq<int>, k: nat): (s: seq<int>)
    requires InRange(par) && |w| == |par|
    ensures |s| == |par|
    ensures forall x: nat :: x < |par| ==> s[x] == SumOver(w, Below(par, x, k))
  {
    seq(|par|, x requires 0 <= x < |par| => SumOver(w, Below(par, x, k)))
  }

  ghost function Roots(par: Parents): (s: set<nat>) {
    set x: nat | x < |par| && par[x].None?
  }

  ghost function Proxied(par: Parents): (s: set<nat>) {
    set x: nat | x < |par| && par[x].Some?
  }

  ghost function RootsAt(par: Parents, w: seq<int>, k: nat): (t: int)
    requires InRange(par) && |w| == |par|
  {
    SumOver(BelowSums(par, w, k), Roots(par))
  }

  ghost function ProxiedAt(par: Parents, w: seq<int>, k: nat): (t: int)
    requires InRange(par) && |w| == |par|
  {
    SumOver(BelowSums(par, w, k), Proxied(par))
  }

  lemma SplitLevel(par: Parents, w: seq<int>, k: nat)
    requires InRange(par) && |w| == |par|
    ensures RootsAt(par, w, k) + ProxiedAt(par, w, k) ==
            SumOver(w, Landing(par, k, |par|, Roots(par) + Proxied(par)))
  {
    SumDisjoint(BelowSums(par, w, k), Roots(par), Proxied(par));
    FibreSum(par, w, k, BelowSums(par, w, k), Roots(par) + Proxied(par));
  }

  /** What is `k` below a proxied account is exactly what is `k + 1` below some account. */
  lemma OneLevelUp(par: Parents, w: seq<int>, k: nat)
    requires InRange(par) && |w| == |par|
    ensures ProxiedAt(par, w, k) == RootsAt(par, w, k + 1) + ProxiedAt(par, w, k + 1)
  {
    FibreSum(par, w, k, BelowSums(par, w, k), Proxied(par));
    SplitLevel(par, w, k + 1);
    var lhs := Landing(par, k, |par|, Proxied(par));
    var rhs := Landing(par, k + 1, |par|, Roots(par) + Proxied(par));
    forall y: nat | y < |par| ensures y in lhs <==> y in rhs {
      AncestorAdd(par, y, k, 1);
      if Ancestor(par, y, k).Some? {
        var z := Ancestor(par, y, k).value;
        assert par[z].Some? ==> Ancestor(par, z, 1) == Ancestor(par, par[z].value, 0);
      }
    }
    assert lhs == rhs;
  }

  /** What the roots see at distances zero to `n`. */
  ghost function RootsUpTo(par: Parents, w: seq<int>, n: nat): (t: int)
    requires InRange(par) && |w| == |par|
  {
    RootsAt(par, w, n) + if n == 0 then 0 else RootsUpTo(par, w, n - 1)
  }

  /**
   The double count behind `validate_invariants`, for any cut-off `n` and chains
   of any length: every account's weight is found once, either at its root when
   that is at most `n` steps up, or `n` steps up at an account that is itself
   proxied.
   */
  lemma {:induction false} EveryWeightCountedOnce(par: Parents, w: seq<int>, n: nat)
    requires InRange(par) && |w| == |par|
    ensures SumOver(w, Indices(w)) == RootsUpTo(par, w, n) + ProxiedAt(par, w, n)
  {
    if n == 0 {
      SplitLevel(par, w, 0);
      assert Indices(w) == Landing(par, 0, |par|, Roots(par) + Proxied(par));
    } else {
      EveryWeightCountedOnce(par, w, n - 1);
      OneLevelUp(par, w, n - 1);
    }
  }
}
