/** Sums of the entries of a sequence whose index lies in a set. */
module WeightedSums {

  ghost function SumOver(w: seq<int>, sel: set<nat>): (total: int)
  {
    if |w| == 0 then 0
    else
      var last: nat := |w| - 1;
      SumOver(w[..last], sel) + if last in sel then w[last] else 0
  }

  /** The set of all indices of `w`. */
  ghost function Indices(w: seq<int>): (s: set<nat>)
  {
    set i: nat {:trigger w[i]} | i < |w|
  }

  lemma {:induction false} SumAgrees(w: seq<int>, v: seq<int>, s: set<nat>, t: set<nat>)
    requires |w| == |v|
    requires forall i: nat :: i < |w| ==> (if i in s then w[i] else 0) == (if i in t then v[i] else 0)
    ensures SumOver(w, s) == SumOver(v, t)
  {
    if |w| != 0 {
      var last: nat := |w| - 1;
      SumAgrees(w[..last], v[..last], s, t);
    }
  }

  lemma {:induction false} SumDisjoint(w: seq<int>, s: set<nat>, t: set<nat>)
    requires s !! t
    ensures SumOver(w, s + t) == SumOver(w, s) + SumOver(w, t)
  {
    if |w| != 0 {
      SumDisjoint(w[..|w| - 1], s, t);
    }
  }

  /** Summing the difference of two sets, the second inside the first. */
  lemma SumMinus(w: seq<int>, s: set<nat>, t: set<nat>)
    requires t <= s
    ensures SumOver(w, s - t) == SumOver(w, s) - SumOver(w, t)
  {
    SumDisjoint(w, s - t, t);
    assert (s - t) + t == s;
  }

  lemma {:induction false} SumUpdate(w: seq<int>, a: nat, v: int, s: set<nat>)
    requires a < |w|
    ensures SumOver(w[a := v], s) == SumOver(w, s) + if a in s then v - w[a] else 0
  {
    var last: nat := |w| - 1;
    if a == last {
      assert w[a := v][..last] == w[..last];
    } else {
      assert w[a := v][..last] == w[..last][a := v];
      SumUpdate(w[..last], a, v, s);
    }
  }

  lemma {:induction false} SumMonotone(w: seq<int>, s: set<nat>, t: set<nat>)
    requires s <= t
    requires forall i :: 0 <= i < |w| ==> 0 <= w[i]
    ensures 0 <= SumOver(w, s) <= SumOver(w, t)
  {
    if |w| != 0 {
      SumMonotone(w[..|w| - 1], s, t);
    }
  }

  lemma {:induction false} SumPointwise(w: seq<int>, v: seq<int>, s: set<nat>)
    requires |w| == |v|
    requires forall i :: 0 <= i < |w| ==> w[i] <= v[i]
    ensures SumOver(w, s) <= SumOver(v, s)
  {
    if |w| != 0 {
      SumPointwise(w[..|w| - 1], v[..|w| - 1], s);
    }
  }

  lemma {:induction false} SumAdd(w: seq<int>, v: seq<int>, u: seq<int>, s: set<nat>)
    requires |w| == |v| == |u|
    requires forall i :: 0 <= i < |w| ==> u[i] == w[i] + v[i]
    ensures SumOver(u, s) == SumOver(w, s) + SumOver(v, s)
  {
    if |w| != 0 {
      var last := |w| - 1;
      SumAdd(w[..last], v[..last], u[..last], s);
    }
  }

  lemma SumEmpty(w: seq<int>)
    ensures SumOver(w, {}) == 0
  {
  }

  lemma SumAppend(w: seq<int>, v: int, s: set<nat>)
    ensures SumOver(w + [v], s) == SumOver(w, s) + if |w| in s then v else 0
  {
    assert (w + [v])[..|w|] == w;
  }

  // ------------------------------------------------------- sums of whole sequences

  ghost function Total(w: seq<int>): (t: int) {
    if |w| == 0 then 0 else Total(w[..|w| - 1]) + w[|w| - 1]
  }

  lemma {:induction false} TotalUpdate(w: seq<int>, a: nat, v: int)
    requires a < |w|
    ensures Total(w[a := v]) == Total(w) + v - w[a]
  {
    var last := |w| - 1;
    if a == last {
      assert w[a := v][..last] == w[..last];
    } else {
      assert w[a := v][..last] == w[..last][a := v];
      TotalUpdate(w[..last], a, v);
    }
  }

  lemma TotalAppend(w: seq<int>, v: int)
    ensures Total(w + [v]) == Total(w) + v
  {
    assert (w + [v])[..|w|] == w;
  }

  lemma {:induction false} TotalIsSum(w: seq<int>, sel: set<nat>)
    requires forall i: nat :: i < |w| && i !in sel ==> w[i] == 0
    ensures Total(w) == SumOver(w, sel)
  {
    if |w| != 0 { TotalIsSum(w[..|w| - 1], sel); }
  }

  lemma {:induction false} TotalNonnegative(w: seq<int>)
    requires forall i :: 0 <= i < |w| ==> 0 <= w[i]
    ensures 0 <= Total(w)
  {
    if |w| != 0 { TotalNonnegative(w[..|w| - 1]); }
  }

  lemma {:induction false} OneWithinTotal(w: seq<int>, i: nat)
    requires i < |w| && forall j :: 0 <= j < |w| ==> 0 <= w[j]
    ensures w[i] <= Total(w)
  {
    TotalUpdate(w, i, 0);
    TotalNonnegative(w[i := 0]);
  }

  /** Dividing a pot in proportion to weights, rounding every share down, never pays more than the pot. */
  lemma {:induction false} SharesWithinPot(pot: nat, weights: seq<int>, total: nat, shares: seq<int>)
    requires 0 < total && |weights| == |shares|
    requires forall i :: 0 <= i < |weights| ==> 0 <= weights[i] && shares[i] == pot * weights[i] / total
    ensures Total(shares) * total <= pot * Total(weights)
    ensures Total(weights) <= total ==> 0 <= Total(shares) <= pot
  {
    SharesScaled(pot, weights, total, shares);
    TotalNonnegative(weights);
    forall i | 0 <= i < |shares| ensures 0 <= shares[i] { QuotientBounds(pot, weights[i], total); }
    TotalNonnegative(shares);
    if Total(weights) <= total {
      ScaleDown(pot, Total(weights), total, Total(shares));
    }
  }

  lemma QuotientBounds(pot: nat, w: nat, total: nat)
    requires 0 < total
    ensures 0 <= pot * w / total && pot * w / total * total <= pot * w
  {
  }

  lemma {:induction false} SharesScaled(pot: nat, weights: seq<int>, total: nat, shares: seq<int>)
    requires 0 < total && |weights| == |shares|
    requires forall i :: 0 <= i < |weights| ==> 0 <= weights[i] && shares[i] == pot * weights[i] / total
    ensures Total(shares) * total <= pot * Total(weights)
  {
    if |weights| != 0 {
      var last := |weights| - 1;
      SharesScaled(pot, weights[..last], total, shares[..last]);
      QuotientBounds(pot, weights[last], total);
      var a, b, c, d := Total(shares[..last]), shares[last], Total(weights[..last]), weights[last];
      assert (a + b) * total == a * total + b * total;
      assert pot * (c + d) == pot * c + pot * d;
    }
  }

  lemma MoreTimes(a: nat, b: nat, n: nat)
    requires a < b
    ensures a * n + n <= b * n
  {
    assert (a + 1) * n <= b * n;
  }

  lemma ScaleDown(pot: nat, used: nat, total: nat, paid: nat)
    requires 0 < total && used <= total && paid * total <= pot * used
    ensures paid <= pot
  {
    assert pot * used <= pot * total;
    if paid > pot { MoreTimes(pot, paid, total); }
  }
}
