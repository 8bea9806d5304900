/**
 Choosing and shuffling the witnesses of a round (`update_witness_schedule4`):
 the elected ones, those whose turn it is by virtual time, the advance of
 virtual time and the shuffle in place.
 */
module WitnessSchedule {
  import opened Wrappers
  import opened Sequences
  import opened VirtualTime

  const MAX_WITNESSES: nat := 21
  const MAX_VOTED_WITNESSES: nat := 20

  /** The order of the index `by_vote_name`: all witnesses once, by falling votes. */
  predicate VoteOrder(ws: seq<Witness>, order: seq<nat>) {
    && (forall i :: 0 <= i < |order| ==> order[i] < |ws|)
    && (forall x: nat :: x < |ws| ==> x in order)
    && (forall i, j :: 0 <= i < j < |order| ==>
          order[i] != order[j] && ws[order[i]].votes >= ws[order[j]].votes)
  }

  /** The entries of `order` that have a signing key and are not in `taken`, in order. */
  function Usable(ws: seq<Witness>, order: seq<nat>, taken: seq<nat>): (r: seq<nat>)
    requires forall i :: 0 <= i < |order| ==> order[i] < |ws|
  {
    if |order| == 0 then []
    else
      var last := order[|order| - 1];
      Usable(ws, order[..|order| - 1], taken) + if ws[last].hasKey && last !in taken then [last] else []
  }

  lemma {:induction false} UsableMembers(ws: seq<Witness>, order: seq<nat>, taken: seq<nat>, x: nat)
    requires forall i :: 0 <= i < |order| ==> order[i] < |ws|
    ensures x in Usable(ws, order, taken) <==> x in order && ws[x].hasKey && x !in taken
  {
    if |order| != 0 {
      var rest := order[..|order| - 1];
      UsableMembers(ws, rest, taken, x);
      assert order == rest + [order[|order| - 1]];
    }
  }

  lemma {:induction false} UsableDistinct(ws: seq<Witness>, order: seq<nat>, taken: seq<nat>)
    requires forall i :: 0 <= i < |order| ==> order[i] < |ws|
    requires Distinct(order)
    ensures Distinct(Usable(ws, order, taken))
  {
    if |order| != 0 {
      var rest := order[..|order| - 1];
      UsableDistinct(ws, rest, taken);
      UsableMembers(ws, rest, taken, order[|order| - 1]);
    }
  }

  /** The loop over the index by votes: the best voted witnesses that can sign. */
  method SelectElected(ws: seq<Witness>, order: seq<nat>, limit: nat) returns (elected: seq<nat>, ghost n: nat)
    requires forall i :: 0 <= i < |order| ==> order[i] < |ws|
    ensures n <= |order| && elected == Usable(ws, order[..n], [])
    ensures |elected| <= limit && (|elected| < limit ==> n == |order|)
  {
    elected := [];
    var i := 0;
    while i < |order| && |elected| < limit
      invariant 0 <= i <= |order| && |elected| <= limit
      invariant elected == Usable(ws, order[..i], [])
    {
      assert order[..i + 1][..i] == order[..i];
      if ws[order[i]].hasKey {
        elected := elected + [order[i]];
      }
      i := i + 1;
    }
    n := i;
    assert order[..|order|] == order;
  }

  /** Exactly the first `n` witnesses by time are looked at: every look while seats are free, until none is or all were seen. */
  ghost predicate Looked(ws: seq<Witness>, order: seq<nat>, elected: seq<nat>, limit: nat, n: nat)
    requires forall i :: 0 <= i < |order| ==> order[i] < |ws|
  {
    && n <= |order|
    && (n > 0 ==> |elected| + |Usable(ws, order[..n - 1], elected)| < limit)
    && (n < |order| ==> |elected| + |Usable(ws, order[..n], elected)| >= limit)
  }

  /** The loop over the index by scheduled time: fills up to `limit` and counts the witnesses looked at. */
  method SelectTimeshare(ws: seq<Witness>, order: seq<nat>, elected: seq<nat>, limit: nat)
    returns (timeshare: seq<nat>, n: nat)
    requires forall i :: 0 <= i < |order| ==> order[i] < |ws|
    requires |elected| <= limit
    ensures n <= |order| && timeshare == Usable(ws, order[..n], elected)
    ensures |elected| + |timeshare| <= limit && Looked(ws, order, elected, limit, n)
  {
    timeshare := [];
    n := 0;
    while n < |order| && |elected| + |timeshare| < limit
      invariant 0 <= n <= |order| && |elected| + |timeshare| <= limit
      invariant timeshare == Usable(ws, order[..n], elected)
      invariant n > 0 ==> |elected| + |Usable(ws, order[..n - 1], elected)| < limit
    {
      assert order[..n + 1][..n] == order[..n];
      if ws[order[n]].hasKey && order[n] !in elected {
        timeshare := timeshare + [order[n]];
      }
      n := n + 1;
    }
  }

  /** Gives every processed witness its next lap, or starts everyone from zero when a lap overflows. */
  method AdvanceTimes(ws: seq<Witness>, order: seq<nat>, n: nat, now: nat) returns (after: seq<Witness>, t: nat)
    requires NonNegative(ws) && n <= |order| && (forall i :: 0 <= i < |order| ==> order[i] < |ws|)
    requires forall i, j :: 0 <= i < j < |order| ==> order[i] != order[j]
    ensures (after, t) == Rescheduled(ws, order, n, now)
  {
    hide Lap, Overflows;
    t := NewTime(ws, order, n, now);
    ghost var target := t;
    after := ws;
    var i := 0;
    var reset := false;
    while i < n && !reset
      invariant 0 <= i <= n && |after| == |ws|
      invariant forall x: nat :: x < |ws| ==> after[x] == if x in order[..i] then NextLap(ws[x], t) else ws[x]
      invariant !reset ==> forall k :: 0 <= k < i ==> !Overflows(ws[order[k]], t)
      invariant reset ==> MustReset(ws, order[..n], target)
      decreases n - i, !reset
    {
      assert order[i] !in order[..i];
      assert order[..i + 1] == order[..i] + [order[i]];
      if Overflows(after[order[i]], t) {
        assert Overflows(ws[order[..n][i]], target);
        reset := true;
      } else {
        after := after[order[i] := NextLap(after[order[i]], t)];
        i := i + 1;
      }
    }
    if reset {
      t := 0;
      after := ResetAll(after);
      forall x: nat | x < |ws| ensures after[x] == FromZero(ws[x]) { FromZeroForgets(ws[x], target); }
      assert after == Rescheduled(ws, order, n, now).0;
    } else {
      assert !MustReset(ws, order[..n], target) by {
        forall k | 0 <= k < n ensures !Overflows(ws[order[..n][k]], t) { assert order[..n][k] == order[k]; }
      }
      assert after == Rescheduled(ws, order, n, now).0;
    }
  }

  /** `reset_virtual_schedule_time`. */
  method ResetAll(ws: seq<Witness>) returns (after: seq<Witness>)
    requires NonNegative(ws)
    ensures |after| == |ws| && forall x :: 0 <= x < |ws| ==> after[x] == FromZero(ws[x])
  {
    after := ws;
    var i := 0;
    while i < |after|
      invariant 0 <= i <= |after| == |ws|
      invariant forall x :: 0 <= x < i ==> after[x] == FromZero(ws[x])
      invariant forall x :: i <= x < |ws| ==> after[x] == ws[x]
    {
      after := after[i := FromZero(after[i])];
      i := i + 1;
    }
  }

  /** The mixer that picks the shuffle positions, on 64-bit words. */
  function Mix(nowHi: bv64, i: bv64): (k: bv64) {
    var k := nowHi + i * 2685821657736338717;
    var k := k ^ (k >> 12);
    var k := k ^ (k << 25);
    var k := k ^ (k >> 27);
    k * 2685821657736338717
  }

  /** The mixer's values for two named inputs. */
  lemma MixInstances()
    ensures Mix(0, 0) == 0 && Mix(0, 1) == 12492341101037700564
  {
  }

  /** The entry that a mixed word chooses among those from `i` on. */
  function Choice(word: nat, n: nat, i: nat): (j: nat)
    requires i < n
    ensures i <= j < n
  {
    i + word % (n - i)
  }

  /** Where step `i` of the shuffle of `n` entries takes its entry from. */
  function Pick(nowHi: bv64, n: nat, i: nat): (j: nat)
    requires i < n < 0x100
    ensures i <= j < n
  {
    hide Mix, Choice;
    Choice(Mix(nowHi, i as bv64) as nat, n, i)
  }

  /** `j` is as far behind `i` as the remainder of the word by the number of entries not yet placed. */
  ghost predicate Chosen(j: nat, word: nat, n: nat, i: nat) {
    i <= j < n && exists q: nat :: ChosenBy(q, j, word, n, i)
  }

  ghost predicate ChosenBy(q: nat, j: int, word: nat, n: int, i: int) {
    word == q * (n - i) + (j - i)
  }

  lemma {:induction false} ChoiceMeans(word: nat, n: nat, i: nat)
    requires i < n
    ensures Chosen(Choice(word, n, i), word, n, i)
  {
    assert ChosenBy(word / (n - i), Choice(word, n, i), word, n, i) by { Divided(word, n - i); }
  }

  lemma Divided(word: nat, d: nat)
    requires 0 < d
    ensures word == word / d * d + word % d
  {
  }

  /** A step takes its entry from those not yet placed, by the remainder of the mixed word. */
  lemma {:induction false} PickMeans(nowHi: bv64, n: nat, i: nat)
    requires i < n < 0x100
    ensures Chosen(Pick(nowHi, n, i), Mix(nowHi, i as bv64) as nat, n, i)
  {
    hide Mix, Choice, Chosen;
    ChoiceMeans(Mix(nowHi, i as bv64) as nat, n, i);
  }

  /** The picks of a whole shuffle. */
  function Picks(nowHi: bv64, n: nat): (r: seq<nat>)
    requires n < 0x100
    ensures |r| == n && Forward(r, n) && forall i :: 0 <= i < n ==> r[i] == Pick(nowHi, n, i)
  {
    hide Mix;
    seq(n, i requires 0 <= i < n => Pick(nowHi, n, i))
  }

  /** No pick is behind its step or at `n` or beyond. */
  predicate Forward(picks: seq<nat>, n: nat) {
    forall i :: 0 <= i < |picks| ==> i <= picks[i] < n
  }

  /** Entry `i` swapped with the entry picked for it, for every `i` in turn. */
  function Swapped<T>(s: seq<T>, picks: seq<nat>): (r: seq<T>)
    requires Forward(picks, |s|)
    ensures |r| == |s|
  {
    if |picks| == 0 then s
    else
      var i := |picks| - 1;
      var before, j := Swapped(s, picks[..i]), picks[i];
      before[i := before[j]][j := before[i]]
  }

  /** The shuffle of the first `n` entries of `s`. */
  function Shuffled(s: seq<Option<nat>>, n: nat, nowHi: bv64): (r: seq<Option<nat>>)
    requires n <= |s| < 0x100
    ensures |r| == |s|
  {
    hide Pick, Mix;
    Swapped(s, Picks(nowHi, n))
  }

  /** Whatever is picked among the first `n` entries, they are only rearranged and no other is touched. */
  lemma {:induction false} SwapsRearrange<T>(s: seq<T>, n: nat, picks: seq<nat>)
    requires n <= |s| && Forward(picks, n)
    ensures Forward(picks, |s|)
    ensures multiset(Swapped(s, picks)[..n]) == multiset(s[..n]) && Swapped(s, picks)[n..] == s[n..]
  {
    if |picks| > 0 {
      var i := |picks| - 1;
      SwapsRearrange(s, n, picks[..i]);
      SwapRearranges(Swapped(s, picks[..i]), n, i, picks[i]);
    }
  }

  /** The entry picked in a step is never moved again. */
  lemma {:induction false} PickStays<T>(s: seq<T>, picks: seq<nat>, i: nat)
    requires Forward(picks, |s|) && i < |picks|
    ensures Swapped(s, picks)[i] == Swapped(s, picks[..i])[picks[i]]
  {
    var last := |picks| - 1;
    if i < last {
      PickStays(s, picks[..last], i);
      assert picks[..last][..i] == picks[..i];
    }
  }

  /** Different picks order different entries differently: no two of them share a shuffle. */
  lemma {:induction false} DifferentPicks<T(!new)>(s: seq<T>, picks: seq<nat>, others: seq<nat>)
    requires Distinct(s) && |picks| == |others| && Forward(picks, |s|) && Forward(others, |s|)
    ensures Swapped(s, picks) == Swapped(s, others) <==> picks == others
  {
    if Swapped(s, picks) == Swapped(s, others) { SamePicks(s, picks, others, |picks|); }
  }

  lemma {:induction false} SamePicks<T(!new)>(s: seq<T>, picks: seq<nat>, others: seq<nat>, n: nat)
    requires Distinct(s) && n <= |picks| == |others| && Forward(picks, |s|) && Forward(others, |s|)
    requires Swapped(s, picks) == Swapped(s, others)
    ensures picks[..n] == others[..n]
  {
    hide Swapped;
    if n > 0 {
      SamePicks(s, picks, others, n - 1);
      PickStays(s, picks, n - 1);
      PickStays(s, others, n - 1);
      SwapsDistinct(s, picks[..n - 1]);
      assert picks[..n] == picks[..n - 1] + [picks[n - 1]] && others[..n] == others[..n - 1] + [others[n - 1]];
    }
  }

  lemma {:induction false} SwapsDistinct<T(!new)>(s: seq<T>, picks: seq<nat>)
    requires Distinct(s) && Forward(picks, |s|)
    ensures Distinct(Swapped(s, picks))
  {
    hide Swapped;
    SwapsRearrange(s, |s|, picks);
    var r := Swapped(s, picks);
    assert r[..|s|] == r && s[..|s|] == s;
    DistinctRearranged(s, r);
  }

  lemma {:induction false} SwapRearranges<T>(s: seq<T>, n: nat, i: nat, j: nat)
    requires i <= j < n <= |s|
    ensures var r := s[i := s[j]][j := s[i]]; multiset(r[..n]) == multiset(s[..n]) && r[n..] == s[n..]
  {
    var t := s[..n];
    assert s[i := s[j]][j := s[i]][..n] == t[i := t[j]][j := t[i]];
  }

  /** The shuffle of the first `n` entries in place. */
  method Shuffle(a: array<Option<nat>>, n: nat, nowHi: bv64)
    requires n <= a.Length < 0x100
    modifies a
    ensures a[..] == Shuffled(old(a[..]), n, nowHi)
  {
    hide Mix, Pick;
    ghost var picks := Picks(nowHi, n);
    var i := 0;
    while i < n
      invariant 0 <= i <= n
      invariant a[..] == Swapped(old(a[..]), picks[..i])
    {
      assert picks[..i + 1][..i] == picks[..i];
      var j := Pick(nowHi, n, i);
      a[i], a[j] := a[j], a[i];
      i := i + 1;
    }
    assert picks[..n] == picks;
  }

  /** The schedule's entries for the active witnesses, blank behind them. */
  function Padded(active: seq<nat>): (r: seq<Option<nat>>)
    requires |active| <= MAX_WITNESSES
    ensures |r| == MAX_WITNESSES && forall i :: 0 <= i < |r| ==> r[i] == if i < |active| then Some(active[i]) else None
  {
    seq(MAX_WITNESSES, i requires 0 <= i < MAX_WITNESSES => if i < |active| then Some(active[i]) else None)
  }

  /** `r` is the shuffled schedule of `active` with `n` entries: a permutation without repetition, and blanks behind it. */
  ghost predicate Written(r: seq<Option<nat>>, n: nat, active: seq<nat>, nowHi: bv64) {
    && |active| <= MAX_WITNESSES && n == (if |active| == 0 then 1 else |active|)
    && r == Shuffled(Padded(active), n, nowHi)
    && (active != [] ==> multiset(r[..n]) == multiset(Named(active)))
    && (forall i :: |active| <= i < MAX_WITNESSES ==> r[i] == None)
    && Distinct(r[..n])
  }

  lemma {:induction false} PaddedShuffle(active: seq<nat>, nowHi: bv64)
    requires |active| <= MAX_WITNESSES && Distinct(active)
    ensures var n := if |active| == 0 then 1 else |active|;
            Written(Shuffled(Padded(active), n, nowHi), n, active, nowHi)
  {
    hide Swapped, Pick, Mix;
    var n := if |active| == 0 then 1 else |active|;
    var r := Shuffled(Padded(active), n, nowHi);
    SwapsRearrange(Padded(active), n, Picks(nowHi, n));
    assert active != [] ==> Padded(active)[..n] == Named(active);
    forall i | n <= i < MAX_WITNESSES ensures r[i] == None { assert r[n..][i - n] == Padded(active)[n..][i - n]; }
    if active == [] {
      assert Padded(active)[..1] == [None];
      assert r[..1][0] in multiset(r[..1]);
    } else {
      DistinctRearranged(Named(active), r[..n]);
    }
  }

  /** The entries of `names` as they are written into the schedule. */
  function Named(names: seq<nat>): (r: seq<Option<nat>>)
    ensures |r| == |names| && forall i :: 0 <= i < |names| ==> r[i] == Some(names[i])
  {
    seq(|names|, i requires 0 <= i < |names| => Some(names[i]))
  }

  /** `active` are the witnesses of a round chosen by votes and then by virtual time. */
  ghost predicate GoodRound(ws: seq<Witness>, elected: seq<nat>, timeshare: seq<nat>) {
    var active := elected + timeshare;
    && Distinct(active)
    && (forall x :: x in elected ==> x < |ws| && ws[x].hasKey)
    && (forall x :: x in timeshare ==> x < |ws| && ws[x].hasKey)
    && |elected| <= MAX_VOTED_WITNESSES && |active| <= MAX_WITNESSES
    // whoever could sign and is not elected has no more votes than any elected witness, and only a full house keeps it out
    && (forall x: nat, y :: x < |ws| && ws[x].hasKey && x !in elected && y in elected ==> ws[x].votes <= ws[y].votes)
    && (forall x: nat :: x < |ws| && ws[x].hasKey && x !in elected ==> |elected| == MAX_VOTED_WITNESSES)
    // whoever could sign and is not active is scheduled no earlier than any timeshare witness, and again only a full house
    && (forall x: nat, y :: x < |ws| && ws[x].hasKey && x !in active && y in timeshare ==> ws[y].scheduled <= ws[x].scheduled)
    && (forall x: nat :: x < |ws| && ws[x].hasKey && x !in active ==> |active| == MAX_WITNESSES)
  }

  lemma {:induction false} SplitMember(order: seq<nat>, n: nat, x: nat)
    requires n <= |order| && x in order
    ensures x in order[..n] || x in order[n..]
  {
    assert order == order[..n] + order[n..];
  }

  lemma {:induction false} ElectedAreBest(ws: seq<Witness>, order: seq<nat>, n: nat, elected: seq<nat>, x: nat)
    requires VoteOrder(ws, order) && n <= |order| && elected == Usable(ws, order[..n], [])
    requires |elected| < MAX_VOTED_WITNESSES ==> n == |order|
    requires |elected| <= MAX_VOTED_WITNESSES
    requires x < |ws| && ws[x].hasKey && x !in elected
    ensures |elected| == MAX_VOTED_WITNESSES
    ensures forall y :: y in elected ==> y < |ws| && ws[x].votes <= ws[y].votes
  {
    UsableMembers(ws, order[..n], [], x);
    SplitMember(order, n, x);
    var k :| 0 <= k < |order[n..]| && order[n..][k] == x;
    assert order[n + k] == x;
    forall y | y in elected ensures y < |ws| && ws[x].votes <= ws[y].votes {
      UsableMembers(ws, order[..n], [], y);
      var j :| 0 <= j < n && order[..n][j] == y;
      assert order[j] == y;
    }
  }

  lemma {:induction false} TimeshareAreNext(ws: seq<Witness>, order: seq<nat>, n: nat, elected: seq<nat>, timeshare: seq<nat>, x: nat)
    requires TimeOrder(ws, order) && n <= |order| && timeshare == Usable(ws, order[..n], elected)
    requires |elected| + |timeshare| < MAX_WITNESSES ==> n == |order|
    requires |elected| + |timeshare| <= MAX_WITNESSES
    requires x < |ws| && ws[x].hasKey && x !in elected && x !in timeshare
    ensures |elected| + |timeshare| == MAX_WITNESSES
    ensures forall y :: y in timeshare ==> y < |ws| && ws[y].scheduled <= ws[x].scheduled
  {
    UsableMembers(ws, order[..n], elected, x);
    SplitMember(order, n, x);
    var k :| 0 <= k < |order[n..]| && order[n..][k] == x;
    assert order[n + k] == x;
    forall y | y in timeshare ensures y < |ws| && ws[y].scheduled <= ws[x].scheduled {
      UsableMembers(ws, order[..n], elected, y);
      var j :| 0 <= j < n && order[..n][j] == y;
      assert order[j] == y;
    }
  }

  lemma {:induction false} RoundIsGood(ws: seq<Witness>, byVote: seq<nat>, byTime: seq<nat>,
                                       m: nat, n: nat, elected: seq<nat>, timeshare: seq<nat>)
    requires VoteOrder(ws, byVote) && TimeOrder(ws, byTime) && m <= |byVote| && n <= |byTime|
    requires elected == Usable(ws, byVote[..m], []) && timeshare == Usable(ws, byTime[..n], elected)
    requires |elected| <= MAX_VOTED_WITNESSES && (|elected| < MAX_VOTED_WITNESSES ==> m == |byVote|)
    requires |elected| + |timeshare| <= MAX_WITNESSES && (|elected| + |timeshare| < MAX_WITNESSES ==> n == |byTime|)
    ensures GoodRound(ws, elected, timeshare)
  {
    hide Usable;
    var active := elected + timeshare;
    UsableDistinct(ws, byVote[..m], []);
    UsableDistinct(ws, byTime[..n], elected);
    forall x | x in timeshare ensures x !in elected && x < |ws| && ws[x].hasKey { UsableMembers(ws, byTime[..n], elected, x); }
    forall x | x in elected ensures x < |ws| && ws[x].hasKey { UsableMembers(ws, byVote[..m], [], x); }
    DistinctConcat(elected, timeshare);
    forall x: nat | x < |ws| && ws[x].hasKey && x !in elected
      ensures |elected| == MAX_VOTED_WITNESSES
      ensures forall y :: y in elected ==> ws[x].votes <= ws[y].votes
    {
      ElectedAreBest(ws, byVote, m, elected, x);
    }
    forall x: nat | x < |ws| && ws[x].hasKey && x !in active
      ensures |active| == MAX_WITNESSES
      ensures forall y :: y in timeshare ==> ws[y].scheduled <= ws[x].scheduled
    {
      TimeshareAreNext(ws, byTime, n, elected, timeshare, x);
    }
  }

  lemma GoodIsDistinct(ws: seq<Witness>, elected: seq<nat>, timeshare: seq<nat>)
    requires GoodRound(ws, elected, timeshare)
    ensures Distinct(elected + timeshare)
  {
  }

  /** The witness schedule object together with the witnesses it schedules. */
  class Schedule {
    var witnesses: seq<Witness>
    var now: nat                          // current_virtual_time
    const shuffled: array<Option<nat>>    // current_shuffled_witnesses
    var scheduled: nat                    // num_scheduled_witnesses

    ghost predicate Valid()
      reads this
    {
      shuffled.Length == MAX_WITNESSES && TimelyAt(witnesses, now)
    }

    constructor ()
      ensures Valid() && witnesses == [] && now == 0 && scheduled == 1 && fresh(shuffled)
    {
      witnesses, now, scheduled := [], 0, 1;
      shuffled := new Option<nat>[MAX_WITNESSES](i => None);
    }

    /**
     `update_witness_schedule4`, given the two witness indices.  Refused when
     fewer witnesses can sign than should be active; nothing is changed then.
     */
    method Update(byVote: seq<nat>, byTime: seq<nat>, nowHi: bv64)
      returns (ok: bool, ghost elected: seq<nat>, ghost timeshare: seq<nat>, ghost looked: nat)
      requires Valid() && VoteOrder(witnesses, byVote) && TimeOrder(witnesses, byTime)
      modifies this, shuffled
      ensures Valid()
      ensures GoodRound(old(witnesses), elected, timeshare)
      ensures ok <==> |elected| + |timeshare| == if |byVote| < MAX_WITNESSES then |byVote| else MAX_WITNESSES
      ensures !ok ==> witnesses == old(witnesses) && now == old(now) && scheduled == old(scheduled) && shuffled[..] == old(shuffled[..])
      ensures ok ==>
        && Written(shuffled[..], scheduled, elected + timeshare, nowHi)
        && Looked(old(witnesses), byTime, elected, MAX_WITNESSES, looked) && timeshare == Usable(old(witnesses), byTime[..looked], elected)
        && (witnesses, now) == Rescheduled(old(witnesses), byTime, looked, old(now))
    {
      hide Rescheduled, TimelyAt, Usable, Written, GoodRound, Distinct;
      var chosen, m := SelectElected(witnesses, byVote, MAX_VOTED_WITNESSES);
      var others, n := SelectTimeshare(witnesses, byTime, chosen, MAX_WITNESSES);
      RoundIsGood(witnesses, byVote, byTime, m, n, chosen, others);
      elected, timeshare, looked := chosen, others, n;
      var active := chosen + others;
      var expected := if |byVote| < MAX_WITNESSES then |byVote| else MAX_WITNESSES;
      if |active| != expected { return false, elected, timeshare, looked; }
      assert NonNegative(witnesses) by { TimelyIsNonNegative(witnesses, now); }
      RescheduledTimely(witnesses, byTime, n, now);
      var after, t := AdvanceTimes(witnesses, byTime, n, now);
      GoodIsDistinct(witnesses, chosen, others);
      WriteShuffled(active, nowHi);
      witnesses, now := after, t;
      ok := true;
    }

    /** Writes the active witnesses and shuffles them among themselves. */
    method WriteShuffled(active: seq<nat>, nowHi: bv64)
      requires shuffled.Length == MAX_WITNESSES && |active| <= MAX_WITNESSES && Distinct(active)
      modifies this`scheduled, shuffled
      ensures Written(shuffled[..], scheduled, active, nowHi)
    {
      hide Shuffled, Written, Distinct;
      WriteNames(active);
      scheduled := if |active| == 0 then 1 else |active|;
      Shuffle(shuffled, scheduled, nowHi);
      PaddedShuffle(active, nowHi);
    }

    /** Writes the active witnesses and blanks the rest. */
    method WriteNames(active: seq<nat>)
      requires shuffled.Length == MAX_WITNESSES && |active| <= MAX_WITNESSES
      modifies shuffled
      ensures shuffled[..] == Padded(active)
    {
      for i := 0 to MAX_WITNESSES
        invariant forall j :: 0 <= j < i ==> shuffled[j] == if j < |active| then Some(active[j]) else None
      {
        shuffled[i] := if i < |active| then Some(active[i]) else None;
      }
    }
  }

  lemma TimelyIsNonNegative(ws: seq<Witness>, now: nat)
    requires TimelyAt(ws, now)
    ensures NonNegative(ws)
  {
  }
}
