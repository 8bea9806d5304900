/**
 A witness's votes and its place in virtual time.  All virtual-time fields are
 128-bit unsigned numbers; additions and products wrap at `U128`.
 */
module VirtualTime {
  import opened Wrappers
  import opened Widths
  import opened Quotients

  const MAX128: nat := U128 - 1

  datatype Witness = Witness(
    hasKey: bool,       // signing_key is not the null key
    votes: int,
    lastUpdate: nat,    // virtual_last_update
    position: nat,      // virtual_position
    scheduled: nat)     // virtual_scheduled_time

  /** A freshly created witness: no votes and scheduled at the end of time. */
  function NewWitness(hasKey: bool): (w: Witness) {
    Witness(hasKey, 0, 0, 0, MAX128)
  }

  /** The ordering every witness keeps: last update, then now, then scheduled time. */
  predicate Timely(w: Witness, now: nat) {
    && 0 <= w.votes
    && w.position < U128
    && w.lastUpdate <= now <= w.scheduled < U128
  }

  /**
   `adjust_witness_vote`: advance the position at the old speed, add the votes
   and compute the time at which the current lap ends.  Refused when the votes
   would exceed all vesting shares, or when the lap would be divided by zero.
   */
  function AdjustVote(w: Witness, delta: int, now: nat, total: int): (r: Option<Witness>)
    requires w.position < U128
  {
    var position := MovedTo(w, now);
    var votes := w.votes + delta;
    var speed := (votes + 1) % U128;
    if votes > total || speed == 0 then None
    else Some(w.(position := position, lastUpdate := now, votes := votes, scheduled := DueAt(now, position, speed)))
  }

  /** The position after running at the old speed since the last update, in 128 bits. */
  function MovedTo(w: Witness, now: nat): (p: nat)
    ensures p < U128
  {
    (w.position + w.votes % U128 * ((now - w.lastUpdate) % U128)) % U128
  }

  /** When the rest of the lap is run at `speed`, in 128 bits; a time that has wrapped around counts as the end of time. */
  function DueAt(now: nat, position: nat, speed: nat): (t: nat)
    requires position < U128 && 0 < speed
    ensures now < U128 ==> now <= t < U128
  {
    var lapEnd := (now + (MAX128 - position) / speed) % U128;
    if lapEnd < now then MAX128 else lapEnd
  }

  /** Even when the end of the lap wraps around, it is never scheduled in the past. */
  lemma AdjustVoteKeepsTimely(w: Witness, delta: int, now: nat, total: int)
    requires Timely(w, now) && now < U128
    requires 0 <= w.votes + delta <= total
    requires total < MAX128
    ensures AdjustVote(w, delta, now, total).Some?
    ensures Timely(AdjustVote(w, delta, now, total).value, now)
    ensures AdjustVote(w, delta, now, total).value.votes == w.votes + delta
    ensures AdjustVote(w, delta, now, total).value.hasKey == w.hasKey
  {
  }

  /** The distance that is left of a lap after a vote change: all of it minus what was run at the old speed. */
  ghost function PositionAt(w: Witness, now: nat): (p: nat)
    requires 0 <= w.votes && w.lastUpdate <= now
  {
    (w.position + w.votes * (now - w.lastUpdate)) % U128
  }

  /**
   What a vote change means: the votes change by `delta`, the position has moved
   on at the old speed, and the witness is due when the rest of its lap is run at
   the new speed, or at the end of time exactly when that is beyond 128 bits.
   */
  ghost predicate VoteChanged(w: Witness, r: Witness, delta: int, now: nat) {
    && 0 <= w.votes && w.lastUpdate <= now
    && r.votes == w.votes + delta && r.hasKey == w.hasKey && r.lastUpdate == now && r.position == PositionAt(w, now)
    && (if (U128 - now) * (r.votes + 1) <= MAX128 - r.position then r.scheduled == MAX128
        else IsQuotient(r.scheduled - now, MAX128 - r.position, r.votes + 1))
  }

  lemma {:induction false} AdjustVoteMeans(w: Witness, delta: int, now: nat, total: int)
    requires Timely(w, now) && now < U128 && 0 <= w.votes < U128
    requires 0 <= w.votes + delta < MAX128
    ensures AdjustVote(w, delta, now, total).Some? <==> w.votes + delta <= total
    ensures w.votes + delta <= total ==> VoteChanged(w, AdjustVote(w, delta, now, total).value, delta, now)
  {
    hide MovedTo, DueAt, PositionAt, IsQuotient;
    MovedToIs(w, now);
    DueAtMeans(now, MovedTo(w, now), w.votes + delta + 1);
  }

  lemma {:induction false} MovedToIs(w: Witness, now: nat)
    requires 0 <= w.votes < U128 && w.lastUpdate <= now < U128
    ensures MovedTo(w, now) == PositionAt(w, now)
  {
    var gap := now - w.lastUpdate;
    SmallRemainder(w.votes, U128);
    SmallRemainder(gap, U128);
  }

  lemma SmallRemainder(n: nat, m: nat)
    requires n < m
    ensures n % m == n
  {
  }

  lemma {:induction false} DueAtMeans(now: nat, position: nat, speed: nat)
    requires now < U128 && position < U128 && 0 < speed
    ensures if (U128 - now) * speed <= MAX128 - position then DueAt(now, position, speed) == MAX128
            else IsQuotient(DueAt(now, position, speed) - now, MAX128 - position, speed)
  {
    hide IsQuotient;
    var left: nat := MAX128 - position;
    var steps := left / speed;
    QuotientIs(left, speed);
    AtLeast(left, speed, U128 - now);
    assert steps <= left by { FewSteps(left, speed); }
  }

  lemma FewSteps(n: nat, d: nat)
    requires 0 < d
    ensures n / d <= n
  {
    QuotientIs(n, d);
    TimesRight(n / d, 1, d);
  }

  /** More votes never put a witness later. */
  lemma {:induction false} MoreVotesEarlier(w: Witness, few: int, many: int, now: nat, total: int)
    requires Timely(w, now) && now < U128 && w.votes < U128 && 0 <= w.votes + few <= w.votes + many <= total < MAX128
    ensures AdjustVote(w, many, now, total).Some? && AdjustVote(w, few, now, total).Some?
    ensures AdjustVote(w, many, now, total).value.scheduled <= AdjustVote(w, few, now, total).value.scheduled
  {
    hide AdjustVote;
    AdjustVoteMeans(w, few, now, total);
    AdjustVoteMeans(w, many, now, total);
    AdjustVoteKeepsTimely(w, many, now, total);
    var x, y := AdjustVote(w, few, now, total).value, AdjustVote(w, many, now, total).value;
    var left: nat := MAX128 - x.position;
    if x.scheduled != MAX128 {
      var a, b := x.scheduled - now, y.scheduled - now;
      Faster(left, a, b, x.votes + 1, y.votes + 1, U128 - now);
    }
  }

  lemma {:induction false} Faster(left: nat, a: int, b: int, slow: nat, fast: nat, end: int)
    requires 0 < slow <= fast && 0 < end && IsQuotient(a, left, slow) && end * slow > left
    requires if end * fast <= left then b == end - 1 else IsQuotient(b, left, fast)
    ensures b <= a
  {
    TimesRight(end, slow, fast);
    if end * fast > left { QuotientGrows(b, left, fast, a, left, slow); }
  }

  // ------------------------------------------------------- moving virtual time

  /** The virtual time a whole lap takes. */
  function Lap(w: Witness): (t: nat)
    requires 0 <= w.votes
    ensures t < U128
  {
    MAX128 / (w.votes + 1)
  }

  /** The 128-bit sum that ends the next lap has wrapped around. */
  predicate Overflows(w: Witness, t: nat)
    requires 0 <= w.votes
  {
    (t + Lap(w)) % U128 < t
  }

  function NextLap(w: Witness, t: nat): (r: Witness)
    requires 0 <= w.votes
  {
    w.(position := 0, lastUpdate := t, scheduled := (t + Lap(w)) % U128)
  }

  function FromZero(w: Witness): (r: Witness)
    requires 0 <= w.votes
  {
    w.(position := 0, lastUpdate := 0, scheduled := Lap(w))
  }

  lemma FromZeroForgets(w: Witness, t: nat)
    requires 0 <= w.votes
    ensures FromZero(NextLap(w, t)) == FromZero(w)
  {
  }

  /** A whole lap takes the longer the fewer votes there are, and exactly as long as the distance lasts. */
  lemma {:induction false} LapMeans(w: Witness)
    requires 0 <= w.votes
    ensures IsQuotient(Lap(w), MAX128, w.votes + 1)
    ensures forall t: nat :: Overflows(w, t) && t < U128 <==> t < U128 <= t + Lap(w)
  {
    QuotientIs(MAX128, w.votes + 1);
  }

  lemma {:induction false} MoreVotesShorterLap(w: Witness, v: Witness)
    requires 0 <= w.votes <= v.votes
    ensures Lap(v) <= Lap(w)
  {
    QuotientIs(MAX128, v.votes + 1);
    QuotientIs(MAX128, w.votes + 1);
    QuotientGrows(Lap(v), MAX128, v.votes + 1, Lap(w), MAX128, w.votes + 1);
  }

  /** A lap that begins at `t`: nothing of it has been run, and it ends when all of it has. */
  ghost predicate LapBegun(w: Witness, r: Witness, t: nat) {
    && r.votes == w.votes && r.hasKey == w.hasKey && r.lastUpdate == t && r.position == 0
    && IsQuotient(r.scheduled - t, MAX128, w.votes + 1)
  }

  lemma {:induction false} LapsBegin(w: Witness, t: nat)
    requires 0 <= w.votes && t < U128
    ensures !Overflows(w, t) ==> LapBegun(w, NextLap(w, t), t)
    ensures LapBegun(w, FromZero(w), 0)
  {
    LapMeans(w);
  }

  predicate NonNegative(ws: seq<Witness>) {
    forall i :: 0 <= i < |ws| ==> 0 <= ws[i].votes
  }

  /** The order of the index `by_schedule_time`: all witnesses once, by scheduled time. */
  predicate TimeOrder(ws: seq<Witness>, order: seq<nat>) {
    && (forall i :: 0 <= i < |order| ==> order[i] < |ws|)
    && (forall x: nat :: x < |ws| ==> x in order)
    && (forall i, j :: 0 <= i < j < |order| ==>
          order[i] != order[j] && ws[order[i]].scheduled <= ws[order[j]].scheduled)
  }

  /** Everyone advances to the scheduled time of the last witness looked at. */
  function NewTime(ws: seq<Witness>, order: seq<nat>, n: nat, now: nat): (t: nat)
    requires n <= |order| && forall i :: 0 <= i < |order| ==> order[i] < |ws|
  {
    if n == 0 then now else ws[order[n - 1]].scheduled
  }

  predicate MustReset(ws: seq<Witness>, processed: seq<nat>, t: nat)
    requires NonNegative(ws) && forall i :: 0 <= i < |processed| ==> processed[i] < |ws|
  {
    exists i :: 0 <= i < |processed| && Overflows(ws[processed[i]], t)
  }

  /** The witnesses after the first `n` of `order` have been scheduled. */
  function Rescheduled(ws: seq<Witness>, order: seq<nat>, n: nat, now: nat): (r: (seq<Witness>, nat))
    requires NonNegative(ws) && n <= |order| && forall i :: 0 <= i < |order| ==> order[i] < |ws|
    ensures |r.0| == |ws|
  {
    var t := NewTime(ws, order, n, now);
    if MustReset(ws, order[..n], t) then
      (seq(|ws|, i requires 0 <= i < |ws| => FromZero(ws[i])), 0)
    else
      (seq(|ws|, i requires 0 <= i < |ws| => if i in order[..n] then NextLap(ws[i], t) else ws[i]), t)
  }

  lemma {:induction false} NextLapTimely(w: Witness, t: nat)
    requires 0 <= w.votes && t < U128 && !Overflows(w, t)
    ensures Timely(NextLap(w, t), t)
  {
    hide Lap;
  }

  /** A witness not looked at is scheduled no earlier than the last one looked at. */
  lemma {:induction false} LaterWitness(ws: seq<Witness>, order: seq<nat>, n: nat, x: nat)
    requires TimeOrder(ws, order) && 0 < n <= |order| && x < |ws| && x !in order[..n]
    ensures ws[order[n - 1]].scheduled <= ws[x].scheduled
  {
    assert x in order;
    assert order == order[..n] + order[n..];
    var k :| 0 <= k < |order[n..]| && order[n..][k] == x;
    assert order[n + k] == x;
  }

  ghost predicate TimelyAt(ws: seq<Witness>, now: nat) {
    now < U128 && NonNegative(ws) && forall i :: 0 <= i < |ws| ==> Timely(ws[i], now)
  }

  /**
   Scheduling keeps every witness's last update, the current time and its
   scheduled time in order, in 128-bit arithmetic, and moves virtual time
   backwards only by resetting it to zero after an overflow.
   */
  lemma {:induction false} RescheduledTimely(ws: seq<Witness>, order: seq<nat>, n: nat, now: nat)
    requires TimeOrder(ws, order) && n <= |order| && TimelyAt(ws, now)
    ensures var (after, t) := Rescheduled(ws, order, n, now);
            && TimelyAt(after, t)
            && (forall i :: 0 <= i < |ws| ==> after[i].votes == ws[i].votes && after[i].hasKey == ws[i].hasKey)
            && (now <= t || (t == 0 && MustReset(ws, order[..n], NewTime(ws, order, n, now))))
  {
    hide Lap, Overflows;
    var (after, t) := Rescheduled(ws, order, n, now);
    if n > 0 { assert Timely(ws[order[n - 1]], now); }
    if !MustReset(ws, order[..n], NewTime(ws, order, n, now)) {
      forall i | 0 <= i < |ws| ensures Timely(after[i], t) {
        if i in order[..n] {
          var k :| 0 <= k < n && order[..n][k] == i;
          assert !Overflows(ws[order[..n][k]], t);
          NextLapTimely(ws[i], t);
        } else if n > 0 {
          LaterWitness(ws, order, n, i);
        }
      }
    }
  }

  /**
   What a round means.  Time moves to the scheduled time of the last witness looked
   at.  If a lap of a witness looked at would then end beyond 128 bits, time and
   everyone's lap begin at zero; otherwise exactly the witnesses looked at begin
   their next lap.
   */
  lemma {:induction false} RescheduledMeans(ws: seq<Witness>, order: seq<nat>, n: nat, now: nat)
    requires TimeOrder(ws, order) && n <= |order| && TimelyAt(ws, now)
    ensures var (after, t) := Rescheduled(ws, order, n, now);
            var next := if n == 0 then now else ws[order[n - 1]].scheduled;
            var wraps := exists k :: 0 <= k < n && next + Lap(ws[order[k]]) >= U128;
            && |after| == |ws| && t == (if wraps then 0 else next)
            && forall x: nat :: x < |ws| ==>
                 if wraps then LapBegun(ws[x], after[x], 0)
                 else if exists k :: 0 <= k < n && order[k] == x then LapBegun(ws[x], after[x], next) else after[x] == ws[x]
  {
    hide Lap, Overflows, NextLap, FromZero, IsQuotient, TimeOrder;
    OrderInRange(ws, order);
    var (after, t) := Rescheduled(ws, order, n, now);
    var next := NewTime(ws, order, n, now);
    assert next < U128 by { if n > 0 { assert Timely(ws[order[n - 1]], now); } }
    forall x: nat | x < |ws|
      ensures Overflows(ws[x], next) <==> next + Lap(ws[x]) >= U128
      ensures !Overflows(ws[x], next) ==> LapBegun(ws[x], NextLap(ws[x], next), next)
      ensures LapBegun(ws[x], FromZero(ws[x]), 0)
    {
      LapMeans(ws[x]);
      LapsBegin(ws[x], next);
    }
    var first := order[..n];
    assert MustReset(ws, first, next) <==> exists k :: 0 <= k < n && next + Lap(ws[order[k]]) >= U128 by {
      if MustReset(ws, first, next) {
        var k :| 0 <= k < |first| && Overflows(ws[first[k]], next);
        assert next + Lap(ws[order[k]]) >= U128;
      }
      if k :| 0 <= k < n && next + Lap(ws[order[k]]) >= U128 { assert Overflows(ws[first[k]], next); }
    }
    forall x: nat | x < |ws| ensures x in first <==> exists k :: 0 <= k < n && order[k] == x {
      if x in first { var k :| 0 <= k < |first| && first[k] == x; assert order[k] == x; }
      if k :| 0 <= k < n && order[k] == x { assert first[k] == x; }
    }
    if !MustReset(ws, first, next) {
      forall x: nat | x < |ws| && x in first ensures !Overflows(ws[x], next) {
        var k :| 0 <= k < |first| && first[k] == x;
      }
    }
  }

  lemma OrderInRange(ws: seq<Witness>, order: seq<nat>)
    requires TimeOrder(ws, order)
    ensures forall i :: 0 <= i < |order| ==> order[i] < |ws|
  {
  }
}
