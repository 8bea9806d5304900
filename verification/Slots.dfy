/**
 Slot arithmetic: which time belongs to which slot, how the absolute slot number
 advances with every block, and who may produce when.
 */
module Slots {
  import opened Sequences
  import opened WeightedSums
  import opened Wrappers

  const INTERVAL: nat := 3   // BMCHAIN_BLOCK_INTERVAL, in seconds

  /** The part of the dynamic properties that slots depend on; `genesis` is the time before the first block. */
  datatype Clock = Clock(genesis: nat, time: nat, num: nat, aslot: nat)

  function AtGenesis(genesis: nat): (c: Clock) {
    Clock(genesis, genesis, 0, 0)
  }

  /** `get_slot_time`; slot 0 has no time. */
  function SlotTime(c: Clock, slot: nat): (t: nat) {
    if slot == 0 then 0
    else if c.num == 0 then c.time + slot * INTERVAL
    else c.time / INTERVAL * INTERVAL + slot * INTERVAL
  }

  /** Slots are one interval apart; the first comes within an interval after the head block, on a multiple of the interval once there is a block. */
  lemma {:induction false} SlotTimesAre(c: Clock, slot: nat)
    ensures SlotTime(c, 0) == 0
    ensures 0 < slot ==> SlotTime(c, slot) == SlotTime(c, 1) + 3 * (slot - 1)
    ensures if c.num == 0 then SlotTime(c, 1) == c.time + 3
            else c.time < SlotTime(c, 1) <= c.time + 3 && SlotTime(c, 1) % 3 == 0
  {
  }

  /** `get_slot_at_time`: the slot a time falls into, 0 when it is before the next slot. */
  function SlotAt(c: Clock, t: nat): (slot: nat) {
    var first := SlotTime(c, 1);
    if t < first then 0 else (t - first) / INTERVAL + 1
  }

  /** Slot numbers and slot times are inverse to each other: a time falls into the last slot that has begun. */
  lemma SlotAtIsInverse(c: Clock, t: nat, slot: nat)
    requires 0 < slot
    ensures SlotAt(c, SlotTime(c, slot)) == slot
    ensures SlotAt(c, t) == slot <==> SlotTime(c, slot) <= t < SlotTime(c, slot + 1)
  {
    var first := SlotTime(c, 1);
    assert SlotTime(c, slot) == first + (slot - 1) * INTERVAL;
    assert SlotTime(c, slot + 1) == first + slot * INTERVAL;
    assert (SlotTime(c, slot) - first) / INTERVAL == slot - 1;
  }

  /** A block at time `t`: refused before the next slot, otherwise the absolute slot advances over the missed ones. */
  function Produce(c: Clock, t: nat): (r: Clock)
    requires 0 < SlotAt(c, t)
  {
    c.(time := t, num := c.num + 1, aslot := c.aslot + SlotAt(c, t))
  }

  /** The clock after blocks at the given times, if none of them came too early. */
  function ClockAfter(genesis: nat, times: seq<nat>): (c: Option<Clock>)
    decreases |times|
  {
    if |times| == 0 then Some(AtGenesis(genesis))
    else
      var before := ClockAfter(genesis, times[..|times| - 1]);
      var t := times[|times| - 1];
      if before.None? || SlotAt(before.value, t) == 0 then None else Some(Produce(before.value, t))
  }

  /** Whole intervals between genesis and `t`. */
  function Elapsed(genesis: nat, t: nat): (n: int) {
    (t - genesis) / INTERVAL
  }

  /**
   After the first block the absolute slot and the head time in whole intervals
   advance together, however many slots are missed.
   */
  lemma {:induction false} SlotsFollowTime(genesis: nat, times: seq<nat>)
    requires ClockAfter(genesis, times).Some? && 0 < |times|
    ensures var c := ClockAfter(genesis, times).value;
            && c.time == times[|times| - 1] && c.num == |times| && c.genesis == genesis < times[0] <= c.time
            && c.aslot - c.time / INTERVAL == Elapsed(genesis, times[0]) - times[0] / INTERVAL
    decreases |times|
  {
    if |times| > 1 {
      SlotsFollowTime(genesis, times[..|times| - 1]);
    } else {
      assert times[..0] == [];
    }
  }

  lemma ElapsedIs(genesis: nat, t: nat)
    requires genesis <= t
    ensures Elapsed(genesis, t) ==
            t / INTERVAL - genesis / INTERVAL - if t % INTERVAL < genesis % INTERVAL then 1 else 0
  {
  }

  /**
   The absolute slot counts the whole intervals since genesis exactly when the
   first block and the head block lie on the same side of the genesis second
   within an interval; in particular whenever genesis is a multiple of the
   interval.
   */
  lemma {:induction false} SlotIsElapsedIff(genesis: nat, times: seq<nat>)
    requires ClockAfter(genesis, times).Some? && 0 < |times|
    ensures var c := ClockAfter(genesis, times).value;
            && (c.aslot == Elapsed(genesis, c.time) <==>
                 (times[0] % INTERVAL < genesis % INTERVAL <==> c.time % INTERVAL < genesis % INTERVAL))
            && (genesis % INTERVAL == 0 ==> c.aslot == Elapsed(genesis, c.time))
  {
    hide ClockAfter, Elapsed;
    SlotsFollowTime(genesis, times);
    ElapsedIs(genesis, times[0]);
    ElapsedIs(genesis, times[|times| - 1]);
  }

  /** With the main network's genesis, two blocks on time already put the absolute slot one ahead. */
  lemma {:induction false} MainNetworkIsOneAhead()
    ensures var genesis := 1510655500;
            var c := ClockAfter(genesis, [genesis + 3, genesis + 5]);
            c.Some? && c.value.aslot == Elapsed(genesis, c.value.time) + 1
  {
    var genesis := 1510655500;
    var c1 := Produce(AtGenesis(genesis), genesis + 3);
    assert [genesis + 3][..0] == [];
    assert ClockAfter(genesis, [genesis + 3]) == Some(c1);
    assert [genesis + 3, genesis + 5][..1] == [genesis + 3];
    assert SlotTime(c1, 1) == genesis + 5;
  }

  // ------------------------------------------------------- who produces

  /** `get_scheduled_witness`. */
  function ScheduledAt<T>(c: Clock, schedule: seq<T>, slot: nat): (w: T)
    requires schedule != []
  {
    schedule[(c.aslot + slot) % |schedule|]
  }

  /** Two numbers less than `n` apart with the same remainder are the same. */
  lemma SameRemainder(a: nat, b: nat, n: nat)
    requires 0 < n && a <= b < a + n && a % n == b % n
    ensures a == b
  {
    var qa, qb := a / n, b / n;
    assert a == qa * n + a % n && b == qb * n + b % n;
    if qa < qb {
      MoreTimes(qa, qb, n);
    }
  }

  /** Among any `n` consecutive numbers one has a given remainder. */
  lemma SomeRemainder(start: nat, n: nat, r: nat) returns (k: nat)
    requires r < n
    ensures k < n && (start + k) % n == r
  {
    var s := start % n;
    var q := start / n;
    assert start == q * n + s;
    if s <= r {
      k := r - s;
      assert start + k == q * n + r;
      RemainderOf(q, n, r);
    } else {
      k := n + r - s;
      assert start + k == (q + 1) * n + r;
      RemainderOf(q + 1, n, r);
    }
  }

  lemma RemainderOf(q: nat, n: nat, r: nat)
    requires r < n
    ensures (q * n + r) % n == r
    decreases q
  {
    var x := q * n + r;
    var m := x % n;
    var d := x / n;
    assert x == d * n + m;
    if d < q {
      MoreTimes(d, q, n);
    } else if q < d {
      MoreTimes(q, d, n);
    }
  }

  /** Under a fixed schedule of `n` different witnesses, any `n` consecutive slots give each of them exactly one. */
  lemma {:induction false} EachWitnessOnce<T(!new)>(c: Clock, schedule: seq<T>, first: nat, i: nat) returns (slot: nat)
    requires schedule != [] && Distinct(schedule) && i < |schedule|
    ensures first <= slot < first + |schedule| && ScheduledAt(c, schedule, slot) == schedule[i]
    ensures forall other: nat :: first <= other < first + |schedule| && ScheduledAt(c, schedule, other) == schedule[i] ==> other == slot
  {
    var n := |schedule|;
    var k := SomeRemainder(c.aslot + first, n, i);
    slot := first + k;
    assert c.aslot + slot == c.aslot + first + k;
    forall other: nat | first <= other < first + n && ScheduledAt(c, schedule, other) == schedule[i]
      ensures other == slot
    {
      var x, y := c.aslot + other, c.aslot + slot;
      assert x % n == i;
      if x <= y { SameRemainder(x, y, n); } else { SameRemainder(y, x, n); }
    }
  }

  /**
   Who may produce at a given time does not depend on how many slots were missed
   before: two heads of one chain agree on every later time.
   */
  lemma {:induction false} ScheduleIsByTime<T>(c: Clock, t1: nat, t2: nat, schedule: seq<T>)
    requires schedule != [] && 0 < SlotAt(c, t1) && t1 < t2
    requires 0 < c.num
    requires 0 < SlotAt(Produce(c, t1), t2)
    ensures ScheduledAt(c, schedule, SlotAt(c, t2)) == ScheduledAt(Produce(c, t1), schedule, SlotAt(Produce(c, t1), t2))
  {
    var d := Produce(c, t1);
    assert c.aslot + SlotAt(c, t2) == d.aslot + SlotAt(d, t2);
  }

  /** The block that is produced at a time belongs to the schedule's entry of its own absolute slot. */
  lemma {:induction false} ProducerOfBlock<T>(c: Clock, schedule: seq<T>, t: nat)
    requires schedule != [] && 0 < SlotAt(c, t)
    ensures var next := Produce(c, t);
            && ScheduledAt(c, schedule, SlotAt(c, t)) == schedule[next.aslot % |schedule|]
            && next.time == t && next.num == c.num + 1 && next.aslot == c.aslot + SlotAt(c, t)
  {
  }

  /** With three witnesses the first three slots after genesis go to the second, the third and the first. */
  lemma FirstThreeSlots(genesis: nat)
    ensures var c := AtGenesis(genesis);
            ScheduledAt(c, [10, 20, 30], 1) == 20 && ScheduledAt(c, [10, 20, 30], 2) == 30 && ScheduledAt(c, [10, 20, 30], 3) == 10
  {
  }
}
