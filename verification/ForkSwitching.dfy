/**
 What the exact outcomes of a switch come to: when recovery is certain, when a
 long switch makes it impossible, and how the log can stop a switch.
 */
module ForkSwitching {
  import opened Wrappers
  import opened ForkDatabase
  import opened ChainDatabase

  /** With the new head one above the old one, only the block where the forks part can be missing. */
  lemma {:induction false} OneHigherRecovers<S(!new)>(c: Chain<S>, m: Memory, chain: seq<Block>, p: seq<Block>, q: seq<Block>, f: nat, s: S)
    requires c.Lawful() && 0 < f <= |chain| && |p| == |q| + 1 >= 2 && c.Linked(chain)
    requires forall i :: 0 <= i < |p| ==> p[i].id in m.index && p[i].id.num == f + |p| - i
    requires chain[f - 1].id in m.index && c.Switching(m, p, q, s).lib <= f && c.Switching(m, p, q, s).state.None?
    ensures c.Recovers(m, chain, p, q, f, s)
  {
    hide Chain.Lawful, Chain.After, Chain.Reach;
    StillKnown(c, m, p, f, s, |p|);
    c.ReachAll(s, m, Some(p[|q|]), p);
  }

  lemma {:induction false} StillKnown<S(!new)>(c: Chain<S>, m: Memory, p: seq<Block>, f: nat, s: S, n: nat)
    requires c.Lawful() && n <= |p| && 2 <= |p| && c.After(s, m, Some(p[|p| - 1]), p, n).lib <= f
    requires forall i :: 0 <= i < |p| ==> p[i].id.num == f + |p| - i
    ensures forall id :: id in m.index && f <= id.num ==> id in c.After(s, m, Some(p[|p| - 1]), p, n).mem.index
  {
    hide Chain.Try;
    if n > 0 {
      StillKnown(c, m, p, f, s, n - 1);
      var before := c.After(s, m, Some(p[|p| - 1]), p, n - 1);
      if before.state.Some? { TryKeeps(c, before.state.value, before.mem, p[|p| - 1], p[|p| - n], f); }
    }
  }

  /** As long as nothing above number `f` becomes irreversible, a head right above `f` lets nothing from `f` on be forgotten. */
  lemma {:induction false} TryKeeps<S(!new)>(c: Chain<S>, s: S, m: Memory, head: Block, b: Block, f: nat)
    requires head.id.num == f + 1 <= b.id.num && c.Try(s, m, Some(head), b).lib <= f
    ensures forall id :: id in m.index && f <= id.num ==> id in c.Try(s, m, Some(head), b).mem.index
  {
    hide Copied;
  }

  /**
   A new head three above the old one: the first new block makes the point where
   the forks part irreversible and thereby lets the fork database forget it; when
   the second fails, the old fork cannot be restored.
   */
  lemma {:induction false} LongSwitchForgets<S(!new)>(c: Chain<S>, m: Memory, chain: seq<Block>, p: seq<Block>, q: seq<Block>, f: nat, s: S, t: S)
    requires |q| == 1 && |p| == 4 && 0 < f <= |chain| && c.Linked(chain) && f <= |m.log|
    requires forall i :: 0 <= i < |p| ==> p[i].id.num == f + |p| - i
    requires c.apply(s, p[3]) == Applied(t) && c.irreversible(t) == f && c.apply(t, p[2]) == Rejected(None)
    ensures c.Switching(m, p, q, s).lib == f && !c.Recovers(m, chain, p, q, f, s)
  {
    hide Chain.Try, Chain.After;
    var h := Some(p[1]);
    c.AfterNone(s, m, h, p);
    c.AfterStep(s, m, h, p, 0);
    FirstOfFour(c, m, p, f, s, t);
    c.AfterStep(s, m, h, p, 1);
    Unsettled(c, t, c.After(s, m, h, p, 1).mem, h, p[2]);
    c.Stops(s, m, h, p, 2, 4);
    assert chain[f - 1].id.num == f;
  }

  lemma {:induction false} FirstOfFour<S(!new)>(c: Chain<S>, m: Memory, p: seq<Block>, f: nat, s: S, t: S)
    requires |p| == 4 && f <= |m.log| && forall i :: 0 <= i < |p| ==> p[i].id.num == f + |p| - i
    requires c.apply(s, p[3]) == Applied(t) && c.irreversible(t) == f
    ensures c.Try(s, m, Some(p[1]), p[3]) == Trial(Some(t), Memory(Above(m.index, f + 1), m.log), f)
  {
    hide Above, FetchedAt;
  }

  lemma Unsettled<S(!new)>(c: Chain<S>, s: S, m: Memory, head: Option<Block>, b: Block)
    requires c.apply(s, b) == Rejected(None)
    ensures c.Try(s, m, head, b) == Trial(None, m, 0)
  {
  }

  /**
   Block 4 of the second fork applies to the state and makes block 3
   irreversible.  During the switch it fails all the same, since the fork
   database cannot tell which block 3 is meant, and what was committed is above
   block 1, where the forks part, so that the switch cannot be taken back.
   */
  lemma {:induction false} LogStopsSwitch<S(!new)>(c: Chain<S>, s: S, t: S, logged: seq<BlockId>)
    requires c.apply(s, ForkB4) == Applied(t) && c.irreversible(t) == 3 && |logged| <= 2
    ensures var r := c.Try(s, Memory(TwoForks, logged), Some(ForkB2), ForkB4);
            r.state == None && r.lib == 3
  {
    hide FetchedAt, Copied, Above;
    CopyFails(logged);
  }
}
