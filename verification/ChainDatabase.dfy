/**
 The chain database as a stack of states over the fork database and the block
 log: applying and undoing blocks, and switching to a longer fork with recovery
 when that fails.

 What a block does to the state is a parameter: a deterministic partial function.
 What it does to the log and to the fork database is modelled.
 */
module ChainDatabase {
  import opened Wrappers
  import opened Sequences
  import opened ForkDatabase

  /** The result of applying a block: a new state, or an exception, possibly after blocks up to `committed` became irreversible. */
  datatype Attempt<S> = Applied(state: S) | Rejected(committed: Option<nat>)

  datatype Outcome =
    | Refused(push: PushError)     // the fork database does not take the block
    | BranchLost(branch: BranchError)
    | Extended                     // applied on top of the head
    | Failed                       // not applicable on top of the head
    | Ignored                      // kept in the fork database only
    | Switched                     // now on the other fork
    | SwitchFailed                 // the other fork is invalid, back on the old one
    | PopFailed(recovering: bool)  // a block could not be popped

  /** Two sequences have the same first `n` elements. */
  ghost predicate Agree<T>(a: seq<T>, b: seq<T>, n: nat) {
    n <= |a| && n <= |b| && forall i :: 0 <= i < n ==> a[i] == b[i]
  }

  /** `bs` is the first `f` blocks of `chain` with the lowest `n` blocks of branch `p` on top. */
  ghost predicate Stacked(bs: seq<Block>, chain: seq<Block>, f: nat, p: seq<Block>, n: nat) {
    && Agree(bs, chain, f) && n <= |p| && |bs| == f + n
    && forall j :: f <= j < f + n ==> bs[j] == p[|p| - 1 - (j - f)]
  }

  lemma StackedNone(bs: seq<Block>, p: seq<Block>)
    ensures Stacked(bs, bs, |bs|, p, 0)
  {
  }

  lemma StackedMore(bs: seq<Block>, chain: seq<Block>, f: nat, p: seq<Block>, n: nat)
    requires Stacked(bs, chain, f, p, n) && n < |p|
    ensures Stacked(bs + [p[|p| - 1 - n]], chain, f, p, n + 1)
  {
  }

  lemma AgreeMore<T>(a: seq<T>, b: seq<T>, n: nat, x: T)
    requires Agree(a, b, n)
    ensures Agree(a + [x], b, n)
  {
  }

  lemma AgreeSelf<T>(a: seq<T>)
    ensures Agree(a, a, |a|)
  {
  }

  lemma StackedIs(bs: seq<Block>, chain: seq<Block>, f: nat, p: seq<Block>)
    requires Stacked(bs, chain, f, p, |p|)
    ensures bs == chain[..f] + Reversed(p)
  {
  }

  function Max(a: nat, b: nat): (m: nat) {
    if a < b then b else a
  }

  function Min(a: nat, b: nat): (m: nat) {
    if a < b then a else b
  }

  /** The blocks with numbers from `floor` on. */
  ghost function Above(index: Index, floor: nat): (r: Index)
    ensures forall id :: id in r <==> id in index && floor <= id.num
    ensures forall id :: id in r ==> r[id] == index[id]
  {
    map id | id in index && floor <= id.num :: index[id]
  }

  /** Without the first `k` blocks of a branch. */
  ghost function Dropped(index: Index, path: seq<Block>, k: nat): (r: Index)
    requires k <= |path|
    ensures forall id :: id in r <==> id in index && forall i :: 0 <= i < k ==> path[i].id != id
    ensures forall id :: id in r ==> r[id] == index[id]
  {
    map id | id in index && forall i :: 0 <= i < k ==> path[i].id != id :: index[id]
  }

  lemma DropOne(index: Index, b: Block)
    ensures Dropped(index, [b], 1) == index - {b.id}
  {
    assert [b][0] == b;
    forall id ensures id in Dropped(index, [b], 1) <==> id in index && id != b.id {}
  }

  lemma AboveZero(index: Index)
    ensures Above(index, 0) == index
  {
  }

  /** Where `k` pops take the fork database from block `b`, if every predecessor needed is in the index or held. */
  ghost function Back(content: BlockId -> Block, index: Index, held: Index, b: Block, k: nat): (r: Option<Block>)
    decreases k
  {
    if k == 0 then Some(b)
    else if b.previous in index || b.previous in held then Back(content, index, held, content(b.previous), k - 1)
    else None
  }

  lemma {:induction false} BackOnce(content: BlockId -> Block, index: Index, held: Index, b: Block, k: nat)
    ensures var here, next := Back(content, index, held, b, k), Back(content, index, held, b, k + 1);
            next == if here.Some? && (here.value.previous in index || here.value.previous in held)
                    then Some(content(here.value.previous)) else None
    decreases k
  {
    if k > 0 && (b.previous in index || b.previous in held) {
      BackOnce(content, index, held, content(b.previous), k - 1);
    }
  }

  lemma {:induction false} BackFails(content: BlockId -> Block, index: Index, held: Index, b: Block, k: nat, m: nat)
    requires Back(content, index, held, b, k).None? && k <= m
    ensures Back(content, index, held, b, m).None?
    decreases m
  {
    if k < m {
      BackFails(content, index, held, b, k, m - 1);
      BackOnce(content, index, held, b, m - 1);
    }
  }

  lemma {:induction false} BackOnPath(content: BlockId -> Block, index: Index, held: Index, p: seq<Block>, k: nat)
    requires Path(index, p) && k < |p| && forall i :: 0 <= i < |p| ==> p[i] == content(p[i].id)
    ensures Back(content, index, held, p[0], k) == Some(p[k])
    decreases k
  {
    if k > 0 {
      BackOnPath(content, index, held, p, k - 1);
      BackOnce(content, index, held, p[0], k - 1);
      assert p[k - 1].previous == p[k - 1 + 1].id;
    }
  }

  /** What the node remembers beside the state: the fork database's blocks and the ids in the block log. */
  datatype Memory = Memory(index: Index, log: seq<BlockId>)

  /** What an attempt leads to: a state if it succeeds, what is remembered then, and the number that became irreversible. */
  datatype Trial<S> = Trial(state: Option<S>, mem: Memory, lib: nat)

  class Chain<S(==, !new)> {
    const apply: (S, Block) -> Attempt<S>
    const headOf: S -> BlockId
    const irreversible: S -> nat
    const fork: ForkDb
    ghost const genesis: S
    var state: S
    var undo: seq<S>
    var log: seq<BlockId>          // ids of the blocks in the block log
    ghost var blocks: seq<Block>   // the applied chain
    ghost var history: seq<S>      // its states, the initial one first
    ghost var base: nat            // the oldest state that can be gone back to

    constructor (apply: (S, Block) -> Attempt<S>, headOf: S -> BlockId, irreversible: S -> nat, fork: ForkDb, genesis: S)
      ensures this.apply == apply && this.headOf == headOf && this.irreversible == irreversible
      ensures this.fork == fork && this.genesis == genesis && state == genesis && undo == [] && log == []
      ensures blocks == [] && base == 0 && history == [genesis]
    {
      this.apply, this.headOf, this.irreversible, this.fork, this.genesis := apply, headOf, irreversible, fork, genesis;
      state, undo, log, blocks, history, base := genesis, [], [], [], [genesis], 0;
    }

    /** What is assumed of applying blocks. */
    ghost predicate Lawful() {
      && headOf(genesis).num == 0 && irreversible(genesis) == 0
      && (forall s, b :: apply(s, b).Applied? ==>
            && b.previous == headOf(s) && headOf(apply(s, b).state) == b.id
            && irreversible(apply(s, b).state) <= b.id.num)
      && (forall s, b :: apply(s, b).Rejected? && apply(s, b).committed.Some? ==>
            b.previous == headOf(s) && apply(s, b).committed.value < b.id.num)
    }

    /** What was irreversible in any of `states` is in the log and cannot be gone back from. */
    ghost predicate Covers(states: seq<S>)
      reads this
    {
      forall i :: 0 <= i < |states| ==> irreversible(states[i]) <= base && irreversible(states[i]) <= |log|
    }

    ghost predicate Valid()
      reads this, fork
    {
      Core() && Covers(history)
    }

    ghost function Mem(): (m: Memory)
      reads this, fork
    {
      Memory(fork.index, log)
    }

    /** The state is the replay of the applied chain, and the undo stack is its tail from `base`. */
    ghost predicate Core()
      reads this, fork
    {
      && Lawful() && fork.Valid()
      && |history| == |blocks| + 1 && history[0] == genesis && state == history[|blocks|]
      && (forall i :: 0 <= i < |blocks| ==> StepOk(history[i], blocks[i], history[i + 1]))
      && base <= |blocks| && undo == history[base..|blocks|]
    }

    ghost predicate StepOk(s: S, b: Block, t: S) {
      apply(s, b) == Applied(t) && b == fork.content(b.id) && Numbered(b)
    }

    /** Replaying blocks from a state. */
    ghost function Replay(s: S, bs: seq<Block>): (r: Option<S>) {
      if |bs| == 0 then Some(s)
      else match apply(s, bs[0])
           case Applied(t) => Replay(t, bs[1..])
           case Rejected(_) => None
    }

    lemma {:induction false} ReplayIsHistory(i: nat)
      requires Valid() && i <= |blocks|
      ensures Replay(history[i], blocks[i..]) == Some(state)
      decreases |blocks| - i
    {
      if i < |blocks| {
        ReplayIsHistory(i + 1);
        assert blocks[i..][0] == blocks[i] && blocks[i..][1..] == blocks[i + 1..];
        assert StepOk(history[i], blocks[i], history[i + 1]);
      }
    }

    lemma HeadAt(i: nat)
      requires Core() && i <= |blocks|
      ensures headOf(history[i]).num == i
      ensures i > 0 ==> headOf(history[i]) == blocks[i - 1].id
      ensures i < |blocks| ==> blocks[i].previous == headOf(history[i])
    {
      if i > 0 {
        HeadAt(i - 1);
        assert StepOk(history[i - 1], blocks[i - 1], history[i - 1 + 1]);
      }
      if i < |blocks| { assert StepOk(history[i], blocks[i], history[i + 1]); }
    }

    /** `commit`: states at or below revision `n` can no longer be gone back to. */
    method Commit(n: nat)
      requires Core()
      modifies this`undo, this`base
      ensures Core()
      ensures base == if n <= old(base) then old(base) else if n <= |blocks| then n else |blocks|
    {
      var drop := n - (headOf(state).num - |undo|);
      HeadAt(|blocks|);
      if 0 < drop {
        if drop > |undo| { drop := |undo|; }
        undo := undo[drop..];
        base := base + drop;
      }
    }

    lemma ApplyLaw(s: S, b: Block)
      requires Lawful()
      ensures apply(s, b).Applied? ==>
        b.previous == headOf(s) && headOf(apply(s, b).state) == b.id && irreversible(apply(s, b).state) <= b.id.num
      ensures apply(s, b).Rejected? && apply(s, b).committed.Some? ==>
        b.previous == headOf(s) && apply(s, b).committed.value < b.id.num
    {
    }

    /** The new state is pushed on top of an undo session. */
    method PushSession(b: Block, next: S)
      requires Core() && StepOk(state, b, next)
      modifies this`undo, this`state, this`blocks, this`history
      ensures Core() && state == next
      ensures blocks == old(blocks) + [b] && history == old(history) + [next]
    {
      hide Lawful, StepOk, Good;
      undo := undo + [state];
      state := next;
      blocks := blocks + [b];
      history := history + [next];
    }

    /** The number up to which an attempt to apply a block makes blocks irreversible, if it gets that far. */
    ghost function SettledBy(a: Attempt<S>): (lib: Option<nat>) {
      match a
      case Applied(s) => Some(irreversible(s))
      case Rejected(committed) => committed
    }

    /** The number below which the fork database forgets blocks when block `num` has made `lib` irreversible. */
    ghost function FloorOf(lib: nat, num: nat, head: Option<Block>): (floor: nat) {
      if head.None? || lib > num then 0 else Floor(head.value, num - lib + 1)
    }

    /**
     One attempt to apply `b` while the fork database's head is `head`.  What has
     become irreversible is copied to the log before old blocks are forgotten; if
     the copy fails, so does the block, although it applies to the state.
     */
    ghost function Try(s: S, m: Memory, head: Option<Block>, b: Block): (t: Trial<S>) {
      var attempt := apply(s, b);
      var lib := SettledBy(attempt);
      if lib.None? then Trial(None, m, 0)
      else
        var copy := Copied(m.index, head, m.log, lib.value);
        if !copy.complete then Trial(None, Memory(m.index, copy.log), Min(lib.value, b.previous.num))
        else Trial(if attempt.Applied? then Some(attempt.state) else None,
                   Memory(Above(m.index, FloorOf(lib.value, b.id.num, head)), copy.log), lib.value)
    }

    /** A block is applied exactly when it applies to the state and every block it makes irreversible is in the log or given for it. */
    lemma {:induction false} TrySucceedsIff(s: S, m: Memory, head: Option<Block>, b: Block)
      ensures Try(s, m, head, b).state.Some? <==>
              apply(s, b).Applied? && forall n :: |m.log| < n <= irreversible(apply(s, b).state) ==> FetchedAt(m.index, head, n).Some?
    {
      hide FetchedAt, Copied;
      if apply(s, b).Applied? { CopiedIff(m.index, head, m.log, irreversible(apply(s, b).state)); }
    }

    /** One `apply_block` in its undo session. */
    method ApplyOne(b: Block) returns (ok: bool)
      requires Valid() && b == fork.content(b.id) && Numbered(b)
      modifies this, fork`index, fork`maxSize
      ensures Valid()
      ensures var t := Try(old(state), old(Mem()), fork.head, b);
              && (ok <==> t.state.Some?) && base == Max(old(base), t.lib) && Mem() == t.mem
              && (ok ==> blocks == old(blocks) + [b] && history == old(history) + [t.state.value])
      ensures !ok ==> blocks == old(blocks) && history == old(history) && state == old(state)
    {
      hide Valid, Copied, Above, FloorOf, Numbered;
      var attempt := apply(state, b);
      AttemptFacts(b);
      if attempt.Rejected? && attempt.committed.None? { return false; }
      var lib := if attempt.Applied? then irreversible(attempt.state) else attempt.committed.value;
      var complete := CopyLog(lib);
      ok := attempt.Applied? && complete;
      if ok { Extend(b, attempt.state, lib); } else { CommitUpTo(lib); }
      if complete { Shrink(lib, b.id.num); }
    }

    /** What is known of a block that gets as far as making blocks irreversible. */
    lemma {:induction false} AttemptFacts(b: Block)
      requires Valid() && b == fork.content(b.id) && Numbered(b)
      ensures var a := apply(state, b);
              && (a.Applied? ==> StepOk(state, b, a.state))
              && (SettledBy(a).Some? ==> SettledBy(a).value <= b.id.num == |blocks| + 1 && b.previous.num == |blocks|)
              && (a.Rejected? && a.committed.Some? ==> a.committed.value <= |blocks|)
    {
      ApplyLaw(state, b);
      HeadAt(|blocks|);
    }

    /** What has become irreversible goes to the log. */
    method CopyLog(lib: nat) returns (complete: bool)
      requires Valid()
      modifies this`log
      ensures Valid() && Copy(log, complete) == Copied(fork.index, fork.head, old(log), lib)
      ensures complete ==> lib <= |log|
    {
      hide Lawful, StepOk, Copied;
      CopiedIff(fork.index, fork.head, log, lib);
      log, complete := fork.CopyToLog(log, lib);
    }

    /** A new state on top, with what it makes irreversible. */
    method Extend(b: Block, next: S, lib: nat)
      requires Valid() && StepOk(state, b, next) && irreversible(next) == lib <= |log| && lib <= |blocks| + 1
      modifies this`undo, this`state, this`blocks, this`history, this`base
      ensures Valid() && base == Max(old(base), lib)
      ensures blocks == old(blocks) + [b] && history == old(history) + [next]
    {
      hide Lawful, StepOk, Core;
      CoreBase();
      PushSession(b, next);
      Commit(lib);
    }

    lemma CoreBase()
      requires Core()
      ensures base <= |blocks|
    {
    }

    method CommitUpTo(lib: nat)
      requires Valid()
      modifies this`undo, this`base
      ensures Valid() && base == Max(old(base), Min(lib, |blocks|))
    {
      hide Lawful, StepOk, Core;
      CoreBase();
      Commit(lib);
    }

    /** The fork database is told how many blocks are still reversible. */
    method Shrink(lib: nat, num: nat)
      requires Valid() && lib <= num
      modifies fork`index, fork`maxSize
      ensures Valid() && fork.index == Above(old(fork.index), FloorOf(lib, num, fork.head))
    {
      hide Lawful, StepOk;
      AboveZero(fork.index);
      fork.SetMaxSize(num - lib + 1);
    }

    /**
     `pop_block`: the head block is looked up, the fork database steps back and
     the last undo session is undone; with an empty undo stack that does nothing.
     */
    method PopBlock(held: Index) returns (ok: bool)
      requires Valid() && fork.Held(held)
      modifies this, fork`head
      ensures Valid() && base == old(base) && log == old(log)
      ensures ok <==>
        && (headOf(old(state)) in fork.index || old(undo) == [])
        && old(fork.head).Some?
        && (old(fork.head).value.previous in fork.index || old(fork.head).value.previous in held)
      ensures ok ==> fork.head == Some(fork.content(old(fork.head).value.previous))
      ensures ok ==> fork.head.value.id.num < old(fork.head).value.id.num
      ensures !ok ==> state == old(state) && blocks == old(blocks) && history == old(history) && fork.head == old(fork.head)
      ensures ok ==> |blocks| == (if |old(blocks)| > base then |old(blocks)| - 1 else |old(blocks)|)
      ensures Agree(blocks, old(blocks), |blocks|) && Agree(history, old(history), |history|)
    {
      hide Lawful, StepOk, Core, Covers, Good;
      CoreFork();
      if headOf(state) !in fork.index && undo != [] { return false; }
      ok := StepBack(held);
      CoreFork();
      if ok && undo != [] { UndoLast(); }
    }

    lemma CoreFork()
      requires Core()
      ensures fork.Valid() && |undo| == |blocks| - base && |history| == |blocks| + 1 && state == history[|blocks|]
    {
    }

    /** The fork database's own head steps back. */
    method StepBack(held: Index) returns (ok: bool)
      requires Valid() && fork.Held(held)
      modifies fork`head
      ensures Valid()
      ensures ok <==>
        old(fork.head).Some? && (old(fork.head).value.previous in fork.index || old(fork.head).value.previous in held)
      ensures ok ==> fork.head == Some(fork.content(old(fork.head).value.previous))
      ensures ok ==> fork.head.value.id.num < old(fork.head).value.id.num
      ensures !ok ==> fork.head == old(fork.head)
    {
      hide Lawful, StepOk;
      ok := fork.Pop(held);
    }

    /** The last undo session is undone. */
    method UndoLast()
      requires Valid() && undo != [] && |history| == |blocks| + 1 && 0 < |blocks|
      modifies this`state, this`undo, this`blocks, this`history
      ensures Valid()
      ensures blocks == old(blocks)[..|old(blocks)| - 1] && history == old(history)[..|old(history)| - 1]
    {
      hide Lawful, StepOk;
      ghost var bs, hs, n := blocks, history, |blocks| - 1;
      assert undo[|undo| - 1] == hs[n];
      assert undo[..|undo| - 1] == hs[base..n];
      state := undo[|undo| - 1];
      undo := undo[..|undo| - 1];
      blocks := blocks[..|blocks| - 1];
      history := history[..|history| - 1];
      assert history[n] == hs[n] && history[base..n] == hs[base..n];
      forall i | 0 <= i < |blocks| ensures StepOk(history[i], blocks[i], history[i + 1]) {
        assert StepOk(hs[i], bs[i], hs[i + 1]);
      }
    }

    /**
     From the chain `bs` and the fork database's head `h`, state `t` can be gone
     back to: it is not too old, what is popped is known, and the head can step
     back as often.
     */
    ghost predicate CanPopFrom(held: Index, h: Option<Block>, bs: seq<Block>, t: nat)
      reads this, fork
    {
      t == |bs| ||
      (&& base <= t < |bs|
       && (forall i :: t <= i < |bs| ==> bs[i].id in fork.index)
       && h.Some? && Back(fork.content, fork.index, held, h.value, |bs| - t).Some?)
    }

    ghost predicate CanPopTo(held: Index, t: nat)
      reads this, fork
    {
      CanPopFrom(held, fork.head, blocks, t)
    }

    /** Between two pops on the way from `bs` to state `t`. */
    ghost predicate Popping(held: Index, h: Option<Block>, bs: seq<Block>, hs: seq<S>, t: nat)
      reads this, fork
    {
      && StateIsLast() && base <= |blocks| && t <= |blocks| <= |bs|
      && Agree(blocks, bs, |blocks|) && Agree(history, hs, |history|)
      && (if h.None? then fork.head.None? && |blocks| == |bs| else fork.head.Some?)
      && (base <= t || base < |blocks| ==>
            && (forall i :: |blocks| <= i < |bs| ==> bs[i].id in fork.index)
            && (h.Some? ==> fork.head == Back(fork.content, fork.index, held, h.value, |bs| - |blocks|)))
    }

    /** One pop on the way, or the reason why it cannot be made. */
    method PopStep(held: Index, ghost h: Option<Block>, ghost bs: seq<Block>, ghost hs: seq<S>, ghost t: nat) returns (ok: bool)
      requires Valid() && fork.Held(held) && Popping(held, h, bs, hs, t) && t < |blocks|
      modifies this, fork`head
      ensures Valid() && base == old(base) && log == old(log) && Popping(held, h, bs, hs, t)
      ensures ok ==> old(fork.head).Some? && fork.head.Some? && fork.head.value.id.num < old(fork.head).value.id.num
      ensures !ok ==> !CanPopFrom(held, h, bs, t) && (t < base ==> |blocks| == base || !CanPopFrom(held, h, bs, base))
    {
      hide Valid, Back, Good, Numbered;
      Basics();
      ghost var k := |bs| - |blocks|;
      if h.Some? { BackOnce(fork.content, fork.index, held, h.value, k); }
      assert bs[|blocks| - 1] == blocks[|blocks| - 1];
      ok := PopBlock(held);
      if !ok && h.Some? && Back(fork.content, fork.index, held, h.value, k + 1).None? {
        if base <= t { BackFails(fork.content, fork.index, held, h.value, k + 1, |bs| - t); }
        else if base < |blocks| { BackFails(fork.content, fork.index, held, h.value, k + 1, |bs| - base); }
      }
      Basics();
    }

    /** Pops blocks until the head is that of state `t`; it arrives exactly when that state can be gone back to. */
    method PopTo(target: BlockId, held: Index, ghost t: nat) returns (ok: bool)
      requires Valid() && fork.Held(held) && t <= |blocks| && |history| == |blocks| + 1 && headOf(history[t]) == target
      modifies this, fork`head
      ensures Valid() && base == old(base) && log == old(log)
      ensures Agree(blocks, old(blocks), |blocks|) && Agree(history, old(history), |history|)
      ensures ok <==> old(CanPopTo(held, t))
      ensures t < base && old(CanPopTo(held, base)) ==> |blocks| == base
      ensures ok ==> |blocks| == t && headOf(state) == target
      ensures ok && old(fork.head).Some? ==>
        fork.head == Back(fork.content, fork.index, held, old(fork.head).value, |old(blocks)| - t)
    {
      hide Valid, Back, Good, Numbered;
      Basics();
      ghost var h0, bs, hs := fork.head, blocks, history;
      HeadAtOld(t);
      BackStart(held);
      while headOf(state) != target
        invariant Valid() && log == old(log) && base == old(base) && Popping(held, h0, bs, hs, t)
        invariant headOf(state) == target <==> |blocks| == t
        decreases fork.head.Some?, if fork.head.Some? then fork.head.value.id.num else 0
      {
        var stepped := PopStep(held, h0, bs, hs, t);
        if !stepped { return false; }
        Basics();
        assert history[t] == hs[t];
        HeadAtOld(t);
      }
      ok := true;
    }

    lemma BackStart(held: Index)
      ensures fork.head.Some? ==> fork.head == Back(fork.content, fork.index, held, fork.head.value, 0)
    {
    }

    /** Heads of the chain differ by their number. */
    lemma HeadAtOld(t: nat)
      requires Valid() && t <= |blocks|
      ensures |history| == |blocks| + 1 && (headOf(history[t]) == headOf(state) ==> t == |blocks|)
    {
      HeadAt(t);
      HeadAt(|blocks|);
    }

    ghost predicate StateIsLast()
      reads this
    {
      0 < |history| == |blocks| + 1 && state == history[|history| - 1]
    }

    lemma Basics()
      requires Valid()
      ensures StateIsLast() && base <= |blocks| && fork.Valid() && headOf(state).num == |blocks|
      ensures 0 < |blocks| ==> headOf(state) == blocks[|blocks| - 1].id
      ensures |undo| == |blocks| - base
    {
      HeadAt(|blocks|);
    }

    ghost predicate Real(path: seq<Block>)
    {
      forall i :: 0 <= i < |path| ==> path[i] == fork.content(path[i].id) && Numbered(path[i])
    }

    // ------------------------------------------------------- what a branch does, block by block

    /** What attempting the lowest `n` blocks of a branch in turn leads to; after a block that fails nothing more is tried. */
    ghost function After(s: S, m: Memory, head: Option<Block>, path: seq<Block>, n: nat): (t: Trial<S>)
      requires n <= |path|
    {
      if n == 0 then Trial(Some(s), m, 0)
      else
        var before := After(s, m, head, path, n - 1);
        if before.state.None? then before
        else
          var step := Try(before.state.value, before.mem, head, path[|path| - n]);
          Trial(step.state, step.mem, Max(before.lib, step.lib))
    }

    /** How many of the lowest `n` blocks are applied. */
    ghost function Reach(s: S, m: Memory, head: Option<Block>, path: seq<Block>, n: nat): (k: nat)
      requires n <= |path|
      ensures k <= n
    {
      if n == 0 || After(s, m, head, path, n).state.Some? then n else Reach(s, m, head, path, n - 1)
    }

    lemma {:induction false} Stops(s: S, m: Memory, head: Option<Block>, path: seq<Block>, k: nat, n: nat)
      requires 0 < k <= n <= |path| && After(s, m, head, path, k - 1).state.Some? && After(s, m, head, path, k).state.None?
      ensures After(s, m, head, path, n) == After(s, m, head, path, k) && Reach(s, m, head, path, n) == k - 1
      decreases n
    {
      hide Try;
      if k < n { Stops(s, m, head, path, k, n - 1); }
    }

    /** What became irreversible was made so by one of the attempted blocks. */
    lemma {:induction false} LibIsFromBlock(s: S, m: Memory, head: Option<Block>, path: seq<Block>, n: nat) returns (k: nat)
      requires n <= |path| && 0 < After(s, m, head, path, n).lib
      ensures k < n && After(s, m, head, path, k).state.Some?
      ensures var t := After(s, m, head, path, k);
              Try(t.state.value, t.mem, head, path[|path| - (k + 1)]).lib == After(s, m, head, path, n).lib
    {
      hide Try;
      var before := After(s, m, head, path, n - 1);
      if before.state.Some? && Try(before.state.value, before.mem, head, path[|path| - n]).lib == After(s, m, head, path, n).lib {
        k := n - 1;
      } else {
        k := LibIsFromBlock(s, m, head, path, n - 1);
      }
    }

    /** The log only grows. */
    lemma {:induction false} LogGrows(s: S, m: Memory, head: Option<Block>, path: seq<Block>, n: nat)
      requires n <= |path|
      ensures |m.log| <= |After(s, m, head, path, n).mem.log|
    {
      hide Copied;
      if n > 0 {
        LogGrows(s, m, head, path, n - 1);
        var before := After(s, m, head, path, n - 1);
        if before.state.Some? {
          var lib := SettledBy(apply(before.state.value, path[|path| - n]));
          if lib.Some? { CopiedIff(before.mem.index, head, before.mem.log, lib.value); }
        }
      }
    }

    lemma {:induction false} AfterStep(s: S, m: Memory, head: Option<Block>, path: seq<Block>, n: nat)
      requires n < |path| && After(s, m, head, path, n).state.Some?
      ensures var before, after := After(s, m, head, path, n), After(s, m, head, path, n + 1);
              var step := Try(before.state.value, before.mem, head, path[|path| - 1 - n]);
              after == Trial(step.state, step.mem, Max(before.lib, step.lib))
    {
      hide Try;
    }

    lemma AfterNone(s: S, m: Memory, head: Option<Block>, path: seq<Block>)
      ensures After(s, m, head, path, 0) == Trial(Some(s), m, 0)
    {
    }

    ghost predicate ReplayStep(states: seq<S>, f: nat, q: seq<Block>, j: nat)
      requires f <= j < f + |q| && |states| == f + |q| + 1
    {
      apply(states[j], q[|q| - 1 - (j - f)]) == Applied(states[j + 1])
    }

    /** From its `f`-th state on, `states` is a replay of branch `q`. */
    ghost predicate Replays(states: seq<S>, f: nat, q: seq<Block>) {
      |states| == f + |q| + 1 && forall j: nat :: f <= j < f + |q| ==> ReplayStep(states, f, q, j)
    }

    /** A branch whose irreversible part is in the log has the same states again and makes nothing new irreversible. */
    lemma {:induction false} ReplayAgain(states: seq<S>, f: nat, q: seq<Block>, m: Memory, head: Option<Block>, bound: nat, n: nat)
      requires Replays(states, f, q) && n <= |q|
      requires forall i :: 0 <= i < |states| ==> irreversible(states[i]) <= bound && irreversible(states[i]) <= |m.log|
      ensures var t := After(states[f], m, head, q, n);
              t.state == Some(states[f + n]) && t.mem.log == m.log && t.lib <= bound
    {
      hide Try;
      if n > 0 {
        ReplayAgain(states, f, q, m, head, bound, n - 1);
        assert ReplayStep(states, f, q, f + n - 1);
        assert irreversible(states[f + n]) <= |m.log|;
        var before := After(states[f], m, head, q, n - 1);
        TryLogged(states[f + n - 1], states[f + n], before.mem, head, q[|q| - n]);
      }
    }

    /** Nothing has to be copied for a block whose irreversible number is in the log. */
    lemma {:induction false} TryLogged(s: S, t: S, m: Memory, head: Option<Block>, b: Block)
      requires apply(s, b) == Applied(t) && irreversible(t) <= |m.log|
      ensures var r := Try(s, m, head, b); r.state == Some(t) && r.mem.log == m.log && r.lib == irreversible(t)
    {
      hide FetchedAt, Above;
    }

    /** The states above number `n0` are those of the branch. */
    ghost predicate OnBranch(s: S, m: Memory, head: Option<Block>, path: seq<Block>, n0: nat, applied: nat)
      reads this
    {
      && applied <= |path| && |history| == n0 + applied + 1
      && forall i: nat :: i <= applied ==> After(s, m, head, path, i).state == Some(history[n0 + i])
    }

    /**
     Applies the blocks of a branch from its low end up, each in its own session,
     until one fails: exactly as many as are applied in turn, with exactly their
     effect on what is irreversible, logged and remembered.
     */
    method ApplyBranch(path: seq<Block>) returns (applied: nat)
      requires Valid() && Real(path)
      modifies this, fork`index, fork`maxSize
      ensures Valid()
      ensures Stacked(blocks, old(blocks), |old(blocks)|, path, applied)
      ensures Agree(history, old(history), |old(history)|)
      ensures applied == Reach(old(state), old(Mem()), fork.head, path, |path|)
      ensures OnBranch(old(state), old(Mem()), fork.head, path, |old(blocks)|, applied)
      ensures base == Max(old(base), After(old(state), old(Mem()), fork.head, path, |path|).lib)
      ensures Mem() == After(old(state), old(Mem()), fork.head, path, |path|).mem
    {
      hide Valid, Numbered, Good, Stacked, Agree, Try, After;
      Basics();
      AgreeSelf(history);
      ghost var n, s0, m0, h := |blocks|, state, Mem(), fork.head;
      assert Stacked(blocks, blocks, n, path, 0) by { StackedNone(blocks, path); }
      AfterNone(s0, m0, h, path);
      applied := 0;
      while applied < |path|
        invariant Valid() && StateIsLast() && applied <= |path| && |blocks| == n + applied
        invariant Stacked(blocks, old(blocks), n, path, applied)
        invariant Agree(history, old(history), |old(history)|)
        invariant OnBranch(s0, m0, h, path, n, applied)
        invariant base == Max(old(base), After(s0, m0, h, path, applied).lib)
        invariant Mem() == After(s0, m0, h, path, applied).mem
      {
        var b := path[|path| - 1 - applied];
        ghost var lower, past := blocks, history;
        AfterStep(s0, m0, h, path, applied);
        var ok := ApplyOne(b);
        if !ok {
          Stops(s0, m0, h, path, applied + 1, |path|);
          return;
        }
        Basics();
        StackedMore(lower, old(blocks), n, path, applied);
        AgreeMore(past, old(history), |old(history)|, state);
        applied := applied + 1;
      }
    }

    /** The branch from the head back to number `f` is the top of the applied chain, the last block first. */
    lemma {:induction false} BranchIsChain(q: seq<Block>, i: nat)
      requires Valid() && Path(fork.index, q) && 0 < |q| <= |blocks| && q[0].id == headOf(state) && i < |q|
      ensures q[i] == blocks[|blocks| - 1 - i]
    {
      hide Lawful;
      var n := |blocks|;
      if i == 0 {
        HeadAt(n);
      } else {
        BranchIsChain(q, i - 1);
        HeadAt(n - i);
        assert q[i - 1].previous == q[i - 1 + 1].id;
      }
      assert StepOk(history[n - 1 - i], blocks[n - 1 - i], history[n - 1 - i + 1]);
    }

    /** The numbers of two branches, one from a higher block and one from the head. */
    lemma {:induction false} SwitchNumbers(first: BlockId, p: seq<Block>, q: seq<Block>)
      requires Valid() && Branches(fork.index, first, headOf(state), p, q) && first.num > headOf(state).num
      ensures var f := q[|q| - 1].previous.num;
              && f < |blocks| && |q| == |blocks| - f < |p| && first.num == f + |p|
              && (forall i :: 0 <= i < |p| ==> p[i].id.num == f + |p| - i)
              && (forall i :: 0 <= i < |q| ==> q[i].id.num == f + |q| - i)
    {
      hide Lawful, StepOk;
      assert headOf(state).num == |blocks| by { HeadAt(|blocks|); }
      BranchLengths(fork.index, first, headOf(state), p, q);
      var f := q[|q| - 1].previous.num;
      forall i | 0 <= i < |p| ensures p[i].id.num == f + |p| - i { PathNumbers(fork.index, p, i); }
      forall i | 0 <= i < |q| ensures q[i].id.num == f + |q| - i { PathNumbers(fork.index, q, i); }
    }

    /** The branch from the head is the applied chain above the point where the branches part. */
    lemma {:induction false} SwitchChain(first: BlockId, p: seq<Block>, q: seq<Block>, f: nat)
      requires Valid() && Branches(fork.index, first, headOf(state), p, q)
      requires f == q[|q| - 1].previous.num && f < |blocks| && |q| == |blocks| - f
      ensures Stacked(blocks, blocks, f, q, |q|) && Replays(history, f, q)
      ensures headOf(history[f]) == q[|q| - 1].previous == p[|p| - 1].previous
    {
      hide Lawful;
      forall j: nat | f <= j < f + |q|
        ensures blocks[j] == q[|q| - 1 - (j - f)] && ReplayStep(history, f, q, j)
      {
        BranchIsChain(q, |q| - 1 - (j - f));
        assert StepOk(history[j], blocks[j], history[j + 1]);
      }
      HeadAt(f);
    }

    lemma {:induction false} SwitchReal(first: BlockId, p: seq<Block>, q: seq<Block>)
      requires Valid() && Branches(fork.index, first, headOf(state), p, q)
      ensures Real(p) && Real(q) && Path(fork.index, p)
      ensures 0 < |p| && p[0].id == first && forall i :: 0 <= i < |p| ==> p[i].id in fork.index
    {
      hide Lawful, StepOk;
    }

    /** Removes from the fork database the blocks of a branch that were not applied. */
    method Forget(path: seq<Block>, n: nat)
      requires Valid() && n <= |path|
      modifies fork`index
      ensures Valid() && fork.index == Dropped(old(fork.index), path, n)
    {
      hide Lawful, StepOk, Good;
      var i := n;
      while 0 < i
        invariant 0 <= i <= n && Valid()
        invariant forall id :: id in fork.index <==> id in old(fork.index) && forall j :: i <= j < n ==> path[j].id != id
        invariant forall id :: id in fork.index ==> fork.index[id] == old(fork.index)[id]
      {
        i := i - 1;
        fork.Remove(path[i].id);
      }
    }

    /** The blocks of two branches, kept alive while a switch is under way. */
    method HoldBranches(ghost first: BlockId, ghost second: BlockId, p: seq<Block>, q: seq<Block>) returns (held: Index)
      requires fork.Valid() && Branches(fork.index, first, second, p, q)
      ensures fork.Held(held)
      ensures forall b :: b in p || b in q ==> b.id in held && held[b.id] == b
      ensures forall id :: id in held ==> exists b :: (b in p || b in q) && b.id == id
      ensures forall id :: id in held ==> q[|q| - 1].previous.num < id.num
    {
      var ids := set b | b in p + q :: b.id;
      held := map id | id in ids && id in fork.index :: fork.index[id];
      forall b | b in p || b in q ensures b.id in held && held[b.id] == b {
        assert b in p + q;
      }
      forall id | id in held ensures exists b :: (b in p || b in q) && b.id == id {
        assert id in ids;
      }
      forall id | id in held ensures q[|q| - 1].previous.num < id.num {
        AbovePart(fork.index, first, second, p, q, id);
      }
    }

    /** Every block of the two branches is above the point where they part. */
    lemma {:induction false} AbovePart(index: Index, first: BlockId, second: BlockId, p: seq<Block>, q: seq<Block>, id: BlockId)
      requires Good(index) && Branches(index, first, second, p, q) && exists b :: (b in p || b in q) && b.id == id
      ensures q[|q| - 1].previous.num < id.num
    {
      BranchLengths(index, first, second, p, q);
      var b :| (b in p || b in q) && b.id == id;
      if b in p {
        var i :| 0 <= i < |p| && p[i] == b;
        PathNumbers(index, p, i);
      } else {
        var i :| 0 <= i < |q| && q[i] == b;
        PathNumbers(index, q, i);
      }
    }

    /** Pops the blocks above the point where the branches part; impossible exactly when that is too old. */
    method PopOldFork(newHead: Block, p: seq<Block>, q: seq<Block>, held: Index) returns (ok: bool)
      requires Valid() && fork.head == Some(newHead) && newHead.id.num > headOf(state).num
      requires Branches(fork.index, newHead.id, headOf(state), p, q) && fork.Held(held)
      modifies this, fork`head
      ensures Valid() && base == old(base)
      ensures Agree(blocks, old(blocks), |blocks|) && Agree(history, old(history), |history|)
      ensures ok <==> base <= q[|q| - 1].previous.num
      ensures ok ==> |blocks| == q[|q| - 1].previous.num && |q| < |p| && fork.head == Some(p[|q|])
      ensures !ok ==> |blocks| == base
      ensures log == old(log)
    {
      hide Valid;
      Basics();
      ghost var f := q[|q| - 1].previous.num;
      SwitchNumbers(newHead.id, p, q);
      SwitchChain(newHead.id, p, q, f);
      SwitchReal(newHead.id, p, q);
      forall i | f <= i < |blocks| ensures blocks[i].id in fork.index {
        assert blocks[i] == q[|q| - 1 - (i - f)];
      }
      assert newHead == p[0];
      BackOnPath(fork.content, fork.index, held, p, |q|);
      if f < base { BackOnPath(fork.content, fork.index, held, p, |blocks| - base); }
      ok := PopTo(q[|q| - 1].previous, held, f);
      Basics();
    }

    // ------------------------------------------------------- going back to the old fork

    /** Blocks as they lie below each other on a chain that starts at genesis. */
    ghost predicate Linked(chain: seq<Block>) {
      && Real(chain)
      && (forall i :: 0 <= i < |chain| ==> chain[i].id.num == i + 1)
      && (forall i :: 1 <= i < |chain| ==> chain[i].previous == chain[i - 1].id)
    }

    /** A branch whose blocks are held, the highest first. */
    ghost predicate HeldPath(q: seq<Block>, held: Index) {
      forall i :: 0 <= i < |q| ==> q[i].id in held && (i > 0 ==> q[i - 1].previous == q[i].id)
    }

    /** A switch from branch `q` of the chain to branch `p`, which part above number `f`. */
    ghost predicate Prepared(p: seq<Block>, q: seq<Block>, held: Index, f: nat, chain: seq<Block>, states: seq<S>)
    {
      && Real(p) && Real(q) && 0 < |q| < |p| && |states| == |chain| + 1
      && Stacked(chain, chain, f, q, |q|) && Replays(states, f, q)
      && headOf(states[f]) == q[|q| - 1].previous && q[|q| - 1].previous.num == f
      && (forall i :: 0 <= i < |p| ==> p[i].id.num == f + |p| - i)
      && Linked(chain) && (f > 0 ==> q[|q| - 1].previous == chain[f - 1].id)
      && HeldPath(q, held) && (forall id :: id in held ==> f < id.num)
    }

    lemma {:induction false} ChainIsLinked()
      requires Valid()
      ensures Linked(blocks)
    {
      hide Lawful;
      forall i | 0 <= i < |blocks|
        ensures blocks[i] == fork.content(blocks[i].id) && Numbered(blocks[i]) && blocks[i].id.num == i + 1
        ensures i > 0 ==> blocks[i].previous == blocks[i - 1].id
      {
        HeadAt(i);
        assert StepOk(history[i], blocks[i], history[i + 1]);
      }
    }

    lemma {:induction false} PrepareSwitch(first: BlockId, p: seq<Block>, q: seq<Block>, held: Index, f: nat)
      requires Valid() && 0 < |q| && Branches(fork.index, first, headOf(state), p, q) && first.num > headOf(state).num
      requires f == q[|q| - 1].previous.num && (forall b :: b in p || b in q ==> b.id in held) && (forall id :: id in held ==> f < id.num)
      ensures f < |blocks| && Prepared(p, q, held, f, blocks, history)
      ensures p[0].id == first && forall i :: 0 <= i < |p| ==> p[i].id in fork.index
    {
      hide Lawful, StepOk, Good, Replays, Real, Linked, Stacked;
      SwitchNumbers(first, p, q);
      SwitchChain(first, p, q, f);
      SwitchReal(first, p, q);
      ChainIsLinked();
      if f > 0 { HeadAt(f); }
      assert HeldPath(q, held) by {
        forall i | 0 <= i < |q| ensures q[i].id in held && (i > 0 ==> q[i - 1].previous == q[i].id) {
          assert q[i] in q;
          if i > 0 { assert q[i - 1].previous == q[i - 1 + 1].id; }
        }
      }
    }

    /** Stepping back from the old head: over the held branch, then down the chain as far as it is known. */
    lemma {:induction false} BackBelow(q: seq<Block>, held: Index, f: nat, chain: seq<Block>, index: Index, n: nat)
      requires 0 < |q| && Real(q) && HeldPath(q, held) && Linked(chain) && f <= |chain| && Good(index)
      requires q[|q| - 1].previous.num == f && (f > 0 ==> q[|q| - 1].previous == chain[f - 1].id)
      requires forall id :: id in held ==> f < id.num
      ensures var r := Back(fork.content, index, held, q[0], n);
              && (r.Some? <==> KnownBelow(index, chain, f, |q|, n))
              && (r.Some? ==> r.value == if n < |q| then q[n] else chain[f - 1 - (n - |q|)])
      decreases n
    {
      if n > 0 {
        BackBelow(q, held, f, chain, index, n - 1);
        BackOnce(fork.content, index, held, q[0], n - 1);
        if n < |q| {
          assert q[n].id in held && q[n - 1].previous == q[n].id;
        } else {
          BelowStep(q, f, chain, index, n);
        }
      }
    }

    lemma {:induction false} BelowStep(q: seq<Block>, f: nat, chain: seq<Block>, index: Index, n: nat)
      requires 0 < |q| <= n && Real(q) && Linked(chain) && f <= |chain| && Good(index)
      requires q[|q| - 1].previous.num == f && (f > 0 ==> q[|q| - 1].previous == chain[f - 1].id)
      ensures KnownBelow(index, chain, f, |q|, n) ==> KnownBelow(index, chain, f, |q|, n - 1)
      ensures KnownBelow(index, chain, f, |q|, n - 1) ==>
                var b := if n == |q| then q[|q| - 1] else chain[f - (n - |q|)];
                && b.previous.num <= f
                && (KnownBelow(index, chain, f, |q|, n) <==> b.previous in index)
                && (KnownBelow(index, chain, f, |q|, n) ==> fork.content(b.previous) == chain[f - 1 - (n - |q|)])
    {
      if KnownBelow(index, chain, f, |q|, n - 1) {
        var b := if n == |q| then q[|q| - 1] else chain[f - (n - |q|)];
        var at := f - (n - |q|);
        assert Numbered(b) && b.previous.num == at;
        assert at > 0 ==> b.previous == chain[at - 1].id;
        assert b.previous in index ==> index[b.previous].id.num > 0;
        assert at > 0 ==> chain[at - 1] == fork.content(chain[at - 1].id);
      }
    }

    /** `n` pops from a branch of length `len` above number `f` find all the predecessors they need below it. */
    ghost predicate KnownBelow(index: Index, chain: seq<Block>, f: nat, len: nat, n: nat)
      requires f <= |chain|
    {
      n < len || (n - len < f && forall i :: f - 1 - (n - len) <= i < f ==> chain[i].id in index)
    }

    /** With `index`, the lowest `n` blocks of `p` can be popped again. */
    ghost predicate CanRecover(index: Index, chain: seq<Block>, p: seq<Block>, q: seq<Block>, f: nat, n: nat)
      requires n <= |p| && f <= |chain|
    {
      && (forall i :: |p| - n <= i < |p| ==> p[i].id in index)
      && KnownBelow(index, chain, f, |q|, n)
    }

    /**
     Back to the old fork after `n` blocks of the new one: pop them, then apply
     the old blocks again, which cannot fail.  Exactly when nothing below became
     irreversible and every block needed for popping is known.
     */
    method Recover(p: seq<Block>, q: seq<Block>, held: Index, ghost n: nat, ghost f: nat, ghost chain: seq<Block>, ghost states: seq<S>)
      returns (ok: bool)
      requires Valid() && fork.Held(held) && Prepared(p, q, held, f, chain, states) && Covers(states)
      requires n < |p| && Stacked(blocks, chain, f, p, n) && Agree(history, states, f + 1)
      modifies this, fork
      ensures Valid() && base == old(base) && log == old(log)
      ensures ok <==> base <= f && CanRecover(old(fork.index), chain, p, q, f, n)
      ensures ok ==> |blocks| == |chain| && Agree(blocks, chain, |chain|) && Agree(history, states, |states|)
      ensures !ok ==> Agree(blocks, old(blocks), |blocks|) && fork.index == old(fork.index)
      ensures ok ==> (n < |q| || n - |q| < f <= |chain|) && fork.head == Some(PoppedHead(q, chain, f, n))
      ensures ok ==> fork.index == After(states[f], old(Mem()), fork.head, q, |q|).mem.index
    {
      hide Valid, Good, Numbered, After, Reach, CanRecover, Above;
      ok := PopNewFork(p, q, held, n, f, chain, states);
      if !ok { return; }
      Basics();
      assert Agree(blocks, chain, f) && state == states[f];
      ghost var m, h := Mem(), fork.head;
      var done := ApplyBranch(q);
      Basics();
      ReplayAgain(states, f, q, m, h, base, |q|);
      assert base == old(base) by { ReplayAgain(states, f, q, m, h, old(base), |q|); }
      ReachAll(states[f], m, h, q);
      BranchAgrees(states, f, q, m, h);
    }

    lemma {:induction false} BranchAgrees(states: seq<S>, f: nat, q: seq<Block>, m: Memory, head: Option<Block>)
      requires Replays(states, f, q) && OnBranch(states[f], m, head, q, f, |q|) && Agree(history, states, f + 1)
      requires forall i :: 0 <= i < |states| ==> irreversible(states[i]) <= |m.log|
      ensures Agree(history, states, |states|)
    {
      hide After;
      forall i | 0 <= i < |states| ensures history[i] == states[i] {
        if f < i {
          ReplayAgain(states, f, q, m, head, |m.log|, i - f);
          assert After(states[f], m, head, q, i - f).state == Some(history[f + (i - f)]);
        }
      }
    }

    /** Where `n` pops take the fork database from the old head: down the old branch, then down the chain. */
    ghost function PoppedHead(q: seq<Block>, chain: seq<Block>, f: nat, n: nat): (b: Block)
      requires n < |q| || n - |q| < f <= |chain|
    {
      if n < |q| then q[n] else chain[f - 1 - (n - |q|)]
    }

    /** The first half of the recovery: the blocks of the new fork are popped again. */
    method PopNewFork(p: seq<Block>, q: seq<Block>, held: Index, ghost n: nat, ghost f: nat, ghost chain: seq<Block>, ghost states: seq<S>)
      returns (ok: bool)
      requires Valid() && fork.Held(held) && Prepared(p, q, held, f, chain, states)
      requires n < |p| && Stacked(blocks, chain, f, p, n) && Agree(history, states, f + 1)
      modifies this, fork`head
      ensures Valid() && base == old(base)
      ensures Agree(blocks, old(blocks), |blocks|) && Agree(history, old(history), |history|)
      ensures ok <==> base <= f && CanRecover(fork.index, chain, p, q, f, n)
      ensures ok ==> |blocks| == f && (n < |q| || n - |q| < f <= |chain|) && fork.head == Some(PoppedHead(q, chain, f, n))
      ensures log == old(log)
    {
      hide Valid, Good, Numbered, Linked, HeldPath, Back, KnownBelow, Replays;
      Basics();
      SetForkHead(q[0]);
      BackBelow(q, held, f, chain, fork.index, n);
      PoppedKnown(chain, p, f, n);
      NothingBelow(fork.index, chain, f, |q|);
      if KnownBelow(fork.index, chain, f, |q|, n) { BelowWithin(fork.index, chain, f, |q|, n); }
      ok := PopTo(q[|q| - 1].previous, held, f);
    }

    lemma NothingBelow(index: Index, chain: seq<Block>, f: nat, len: nat)
      requires f <= |chain| && 0 < len
      ensures KnownBelow(index, chain, f, len, 0)
    {
    }

    lemma BelowWithin(index: Index, chain: seq<Block>, f: nat, len: nat, n: nat)
      requires f <= |chain| && KnownBelow(index, chain, f, len, n)
      ensures n < len || n - len < f
    {
    }

    /** The blocks above number `f` are known exactly when the lowest `n` blocks of `p` are. */
    lemma {:induction false} PoppedKnown(chain: seq<Block>, p: seq<Block>, f: nat, n: nat)
      requires Stacked(blocks, chain, f, p, n)
      ensures (forall i :: f <= i < |blocks| ==> blocks[i].id in fork.index) <==> (forall i :: |p| - n <= i < |p| ==> p[i].id in fork.index)
    {
      if forall i :: f <= i < |blocks| ==> blocks[i].id in fork.index {
        forall i | |p| - n <= i < |p| ensures p[i].id in fork.index { assert blocks[f + (|p| - 1 - i)] == p[i]; }
      }
      if forall i :: |p| - n <= i < |p| ==> p[i].id in fork.index {
        forall i | f <= i < |blocks| ensures blocks[i].id in fork.index { assert blocks[i] == p[|p| - 1 - (i - f)]; }
      }
    }

    method SetForkHead(b: Block)
      requires Valid() && b == fork.content(b.id) && Numbered(b)
      modifies fork`head
      ensures Valid() && fork.head == Some(b)
    {
      hide Lawful, StepOk;
      fork.SetHead(b);
    }

    /**
     A failed switch can be taken back: no attempted block made anything above
     the point where the forks part irreversible, and what the attempt left of
     the index still has the blocks to be popped and the predecessors they need.
     */
    ghost predicate Recovers(m: Memory, chain: seq<Block>, p: seq<Block>, q: seq<Block>, f: nat, s: S)
      requires f <= |chain| && |q| < |p|
    {
      var t := Switching(m, p, q, s);
      t.lib <= f && CanRecover(t.mem.index, chain, p, q, f, Reach(s, m, Some(p[|q|]), p, |p|))
    }

    /** What attempting the new branch leads to; the fork database's head has been popped as often as the old branch is long. */
    ghost function Switching(m: Memory, p: seq<Block>, q: seq<Block>, s: S): (t: Trial<S>)
      requires |q| < |p|
    {
      After(s, m, Some(p[|q|]), p, |p|)
    }

    /** Removing the blocks that were not applied takes nothing away that recovery needs. */
    lemma {:induction false} ForgetHarmless(before: Index, after: Index, chain: seq<Block>, p: seq<Block>, q: seq<Block>, f: nat, n: nat)
      requires n <= |p| && f <= |chain| && 0 < |q| && Linked(chain) && forall i :: 0 <= i < |p| ==> p[i].id.num == f + |p| - i
      requires forall id :: id in after <==> id in before && forall i :: 0 <= i < |p| - n ==> p[i].id != id
      ensures CanRecover(after, chain, p, q, f, n) <==> CanRecover(before, chain, p, q, f, n)
    {
      forall i | |p| - n <= i < |p| ensures p[i].id in after <==> p[i].id in before {}
      forall i | 0 <= i < f ensures chain[i].id in after <==> chain[i].id in before { assert chain[i].id.num == i + 1; }
    }

    /** Applies the new branch at the point where the forks part, or goes back to the old one. */
    method TryNewFork(p: seq<Block>, q: seq<Block>, held: Index, ghost f: nat, ghost chain: seq<Block>, ghost states: seq<S>)
      returns (r: Outcome)
      requires Valid() && fork.Held(held) && Prepared(p, q, held, f, chain, states) && Covers(states)
      requires |blocks| == f && Agree(blocks, chain, f) && Agree(history, states, f + 1)
      requires fork.head == Some(p[|q|])
      modifies this, fork
      ensures Valid() && old(base) <= base && Agree(blocks, chain, old(base))
      ensures r == if Switching(old(Mem()), p, q, states[f]).state.Some? then Switched
                   else if Recovers(old(Mem()), chain, p, q, f, states[f]) then SwitchFailed
                   else PopFailed(true)
      ensures r.Switched? ==> Stacked(blocks, chain, f, p, |p|) && Switching(old(Mem()), p, q, states[f]).state == Some(state)
      ensures r.SwitchFailed? ==> |blocks| == |chain| && Agree(blocks, chain, |chain|) && Agree(history, states, |states|)
      ensures base == Max(old(base), Switching(old(Mem()), p, q, states[f]).lib)
      ensures log == Switching(old(Mem()), p, q, states[f]).mem.log
      ensures Remembered(r, old(Mem()), chain, states[f], p, q, f)
    {
      hide Valid, Good, Replays, Real, Numbered, After, Reach, CanRecover, Linked, HeldPath, Dropped;
      Basics();
      ghost var m, h := Mem(), fork.head;
      var n := ApplyBranch(p);
      Basics();
      ReachAll(states[f], m, h, p);
      LogGrows(states[f], m, h, p, |p|);
      if n == |p| { return Switched; }
      r := GiveUp(p, q, held, n, f, chain, states, m);
    }

    /** After `n` applied blocks the rest of the new branch is forgotten and the old branch restored if possible. */
    method GiveUp(p: seq<Block>, q: seq<Block>, held: Index, n: nat, ghost f: nat, ghost chain: seq<Block>, ghost states: seq<S>, ghost m: Memory)
      returns (r: Outcome)
      requires Valid() && fork.Held(held) && Prepared(p, q, held, f, chain, states) && Covers(states)
      requires n < |p| && Stacked(blocks, chain, f, p, n) && Agree(history, states, f + 1)
      requires n == Reach(states[f], m, Some(p[|q|]), p, |p|)
      requires Mem() == Switching(m, p, q, states[f]).mem && (base <= f <==> Switching(m, p, q, states[f]).lib <= f)
      modifies this, fork
      ensures Valid() && base == old(base) && log == old(log) && Agree(blocks, chain, Min(base, f))
      ensures r == if Recovers(m, chain, p, q, f, states[f]) then SwitchFailed else PopFailed(true)
      ensures r.SwitchFailed? ==> |blocks| == |chain| && Agree(blocks, chain, |chain|) && Agree(history, states, |states|)
      ensures Remembered(r, m, chain, states[f], p, q, f)
    {
      hide Valid, Prepared, Covers, Stacked, After, Reach, CanRecover, Dropped, Switching, Remembered;
      PreparedFacts(p, q, held, f, chain, states);
      ghost var bs, after := blocks, fork.index;
      Forget(p, |p| - n);
      DroppedGone(after, p, |p| - n);
      ForgetHarmless(after, fork.index, chain, p, q, f, n);
      ghost var left := Mem();
      var ok := Recover(p, q, held, n, f, chain, states);
      r := if ok then SwitchFailed else PopFailed(true);
      Basics();
      StillLow(bs, chain, f, p, n);
      RememberedNow(r, m, left, chain, states[f], p, q, f);
    }

    lemma PreparedFacts(p: seq<Block>, q: seq<Block>, held: Index, f: nat, chain: seq<Block>, states: seq<S>)
      requires Prepared(p, q, held, f, chain, states)
      ensures 0 < |q| < |p| && f <= |chain| < |states| && Linked(chain) && forall i :: 0 <= i < |p| ==> p[i].id.num == f + |p| - i
    {
    }

    lemma {:induction false} StillLow(bs: seq<Block>, chain: seq<Block>, f: nat, p: seq<Block>, n: nat)
      requires Stacked(bs, chain, f, p, n) && base <= |blocks|
      requires Agree(blocks, bs, |blocks|) || (|blocks| == |chain| && Agree(blocks, chain, |chain|))
      ensures Agree(blocks, chain, Min(base, f))
    {
    }

    lemma {:induction false} RememberedNow(r: Outcome, m: Memory, left: Memory, chain: seq<Block>, s: S, p: seq<Block>, q: seq<Block>, f: nat)
      requires |q| < |p| && f <= |chain| && left == LeftOver(m, p, q, s) && (r.SwitchFailed? || r == PopFailed(true))
      requires r == PopFailed(true) ==> fork.index == left.index
      requires r.SwitchFailed? ==>
        var n := Reach(s, m, Some(p[|q|]), p, |p|);
        && (n < |q| || n - |q| < f) && fork.head == Some(PoppedHead(q, chain, f, n))
        && fork.index == After(s, left, fork.head, q, |q|).mem.index
      ensures Remembered(r, m, chain, s, p, q, f)
    {
      hide After, Reach, Switching, Dropped;
      DroppedGone(Switching(m, p, q, s).mem.index, p, |p| - Reach(s, m, Some(p[|q|]), p, |p|));
      if r.SwitchFailed? { IndexShrinks(s, left, fork.head, q, |q|); }
    }

    /** What the attempt of the new branch leaves, without the blocks of it that were not applied. */
    ghost function LeftOver(m: Memory, p: seq<Block>, q: seq<Block>, s: S): (r: Memory)
      requires |q| < |p|
    {
      var t := Switching(m, p, q, s);
      Memory(Dropped(t.mem.index, p, |p| - Reach(s, m, Some(p[|q|]), p, |p|)), t.mem.log)
    }

    /**
     What the fork database has after a switch was attempted.  The blocks of the new
     branch that were not applied are gone; otherwise it is what the attempt left
     and, when the old branch was applied again, what that left of it.  Its head is
     where the pops have taken it.
     */
    ghost predicate Remembered(r: Outcome, m: Memory, chain: seq<Block>, s: S, p: seq<Block>, q: seq<Block>, f: nat)
      requires |q| < |p|
      reads fork
    {
      var n := Reach(s, m, Some(p[|q|]), p, |p|);
      if r.Switched? then fork.index == Switching(m, p, q, s).mem.index && fork.head == Some(p[|q|])
      else
        && (forall i :: 0 <= i < |p| - n ==> p[i].id !in fork.index)
        && (r == PopFailed(true) ==> fork.index == LeftOver(m, p, q, s).index)
        && (r.SwitchFailed? ==>
              && (n < |q| || n - |q| < f <= |chain|) && fork.head == Some(PoppedHead(q, chain, f, n))
              && fork.index == After(s, LeftOver(m, p, q, s), fork.head, q, |q|).mem.index)
    }

    lemma DroppedGone(index: Index, path: seq<Block>, k: nat)
      requires k <= |path|
      ensures forall i :: 0 <= i < k ==> path[i].id !in Dropped(index, path, k)
      ensures forall id :: id in Dropped(index, path, k) <==> id in index && forall i :: 0 <= i < k ==> path[i].id != id
    {
    }

    /** Attempts only forget. */
    lemma {:induction false} IndexShrinks(s: S, m: Memory, head: Option<Block>, path: seq<Block>, n: nat)
      requires n <= |path|
      ensures forall id :: id in After(s, m, head, path, n).mem.index ==> id in m.index
    {
      hide Copied, FloorOf;
      if n > 0 { IndexShrinks(s, m, head, path, n - 1); }
    }

    lemma ReachAll(s: S, m: Memory, head: Option<Block>, path: seq<Block>)
      ensures After(s, m, head, path, |path|).state.Some? <==> Reach(s, m, head, path, |path|) == |path|
    {
      hide Try;
    }

    /**
     Every outcome of a switch from `chain` with its `states` to `newHead`, by
     what was there before: what is remembered, the oldest state `oldBase`, and what
     attempting the blocks of the new branch leads to.
     */
    ghost predicate SwitchOutcome(r: Outcome, m: Memory, newHead: Block, chain: seq<Block>, states: seq<S>, oldBase: nat,
                                  p: seq<Block>, q: seq<Block>, f: nat)
      requires |states| == |chain| + 1
    {
      var head := headOf(states[|chain|]);
      if !Meet(m.index, newHead.id, head) then
        r == BranchLost(if newHead.id !in m.index || head !in m.index then UnknownBlock else LostAncestor)
      else
        && 0 < |q| < |p| && Branches(m.index, newHead.id, head, p, q) && f == q[|q| - 1].previous.num < |chain|
        && r == if f < oldBase then PopFailed(false)
                else if Switching(m, p, q, states[f]).state.Some? then Switched
                else if Recovers(m, chain, p, q, f, states[f]) then SwitchFailed
                else PopFailed(true)
    }

    /**
     What a switch leaves: the new path, the old chain, or when it could not even
     start what was too old to be popped, with what the attempt made irreversible.
     */
    ghost predicate SwitchResult(r: Outcome, m: Memory, newHead: Block, chain: seq<Block>, states: seq<S>, oldBase: nat,
                                 p: seq<Block>, q: seq<Block>, f: nat)
      reads this, fork
    {
      if r.BranchLost? then
        blocks == chain && history == states && base == oldBase && log == m.log && fork.index == m.index && fork.head == Some(newHead)
      else if r == PopFailed(false) then
        oldBase <= |chain| && blocks == chain[..oldBase] && base == oldBase && log == m.log && fork.index == m.index
      else
        && |q| < |p| && f <= |chain| < |states|
        && base == Max(oldBase, Switching(m, p, q, states[f]).lib) && log == Switching(m, p, q, states[f]).mem.log
        && (r.Switched? ==>
              && blocks == chain[..f] + Reversed(p) && headOf(state) == newHead.id
              && Switching(m, p, q, states[f]).state == Some(state))
        && (r.SwitchFailed? ==> blocks == chain && history == states)
        && Remembered(r, m, chain, states[f], p, q, f)
    }

    /**
     The switch of `_push_block` to a fork whose head is higher.

     It cannot start when the branch search fails or below the oldest state that
     can be gone back to; in the latter case everything above that state is lost.
     Otherwise it succeeds exactly when every block of the new branch is applied in
     turn, its copies to the log included, and then the path to the new head is
     applied.  If one fails, the old chain and state come back, exactly when
     irreversibility has not passed the point where the forks part and no block
     needed for popping is gone.
     */
    method SwitchFork(newHead: Block)
      returns (r: Outcome, ghost p: seq<Block>, ghost q: seq<Block>, ghost f: nat)
      requires Valid() && fork.head == Some(newHead) && newHead.id.num > headOf(state).num
      modifies this, fork
      ensures Valid() && old(base) <= base && Agree(blocks, old(blocks), old(base))
      ensures |old(history)| == |old(blocks)| + 1
      ensures SwitchOutcome(r, old(Mem()), newHead, old(blocks), old(history), old(base), p, q, f)
      ensures SwitchResult(r, old(Mem()), newHead, old(blocks), old(history), old(base), p, q, f)
      ensures r.BranchLost? || r.SwitchFailed? ==> state == old(state)
    {
      hide Valid, Branches, Good, Numbered, Real, Stacked, Meet, Recovers, Switching;
      Basics();
      p, q, f := [], [], 0;
      var fetched := fork.FetchBranch(newHead.id, headOf(state));
      if fetched.Err? {
        assert fetched.error == UnknownBlock || fetched.error == LostAncestor;
        return BranchLost(fetched.error), p, q, f;
      }
      p, q, f := fetched.value.0, fetched.value.1, fetched.value.1[|fetched.value.1| - 1].previous.num;
      r := SwitchBranches(newHead, fetched.value.0, fetched.value.1, f);
    }

    /** The switch along the two branches that were found. */
    method SwitchBranches(newHead: Block, p: seq<Block>, q: seq<Block>, ghost f: nat) returns (r: Outcome)
      requires Valid() && fork.head == Some(newHead) && newHead.id.num > headOf(state).num
      requires Branches(fork.index, newHead.id, headOf(state), p, q) && f == q[|q| - 1].previous.num
      modifies this, fork
      ensures Valid() && old(base) <= base && Agree(blocks, old(blocks), old(base))
      ensures |old(history)| == |old(blocks)| + 1 && 0 < |q| < |p| && f < |old(blocks)|
      ensures r == if f < old(base) then PopFailed(false)
                   else if Switching(old(Mem()), p, q, old(history)[f]).state.Some? then Switched
                   else if Recovers(old(Mem()), old(blocks), p, q, f, old(history)[f]) then SwitchFailed
                   else PopFailed(true)
      ensures SwitchResult(r, old(Mem()), newHead, old(blocks), old(history), old(base), p, q, f)
      ensures r.SwitchFailed? ==> state == old(state)
    {
      hide Valid, Prepared, Branches, Stacked, Recovers, Switching, Covers, Remembered;
      ghost var chain, states := blocks, history;
      var popped, held := StartSwitch(newHead, p, q, f);
      if !popped { return PopFailed(false); }
      r := TryNewFork(p, q, held, f, chain, states);
      FinishSwitch(r, chain, states, p, q, f);
    }

    /** What the end of a switch means for chain, states and head. */
    lemma {:induction false} FinishSwitch(r: Outcome, chain: seq<Block>, states: seq<S>, p: seq<Block>, q: seq<Block>, f: nat)
      requires Valid() && 0 < |p| && f <= |chain| && |states| == |chain| + 1
      requires r.Switched? ==> Stacked(blocks, chain, f, p, |p|)
      requires r.SwitchFailed? ==> |blocks| == |chain| && Agree(blocks, chain, |chain|) && Agree(history, states, |states|)
      ensures r.Switched? ==> blocks == chain[..f] + Reversed(p) && headOf(state) == p[0].id
      ensures r.SwitchFailed? ==> blocks == chain && history == states && state == states[|chain|]
    {
      hide Valid;
      Basics();
      if r.Switched? { StackedIs(blocks, chain, f, p); }
    }

    /** Everything up to the point where the new branch can be attempted. */
    method StartSwitch(newHead: Block, p: seq<Block>, q: seq<Block>, ghost f: nat) returns (popped: bool, held: Index)
      requires Valid() && fork.head == Some(newHead) && newHead.id.num > headOf(state).num
      requires Branches(fork.index, newHead.id, headOf(state), p, q) && f == q[|q| - 1].previous.num
      modifies this, fork`head
      ensures Valid() && base == old(base) && log == old(log) && fork.Held(held)
      ensures |old(history)| == |old(blocks)| + 1 && state == history[|blocks|] && old(state == history[|blocks|])
      ensures 0 < |q| < |p| && f < |old(blocks)| && p[0].id == newHead.id
      ensures Prepared(p, q, held, f, old(blocks), old(history)) && Covers(old(history)) && base <= |old(blocks)|
      ensures popped <==> base <= f
      ensures popped ==> |blocks| == f && Agree(blocks, old(blocks), f) && Agree(history, old(history), f + 1) && fork.head == Some(p[|q|])
      ensures !popped ==> blocks == old(blocks)[..base]
    {
      hide Valid, Prepared, Good, Numbered, Real, Stacked, Path;
      Basics();
      held := HoldBranches(newHead.id, headOf(state), p, q);
      PrepareSwitch(newHead.id, p, q, held, f);
      ghost var chain, states := blocks, history;
      PreparedLengths(p, q, held, f, chain, states);
      CoversHistory();
      popped := PopOldFork(newHead, p, q, held);
      Basics();
    }

    lemma CoversHistory()
      requires Valid()
      ensures Covers(history)
    {
    }

    lemma PreparedLengths(p: seq<Block>, q: seq<Block>, held: Index, f: nat, chain: seq<Block>, states: seq<S>)
      requires Prepared(p, q, held, f, chain, states)
      ensures 0 < |q| < |p| && |states| == |chain| + 1
    {
    }

    /** The block that becomes the fork database's head when `b` is pushed. */
    ghost function HeadWith(head: Option<Block>, b: Block): (h: Block) {
      if head.None? || b.id.num > head.value.id.num then b else head.value
    }

    /**
     `_push_block`.  Whatever happens, the state stays the replay of the applied
     chain, and the blocks that could not be gone back from stay applied.  Which
     of the outcomes it is depends on the fork database's new head, on whether
     the block is applied, and for a switch on `SwitchOutcome`.
     */
    method PushBlock(b: Block) returns (r: Outcome, ghost p: seq<Block>, ghost q: seq<Block>, ghost f: nat)
      requires Valid() && b == fork.content(b.id) && Numbered(b)
      modifies this, fork
      ensures Valid() && old(base) <= base && Agree(blocks, old(blocks), old(base))
      ensures |old(history)| == |old(blocks)| + 1
      ensures r.Refused? <==>
        (&& old(fork.head).Some?
         && (b.id.num <= Floor(old(fork.head).value, old(fork.maxSize)) || (b.previous != NoBlock && b.previous !in old(fork.index))))
      ensures r.Refused? ==> r.push == if b.id.num <= Floor(old(fork.head).value, old(fork.maxSize)) then TooOld else Unlinkable
      ensures r.Refused? ==> base == old(base) && log == old(log) && fork.index == old(fork.index) && fork.head == old(fork.head)
      ensures !r.Refused? ==>
        var newHead, tip := HeadWith(old(fork.head), b), headOf(old(state));
        var m := Memory(old(fork.index)[b.id := b], old(log));
        if newHead.previous == tip then
          var t := Try(old(state), m, Some(newHead), b);
          && r == (if t.state.Some? then Extended else Failed)
          && base == Max(old(base), t.lib) && log == t.mem.log && fork.head == Some(newHead)
          && (r.Extended? ==> blocks == old(blocks) + [b] && t.state == Some(state) && fork.index == t.mem.index)
          && (r.Failed? ==> fork.index == t.mem.index - {b.id})
        else if newHead.id.num <= tip.num then
          r == Ignored && base == old(base) && log == old(log) && fork.index == m.index && fork.head == Some(newHead)
        else
          && SwitchOutcome(r, m, newHead, old(blocks), old(history), old(base), p, q, f)
          && SwitchResult(r, m, newHead, old(blocks), old(history), old(base), p, q, f)
      ensures r.Refused? || r.BranchLost? || r.Ignored? || r.Failed? || r.SwitchFailed? ==> blocks == old(blocks) && state == old(state)
    {
      hide Valid, SwitchOutcome, Try;
      Basics();
      p, q, f := [], [], 0;
      var pushed := PushFork(b);
      if pushed.Err? { return Refused(pushed.error), p, q, f; }
      var newHead := pushed.value;
      if newHead.previous != headOf(state) {
        if newHead.id.num > headOf(state).num {
          r, p, q, f := SwitchFork(newHead);
          Basics();
          OutcomeKinds(r, Memory(old(fork.index)[b.id := b], old(log)), newHead, old(blocks), old(history), old(base), p, q, f);
          return;
        }
        return Ignored, p, q, f;
      }
      var ok := ApplyOne(b);
      Basics();
      if ok { return Extended, p, q, f; }
      DropOne(fork.index, b);
      Forget([b], 1);
      r := Failed;
    }

    lemma OutcomeKinds(r: Outcome, m: Memory, newHead: Block, chain: seq<Block>, states: seq<S>, oldBase: nat, p: seq<Block>, q: seq<Block>, f: nat)
      requires |states| == |chain| + 1 && SwitchOutcome(r, m, newHead, chain, states, oldBase, p, q, f)
      ensures r.BranchLost? || r.Switched? || r.SwitchFailed? || r.PopFailed?
    {
      hide Recovers, Switching, Branches, Meet;
    }

    method PushFork(b: Block) returns (r: Result<Block, PushError>)
      requires Valid() && b == fork.content(b.id) && Numbered(b)
      modifies fork
      ensures Valid()
      ensures r.Err? <==>
        (&& old(fork.head).Some?
         && (b.id.num <= Floor(old(fork.head).value, old(fork.maxSize)) || (b.previous != NoBlock && b.previous !in old(fork.index))))
      ensures r.Err? ==> fork.index == old(fork.index) && fork.head == old(fork.head)
      ensures r.Err? ==> r.error == if b.id.num <= Floor(old(fork.head).value, old(fork.maxSize)) then TooOld else Unlinkable
      ensures r.Ok? ==> fork.head == Some(r.value) && r.value == HeadWith(old(fork.head), b) && fork.index == old(fork.index)[b.id := b]
    {
      hide Lawful, StepOk;
      r := fork.Push(b);
    }
  }
}
