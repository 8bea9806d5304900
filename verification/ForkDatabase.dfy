/**
 The fork database: a tree of recent blocks, its head, and the search for the
 branches that lead from two blocks back to where they part.
 */
module ForkDatabase {
  import opened Wrappers

  /** A block id encodes the number of its block. */
  datatype BlockId = BlockId(num: nat, hash: nat)

  datatype Block = Block(id: BlockId, previous: BlockId, body: nat)

  const NoBlock: BlockId := BlockId(0, 0)

  /** A block as it can exist: its number follows the one of its predecessor. */
  predicate Numbered(b: Block) {
    b.id.num == b.previous.num + 1
  }

  type Index = map<BlockId, Block>

  ghost predicate Good(index: Index) {
    forall id :: id in index ==> index[id].id == id && Numbered(index[id])
  }

  /** A walk down the tree: every block is in the index and is followed by its predecessor. */
  ghost predicate Path(index: Index, p: seq<Block>) {
    && (forall i :: 0 <= i < |p| ==> p[i].id in index && index[p[i].id] == p[i])
    && (forall i :: 0 <= i < |p| - 1 ==> p[i].previous == p[i + 1].id)
  }

  lemma {:induction false} PathNumbers(index: Index, p: seq<Block>, i: nat)
    requires Good(index) && Path(index, p) && i < |p|
    ensures p[i].id.num + i == p[0].id.num
  {
    if i > 0 { PathNumbers(index, p, i - 1); }
  }

  /** The ancestor `k` steps below the block `id`. */
  ghost function Up(index: Index, id: BlockId, k: nat): (r: Option<Block>)
    decreases k
  {
    if id !in index then None
    else if k == 0 then Some(index[id])
    else Up(index, index[id].previous, k - 1)
  }

  lemma {:induction false} PathIsUp(index: Index, p: seq<Block>, k: nat)
    requires Good(index) && Path(index, p) && k < |p|
    ensures Up(index, p[0].id, k) == Some(p[k])
  {
    if k > 0 {
      assert Path(index, p[1..]);
      PathIsUp(index, p[1..], k - 1);
    }
  }

  lemma {:induction false} UpNumber(index: Index, id: BlockId, k: nat)
    requires Good(index) && Up(index, id, k).Some?
    ensures Up(index, id, k).value.id.num + k == id.num
    decreases k
  {
    if k > 0 { UpNumber(index, index[id].previous, k - 1); }
  }

  /** `p` is the walk from `tip` so far and `x` is the block it has arrived at. */
  ghost predicate WalkingTo(index: Index, tip: BlockId, p: seq<Block>, x: Block) {
    && Path(index, p + [x])
    && (p + [x])[0].id == tip
  }

  /** What `fetch_branch_from` promises of the branches it returns. */
  ghost predicate Branches(index: Index, first: BlockId, second: BlockId, p: seq<Block>, q: seq<Block>) {
    && 0 < |p| && 0 < |q|
    && Path(index, p) && Path(index, q)
    && p[0].id == first && q[0].id == second
    && p[|p| - 1].previous == q[|q| - 1].previous
    // before their ends, blocks of equal number have different predecessors
    && (forall i, j :: 0 <= i < |p| - 1 && 0 <= j < |q| - 1 && p[i].id.num == q[j].id.num ==> p[i].previous != q[j].previous)
  }

  lemma {:induction false} BranchLengths(index: Index, first: BlockId, second: BlockId, p: seq<Block>, q: seq<Block>)
    requires Good(index) && Branches(index, first, second, p, q)
    ensures p[|p| - 1].id.num == q[|q| - 1].id.num
    ensures first.num - |p| == second.num - |q| == p[|p| - 1].previous.num
  {
    PathNumbers(index, p, |p| - 1);
    PathNumbers(index, q, |q| - 1);
  }

  /** The branches have no block in common, except possibly their last one. */
  lemma {:induction false} BranchesShareOnlyLast(index: Index, first: BlockId, second: BlockId, p: seq<Block>, q: seq<Block>, i: nat, j: nat)
    requires Good(index) && Branches(index, first, second, p, q)
    requires i < |p| && j < |q| && p[i] == q[j]
    ensures i == |p| - 1 && j == |q| - 1
  {
    BranchLengths(index, first, second, p, q);
    PathNumbers(index, p, i);
    PathNumbers(index, q, j);
  }

  /**
   When the branches end in different blocks, their common predecessor is the
   lowest common ancestor: every block below both tips is at most as high.
   */
  lemma {:induction false} CommonAncestor(index: Index, first: BlockId, second: BlockId, p: seq<Block>, q: seq<Block>, i: nat, j: nat)
    requires Good(index) && Branches(index, first, second, p, q)
    requires p[|p| - 1] != q[|q| - 1]
    requires Up(index, first, i).Some? && Up(index, first, i) == Up(index, second, j)
    ensures |p| <= i && |q| <= j && Up(index, first, i).value.id.num <= p[|p| - 1].previous.num
  {
    BranchLengths(index, first, second, p, q);
    UpNumber(index, first, i);
    UpNumber(index, second, j);
    if i < |p| {
      PathIsUp(index, p, i);
      PathIsUp(index, q, j);
      BranchesShareOnlyLast(index, first, second, p, q, i, j);
    }
  }

  /** The branches end in the same block exactly when one tip is an ancestor of the other. */
  lemma {:induction false} SameEndMeansAncestor(index: Index, first: BlockId, second: BlockId, p: seq<Block>, q: seq<Block>)
    requires Good(index) && Branches(index, first, second, p, q)
    ensures p[|p| - 1] == q[|q| - 1] <==>
            (exists k: nat :: Up(index, first, k) == Some(index[second])) || (exists k: nat :: Up(index, second, k) == Some(index[first]))
  {
    BranchLengths(index, first, second, p, q);
    if p[|p| - 1] == q[|q| - 1] {
      PathIsUp(index, p, |p| - 1);
      PathIsUp(index, q, |q| - 1);
      if |p| > 1 && |q| > 1 {
        PathNumbers(index, p, |p| - 2);
        PathNumbers(index, q, |q| - 2);
      }
    } else {
      if k: nat :| Up(index, first, k) == Some(index[second]) {
        assert Up(index, second, 0) == Some(index[second]);
        CommonAncestor(index, first, second, p, q, k, 0);
      }
      if k: nat :| Up(index, second, k) == Some(index[first]) {
        assert Up(index, first, 0) == Some(index[first]);
        CommonAncestor(index, first, second, p, q, 0, k);
      }
    }
  }

  /** The `i`-th ancestor of one tip and the `j`-th of the other are known and have the same predecessor. */
  ghost predicate MeetAt(index: Index, first: BlockId, second: BlockId, i: nat, j: nat) {
    var x, y := Up(index, first, i), Up(index, second, j);
    x.Some? && y.Some? && x.value.previous == y.value.previous
  }

  ghost predicate Meet(index: Index, first: BlockId, second: BlockId) {
    exists i: nat, j: nat :: MeetAt(index, first, second, i, j)
  }

  lemma {:induction false} BranchesMeet(index: Index, first: BlockId, second: BlockId, p: seq<Block>, q: seq<Block>)
    requires Good(index) && 0 < |p| && 0 < |q| && Path(index, p) && Path(index, q)
    requires p[0].id == first && q[0].id == second && p[|p| - 1].previous == q[|q| - 1].previous
    ensures Meet(index, first, second)
  {
    PathIsUp(index, p, |p| - 1);
    PathIsUp(index, q, |q| - 1);
    assert MeetAt(index, first, second, |p| - 1, |q| - 1);
  }

  lemma {:induction false} UnknownDoNotMeet(index: Index, first: BlockId, second: BlockId)
    ensures first !in index || second !in index ==> !Meet(index, first, second)
  {
    forall i: nat, j: nat | first !in index || second !in index ensures !MeetAt(index, first, second, i, j) {}
  }

  lemma MeetingPoint(index: Index, first: BlockId, second: BlockId) returns (i: nat, j: nat)
    ensures Meet(index, first, second) ==> MeetAt(index, first, second, i, j)
  {
    i, j := 0, 0;
    if Meet(index, first, second) { i, j :| MeetAt(index, first, second, i, j); }
  }

  /** A walk that has not stopped side by side with the other has not passed the meeting point, and can go on. */
  lemma {:induction false} NotYet(index: Index, first: BlockId, second: BlockId, p: seq<Block>, x: Block, q: seq<Block>, y: Block, i: nat, j: nat)
    requires Good(index) && WalkingTo(index, first, p, x) && WalkingTo(index, second, q, y)
    requires MeetAt(index, first, second, i, j) && |p| <= i && |q| <= j
    ensures x.id.num > y.id.num || (x.id.num == y.id.num && x.previous != y.previous) ==> x.previous in index && |p| < i
    ensures y.id.num > x.id.num || (x.id.num == y.id.num && x.previous != y.previous) ==> y.previous in index && |q| < j
  {
    PathIsUp(index, p + [x], |p|);
    PathIsUp(index, q + [y], |q|);
    UpNumber(index, first, i);
    UpNumber(index, second, j);
    UpNumber(index, first, |p|);
    UpNumber(index, second, |q|);
    UpKnown(index, first, i);
    UpKnown(index, second, j);
    if |p| < i { UpBefore(index, first, |p|, i); }
    if |q| < j { UpBefore(index, second, |q|, j); }
  }

  /** An ancestor that is known has everything above it known as well. */
  lemma {:induction false} UpBefore(index: Index, id: BlockId, k: nat, m: nat)
    requires Good(index) && k < m && Up(index, id, m).Some?
    ensures Up(index, id, k).Some? && Up(index, id, k).value.previous in index
    decreases k
  {
    if k > 0 { UpBefore(index, index[id].previous, k - 1, m - 1); }
  }

  /** There is only one pair of branches. */
  lemma {:induction false} BranchesUnique(index: Index, first: BlockId, second: BlockId, p: seq<Block>, q: seq<Block>, p': seq<Block>, q': seq<Block>)
    requires Good(index) && Branches(index, first, second, p, q) && Branches(index, first, second, p', q')
    ensures p == p' && q == q'
  {
    BranchLengths(index, first, second, p, q);
    BranchLengths(index, first, second, p', q');
    if |p| < |p'| { NoEarlierEnd(index, first, second, p, q, p', q'); }
    if |p'| < |p| { NoEarlierEnd(index, first, second, p', q', p, q); }
    forall k | 0 <= k < |p| ensures p[k] == p'[k] { PathIsUp(index, p, k); PathIsUp(index, p', k); }
    forall k | 0 <= k < |q| ensures q[k] == q'[k] { PathIsUp(index, q, k); PathIsUp(index, q', k); }
  }

  lemma {:induction false} NoEarlierEnd(index: Index, first: BlockId, second: BlockId, p: seq<Block>, q: seq<Block>, p': seq<Block>, q': seq<Block>)
    requires Good(index) && Branches(index, first, second, p, q) && Branches(index, first, second, p', q')
    ensures |p'| <= |p|
  {
    BranchLengths(index, first, second, p, q);
    BranchLengths(index, first, second, p', q');
    if |p| < |p'| {
      var i, j := |p| - 1, |q| - 1;
      PathIsUp(index, p, i);
      PathIsUp(index, p', i);
      PathIsUp(index, q, j);
      PathIsUp(index, q', j);
    }
  }

  // ------------------------------------------------------- the main branch by number, and the log

  /** The block with number `num` on the way down from the head. */
  ghost function MainAt(index: Index, head: Option<Block>, num: nat): (r: Option<Block>) {
    if head.None? || num > head.value.id.num then None
    else if num == head.value.id.num then head
    else Up(index, head.value.previous, head.value.id.num - num - 1)
  }

  /** `id` is the only stored id with number `num`. */
  ghost predicate Lone(index: Index, num: nat, id: BlockId) {
    id in index && id.num == num && forall other :: other in index && other.num == num ==> other == id
  }

  ghost predicate OnlyOne(index: Index, num: nat) {
    exists id :: Lone(index, num, id)
  }

  /** What the fork database gives for the main branch's block of a number. */
  ghost function FetchedAt(index: Index, head: Option<Block>, num: nat): (r: Option<Block>) {
    if exists id :: Lone(index, num, id) then
      var id :| Lone(index, num, id);
      Some(index[id])
    else if exists id :: id in index && id.num == num then MainAt(index, head, num)
    else None
  }

  /** If the head is stored, it is stored under its id. */
  ghost predicate Known(index: Index, head: Option<Block>) {
    Good(index) && (head.Some? ==> Numbered(head.value) && (head.value.id in index ==> index[head.value.id] == head.value))
  }

  lemma {:induction false} MainNumber(index: Index, head: Option<Block>, num: nat)
    requires Known(index, head)
    ensures var m := MainAt(index, head, num);
            m.Some? ==> m.value.id.num == num && (m.value.id in index ==> index[m.value.id] == m.value)
  {
    hide Up;
    if head.Some? && num < head.value.id.num {
      var k := head.value.id.num - num - 1;
      if Up(index, head.value.previous, k).Some? {
        UpNumber(index, head.value.previous, k);
        UpKnown(index, head.value.previous, k);
      }
    }
  }

  /** The three cases; whatever the main branch has in the index is what is given. */
  lemma {:induction false} FetchedCases(index: Index, head: Option<Block>, num: nat)
    requires Known(index, head)
    ensures forall id :: Lone(index, num, id) ==> FetchedAt(index, head, num) == Some(index[id])
    ensures (forall id :: id in index ==> id.num != num) ==> FetchedAt(index, head, num) == None
    ensures (exists id :: id in index && id.num == num) && (forall id :: !Lone(index, num, id)) ==> FetchedAt(index, head, num) == MainAt(index, head, num)
    ensures MainAt(index, head, num).Some? && MainAt(index, head, num).value.id in index ==> FetchedAt(index, head, num) == MainAt(index, head, num)
    ensures FetchedAt(index, head, num).Some? ==> FetchedAt(index, head, num).value.id.num == num
  {
    hide MainAt;
    MainNumber(index, head, num);
  }

  /** The answer is off the main branch exactly when the number has one stored block and that is not the main branch's. */
  lemma {:induction false} OffBranchIff(index: Index, head: Option<Block>, num: nat)
    requires Known(index, head)
    ensures var r := FetchedAt(index, head, num);
            r.Some? && r != MainAt(index, head, num) <==> exists id :: Lone(index, num, id) && MainAt(index, head, num) != Some(index[id])
  {
    hide MainAt;
    FetchedCases(index, head, num);
  }

  /** Above the head a block is given exactly when it is the only one of its number. */
  lemma {:induction false} FetchedAboveHead(index: Index, head: Option<Block>, num: nat)
    requires head.Some? ==> num > head.value.id.num
    ensures FetchedAt(index, head, num).Some? <==> OnlyOne(index, num)
  {
  }

  datatype Copy = Copy(log: seq<BlockId>, complete: bool)

  /** The log after irreversible blocks up to number `upTo` have been copied to it, as far as they are given. */
  ghost function Copied(index: Index, head: Option<Block>, log: seq<BlockId>, upTo: nat): (r: Copy)
    decreases upTo - |log|
  {
    if |log| >= upTo then Copy(log, true)
    else
      var block := FetchedAt(index, head, |log| + 1);
      if block.None? then Copy(log, false) else Copied(index, head, log + [block.value.id], upTo)
  }

  /** Copying completes exactly when every block asked for is given, and appends exactly those. */
  lemma {:induction false} CopiedIff(index: Index, head: Option<Block>, log: seq<BlockId>, upTo: nat)
    ensures var r := Copied(index, head, log, upTo);
            && (r.complete <==> forall n :: |log| < n <= upTo ==> FetchedAt(index, head, n).Some?)
            && |log| <= |r.log| && r.log[..|log|] == log
            && (if r.complete then |r.log| == (if |log| < upTo then upTo else |log|) else |r.log| < upTo)
            && forall n :: |log| < n <= |r.log| ==> FetchedAt(index, head, n).Some? && r.log[n - 1] == FetchedAt(index, head, n).value.id
    decreases upTo - |log|
  {
    hide FetchedAt;
    if |log| < upTo {
      var block := FetchedAt(index, head, |log| + 1);
      if block.Some? {
        var next := log + [block.value.id];
        CopiedIff(index, head, next, upTo);
        var r := Copied(index, head, next, upTo);
        assert r.log[..|log|] == r.log[..|next|][..|log|] == log;
        assert r.log[|log|] == r.log[..|next|][|log|];
      }
    }
  }

  /** The main branch has the blocks of `chain` with numbers above `from` up to `upTo`, and they are stored. */
  ghost predicate Supplies(index: Index, head: Option<Block>, chain: seq<BlockId>, from: nat, upTo: nat) {
    upTo <= |chain| && forall n :: from < n <= upTo ==>
      MainAt(index, head, n).Some? && MainAt(index, head, n).value.id == chain[n - 1] && chain[n - 1] in index
  }

  /** Then the copy completes with the chain's own blocks. */
  lemma {:induction false} SuppliedCopy(index: Index, head: Option<Block>, chain: seq<BlockId>, log: seq<BlockId>, upTo: nat)
    requires Known(index, head) && Supplies(index, head, chain, |log|, upTo)
    ensures var r := Copied(index, head, log, upTo);
            r.complete && forall i :: |log| <= i < |r.log| ==> i < |chain| && r.log[i] == chain[i]
  {
    hide MainAt, FetchedAt, Copied;
    CopiedIff(index, head, log, upTo);
    forall n | |log| < n <= upTo
      ensures FetchedAt(index, head, n).Some? && FetchedAt(index, head, n).value.id == chain[n - 1]
    {
      FetchedCases(index, head, n);
    }
    var r := Copied(index, head, log, upTo);
    forall i | |log| <= i < |r.log| ensures i < |chain| && r.log[i] == chain[i] {
      assert FetchedAt(index, head, i + 1).Some?;
    }
  }

  /**
   When the head is block number `k` of a chain whose blocks above `from` are
   stored, the main branch supplies that chain up to the head.
   */
  lemma {:induction false} HeadSupplies(index: Index, chain: seq<Block>, ids: seq<BlockId>, from: nat, k: nat)
    requires Good(index) && 0 < k <= |chain| == |ids|
    requires forall i :: 0 <= i < |chain| ==> chain[i].id == ids[i] && ids[i].num == i + 1 && (i > 0 ==> chain[i].previous == ids[i - 1])
    requires forall i :: from <= i < k ==> ids[i] in index && index[ids[i]] == chain[i]
    ensures Supplies(index, Some(chain[k - 1]), ids, from, k)
  {
    hide Up, MainAt;
    var head := Some(chain[k - 1]);
    forall n | from < n <= k
      ensures MainAt(index, head, n).Some? && MainAt(index, head, n).value.id == ids[n - 1] && ids[n - 1] in index
    {
      MainOnChain(index, chain, ids, from, k, n);
    }
  }

  lemma {:induction false} MainOnChain(index: Index, chain: seq<Block>, ids: seq<BlockId>, from: nat, k: nat, n: nat)
    requires Good(index) && from < n <= k <= |chain| == |ids|
    requires forall i :: 0 <= i < |chain| ==> chain[i].id == ids[i] && ids[i].num == i + 1 && (i > 0 ==> chain[i].previous == ids[i - 1])
    requires forall i :: from <= i < k ==> ids[i] in index && index[ids[i]] == chain[i]
    ensures MainAt(index, Some(chain[k - 1]), n) == Some(chain[n - 1])
  {
    if n < k { UpChain(index, chain, ids, from, k - 1, n); }
  }

  lemma {:induction false} UpChain(index: Index, chain: seq<Block>, ids: seq<BlockId>, from: nat, k: nat, n: nat)
    requires Good(index) && from < n <= k < |chain| == |ids|
    requires forall i :: 0 <= i < |chain| ==> chain[i].id == ids[i] && ids[i].num == i + 1 && (i > 0 ==> chain[i].previous == ids[i - 1])
    requires forall i :: from <= i < k ==> ids[i] in index && index[ids[i]] == chain[i]
    ensures Up(index, chain[k].previous, k - n) == Some(chain[n - 1])
    decreases k - n
  {
    assert chain[k].previous == ids[k - 1];
    if n < k { UpChain(index, chain, ids, from, k - 1, n); }
  }

  /** Two forks above block 1: blocks 2 and 3, and blocks 2, 3 and 4. */
  const Fork1: Block := Block(BlockId(1, 0), NoBlock, 0)
  const ForkA2: Block := Block(BlockId(2, 0), BlockId(1, 0), 0)
  const ForkA3: Block := Block(BlockId(3, 0), BlockId(2, 0), 0)
  const ForkB2: Block := Block(BlockId(2, 1), BlockId(1, 0), 0)
  const ForkB3: Block := Block(BlockId(3, 1), BlockId(2, 1), 0)
  const ForkB4: Block := Block(BlockId(4, 1), BlockId(3, 1), 0)
  const TwoForks: Index :=
    map[Fork1.id := Fork1, ForkA2.id := ForkA2, ForkA3.id := ForkA3, ForkB2.id := ForkB2, ForkB3.id := ForkB3, ForkB4.id := ForkB4]

  /**
   While a node switches from the first fork to the second, its fork database's
   head is block 2 of the second; blocks up to number 3 cannot be copied then.
   */
  lemma CopyFails(log: seq<BlockId>)
    requires |log| <= 2
    ensures Good(TwoForks) && FetchedAt(TwoForks, Some(ForkB2), 3) == None
    ensures !Copied(TwoForks, Some(ForkB2), log, 3).complete
  {
    hide Copied, Up;
    assert ForkA3.id in TwoForks && ForkB3.id in TwoForks;
    forall id ensures !Lone(TwoForks, 3, id) {}
    FetchedAboveHead(TwoForks, Some(ForkB2), 3);
    CopiedIff(TwoForks, Some(ForkB2), log, 3);
  }

  /**
   With the head at number `k` of a chain whose blocks are stored up to it, the
   copy completes exactly when every number above the head has one stored block.
   */
  lemma {:induction false} CopyCompletesIff(index: Index, chain: seq<Block>, ids: seq<BlockId>, log: seq<BlockId>, k: nat, upTo: nat)
    requires Good(index) && 0 < k <= |chain| == |ids|
    requires forall i :: 0 <= i < |chain| ==> chain[i].id == ids[i] && ids[i].num == i + 1 && (i > 0 ==> chain[i].previous == ids[i - 1])
    requires forall i :: |log| <= i < k ==> ids[i] in index && index[ids[i]] == chain[i]
    ensures Copied(index, Some(chain[k - 1]), log, upTo).complete <==>
            forall n :: k < n <= upTo && |log| < n ==> OnlyOne(index, n)
  {
    hide Copied, FetchedAt, MainAt, OnlyOne;
    var head := Some(chain[k - 1]);
    CopiedIff(index, head, log, upTo);
    HeadSupplies(index, chain, ids, |log|, k);
    forall n | |log| < n <= upTo
      ensures FetchedAt(index, head, n).Some? <==> (k < n ==> OnlyOne(index, n))
    {
      if k < n { FetchedAboveHead(index, head, n); } else { FetchedStored(index, head, n); }
    }
  }

  lemma {:induction false} FetchedStored(index: Index, head: Option<Block>, num: nat)
    requires Good(index) && MainAt(index, head, num).Some? && MainAt(index, head, num).value.id in index
    requires MainAt(index, head, num).value.id.num == num
    ensures FetchedAt(index, head, num).Some?
  {
    hide MainAt;
  }

  /** The number below which a fork database of that size keeps no blocks. */
  function Floor(head: Block, maxSize: nat): (n: nat) {
    if head.id.num <= maxSize then 0 else head.id.num - maxSize
  }

  datatype PushError = TooOld | Unlinkable
  datatype BranchError = UnknownBlock | LostAncestor

  class ForkDb {
    ghost const content: BlockId -> Block   // ids do not collide: an id stands for one block
    var index: Index
    var head: Option<Block>
    var maxSize: nat

    ghost predicate Valid()
      reads this
    {
      && Good(index)
      && (forall id :: id in index ==> index[id] == content(id))
      && (head.Some? ==> head.value == content(head.value.id) && Numbered(head.value))
    }

    constructor (ghost content: BlockId -> Block)
      ensures Valid() && index == map[] && head == None && maxSize == 1024 && this.content == content
    {
      this.content := content;
      index, head, maxSize := map[], None, 1024;
    }

    /** `_push_block`: the head moves only to a block that is higher. */
    method Push(b: Block) returns (r: Result<Block, PushError>)
      requires Valid() && b == content(b.id) && Numbered(b)
      modifies this
      ensures Valid() && maxSize == old(maxSize)
      ensures r.Err? ==> index == old(index) && head == old(head)
      ensures r.Ok? <==>
        (old(head).Some? ==> b.id.num > Floor(old(head).value, maxSize) && (b.previous == NoBlock || b.previous in old(index)))
      ensures r == Err(TooOld) <==> old(head).Some? && b.id.num <= Floor(old(head).value, maxSize)
      ensures r == Err(Unlinkable) <==>
        old(head).Some? && b.id.num > Floor(old(head).value, maxSize) && b.previous != NoBlock && b.previous !in old(index)
      ensures r.Ok? ==> index == old(index)[b.id := b] && head == Some(r.value)
      ensures r.Ok? ==> r.value == if old(head).None? || b.id.num > old(head).value.id.num then b else old(head).value
    {
      if head.Some? && b.id.num <= Floor(head.value, maxSize) { return Err(TooOld); }
      if head.Some? && b.previous != NoBlock && b.previous !in index { return Err(Unlinkable); }
      index := index[b.id := b];
      if head.None? || b.id.num > head.value.id.num { head := Some(b); }
      r := Ok(head.value);
    }

    /** Blocks kept alive by a branch that was fetched earlier. */
    ghost predicate Held(held: Index)
      reads this
    {
      Good(held) && forall id :: id in held ==> held[id] == content(id)
    }

    /** `pop_block`: the head steps back if its predecessor is still alive, in the index or held elsewhere. */
    method Pop(held: Index) returns (ok: bool)
      requires Valid() && Held(held)
      modifies this`head
      ensures Valid()
      ensures ok <==> old(head).Some? && (old(head).value.previous in index || old(head).value.previous in held)
      ensures ok ==> head == Some(content(old(head).value.previous)) && head.value.id == old(head).value.previous
      ensures !ok ==> head == old(head)
    {
      if head.None? { return false; }
      var previous := head.value.previous;
      if previous in index {
        head := Some(index[previous]);
        ok := true;
      } else if previous in held {
        head := Some(held[previous]);
        ok := true;
      } else {
        ok := false;
      }
    }

    /** `set_max_size`: forgets the lowest blocks one by one until none is below the floor. */
    method SetMaxSize(size: nat)
      requires Valid()
      modifies this`index, this`maxSize
      ensures Valid() && maxSize == size
      ensures forall id :: id in index <==> id in old(index) && (head.None? || id.num >= Floor(head.value, size))
      ensures forall id :: id in index ==> index[id] == old(index)[id]
    {
      maxSize := size;
      if head.None? { return; }
      var floor := Floor(head.value, size);
      var low := set id | id in index && id.num < floor;
      while low != {}
        invariant low == set id | id in index && id.num < floor
        invariant forall id :: id in index ==> id in old(index) && index[id] == old(index)[id]
        invariant forall id :: id in old(index) && id.num >= floor ==> id in index
        modifies this`index
        decreases |low|
      {
        var id :| id in low;
        index := index - {id};
        low := low - {id};
      }
      forall id | id in index ensures id.num >= floor { assert id.num < floor ==> id in low; }
    }

    method SetHead(b: Block)
      requires Valid() && b == content(b.id) && Numbered(b)
      modifies this`head
      ensures Valid() && head == Some(b)
    {
      head := Some(b);
    }

    method Remove(id: BlockId)
      requires Valid()
      modifies this`index
      ensures Valid() && index == old(index) - {id}
    {
      index := index - {id};
    }

    /**
     `fetch_branch_from`: two walks down the tree that stop side by side.  It
     succeeds exactly when the index still holds two ancestors of the tips with
     a common predecessor.
     */
    method FetchBranch(first: BlockId, second: BlockId) returns (r: Result<(seq<Block>, seq<Block>), BranchError>)
      requires Valid()
      ensures r.Ok? ==> 0 < |r.value.0| && 0 < |r.value.1| && Branches(index, first, second, r.value.0, r.value.1)
      ensures r.Ok? <==> Meet(index, first, second)
      ensures r == Err(UnknownBlock) <==> first !in index || second !in index
    {
      hide WalkingTo, Path, Up, Good, Numbered, MeetAt, Meet;
      ghost var meet := Meet(index, first, second);
      UnknownDoNotMeet(index, first, second);
      if first !in index || second !in index { return Err(UnknownBlock); }
      ghost var i: nat, j: nat := MeetingPoint(index, first, second);
      var x, y := index[first], index[second];
      var p: seq<Block>, q: seq<Block> := [], [];
      WalkStart(index, first);
      WalkStart(index, second);
      while x.id.num > y.id.num
        invariant WalkingTo(index, first, p, x) && WalkingTo(index, second, q, y)
        invariant q == []
        invariant p != [] ==> x.id.num >= y.id.num
        invariant meet ==> |p| <= i
        decreases x.id.num
      {
        WalkOn(index, first, p, x);
        if meet { NotYet(index, first, second, p, x, q, y, i, j); }
        if x.previous !in index { return Err(LostAncestor); }
        p := p + [x];
        x := index[x.previous];
      }
      while y.id.num > x.id.num
        invariant WalkingTo(index, first, p, x) && WalkingTo(index, second, q, y)
        invariant p == [] || q == []
        invariant y.id.num >= x.id.num
        invariant meet ==> |p| <= i && |q| <= j
        decreases y.id.num
      {
        WalkOn(index, second, q, y);
        if meet { NotYet(index, first, second, p, x, q, y, i, j); }
        if y.previous !in index { return Err(LostAncestor); }
        q := q + [y];
        y := index[y.previous];
      }
      while x.previous != y.previous
        invariant WalkingTo(index, first, p, x) && WalkingTo(index, second, q, y)
        invariant x.id.num == y.id.num
        invariant forall i, j :: 0 <= i < |p| && 0 <= j < |q| && p[i].id.num == q[j].id.num ==> p[i].previous != q[j].previous
        invariant meet ==> |p| <= i && |q| <= j
        decreases x.id.num
      {
        WalkAbove(index, first, p, x);
        WalkAbove(index, second, q, y);
        WalkOn(index, first, p, x);
        WalkOn(index, second, q, y);
        if meet { NotYet(index, first, second, p, x, q, y, i, j); }
        if x.previous !in index { return Err(LostAncestor); }
        if y.previous !in index { return Err(LostAncestor); }
        p := p + [x];
        q := q + [y];
        x := index[x.previous];
        y := index[y.previous];
      }
      WalkDone(index, first, p, x);
      WalkDone(index, second, q, y);
      BranchesMeet(index, first, second, p + [x], q + [y]);
      r := Ok((p + [x], q + [y]));
    }

    /** `walk_main_branch_to_num`: steps down from the head until the number is no longer above `num`. */
    method WalkMainBranch(num: nat) returns (r: Option<Block>)
      requires Valid()
      ensures r == MainAt(index, head, num)
    {
      hide Up;
      r := head;
      if head.None? || num > head.value.id.num { return None; }
      while r.Some? && r.value.id.num > num
        invariant r.Some? ==> num <= r.value.id.num && Numbered(r.value)
        invariant r.Some? && r.value.id.num > num ==> MainAt(index, head, num) == Up(index, r.value.previous, r.value.id.num - num - 1)
        invariant r.Some? && r.value.id.num == num ==> r == MainAt(index, head, num)
        invariant r.None? ==> MainAt(index, head, num).None?
        decreases if r.Some? then r.value.id.num else 0, r.Some?
      {
        UpSteps(index, r.value.previous, r.value.id.num - num - 1);
        r := if r.value.previous in index then Some(index[r.value.previous]) else None;
      }
    }

    /**
     `fetch_block_on_main_branch_by_number`.  A block that is the only one of its
     number is returned without a look at the main branch; only when there are
     several is it the main branch's block.
     */
    method FetchOnMainBranch(num: nat) returns (r: Option<Block>)
      requires Valid()
      ensures r == FetchedAt(index, head, num)
      ensures MainAt(index, head, num).Some? && MainAt(index, head, num).value.id in index ==> r == MainAt(index, head, num)
      ensures r.Some? ==> r.value.id.num == num
      ensures r.Some? && r != MainAt(index, head, num) <==> exists id :: Lone(index, num, id) && MainAt(index, head, num) != Some(index[id])
    {
      hide Up, MainAt, FetchedAt, Good, Numbered;
      ValidKnown();
      OffBranchIff(index, head, num);
      FetchedCases(index, head, num);
      var same := set id | id in index && id.num == num;
      if |same| == 0 {
        assert forall id :: id in index && id.num == num ==> id in same;
        r := None;
      } else if |same| == 1 {
        var id :| id in same;
        OnlyMember(same, id);
        assert Lone(index, num, id) by { assert forall other :: other in index && other.num == num ==> other in same; }
        r := Some(index[id]);
      } else {
        r := WalkMainBranch(num);
        var any :| any in same;
        forall id ensures !Lone(index, num, id) {
          assert Lone(index, num, id) ==> same == {id};
        }
      }
    }

    lemma ValidKnown()
      requires Valid()
      ensures Known(index, head)
    {
    }

    /** The loop that copies irreversible blocks to the log; it fails when the main branch does not give one. */
    method CopyToLog(log: seq<BlockId>, upTo: nat) returns (longer: seq<BlockId>, complete: bool)
      requires Valid()
      ensures Copy(longer, complete) == Copied(index, head, log, upTo)
    {
      hide FetchedAt;
      longer := log;
      while |longer| < upTo
        invariant Copied(index, head, longer, upTo) == Copied(index, head, log, upTo)
        decreases upTo - |longer|
      {
        var block := FetchOnMainBranch(|longer| + 1);
        if block.None? { return longer, false; }
        longer := longer + [block.value.id];
      }
      complete := true;
    }
  }

  /** Two blocks, the second on top of the first. */
  function TwoBlocks(id: BlockId): (b: Block) {
    if id == BlockId(2, 0) then Block(id, BlockId(1, 0), 0) else Block(id, NoBlock, 0)
  }

  /** After the head has stepped back, the block it was is still given as the main branch's block of its number. */
  method OffBranchBlock() returns (r: Option<Block>, main: Option<Block>)
    ensures r == Some(TwoBlocks(BlockId(2, 0))) && main == None
  {
    var low, high := TwoBlocks(BlockId(1, 0)), TwoBlocks(BlockId(2, 0));
    var db := new ForkDb(TwoBlocks);
    var first := db.Push(low);
    var second := db.Push(high);
    var popped := db.Pop(map[]);
    assert Lone(db.index, 2, high.id);
    FetchedCases(db.index, db.head, 2);
    r := db.FetchOnMainBranch(2);
    main := db.WalkMainBranch(2);
  }

  lemma {:induction false} OnlyMember<T>(s: set<T>, x: T)
    requires |s| == 1 && x in s
    ensures s == {x}
  {
    assert |s - {x}| == 0;
    assert s == {x} + (s - {x});
  }

  lemma {:induction false} UpKnown(index: Index, id: BlockId, k: nat)
    requires Good(index) && Up(index, id, k).Some?
    ensures Up(index, id, k).value.id in index && index[Up(index, id, k).value.id] == Up(index, id, k).value
    decreases k
  {
    if k > 0 { UpKnown(index, index[id].previous, k - 1); }
  }

  lemma {:induction false} UpSteps(index: Index, id: BlockId, k: nat)
    requires Good(index)
    ensures id !in index ==> Up(index, id, k).None?
    ensures id in index ==> Up(index, id, k) == if k == 0 then Some(index[id]) else Up(index, index[id].previous, k - 1)
  {
  }

  lemma {:induction false} WalkStart(index: Index, tip: BlockId)
    requires Good(index) && tip in index
    ensures WalkingTo(index, tip, [], index[tip])
  {
  }

  /** One step down, if the predecessor is known. */
  lemma {:induction false} WalkOn(index: Index, tip: BlockId, p: seq<Block>, x: Block)
    requires Good(index) && WalkingTo(index, tip, p, x)
    ensures x.previous in index ==>
      WalkingTo(index, tip, p + [x], index[x.previous]) && index[x.previous].id.num + 1 == x.id.num
  {
    assert (p + [x])[|p|] == x;
  }

  lemma {:induction false} WalkDone(index: Index, tip: BlockId, p: seq<Block>, x: Block)
    requires WalkingTo(index, tip, p, x)
    ensures Path(index, p + [x]) && (p + [x])[0].id == tip
  {
  }

  /** Everything already walked over is higher than where the walk has arrived. */
  lemma {:induction false} WalkAbove(index: Index, tip: BlockId, p: seq<Block>, x: Block)
    requires Good(index) && WalkingTo(index, tip, p, x)
    ensures forall i :: 0 <= i < |p| ==> p[i].id.num > x.id.num
  {
    forall i | 0 <= i < |p| ensures p[i].id.num > x.id.num {
      PathNumbers(index, p + [x], i);
      PathNumbers(index, p + [x], |p|);
    }
  }
}
