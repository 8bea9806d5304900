/**
 Answering a synopsis with the ids that follow it, checking such an answer, and
 merging it into the list of ids to get from a peer.
 */
module BlockSync {
  import opened Wrappers
  import opened Widths
  import Slots
  import opened ForkDatabase
  import opened Synopsis

  // ------------------------------------------------------- the answer

  /** The synopsis of a peer that has no blocks. */
  predicate NoBlocks(synopsis: seq<BlockId>) {
    synopsis == [] || synopsis == [NoBlock]
  }

  /** An entry that the responder recognises. */
  predicate Recognised(main: seq<BlockId>, id: BlockId) {
    id == NoBlock || Included(main, id)
  }

  /** `ids` is the piece of the main chain behind its first `from` blocks, with `remaining` blocks after it. */
  ghost predicate Stretch(main: seq<BlockId>, from: nat, ids: seq<BlockId>, remaining: nat) {
    from + |ids| + remaining == |main| && ids == main[from..from + |ids|]
  }

  /** `get_block_ids`: up to `limit` ids of the main chain from the last recognised entry of the synopsis on. */
  method BlockIds(main: seq<BlockId>, synopsis: seq<BlockId>, limit: nat)
    returns (r: Result<seq<BlockId>, SyncError>, remaining: nat)
    requires Chained(main)
    ensures r.Err? <==> main != [] && !NoBlocks(synopsis) && forall i :: 0 <= i < |synopsis| ==> !Recognised(main, synopsis[i])
    ensures main == [] ==> r == Ok([]) && remaining == 0
    // the answer is a stretch of the main chain
    ensures r.Ok? && r.value != [] ==>
      exists from: nat :: Stretch(main, from, r.value, remaining) && (|r.value| == limit || remaining == 0)
    // it starts at block 1 or at the last entry that is on the main chain
    ensures r.Ok? && r.value != [] && !NoBlocks(synopsis) ==>
      exists k :: 0 <= k < |synopsis| && Recognised(main, synopsis[k])
        && (forall j :: k < j < |synopsis| ==> !Recognised(main, synopsis[j]))
        && r.value[0] == (if synopsis[k] == NoBlock then main[0] else synopsis[k])
    ensures r.Ok? && r.value != [] && NoBlocks(synopsis) ==> r.value[0] == main[0]
    ensures r.Ok? ==> (r.value == [] <==> main == [] || limit == 0)
  {
    remaining := 0;
    if main == [] { return Ok([]), 0; }
    var last := NoBlock;
    if !NoBlocks(synopsis) {
      var k := LastRecognised(main, synopsis);
      if k == |synopsis| { return Err(UnreachableFork), 0; }
      last := synopsis[k];
    }
    var result := IdsFrom(main, last.num, limit);
    if result != [] && result[|result| - 1].num < |main| { remaining := |main| - result[|result| - 1].num; }
    r := Ok(result);
    if result != [] {
      ghost var from: nat :| StartsAt(main, last.num, result, limit, from);
      assert result[|result| - 1] == main[from + |result| - 1] && result[0] == main[from];
      assert Stretch(main, from, result, remaining);
    }
  }

  /** The search for the last entry that the responder recognises; the length if there is none. */
  method LastRecognised(main: seq<BlockId>, synopsis: seq<BlockId>) returns (k: nat)
    ensures k <= |synopsis|
    ensures k < |synopsis| ==> Recognised(main, synopsis[k]) && forall j :: k < j < |synopsis| ==> !Recognised(main, synopsis[j])
    ensures k == |synopsis| ==> forall j :: 0 <= j < |synopsis| ==> !Recognised(main, synopsis[j])
  {
    k := |synopsis|;
    while 0 < k
      invariant 0 <= k <= |synopsis|
      invariant forall j :: k <= j < |synopsis| ==> !Recognised(main, synopsis[j])
    {
      k := k - 1;
      if Recognised(main, synopsis[k]) { return; }
    }
    k := |synopsis|;
  }

  /** `ids` are the ids behind the first `from` blocks, as many as there are up to `limit`; block numbers start at `num`, or at 1. */
  ghost predicate StartsAt(main: seq<BlockId>, num: nat, ids: seq<BlockId>, limit: nat, from: nat) {
    && from == (if num == 0 then 0 else num - 1)
    && from + |ids| <= |main| && ids == main[from..from + |ids|] && |ids| <= limit
    && (|ids| == limit || from + |ids| == |main|)
  }

  /** The loop that copies ids from number `num` on; number 0 has none. */
  method IdsFrom(main: seq<BlockId>, num: nat, limit: nat) returns (ids: seq<BlockId>)
    requires num <= |main|
    ensures exists from: nat :: StartsAt(main, num, ids, limit, from)
  {
    ids := [];
    var n := num;
    ghost var from: nat := if num == 0 then 0 else num - 1;
    while n <= |main| && |ids| < limit
      invariant num <= n <= |main| + 1 && |ids| <= limit
      invariant if n == 0 then ids == [] else n == from + 1 + |ids| && ids == main[from..from + |ids|]
      decreases |main| + 1 - n
    {
      if n > 0 { ids := ids + [main[n - 1]]; }
      n := n + 1;
    }
    assert StartsAt(main, num, ids, limit, from);
  }

  // ------------------------------------------------------- the requester's checks

  /** A list of ids with consecutive block numbers. */
  ghost predicate Consecutive(ids: seq<BlockId>) {
    forall i :: 0 <= i < |ids| ==> ids[i].num == ids[0].num + i
  }

  /** A valid answer to `synopsis`: nothing, or consecutive ids that start at one of its entries, or at block 1 if it had none. */
  ghost predicate ValidAnswer(synopsis: seq<BlockId>, ids: seq<BlockId>) {
    ids == [] || (Consecutive(ids) && if synopsis == [] then ids[0].num == 1 else ids[0] in synopsis)
  }

  /** The last entry that the responder recognises is the null id. */
  ghost predicate LastIsNull(main: seq<BlockId>, synopsis: seq<BlockId>) {
    exists k :: 0 <= k < |synopsis| && synopsis[k] == NoBlock && forall j :: k < j < |synopsis| ==> !Recognised(main, synopsis[j])
  }

  /**
   An honest answer passes the requester's checks, unless the responder recognised
   nothing after a null id and its first block is no entry.  There is no answer
   exactly when nothing is recognised.
   */
  method HonestAnswer(main: seq<BlockId>, synopsis: seq<BlockId>, limit: nat) returns (r: Result<seq<BlockId>, SyncError>, remaining: nat)
    requires Chained(main)
    ensures r.Err? <==> main != [] && !NoBlocks(synopsis) && forall i :: 0 <= i < |synopsis| ==> !Recognised(main, synopsis[i])
    ensures r.Ok? ==> (r.value == [] <==> main == [] || limit == 0)
    ensures r.Ok? ==>
      (ValidAnswer(synopsis, r.value) <==> main == [] || limit == 0 || !LastIsNull(main, synopsis) || main[0] in synopsis)
    ensures r.Ok? && r.value != [] ==> remaining == |main| - r.value[|r.value| - 1].num
  {
    r, remaining := BlockIds(main, synopsis, limit);
    if r.Ok? && r.value != [] {
      ghost var from: nat :| Stretch(main, from, r.value, remaining);
      assert forall i :: 0 <= i < |r.value| ==> r.value[i] == main[from + i];
      if synopsis == [NoBlock] {
        assert synopsis[0] == NoBlock;
      } else if synopsis != [] {
        ghost var k :| 0 <= k < |synopsis| && Recognised(main, synopsis[k])
          && (forall j :: k < j < |synopsis| ==> !Recognised(main, synopsis[j]))
          && r.value[0] == (if synopsis[k] == NoBlock then main[0] else synopsis[k]);
        LastOnly(main, synopsis, k);
      }
    }
  }

  lemma LastOnly(main: seq<BlockId>, synopsis: seq<BlockId>, k: nat)
    requires k < |synopsis| && Recognised(main, synopsis[k]) && forall j :: k < j < |synopsis| ==> !Recognised(main, synopsis[j])
    ensures LastIsNull(main, synopsis) <==> synopsis[k] == NoBlock
  {
  }

  /** The answer to a synopsis that holds only the null id is turned down. */
  method NullSynopsisTurnedDown() returns (r: Result<seq<BlockId>, SyncError>)
    ensures r == Ok([BlockId(1, 7)]) && !ValidAnswer([NoBlock], [BlockId(1, 7)])
  {
    var main := [BlockId(1, 7)];
    var remaining;
    r, remaining := BlockIds(main, [NoBlock], 1);
    if r.Ok? && r.value != [] {
      ghost var from: nat :| Stretch(main, from, r.value, remaining);
      assert r.value == [main[0]];
    }
  }

  /** An honest answer to a synopsis as the node builds it always passes the checks. */
  method AnswerToSynopsis(main: seq<BlockId>, chain: seq<BlockId>, low: nat, limit: nat)
    returns (r: Result<seq<BlockId>, SyncError>, remaining: nat)
    requires Chained(main) && Chained(chain) && 1 <= low <= |chain|
    ensures r.Ok? ==> ValidAnswer(Summary(chain, low), r.value)
    ensures r.Err? <==> main != [] && forall i :: 0 <= i < |Summary(chain, low)| ==> !Included(main, Summary(chain, low)[i])
  {
    SummaryShape(chain, low);
    r, remaining := HonestAnswer(main, Summary(chain, low), limit);
  }

  // ------------------------------------------------------- the peer

  datatype Handled = NotAsked | Disconnected | InSync | Merged | Implausible

  const GRACE: nat := 60 * 60          // GRAPHENE_NET_FUTURE_SYNC_BLOCKS_GRACE_PERIOD_SEC

  /** The earliest time the last offered block can have, in the code's 32-bit seconds. */
  function EarliestEnd(seenTime: nat, remaining: nat): (t: nat) {
    (seenTime + remaining * Slots.INTERVAL % U32) % U32
  }

  predicate TooMany(seenTime: nat, remaining: nat, now: nat) {
    EarliestEnd(seenTime, remaining) > (now + GRACE) % U32
  }

  /** As long as nothing wraps around: the last offered block would be more than an hour ahead. */
  lemma TooManyMeans(seenTime: nat, remaining: nat, now: nat)
    requires seenTime + 3 * remaining < U32 && now + 3600 < U32
    ensures TooMany(seenTime, remaining, now) <==> seenTime + 3 * remaining > now + 3600
  {
  }

  /** So many blocks that their time wraps around are taken for plausible again. */
  lemma WrappedCountPasses()
    ensures TooMany(0, 1431655765, 1600000000) && !TooMany(0, 1431655766, 1600000000)
  {
  }

  /** What a node keeps about a peer it is syncing from. */
  class Peer {
    var idsToGet: seq<BlockId>              // ids_of_items_to_get
    var lastSeen: BlockId                   // last_block_delegate_has_seen
    var unfetched: nat                      // number_of_unfetched_item_ids
    var requested: Option<seq<BlockId>>     // the synopsis of item_ids_requested_from_peer
    var needSync: bool                      // we_need_sync_items_from_peer

    constructor ()
      ensures idsToGet == [] && lastSeen == NoBlock && unfetched == 0 && requested == None && needSync
    {
      idsToGet, lastSeen, unfetched, requested, needSync := [], NoBlock, 0, None, true;
    }

    /** The checks of the answer, in the order of the code. */
    method Check(synopsis: seq<BlockId>, ids: seq<BlockId>) returns (ok: bool)
      ensures ok <==> ValidAnswer(synopsis, ids)
    {
      if ids == [] { return true; }
      var i := 1;
      while i < |ids|
        invariant 1 <= i <= |ids|
        invariant forall j :: 0 <= j < i ==> ids[j].num == ids[0].num + j
      {
        if ids[i].num != ids[0].num + i { return false; }
        i := i + 1;
      }
      if synopsis == [] { return ids[0].num == 1; }
      ok := ids[0] in synopsis;
    }

    /**
     `on_blockchain_item_ids_inventory_message`: the ids still to get stay
     consecutive in block number, the old ones that are kept are a prefix, and
     the new ones end where the answer ends.  `times` gives the time of a block
     and `now` the time of the node; after the merge a peer that offers more
     blocks than can exist is disconnected.
     */
    method OnInventory(ids: seq<BlockId>, remaining: nat, has: set<BlockId>, firstForOther: bool, times: BlockId -> nat, now: nat)
      returns (h: Handled)
      requires Consecutive(idsToGet)
      modifies this
      ensures Consecutive(idsToGet)
      ensures h == NotAsked <==> old(requested) == None
      ensures h == Disconnected <==> old(requested).Some? && !ValidAnswer(old(requested).value, ids)
      ensures h == NotAsked || h == Disconnected || h == InSync ==>
        idsToGet == old(idsToGet) && lastSeen == old(lastSeen) && unfetched == old(unfetched)
      ensures h == InSync || h == Merged || h == Implausible ==> requested == None
      ensures h == InSync <==>
        && old(requested).Some? && ValidAnswer(old(requested).value, ids)
        && remaining == 0 && (ids == [] || (|ids| == 1 && ids[0] in has)) && old(idsToGet) == [] && old(unfetched) == 0
      ensures h == InSync ==> !needSync
      ensures h != InSync ==> needSync == old(needSync)
      ensures h == Merged || h == Implausible ==> unfetched == remaining && (h == Implausible <==> TooMany(times(lastSeen), remaining, now))
      ensures h == Merged || h == Implausible ==> MergedInto(old(idsToGet), old(lastSeen), ids, idsToGet, lastSeen, has, firstForOther)
    {
      if requested == None { return NotAsked; }
      var ok := Check(requested.value, ids);
      if !ok { return Disconnected; }
      requested := None;
      if remaining == 0 && (ids == [] || (|ids| == 1 && ids[0] in has)) && idsToGet == [] && unfetched == 0 {
        needSync := false;
        return InSync;
      }
      unfetched := remaining;
      if ids != [] {
        if idsToGet == [] {
          idsToGet, lastSeen := SkipKnown(ids, lastSeen, has, firstForOther);
        } else {
          idsToGet, lastSeen := TakeOver(idsToGet, lastSeen, ids);
        }
      }
      MergedConsecutive(old(idsToGet), old(lastSeen), ids, idsToGet, lastSeen, has, firstForOther);
      h := if TooMany(times(lastSeen), remaining, now) then Implausible else Merged;
    }
  }

  /** Flushes ids that have already been received and processed from another peer. */
  method SkipKnown(ids: seq<BlockId>, oldSeen: BlockId, has: set<BlockId>, firstForOther: bool)
    returns (received: seq<BlockId>, seen: BlockId)
    ensures exists n: nat :: SkippedTo(n, oldSeen, ids, received, seen, has, firstForOther)
  {
    received, seen := ids, oldSeen;
    ghost var n: nat := 0;
    if !firstForOther {
      while received != [] && received[0] in has
        invariant n <= |ids| && received == ids[n..]
        invariant forall i :: 0 <= i < n ==> ids[i] in has
        invariant seen == if n == 0 then oldSeen else ids[n - 1]
      {
        seen := received[0];
        received := received[1..];
        n := n + 1;
      }
    }
    assert SkippedTo(n, oldSeen, ids, received, seen, has, firstForOther);
  }

  /** Pops ids off the back of the old list until the first new one is found, then appends. */
  method TakeOver(oldIds: seq<BlockId>, oldSeen: BlockId, ids: seq<BlockId>) returns (newIds: seq<BlockId>, seen: BlockId)
    requires ids != []
    ensures ids[0] in oldIds ==> seen == oldSeen && exists n: nat :: TakenOver(n, oldIds, ids, newIds)
    ensures ids[0] !in oldIds ==> newIds == ids[1..] && seen == ids[0]
  {
    var n := |oldIds|;
    while n > 0 && oldIds[n - 1] != ids[0]
      invariant 0 <= n <= |oldIds|
      invariant forall i :: n <= i < |oldIds| ==> oldIds[i] != ids[0]
    {
      n := n - 1;
    }
    if n == 0 {
      newIds, seen := ids[1..], ids[0];
    } else {
      newIds, seen := oldIds[..n - 1] + ids, oldSeen;
      assert TakenOver(n - 1, oldIds, ids, newIds);
    }
  }

  lemma {:induction false} MergedConsecutive(oldIds: seq<BlockId>, oldSeen: BlockId, ids: seq<BlockId>,
                                             newIds: seq<BlockId>, newSeen: BlockId, has: set<BlockId>, firstForOther: bool)
    requires Consecutive(oldIds) && (ids == [] || Consecutive(ids))
    requires MergedInto(oldIds, oldSeen, ids, newIds, newSeen, has, firstForOther)
    ensures Consecutive(newIds)
  {
    if ids != [] {
      if oldIds == [] {
        var n: nat :| SkippedTo(n, oldSeen, ids, newIds, newSeen, has, firstForOther);
        assert forall i :: 0 <= i < |newIds| ==> newIds[i] == ids[n + i];
      } else if ids[0] in oldIds {
        var n: nat :| TakenOver(n, oldIds, ids, newIds);
        assert forall i :: 0 <= i < |newIds| ==> newIds[i] == if i < n then oldIds[i] else ids[i - n];
      } else {
        assert forall i :: 0 <= i < |newIds| ==> newIds[i] == ids[1 + i];
      }
    }
  }

  ghost predicate SkippedTo(n: nat, oldSeen: BlockId, ids: seq<BlockId>,
                            newIds: seq<BlockId>, newSeen: BlockId, has: set<BlockId>, firstForOther: bool) {
    && n <= |ids| && newIds == ids[n..] && (forall i :: 0 <= i < n ==> ids[i] in has)
    && newSeen == (if n == 0 then oldSeen else ids[n - 1])
    && (if firstForOther then n == 0 else n == |ids| || ids[n] !in has)
  }

  ghost predicate TakenOver(n: nat, oldIds: seq<BlockId>, ids: seq<BlockId>, newIds: seq<BlockId>)
    requires ids != []
  {
    && n < |oldIds| && oldIds[n] == ids[0] && newIds == oldIds[..n] + ids
    && forall i :: n < i < |oldIds| ==> oldIds[i] != ids[0]
  }

  /** How the ids to get change when a valid answer is merged. */
  ghost predicate MergedInto(oldIds: seq<BlockId>, oldSeen: BlockId, ids: seq<BlockId>,
                             newIds: seq<BlockId>, newSeen: BlockId, has: set<BlockId>, firstForOther: bool) {
    if ids == [] then newIds == oldIds && newSeen == oldSeen
    else if oldIds == [] then
      // what is already known is skipped, unless another peer is about to send it
      exists n: nat :: SkippedTo(n, oldSeen, ids, newIds, newSeen, has, firstForOther)
    else if ids[0] in oldIds then
      // the new list takes over where its first entry was last found in the old one
      newSeen == oldSeen && exists n: nat :: TakenOver(n, oldIds, ids, newIds)
    else newIds == ids[1..] && newSeen == ids[0]
  }

  /** The ids to get follow directly on the last block the node has seen from the peer. */
  ghost predicate Aligned(seen: BlockId, ids: seq<BlockId>) {
    ids != [] ==> ids[0].num == seen.num + 1
  }

  /**
   Merging keeps the ids to get right behind the last block seen, which is what
   makes the next synopsis seamless, exactly when an answer that is kept whole,
   because its first block is unknown or on its way from another peer, starts there.
   */
  lemma {:induction false} MergeKeepsAligned(oldIds: seq<BlockId>, oldSeen: BlockId, ids: seq<BlockId>,
                                             newIds: seq<BlockId>, newSeen: BlockId, has: set<BlockId>, firstForOther: bool)
    requires Consecutive(oldIds) && Consecutive(ids) && Aligned(oldSeen, oldIds)
    requires MergedInto(oldIds, oldSeen, ids, newIds, newSeen, has, firstForOther)
    ensures Aligned(newSeen, newIds) <==>
      (oldIds == [] && ids != [] && (firstForOther || ids[0] !in has) ==> ids[0].num == oldSeen.num + 1)
  {
    if ids != [] {
      if oldIds == [] {
        var n: nat :| SkippedTo(n, oldSeen, ids, newIds, newSeen, has, firstForOther);
        if n < |ids| { assert newIds[0] == ids[n]; }
      } else if ids[0] in oldIds {
        var n: nat :| TakenOver(n, oldIds, ids, newIds);
        assert newIds[0] == oldIds[0];
      } else if newIds != [] {
        assert newIds[0] == ids[1];
      }
    }
  }

  /** A node that has seen block 5 and is answered from block 5 on, while another peer is about to send that block. */
  lemma MergeMisaligns()
    ensures var seen, ids := BlockId(5, 0), [BlockId(5, 0), BlockId(6, 0)];
            MergedInto([], seen, ids, ids, seen, {seen}, true) && Consecutive(ids) && !Aligned(seen, ids)
  {
    var seen, ids := BlockId(5, 0), [BlockId(5, 0), BlockId(6, 0)];
    assert SkippedTo(0, seen, ids, ids, seen, {seen}, true);
  }
}
