/**
 Finding the id of a block by its number: first in the ring of 65536 block
 summaries, then in the block log.
 */
module BlockIdLookup {
  import opened Wrappers
  import opened ForkDatabase
  import opened Synopsis

  const RING: nat := 0x1_0000
  const MAX_UNDO_HISTORY: nat := 10000

  /** What slot `k` of the ring holds after the blocks of `chain` have been applied. */
  function RingAt(chain: seq<BlockId>, k: nat): (id: BlockId) {
    if chain == [] then NoBlock
    else if |chain| % RING == k then chain[|chain| - 1]
    else RingAt(chain[..|chain| - 1], k)
  }

  /** The ring still has the last 65536 blocks, and where an older block was there is a younger one. */
  lemma {:induction false} RingHolds(chain: seq<BlockId>, n: nat)
    requires Chained(chain) && 1 <= n <= |chain|
    ensures if |chain| < n + RING then RingAt(chain, n % RING) == chain[n - 1] else RingAt(chain, n % RING).num > n
  {
    if |chain| % RING != n % RING {
      RingHolds(chain[..|chain| - 1], n);
    }
  }

  /** A number beyond the head is not in the ring. */
  lemma {:induction false} RingIsOld(chain: seq<BlockId>, k: nat)
    requires Chained(chain)
    ensures RingAt(chain, k).num <= |chain|
  {
    if chain != [] { RingIsOld(chain[..|chain| - 1], k); }
  }

  class Lookup {
    const ring: array<BlockId>       // the block summaries; undoing a block restores its slot
    var log: seq<BlockId>            // ids of the blocks in the block log
    var head: nat
    var lib: nat                     // last_irreversible_block_num
    ghost var chain: seq<BlockId>    // ids of the applied blocks

    ghost predicate Valid()
      reads this, ring
    {
      && ring.Length == RING && Chained(chain) && head == |chain|
      && (forall k: nat :: k < RING ==> ring[k] == RingAt(chain, k))
      && lib <= |log| <= head && log == chain[..|log|]
      && head - lib < MAX_UNDO_HISTORY
    }

    constructor ()
      ensures Valid() && chain == [] && log == []
    {
      ring := new BlockId[RING](i => NoBlock);
      log, head, lib, chain := [], 0, 0, [];
    }

    /**
     What applying a block does to the lookup: the undo history check, the new
     irreversible number, the log up to it from the fork database, and the block
     summary.  A block whose copy to the log fails is undone, but not the copy.
     Ring and log are those of the chain exactly as long as what the fork database
     gave are the chain's blocks, as they are when its main branch supplies them.
     */
    method Apply(id: BlockId, newLib: nat, fork: ForkDb) returns (ok: bool)
      requires Valid() && fork.Valid() && id.num == head + 1 && lib <= newLib <= head + 1
      modifies this, ring
      ensures ok <==> old(head) + 1 - old(lib) < MAX_UNDO_HISTORY && Copied(fork.index, fork.head, old(log), newLib).complete
      ensures log == if old(head) + 1 - old(lib) < MAX_UNDO_HISTORY then Copied(fork.index, fork.head, old(log), newLib).log else old(log)
      ensures chain == (if ok then old(chain) + [id] else old(chain)) && lib == if ok then newLib else old(lib)
      ensures Valid() <==> |log| <= |chain| && log == chain[..|log|]
      ensures Supplies(fork.index, fork.head, old(chain) + [id], |old(log)|, newLib) ==>
        Valid() && (ok <==> old(head) + 1 - old(lib) < MAX_UNDO_HISTORY)
    {
      hide MainAt, Copied, Good;
      if head + 1 - lib >= MAX_UNDO_HISTORY { return false; }
      ghost var before, written := chain, log;
      CopiedIff(fork.index, fork.head, log, newLib);
      if Supplies(fork.index, fork.head, chain + [id], |log|, newLib) {
        fork.ValidKnown();
        SuppliedCopy(fork.index, fork.head, chain + [id], log, newLib);
      }
      log, ok := fork.CopyToLog(log, newLib);
      assert log[..|written|] == written;
      if !ok { return; }
      chain := chain + [id];
      assert chain[..|chain| - 1] == before;
      head := head + 1;
      lib := newLib;
      ring[id.num % RING] := id;
    }

    /**
     Popping the last block while the log does not have it.  The undo session
     gives back what the ring slot and the irreversible number were.
     */
    method Undo(slot: BlockId, oldLib: nat)
      requires Valid() && |log| < head && oldLib <= lib && head - 1 - oldLib < MAX_UNDO_HISTORY
      requires slot == RingAt(chain[..|chain| - 1], head % RING)
      modifies this, ring
      ensures Valid() && chain == old(chain)[..|old(chain)| - 1] && log == old(log) && lib == oldLib
    {
      ring[head % RING] := slot;
      head, lib, chain := head - 1, oldLib, chain[..|chain| - 1];
    }

    /**
     `find_block_id_for_num`: ring, log, then `onFork`, the fork database's
     answer.  Up to the head it is the applied chain's id, whatever the fork
     database would say; beyond the head only the fork database is left.
     */
    method Find(n: nat, onFork: Option<BlockId>) returns (id: BlockId)
      requires Valid()
      ensures 1 <= n <= head ==> id == chain[n - 1]
      ensures n == 0 || (n > head && onFork.None?) ==> id == NoBlock
      ensures n > head && onFork.Some? ==> id == onFork.value
    {
      if n == 0 { return NoBlock; }
      var summary := ring[n % RING];
      if n <= head { RingHolds(chain, n); } else { RingIsOld(chain, n % RING); }
      if summary.num == n { return summary; }
      if n <= |log| { return log[n - 1]; }
      id := if onFork.Some? then onFork.value else NoBlock;
    }
  }
}
