/**
 The logarithmic summary of a chain that a node sends to a peer when it asks for
 more block ids.  The application writes the part about blocks it has, the
 network code the part about ids the peer has announced.
 */
module Synopsis {
  import opened Wrappers
  import opened Sequences
  import opened ForkDatabase

  /** Ids of the blocks 1, 2, 3, ... of one chain. */
  ghost predicate Chained(chain: seq<BlockId>) {
    forall i :: 0 <= i < |chain| ==> chain[i].num == i + 1
  }

  function Next(low: nat, high: nat): (n: nat)
    requires low <= high
    ensures low < n <= high + 1
  {
    low + (high - low + 2) / 2
  }

  /** The synopsis of the blocks from `low` to the end of the chain. */
  function Summary(chain: seq<BlockId>, low: nat): (r: seq<BlockId>)
    requires 1 <= low
    decreases |chain| + 1 - low
  {
    if low > |chain| then [] else [chain[low - 1]] + Summary(chain, Next(low, |chain|))
  }

  /** The part about the blocks that are known, which the application writes. */
  function KnownPart(known: seq<BlockId>, low: nat, high: nat): (r: seq<BlockId>)
    requires 1 <= low
    decreases high + 1 - low
  {
    if low > high || low > |known| then [] else [known[low - 1]] + KnownPart(known, Next(low, high), high)
  }

  /** The part about the ids that are pending from block `first` on, which the network code writes. */
  function PendingPart(pending: seq<BlockId>, first: nat, low: nat): (r: seq<BlockId>)
    requires 1 <= first
    decreases first + |pending| - low
  {
    var high := first + |pending| - 1;
    if low > high then []
    else (if low >= first then [pending[low - first]] else []) + PendingPart(pending, first, Next(low, high))
  }

  /** The two halves, written apart, are one seamless synopsis of the joined chain. */
  lemma {:induction false} Seamless(known: seq<BlockId>, pending: seq<BlockId>, low: nat)
    requires 1 <= low
    ensures KnownPart(known, low, |known| + |pending|) + PendingPart(pending, |known| + 1, low) == Summary(known + pending, low)
    decreases |known| + |pending| + 1 - low
  {
    var chain := known + pending;
    if low <= |chain| {
      Seamless(known, pending, Next(low, |chain|));
      if low > |known| {
        assert KnownPart(known, Next(low, |chain|), |chain|) == [];
      }
    }
  }

  function BitLength(n: nat): (b: nat) {
    if n == 0 then 0 else 1 + BitLength(n / 2)
  }

  function Pow2(k: nat): (p: nat)
    ensures 0 < p
  {
    if k == 0 then 1 else 2 * Pow2(k - 1)
  }

  /** `BitLength(n)` is one more than the rounded-down binary logarithm of `n`. */
  lemma {:induction false} BitLengthIsLog(n: nat)
    requires 0 < n
    ensures 0 < BitLength(n) && Pow2(BitLength(n) - 1) <= n < Pow2(BitLength(n))
  {
    if n > 1 { BitLengthIsLog(n / 2); }
  }

  /** A synopsis has as many entries as the number of its blocks has binary digits. */
  lemma {:induction false} SummaryLength(chain: seq<BlockId>, low: nat)
    requires 1 <= low <= |chain| + 1
    ensures |Summary(chain, low)| == BitLength(|chain| - low + 1)
    decreases |chain| + 1 - low
  {
    if low <= |chain| {
      var next := Next(low, |chain|);
      assert |chain| - next + 1 == (|chain| - low + 1) / 2;
      SummaryLength(chain, next);
    }
  }

  /** A synopsis starts at its low block, ends exactly at the last block and rises strictly in between. */
  lemma {:induction false} SummaryShape(chain: seq<BlockId>, low: nat)
    requires Chained(chain) && 1 <= low <= |chain|
    ensures var r := Summary(chain, low);
            && 0 < |r| && r[0] == chain[low - 1] && r[|r| - 1] == chain[|chain| - 1]
            && (forall i :: 0 <= i < |r| ==> low <= r[i].num <= |chain| && r[i] == chain[r[i].num - 1])
            && (forall i, j :: 0 <= i < j < |r| ==> r[i].num < r[j].num)
    decreases |chain| - low
  {
    var next := Next(low, |chain|);
    var rest := Summary(chain, next);
    assert Summary(chain, low) == [chain[low - 1]] + rest;
    if next <= |chain| {
      SummaryShape(chain, next);
    }
  }

  /** From each entry to the next, what is left to the end is halved: of `d` blocks after it, `(d - 1) / 2` remain. */
  lemma {:induction false} SummaryHalves(chain: seq<BlockId>, low: nat, i: nat)
    requires Chained(chain) && 1 <= low <= |chain| && i + 1 < |Summary(chain, low)|
    ensures var r := Summary(chain, low);
            var d := |chain| - r[i].num;
            0 < d && |chain| - r[i + 1].num == (d - 1) / 2
    decreases |chain| - low
  {
    SummaryShape(chain, low);
    var next := Next(low, |chain|);
    if next <= |chain| {
      SummaryShape(chain, next);
      if i > 0 { SummaryHalves(chain, next, i - 1); }
    }
  }

  // ------------------------------------------------------- the application's part

  datatype SyncError = ForkUnknown | ForkTooOld | UnreachableFork

  /** The chain a synopsis is about: its ids, up to which number they are on the main chain, and the first number to report. */
  datatype View = View(low: nat, main: nat, chain: seq<BlockId>)

  predicate Included(main: seq<BlockId>, id: BlockId) {
    1 <= id.num <= |main| && main[id.num - 1] == id
  }

  /** `history` leads from `reference` back to the last block it shares with the main chain. */
  ghost predicate ForkHistory(main: seq<BlockId>, reference: BlockId, history: seq<BlockId>) {
    && 2 <= |history| && history[0] == reference
    && (forall i :: 0 <= i < |history| ==> history[i].num + i == reference.num)
    && (history[|history| - 1] == NoBlock || Included(main, history[|history| - 1]))
  }

  /** Which chain to summarise: up to the reference point, on the main chain or on a fork, or all of it. */
  function ViewOf(main: seq<BlockId>, lib: nat, reference: BlockId, history: Option<seq<BlockId>>): (r: Result<Option<View>, SyncError>)
    requires history.Some? ==> 2 <= |history.value|
  {
    if reference == NoBlock then
      if |main| == 0 then Ok(None) else Ok(Some(View(if lib == 0 then 1 else lib, |main|, main)))
    else if Included(main, reference) then
      var low := if reference.num < lib then reference.num else lib;
      Ok(Some(View(if low == 0 then 1 else low, reference.num, main[..reference.num])))
    else if history.None? then Err(ForkUnknown)
    else
      var shared := history.value[|history.value| - 1].num;
      if shared < lib then Err(ForkTooOld)
      else if shared > |main| then Err(ForkUnknown)
      else Ok(Some(View(if lib == 0 then 1 else lib, shared,
                        main[..shared] + Reversed(history.value[..|history.value| - 1]))))
  }

  lemma {:induction false} ViewIsChain(main: seq<BlockId>, lib: nat, reference: BlockId, history: Option<seq<BlockId>>)
    requires Chained(main) && lib <= |main|
    requires history.Some? ==> ForkHistory(main, reference, history.value)
    ensures var r := ViewOf(main, lib, reference, history);
            r.Ok? && r.value.Some? ==>
              && Chained(r.value.value.chain) && 1 <= r.value.value.low <= |r.value.value.chain|
              && r.value.value.main <= |r.value.value.chain|
              && (reference != NoBlock ==> r.value.value.chain[|r.value.value.chain| - 1] == reference)
  {
    var r := ViewOf(main, lib, reference, history);
    if r.Ok? && r.value.Some? && reference != NoBlock && !Included(main, reference) {
      var h := history.value;
      var shared := h[|h| - 1].num;
      var rest := Reversed(h[..|h| - 1]);
      assert forall i :: 0 <= i < |rest| ==> rest[i] == h[|h| - 2 - i] && rest[i].num == shared + 1 + i;
    }
  }

  /** The loop of `get_blockchain_synopsis`: ids from the main chain or from the fork, halving the distance to the end. */
  method WriteKnownPart(main: seq<BlockId>, forkHistory: seq<BlockId>, nonForkHigh: nat, lowest: nat, after: nat) returns (synopsis: seq<BlockId>)
    requires nonForkHigh <= |main| && 1 <= lowest <= nonForkHigh + |forkHistory|
    ensures var known := main[..nonForkHigh] + forkHistory;
            synopsis == KnownPart(known, lowest, |known| + after)
  {
    ghost var known := main[..nonForkHigh] + forkHistory;
    var high := nonForkHigh + |forkHistory|;
    var trueHigh := high + after;
    var low := lowest;
    synopsis := [];
    while low <= high
      invariant 1 <= low <= trueHigh + 1
      invariant synopsis + KnownPart(known, low, trueHigh) == KnownPart(known, lowest, trueHigh)
    {
      ghost var rest := KnownPart(known, Next(low, trueHigh), trueHigh);
      assert low <= |known| && low <= trueHigh;
      var id := if low <= nonForkHigh then main[low - 1] else forkHistory[low - nonForkHigh - 1];
      assert KnownPart(known, low, trueHigh) == [id] + rest;
      assert synopsis + ([id] + rest) == (synopsis + [id]) + rest;
      synopsis := synopsis + [id];
      low := Next(low, trueHigh);
    }
    assert KnownPart(known, low, trueHigh) == [];
  }

  /** `get_blockchain_synopsis`, with room left for `after` ids that the network code knows. */
  method ApplicationPart(main: seq<BlockId>, lib: nat, reference: BlockId, history: Option<seq<BlockId>>, after: nat)
    returns (r: Result<seq<BlockId>, SyncError>)
    requires Chained(main) && lib <= |main|
    requires history.Some? ==> ForkHistory(main, reference, history.value)
    ensures var v := ViewOf(main, lib, reference, history);
            if v.Err? then r == Err(v.error)
            else if v.value.None? then r == Ok([])
            else r == Ok(KnownPart(v.value.value.chain, v.value.value.low, |v.value.value.chain| + after))
  {
    hide KnownPart;
    ViewIsChain(main, lib, reference, history);
    var low := lib;
    var forkHistory: seq<BlockId> := [];
    var nonForkHigh := |main|;
    if reference != NoBlock {
      if Included(main, reference) {
        nonForkHigh := reference.num;
        if reference.num < low { low := reference.num; }
      } else {
        if history.None? { return Err(ForkUnknown); }
        forkHistory := Reversed(history.value[..|history.value| - 1]);
        nonForkHigh := history.value[|history.value| - 1].num;
        if nonForkHigh < low { return Err(ForkTooOld); }
      }
    } else if |main| == 0 {
      return Ok([]);
    }
    if low == 0 { low := 1; }
    ghost var v := ViewOf(main, lib, reference, history).value.value;
    assert v.low == low && v.chain == main[..nonForkHigh] + forkHistory;
    var synopsis := WriteKnownPart(main, forkHistory, nonForkHigh, low, after);
    r := Ok(synopsis);
  }

  // ------------------------------------------------------- the network code's part

  /** The rest of `create_blockchain_synopsis_for_peer`. */
  method NetworkPart(part: seq<BlockId>, pending: seq<BlockId>) returns (synopsis: seq<BlockId>)
    requires pending != [] ==> 1 <= pending[0].num
    requires part != [] && pending != [] ==> part[0].num < pending[0].num + |pending|
    ensures synopsis == part + (if pending == [] then []
                                else PendingPart(pending, pending[0].num, if part == [] then 1 else part[0].num))
  {
    synopsis := part;
    if pending == [] { return; }
    var first := pending[0].num;
    var trueHigh := first + |pending| - 1;
    var low := if part == [] then 1 else part[0].num;
    ghost var goal := part + PendingPart(pending, first, low);
    while low <= trueHigh
      invariant low <= trueHigh + 1
      invariant synopsis + PendingPart(pending, first, low) == goal
    {
      ghost var rest := PendingPart(pending, first, Next(low, trueHigh));
      if low >= first {
        assert PendingPart(pending, first, low) == [pending[low - first]] + rest;
        assert synopsis + ([pending[low - first]] + rest) == (synopsis + [pending[low - first]]) + rest;
        synopsis := synopsis + [pending[low - first]];
      } else {
        assert PendingPart(pending, first, low) == [] + rest == rest;
      }
      low := Next(low, trueHigh);
    }
    assert PendingPart(pending, first, low) == [];
  }

  /** The chain a peer is asked to continue: what is known up to the reference point, then its pending ids. */
  function Joined(view: Option<View>, pending: seq<BlockId>): (chain: seq<BlockId>) {
    (if view.Some? then view.value.chain else []) + pending
  }

  /**
   Both parts together: when the pending ids start right after the reference
   point, the result is one synopsis of the whole chain that the peer will see.
   */
  method SynopsisForPeer(main: seq<BlockId>, lib: nat, reference: BlockId, history: Option<seq<BlockId>>, pending: seq<BlockId>)
    returns (r: Result<seq<BlockId>, SyncError>)
    requires Chained(main) && lib <= |main|
    requires history.Some? ==> ForkHistory(main, reference, history.value)
    requires var v := ViewOf(main, lib, reference, history); v.Ok? ==> Chained(Joined(v.value, pending))
    ensures var v := ViewOf(main, lib, reference, history);
            if v.Err? then r == Err(v.error)
            else r == Ok(Summary(Joined(v.value, pending), if v.value.Some? then v.value.value.low else 1))
  {
    hide ViewOf, Summary, PendingPart;
    ViewIsChain(main, lib, reference, history);
    var part := ApplicationPart(main, lib, reference, history, |pending|);
    if part.Err? { return Err(part.error); }
    ghost var v := ViewOf(main, lib, reference, history).value;
    JoinParts(if v.Some? then v.value.chain else [], pending, if v.Some? then v.value.low else 1, part.value);
    var whole := NetworkPart(part.value, pending);
    r := Ok(whole);
  }

  lemma {:induction false} JoinParts(known: seq<BlockId>, pending: seq<BlockId>, low: nat, part: seq<BlockId>)
    requires Chained(known + pending) && 1 <= low && (known == [] ==> low == 1) && (known != [] ==> low <= |known|)
    requires part == KnownPart(known, low, |known| + |pending|)
    ensures part != [] && pending != [] ==> part[0].num < pending[0].num + |pending|
    ensures pending != [] ==> 1 <= pending[0].num
    ensures part + (if pending == [] then []
                    else PendingPart(pending, pending[0].num, if part == [] then 1 else part[0].num)) == Summary(known + pending, low)
  {
    hide Summary, PendingPart;
    var chain := known + pending;
    Seamless(known, pending, low);
    if known != [] {
      assert part[0] == known[low - 1] == chain[low - 1];
      assert chain[low - 1].num == low;
    }
    if pending == [] {
      NothingPending(|known| + 1, low);
    } else {
      assert pending[0] == chain[|known|];
    }
  }

  lemma NothingPending(first: nat, low: nat)
    requires 1 <= first
    ensures PendingPart([], first, low) == []
    decreases first - low
  {
    if low < first { NothingPending(first, Next(low, first - 1)); }
  }
}
