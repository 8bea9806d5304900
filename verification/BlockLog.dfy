/**
 The append-only block log: packed blocks, each followed by its own position,
 and beside it an index of positions.  Files are byte sequences that grow.
 */
module BlockLog {
  import opened Wrappers
  import opened Widths
  import MessageFraming

  type Byte = MessageFraming.Byte

  const POS: nat := 8

  /**
   Packing as the log needs it: blocks are packed to at least one byte, and
   unpacking from a place where a packed block starts gives the block back and
   tells how long it was.
   */
  datatype Codec<!B> = Codec(pack: B -> seq<Byte>, unpack: seq<Byte> -> Option<(B, nat)>, num: B -> nat)

  ghost predicate Faithful<B(!new)>(c: Codec<B>) {
    && (forall b :: 0 < |c.pack(b)|)
    && (forall b, rest :: c.unpack(c.pack(b) + rest) == Some((b, |c.pack(b)|)))
  }

  function Put(n: nat): (r: seq<Byte>)
    ensures |r| == POS
  {
    MessageFraming.LittleEndian(n, POS)
  }

  function Get(bytes: seq<Byte>): (n: nat) {
    MessageFraming.Value(bytes)
  }

  lemma PutGet(n: nat)
    requires n < U64
    ensures Get(Put(n)) == n
  {
    assert MessageFraming.Power(POS) == U64 by {
      MessageFraming.Power4();
      assert MessageFraming.Power(6) == 256 * MessageFraming.Power(5) && MessageFraming.Power(5) == 256 * MessageFraming.Power(4);
      assert MessageFraming.Power(8) == 256 * MessageFraming.Power(7) && MessageFraming.Power(7) == 256 * MessageFraming.Power(6);
    }
    MessageFraming.ValueOfLittleEndian(n, POS);
  }

  /** The log file after `blocks` have been appended. */
  function LogOf<B>(c: Codec<B>, blocks: seq<B>): (file: seq<Byte>) {
    if blocks == [] then []
    else
      var before := LogOf(c, blocks[..|blocks| - 1]);
      before + c.pack(blocks[|blocks| - 1]) + Put(|before|)
  }

  /** Where the block after the first `n` starts. */
  function Start<B>(c: Codec<B>, blocks: seq<B>, n: nat): (pos: nat)
    requires n <= |blocks|
  {
    |LogOf(c, blocks[..n])|
  }

  /** The index file after `blocks` have been appended. */
  function IndexOf<B>(c: Codec<B>, blocks: seq<B>): (file: seq<Byte>) {
    if blocks == [] then [] else IndexOf(c, blocks[..|blocks| - 1]) + Put(|LogOf(c, blocks[..|blocks| - 1])|)
  }

  lemma {:induction false} LogStep<B>(c: Codec<B>, blocks: seq<B>, n: nat)
    requires n < |blocks|
    ensures LogOf(c, blocks[..n + 1]) == LogOf(c, blocks[..n]) + c.pack(blocks[n]) + Put(Start(c, blocks, n))
    ensures IndexOf(c, blocks[..n + 1]) == IndexOf(c, blocks[..n]) + Put(Start(c, blocks, n))
  {
    assert blocks[..n + 1][..n] == blocks[..n];
  }

  /** The log of the first `n` blocks is a prefix of the whole log. */
  lemma {:induction false} LogPrefix<B>(c: Codec<B>, blocks: seq<B>, n: nat)
    requires n <= |blocks|
    ensures LogOf(c, blocks[..n]) <= LogOf(c, blocks)
    ensures IndexOf(c, blocks[..n]) <= IndexOf(c, blocks)
    decreases |blocks| - n
  {
    if n == |blocks| {
      assert blocks[..n] == blocks;
    } else {
      LogStep(c, blocks, n);
      LogPrefix(c, blocks, n + 1);
    }
  }

  lemma {:induction false} IndexLength<B>(c: Codec<B>, blocks: seq<B>)
    ensures |IndexOf(c, blocks)| == POS * |blocks|
  {
    if blocks != [] { IndexLength(c, blocks[..|blocks| - 1]); }
  }

  /** The index entry of block number `n + 1` is its position. */
  lemma {:induction false} IndexEntryAt<B>(c: Codec<B>, blocks: seq<B>, n: nat)
    requires n < |blocks| && Start(c, blocks, n) < U64
    ensures POS * n + POS <= |IndexOf(c, blocks)|
    ensures Get(IndexOf(c, blocks)[POS * n..POS * n + POS]) == Start(c, blocks, n)
  {
    hide LogOf, IndexOf, Get, Put;
    var start := Start(c, blocks, n);
    LogStep(c, blocks, n);
    LogPrefix(c, blocks, n + 1);
    IndexLength(c, blocks[..n]);
    PutGet(start);
    var upTo := IndexOf(c, blocks[..n + 1]);
    assert IndexOf(c, blocks)[POS * n..POS * n + POS] == upTo[POS * n..POS * n + POS] == Put(start);
  }

  /** What is found in the log at the places that belong to block number `n + 1`. */
  lemma {:induction false} EntryAt<B(!new)>(c: Codec<B>, blocks: seq<B>, n: nat)
    requires Faithful(c) && n < |blocks| && |LogOf(c, blocks)| < U64
    ensures Start(c, blocks, n) + |c.pack(blocks[n])| + POS == Start(c, blocks, n + 1) <= |LogOf(c, blocks)|
    ensures c.unpack(LogOf(c, blocks)[Start(c, blocks, n)..]) == Some((blocks[n], |c.pack(blocks[n])|))
    ensures Get(LogOf(c, blocks)[Start(c, blocks, n + 1) - POS..Start(c, blocks, n + 1)]) == Start(c, blocks, n)
  {
    hide LogOf, IndexOf, Get, Put, Faithful;
    var log := LogOf(c, blocks);
    var start := Start(c, blocks, n);
    LogStep(c, blocks, n);
    LogPrefix(c, blocks, n + 1);
    PutGet(start);
    var upTo := LogOf(c, blocks[..n + 1]);
    assert log[start..] == c.pack(blocks[n]) + (Put(start) + log[|upTo|..]);
    Unpacks(c, blocks[n], Put(start) + log[|upTo|..]);
    assert log[|upTo| - POS..|upTo|] == upTo[|upTo| - POS..] == Put(start);
  }

  lemma Unpacks<B(!new)>(c: Codec<B>, b: B, rest: seq<Byte>)
    requires Faithful(c)
    ensures 0 < |c.pack(b)| && c.unpack(c.pack(b) + rest) == Some((b, |c.pack(b)|))
  {
  }

  /** The log with its two files; reading and writing modes of the streams do not matter here. */
  class Log<B(==, !new)> {
    const codec: Codec<B>
    var blockFile: seq<Byte>
    var indexFile: seq<Byte>
    var head: Option<B>
    ghost var blocks: seq<B>

    ghost predicate Valid()
      reads this
    {
      && Faithful(codec)
      && blockFile == LogOf(codec, blocks) && |blockFile| < U64
      && (forall i :: 0 <= i < |blocks| ==> codec.num(blocks[i]) == i + 1)
      && head == if blocks == [] then None else Some(blocks[|blocks| - 1])
    }

    /** The index is the one that appending has written. */
    ghost predicate Indexed()
      reads this
    {
      indexFile == IndexOf(codec, blocks)
    }

    constructor (codec: Codec<B>)
      requires Faithful(codec)
      ensures Valid() && Indexed() && blocks == [] && this.codec == codec
    {
      this.codec := codec;
      blockFile, indexFile, head, blocks := [], [], None, [];
    }

    /** `append`: refused unless the block's number is the next one. */
    method Append(b: B) returns (pos: Option<nat>)
      requires Valid() && Indexed()
      requires |blockFile| + |codec.pack(b)| + POS < U64
      modifies this
      ensures Valid() && Indexed()
      ensures pos.Some? <==> codec.num(b) == |old(blocks)| + 1
      ensures pos.Some? ==> blocks == old(blocks) + [b] && pos.value == |old(blockFile)|
      ensures pos.None? ==> blocks == old(blocks) && blockFile == old(blockFile) && indexFile == old(indexFile)
    {
      IndexLength(codec, blocks);
      var at := |blockFile|;
      if |indexFile| != POS * (codec.num(b) - 1) { return None; }
      blockFile := blockFile + codec.pack(b) + Put(at);
      indexFile := indexFile + Put(at);
      head := Some(b);
      assert (blocks + [b])[..|blocks|] == blocks;
      blocks := blocks + [b];
      pos := Some(at);
    }

    /** `read_block`: the block at a position and the position of the next one. */
    method ReadBlock(pos: nat) returns (r: Option<(B, nat)>)
      requires Valid() && pos <= |blockFile|
      ensures forall n: nat :: n < |blocks| && pos == Start(codec, blocks, n) ==>
                r == Some((blocks[n], Start(codec, blocks, n + 1)))
    {
      hide LogOf, Faithful, Get;
      var unpacked := codec.unpack(blockFile[pos..]);
      forall n: nat | n < |blocks| && pos == Start(codec, blocks, n)
        ensures unpacked == Some((blocks[n], |codec.pack(blocks[n])|)) && pos + |codec.pack(blocks[n])| + POS == Start(codec, blocks, n + 1)
      {
        EntryAt(codec, blocks, n);
      }
      if unpacked.None? { return None; }
      r := Some((unpacked.value.0, pos + unpacked.value.1 + POS));
    }

    /** `get_block_pos`: the index entry of a block number, if the log has that block. */
    method BlockPos(num: nat) returns (pos: Option<nat>)
      requires Valid() && Indexed()
      ensures pos == if 1 <= num <= |blocks| then Some(Start(codec, blocks, num - 1)) else None
    {
      hide LogOf, IndexOf, Faithful, Get;
      if head.None? || num > codec.num(head.value) || num == 0 { return None; }
      EntryAt(codec, blocks, num - 1);
      IndexEntryAt(codec, blocks, num - 1);
      pos := Some(Get(indexFile[POS * (num - 1)..POS * (num - 1) + POS]));
    }

    /** `read_block_by_num` finds exactly the appended block of that number. */
    method ReadBlockByNum(num: nat) returns (b: Option<B>)
      requires Valid() && Indexed()
      ensures b == if 1 <= num <= |blocks| then Some(blocks[num - 1]) else None
    {
      var pos := BlockPos(num);
      if pos.None? { return None; }
      EntryAt(codec, blocks, num - 1);
      var read := ReadBlock(pos.value);
      b := Some(read.value.0);
    }

    /** `read_head`: the last eight bytes lead to the last block. */
    method ReadHead() returns (b: B)
      requires Valid() && blocks != []
      ensures b == blocks[|blocks| - 1]
    {
      LastPosition();
      EntryAt(codec, blocks, |blocks| - 1);
      var pos := Get(blockFile[|blockFile| - POS..]);
      var read := ReadBlock(pos);
      b := read.value.0;
    }

    /** What a reader finds where block number `n + 1` starts, and what appending it wrote to the index. */
    lemma {:induction false} Walk(n: nat)
      requires Valid() && n < |blocks|
      ensures var at := Start(codec, blocks, n);
              var size := |codec.pack(blocks[n])|;
              && at + size + POS == Start(codec, blocks, n + 1) <= |blockFile|
              && codec.unpack(blockFile[at..]) == Some((blocks[n], size))
              && Get(blockFile[at + size..at + size + POS]) == at
              && IndexOf(codec, blocks[..n + 1]) == IndexOf(codec, blocks[..n]) + Put(at)
    {
      hide LogOf, IndexOf, Faithful, Get, Put;
      EntryAt(codec, blocks, n);
      LogStep(codec, blocks, n);
    }

    /** The last eight bytes of the log. */
    lemma {:induction false} LastPosition()
      requires Valid() && blocks != []
      ensures POS <= |blockFile| && Get(blockFile[|blockFile| - POS..]) == Start(codec, blocks, |blocks| - 1)
    {
      hide LogOf, IndexOf, Faithful, Get, Put;
      var size := |blockFile|;
      EntryAt(codec, blocks, |blocks| - 1);
      assert blocks[..|blocks|] == blocks;
      assert blockFile[size - POS..] == blockFile[size - POS..size];
    }

    /**
     `construct_index`: rebuilds the index by walking over the log until the
     position of the last block has been written.  The walk does not even start
     when that position is zero, so the index of a one-block log stays empty.
     */
    method ConstructIndex()
      requires Valid() && blocks != []
      modifies this`indexFile
      ensures Valid()
      ensures indexFile == if |blocks| == 1 then [] else IndexOf(codec, blocks)
    {
      hide LogOf, IndexOf, Faithful, Get, Put, Start;
      indexFile := [];
      ghost var last: nat := |blocks| - 1;
      NothingYet(codec, blocks);
      LastPosition();
      var endPos := Get(blockFile[|blockFile| - POS..]);
      var pos := 0;
      var at := 0;
      ghost var n: nat := 0;
      StartRises(codec, blocks, 0, last);
      while pos < endPos
        invariant Valid() && n <= |blocks| && at == Start(codec, blocks, n) && indexFile == IndexOf(codec, blocks[..n])
        invariant pos == if n == 0 then 0 else Start(codec, blocks, n - 1)
        invariant n > 0 ==> |blocks| > 1
        decreases |blocks| - n
      {
        Walk(n);
        var size := codec.unpack(blockFile[at..]).value.1;
        at := at + size;
        pos := Get(blockFile[at..at + POS]);
        at := at + POS;
        indexFile := indexFile + Put(pos);
        n := n + 1;
      }
      if 0 < n <= last { StartRises(codec, blocks, n - 1, last); }
      assert n == 0 || (n == |blocks| && blocks[..n] == blocks);
    }

    /** The last eight bytes of an index are the position of the last block. */
    ghost predicate Trusted(index: seq<Byte>)
      requires blocks != []
      reads this
    {
      POS <= |index| && Get(index[|index| - POS..]) == Start(codec, blocks, |blocks| - 1)
    }

    /**
     The decision of `open` about the index: it is trusted when its last eight
     bytes are the position of the last block, otherwise it is rebuilt.  An index
     too short to hold a position beside a log with blocks makes the stream fail.
     */
    method Open() returns (ok: bool)
      requires Valid()
      modifies this`indexFile
      ensures Valid()
      ensures ok <==> blocks == [] || old(indexFile) == [] || POS <= |old(indexFile)|
      ensures !ok ==> indexFile == old(indexFile)
      ensures blocks == [] ==> Indexed()
      ensures ok && blocks != [] ==> indexFile == (if Trusted(old(indexFile)) then old(indexFile)
                                                   else if |blocks| == 1 then [] else IndexOf(codec, blocks))
    {
      hide LogOf, IndexOf, Faithful, Get;
      ok := true;
      LogNotEmpty(codec, blocks);
      if blockFile != [] {
        LastPosition();
        if indexFile != [] {
          if |indexFile| < POS { return false; }
          var blockPos := Get(blockFile[|blockFile| - POS..]);
          var indexPos := Get(indexFile[|indexFile| - POS..]);
          if blockPos != indexPos { ConstructIndex(); }
        } else {
          ConstructIndex();
        }
      } else {
        NothingYet(codec, blocks);
        assert blocks[..0] == blocks;
        indexFile := [];
      }
    }
  }

  lemma NothingYet<B>(c: Codec<B>, blocks: seq<B>)
    ensures Start(c, blocks, 0) == 0 && IndexOf(c, blocks[..0]) == []
  {
  }

  lemma LogNotEmpty<B>(c: Codec<B>, blocks: seq<B>)
    ensures LogOf(c, blocks) == [] <==> blocks == []
  {
  }

  /** An index that lags behind the log, as after a crash, is brought up to date when the log is opened. */
  lemma {:induction false} LaggingIndexNoticed<B(!new)>(c: Codec<B>, blocks: seq<B>, k: nat)
    requires Faithful(c) && 0 < k <= |blocks| && |LogOf(c, blocks)| < U64
    ensures |IndexOf(c, blocks[..k])| == POS * k
    ensures Get(IndexOf(c, blocks[..k])[POS * k - POS..]) == Start(c, blocks, |blocks| - 1) <==> k == |blocks|
  {
    hide LogOf, IndexOf, Faithful, Get, Put;
    IndexLength(c, blocks[..k]);
    LogStep(c, blocks, k - 1);
    IndexLength(c, blocks[..k - 1]);
    assert IndexOf(c, blocks[..k])[POS * k - POS..] == Put(Start(c, blocks, k - 1));
    EntryAt(c, blocks, k - 1);
    PutGet(Start(c, blocks, k - 1));
    StartRises(c, blocks, k - 1, |blocks| - 1);
  }

  lemma {:induction false} StartRises<B(!new)>(c: Codec<B>, blocks: seq<B>, i: nat, j: nat)
    requires Faithful(c) && i <= j <= |blocks| && |LogOf(c, blocks)| < U64
    ensures i < j ==> Start(c, blocks, i) < Start(c, blocks, j)
    decreases j - i
  {
    if i < j {
      EntryAt(c, blocks, i);
      StartRises(c, blocks, i + 1, j);
    }
  }
}
