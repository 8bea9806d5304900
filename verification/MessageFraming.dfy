/**
 Messages on the wire: an 8-byte header, the data, and zero bytes up to a
 multiple of 16; and the loop that reads them back.
 */
module MessageFraming {
  import opened Widths

  type Byte = b: nat | b < 256

  const MAX_MESSAGE_SIZE: nat := 1024 * 1024 * 2
  const HEADER: nat := 8
  const BUFFER: nat := 16
  const LEFTOVER: nat := BUFFER - HEADER

  datatype Message = Message(kind: nat, data: seq<Byte>)

  /** A message that can be sent: its size and kind fit their 32-bit fields and the size is within the limit. */
  predicate Sendable(m: Message) {
    m.kind < U32 && |m.data| <= MAX_MESSAGE_SIZE
  }

  function LittleEndian(n: nat, width: nat): (r: seq<Byte>)
    ensures |r| == width
  {
    if width == 0 then [] else [n % 256] + LittleEndian(n / 256, width - 1)
  }

  function Value(bytes: seq<Byte>): (n: nat) {
    if bytes == [] then 0 else bytes[0] + 256 * Value(bytes[1..])
  }

  function Power(k: nat): (p: nat)
    ensures 0 < p
  {
    if k == 0 then 1 else 256 * Power(k - 1)
  }

  lemma {:induction false} ValueOfLittleEndian(n: nat, width: nat)
    requires n < Power(width)
    ensures Value(LittleEndian(n, width)) == n
  {
    if width > 0 {
      ValueOfLittleEndian(n / 256, width - 1);
      assert LittleEndian(n, width)[1..] == LittleEndian(n / 256, width - 1);
    }
  }

  lemma Power4()
    ensures Power(4) == U32
  {
    assert Power(2) == 256 * Power(1) == 0x10000;
    assert Power(4) == 256 * Power(3) && Power(3) == 256 * Power(2);
  }

  function Zeros(n: nat): (z: seq<Byte>)
    ensures |z| == n
  {
    seq(n, i => 0)
  }

  /** The bytes that `send_message` writes. */
  function Frame(m: Message): (bytes: seq<Byte>) {
    var size := HEADER + |m.data|;
    var padded := 16 * ((size + 15) / 16);
    LittleEndian(|m.data|, 4) + LittleEndian(m.kind, 4) + m.data + Zeros(padded - size)
  }

  /** `send_message`: a buffer of the padded size filled in three parts. */
  method Send(m: Message) returns (bytes: seq<Byte>)
    requires m.kind < U32 && |m.data| < U32
    ensures bytes == Frame(m)
  {
    var size := HEADER + |m.data|;
    var padded := 16 * ((size + 15) / 16);
    var header := LittleEndian(|m.data|, 4) + LittleEndian(m.kind, 4);
    var buffer := new Byte[padded](i => 0);
    var i := 0;
    while i < HEADER
      invariant 0 <= i <= HEADER && buffer[..i] == header[..i]
    {
      buffer[i] := header[i];
      i := i + 1;
    }
    i := 0;
    while i < |m.data|
      invariant 0 <= i <= |m.data| && buffer[..HEADER] == header && buffer[HEADER..HEADER + i] == m.data[..i]
    {
      buffer[HEADER + i] := m.data[i];
      i := i + 1;
    }
    i := size;
    while i < padded
      invariant size <= i <= padded && buffer[..HEADER] == header && buffer[HEADER..size] == m.data
      invariant forall j :: size <= j < i ==> buffer[j] == 0
    {
      buffer[i] := 0;
      i := i + 1;
    }
    bytes := buffer[..];
    assert bytes == header + m.data + Zeros(padded - size);
  }

  /** How many bytes follow the first 16, in the code's 32-bit arithmetic; the subtraction wraps for small sizes. */
  function Remaining(size: nat): (n: nat)
    requires size < U32
  {
    16 * (((size - LEFTOVER) % U32 + 15) % U32 / 16)
  }

  lemma RemainingIs(size: nat)
    requires size <= MAX_MESSAGE_SIZE
    ensures Remaining(size) == 16 * ((size + 7) / 16)
    ensures BUFFER + Remaining(size) == 16 * ((HEADER + size + 15) / 16)
  {
    if size < LEFTOVER {
      assert (size - LEFTOVER) % U32 == size - LEFTOVER + U32;
      assert (size - LEFTOVER + U32 + 15) % U32 == size + 7;
    } else {
      assert (size - LEFTOVER) % U32 == size - LEFTOVER;
      assert (size - LEFTOVER + 15) % U32 == size + 7;
    }
  }

  datatype End = EndOfStream | TooLarge
  datatype Read = Got(message: Message, used: nat) | Stop(why: End)

  /** The first message of a stream, or why there is none. */
  function ReadOne(stream: seq<Byte>): (r: Read)
    ensures r.Got? ==> BUFFER <= r.used <= |stream|
  {
    if |stream| < BUFFER then Stop(EndOfStream)
    else
      var size := Value(stream[..4]);
      if size > MAX_MESSAGE_SIZE then Stop(TooLarge)
      else
        RemainingIs(size);
        if |stream| < BUFFER + Remaining(size) then Stop(EndOfStream)
        else Got(Message(Value(stream[4..8]), stream[HEADER..HEADER + size]), BUFFER + Remaining(size))
  }

  /** Everything that can be read from a stream, and why reading ended. */
  function Parse(stream: seq<Byte>): (r: (seq<Message>, End))
    decreases |stream|
  {
    match ReadOne(stream)
    case Stop(why) => ([], why)
    case Got(m, used) =>
      var (rest, why) := Parse(stream[used..]);
      ([m] + rest, why)
  }

  /** One turn of `read_loop`: 16 bytes with the header, then the rest with its padding, cut to size. */
  method ReadMessage(stream: seq<Byte>) returns (r: Read)
    ensures r == ReadOne(stream)
  {
    hide Value, Remaining;
    if |stream| < BUFFER { return Stop(EndOfStream); }
    var buffer := stream[..BUFFER];
    assert buffer[..4] == stream[..4] && buffer[4..8] == stream[4..8];
    var size, kind := Value(buffer[..4]), Value(buffer[4..8]);
    if size > MAX_MESSAGE_SIZE { return Stop(TooLarge); }
    var remaining := Remaining(size);
    RemainingIs(size);
    var data := buffer[HEADER..];
    if remaining != 0 {
      if |stream| - BUFFER < remaining { return Stop(EndOfStream); }
      data := data + stream[BUFFER..BUFFER + remaining];
    }
    assert data == stream[HEADER..BUFFER + remaining];
    assert size <= |data| && data[..size] == stream[HEADER..HEADER + size];
    r := Got(Message(kind, data[..size]), BUFFER + remaining);
  }

  /** `read_loop` over what the socket delivers until it fails. */
  method ReadLoop(stream: seq<Byte>) returns (messages: seq<Message>, why: End)
    ensures (messages, why) == Parse(stream)
  {
    hide ReadOne;
    messages := [];
    var rest := stream;
    while true
      invariant messages + Parse(rest).0 == Parse(stream).0 && Parse(rest).1 == Parse(stream).1
      decreases |rest|
    {
      var read := ReadMessage(rest);
      if read.Stop? {
        assert Parse(rest).0 == [] && messages + [] == messages;
        return messages, read.why;
      }
      ghost var more := Parse(rest[read.used..]).0;
      assert messages + ([read.message] + more) == (messages + [read.message]) + more;
      messages := messages + [read.message];
      assert BUFFER <= read.used <= |rest|;
      rest := rest[read.used..];
    }
  }

  function Stream(ms: seq<Message>): (bytes: seq<Byte>) {
    if ms == [] then [] else Frame(ms[0]) + Stream(ms[1..])
  }

  /** A frame is read back as the message it was made from, and nothing after it is touched. */
  lemma {:induction false} FrameRoundTrip(m: Message, rest: seq<Byte>)
    requires Sendable(m)
    ensures Parse(Frame(m) + rest) == ([m] + Parse(rest).0, Parse(rest).1)
  {
    var stream := Frame(m) + rest;
    var size := |m.data|;
    Power4();
    ValueOfLittleEndian(size, 4);
    ValueOfLittleEndian(m.kind, 4);
    RemainingIs(size);
    assert stream[..4] == LittleEndian(size, 4);
    assert stream[4..8] == LittleEndian(m.kind, 4);
    assert stream[HEADER..HEADER + size] == m.data;
    assert stream[BUFFER + Remaining(size)..] == rest;
  }

  /** Reading the concatenated frames of any sendable messages yields exactly those messages. */
  lemma {:induction false} StreamRoundTrip(ms: seq<Message>)
    requires forall i :: 0 <= i < |ms| ==> Sendable(ms[i])
    ensures Parse(Stream(ms)) == (ms, EndOfStream)
  {
    if ms != [] {
      StreamRoundTrip(ms[1..]);
      FrameRoundTrip(ms[0], Stream(ms[1..]));
      assert ms == [ms[0]] + ms[1..];
    }
  }

  /** The lowest byte comes first. */
  lemma LowestFirst()
    ensures LittleEndian(258, 4) == [2, 1, 0, 0]
  {
    assert LittleEndian(1, 3) == [1, 0, 0] by { assert LittleEndian(0, 2) == [0, 0]; }
  }

  /** The layout of a frame: size and kind in four bytes each, the data, and fewer than 16 zero bytes up to a multiple of 16. */
  lemma {:induction false} FrameLayout(m: Message)
    requires Sendable(m)
    ensures var f, n := Frame(m), |m.data|;
            && |f| % 16 == 0 && 8 + n <= |f| < 8 + n + 16
            && Value(f[..4]) == n && Value(f[4..8]) == m.kind && f[8..8 + n] == m.data
            && forall i :: 8 + n <= i < |f| ==> f[i] == 0
  {
    hide Value, LittleEndian;
    var f, n := Frame(m), |m.data|;
    Power4();
    ValueOfLittleEndian(n, 4);
    ValueOfLittleEndian(m.kind, 4);
    assert f[..4] == LittleEndian(n, 4);
    assert f[4..8] == LittleEndian(m.kind, 4);
  }
}
