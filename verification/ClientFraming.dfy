/**
  The client's side of the wire: frames pulled out of a growing buffer, every read and write recorded
  in a capture file, and the reader that puts a capture's frames back together.
 */
module ClientFraming {
  import opened Options
  import opened Division

  type byte = x: int | 0 <= x < 256

  type Bytes = seq<byte>

  datatype Frame = Frame(id: byte, payload: Bytes)

  const MIN_FRAME_LEN := 3

  // ---------------------------------------------------------------- frames in a stream

  /** What is at the head of a buffer. */
  datatype Head = Partial | Desynchronised(len: nat) | Whole(frame: Frame, len: nat)

  function Word(lo: byte, hi: byte): nat {
    var l: int, h: int := lo, hi;
    l + 0x100 * h
  }

  function Length(buf: Bytes): nat
    requires |buf| >= 2
  {
    Word(buf[0], buf[1])
  }

  function HeadOf(buf: Bytes): (h: Head)
    ensures h.Whole? ==> MIN_FRAME_LEN <= h.len <= |buf|
  {
    if |buf| < 2 then Partial
    else if Length(buf) < MIN_FRAME_LEN then Desynchronised(Length(buf))
    else if |buf| < Length(buf) then Partial
    else Whole(Frame(buf[2], buf[3..Length(buf)]), Length(buf))
  }

  /** The frames of a whole stream, what is left after them, and whether that is a broken length. */
  datatype Framing = Framing(frames: seq<Frame>, tail: Bytes, broken: bool)

  function Reframe(stream: Bytes): Framing
    decreases |stream|
  {
    match HeadOf(stream)
    case Partial => Framing([], stream, false)
    case Desynchronised(_) => Framing([], stream, true)
    case Whole(frame, len) =>
      var rest := Reframe(stream[len..]);
      rest.(frames := [frame] + rest.frames)
  }

  /** The bytes of a frame. */
  function Encode(f: Frame): Bytes
    requires |f.payload| + MIN_FRAME_LEN < 0x1_0000
  {
    var len := |f.payload| + MIN_FRAME_LEN;
    [len % 0x100, len / 0x100, f.id] + f.payload
  }

  /** The number some bytes stand for, lowest first. */
  function LittleEndian(b: Bytes): nat {
    if b == [] then 0
    else
      var low: int := b[0];
      low + 256 * LittleEndian(b[1..])
  }

  lemma FirstByte(low: byte, more: Bytes)
    ensures LittleEndian([low] + more) == low + 256 * LittleEndian(more)
  {
    assert ([low] + more)[1..] == more;
  }

  lemma TwoBytes(b: Bytes)
    requires |b| >= 2
    ensures LittleEndian(b[..2]) == Word(b[0], b[1])
  {
    FirstByte(b[0], [b[1]]);
    FirstByte(b[1], []);
    assert b[..2] == [b[0]] + [b[1]] && [b[1]] + [] == [b[1]];
  }

  /** The bytes of a frame, one by one: its own length, the low byte first, then its id, then the payload. */
  lemma FrameBytes(f: Frame)
    requires |f.payload| + 3 < 65536
    ensures var b := Encode(f);
            && |b| == |f.payload| + 3 && LittleEndian(b[..2]) == |b| && b[2] == f.id && b[3..] == f.payload
  {
    TwoBytes(Encode(f));
  }

  /** What a head is, by the number its first two bytes make, and when it is not there yet. */
  lemma HeadIs(buf: Bytes)
    ensures |buf| < 2 ==> HeadOf(buf) == Partial
    ensures |buf| >= 2 ==>
              var len := LittleEndian(buf[..2]);
              && (len < 3 ==> HeadOf(buf) == Desynchronised(len))
              && (len >= 3 && |buf| < len ==> HeadOf(buf) == Partial)
              && (3 <= len <= |buf| ==> HeadOf(buf) == Whole(Frame(buf[2], buf[3..len]), len))
  {
    if |buf| >= 2 { TwoBytes(buf); }
  }

  /** A head that is decided does not change when more bytes arrive. */
  lemma HeadStays(buf: Bytes, more: Bytes)
    ensures !HeadOf(buf).Partial? ==> HeadOf(buf + more) == HeadOf(buf)
  {
  }

  /** A whole frame at the head is exactly the first bytes of the stream. */
  lemma WholeIsEncoded(stream: Bytes)
    requires HeadOf(stream).Whole?
    ensures var Whole(frame, len) := HeadOf(stream);
            |frame.payload| + MIN_FRAME_LEN < 0x1_0000 && stream == Encode(frame) + stream[len..]
  {
    var Whole(frame, len) := HeadOf(stream);
    assert len == Word(stream[0], stream[1]) == |frame.payload| + MIN_FRAME_LEN;
    assert len % 0x100 == stream[0] && len / 0x100 == stream[1];
    assert stream == [stream[0], stream[1], stream[2]] + stream[3..len] + stream[len..];
  }

  function EncodeAll(frames: seq<Frame>): Bytes
    requires forall i :: 0 <= i < |frames| ==> |frames[i].payload| + MIN_FRAME_LEN < 0x1_0000
  {
    if frames == [] then [] else Encode(frames[0]) + EncodeAll(frames[1..])
  }

  predicate Sendable(frames: seq<Frame>) {
    forall i :: 0 <= i < |frames| ==> |frames[i].payload| + MIN_FRAME_LEN < 0x1_0000
  }

  lemma ReframeWhole(stream: Bytes)
    requires HeadOf(stream).Whole?
    ensures var rest := Reframe(stream[HeadOf(stream).len..]);
            Reframe(stream) == rest.(frames := [HeadOf(stream).frame] + rest.frames)
  {
  }

  lemma ReframeStuck(stream: Bytes)
    requires !HeadOf(stream).Whole?
    ensures Reframe(stream) == Framing([], stream, HeadOf(stream).Desynchronised?)
  {
  }

  /** Nothing is lost or made up: the frames and the tail are the stream. */
  lemma {:induction false} ReframeLossless(stream: Bytes)
    ensures Sendable(Reframe(stream).frames)
    ensures EncodeAll(Reframe(stream).frames) + Reframe(stream).tail == stream
    decreases |stream|
  {
    hide Reframe, HeadOf, Encode;
    if HeadOf(stream).Whole? {
      var Whole(frame, len) := HeadOf(stream);
      WholeIsEncoded(stream);
      ReframeWhole(stream);
      ReframeLossless(stream[len..]);
      var rest := Reframe(stream[len..]);
      assert Reframe(stream).frames[1..] == rest.frames;
      assert Encode(frame) + (EncodeAll(rest.frames) + rest.tail) == Encode(frame) + EncodeAll(rest.frames) + rest.tail;
    } else {
      ReframeStuck(stream);
    }
  }

  lemma HeadEncoded(f: Frame, more: Bytes)
    requires |f.payload| + MIN_FRAME_LEN < 0x1_0000
    ensures var stream := Encode(f) + more;
            HeadOf(stream) == Whole(f, |Encode(f)|) && stream[|Encode(f)|..] == more
  {
    var stream := Encode(f) + more;
    assert stream[3..|Encode(f)|] == f.payload;
  }

  /** Frames sent are the frames read back, whatever comes after them. */
  lemma {:induction false} ReframeEncoded(frames: seq<Frame>, after: Bytes)
    requires Sendable(frames)
    ensures Reframe(EncodeAll(frames) + after) == var rest := Reframe(after); rest.(frames := frames + rest.frames)
    decreases |frames|
  {
    hide Reframe, HeadOf, Encode;
    var stream := EncodeAll(frames) + after;
    if frames == [] {
      assert stream == after && frames + Reframe(after).frames == Reframe(after).frames;
    } else {
      var first, more := Encode(frames[0]), EncodeAll(frames[1..]) + after;
      assert stream == first + more;
      HeadEncoded(frames[0], more);
      ReframeWhole(stream);
      ReframeEncoded(frames[1..], after);
      assert [frames[0]] + (frames[1..] + Reframe(after).frames) == frames + Reframe(after).frames;
    }
  }

  /** Once a length is broken at a frame boundary it stays broken there, and no later byte adds a frame. */
  lemma {:induction false} BrokenStays(stream: Bytes, more: Bytes)
    requires Reframe(stream).broken
    ensures Reframe(stream + more) == Reframe(stream).(tail := Reframe(stream).tail + more)
    decreases |stream|
  {
    HeadStays(stream, more);
    if HeadOf(stream).Whole? {
      var len := HeadOf(stream).len;
      assert (stream + more)[len..] == stream[len..] + more;
      BrokenStays(stream[len..], more);
    }
  }

  // ---------------------------------------------------------------- captures

  const MAGIC: Bytes := [84, 82, 67, 65, 80, 49, 10]

  const U32 := 0x1_0000_0000

  /** One recorded socket read or write. */
  datatype Transfer = Transfer(toClient: bool, micros: nat, bytes: Bytes)

  function Le4(n: nat): (b: Bytes)
    ensures |b| == 4
  {
    var a := n / 0x100;
    var b := a / 0x100;
    var c := b / 0x100;
    [n % 0x100, a % 0x100, b % 0x100, c % 0x100]
  }

  function FromLe4(b: Bytes): nat
    requires |b| == 4
  {
    Word(b[0], b[1]) + 0x1_0000 * Word(b[2], b[3])
  }

  lemma LeRoundTrip(n: nat)
    requires n < U32
    ensures FromLe4(Le4(n)) == n
  {
  }

  /** Ahead of each chunk: its direction, its time, which saturates, and the low 32 bits of its length. */
  function Header(c: Transfer): (b: Bytes)
    ensures |b| == 10
  {
    [if c.toClient then 1 else 0, 0] + Le4(if c.micros < U32 then c.micros else U32 - 1) + Le4(|c.bytes|)
  }

  /** What the recorder writes for one chunk. */
  function Record(c: Transfer): (b: Bytes)
    ensures |b| == 10 + |c.bytes|
  {
    Header(c) + c.bytes
  }

  function Records(log: seq<Transfer>): Bytes {
    if log == [] then [] else Record(log[0]) + Records(log[1..])
  }

  /**
    A record byte by byte: 1 for a chunk from the server, a zero, the microseconds and the length low byte first,
    and the chunk.
   */
  lemma RecordBytes(c: Transfer)
    ensures var b := Record(c);
            && b[0] == (if c.toClient then 1 else 0) && b[1] == 0 && b[10..] == c.bytes
            && LittleEndian(b[2..6]) == (if c.micros <= 4294967295 then c.micros else 4294967295)
            && LittleEndian(b[6..10]) == |c.bytes| % 4294967296
  {
    hide Le4, LittleEndian;
    var time := if c.micros < U32 then c.micros else U32 - 1;
    RecordFields(c, time);
    FourBytes(time);
    FourBytes(|c.bytes|);
  }

  lemma RecordFields(c: Transfer, time: nat)
    requires time == if c.micros < U32 then c.micros else U32 - 1
    ensures var b := Record(c);
            && b[0] == (if c.toClient then 1 else 0) && b[1] == 0 && b[10..] == c.bytes
            && b[2..6] == Le4(time) && b[6..10] == Le4(|c.bytes|)
  {
    hide Le4;
  }

  /** A capture starts with a line of its own. */
  lemma MagicIs()
    ensures |MAGIC| == 7 && forall i :: 0 <= i < 7 ==> MAGIC[i] == "TRCAP1\n"[i] as int
  {
    var text := "TRCAP1\n";
    assert text == ['T', 'R', 'C', 'A', 'P', '1', '\n'];
  }

  lemma FourBytes(n: nat)
    ensures LittleEndian(Le4(n)) == n % 4294967296
  {
    var s := Le4(n);
    FirstByte(s[0], s[1..]);
    FirstByte(s[1], s[2..]);
    TwoBytes(s[2..]);
    assert s == [s[0]] + s[1..] && s[1..] == [s[1]] + s[2..] && s[2..][..2] == s[2..];
    FourDigits(n);
    hide LittleEndian;
  }

  lemma FourDigits(n: nat)
    ensures var a := n / 256;
            var b := a / 256;
            var c := b / 256;
            n % 256 + 256 * (a % 256 + 256 * (b % 256 + 256 * (c % 256))) == n % 4294967296
  {
    var a := n / 256;
    var b := a / 256;
    var c := b / 256;
    var low := n % 256 + 256 * (a % 256 + 256 * (b % 256 + 256 * (c % 256)));
    assert n == (c / 256) * 4294967296 + low;
    DivUnique(n, 4294967296, c / 256, low);
  }

  /** The bytes that came from the server, in order. */
  function Inbound(log: seq<Transfer>): Bytes {
    if log == [] then [] else (if log[0].toClient then log[0].bytes else []) + Inbound(log[1..])
  }

  /** The bytes that went to the server, in order. */
  function Outbound(log: seq<Transfer>): Bytes {
    if log == [] then []
    else
      var last := log[|log| - 1];
      Outbound(log[..|log| - 1]) + if last.toClient then [] else last.bytes
  }

  lemma OutboundNext(log: seq<Transfer>, c: Transfer)
    ensures Outbound(log + [c]) == Outbound(log) + if c.toClient then [] else c.bytes
  {
    assert (log + [c])[..|log|] == log;
  }

  /** The reader's pass over the records: `None` for a chunk cut short; a header cut short is where it stops. */
  function ReadInbound(raw: Bytes): Option<Bytes>
    decreases |raw|
  {
    if |raw| < 10 then Some([])
    else
      var len := FromLe4(raw[6..10]);
      if 10 + len > |raw| then None
      else
        var rest :- ReadInbound(raw[10 + len..]);
        Some((if raw[0] == 1 then raw[10..10 + len] else []) + rest)
  }

  /** One record: its chunk counts if it is marked 1, is passed over under any other mark, and must be all there. */
  lemma ReadIs(raw: Bytes, len: nat)
    requires |raw| >= 10 && len == LittleEndian(raw[6..10])
    ensures 10 + len > |raw| ==> ReadInbound(raw) == None
    ensures 10 + len <= |raw| ==>
              var rest := ReadInbound(raw[10 + len..]);
              ReadInbound(raw)
              == if rest.None? then None else if raw[0] == 1 then Some(raw[10..10 + len] + rest.value) else rest
  {
    hide FromLe4, LittleEndian;
    FourRead(raw[6..10]);
    if 10 + len <= |raw| { ReadOne(raw, len, ReadInbound(raw[10 + len..])); }
    hide ReadInbound;
  }

  lemma ReadOne(raw: Bytes, len: nat, rest: Option<Bytes>)
    requires |raw| >= 10 && len == FromLe4(raw[6..10]) && 10 + len <= |raw| && rest == ReadInbound(raw[10 + len..])
    ensures ReadInbound(raw)
         == if rest.None? then None else if raw[0] == 1 then Some(raw[10..10 + len] + rest.value) else rest
  {
    hide FromLe4;
    if rest.Some? { assert [] + rest.value == rest.value; }
  }

  lemma FourRead(b: Bytes)
    requires |b| == 4
    ensures FromLe4(b) == LittleEndian(b)
  {
    FirstByte(b[0], b[1..]);
    FirstByte(b[1], b[2..]);
    TwoBytes(b[2..]);
    assert b == [b[0]] + b[1..] && b[1..] == [b[1]] + b[2..] && b[2..][..2] == b[2..];
    hide LittleEndian;
  }

  lemma {:induction false} RecordsAppend(log: seq<Transfer>, c: Transfer)
    ensures Records(log + [c]) == Records(log) + Record(c)
    ensures Inbound(log + [c]) == Inbound(log) + if c.toClient then c.bytes else []
  {
    hide Record;
    if log == [] {
      assert log + [c] == [c] && [c][1..] == [];
      assert Record(c) + [] == Record(c) && [] + Record(c) == Record(c);
      assert c.bytes + [] == c.bytes && [] + c.bytes == c.bytes;
    } else {
      assert (log + [c])[1..] == log[1..] + [c];
      RecordsAppend(log[1..], c);
      var first, last := Record(log[0]), Record(c);
      assert first + (Records(log[1..]) + last) == first + Records(log[1..]) + last;
      var own, new_ := if log[0].toClient then log[0].bytes else [], if c.toClient then c.bytes else [];
      assert own + (Inbound(log[1..]) + new_) == own + Inbound(log[1..]) + new_;
    }
  }

  lemma RecordParts(c: Transfer, after: Bytes)
    requires |c.bytes| < U32
    ensures var raw := Record(c) + after;
            && |raw| >= 10 && FromLe4(raw[6..10]) == |c.bytes| && raw[0] == (if c.toClient then 1 else 0)
            && 10 + |c.bytes| <= |raw| && raw[10..10 + |c.bytes|] == c.bytes && raw[10 + |c.bytes|..] == after
  {
    var raw := Record(c) + after;
    LeRoundTrip(|c.bytes|);
    assert raw[6..10] == Le4(|c.bytes|);
  }

  /** Reading a capture back recovers what the server sent, byte for byte, however it was chunked and interleaved. */
  lemma {:induction false} CaptureRoundTrip(log: seq<Transfer>)
    requires forall i :: 0 <= i < |log| ==> |log[i].bytes| < U32
    ensures ReadInbound(Records(log)) == Some(Inbound(log))
  {
    if log != [] {
      RecordParts(log[0], Records(log[1..]));
      CaptureRoundTrip(log[1..]);
    }
  }

  lemma Recorded(out: Bytes, log: seq<Transfer>, c: Transfer)
    requires out == MAGIC + Records(log)
    ensures out + Header(c) + c.bytes == MAGIC + Records(log + [c])
  {
    RecordsAppend(log, c);
    hide Header, Records;
    assert MAGIC + (Records(log) + Record(c)) == MAGIC + Records(log) + Record(c);
    assert out + Header(c) + c.bytes == out + (Header(c) + c.bytes);
  }

  lemma HeaderIs(c: Transfer, begun: Bytes, timed: Bytes, done: Bytes)
    requires |begun| == 10 && begun[0] == (if c.toClient then 1 else 0) && begun[1] == 0
    requires timed == begun[..2] + Le4(if c.micros < U32 then c.micros else U32 - 1) + begun[6..]
    requires done == timed[..6] + Le4(|c.bytes|) + timed[10..]
    ensures done == Header(c)
  {
    hide Le4;
  }

  /** Four bytes into an array, from an index on. */
  method PutFour(a: array<byte>, at: nat, four: Bytes)
    requires at + 4 <= a.Length && |four| == 4
    modifies a
    ensures a[..] == old(a[..at]) + four + old(a[at + 4..])
  {
    a[at], a[at + 1], a[at + 2], a[at + 3] := four[0], four[1], four[2], four[3];
  }

  /** An open capture. The clock is a parameter. */
  class Tap {
    var out: Bytes
    ghost var log: seq<Transfer>

    ghost predicate Valid()
      reads this
    {
      out == MAGIC + Records(log)
    }

    constructor ()
      ensures Valid() && log == []
    {
      out, log := MAGIC, [];
    }

    method Chunk(toClient: bool, elapsed: nat, bytes: Bytes)
      requires Valid()
      modifies this
      ensures Valid() && log == old(log) + [Transfer(toClient, elapsed, bytes)]
    {
      hide Le4, Header, Record, Records;
      ghost var c := Transfer(toClient, elapsed, bytes);
      var header := new byte[10](_ => 0);
      header[0], header[1] := if toClient then 1 else 0, 0;
      ghost var begun := header[..];
      PutFour(header, 2, Le4(if elapsed < U32 then elapsed else U32 - 1));
      ghost var timed := header[..];
      PutFour(header, 6, Le4(|bytes|));
      HeaderIs(c, begun, timed, header[..]);
      Recorded(out, log, c);
      out, log := out + header[..] + bytes, log + [c];
      Fold();
    }

    lemma Fold()
      requires out == MAGIC + Records(log)
      ensures Valid()
    {
    }
  }

  // ---------------------------------------------------------------- the connection

  /** One socket read: when it happened and what it brought. */
  datatype Read = Read(at: nat, bytes: Bytes)

  function Coming(arrivals: seq<Read>): Bytes {
    if arrivals == [] then [] else arrivals[0].bytes + Coming(arrivals[1..])
  }

  /** What reading one frame came to. */
  datatype Outcome = Got(frame: Frame) | Broken(len: nat) | Closed

  class Client {
    var buf: Bytes
    /** The reads the socket will still give; none is empty, and after the last it is closed. */
    var incoming: seq<Read>
    const tap: Tap
    ghost var received: Bytes
    ghost var delivered: seq<Frame>

    ghost predicate Valid()
      reads this, tap
    {
      && (forall i :: 0 <= i < |incoming| ==> 0 < |incoming[i].bytes| < U32)
      && (forall i :: 0 <= i < |tap.log| ==> |tap.log[i].bytes| < U32)
      && tap.Valid() && Inbound(tap.log) == received
      && Sendable(delivered) && received == EncodeAll(delivered) + buf
    }

    lemma Holds()
      requires Valid()
      ensures tap.out == MAGIC + Records(tap.log) && Inbound(tap.log) == received
      ensures forall i :: 0 <= i < |tap.log| ==> |tap.log[i].bytes| < U32
      ensures Sendable(delivered) && received == EncodeAll(delivered) + buf
      ensures Stream() == buf + Coming(incoming)
    {
    }

    /** Everything not yet delivered: what is buffered and what is still to come. */
    ghost function Stream(): Bytes
      reads this
    {
      buf + Coming(incoming)
    }

    constructor (arrivals: seq<Read>, tap: Tap)
      requires tap.Valid() && tap.log == []
      requires forall i :: 0 <= i < |arrivals| ==> 0 < |arrivals[i].bytes| < U32
      ensures Valid() && Stream() == Coming(arrivals) && incoming == arrivals && this.tap == tap
      ensures delivered == [] && received == []
    {
      buf, incoming, this.tap, received, delivered := [], arrivals, tap, [], [];
      new;
      assert [] + Coming(arrivals) == Coming(arrivals);
      assert EncodeAll([]) + [] == [];
    }

    /** Split the first frame off the buffer; without a whole one the buffer stays as it is. */
    method Decode() returns (h: Head)
      requires Valid()
      modifies this`buf, this`delivered
      ensures Valid() && h == HeadOf(old(buf))
      ensures h.Whole? ==> buf == old(buf)[h.len..] && delivered == old(delivered) + [h.frame]
      ensures !h.Whole? ==> buf == old(buf) && delivered == old(delivered)
    {
      if |buf| < 2 { return Partial; }
      var len := Length(buf);
      if len < MIN_FRAME_LEN { return Desynchronised(len); }
      if |buf| < len { return Partial; }
      WholeIsEncoded(buf);
      var frame := buf[..len];
      buf := buf[len..];
      var f := Frame(frame[2], frame[3..]);
      assert frame[3..] == old(buf)[3..len];
      EncodeAppend(delivered, f);
      delivered := delivered + [f];
      return Whole(f, len);
    }

    /** A packet to the server, recorded as it goes out. */
    method Send(bytes: Bytes, at: nat)
      requires Valid() && |bytes| < U32
      modifies tap
      ensures Valid() && tap.log == old(tap.log) + [Transfer(false, at, bytes)]
    {
      RecordsAppend(tap.log, Transfer(false, at, bytes));
      tap.Chunk(false, at, bytes);
    }

    /** Take one read off the socket, and record it. */
    method Receive()
      requires Valid() && incoming != []
      modifies this, tap
      ensures Valid() && Stream() == old(Stream()) && delivered == old(delivered)
      ensures received + Coming(incoming) == old(received) + Coming(old(incoming)) && incoming == old(incoming)[1..]
      ensures Outbound(tap.log) == old(Outbound(tap.log))
    {
      hide EncodeAll, Records, Outbound;
      var read := incoming[0];
      assert buf + (read.bytes + Coming(incoming[1..])) == buf + read.bytes + Coming(incoming[1..]);
      assert received + (read.bytes + Coming(incoming[1..])) == received + read.bytes + Coming(incoming[1..]);
      assert EncodeAll(delivered) + buf + read.bytes == EncodeAll(delivered) + (buf + read.bytes);
      RecordsAppend(tap.log, Transfer(true, read.at, read.bytes));
      OutboundNext(tap.log, Transfer(true, read.at, read.bytes));
      assert Outbound(tap.log) + [] == Outbound(tap.log);
      buf, incoming, received := buf + read.bytes, incoming[1..], received + read.bytes;
      tap.Chunk(true, read.at, read.bytes);
    }

    /** The next frame of the stream, however many reads it is spread over. */
    method ReadFrame() returns (r: Outcome)
      requires Valid()
      modifies this, tap
      ensures Valid() && received + Coming(incoming) == old(received) + Coming(old(incoming))
      ensures Outbound(tap.log) == old(Outbound(tap.log))
      ensures match r
              case Got(frame) => HeadOf(old(Stream())).Whole? && frame == HeadOf(old(Stream())).frame
                                 && Stream() == old(Stream())[HeadOf(old(Stream())).len..]
                                 && delivered == old(delivered) + [frame]
              case Broken(len) => HeadOf(old(Stream())) == Desynchronised(len)
                                  && Stream() == old(Stream()) && HeadOf(buf) == Desynchronised(len)
                                  && delivered == old(delivered)
              case Closed => (HeadOf(old(Stream())).Partial? && buf == old(Stream()) && incoming == []
                              && delivered == old(delivered))
    {
      hide HeadOf, Valid, Outbound;
      while true
        invariant Valid() && Stream() == old(Stream()) && delivered == old(delivered)
        invariant received + Coming(incoming) == old(received) + Coming(old(incoming))
        invariant Outbound(tap.log) == old(Outbound(tap.log))
        decreases |incoming|
      {
        ghost var before := buf;
        HeadStays(buf, Coming(incoming));
        var h := Decode();
        if h.Whole? {
          assert (before + Coming(incoming))[h.len..] == before[h.len..] + Coming(incoming);
          return Got(h.frame);
        }
        if h.Desynchronised? { return Broken(h.len); }
        if incoming == [] {
          assert buf + [] == buf;
          return Closed;
        }
        Receive();
      }
    }

    /** Frame after frame until the connection gives no more. */
    method Drain() returns (frames: seq<Frame>, last: Outcome)
      requires Valid()
      modifies this, tap
      ensures Valid() && received + Coming(incoming) == old(received) + Coming(old(incoming))
      ensures Outbound(tap.log) == old(Outbound(tap.log))
      ensures frames == Reframe(old(Stream())).frames && delivered == old(delivered) + frames
      ensures !last.Got? && Stream() == Reframe(old(Stream())).tail && (last.Broken? <==> Reframe(old(Stream())).broken)
      ensures last.Closed? ==> incoming == [] && buf == Stream() && HeadOf(buf).Partial?
      ensures last.Broken? ==> HeadOf(buf).Desynchronised?
    {
      hide Reframe, HeadOf, Valid, Outbound;
      frames := [];
      last := Closed;
      assert [] + Reframe(Stream()).frames == Reframe(Stream()).frames;
      while true
        invariant Valid() && received + Coming(incoming) == old(received) + Coming(old(incoming))
        invariant Outbound(tap.log) == old(Outbound(tap.log))
        invariant var rest := Reframe(Stream()); Reframe(old(Stream())) == rest.(frames := frames + rest.frames)
        invariant delivered == old(delivered) + frames
        decreases |Stream()|
      {
        ghost var stream := Stream();
        last := ReadFrame();
        if !last.Got? {
          ReframeStuck(stream);
          assert frames + [] == frames;
          return;
        }
        ReframeWhole(stream);
        assert frames + ([last.frame] + Reframe(Stream()).frames) == frames + [last.frame] + Reframe(Stream()).frames;
        frames := frames + [last.frame];
      }
    }
  }

  lemma {:induction false} EncodeAppend(frames: seq<Frame>, f: Frame)
    requires Sendable(frames) && |f.payload| + MIN_FRAME_LEN < 0x1_0000
    ensures Sendable(frames + [f]) && EncodeAll(frames + [f]) == EncodeAll(frames) + Encode(f)
  {
    if frames == [] {
      assert frames + [f] == [f] && [f][1..] == [] && Encode(f) + [] == Encode(f);
    } else {
      assert (frames + [f])[1..] == frames[1..] + [f];
      EncodeAppend(frames[1..], f);
    }
  }

  // ---------------------------------------------------------------- the capture reader

  datatype Verdict = NotACapture | Truncated | Replayed(frames: seq<Frame>, trailing: nat, broke: bool)

  /** Put the recorded stream from the server back together and take its frames apart again. */
  method CheckCapture(raw: Bytes) returns (v: Verdict)
    ensures v.NotACapture? <==> !(MAGIC <= raw)
    ensures MAGIC <= raw ==>
              var inbound := ReadInbound(raw[|MAGIC|..]);
              && (v.Truncated? <==> inbound.None?)
              && (inbound.Some? ==>
                    var f := Reframe(inbound.value);
                    v == Replayed(f.frames, |f.tail|, f.broken))
  {
    if !(MAGIC <= raw) { return NotACapture; }
    hide *;
    var inbound: Bytes, at := [], |MAGIC|;
    ghost var all := ReadInbound(raw[at..]);
    BehindNothing(all);
    while at + 10 <= |raw|
      invariant |MAGIC| <= at <= |raw|
      invariant all == Behind(inbound, ReadInbound(raw[at..]))
    {
      ReadStep(raw, at, inbound);
      var len := FromLe4(raw[at + 6..at + 10]);
      var toClient := raw[at] == 1;
      at := at + 10;
      if at + len > |raw| { return Truncated; }
      if toClient { inbound := inbound + raw[at..at + len]; }
      at := at + len;
    }
    ReadEnd(raw[at..], inbound);
    v := Refill(inbound);
  }

  function Behind(done: Bytes, rest: Option<Bytes>): Option<Bytes> {
    if rest.None? then None else Some(done + rest.value)
  }

  lemma BehindNothing(rest: Option<Bytes>)
    ensures Behind([], rest) == rest
  {
    if rest.Some? { assert [] + rest.value == rest.value; }
  }

  lemma ReadEnd(raw: Bytes, done: Bytes)
    requires |raw| < 10
    ensures Behind(done, ReadInbound(raw)) == Some(done)
  {
    assert done + [] == done;
  }

  /** One chunk of the reader's pass, by index. */
  lemma ReadStep(raw: Bytes, at: nat, done: Bytes)
    requires at + 10 <= |raw|
    ensures var len := FromLe4(raw[at + 6..at + 10]);
            Behind(done, ReadInbound(raw[at..])) ==
            if at + 10 + len > |raw| then None
            else
              Behind(if raw[at] == 1 then done + raw[at + 10..at + 10 + len]
                  else done, ReadInbound(raw[at + 10 + len..]))
  {
    hide FromLe4;
    var here, len := raw[at..], FromLe4(raw[at + 6..at + 10]);
    assert here[6..10] == raw[at + 6..at + 10] && here[0] == raw[at];
    if at + 10 + len <= |raw| {
      assert here[10..10 + len] == raw[at + 10..at + 10 + len] && here[10 + len..] == raw[at + 10 + len..];
      var rest := ReadInbound(raw[at + 10 + len..]);
      if rest.Some? {
        var own := if raw[at] == 1 then raw[at + 10..at + 10 + len] else [];
        assert done + (own + rest.value) == done + own + rest.value && done + [] == done;
      }
    }
  }

  /** The head of a stream from an index on. */
  lemma HeadAt(stream: Bytes, at: nat)
    requires at + 2 <= |stream|
    ensures var len := Word(stream[at], stream[at + 1]);
            HeadOf(stream[at..]) ==
            if len < MIN_FRAME_LEN then Desynchronised(len)
            else if at + len > |stream| then Partial
            else Whole(Frame(stream[at + 2], stream[at + 3..at + len]), len)
    ensures var len := Word(stream[at], stream[at + 1]);
            at + len <= |stream| ==> stream[at..][len..] == stream[at + len..]
  {
    hide Word;
    var here, len := stream[at..], Word(stream[at], stream[at + 1]);
    assert here[0] == stream[at] && here[1] == stream[at + 1];
    if MIN_FRAME_LEN <= len && at + len <= |stream| {
      assert here[2] == stream[at + 2];
      assert here[3..len] == stream[at + 3..at + len];
    }
  }

  lemma HeadShort(stream: Bytes)
    requires |stream| < 2
    ensures HeadOf(stream) == Partial
  {
  }

  method Refill(inbound: Bytes) returns (v: Verdict)
    ensures var f := Reframe(inbound); v == Replayed(f.frames, |f.tail|, f.broken)
  {
    hide Reframe, HeadOf, Word;
    var cursor := 0;
    var frames: seq<Frame> := [];
    assert inbound[0..] == inbound && [] + Reframe(inbound).frames == Reframe(inbound).frames;
    while cursor + 2 <= |inbound|
      invariant cursor <= |inbound|
      invariant var rest := Reframe(inbound[cursor..]); Reframe(inbound) == rest.(frames := frames + rest.frames)
    {
      ghost var here := inbound[cursor..];
      HeadAt(inbound, cursor);
      assert frames + [] == frames;
      var len := Word(inbound[cursor], inbound[cursor + 1]);
      if len < MIN_FRAME_LEN || cursor + len > |inbound| { ReframeStuck(here); }
      if len < MIN_FRAME_LEN { return Replayed(frames, |inbound| - cursor, true); }
      if cursor + len > |inbound| { return Replayed(frames, |inbound| - cursor, false); }
      var frame := Frame(inbound[cursor + 2], inbound[cursor + 3..cursor + len]);
      ReframeWhole(here);
      ghost var rest := Reframe(inbound[cursor + len..]).frames;
      assert frames + ([frame] + rest) == frames + [frame] + rest;
      cursor, frames := cursor + len, frames + [frame];
    }
    HeadShort(inbound[cursor..]);
    ReframeStuck(inbound[cursor..]);
    assert frames + [] == frames;
    return Replayed(frames, |inbound| - cursor, false);
  }

  /** What a client does in a session: send a packet at some time, or read a frame. */
  datatype Action = Sending(bytes: Bytes, at: nat) | Reading

  function Sent(actions: seq<Action>): Bytes {
    if actions == [] then []
    else
      var last := actions[|actions| - 1];
      Sent(actions[..|actions| - 1]) + if last.Sending? then last.bytes else []
  }

  lemma NothingSent()
    ensures Outbound([]) == Sent([])
  {
  }

  lemma NothingComing(received: Bytes)
    ensures received + Coming([]) == received
  {
  }

  lemma SentNext(actions: seq<Action>, i: nat)
    requires i < |actions|
    ensures Sent(actions[..i + 1]) == Sent(actions[..i]) + if actions[i].Sending? then actions[i].bytes else []
  {
    assert actions[..i + 1][..i] == actions[..i];
  }

  /**
    A whole session and its capture. For any reads and any interleaving of sending and reading, followed by
    reading to the end, the client delivers the frames of the bytes that came in a row and stops on their
    tail; the capture holds what was sent and what came, each in order; and reading it back gives the same
    frames and the same tail.
   */
  method Session(arrivals: seq<Read>, actions: seq<Action>)
    returns (frames: seq<Frame>, last: Outcome, capture: Bytes, replay: Verdict, ghost log: seq<Transfer>)
    requires forall i :: 0 <= i < |arrivals| ==> 0 < |arrivals[i].bytes| < U32
    requires forall i :: 0 <= i < |actions| && actions[i].Sending? ==> |actions[i].bytes| < U32
    ensures var whole := Reframe(Coming(arrivals));
            && frames == whole.frames && (last.Broken? <==> whole.broken)
            && (last.Closed? ==> replay == Replayed(frames, |whole.tail|, false))
            && (last.Broken? ==> replay.Replayed? && replay.frames == frames && replay.broke)
    ensures capture == MAGIC + Records(log) && Outbound(log) == Sent(actions)
    ensures Inbound(log) <= Coming(arrivals) && (last.Closed? ==> Inbound(log) == Coming(arrivals))
  {
    hide *;
    var tap := new Tap();
    var client := new Client(arrivals, tap);
    frames := [];
    NothingSent();
    assert actions[..0] == [] && [] + Coming(arrivals) == Coming(arrivals);
    for i := 0 to |actions|
      invariant client.Valid() && client.tap == tap && client.delivered == frames
      invariant client.received + Coming(client.incoming) == Coming(arrivals)
      invariant Outbound(tap.log) == Sent(actions[..i])
    {
      SentNext(actions, i);
      match actions[i] {
        case Sending(bytes, at) =>
          OutboundNext(tap.log, Transfer(false, at, bytes));
          client.Send(bytes, at);
        case Reading =>
          var r := client.ReadFrame();
          assert Sent(actions[..i]) + [] == Sent(actions[..i]);
          if r.Got? { frames := frames + [r.frame]; }
      }
    }
    assert actions[..|actions|] == actions;
    client.Holds();
    Rest(frames, client.buf, Coming(client.incoming));
    var more;
    more, last := client.Drain();
    frames := frames + more;
    client.Holds();
    Delivered(frames, client.buf);
    Replays(tap.out, tap.log);
    capture, log := tap.out, tap.log;
    replay := CheckCapture(tap.out);
    if last.Closed? { NothingComing(client.received); }
  }

  /** The stream left to deliver, behind the frames delivered. */
  lemma Rest(frames: seq<Frame>, buf: Bytes, coming: Bytes)
    requires Sendable(frames)
    ensures var rest := Reframe(buf + coming);
            Reframe(EncodeAll(frames) + buf + coming) == rest.(frames := frames + rest.frames)
  {
    assert EncodeAll(frames) + buf + coming == EncodeAll(frames) + (buf + coming);
    ReframeEncoded(frames, buf + coming);
  }

  /** What the frames delivered and the buffer left make of the bytes received. */
  lemma Delivered(frames: seq<Frame>, buf: Bytes)
    requires Sendable(frames) && !HeadOf(buf).Whole?
    ensures Reframe(EncodeAll(frames) + buf) == Framing(frames, buf, HeadOf(buf).Desynchronised?)
  {
    ReframeEncoded(frames, buf);
    ReframeStuck(buf);
    assert frames + [] == frames;
  }

  lemma Replays(out: Bytes, log: seq<Transfer>)
    requires out == MAGIC + Records(log) && forall i :: 0 <= i < |log| ==> |log[i].bytes| < U32
    ensures MAGIC <= out && ReadInbound(out[|MAGIC|..]) == Some(Inbound(log))
  {
    CaptureRoundTrip(log);
    assert out[|MAGIC|..] == Records(log);
  }
}
