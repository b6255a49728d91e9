/**
 The chat wire format: the incremental decoder of chapter 22, the blocking reader and
 writer of the capstone, and the NUL-separated DELIVER payload both carry.
 */
module Framing {
  import opened Common

  const MAGIC0: byte := 67  // 'C'
  const MAGIC1: byte := 72  // 'H'
  const VERSION: byte := 1
  const HEADER := 6
  const MAX_PAYLOAD := 0xFFFF

  datatype Frame = Frame(typ: byte, payload: bytes)

  /** encode: the length field is the payload length cut to 16 bits. */
  function Encode(f: Frame): (e: bytes)
    ensures |e| == HEADER + |f.payload|
  {
    [MAGIC0, MAGIC1, VERSION, f.typ, |f.payload| / 256 % 256, |f.payload| % 256] + f.payload
  }

  function EncodeAll(fs: seq<Frame>): bytes {
    if fs == [] then [] else Encode(fs[0]) + EncodeAll(fs[1..])
  }

  // ----- the meaning of a byte stream -----

  predicate HeaderOk(s: bytes)
    requires |s| >= HEADER
  {
    s[0] == MAGIC0 && s[1] == MAGIC1 && s[2] == VERSION
  }

  function BigEndian16(hi: int, lo: int): int { hi * 256 + lo }

  function LengthField(s: bytes): (n: nat)
    requires |s| >= HEADER
    ensures n <= MAX_PAYLOAD
  {
    BigEndian16(s[4], s[5])
  }

  predicate WholeFrame(s: bytes) { |s| >= HEADER && HeaderOk(s) && |s| >= HEADER + LengthField(s) }

  function FirstFrame(s: bytes): Frame
    requires WholeFrame(s)
  {
    Frame(s[3], s[HEADER..HEADER + LengthField(s)])
  }

  function AfterFirst(s: bytes): (rest: bytes)
    requires WholeFrame(s)
    ensures |rest| + HEADER <= |s|
  {
    s[HEADER + LengthField(s)..]
  }

  /** The frames at the front of s, and what is left when no further whole frame follows. */
  function Decode(s: bytes): (r: (seq<Frame>, bytes))
    ensures !WholeFrame(r.1)
    decreases |s|
  {
    if WholeFrame(s) then var rest := Decode(AfterFirst(s)); ([FirstFrame(s)] + rest.0, rest.1) else ([], s)
  }

  predicate Desynced(s: bytes) { |s| >= HEADER && !HeaderOk(s) }

  /** Decoding undoes encoding exactly for the payloads the length field can express. */
  lemma RoundTripIff(fs: seq<Frame>)
    ensures Decode(EncodeAll(fs)) == (fs, []) <==> forall i :: 0 <= i < |fs| ==> |fs[i].payload| <= MAX_PAYLOAD
  {
    if forall i :: 0 <= i < |fs| ==> |fs[i].payload| <= MAX_PAYLOAD {
      DecodeEncoded(fs);
    }
    DecodedFit(EncodeAll(fs));
  }

  lemma {:induction false} DecodeEncoded(fs: seq<Frame>)
    requires forall i :: 0 <= i < |fs| ==> |fs[i].payload| <= MAX_PAYLOAD
    ensures Decode(EncodeAll(fs)) == (fs, [])
  {
    if fs != [] {
      FirstOfEncoded(fs[0], EncodeAll(fs[1..]));
      DecodeEncoded(fs[1..]);
      assert [fs[0]] + fs[1..] == fs;
    }
  }

  lemma FirstOfEncoded(f: Frame, rest: bytes)
    requires |f.payload| <= MAX_PAYLOAD
    ensures var s := Encode(f) + rest; WholeFrame(s) && FirstFrame(s) == f && AfterFirst(s) == rest
  {
    var s, n := Encode(f) + rest, |f.payload|;
    assert LengthField(s) == n / 256 % 256 * 256 + n % 256 == n;
    assert s[HEADER..HEADER + n] == f.payload;
    assert s[HEADER + n..] == rest;
  }

  lemma {:induction false} DecodedFit(s: bytes)
    ensures forall i :: 0 <= i < |Decode(s).0| ==> |Decode(s).0[i].payload| <= MAX_PAYLOAD
    decreases |s|
  {
    if WholeFrame(s) { DecodedFit(AfterFirst(s)); }
  }

  /** Decoding takes nothing for a frame that encoding would not write: the stream is the frames' encodings and the
      rest. */
  lemma {:induction false} DecodedEncodesBack(s: bytes)
    ensures EncodeAll(Decode(s).0) + Decode(s).1 == s
    decreases |s|
  {
    if WholeFrame(s) {
      var fs, rest := Decode(AfterFirst(s)).0, Decode(AfterFirst(s)).1;
      DecodedEncodesBack(AfterFirst(s));
      FirstEncodesBack(s);
      assert Decode(s).0 == [FirstFrame(s)] + fs && Decode(s).1 == rest;
      assert ([FirstFrame(s)] + fs)[1..] == fs;
      assert EncodeAll(Decode(s).0) + rest == Encode(FirstFrame(s)) + (EncodeAll(fs) + rest);
    }
  }

  lemma FirstEncodesBack(s: bytes)
    requires WholeFrame(s)
    ensures Encode(FirstFrame(s)) + AfterFirst(s) == s
  {
    var n := LengthField(s);
    assert n / 256 % 256 == s[4] && n % 256 == s[5];
    assert s[..HEADER] == [s[0], s[1], s[2], s[3], s[4], s[5]];
    assert s == s[..HEADER] + s[HEADER..HEADER + n] + s[HEADER + n..];
  }

  /** Bytes that arrive later do not change the frame that is already whole. */
  lemma FirstFrameStays(s: bytes, t: bytes)
    requires WholeFrame(s)
    ensures WholeFrame(s + t) && FirstFrame(s + t) == FirstFrame(s) && AfterFirst(s + t) == AfterFirst(s) + t
  {
    assert LengthField(s + t) == LengthField(s);
  }

  // ----- the incremental decoder -----

  datatype Failure = EOF | UnexpectedEOF | Timeout | ConnectionLost | ProtocolDesync | PayloadTooLarge

  /** One Read call: some bytes, possibly none, and possibly an error with them. */
  datatype ReadResult = ReadResult(data: bytes, err: Option<Failure>)

  /** The connection: the results its next reads will give, and end-of-file from then on. */
  class Conn {
    var script: seq<ReadResult>

    constructor (script: seq<ReadResult>)
      ensures this.script == script
    {
      this.script := script;
    }

    method Read() returns (r: ReadResult)
      modifies this
      ensures r == if old(script) == [] then ReadResult([], Some(EOF)) else old(script)[0]
      ensures script == if old(script) == [] then [] else old(script)[1..]
    {
      if script == [] {
        r := ReadResult([], Some(EOF));
      } else {
        r, script := script[0], script[1..];
      }
    }
  }

  /** What next() returns from a buffer and a connection, with the buffer and connection after it. */
  function NextSpec(buf: bytes, script: seq<ReadResult>): (Result<Frame, Failure>, bytes, seq<ReadResult>)
    decreases |script|
  {
    if Desynced(buf) then (Err(ProtocolDesync), buf, script)
    else if WholeFrame(buf) then (Ok(FirstFrame(buf)), AfterFirst(buf), script)
    else if script == [] then (Err(EOF), buf, script)
    else if script[0].err.Some? then (Err(script[0].err.value), buf + script[0].data, script[1..])
    else NextSpec(buf + script[0].data, script[1..])
  }

  class FrameReader {
    const conn: Conn
    var buf: bytes

    constructor (conn: Conn)
      ensures this.conn == conn && buf == []
    {
      this.conn := conn;
      buf := [];
    }

    method Next() returns (r: Result<Frame, Failure>)
      modifies this, conn
      ensures (r, buf, conn.script) == NextSpec(old(buf), old(conn.script))
    {
      ghost var spec := NextSpec(buf, conn.script);
      while true
        invariant NextSpec(buf, conn.script) == spec
        decreases |conn.script|
      {
        if |buf| >= HEADER {
          if buf[0] != MAGIC0 || buf[1] != MAGIC1 || buf[2] != VERSION {
            return Err(ProtocolDesync);
          }
          var ln := BigEndian16(buf[4], buf[5]);
          if |buf| >= HEADER + ln {
            r := Ok(Frame(buf[3], buf[HEADER..HEADER + ln]));
            buf := buf[HEADER + ln..];
            return;
          }
        }
        var got := conn.Read();
        if |got.data| > 0 {
          buf := buf + got.data;
        } else {
          assert buf + got.data == buf;
        }
        if got.err.Some? {
          return Err(got.err.value);
        }
      }
    }
  }

  function Pending(script: seq<ReadResult>): (n: nat)
    ensures |script| <= n
  {
    if script == [] then 0 else 1 + |script[0].data| + Pending(script[1..])
  }

  lemma {:induction false} NextProgress(buf: bytes, script: seq<ReadResult>)
    ensures var n := NextSpec(buf, script); n.0.Ok? ==> |n.1| + Pending(n.2) < |buf| + Pending(script)
    decreases |script|
  {
    if !Desynced(buf) && !WholeFrame(buf) && script != [] && script[0].err.None? {
      NextProgress(buf + script[0].data, script[1..]);
    }
  }

  /** The frames that repeated next() calls return before the first error, and that error. */
  function ReadLoop(buf: bytes, script: seq<ReadResult>): (seq<Frame>, Failure)
    decreases |buf| + Pending(script)
  {
    var n := NextSpec(buf, script);
    NextProgress(buf, script);
    match n.0
    case Err(e) => ([], e)
    case Ok(f) => var rest := ReadLoop(n.1, n.2); ([f] + rest.0, rest.1)
  }

  function DataReads(chunks: seq<bytes>): seq<ReadResult> {
    seq(|chunks|, i requires 0 <= i < |chunks| => ReadResult(chunks[i], None))
  }

  /** A read that finds no whole frame just adds its chunk to the buffer. */
  lemma ReadLoopStep(buf: bytes, first: bytes, script: seq<ReadResult>)
    requires !Desynced(buf) && !WholeFrame(buf)
    ensures ReadLoop(buf, [ReadResult(first, None)] + script) == ReadLoop(buf + first, script)
  {
    var all := [ReadResult(first, None)] + script;
    assert all[1..] == script;
    assert NextSpec(buf, all) == NextSpec(buf + first, script);
  }

  /** Chunk independence: for any byte stream and any way to cut it into reads, the loop returns the
      frames of the stream, then ProtocolDesync if a bad header follows them, else the read error.
      Bytes that come together with the error are never looked at. */
  lemma {:induction false} ChunkIndependence(buf: bytes, chunks: seq<bytes>, late: bytes, e: Failure)
    ensures var all := Decode(buf + Concat(chunks));
      ReadLoop(buf, DataReads(chunks) + [ReadResult(late, Some(e))]) == (all.0, if Desynced(all.1) then ProtocolDesync else e)
    decreases |buf| + |Concat(chunks)| + |chunks|
  {
    var script := DataReads(chunks) + [ReadResult(late, Some(e))];
    if Desynced(buf) {
      assert (buf + Concat(chunks))[..HEADER] == buf[..HEADER];
    } else if WholeFrame(buf) {
      FirstFrameStays(buf, Concat(chunks));
      ChunkIndependence(AfterFirst(buf), chunks, late, e);
    } else if chunks == [] {
      assert script == [ReadResult(late, Some(e))];
      assert buf + Concat(chunks) == buf;
    } else {
      assert script == [ReadResult(chunks[0], None)] + (DataReads(chunks[1..]) + [ReadResult(late, Some(e))]);
      ReadLoopStep(buf, chunks[0], DataReads(chunks[1..]) + [ReadResult(late, Some(e))]);
      assert buf + Concat(chunks) == (buf + chunks[0]) + Concat(chunks[1..]);
      ChunkIndependence(buf + chunks[0], chunks[1..], late, e);
    }
  }

  /** So every list of encodable frames comes back whole, however its encoding is cut into reads. */
  lemma EveryChunkingReturnsTheFrames(fs: seq<Frame>, chunks: seq<bytes>, late: bytes, e: Failure)
    requires forall i :: 0 <= i < |fs| ==> |fs[i].payload| <= MAX_PAYLOAD
    requires Concat(chunks) == EncodeAll(fs)
    ensures ReadLoop([], DataReads(chunks) + [ReadResult(late, Some(e))]) == (fs, e)
  {
    ChunkIndependence([], chunks, late, e);
    assert [] + Concat(chunks) == EncodeAll(fs);
    RoundTripIff(fs);
  }

  // ----- the blocking reader and writer of the capstone -----

  /** A connection as one stream of bytes: what was written and is still to be read. It may be lost in any
      call, and then every call fails. */
  class Pipe {
    var left: bytes
    var lost: bool

    /** A nonempty prefix of what is left, nothing at the end of the stream, or a failure. */
    method Read(room: nat) returns (r: Result<bytes, Failure>)
      requires room > 0
      modifies this
      ensures lost <==> r == Err(ConnectionLost)
      ensures r.Err? ==> r.error == ConnectionLost && left == old(left)
      ensures r.Ok? ==> r.value + left == old(left) && |r.value| <= room && (r.value == [] <==> old(left) == [])
      ensures old(lost) ==> lost
    {
      var fails: bool := *;
      lost := lost || fails;
      if lost {
        return Err(ConnectionLost);
      }
      if left == [] {
        return Ok([]);
      }
      var n: nat :| 1 <= n <= |left| && n <= room;
      r := Ok(left[..n]);
      left := left[n..];
    }

    /** All of b, or a failure after some proper part of it. */
    method Write(b: bytes) returns (ok: bool)
      requires b != []
      modifies this
      ensures ok <==> !lost
      ensures ok ==> left == old(left) + b
      ensures !ok ==> PartlyAppended(old(left), left, b)
      ensures old(lost) ==> lost
    {
      var fails: bool, n: nat := *, *;
      if lost || fails {
        if !lost && n < |b| { left := left + b[..n]; }
        lost := true;
        return false;
      }
      left := left + b;
      ok := true;
    }

    /** io.ReadFull: reads until room bytes are there, the stream ends or the connection is lost. */
    method ReadFull(room: nat) returns (r: Result<bytes, Failure>)
      modifies this
      ensures !lost && |old(left)| >= room ==> r == Ok(old(left)[..room]) && left == old(left)[room..]
      ensures !lost && |old(left)| < room ==> r == Err(if old(left) == [] then EOF else UnexpectedEOF) && left == []
      ensures lost && room > 0 ==> r == Err(ConnectionLost)
      ensures old(lost) ==> lost
    {
      var got: bytes := [];
      ghost var all := left;
      while |got| < room
        invariant got + left == all && |got| <= room && (old(lost) ==> lost)
        invariant lost ==> old(lost) && |got| == 0
      {
        var more := Read(room - |got|);
        if more.Err? {
          return Err(more.error);
        }
        if more.value == [] {
          assert got == all;
          return Err(if got == [] then EOF else UnexpectedEOF);
        }
        assert got + more.value + left == all;
        got := got + more.value;
      }
      assert got == all[..room] && left == all[room..];
      return Ok(got);
    }

    /** Too large a payload is refused before anything is written. */
    method WriteFrame(f: Frame) returns (r: Result<(), Failure>)
      modifies this
      ensures |f.payload| > MAX_PAYLOAD ==> r == Err(PayloadTooLarge) && left == old(left) && lost == old(lost)
      ensures |f.payload| <= MAX_PAYLOAD && !lost ==> r.Ok? && left == old(left) + Encode(f)
      ensures |f.payload| <= MAX_PAYLOAD && lost ==> r == Err(ConnectionLost) && PartlyAppended(old(left), left, Encode(f))
    {
      if |f.payload| > MAX_PAYLOAD {
        return Err(PayloadTooLarge);
      }
      var hdr := [MAGIC0, MAGIC1, VERSION, f.typ, |f.payload| / 256, |f.payload| % 256];
      assert Encode(f) == hdr + f.payload;
      var ok := Write(hdr);
      if !ok {
        return Err(ConnectionLost);
      }
      if |f.payload| > 0 {
        ok := Write(f.payload);
        if !ok {
          return Err(ConnectionLost);
        }
      }
      assert left == old(left) + Encode(f);
      return Ok(());
    }

    method ReadFrame() returns (r: Result<Frame, Failure>)
      modifies this
      ensures !lost ==> (r, left) == ReadFrameSpec(old(left))
      ensures lost ==> r == Err(ConnectionLost)
    {
      ghost var all := left;
      var hdr := ReadFull(HEADER);
      if hdr.Err? {
        return Err(hdr.error);
      }
      assert hdr.value == all[..HEADER];
      if hdr.value[0] != MAGIC0 || hdr.value[1] != MAGIC1 || hdr.value[2] != VERSION {
        return Err(ProtocolDesync);
      }
      var n := BigEndian16(hdr.value[4], hdr.value[5]);
      var payload: bytes := [];
      if n > 0 {
        var p := ReadFull(n);
        if p.Err? {
          return Err(p.error);
        }
        payload := p.value;
      }
      assert payload == all[HEADER..HEADER + n];
      return Ok(Frame(hdr.value[3], payload));
    }
  }

  /** A stream that ends inside the payload fails with the payload read's error, which is EOF when no byte of
      the payload came. */
  function ReadFrameSpec(s: bytes): (r: (Result<Frame, Failure>, bytes))
    ensures r.0.Ok? ==> |r.1| < |s|
  {
    if |s| < HEADER then (Err(if s == [] then EOF else UnexpectedEOF), [])
    else if !HeaderOk(s) then (Err(ProtocolDesync), s[HEADER..])
    else if !WholeFrame(s) then (Err(if |s| == HEADER then EOF else UnexpectedEOF), [])
    else (Ok(FirstFrame(s)), AfterFirst(s))
  }

  /** The frames that repeated readFrame calls return before the first error, and that error. */
  function ReadFrameLoop(s: bytes): (seq<Frame>, Failure)
    decreases |s|
  {
    var r := ReadFrameSpec(s);
    match r.0
    case Err(e) => ([], e)
    case Ok(f) => var rest := ReadFrameLoop(r.1); ([f] + rest.0, rest.1)
  }

  /** The two decoders of the repository read the same frames from every stream and call the same streams out
      of step. The blocking one reports EOF at a frame boundary or right behind a sound header, and an
      unexpected end everywhere else. */
  lemma {:induction false} DecodersAgree(s: bytes)
    ensures ReadFrameLoop(s).0 == Decode(s).0
    ensures ReadFrameLoop(s).1 == ProtocolDesync <==> Desynced(Decode(s).1)
    ensures ReadFrameLoop(s).1 == EOF <==> Decode(s).1 == [] || (|Decode(s).1| == HEADER && HeaderOk(Decode(s).1))
    ensures ReadFrameLoop(s).1 in {ProtocolDesync, EOF, UnexpectedEOF}
    decreases |s|
  {
    if WholeFrame(s) { DecodersAgree(AfterFirst(s)); }
  }

  // ----- the DELIVER payload -----

  function DeliverPayload(nick: bytes, text: bytes): bytes { nick + [0] + text }

  /** splitDeliver of the capstone; chapter 22 answers ("?", payload) where this answers None. */
  function SplitSpec(payload: bytes): Option<(bytes, bytes)> {
    var nick := CString(payload);
    if |nick| < |payload| then Some((nick, payload[|nick| + 1..])) else None
  }

  method SplitDeliver(payload: bytes) returns (r: Option<(bytes, bytes)>)
    ensures r == SplitSpec(payload)
  {
    for i := 0 to |payload|
      invariant 0 !in payload[..i]
    {
      if payload[i] == 0 {
        CStringUnique(payload, payload[..i]);
        return Some((payload[..i], payload[i + 1..]));
      }
    }
    assert payload == payload[..|payload|];
    CStringUnique(payload, payload);
    return None;
  }

  /** Splitting undoes joining exactly for nicks without a NUL, whatever the text holds. */
  lemma SplitUndoesDeliverIff(nick: bytes, text: bytes)
    ensures SplitSpec(DeliverPayload(nick, text)) == Some((nick, text)) <==> 0 !in nick
  {
    var p := DeliverPayload(nick, text);
    if 0 !in nick {
      assert p[..|nick|] == nick && p[|nick| + 1..] == text;
      CStringUnique(p, nick);
    }
  }

  /** And joining undoes splitting on every payload that splits. */
  lemma DeliverUndoesSplit(p: bytes)
    ensures SplitSpec(p).Some? <==> 0 in p
    ensures SplitSpec(p).Some? ==> DeliverPayload(SplitSpec(p).value.0, SplitSpec(p).value.1) == p
  {
    var nick := CString(p);
    if |nick| < |p| {
      assert p[|nick|] == 0;
    } else {
      assert p == nick;
    }
  }
}
