/**
 The supervisor's side of the log pipeline: two relays writing one log, fed from a child's
 two pipes. The methods are proved against the functions of LogLines.
 */
module LogCapture {
  import opened Common
  import opened LogLines

  datatype WriteResult = Wrote(n: nat) | Interrupted | Failed

  /** The log file, opened for appending. base is what it held before this supervisor wrote to it. */
  class Log {
    var data: bytes
    ghost const base: bytes
    ghost var records: seq<Record>
    var patience: nat  // how many more writes a signal interrupts
    ghost var failures: nat  // how many writes have failed

    ghost predicate Valid() reads this {
      && data == base + Encoded(records) && Rest(base) == []
      && forall i :: 0 <= i < |records| ==> NEWLINE !in records[i].body
    }

    /** write(2): takes a nonempty prefix, or nothing. */
    method Write(b: bytes) returns (r: WriteResult)
      requires b != []
      modifies this`data, this`patience, this`failures
      ensures failures == old(failures) + if r.Failed? then 1 else 0
      ensures r.Wrote? ==> 1 <= r.n <= |b| && data == old(data) + b[..r.n] && patience == old(patience)
      ensures !r.Wrote? ==> data == old(data) && (r.Failed? || patience < old(patience))
    {
      var n: nat, interrupted: bool := *, *;
      if n > |b| {
        failures := failures + 1;
        r := Failed;
      } else if n > 0 {
        r := Wrote(n);
        data := data + b[..n];
      } else if interrupted && patience > 0 {
        patience := patience - 1;
        r := Interrupted;
      } else {
        failures := failures + 1;
        r := Failed;
      }
    }
  }

  lemma PartOfMore(was: bytes, now: bytes, done: bytes, more: bytes, rest: bytes)
    requires PartlyAppended(was + done, now, more)
    ensures PartlyAppended(was, now, done + more + rest)
  {
    assert was + done + more <= was + (done + more + rest);
  }

  /** The first newline of b from i on, or |b|. */
  function NewlineFrom(b: bytes, i: nat): (k: nat)
    requires i <= |b|
    ensures i <= k <= |b| && NEWLINE !in b[i..k] && (k < |b| ==> b[k] == NEWLINE)
    decreases |b| - i
  {
    if i == |b| || b[i] == NEWLINE then i
    else
      var k := NewlineFrom(b, i + 1);
      assert b[i..k] == [b[i]] + b[i + 1..k];
      k
  }

  class LineRelay {
    const stream: Stream
    const log: Log
    var buf: bytes
    ghost const before: seq<bytes>  // bodies logged for this stream by earlier children
    ghost var chunks: seq<bytes>
    ghost var closed: bool

    /** The log shows this stream as the chunks fed so far say. */
    ghost predicate Valid() reads this, log {
      && log.Valid()
      && buf == (if closed then [] else Fold(chunks).buf)
      && Bodies(log.records, stream) == before + if closed then Flushed(Fold(chunks)) else Fold(chunks).bodies
    }

    constructor (stream: Stream, log: Log)
      requires log.Valid()
      ensures Valid() && this.stream == stream && this.log == log && chunks == [] && !closed
      ensures before == Bodies(log.records, stream)
    {
      this.stream, this.log, buf := stream, log, [];
      before, chunks, closed := Bodies(log.records, stream), [], false;
    }

    /** One record, through short and interrupted writes. */
    method Emit(line: bytes) returns (ok: bool)
      requires log.Valid() && NEWLINE !in line
      modifies log
      ensures log.failures == old(log.failures) + if ok then 0 else 1
      ensures ok ==> log.Valid() && log.records == old(log.records) + [Record(stream, line)]
      ensures !ok ==> PartlyAppended(old(log.data), log.data, Line(Record(stream, line)) + [NEWLINE])
    {
      hide Encoded, Rest, Line;
      var rec := Line(Record(stream, line)) + [NEWLINE];
      var off := 0;
      while off < |rec|
        invariant 0 <= off <= |rec| && log.data == old(log.data) + rec[..off] && log.records == old(log.records)
        invariant log.failures == old(log.failures)
        decreases |rec| - off + log.patience
      {
        var w := log.Write(rec[off..]);
        match w
        case Wrote(n) =>
          assert rec[..off] + rec[off..][..n] == rec[..off + n];
          off := off + n;
        case Interrupted =>
        case Failed =>
          assert old(log.data) + rec[..off] <= old(log.data) + rec;
          return false;
      }
      ghost var records := log.records + [Record(stream, line)];
      EncodedSnoc(log.records, Record(stream, line));
      assert rec[..off] == rec;
      log.records := records;
      ok := true;
    }

    /** feed: every line that is now complete becomes a record; an overlong partial line is cut. */
    method Feed(chunk: bytes) returns (ok: bool)
      requires Valid() && !closed
      modifies this, log
      ensures log.failures == old(log.failures) + if ok then 0 else 1
      ensures ok ==> Valid() && !closed && chunks == old(chunks) + [chunk]
      ensures ok ==> log.records == old(log.records) + Tagged(stream, Fed(old(buf), chunk).0) && |buf| <= CHUNK
      ensures !ok ==> PartlyAppended(old(log.data), log.data, Encoded(Tagged(stream, Fed(old(buf), chunk).0)))
    {
      hide Fed, Step, Encoded, Bodies, Fold, Line, Tagged, PartlyAppended, Scanned;
      ghost var fed, records := Fed(buf, chunk), log.records;
      buf := buf + chunk;
      ghost var all := buf;
      var start := 0;
      ghost var done: seq<bytes> := [];
      var nl := NewlineFrom(buf, start);
      NothingScanned(buf, records, stream);
      while nl < |buf|
        invariant 0 <= start <= nl <= |buf| && nl == NewlineFrom(buf, start) && buf == all
        invariant chunks == old(chunks) && !closed && log.failures == old(log.failures)
        invariant Scanned(buf, start, done) && log.Valid() && log.records == records + Tagged(stream, done)
        decreases |buf| - start
      {
        var line := buf[start..nl];
        OneLine(buf, start, nl, done, old(buf), chunk);
        EncodedDone(records, stream, done, line, fed.0);
        ok := Emit(line);
        if !ok {
          return;
        }
        TaggedSnoc(records, stream, done, line);
        done := done + [line];
        start := nl + 1;
        nl := NewlineFrom(buf, start);
      }
      LastLine(buf, start, done, old(buf), chunk);
      buf := buf[start..];
      ok := true;
      if |buf| > CHUNK {
        EncodedDone(records, stream, done, buf, fed.0);
        ok := Emit(buf);
        TaggedSnoc(records, stream, done, buf);
        buf := [];
      }
      if ok {
        FedBodies(chunks, chunk, records, stream, before);
        chunks := chunks + [chunk];
      }
    }

    /** flush, once the stream has ended: what is in the buffer becomes the last record. */
    method Flush() returns (ok: bool)
      requires Valid() && !closed
      modifies this, log
      ensures log.failures == old(log.failures) + if ok then 0 else 1
      ensures ok ==> Valid() && closed && chunks == old(chunks)
      ensures ok ==> log.records == old(log.records) + Tagged(stream, NonEmpty(old(buf)))
      ensures !ok ==> PartlyAppended(old(log.data), log.data, Encoded(Tagged(stream, NonEmpty(old(buf)))))
    {
      hide Complete, Rest, Encoded, Line, Bodies, Fold, Flushed, Tagged, PartlyAppended;
      ghost var bodies, records := NonEmpty(buf), log.records;
      FlushBodies(chunks, records, stream, before);
      NothingScanned(buf, records, stream);
      ok := true;
      if buf != [] {
        assert [] + [buf] == bodies;
        EncodedDone(records, stream, [], buf, bodies);
        TaggedSnoc(records, stream, [], buf);
        ok := Emit(buf);
        buf := [];
      }
      if ok { closed := true; }
    }
  }

  // ----- the steps of the scan -----

  /** b has been scanned up to start, the end of a line: done are its lines so far. */
  ghost predicate Scanned(b: bytes, start: nat, done: seq<bytes>) {
    start <= |b| && Rest(b[..start]) == [] && done == Complete(b[..start])
  }

  lemma NothingScanned(b: bytes, records: seq<Record>, s: Stream)
    ensures Scanned(b, 0, []) && records + Tagged(s, []) == records
  {
  }

  /** The next line of b, which what is fed continues with. */
  lemma OneLine(b: bytes, start: nat, nl: nat, done: seq<bytes>, buf: bytes, chunk: bytes)
    requires start <= nl < |b| && b[nl] == NEWLINE && NEWLINE !in b[start..nl] && Scanned(b, start, done) && b == buf + chunk
    ensures Scanned(b, nl + 1, done + [b[start..nl]]) && done + [b[start..nl]] <= Fed(buf, chunk).0
  {
    hide Complete, Rest;
    LineSlices(b, start, nl);
    LineStep(b[..start], b[start..nl]);
    CompleteGrows(b[..nl + 1], b[nl + 1..]);
  }

  /** What a successful flush leaves is the flushed fold. */
  lemma FlushBodies(chunks: seq<bytes>, records: seq<Record>, s: Stream, before: seq<bytes>)
    ensures NEWLINE !in Fold(chunks).buf
    ensures Bodies(records, s) == before + Fold(chunks).bodies
        ==> Bodies(records + Tagged(s, NonEmpty(Fold(chunks).buf)), s) == before + Flushed(Fold(chunks))
  {
    hide Bodies, Fold, Tagged, Rest, Complete, Concat, Strip;
    FoldKeepsInv(chunks);
    TaggedBodies(records, s, NonEmpty(Fold(chunks).buf), s);
  }

  lemma LineSlices(b: bytes, start: nat, nl: nat)
    requires start <= nl < |b| && b[nl] == NEWLINE
    ensures b[..start] + b[start..nl] + [NEWLINE] == b[..nl + 1] && b[..nl + 1] + b[nl + 1..] == b
  {
  }

  lemma CompleteGrows(a: bytes, b: bytes)
    ensures Complete(a) <= Complete(a + b)
  {
    LinesAppend(a, b);
  }

  lemma LastLine(b: bytes, start: nat, done: seq<bytes>, buf: bytes, chunk: bytes)
    requires start <= |b| && NEWLINE !in b[start..] && Scanned(b, start, done) && b == buf + chunk
    ensures Fed(buf, chunk) == if |b[start..]| > CHUNK then (done + [b[start..]], []) else (done, b[start..])
  {
    hide Complete, Rest;
    LineStep(b[..start], b[start..]);
    assert b == b[..start] + b[start..];
  }

  /** What a successful feed leaves is the fold with one more chunk. */
  lemma FedBodies(chunks: seq<bytes>, chunk: bytes, records: seq<Record>, s: Stream, before: seq<bytes>)
    ensures var f := Fed(Fold(chunks).buf, chunk);
      && Fold(chunks + [chunk]).buf == f.1
      && (Bodies(records, s) == before + Fold(chunks).bodies
          ==> Bodies(records + Tagged(s, f.0), s) == before + Fold(chunks + [chunk]).bodies)
  {
    hide Fed, Bodies, Fold, Tagged;
    FoldSnoc(chunks, chunk);
    TaggedBodies(records, s, Fed(Fold(chunks).buf, chunk).0, s);
  }

  lemma TaggedSnoc(records: seq<Record>, s: Stream, done: seq<bytes>, line: bytes)
    ensures records + Tagged(s, done) + [Record(s, line)] == records + Tagged(s, done + [line])
  {
  }

  /** A record cut short after some whole ones is a part of all of them. */
  lemma EncodedDone(records: seq<Record>, s: Stream, done: seq<bytes>, line: bytes, bodies: seq<bytes>)
    requires done + [line] <= bodies
    ensures forall base, now {:trigger PartlyAppended(base + Encoded(records), now, Encoded(Tagged(s, bodies)))} ::
      PartlyAppended(base + Encoded(records + Tagged(s, done)), now, Line(Record(s, line)) + [NEWLINE])
      ==> PartlyAppended(base + Encoded(records), now, Encoded(Tagged(s, bodies)))
  {
    hide Encoded, Line, PartlyAppended;
    var rest := bodies[|done| + 1..];
    EncodedAppend(records, Tagged(s, done));
    EncodedAppend(Tagged(s, done), [Record(s, line)]);
    EncodedAppend(Tagged(s, done) + [Record(s, line)], Tagged(s, rest));
    assert Tagged(s, bodies) == Tagged(s, done) + [Record(s, line)] + Tagged(s, rest);
    NoRecords();
    EncodedSnoc([], Record(s, line));
    assert [] + [Record(s, line)] == [Record(s, line)];
    assert Encoded([Record(s, line)]) == Line(Record(s, line)) + [NEWLINE];
    assert Encoded(Tagged(s, bodies)) == Encoded(Tagged(s, done)) + (Line(Record(s, line)) + [NEWLINE]) + Encoded(Tagged(s, rest));
    forall base, now | PartlyAppended(base + Encoded(records + Tagged(s, done)), now, Line(Record(s, line)) + [NEWLINE])
      ensures PartlyAppended(base + Encoded(records), now, Encoded(Tagged(s, bodies)))
    {
      assert base + Encoded(records + Tagged(s, done)) == base + Encoded(records) + Encoded(Tagged(s, done));
      PartOfMore(base + Encoded(records), now, Encoded(Tagged(s, done)), Line(Record(s, line)) + [NEWLINE], Encoded(Tagged(s, rest)));
    }
  }

  // ----- the two pipes -----

  datatype ReadResult = Got(chunk: bytes) | EndOfFile | Again | ReadFailed

  /** A pipe's read end. content is what will still arrive before the writers have all closed. */
  class Pipe {
    var content: bytes
    var patience: nat  // how many more reads find nothing or are interrupted
    ghost var failures: nat  // how many reads have failed

    method Read(room: nat) returns (r: ReadResult)
      requires room > 0
      modifies this
      ensures r.Got? ==> 1 <= |r.chunk| <= room && old(content) == r.chunk + content && patience == old(patience)
      ensures !r.Got? ==> content == old(content)
      ensures r.EndOfFile? ==> content == []
      ensures failures == old(failures) + if r.ReadFailed? then 1 else 0
      ensures patience <= old(patience) && (r.Again? ==> patience < old(patience))
    {
      var n: nat, failed: bool, again: bool := *, *, *;
      if failed {
        failures := failures + 1;
        r := ReadFailed;
      } else if again && patience > 0 {
        patience := patience - 1;
        r := Again;
      } else if content == [] {
        r := EndOfFile;
      } else {
        n := if n == 0 || n > room || n > |content| then 1 else n;
        r := Got(content[..n]);
        content := content[n..];
      }
    }
  }

  class Capture {
    const outPipe: Pipe
    const errPipe: Pipe
    const outRelay: LineRelay
    const errRelay: LineRelay
    var outOpen: bool
    var errOpen: bool
    ghost const outStream: bytes  // everything the child writes to its stdout
    ghost const errStream: bytes

    ghost predicate Valid() reads this, outPipe, errPipe, outRelay, errRelay, outRelay.log, errRelay.log {
      && outRelay.stream == Stdout && errRelay.stream == Stderr && outRelay.log == errRelay.log && outPipe != errPipe
      && RelayOk(outRelay, outPipe, outOpen, outStream) && RelayOk(errRelay, errPipe, errOpen, errStream)
    }

    /** How many reads and writes have failed. */
    ghost function Failures(): nat reads outPipe, errPipe, outRelay, outRelay.log {
      outPipe.failures + errPipe.failures + outRelay.log.failures
    }

    constructor (log: Log, outPipe: Pipe, errPipe: Pipe)
      requires log.Valid() && outPipe != errPipe
      ensures Valid() && outRelay.log == log && this.outPipe == outPipe && this.errPipe == errPipe
      ensures outOpen && errOpen && outStream == outPipe.content && errStream == errPipe.content
      ensures fresh(outRelay) && fresh(errRelay)
      ensures outRelay.before == Bodies(log.records, Stdout) && errRelay.before == Bodies(log.records, Stderr)
    {
      hide Bodies, Fold, Encoded, Rest;
      outRelay := new LineRelay(Stdout, log);
      errRelay := new LineRelay(Stderr, log);
      this.outPipe, this.errPipe, outOpen, errOpen := outPipe, errPipe, true, true;
      outStream, errStream := outPipe.content, errPipe.content;
    }

    /** drain_once on stdout: one read; end of file closes the pipe and flushes its relay. */
    method DrainOut() returns (ok: bool)
      requires Valid() && outOpen
      modifies this`outOpen, outPipe, outRelay, outRelay.log
      ensures ok ==> Valid() && (outOpen ==> |outPipe.content| < |old(outPipe.content)| || outPipe.patience < old(outPipe.patience))
      ensures ok ==> |outPipe.content| <= |old(outPipe.content)| && outPipe.patience <= old(outPipe.patience)
      ensures Failures() == old(Failures()) + if ok then 0 else 1
    {
      hide Bodies, Fold, Concat, Encoded, Rest;
      ok, outOpen := DrainOnce(outPipe, outRelay, outStream);
    }

    method DrainErr() returns (ok: bool)
      requires Valid() && errOpen
      modifies this`errOpen, errPipe, errRelay, errRelay.log
      ensures ok ==> Valid() && (errOpen ==> |errPipe.content| < |old(errPipe.content)| || errPipe.patience < old(errPipe.patience))
      ensures ok ==> |errPipe.content| <= |old(errPipe.content)| && errPipe.patience <= old(errPipe.patience)
      ensures Failures() == old(Failures()) + if ok then 0 else 1
      ensures ok ==> outOpen == old(outOpen)
    {
      hide Bodies, Fold, Concat, Encoded, Rest;
      ok, errOpen := DrainOnce(errPipe, errRelay, errStream);
    }

    /** drain_to_eof: afterwards every byte the child wrote is in the log. */
    method DrainToEof() returns (ok: bool)
      requires Valid()
      modifies this`outOpen, this`errOpen, outPipe, errPipe, outRelay, errRelay, outRelay.log
      ensures ok <==> Failures() == old(Failures())
      ensures ok ==> Valid() && !outOpen && !errOpen
      ensures ok ==> Concat(outRelay.chunks) == outStream && Concat(errRelay.chunks) == errStream
      ensures ok ==> Bodies(outRelay.log.records, Stdout) == outRelay.before + Flushed(Fold(outRelay.chunks))
      ensures ok ==> Bodies(outRelay.log.records, Stderr) == errRelay.before + Flushed(Fold(errRelay.chunks))
    {
      while outOpen
        invariant Valid() && Failures() == old(Failures())
        decreases |outPipe.content| + outPipe.patience, outOpen
      {
        ok := DrainOut();
        if !ok { return; }
      }
      while errOpen
        invariant Valid() && !outOpen && Failures() == old(Failures())
        decreases |errPipe.content| + errPipe.patience, errOpen
      {
        ok := DrainErr();
        if !ok { return; }
      }
      ok := true;
    }
  }

  /** A relay, its pipe and whether it is open: nothing of the stream is missing. */
  ghost predicate RelayOk(relay: LineRelay, pipe: Pipe, open: bool, stream: bytes)
    reads relay, relay.log, pipe
  {
    && relay.Valid() && relay.closed == !open && (!open ==> pipe.content == [])
    && Concat(relay.chunks) + pipe.content == stream
  }

  method DrainOnce(pipe: Pipe, relay: LineRelay, ghost stream: bytes) returns (ok: bool, open: bool)
    requires RelayOk(relay, pipe, true, stream)
    modifies pipe, relay, relay.log
    ensures pipe.failures + relay.log.failures == old(pipe.failures + relay.log.failures) + if ok then 0 else 1
    ensures ok ==> RelayOk(relay, pipe, open, stream)
    ensures ok ==> forall s :: s != relay.stream ==> Bodies(relay.log.records, s) == old(Bodies(relay.log.records, s))
    ensures ok && open ==> |pipe.content| < |old(pipe.content)| || pipe.patience < old(pipe.patience)
    ensures |pipe.content| <= |old(pipe.content)| && pipe.patience <= old(pipe.patience)
  {
    hide Bodies, Fold, Concat, Fed, Encoded;
    ok, open := true, true;
    ghost var records, buf := relay.log.records, relay.buf;
    var r := pipe.Read(CHUNK);
    match r {
      case ReadFailed => ok := false;
      case Again =>
      case EndOfFile =>
        open := false;
        ok := relay.Flush();
        OtherBodies(records, relay.stream, NonEmpty(buf));
      case Got(chunk) =>
        ConcatSnoc(relay.chunks, chunk);
        ok := relay.Feed(chunk);
        OtherBodies(records, relay.stream, Fed(buf, chunk).0);
    }
  }

  lemma OtherBodies(records: seq<Record>, s: Stream, bodies: seq<bytes>)
    ensures forall t :: t != s ==> Bodies(records + Tagged(s, bodies), t) == Bodies(records, t)
  {
    forall t | t != s ensures Bodies(records + Tagged(s, bodies), t) == Bodies(records, t) {
      TaggedBodies(records, s, bodies, t);
    }
  }
}
