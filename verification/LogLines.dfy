/**
 The line relay of the log pipeline, as functions. A stream arrives in chunks that may end
 anywhere; each complete line becomes one tagged record of the log, and an overlong partial
 line is cut. The lemmas compare the records with the lines of the whole stream.
 */
module LogLines {
  import opened Common

  const NEWLINE: byte := 10
  const CHUNK := 65536

  // ----- the lines of a stream -----

  /** The lines that a newline ends, without it. */
  function Complete(s: bytes): seq<bytes> {
    if s == [] then []
    else
      var front := s[..|s| - 1];
      if s[|s| - 1] == NEWLINE then Complete(front) + [Rest(front)] else Complete(front)
  }

  /** What follows the last newline. */
  function Rest(s: bytes): (r: bytes)
    ensures NEWLINE !in r
  {
    if s == [] || s[|s| - 1] == NEWLINE then [] else Rest(s[..|s| - 1]) + [s[|s| - 1]]
  }

  /** The lines of a stream that has ended: an unfinished last one counts. */
  function LinesOf(s: bytes): seq<bytes> { Complete(s) + NonEmpty(Rest(s)) }

  function NonEmpty(line: bytes): seq<bytes> { if line == [] then [] else [line] }

  function Strip(s: bytes): bytes {
    if s == [] then []
    else Strip(s[..|s| - 1]) + if s[|s| - 1] == NEWLINE then [] else [s[|s| - 1]]
  }

  lemma {:induction false} PlainBytes(s: bytes)
    requires NEWLINE !in s
    ensures Complete(s) == [] && Rest(s) == s && Strip(s) == s
  {
    if s != [] { PlainBytes(s[..|s| - 1]); }
  }

  lemma {:induction false} RestIsSuffix(s: bytes)
    ensures |Rest(s)| <= |s| && Rest(s) == s[|s| - |Rest(s)|..]
  {
    if s != [] {
      var front, last := s[..|s| - 1], s[|s| - 1];
      RestIsSuffix(front);
      var r := Rest(front);
      assert Rest(s) == if last == NEWLINE then [] else r + [last];
      hide Rest;
      if last != NEWLINE { assert s[|s| - |r + [last]|..] == front[|front| - |r|..] + [last]; }
    }
  }

  lemma LinesSnoc(s: bytes, c: byte)
    ensures Complete(s + [c]) == Complete(s) + if c == NEWLINE then [Rest(s)] else []
    ensures Rest(s + [c]) == if c == NEWLINE then [] else Rest(s) + [c]
    ensures Strip(s + [c]) == Strip(s) + if c == NEWLINE then [] else [c]
  {
    assert (s + [c])[..|s|] == s;
  }

  /** What a prefix leaves unfinished is all that the rest of the stream needs to know of it. */
  lemma {:induction false} LinesAppend(a: bytes, b: bytes)
    ensures Complete(a + b) == Complete(a) + Complete(Rest(a) + b)
    ensures Rest(a + b) == Rest(Rest(a) + b)
    ensures Strip(a + b) == Strip(a) + Strip(b)
  {
    if b == [] {
      assert a + b == a && Rest(a) + b == Rest(a);
      PlainBytes(Rest(a));
    } else {
      hide Complete, Rest, Strip;
      var front, c := b[..|b| - 1], b[|b| - 1];
      LinesAppend(a, front);
      assert b == front + [c];
      LinesAppendOne(a, front, c);
    }
  }

  lemma LinesAppendOne(a: bytes, front: bytes, c: byte)
    requires Complete(a + front) == Complete(a) + Complete(Rest(a) + front)
    requires Rest(a + front) == Rest(Rest(a) + front)
    requires Strip(a + front) == Strip(a) + Strip(front)
    ensures Complete(a + (front + [c])) == Complete(a) + Complete(Rest(a) + (front + [c]))
    ensures Rest(a + (front + [c])) == Rest(Rest(a) + (front + [c]))
    ensures Strip(a + (front + [c])) == Strip(a) + Strip(front + [c])
  {
    hide Complete, Rest, Strip;
    LinesSnoc(front, c);
    LinesSnoc(a + front, c);
    LinesSnoc(Rest(a) + front, c);
    assert a + (front + [c]) == a + front + [c];
    assert Rest(a) + (front + [c]) == Rest(a) + front + [c];
  }

  /** Nothing but the newlines is lost between a stream and its lines. */
  lemma {:induction false} LinesKeepBytes(s: bytes)
    ensures Concat(Complete(s)) + Rest(s) == Strip(s)
  {
    if s != [] {
      var front := s[..|s| - 1];
      LinesKeepBytes(front);
      if s[|s| - 1] == NEWLINE { ConcatSnoc(Complete(front), Rest(front)); }
    }
  }

  lemma {:induction false} CompleteArePlain(s: bytes)
    ensures forall i :: 0 <= i < |Complete(s)| ==> NEWLINE !in Complete(s)[i]
  {
    if s != [] { CompleteArePlain(s[..|s| - 1]); }
  }

  /** One more line after a line boundary. */
  lemma LineStep(a: bytes, line: bytes)
    requires Rest(a) == [] && NEWLINE !in line
    ensures Complete(a + line) == Complete(a) && Rest(a + line) == line
    ensures Complete(a + line + [NEWLINE]) == Complete(a) + [line] && Rest(a + line + [NEWLINE]) == []
  {
    hide Complete, Rest, Strip;
    LinesAppend(a, line);
    assert [] + line == line;
    PlainBytes(line);
    LinesSnoc(a + line, NEWLINE);
  }

  // ----- the relay -----

  /** The record bodies that one feed emits, and the buffer it leaves. */
  function Fed(buf: bytes, chunk: bytes): (r: (seq<bytes>, bytes))
    ensures |r.1| <= CHUNK
  {
    var all := buf + chunk;
    if |Rest(all)| > CHUNK then (Complete(all) + [Rest(all)], []) else (Complete(all), Rest(all))
  }

  /** The relay after some feeds: record bodies so far, buffer, and how many lines were cut. */
  datatype Relay = Relay(bodies: seq<bytes>, buf: bytes, cuts: nat)

  /** One feed. */
  function Step(r: Relay, chunk: bytes): Relay {
    var f := Fed(r.buf, chunk);
    Relay(r.bodies + f.0, f.1, r.cuts + if |Rest(r.buf + chunk)| > CHUNK then 1 else 0)
  }

  function Fold(chunks: seq<bytes>): Relay {
    if chunks == [] then Relay([], [], 0)
    else
      var last := |chunks| - 1;
      Step(Fold(chunks[..last]), chunks[last])
  }

  /** The record bodies once the stream has closed. */
  function Flushed(r: Relay): seq<bytes> { r.bodies + NonEmpty(r.buf) }

  lemma FoldSnoc(chunks: seq<bytes>, chunk: bytes)
    ensures Fold(chunks + [chunk]) == Step(Fold(chunks), chunk)
  {
    assert (chunks + [chunk])[..|chunks|] == chunks;
  }

  /** What holds of the relay between any two feeds, whatever the chunks were. */
  ghost predicate RelayInv(r: Relay, stream: bytes) {
    |r.buf| <= CHUNK && Concat(r.bodies) + r.buf == Strip(stream) && LineInv(r, stream)
  }

  /** The buffer ends the stream's unfinished line, and there is one record per line and per cut. */
  ghost predicate LineInv(r: Relay, stream: bytes) {
    && |r.buf| <= |Rest(stream)| && r.buf == Rest(stream)[|Rest(stream)| - |r.buf|..]
    && NEWLINE !in r.buf && (forall i :: 0 <= i < |r.bodies| ==> NEWLINE !in r.bodies[i])
    && |r.bodies| == |Complete(stream)| + r.cuts
    && (r.cuts == 0 ==> r.bodies == Complete(stream) && r.buf == Rest(stream))
    && (r.cuts == 1 && r.buf == [] && Rest(stream) != [] ==> r.bodies == Complete(stream) + [Rest(stream)])
  }

  lemma FeedKeepsInv(r: Relay, stream: bytes, chunk: bytes)
    requires RelayInv(r, stream)
    ensures RelayInv(Step(r, chunk), stream + chunk)
  {
    hide Complete, Rest, Strip, Concat;
    assert NEWLINE !in r.buf;
    hide LineInv;
    LinesAppend(stream, chunk);
    FeedKeepsBytes(r, chunk);
    FeedKeepsLines(r, stream, chunk);
  }

  lemma FeedKeepsLines(r: Relay, stream: bytes, chunk: bytes)
    requires LineInv(r, stream)
    ensures LineInv(Step(r, chunk), stream + chunk)
  {
    hide Complete, Rest, Strip;
    var all := r.buf + chunk;
    var cut := Rest(stream)[..|Rest(stream)| - |r.buf|];
    assert Rest(stream) == cut + r.buf && Rest(stream) + chunk == cut + all;
    LinesAppend(stream, chunk);
    CutPrefix(cut, all);
    CompleteArePlain(all);
    NoLineYet(all);
    if all == [] { assert stream + chunk == stream; }
    if r.cuts == 0 { assert cut == []; }
  }

  lemma FeedKeepsBytes(r: Relay, chunk: bytes)
    requires NEWLINE !in r.buf
    ensures Concat(Step(r, chunk).bodies) + Step(r, chunk).buf == Concat(r.bodies) + r.buf + Strip(chunk)
  {
    hide Complete, Rest, Strip, Concat;
    var all := r.buf + chunk;
    LinesKeepBytes(all);
    LinesAppend(r.buf, chunk);
    PlainBytes(r.buf);
    ConcatAppend(r.bodies, Complete(all));
    ConcatSnoc(r.bodies + Complete(all), Rest(all));
    assert r.bodies + (Complete(all) + [Rest(all)]) == r.bodies + Complete(all) + [Rest(all)];
    var bodies := Concat(r.bodies);
    assert bodies + Concat(Complete(all)) + Rest(all) == bodies + Strip(all) == bodies + (r.buf + Strip(chunk)) by {
      assert bodies + Concat(Complete(all)) + Rest(all) == bodies + (Concat(Complete(all)) + Rest(all));
    }
    assert bodies + (r.buf + Strip(chunk)) == bodies + r.buf + Strip(chunk);
    assert Concat(Step(r, chunk).bodies) + Step(r, chunk).buf == bodies + Concat(Complete(all)) + Rest(all);
  }

  lemma {:induction false} NoLineYet(s: bytes)
    ensures Complete(s) == [] ==> Rest(s) == s
  {
    if s != [] { NoLineYet(s[..|s| - 1]); }
  }

  /** A plain prefix lengthens the first line and changes nothing else. */
  lemma {:induction false} CutPrefix(cut: bytes, s: bytes)
    requires NEWLINE !in cut
    ensures |Complete(cut + s)| == |Complete(s)|
    ensures Complete(s) == [] ==> Rest(cut + s) == cut + Rest(s)
    ensures Complete(s) != [] ==> Rest(cut + s) == Rest(s)
  {
    if s == [] {
      assert cut + s == cut;
      PlainBytes(cut);
    } else {
      assert (cut + s)[..|cut + s| - 1] == cut + s[..|s| - 1];
      CutPrefix(cut, s[..|s| - 1]);
    }
  }

  lemma FoldOneMore(chunks: seq<bytes>, last: bytes)
    requires RelayInv(Fold(chunks), Concat(chunks))
    ensures RelayInv(Fold(chunks + [last]), Concat(chunks + [last]))
  {
    hide Step, RelayInv, Fold, Concat;
    FoldSnoc(chunks, last);
    ConcatSnoc(chunks, last);
    FeedKeepsInv(Fold(chunks), Concat(chunks), last);
  }

  lemma {:induction false} FoldKeepsInv(chunks: seq<bytes>)
    ensures RelayInv(Fold(chunks), Concat(chunks))
  {
    if chunks == [] {
      assert RelayInv(Relay([], [], 0), []);
    } else {
      hide RelayInv, Fold, Concat;
      var front, last := chunks[..|chunks| - 1], chunks[|chunks| - 1];
      assert front + [last] == chunks;
      FoldKeepsInv(front);
      FoldOneMore(front, last);
    }
  }

  /** For every chunking: record bodies followed by the buffer are the stream without its newlines,
      and the buffer stays within 64 KiB. */
  lemma RelayLosesNothing(chunks: seq<bytes>)
    ensures Concat(Fold(chunks).bodies) + Fold(chunks).buf == Strip(Concat(chunks))
    ensures Concat(Flushed(Fold(chunks))) == Strip(Concat(chunks))
    ensures |Fold(chunks).buf| <= CHUNK
  {
    hide Strip, Complete, Rest, Fold;
    var r := Fold(chunks);
    FoldKeepsInv(chunks);
    ConcatAppend(r.bodies, NonEmpty(r.buf));
    assert Concat([r.buf]) == r.buf + Concat([]);
  }

  /** Counting records and lines: they are the same when nothing was cut, or when the one cut took the whole
      unfinished last line. */
  ghost predicate Uncut(r: Relay, stream: bytes) {
    r.cuts == 0 || (r.cuts == 1 && r.buf == [] && Rest(stream) != [])
  }

  lemma UncutIff(chunks: seq<bytes>)
    ensures Flushed(Fold(chunks)) == LinesOf(Concat(chunks)) <==> Uncut(Fold(chunks), Concat(chunks))
  {
    FoldKeepsInv(chunks);
    var r, s := Fold(chunks), Concat(chunks);
    if Flushed(r) == LinesOf(s) { assert |Flushed(r)| == |LinesOf(s)|; }
  }

  /** What is unfinished after the first k chunks. */
  function RestAt(chunks: seq<bytes>, k: nat): bytes
    requires k <= |chunks|
  {
    Rest(Concat(chunks[..k]))
  }

  lemma CutHereIff(front: seq<bytes>, last: bytes)
    ensures Fold(front + [last]).cuts == 0 <==> Fold(front).cuts == 0 && |Rest(Concat(front + [last]))| <= CHUNK
  {
    hide Rest, Concat, Fold;
    FoldKeepsInv(front);
    FoldSnoc(front, last);
    ConcatSnoc(front, last);
    LinesAppend(Concat(front), last);
  }

  lemma {:induction false} NeverCutIff(chunks: seq<bytes>)
    ensures Fold(chunks).cuts == 0 <==> forall k :: 0 <= k <= |chunks| ==> |RestAt(chunks, k)| <= CHUNK
  {
    if chunks == [] {
      assert chunks[..0] == [] && Fold(chunks) == Relay([], [], 0);
    } else {
      var front, last := chunks[..|chunks| - 1], chunks[|chunks| - 1];
      assert front + [last] == chunks && chunks[..|chunks|] == chunks;
      NeverCutIff(front);
      CutHereIff(front, last);
      SameRests(chunks, front);
      assert RestAt(chunks, |chunks|) == Rest(Concat(chunks));
      hide RestAt, Fold;
    }
  }

  lemma SameRests(chunks: seq<bytes>, front: seq<bytes>)
    requires chunks != [] && front == chunks[..|chunks| - 1]
    ensures forall k :: 0 <= k <= |front| ==> RestAt(front, k) == RestAt(chunks, k)
  {
    forall k | 0 <= k <= |front| ensures RestAt(front, k) == RestAt(chunks, k) { assert front[..k] == chunks[..k]; }
  }

  /** At no read boundary with bytes still to come does more than 64 KiB of an unfinished line wait. */
  ghost predicate NoLongLineWaits(chunks: seq<bytes>) {
    forall k :: 0 <= k <= |chunks| && Concat(chunks[k..]) != [] ==> |RestAt(chunks, k)| <= CHUNK
  }

  lemma SuffixSnoc(front: seq<bytes>, last: bytes)
    ensures forall k :: 0 <= k <= |front| ==> Concat((front + [last])[k..]) == Concat(front[k..]) + last
    ensures Concat((front + [last])[|front| + 1..]) == []
  {
    forall k | 0 <= k <= |front| ensures Concat((front + [last])[k..]) == Concat(front[k..]) + last {
      assert (front + [last])[k..] == front[k..] + [last];
      ConcatSnoc(front[k..], last);
    }
  }

  /** An empty read at the end changes neither side. */
  lemma EmptyReadWaits(front: seq<bytes>)
    ensures NoLongLineWaits(front + [[]]) <==> NoLongLineWaits(front)
  {
    var chunks := front + [[]];
    assert front == chunks[..|chunks| - 1];
    SameRests(chunks, front);
    SuffixSnoc(front, []);
    hide RestAt, Concat;
    assert forall k :: 0 <= k <= |front| ==> Concat(chunks[k..]) == Concat(front[k..]);
  }

  lemma EmptyReadUncut(front: seq<bytes>)
    ensures Uncut(Fold(front + [[]]), Concat(front + [[]])) <==> Uncut(Fold(front), Concat(front))
  {
    hide Rest, Complete, Fold, Concat;
    var r := Fold(front);
    FoldSnoc(front, []);
    ConcatSnoc(front, []);
    assert Concat(front) + [] == Concat(front);
    FoldKeepsInv(front);
    assert r.buf + [] == r.buf;
    PlainBytes(r.buf);
  }

  /** A last read with bytes in it: only the boundaries before it count. */
  lemma LastReadWaits(front: seq<bytes>, last: bytes)
    requires last != []
    ensures NoLongLineWaits(front + [last]) <==> Fold(front).cuts == 0
  {
    var chunks := front + [last];
    assert front == chunks[..|chunks| - 1];
    SameRests(chunks, front);
    SuffixSnoc(front, last);
    NeverCutIff(front);
    hide RestAt, Concat, Fold;
    assert forall k :: 0 <= k <= |front| ==> Concat(chunks[k..]) != [];
  }

  lemma LastCut(front: seq<bytes>, last: bytes)
    requires last != []
    ensures Uncut(Fold(front + [last]), Concat(front + [last])) <==> Fold(front).cuts == 0
  {
    hide Rest, Complete, Strip, Fold, Concat;
    FoldKeepsInv(front);
    FoldSnoc(front, last);
    ConcatSnoc(front, last);
    StepUncut(Fold(front), Concat(front), last);
  }

  lemma StepUncut(r: Relay, stream: bytes, last: bytes)
    requires LineInv(r, stream) && last != []
    ensures Uncut(Step(r, last), stream + last) <==> r.cuts == 0
  {
    if r.cuts == 0 {
      assert r.buf == Rest(stream);
      hide Rest, Complete, Strip, LineInv;
      LinesAppend(stream, last);
    } else {
      var cut := Rest(stream)[..|Rest(stream)| - |r.buf|];
      assert Rest(stream) == cut + r.buf;
      hide LineInv;
      CutStaysCut(r, stream, last, cut);
    }
  }

  /** A cut line that then ends, ends outside the buffer: it is not made good. */
  lemma CutStaysCut(r: Relay, stream: bytes, last: bytes, cut: bytes)
    requires r.cuts > 0 && last != [] && Rest(stream) == cut + r.buf && NEWLINE !in cut
    ensures !Uncut(Step(r, last), stream + last)
  {
    hide Rest, Complete, Strip;
    var all := r.buf + last;
    LinesAppend(stream, last);
    assert Rest(stream) + last == cut + all;
    CutPrefix(cut, all);
    NoLineYet(all);
  }

  /** The flushed records are the stream's lines exactly when no unfinished line over 64 KiB waits at a read
      boundary with bytes still to come. */
  lemma RecordsAreLinesIff(chunks: seq<bytes>)
    ensures Flushed(Fold(chunks)) == LinesOf(Concat(chunks)) <==> NoLongLineWaits(chunks)
  {
    UncutIff(chunks);
    WaitsIff(chunks);
  }

  lemma {:induction false} WaitsIff(chunks: seq<bytes>)
    ensures Uncut(Fold(chunks), Concat(chunks)) <==> NoLongLineWaits(chunks)
  {
    hide Rest, RestAt;
    if chunks != [] {
      hide Uncut, Fold, Concat, NoLongLineWaits;
      var front, last := chunks[..|chunks| - 1], chunks[|chunks| - 1];
      assert front + [last] == chunks;
      if last == [] {
        WaitsIff(front);
        EmptyReadWaits(front);
        EmptyReadUncut(front);
      } else {
        LastReadWaits(front, last);
        LastCut(front, last);
      }
    }
  }

  /** No stretch without a newline is longer than 64 KiB. */
  ghost predicate ShortLines(s: bytes) {
    forall lo, hi :: 0 <= lo <= hi <= |s| && NEWLINE !in s[lo..hi] ==> hi - lo <= CHUNK
  }

  lemma ShortLinesOfPrefix(s: bytes, more: bytes)
    requires ShortLines(s + more)
    ensures |Rest(s)| <= CHUNK
  {
    RestIsSuffix(s);
    assert (s + more)[|s| - |Rest(s)|..|s|] == s[|s| - |Rest(s)|..];
  }

  /** When no line exceeds 64 KiB, every chunking gives exactly the stream's lines. */
  lemma ShortLinesAreRecords(chunks: seq<bytes>)
    requires ShortLines(Concat(chunks))
    ensures Flushed(Fold(chunks)) == LinesOf(Concat(chunks))
  {
    hide Rest, Concat, ShortLines, Fold, Flushed, LinesOf;
    RecordsAreLinesIff(chunks);
    forall k | 0 <= k <= |chunks| ensures |RestAt(chunks, k)| <= CHUNK {
      ConcatAppend(chunks[..k], chunks[k..]);
      assert chunks[..k] + chunks[k..] == chunks;
      ShortLinesOfPrefix(Concat(chunks[..k]), Concat(chunks[k..]));
    }
  }

  /** A longer line may be kept or cut: it depends on where the reads fell. */
  lemma LongLineDependsOnChunking(full: bytes, x: byte)
    requires |full| == CHUNK && NEWLINE !in full && x != NEWLINE
    ensures Concat([full, [x], [NEWLINE]]) == Concat([full, [x, NEWLINE]])
    ensures Flushed(Fold([full, [x], [NEWLINE]])) == [full + [x], []]
    ensures Flushed(Fold([full, [x, NEWLINE]])) == [full + [x]]
  {
    ConcatSnoc([full], [x]);
    ConcatSnoc([full, [x]], [NEWLINE]);
    ConcatSnoc([full], [x, NEWLINE]);
    assert [full] + [[x]] == [full, [x]] && [full, [x]] + [[NEWLINE]] == [full, [x], [NEWLINE]];
    assert [full] + [[x, NEWLINE]] == [full, [x, NEWLINE]];
    assert Concat([full]) + [x] + [NEWLINE] == Concat([full]) + [x, NEWLINE];
    hide Concat;
    LongLineCut(full, x);
    LongLineKept(full, x);
  }

  lemma FirstChunk(full: bytes)
    requires |full| <= CHUNK && NEWLINE !in full
    ensures Fold([full]) == Relay([], full, 0)
  {
    hide Complete, Rest;
    PlainBytes(full);
    assert [] + full == full && [] + [full] == [full];
    FoldSnoc([], full);
  }

  lemma LongLineCut(full: bytes, x: byte)
    requires |full| == CHUNK && NEWLINE !in full && x != NEWLINE
    ensures Flushed(Fold([full, [x], [NEWLINE]])) == [full + [x], []]
  {
    hide Complete, Rest, Fold;
    assert [full] + [[x]] == [full, [x]] && [full, [x]] + [[NEWLINE]] == [full, [x], [NEWLINE]];
    FirstChunk(full);
    PlainBytes(full + [x]);
    FoldSnoc([full], [x]);
    assert Fold([full, [x]]) == Relay([full + [x]], [], 1);
    FoldSnoc([full, [x]], [NEWLINE]);
    PlainBytes([]);
    LinesSnoc([], NEWLINE);
    assert [] + [NEWLINE] == [NEWLINE];
  }

  lemma LongLineKept(full: bytes, x: byte)
    requires |full| == CHUNK && NEWLINE !in full && x != NEWLINE
    ensures Flushed(Fold([full, [x, NEWLINE]])) == [full + [x]]
  {
    hide Complete, Rest;
    FirstChunk(full);
    PlainBytes(full + [x]);
    LinesSnoc(full + [x], NEWLINE);
    assert full + [x, NEWLINE] == full + [x] + [NEWLINE];
    FoldSnoc([full], [x, NEWLINE]);
    assert [full] + [[x, NEWLINE]] == [full, [x, NEWLINE]];
  }

  // ----- the log -----

  datatype Stream = Stdout | Stderr

  datatype Record = Record(stream: Stream, body: bytes)

  /** "[out] " or "[err] " */
  function Tag(s: Stream): (t: bytes)
    ensures |t| == 6 && NEWLINE !in t
  {
    match s
    case Stdout => [91, 111, 117, 116, 93, 32]
    case Stderr => [91, 101, 114, 114, 93, 32]
  }

  lemma TagSpells(s: Stream, i: nat)
    requires i < 6
    ensures Tag(s)[i] == (if s.Stdout? then "[out] " else "[err] ")[i] as int
  {
  }

  function Line(r: Record): bytes { Tag(r.stream) + r.body }

  /** The records as emit writes them. */
  function Written(records: seq<Record>): (w: seq<bytes>)
    ensures |w| == |records| && forall i :: 0 <= i < |w| ==> w[i] == Line(records[i]) + [NEWLINE]
  {
    seq(|records|, i requires 0 <= i < |records| => Line(records[i]) + [NEWLINE])
  }

  /** The bytes of the records. */
  function Encoded(records: seq<Record>): bytes { Concat(Written(records)) }

  /** The bodies of one stream's records. */
  function Bodies(records: seq<Record>, s: Stream): seq<bytes> {
    if records == [] then []
    else
      var last := records[|records| - 1];
      Bodies(records[..|records| - 1], s) + if last.stream == s then [last.body] else []
  }

  function Tagged(s: Stream, bodies: seq<bytes>): (records: seq<Record>)
    ensures |records| == |bodies| && forall i :: 0 <= i < |bodies| ==> records[i] == Record(s, bodies[i])
  {
    seq(|bodies|, i requires 0 <= i < |bodies| => Record(s, bodies[i]))
  }

  lemma EncodedAppend(a: seq<Record>, b: seq<Record>)
    ensures Encoded(a + b) == Encoded(a) + Encoded(b)
  {
    hide Concat, Line;
    assert Written(a + b) == Written(a) + Written(b);
    ConcatAppend(Written(a), Written(b));
  }

  lemma EncodedSnoc(records: seq<Record>, r: Record)
    ensures Encoded(records + [r]) == Encoded(records) + (Line(r) + [NEWLINE])
  {
    hide Concat, Line;
    assert Written(records + [r]) == Written(records) + [Line(r) + [NEWLINE]];
    ConcatSnoc(Written(records), Line(r) + [NEWLINE]);
  }

  lemma {:induction false} TaggedBodies(records: seq<Record>, s: Stream, bodies: seq<bytes>, t: Stream)
    ensures Bodies(records + Tagged(s, bodies), t) == Bodies(records, t) + if s == t then bodies else []
  {
    if bodies == [] {
      assert records + Tagged(s, bodies) == records;
    } else {
      var last := |bodies| - 1;
      var all := records + Tagged(s, bodies);
      assert all[..|all| - 1] == records + Tagged(s, bodies[..last]);
      TaggedBodies(records, s, bodies[..last], t);
      assert bodies[..last] + [bodies[last]] == bodies;
    }
  }

  /** The lines of a log that carry the tag of s, without it. */
  function Untagged(lines: seq<bytes>, s: Stream): seq<bytes> {
    if lines == [] then []
    else
      var last := lines[|lines| - 1];
      Untagged(lines[..|lines| - 1], s) + if Tag(s) <= last then [last[6..]] else []
  }

  /** A reader of the log gets back each stream's bodies, in order, from behind what was there before. */
  lemma {:induction false} LogReadsBack(base: bytes, records: seq<Record>, s: Stream)
    requires Rest(base) == [] && forall i :: 0 <= i < |records| ==> NEWLINE !in records[i].body
    ensures Rest(base + Encoded(records)) == []
    ensures Untagged(Complete(base + Encoded(records)), s) == Untagged(Complete(base), s) + Bodies(records, s)
  {
    hide Complete, Rest, Line, Untagged, Encoded;
    if records == [] {
      assert Encoded(records) == [] by { NoRecords(); }
      assert base + Encoded(records) == base;
    } else {
      var before, last := records[..|records| - 1], records[|records| - 1];
      var front := base + Encoded(before);
      LogReadsBack(base, before, s);
      LineTag(last, s);
      EncodedSnoc(before, last);
      assert before + [last] == records;
      LineStep(front, Line(last));
      assert base + Encoded(records) == front + Line(last) + [NEWLINE];
      UntaggedSnoc(Complete(front), Line(last), s);
    }
  }

  lemma NoRecords()
    ensures Encoded([]) == []
  {
  }

  lemma UntaggedSnoc(lines: seq<bytes>, last: bytes, s: Stream)
    ensures Untagged(lines + [last], s) == Untagged(lines, s) + if Tag(s) <= last then [last[6..]] else []
  {
    assert (lines + [last])[..|lines|] == lines;
  }

  lemma LineTag(r: Record, s: Stream)
    ensures Tag(s) <= Line(r) <==> s == r.stream
    ensures Line(r)[6..] == r.body && (NEWLINE !in r.body ==> NEWLINE !in Line(r))
  {
    assert Line(r)[1] == Tag(r.stream)[1];
  }

  /** End to end: a stream relayed into the shared log, in any chunks and interleaved with the other in any way,
      comes back from the log line by line exactly when no long line waited. */
  lemma CapturedLinesReadBack(base: bytes, records: seq<Record>, s: Stream, chunks: seq<bytes>)
    requires Rest(base) == [] && forall i :: 0 <= i < |records| ==> NEWLINE !in records[i].body
    requires Bodies(records, s) == Flushed(Fold(chunks))
    ensures Untagged(Complete(base + Encoded(records)), s) == Untagged(Complete(base), s) + LinesOf(Concat(chunks))
      <==> NoLongLineWaits(chunks)
  {
    hide Untagged, Complete, Encoded, Bodies, Flushed, Fold, LinesOf, Concat, NoLongLineWaits;
    LogReadsBack(base, records, s);
    RecordsAreLinesIff(chunks);
    SamePrefix(Untagged(Complete(base), s), Flushed(Fold(chunks)), LinesOf(Concat(chunks)));
  }

  lemma SamePrefix<T>(prefix: seq<T>, a: seq<T>, b: seq<T>)
    ensures prefix + a == prefix + b <==> a == b
  {
    assert a == (prefix + a)[|prefix|..] && b == (prefix + b)[|prefix|..];
  }
}
