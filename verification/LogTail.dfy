/**
 tail: relay what is appended to the log into a FIFO whose readers come and go. Whatever the
 kernel does, the readers together have been given the log up to the resume offset.
 */
module LogTail {
  import opened Common
  import opened LogLines

  datatype Relay = Moved | Idle | Detached | NoSplice

  datatype Transfer = Took(n: nat) | Interrupted | BrokenPipe | NotSupported | Broken(errno: nat)

  datatype Outcome = Stopped | GaveUp(errno: nat)

  /** The sessions after the one in progress was given b. */
  function Gave(sessions: seq<bytes>, b: bytes): (s: seq<bytes>)
    requires sessions != []
    ensures |s| == |sessions|
  {
    var last := |sessions| - 1;
    sessions[last := sessions[last] + b]
  }

  lemma GaveConcat(sessions: seq<bytes>, b: bytes)
    requires sessions != []
    ensures Concat(Gave(sessions, b)) == Concat(sessions) + b
  {
    var last := |sessions| - 1;
    var front := sessions[..last];
    ConcatSnoc(front, sessions[last]);
    ConcatSnoc(front, sessions[last] + b);
    assert front + [sessions[last]] == sessions;
    assert front + [sessions[last] + b] == Gave(sessions, b);
  }

  lemma GaveTwice(sessions: seq<bytes>, b: bytes, i: nat, n: nat)
    requires sessions != [] && i + n <= |b|
    ensures Gave(Gave(sessions, b[..i]), b[i..][..n]) == Gave(sessions, b[..i + n])
    ensures Gave(sessions, []) == sessions
  {
    var last := sessions[|sessions| - 1];
    assert b[..i] + b[i..][..n] == b[..i + n];
    assert last + b[..i] + b[i..][..n] == last + b[..i + n];
    assert last + [] == last;
  }

  /** The first w bytes of what was read at from, in the log as it is later. */
  lemma PartOfRead(was: bytes, data: bytes, from: nat, buf: bytes, w: nat)
    requires from + |buf| <= |was| && was <= data && was[from..from + |buf|] == buf && w <= |buf|
    ensures data[from..from + w] == buf[..w] && data[..from + w] == data[..from] + buf[..w]
  {
    forall j | 0 <= j < w ensures data[from + j] == buf[j] {
      assert was[from..from + |buf|][j] == was[from + j];
    }
  }

  /** No error, or one that ends the program. */
  function Fatal(t: Transfer): seq<nat> { if t.Broken? then [t.errno] else [] }

  class Tail {
    var data: bytes           // the log file; its writers only append
    var offset: nat           // of the open log descriptor
    var sessions: seq<bytes>  // what the FIFO took during each attachment of a reader
    var useSplice: bool
    var detached: nat         // lines printed for readers that went away
    var patience: nat         // how many more turns until the stop signal
    ghost var failures: seq<nat>  // what system calls failed with, beside the errors that have an answer of their own
    ghost var brokenPipes: nat    // how often a reader was found gone
    ghost var unsupported: nat    // how often splice was refused

    /** The sessions, end to end, are the log up to the offset the next read starts from. */
    ghost predicate Valid() reads this { offset <= |data| && Concat(sessions) == data[..offset] }

    // ----- the kernel -----

    method Grow()
      modifies this`data
      ensures old(data) <= data
    {
      var more: bytes := *;
      data := data + more;
    }

    /** read(2) at the descriptor's offset. */
    method Read(room: nat) returns (r: Result<bytes, Transfer>)
      requires offset <= |data| && room > 0
      modifies this`data, this`offset, this`failures
      ensures old(data) <= data && old(offset) <= offset <= |data|
      ensures r.Ok? ==> |r.value| <= room && offset == old(offset) + |r.value| && r.value == data[old(offset)..offset]
      ensures r.Err? ==> offset == old(offset) && (r.error.Interrupted? || r.error.Broken?)
      ensures failures == old(failures) + if r.Err? then Fatal(r.error) else []
    {
      Grow();
      var n: nat, fails: bool, signal: bool, errno: nat := *, *, *, *;
      if fails {
        failures := failures + [errno];
        r := Err(Broken(errno));
      } else if signal {
        r := Err(Interrupted);
      } else {
        n := if n <= room && n <= |data| - offset then n else 0;
        r := Ok(data[offset..offset + n]);
        offset := offset + n;
      }
    }

    /** write(2) to the FIFO: a nonempty prefix or an error. */
    method Write(b: bytes) returns (r: Transfer)
      requires b != [] && sessions != []
      modifies this`data, this`sessions, this`patience, this`failures, this`brokenPipes
      ensures old(data) <= data
      ensures r.Took? ==> 1 <= r.n <= |b| && sessions == Gave(old(sessions), b[..r.n]) && patience == old(patience)
      ensures !r.Took? ==> sessions == old(sessions) && !r.NotSupported?
      ensures patience <= old(patience) && (r.Interrupted? ==> patience < old(patience))
      ensures failures == old(failures) + Fatal(r) && brokenPipes == old(brokenPipes) + if r.BrokenPipe? then 1 else 0
    {
      Grow();
      var n: nat, signal: bool, gone: bool, errno: nat := *, *, *, *;
      if 1 <= n <= |b| {
        sessions := Gave(sessions, b[..n]);
        r := Took(n);
      } else if signal && patience > 0 {
        patience := patience - 1;
        r := Interrupted;
      } else if gone {
        brokenPipes := brokenPipes + 1;
        r := BrokenPipe;
      } else {
        failures := failures + [errno];
        r := Broken(errno);
      }
    }

    /** splice(2): bytes go from the log to the FIFO and the offset moves with them, or nothing happens. */
    method Splice(room: nat) returns (r: Transfer)
      requires offset <= |data| && room > 0 && sessions != []
      modifies this`data, this`offset, this`sessions, this`failures, this`brokenPipes, this`unsupported
      ensures old(data) <= data && offset <= |data|
      ensures offset == old(offset) + (if r.Took? then r.n else 0)
      ensures sessions == if r.Took? then Gave(old(sessions), data[old(offset)..offset]) else old(sessions)
      ensures failures == old(failures) + Fatal(r) && brokenPipes == old(brokenPipes) + (if r.BrokenPipe? then 1 else 0)
      ensures unsupported == old(unsupported) + if r.NotSupported? then 1 else 0
    {
      Grow();
      var n: nat, e: Transfer := *, *;
      if e.Took? {
        n := if n <= room && n <= |data| - offset then n else 0;
        sessions := Gave(sessions, data[offset..offset + n]);
        offset := offset + n;
        r := Took(n);
      } else {
        r := e;
        failures := failures + Fatal(e);
        if e.BrokenPipe? { brokenPipes := brokenPipes + 1; }
        if e.NotSupported? { unsupported := unsupported + 1; }
      }
    }

    /** One open of the FIFO for writing: a reader is there, or not yet, or the call fails. */
    method Open() returns (r: Transfer)
      modifies this`data, this`sessions, this`failures
      ensures old(data) <= data && (r.Took? || r.Interrupted? || r.Broken?)
      ensures sessions == old(sessions) + (if r.Took? then [[]] else []) && failures == old(failures) + Fatal(r)
    {
      Grow();
      var reader: bool, fails: bool, errno: nat := *, *, *;
      if fails {
        failures := failures + [errno];
        r := Broken(errno);
      } else if reader {
        sessions := sessions + [[]];
        r := Took(0);
      } else {
        r := Interrupted;
      }
    }

    // ----- the program -----

    /** Moved means bytes went; the other answers are those of the one call that was made. */
    method RelaySplice() returns (r: Result<Relay, nat>)
      requires Valid() && sessions != []
      modifies this`data, this`offset, this`sessions, this`failures, this`brokenPipes, this`unsupported
      ensures Valid() && old(data) <= data && old(offset) <= offset
      ensures sessions == Gave(old(sessions), data[old(offset)..offset])
      ensures old(offset) < offset <==> r == Ok(Moved)
      ensures failures == old(failures) + if r.Err? then [r.error] else []
      ensures brokenPipes == old(brokenPipes) + if r == Ok(Detached) then 1 else 0
      ensures unsupported == old(unsupported) + if r == Ok(NoSplice) then 1 else 0
    {
      hide Gave, Concat;
      ghost var was := sessions;
      var t := Splice(CHUNK);
      assert data[..old(offset)] == old(data)[..old(offset)];
      assert data[..offset] == data[..old(offset)] + data[old(offset)..offset];
      GaveConcat(was, data[old(offset)..offset]);
      GaveTwice(was, [], 0, 0);
      assert !t.Took? ==> data[old(offset)..offset] == [];
      match t
      case Took(n) => r := Ok(if n > 0 then Moved else Idle);
      case BrokenPipe => r := Ok(Detached);
      case Interrupted => r := Ok(Idle);
      case NotSupported => r := Ok(NoSplice);
      case Broken(errno) => r := Err(errno);
    }

    /** The write loop of relay_rw: how much of buf the FIFO took, and the error that stopped it. */
    method WriteAll(buf: bytes) returns (written: nat, r: Option<Transfer>)
      requires sessions != []
      modifies this`data, this`sessions, this`patience, this`failures, this`brokenPipes
      ensures written <= |buf| && (r == None ==> written == |buf|) && (r.Some? ==> r.value.BrokenPipe? || r.value.Broken?)
      ensures old(data) <= data && patience <= old(patience) && sessions == Gave(old(sessions), buf[..written])
      ensures failures == old(failures) + if r.Some? then Fatal(r.value) else []
      ensures brokenPipes == old(brokenPipes) + if r == Some(BrokenPipe) then 1 else 0
    {
      hide Gave;
      written := 0;
      GaveTwice(sessions, buf, 0, 0);
      while written < |buf|
        invariant written <= |buf| && old(data) <= data && patience <= old(patience)
        invariant sessions == Gave(old(sessions), buf[..written])
        invariant failures == old(failures) && brokenPipes == old(brokenPipes)
        decreases |buf| - written + patience
      {
        var w := Write(buf[written..]);
        match w {
          case Took(k) =>
            GaveTwice(old(sessions), buf, written, k);
            written := written + k;
          case Interrupted =>
          case _ => return written, Some(w);
        }
      }
      r := None;
    }

    /** The engine without splice. The read has moved the offset over bytes that a failing write leaves behind: it is
        set back to them. */
    method RelayRw() returns (r: Result<Relay, nat>)
      requires Valid() && sessions != []
      modifies this`data, this`offset, this`sessions, this`patience, this`failures, this`brokenPipes
      ensures Valid() && old(data) <= data && old(offset) <= offset && patience <= old(patience)
      ensures sessions == Gave(old(sessions), data[old(offset)..offset])
      ensures r == Ok(Moved) ==> old(offset) < offset
      ensures r == Ok(Idle) ==> old(offset) == offset
      ensures r != Ok(NoSplice)
      ensures failures == old(failures) + if r.Err? then [r.error] else []
      ensures brokenPipes == old(brokenPipes) + if r == Ok(Detached) then 1 else 0
    {
      hide Gave, Concat;
      var before := offset;
      var got := Read(CHUNK);
      assert data[..before] == old(data)[..before];
      GaveTwice(sessions, [], 0, 0);
      if got.Err? || got.value == [] {
        assert data[before..offset] == [];
        return if got.Ok? || got.error.Interrupted? then Ok(Idle) else Err(got.error.errno);
      }
      var buf := got.value;
      ghost var filled := data;
      var written, failure := WriteAll(buf);
      assert data[..before] == filled[..before];
      PartOfRead(filled, data, before, buf, written);
      GaveConcat(old(sessions), buf[..written]);
      if failure.Some? {
        offset := before + written;
        return if failure.value.BrokenPipe? then Ok(Detached) else Err(failure.value.errno);
      }
      r := Ok(Moved);
    }

    /** The g_stop test at the head of a loop. */
    method Stop() returns (stop: bool)
      modifies this`patience
      ensures stop <==> old(patience) == 0
      ensures patience == if stop then 0 else old(patience) - 1
    {
      stop := patience == 0;
      if !stop { patience := patience - 1; }
    }

    /** open_writer: wait for a reader; false when the stop signal comes first. */
    method OpenWriter() returns (r: Result<bool, nat>)
      modifies this`sessions, this`data, this`patience, this`failures
      ensures old(data) <= data && patience <= old(patience)
      ensures sessions == old(sessions) + if r == Ok(true) then [[]] else []
      ensures failures == old(failures) + if r.Err? then [r.error] else []
      ensures r == Ok(false) ==> patience == 0
    {
      while true
        invariant old(data) <= data && patience <= old(patience) && sessions == old(sessions) && failures == old(failures)
        decreases patience
      {
        var stop := Stop();
        if stop { return Ok(false); }
        var t := Open();
        match t {
          case Took(_) => return Ok(true);
          case Broken(errno) => return Err(errno);
          case _ =>
        }
      }
    }

    /** The inner loop: relay to one reader until it detaches, the stop signal comes, or a call fails. */
    method Serve() returns (r: Option<nat>)
      requires Valid() && sessions != []
      modifies this
      ensures Valid() && old(data) <= data && old(offset) <= offset && patience <= old(patience)
      ensures |sessions| == |old(sessions)| && sessions[..|sessions| - 1] == old(sessions)[..|sessions| - 1]
      ensures failures == old(failures) + if r.Some? then [r.value] else []
      ensures detached - old(detached) == brokenPipes - old(brokenPipes) && old(unsupported) <= unsupported
      ensures r == None ==> patience == 0 || brokenPipes == old(brokenPipes) + 1
      ensures useSplice <==> old(useSplice) && unsupported == old(unsupported)
    {
      hide Concat;
      var attached := true;
      while attached
        invariant Valid() && old(data) <= data && old(offset) <= offset && patience <= old(patience)
        invariant |sessions| == |old(sessions)| && sessions[..|sessions| - 1] == old(sessions)[..|sessions| - 1]
        invariant failures == old(failures) && old(unsupported) <= unsupported
        invariant detached - old(detached) == brokenPipes - old(brokenPipes) == (if attached then 0 else 1)
        invariant useSplice <==> old(useSplice) && unsupported == old(unsupported)
        decreases patience, attached
      {
        var stop := Stop();
        if stop { return None; }
        var t: Result<Relay, nat>;
        if useSplice { t := RelaySplice(); } else { t := RelayRw(); }
        if t.Err? {
          return Some(t.error);
        }
        match t.value {
          case Moved =>
          case Idle =>
          case NoSplice => useSplice := false;
          case Detached =>
            detached := detached + 1;
            attached := false;
        }
      }
      r := None;
    }

    /** cmd_tail, from a fresh start to the stop signal or a failing call, over any number of readers. */
    method CmdTail() returns (r: Outcome)
      requires Valid()
      modifies this
      ensures Valid() && old(data) <= data && old(offset) <= offset && old(sessions) <= sessions
      ensures failures == old(failures) + if r.GaveUp? then [r.errno] else []
      ensures r == Stopped ==> patience == 0
      ensures detached - old(detached) == brokenPipes - old(brokenPipes)
      ensures useSplice <==> unsupported == old(unsupported)
    {
      hide Concat;
      useSplice := true;
      while true
        invariant Valid() && old(data) <= data && old(offset) <= offset && old(sessions) <= sessions
        invariant failures == old(failures) && detached - old(detached) == brokenPipes - old(brokenPipes)
        invariant old(unsupported) <= unsupported && (useSplice <==> unsupported == old(unsupported))
        decreases patience
      {
        var stop := Stop();
        if stop { return Stopped; }
        ghost var was, taken := data, sessions;
        var w := OpenWriter();
        assert data[..offset] == was[..offset];
        assert w != Ok(true) ==> sessions == taken;
        if w.Err? {
          return GaveUp(w.error);
        }
        if !w.value { return Stopped; }
        ConcatSnoc(taken, []);
        assert Concat(taken) + [] == Concat(taken);
        var e := Serve();
        assert taken <= sessions;
        if e.Some? {
          return GaveUp(e.value);
        }
      }
    }
  }

  // ----- what the sessions are -----

  /** Each reader is given the part of the log that begins where the last one's ended. */
  lemma SessionsTileTheLog(t: Tail, i: nat)
    requires t.Valid() && i < |t.sessions|
    ensures var from, to := |Concat(t.sessions[..i])|, |Concat(t.sessions[..i + 1])|;
      from <= to <= t.offset <= |t.data| && t.sessions[i] == t.data[from..to]
    ensures i + 1 == |t.sessions| ==> |Concat(t.sessions[..i + 1])| == t.offset
  {
    var sessions, data := t.sessions, t.data;
    ConcatSnoc(sessions[..i], sessions[i]);
    assert sessions[..i] + [sessions[i]] == sessions[..i + 1];
    ConcatAppend(sessions[..i + 1], sessions[i + 1..]);
    assert sessions == sessions[..i + 1] + sessions[i + 1..];
    assert Concat(sessions[..i + 1]) <= data[..t.offset] <= data;
    if i + 1 == |sessions| { assert sessions[..i + 1] == sessions; }
  }

  /** The lines all readers together have complete are the log's first lines, none missing, none twice: exactly
      those that end before the resume offset. */
  lemma ReadersSeeTheFirstLines(t: Tail)
    requires t.Valid()
    ensures Complete(Concat(t.sessions)) == Complete(t.data[..t.offset]) <= Complete(t.data)
  {
    hide Complete, Rest, Concat;
    LinesAppend(t.data[..t.offset], t.data[t.offset..]);
    assert t.data[..t.offset] + t.data[t.offset..] == t.data;
  }
}
