/**
 The event debouncer: file events are merged per path and printed once the path has been
 quiet for 100 ms, or when the watcher exits. The history, a ghost, is what was read and
 printed and when; the methods keep true of it that every line is the fold of its events.
 */
module Debounce {
  import opened Common

  const DEBOUNCE := 100_000_000  // nanoseconds

  datatype Kind = Created | Modified | Deleted

  datatype Flag = InCreate | InModify | InAttrib | InDelete | InMovedFrom | InMovedTo | OtherFlag

  function Classify(mask: set<Flag>): Option<Kind> {
    if InCreate in mask || InMovedTo in mask then Some(Created)
    else if InDelete in mask || InMovedFrom in mask then Some(Deleted)
    else if InModify in mask || InAttrib in mask then Some(Modified)
    else None
  }

  /** Each event the watch asks for, on its own. */
  lemma ClassifyOne(f: Flag)
    ensures Classify({f}) == Some(Created) <==> f.InCreate? || f.InMovedTo?
    ensures Classify({f}) == Some(Deleted) <==> f.InDelete? || f.InMovedFrom?
    ensures Classify({f}) == Some(Modified) <==> f.InModify? || f.InAttrib?
  {
  }

  /** And when one event carries several: a creation outweighs a deletion, and both a modification. */
  lemma ClassifyTogether(a: set<Flag>, b: set<Flag>)
    ensures Classify(a + b) == var x, y := Classify(a), Classify(b);
      if Some(Created) in {x, y} then Some(Created)
      else if Some(Deleted) in {x, y} then Some(Deleted)
      else if Some(Modified) in {x, y} then Some(Modified) else None
  {
  }

  function Merge(old_kind: Option<Kind>, new_kind: Kind): Kind {
    if old_kind == None then new_kind
    else if new_kind == Deleted then Deleted
    else if old_kind.value == Created then Created
    else Modified
  }

  /** The kinds merged in the order they came. */
  function MergeAll(kinds: seq<Kind>): (k: Option<Kind>)
    ensures k == None <==> kinds == []
  {
    if kinds == [] then None else Some(Merge(MergeAll(kinds[..|kinds| - 1]), kinds[|kinds| - 1]))
  }

  lemma MergeSnoc(kinds: seq<Kind>, k: Kind)
    ensures MergeAll(kinds + [k]) == Some(Merge(MergeAll(kinds), k))
  {
    assert (kinds + [k])[..|kinds|] == kinds;
  }

  /** Deleted iff the last event is a deletion; created iff the first is a creation and none is a
      deletion; modified otherwise. */
  lemma {:induction false} MergeMeaning(kinds: seq<Kind>)
    requires kinds != []
    ensures MergeAll(kinds) == Some(Deleted) <==> kinds[|kinds| - 1] == Deleted
    ensures MergeAll(kinds) == Some(Created) <==> kinds[0] == Created && Deleted !in kinds
  {
    if |kinds| > 1 {
      var front, last := kinds[..|kinds| - 1], kinds[|kinds| - 1];
      MergeMeaning(front);
      assert kinds == front + [last];
    } else {
      assert MergeAll(kinds[..0]) == None;
    }
  }

  // ----- histories -----

  datatype Entry =
    | Read(path: bytes, kind: Kind, at: nat)
    | Print(path: bytes, kind: Kind, at: nat, final: bool)

  type History = seq<Entry>

  /** The kinds read for p since p was last printed. */
  function SincePrint(h: History, p: bytes): seq<Kind> {
    if h == [] then []
    else
      var front, e := h[..|h| - 1], h[|h| - 1];
      if e.path != p then SincePrint(front, p)
      else if e.Print? then []
      else SincePrint(front, p) + [e.kind]
  }

  /** When p was last read. */
  function LastRead(h: History, p: bytes): nat {
    if h == [] then 0
    else
      var e := h[|h| - 1];
      if e.path == p && e.Read? then e.at else LastRead(h[..|h| - 1], p)
  }

  /** What may follow h: time goes on, and a line prints the fold of what was read of its path since its
      last line, and before the exit only after 100 ms without a new event. */
  ghost predicate MayFollow(h: History, e: Entry) {
    && (h != [] ==> h[|h| - 1].at <= e.at)
    && (e.Print? ==>
          && MergeAll(SincePrint(h, e.path)) == Some(e.kind)
          && (e.final || LastRead(h, e.path) + DEBOUNCE <= e.at))
  }

  ghost predicate GoodHistory(h: History) {
    h == [] || (GoodHistory(h[..|h| - 1]) && MayFollow(h[..|h| - 1], h[|h| - 1]))
  }

  /** The lines of a history, in order. */
  function Lines(h: History): seq<(Kind, bytes)> {
    if h == [] then []
    else
      var e := h[|h| - 1];
      Lines(h[..|h| - 1]) + if e.Print? then [(e.kind, e.path)] else []
  }

  /** The events of a history, in order. */
  function Reads(h: History): seq<(bytes, Kind)> {
    if h == [] then []
    else
      var e := h[|h| - 1];
      Reads(h[..|h| - 1]) + if e.Read? then [(e.path, e.kind)] else []
  }

  function AfterEntry(kinds: seq<Kind>, e: Entry, p: bytes): seq<Kind> {
    if e.path != p then kinds else if e.Print? then [] else kinds + [e.kind]
  }

  lemma Grow(h: History, e: Entry)
    ensures GoodHistory(h + [e]) <==> GoodHistory(h) && MayFollow(h, e)
    ensures Lines(h + [e]) == Lines(h) + if e.Print? then [(e.kind, e.path)] else []
    ensures Reads(h + [e]) == Reads(h) + if e.Read? then [(e.path, e.kind)] else []
    ensures forall p :: SincePrint(h + [e], p) == AfterEntry(SincePrint(h, p), e, p)
    ensures forall p :: LastRead(h + [e], p) == if e.path == p && e.Read? then e.at else LastRead(h, p)
  {
    assert (h + [e])[..|h|] == h;
  }

  // ----- what a good history means -----

  lemma {:induction false} GoodAt(h: History, i: nat)
    requires GoodHistory(h) && i < |h|
    ensures GoodHistory(h[..i]) && MayFollow(h[..i], h[i])
  {
    if i < |h| - 1 {
      GoodAt(h[..|h| - 1], i);
      assert h[..|h| - 1][..i] == h[..i];
    }
  }

  /** Every printed line says what its path's events since the last line add up to. */
  lemma PrintedKindIsTheFold(h: History, i: nat)
    requires GoodHistory(h) && i < |h| && h[i].Print?
    ensures var kinds := SincePrint(h[..i], h[i].path);
      && kinds != []
      && (h[i].kind == Deleted <==> kinds[|kinds| - 1] == Deleted)
      && (h[i].kind == Created <==> kinds[0] == Created && Deleted !in kinds)
  {
    GoodAt(h, i);
    MergeMeaning(SincePrint(h[..i], h[i].path));
  }

  lemma {:induction false} TimesAscend(h: History, i: nat, j: nat)
    requires GoodHistory(h) && i <= j < |h|
    ensures h[i].at <= h[j].at
  {
    if i < j {
      TimesAscend(h, i, j - 1);
      GoodAt(h, j);
    }
  }

  lemma {:induction false} LastReadIsLast(h: History, i: nat)
    requires GoodHistory(h) && i < |h| && h[i].Read?
    ensures h[i].at <= LastRead(h, h[i].path)
  {
    if i < |h| - 1 {
      var e := h[|h| - 1];
      if e.path == h[i].path && e.Read? {
        TimesAscend(h, i, |h| - 1);
      } else {
        LastReadIsLast(h[..|h| - 1], i);
      }
    }
  }

  /** Two events of a path less than 100 ms apart are never separated by a line before the exit: a burst
      is one line. */
  lemma BurstIsOneLine(h: History, i: nat, k: nat, j: nat)
    requires GoodHistory(h) && i < k < j < |h|
    requires h[i].Read? && h[j].Read? && h[k].Print? && h[i].path == h[j].path == h[k].path
    requires h[j].at < h[i].at + DEBOUNCE
    ensures h[k].final
  {
    GoodAt(h, k);
    assert h[..k][i] == h[i];
    LastReadIsLast(h[..k], i);
    TimesAscend(h, k, j);
  }

  /** A path is printed at most once per event: between two lines for it there is a read. */
  lemma LinesNeedEvents(h: History, i: nat, j: nat)
    requires GoodHistory(h) && i < j < |h| && h[i].Print? && h[j].Print? && h[i].path == h[j].path
    ensures exists k :: i < k < j && h[k].Read? && h[k].path == h[i].path
  {
    GoodAt(h, j);
    if forall k :: i < k < j && h[k].path == h[i].path ==> h[k].Print? {
      NothingSince(h, i, j);
    }
  }

  lemma {:induction false} NothingSince(h: History, i: nat, j: nat)
    requires i < j <= |h| && h[i].Print?
    requires forall k :: i < k < j && h[k].path == h[i].path ==> h[k].Print?
    ensures SincePrint(h[..j], h[i].path) == []
  {
    assert h[..j][..j - 1] == h[..j - 1];
    if i < j - 1 { NothingSince(h, i, j - 1); }
  }

  // ----- the program -----

  datatype Pending = Pending(kind: Kind, due: nat)

  /** pending holds the fold of what was read of p since p was printed, and is due 100 ms after the last. */
  ghost predicate PathOk(h: History, pending: map<bytes, Pending>, p: bytes) {
    && MergeAll(SincePrint(h, p)) == (if p in pending then Some(pending[p].kind) else None)
    && (p in pending ==> pending[p].due == LastRead(h, p) + DEBOUNCE)
  }

  ghost predicate Consistent(h: History, pending: map<bytes, Pending>, printed: seq<(Kind, bytes)>, clock: nat) {
    && GoodHistory(h) && (h != [] ==> h[|h| - 1].at <= clock) && printed == Lines(h)
    && forall p :: PathOk(h, pending, p)
  }

  lemma ReadKeeps(h: History, pending: map<bytes, Pending>, printed: seq<(Kind, bytes)>, now: nat, name: bytes, kind: Kind)
    requires Consistent(h, pending, printed, now)
    ensures var was := if name in pending then Some(pending[name].kind) else None;
      Consistent(h + [Read(name, kind, now)], pending[name := Pending(Merge(was, kind), now + DEBOUNCE)], printed, now)
  {
    hide SincePrint, LastRead, GoodHistory, Lines, MergeAll, Merge;
    Grow(h, Read(name, kind, now));
    MergeSnoc(SincePrint(h, name), kind);
    assert PathOk(h, pending, name);
    var was := if name in pending then Some(pending[name].kind) else None;
    var after := pending[name := Pending(Merge(was, kind), now + DEBOUNCE)];
    forall p ensures PathOk(h + [Read(name, kind, now)], after, p) { assert PathOk(h, pending, p); }
  }

  lemma PrintKeeps(h: History, pending: map<bytes, Pending>, printed: seq<(Kind, bytes)>, now: nat, path: bytes, final: bool)
    requires Consistent(h, pending, printed, now) && path in pending && (final || pending[path].due <= now)
    ensures Consistent(h + [Print(path, pending[path].kind, now, final)], pending - {path}, printed + [(pending[path].kind, path)], now)
  {
    hide SincePrint, LastRead, GoodHistory, Lines, MergeAll;
    var e := Print(path, pending[path].kind, now, final);
    Grow(h, e);
    assert PathOk(h, pending, path);
    forall p ensures PathOk(h + [e], pending - {path}, p) { assert PathOk(h, pending, p); }
  }

  /** With nothing pending, every path read has been printed since. */
  lemma NothingUnprinted(h: History, printed: seq<(Kind, bytes)>, clock: nat)
    requires Consistent(h, map[], printed, clock)
    ensures forall p :: SincePrint(h, p) == []
  {
    forall p ensures SincePrint(h, p) == [] { assert PathOk(h, map[], p); }
  }

  datatype Event = Event(name: bytes, mask: set<Flag>)

  /** The events that count among those the kernel delivered: they have a name and a kind. */
  function Wanted(evs: seq<Event>): seq<(bytes, Kind)> {
    if evs == [] then []
    else
      var ev := evs[|evs| - 1];
      Wanted(evs[..|evs| - 1]) + if ev.name != [] && Classify(ev.mask).Some? then [(ev.name, Classify(ev.mask).value)] else []
  }

  lemma WantedSnoc(evs: seq<Event>, ev: Event)
    ensures Wanted(evs + [ev]) ==
            Wanted(evs) + if ev.name != [] && Classify(ev.mask).Some? then [(ev.name, Classify(ev.mask).value)] else []
  {
    assert (evs + [ev])[..|evs|] == evs;
  }

  datatype Wait = Ready(tokens: seq<Token>) | Interrupted | WaitFailed

  datatype Token = TokInotify | TokTimer | TokSignal

  datatype Exit = Timeout | Signal | Failed

  lemma LeastExists(s: set<bytes>)
    requires s != {}
    ensures exists k :: IsLeast(s, k)
    decreases |s|
  {
    var x :| x in s;
    if s == {x} {
      assert IsLeast(s, x);
    } else {
      LeastExists(s - {x});
      var k :| IsLeast(s - {x}, k);
      LessIsTotal(x, k);
      if Less(x, k) {
        forall j | j in s && j != x ensures Less(x, j) {
          if j != k { LessIsTransitive(x, k, j); }
        }
        assert IsLeast(s, x);
      } else {
        assert IsLeast(s, k);
      }
    }
  }

  predicate IsLeast(s: set<bytes>, k: bytes) { k in s && forall j :: j in s && j != k ==> Less(k, j) }

  class Watcher {
    var pending: map<bytes, Pending>
    var clock: nat
    var printed: seq<(Kind, bytes)>
    var armed: nat                     // when the timer will fire
    var patience: nat                  // how many more turns until a shutdown signal
    ghost var history: History
    ghost var delivered: seq<Event>    // every event read from the kernel
    ghost var fired: nat               // when the timer last fired
    ghost var signalled: bool
    ghost var failures: nat            // epoll_wait calls that failed

    /** pending is the history's unprinted part, and the history is good. */
    ghost predicate Valid() reads this { Consistent(history, pending, printed, clock) }

    /** Every event delivered has been taken. */
    ghost predicate UpToDate() reads this { Reads(history) == Wanted(delivered) }

    /** Nothing that was due when the timer last fired is still pending. */
    ghost predicate NothingOverdue() reads this { forall p :: p in pending ==> fired < pending[p].due }

    constructor (now: nat, patience: nat)
      ensures Valid() && UpToDate() && pending == map[] && printed == [] && history == [] && clock == now
      ensures fired <= now && !signalled && failures == 0
    {
      pending, printed, history, clock := map[], [], [], now;
      delivered, fired, signalled, failures := [], 0, false, 0;
      this.patience := patience;
    }

    // ----- the kernel -----

    /** One read of the inotify queue: some events, or none when it is drained. */
    method ReadEvents() returns (events: seq<Event>)
      modifies this`delivered, this`patience
      ensures delivered == old(delivered) + events && (events == [] || patience < old(patience)) && patience <= old(patience)
    {
      events := [];
      if patience > 0 {
        patience := patience - 1;
        events := *;
      }
      delivered := delivered + events;
    }

    /** epoll_wait: what is ready, an interruption or a failure. The program goes to sleep with nothing overdue. */
    method EpollWait() returns (w: Wait)
      requires Valid() && NothingOverdue() && fired <= clock
      modifies this`clock, this`patience, this`fired, this`signalled, this`failures
      ensures Valid() && old(clock) <= clock && fired <= clock && patience <= old(patience)
      ensures failures == old(failures) + if w.WaitFailed? then 1 else 0
      ensures w.Ready? && TokTimer in w.tokens ==> fired == clock
      ensures !(w.Ready? && TokTimer in w.tokens) ==> fired == old(fired)
      ensures signalled <==> old(signalled) || (w.Ready? && TokSignal in w.tokens)
      ensures w.WaitFailed? || patience < old(patience) || (w.Ready? && w.tokens == [TokSignal])
    {
      var later := Now();
      var tokens: seq<Token>, fails: bool, signal: bool := *, *, *;
      if fails {
        failures := failures + 1;
        return WaitFailed;
      }
      if patience == 0 {
        tokens := [TokSignal];
      } else {
        patience := patience - 1;
        if signal { return Interrupted; }
      }
      if TokTimer in tokens { fired := later; }
      signalled := signalled || TokSignal in tokens;
      w := Ready(tokens);
    }

    // ----- the program -----

    /** The steady clock. */
    method Now() returns (now: nat)
      requires Valid()
      modifies this`clock
      ensures Valid() && old(clock) <= clock == now
    {
      var later: nat, moved: bool := *, *;
      if moved && later > clock { clock := later; }
      now := clock;
    }

    /** One event at time now. Directory events have no name; unclassified masks are skipped. */
    method Take(ev: Event, now: nat)
      requires Valid() && now == clock
      modifies this`pending, this`history
      ensures Valid() && (old(NothingOverdue()) && fired <= now ==> NothingOverdue())
      ensures if ev.name == [] || Classify(ev.mask) == None then history == old(history)
              else history == old(history) + [Read(ev.name, Classify(ev.mask).value, now)]
    {
      if ev.name == [] { return; }
      var kind := Classify(ev.mask);
      if kind == None { return; }
      hide Consistent, Classify, Merge;
      var old_kind := if ev.name in pending then Some(pending[ev.name].kind) else None;
      ReadKeeps(history, pending, printed, now, ev.name, kind.value);
      pending := pending[ev.name := Pending(Merge(old_kind, kind.value), now + DEBOUNCE)];
      history := history + [Read(ev.name, kind.value, now)];
    }

    method PrintOne(path: bytes, now: nat, final: bool)
      requires Valid() && now == clock && path in pending && (final || pending[path].due <= now)
      modifies this`pending, this`printed, this`history
      ensures Valid() && pending == old(pending) - {path} && printed == old(printed) + [(old(pending)[path].kind, path)]
      ensures history == old(history) + [Print(path, old(pending)[path].kind, now, final)] && Reads(history) == Reads(old(history))
    {
      hide Consistent;
      var kind := pending[path].kind;
      Grow(history, Print(path, kind, now, final));
      hide Reads, SincePrint, LastRead, GoodHistory, Lines, MayFollow;
      PrintKeeps(history, pending, printed, now, path, final);
      printed := printed + [(kind, path)];
      history := history + [Print(path, kind, now, final)];
      pending := pending - {path};
    }

    /** flush: print what is due, or everything, in the order of the names. */
    method Flush(now: nat, all: bool)
      requires Valid() && now == clock
      modifies this`pending, this`printed, this`history
      ensures Valid() && Flushed(old(pending), pending, now, all)
      ensures all ==> pending == map[]
      ensures old(history) <= history && old(printed) <= printed && Reads(history) == Reads(old(history))
      ensures var batch := printed[|old(printed)|..];
        && (forall i, j :: 0 <= i < j < |batch| ==> Less(batch[i].1, batch[j].1))
        && (forall p, k :: (k, p) in batch <==> p in old(pending) && p !in pending && k == old(pending)[p].kind)
    {
      hide Consistent, Reads;
      var rest := pending.Keys;
      ghost var batch: seq<(Kind, bytes)> := [];
      while rest != {}
        invariant Valid() && rest <= pending.Keys && printed == old(printed) + batch && old(history) <= history
        invariant Reads(history) == Reads(old(history))
        invariant forall p :: p in pending ==> p in old(pending) && pending[p] == old(pending)[p]
        invariant forall p :: p in old(pending) && p !in rest ==> (p in pending <==> !(all || old(pending)[p].due <= now))
        invariant forall i, p :: 0 <= i < |batch| && p in rest ==> Less(batch[i].1, p)
        invariant forall i, j :: 0 <= i < j < |batch| ==> Less(batch[i].1, batch[j].1)
        invariant forall p, k :: (k, p) in batch <==> p in old(pending) && p !in pending && k == old(pending)[p].kind
        decreases rest
      {
        LeastExists(rest);
        var path :| IsLeast(rest, path);
        rest := rest - {path};
        if all || pending[path].due <= now {
          batch := batch + [(pending[path].kind, path)];
          PrintOne(path, now, all);
        }
      }
    }

    /** The earlier of the deadline and the first due time, and the timer set to it; never to zero, which
        would disarm it. */
    method ArmTimer(deadline: nat)
      requires Valid()
      modifies this`clock, this`armed
      ensures Valid() && old(clock) <= clock
      ensures clock < armed && (armed <= deadline || armed == clock + 1)
      ensures forall p :: p in pending ==> armed <= pending[p].due || armed == clock + 1
      ensures armed == clock + 1 || armed == deadline || exists p :: p in pending && armed == pending[p].due
      ensures clock < deadline && (forall p :: p in pending ==> clock < pending[p].due) ==>
        armed == deadline || exists p :: p in pending && armed == pending[p].due
    {
      var next, rest := deadline, pending.Keys;
      while rest != {}
        invariant rest <= pending.Keys && next <= deadline
        invariant forall p :: p in pending && p !in rest ==> next <= pending[p].due
        invariant next == deadline || exists p :: p in pending && next == pending[p].due
        decreases rest
      {
        var p :| p in rest;
        rest := rest - {p};
        if pending[p].due < next { next := pending[p].due; }
      }
      var now := Now();
      armed := if next <= now then now + 1 else next;
    }

    /** tok_inotify: read until the queue is drained; one clock reading per read. */
    method DrainInotify()
      requires Valid() && UpToDate() && fired <= clock
      modifies this`pending, this`history, this`clock, this`patience, this`delivered
      ensures Valid() && UpToDate() && old(clock) <= clock && patience <= old(patience) && old(history) <= history
      ensures old(NothingOverdue()) ==> NothingOverdue()
    {
      hide Consistent, Reads, Wanted, Classify;
      while true
        invariant Valid() && UpToDate() && old(clock) <= clock && patience <= old(patience) && old(history) <= history
        invariant old(NothingOverdue()) ==> NothingOverdue()
        decreases patience
      {
        ghost var before := delivered;
        var events := ReadEvents();
        assert events == [] ==> delivered == before;
        if events == [] { break; }
        ghost var left := patience;
        var now := Now();
        assert before + events[..0] == before;
        for i := 0 to |events|
          invariant Valid() && clock == now && old(history) <= history && patience == left
          invariant Reads(history) == Wanted(before + events[..i]) && delivered == before + events
          invariant old(NothingOverdue()) ==> NothingOverdue()
        {
          TakeExtends(history, before + events[..i], events[i], now);
          assert before + events[..i] + [events[i]] == before + events[..i + 1];
          Take(events[i], now);
        }
        assert before + events[..|events|] == before + events;
      }
    }

    /** tok_timer: everything at the deadline, and what is due before it. */
    method OnTimer(deadline: nat) returns (done: bool)
      requires Valid() && fired <= clock
      modifies this`pending, this`printed, this`history, this`clock
      ensures Valid() && old(history) <= history && Reads(history) == Reads(old(history)) && old(clock) <= clock
      ensures done <==> deadline <= clock
      ensures NothingOverdue() && (forall p :: p in pending ==> clock < pending[p].due) && (done ==> pending == map[])
    {
      hide Consistent, Reads;
      var now := Now();
      done := now >= deadline;
      Flush(now, done);
    }

    /** What is ready, in the order epoll gives it; Some when the program ends. */
    method Handle(ready: seq<Token>, deadline: nat) returns (exit: Option<Exit>)
      requires Valid() && UpToDate() && fired <= clock && (TokTimer in ready || NothingOverdue())
      modifies this`pending, this`printed, this`history, this`clock, this`patience, this`delivered
      ensures Valid() && UpToDate() && old(clock) <= clock && patience <= old(patience) && old(history) <= history
      ensures exit == None ==> NothingOverdue() && TokSignal !in ready
      ensures exit.Some? ==> pending == map[]
      ensures exit.Some? ==> (exit.value == Timeout && deadline <= clock) || (exit.value == Signal && TokSignal in ready)
    {
      hide Consistent, Reads, Wanted;
      for i := 0 to |ready|
        invariant Valid() && UpToDate() && old(clock) <= clock && patience <= old(patience) && old(history) <= history
        invariant TokSignal !in ready[..i] && (TokTimer in ready[i..] || NothingOverdue())
      {
        match ready[i] {
          case TokInotify => DrainInotify();
          case TokTimer =>
            var done := OnTimer(deadline);
            if done { return Some(Timeout); }
          case TokSignal =>
            var now := Now();
            Flush(now, true);
            return Some(Signal);
        }
      }
      exit := None;
    }

    /** cmd_watch: until the timeout, a signal, or a failing call. */
    method Watch(timeout: nat) returns (exit: Exit)
      requires Valid() && UpToDate() && pending == map[] && fired <= clock && !signalled
      modifies this
      ensures Valid() && UpToDate() && old(history) <= history
      ensures exit != Failed ==> pending == map[] && forall p :: SincePrint(history, p) == []
      ensures exit == Timeout ==> old(clock) + timeout <= clock
      ensures exit == Signal ==> signalled
      ensures failures == old(failures) + if exit == Failed then 1 else 0
    {
      hide Consistent, Reads, Wanted, SincePrint;
      var start := Now();
      var deadline := start + timeout;
      while true
        invariant Valid() && UpToDate() && NothingOverdue() && fired <= clock && failures == old(failures) && !signalled
        invariant old(history) <= history && old(clock) <= start && deadline == start + timeout
        decreases patience
      {
        ArmTimer(deadline);
        var w := EpollWait();
        if w.WaitFailed? { return Failed; }
        if w.Interrupted? { continue; }
        var ended := Handle(w.tokens, deadline);
        if ended.Some? {
          NothingUnprinted(history, printed, clock);
          return ended.value;
        }
      }
    }
  }

  lemma TakeExtends(h: History, evs: seq<Event>, ev: Event, now: nat)
    requires Reads(h) == Wanted(evs)
    ensures Wanted(evs + [ev]) ==
            Reads(if ev.name == [] || Classify(ev.mask) == None then h else h + [Read(ev.name, Classify(ev.mask).value, now)])
  {
    WantedSnoc(evs, ev);
    if ev.name != [] && Classify(ev.mask).Some? { Grow(h, Read(ev.name, Classify(ev.mask).value, now)); }
  }

  /** after is what flush leaves of before. */
  ghost predicate Flushed(before: map<bytes, Pending>, after: map<bytes, Pending>, now: nat, all: bool) {
    && (forall p :: p in after <==> p in before && !(all || before[p].due <= now))
    && (forall p :: p in after ==> after[p] == before[p])
  }
}
