/**
 One serve process and any number of watch processes over one SHKV2 mapping, as a
 state machine. The server stores one byte of a slot per step, a watcher copies one
 byte of its snapshot per step and in any order, and the atomic words are single
 steps, so every torn copy and every race with the futex can happen in a run.
 The pair that update k publishes is a parameter; ShmServe fixes it to the real one.
 */
module ShmProtocol {
  import opened Common
  import opened ShmSlots

  /** parseU64 refuses more updates than this. */
  const MAX_UPDATES := 1_000_000
  const MAX_ATTEMPTS := 1_000_000
  const WORD := 0x1_0000_0000

  /** The key and value that update k publishes. */
  type Pairs = nat -> (bytes, bytes)

  type UpdateCount = n: nat | n <= MAX_UPDATES

  datatype Config = Config(updates: UpdateCount, pairs: Pairs)

  /** The 512 slot bytes as they stand after updates 1..c, each applied whole. */
  function Contents(pairs: Pairs, c: nat): Slots {
    if c == 0 then Zeros(SLOTS_BYTES) else WithSlot(Contents(pairs, c - 1), c, pairs(c).0, pairs(c).1)
  }

  /** The newest update up to c on the ring position of id. */
  function Newest(c: nat, id: nat): (k: nat)
    requires 1 <= id <= c
    ensures id <= k <= c && c - k < SLOT_COUNT && (k - id) % SLOT_COUNT == 0
  {
    c - (c - id) % SLOT_COUNT
  }

  /** Slot-ring law: in the contents after update c, id reads the newest update on its ring position. */
  lemma {:induction false} RingLaw(pairs: Pairs, c: nat, id: nat)
    requires 1 <= id <= c
    ensures SlotAt(Contents(pairs, c), id) == Stored(pairs(Newest(c, id)).0, pairs(Newest(c, id)).1)
  {
    hide SlotAt, WithSlot, Stored;
    ReadAfterWrite(Contents(pairs, c - 1), c, pairs(c).0, pairs(c).1, id);
    SameRing(c, id);
    if (c - id) % SLOT_COUNT != 0 { RingLaw(pairs, c - 1, id); }
  }

  lemma SameRing(c: nat, id: nat)
    requires 1 <= id <= c
    ensures (id - 1) % SLOT_COUNT == (c - 1) % SLOT_COUNT <==> (c - id) % SLOT_COUNT == 0
    ensures (c - id) % SLOT_COUNT != 0 ==> (c - 1 - id) % SLOT_COUNT == (c - id) % SLOT_COUNT - 1
  {
  }

  // ----- the byte stores of writeSlot, one by one -----

  function StoreCount(kv: (bytes, bytes)): nat { SLOT_SIZE + |Truncate(kv.0, KEY_SIZE - 1)| + |Truncate(kv.1, VAL_SIZE - 1)| }

  /** The i-th byte store of writeSlot for update k: where, and what. */
  function StoreAt(k: nat, kv: (bytes, bytes), i: nat): (st: (nat, byte))
    requires k >= 1 && i < StoreCount(kv)
    ensures SlotOffset(k) <= st.0 < SlotOffset(k) + SLOT_SIZE
  {
    var off, key, val := SlotOffset(k), Truncate(kv.0, KEY_SIZE - 1), Truncate(kv.1, VAL_SIZE - 1);
    if i < SLOT_SIZE then (off + i, 0)
    else if i < SLOT_SIZE + |key| then (off + i - SLOT_SIZE, key[i - SLOT_SIZE])
    else (off + KEY_SIZE + i - SLOT_SIZE - |key|, val[i - SLOT_SIZE - |key|])
  }

  /** Slot bytes s after the first i stores of update k. */
  function AfterStores(s: Slots, k: nat, kv: (bytes, bytes), i: nat): Slots
    requires k >= 1 && i <= StoreCount(kv)
  {
    if i == 0 then s else AfterStores(s, k, kv, i - 1)[StoreAt(k, kv, i - 1).0 := StoreAt(k, kv, i - 1).1]
  }

  lemma {:induction false} AfterStoresAt(s: Slots, k: nat, kv: (bytes, bytes), i: nat, a: nat)
    requires k >= 1 && i <= StoreCount(kv) && a < SLOTS_BYTES
    ensures var off, key, val := SlotOffset(k), Truncate(kv.0, KEY_SIZE - 1), Truncate(kv.1, VAL_SIZE - 1);
      AfterStores(s, k, kv, i)[a] ==
      if a < off || off + SLOT_SIZE <= a || i <= a - off then s[a]
      else if a - off < |key| && SLOT_SIZE + (a - off) < i then key[a - off]
      else if a - off >= KEY_SIZE && a - off - KEY_SIZE < |val| && SLOT_SIZE + |key| + (a - off - KEY_SIZE) < i then val[a - off - KEY_SIZE]
      else 0
  {
    if i > 0 { AfterStoresAt(s, k, kv, i - 1, a); }
  }

  /** All the byte stores together write the slot. */
  lemma AllStoresWriteTheSlot(s: Slots, k: nat, kv: (bytes, bytes))
    requires k >= 1
    ensures AfterStores(s, k, kv, StoreCount(kv)) == WithSlot(s, k, kv.0, kv.1)
  {
    var t, u := AfterStores(s, k, kv, StoreCount(kv)), WithSlot(s, k, kv.0, kv.1);
    forall a | 0 <= a < SLOTS_BYTES ensures t[a] == u[a] {
      AfterStoresAt(s, k, kv, StoreCount(kv), a);
    }
  }

  // ----- states and steps -----

  datatype ServerPc = Top | Store(i: nat) | SeqClose | FutexStore | Wake
  /** k counts the finished rounds of the serve loop; away from Top the server works on update k+1. */
  datatype Server = Server(k: nat, pc: ServerPc)
  datatype Shared = Shared(seqWord: nat, futex: nat, counter: nat, slots: Slots)

  datatype WatchPc = Loop | LoadSeq | LoadCounter | Copy | Check | LoadFutex | WaitCall | Asleep | Finished | Failed
  /** attempt counts the looks of one seqlockRead that found the writer at work; expired, that the deadline has
      passed, is history. */
  datatype Watcher = Watcher(pc: WatchPc, events: nat, last: nat, printed: seq<Line>,
                             attempt: nat, s1: nat, snapCounter: nat, snapSlots: Slots, copied: set<nat>, w: nat, expired: bool)

  datatype State = State(sh: Shared, srv: Server, ws: seq<Watcher>)

  /** Serve and Watch run the next instruction of the server or of watcher i; CopyByte copies byte a of
      watcher i's snapshot; Rouse ends its futex wait by timeout or signal; Expire is its deadline passing. */
  datatype Action = Serve | Watch(i: nat) | CopyByte(i: nat, a: nat) | Rouse(i: nat) | Expire(i: nat)

  function NewWatcher(events: nat): Watcher {
    Watcher(Loop, events, 0, [], 0, 0, 0, Zeros(SLOTS_BYTES), {}, 0, false)
  }

  function Init(events: seq<nat>): State {
    State(Shared(0, 0, 0, Zeros(SLOTS_BYTES)), Server(0, Top), seq(|events|, i requires 0 <= i < |events| => NewWatcher(events[i])))
  }

  function ServeStep(c: Config, s: State): State {
    var sh, k, kv := s.sh, s.srv.k, c.pairs(s.srv.k + 1);
    match s.srv.pc
    case Top =>
      if k < c.updates then s.(sh := sh.(seqWord := (sh.seqWord + 1) % WORD), srv := Server(k, Store(0))) else s
    case Store(i) =>
      if i < StoreCount(kv) then
        s.(sh := sh.(slots := sh.slots[StoreAt(k + 1, kv, i).0 := StoreAt(k + 1, kv, i).1]), srv := Server(k, Store(i + 1)))
      else s.(sh := sh.(counter := k + 1), srv := Server(k, SeqClose))
    case SeqClose => s.(sh := sh.(seqWord := (sh.seqWord + 1) % WORD), srv := Server(k, FutexStore))
    case FutexStore => s.(sh := sh.(futex := (k + 1) % WORD), srv := Server(k, Wake))
    case Wake =>
      s.(srv := Server(k + 1, Top), ws := seq(|s.ws|, i requires 0 <= i < |s.ws| => Woken(s.ws[i])))
  }

  /** FUTEX_WAKE and a wait that ends early do the same to the sleeper: it looks again. */
  function Woken(w: Watcher): Watcher { if w.pc.Asleep? then w.(pc := Loop) else w }

  predicate AllCopied(w: Watcher) { forall a :: 0 <= a < SLOTS_BYTES ==> a in w.copied }

  function WatchStep(sh: Shared, w: Watcher): Watcher {
    match w.pc
    case Loop => if |w.printed| < w.events then w.(pc := LoadSeq, attempt := 0) else w.(pc := Finished)
    case LoadSeq =>
      if w.attempt >= MAX_ATTEMPTS then w.(pc := Failed)
      else if sh.seqWord % 2 != 0 then w.(attempt := w.attempt + 1)
      else w.(s1 := sh.seqWord, pc := LoadCounter)
    case LoadCounter => w.(snapCounter := sh.counter, copied := {}, pc := Copy)
    case Copy =>
      if !AllCopied(w) then w
      else if sh.seqWord == w.s1 then w.(pc := Check)
      else w.(attempt := w.attempt + 1, pc := LoadSeq)
    case Check =>
      if w.snapCounter > w.last then
        var room := if |w.printed| < w.events then w.events - |w.printed| else 0;
        w.(printed := w.printed + Backfill(w.snapSlots, w.last + 1, w.snapCounter, room), last := w.snapCounter, pc := Loop)
      else w.(pc := LoadFutex)
    case LoadFutex => if sh.futex != w.last % WORD then w.(pc := Loop) else w.(w := sh.futex, pc := WaitCall)
    case WaitCall => if sh.futex == w.w then w.(pc := Asleep) else w.(pc := Loop)
    case Asleep => w
    case Finished => w
    case Failed => w
  }

  function CopyStep(sh: Shared, w: Watcher, a: nat): Watcher {
    if w.pc.Copy? && a < SLOTS_BYTES && a !in w.copied then
      w.(copied := w.copied + {a}, snapSlots := w.snapSlots[a := sh.slots[a]])
    else w
  }

  function ExpireStep(w: Watcher): Watcher {
    if w.pc.Loop? && |w.printed| < w.events then w.(pc := Failed, expired := true) else w
  }

  function SetWatcher(s: State, i: nat, w: Watcher): State { if i < |s.ws| then s.(ws := s.ws[i := w]) else s }

  /** One step of the system; an action that is not enabled changes nothing. */
  function Step(c: Config, s: State, a: Action): State {
    match a
    case Serve => ServeStep(c, s)
    case Watch(i) => if i < |s.ws| then SetWatcher(s, i, WatchStep(s.sh, s.ws[i])) else s
    case CopyByte(i, j) => if i < |s.ws| then SetWatcher(s, i, CopyStep(s.sh, s.ws[i], j)) else s
    case Rouse(i) => if i < |s.ws| then SetWatcher(s, i, Woken(s.ws[i])) else s
    case Expire(i) => if i < |s.ws| then SetWatcher(s, i, ExpireStep(s.ws[i])) else s
  }

  /** The state after a schedule: any finite sequence of actions, in any order. */
  function Run(c: Config, s: State, schedule: seq<Action>): State
    decreases |schedule|
  {
    if schedule == [] then s else Run(c, Step(c, s, schedule[0]), schedule[1..])
  }

  ghost predicate Reachable(c: Config, events: seq<nat>, s: State) {
    exists schedule :: s == Run(c, Init(events), schedule)
  }

  // ----- the inductive invariant -----

  ghost predicate ServerInv(c: Config, sh: Shared, srv: Server) {
    var k, kv := srv.k, c.pairs(srv.k + 1);
    k <= c.updates && (!srv.pc.Top? ==> k < c.updates) &&
    match srv.pc
    case Top => sh == Shared(2 * k, k, k, Contents(c.pairs, k))
    case Store(i) => i <= StoreCount(kv) && sh == Shared(2 * k + 1, k, k, AfterStores(Contents(c.pairs, k), k + 1, kv, i))
    case SeqClose => sh == Shared(2 * k + 1, k, k + 1, Contents(c.pairs, k + 1))
    case FutexStore => sh == Shared(2 * k + 2, k, k + 1, Contents(c.pairs, k + 1))
    case Wake => sh == Shared(2 * k + 2, k + 1, k + 1, Contents(c.pairs, k + 1))
  }

  /** A line for id l.id shows the newest update on its ring position at the snapshot it was read from. */
  ghost predicate LineOk(pairs: Pairs, l: Line) {
    1 <= l.id <= l.snap && (l.key, l.val) == Stored(pairs(Newest(l.snap, l.id)).0, pairs(Newest(l.snap, l.id)).1)
  }

  ghost predicate Busy(pc: WatchPc) { !pc.Loop? && !pc.Finished? && !pc.Failed? }

  ghost predicate WatcherInv(c: Config, sh: Shared, srv: Server, w: Watcher) {
    && w.last <= sh.counter
    && |w.printed| == (if w.last < w.events then w.last else w.events)
    && (forall j :: 0 <= j < |w.printed| ==> w.printed[j].id == j + 1 && w.printed[j].snap <= w.last && LineOk(c.pairs, w.printed[j]))
    && (w.pc.LoadCounter? || w.pc.Copy? ==> w.s1 % 2 == 0 && w.s1 <= sh.seqWord)
    && (w.pc.Copy? && w.s1 == sh.seqWord ==>
         w.snapCounter == w.s1 / 2 && forall a :: a in w.copied && 0 <= a < SLOTS_BYTES ==> w.snapSlots[a] == Contents(c.pairs, w.s1 / 2)[a])
    && (w.pc.Check? ==> w.s1 % 2 == 0 && w.snapCounter == w.s1 / 2 <= sh.counter && w.snapSlots == Contents(c.pairs, w.snapCounter))
    && (w.pc.Asleep? ==> w.last == srv.k || (srv.pc.Wake? && w.last == srv.k + 1))
    && (w.pc.WaitCall? ==> w.w == w.last)
    && (Busy(w.pc) ==> |w.printed| < w.events)
    && (w.pc.Finished? ==> |w.printed| == w.events)
    && (w.pc.Failed? ==> w.expired || w.attempt >= MAX_ATTEMPTS)
  }

  ghost predicate Inv(c: Config, s: State) {
    && ServerInv(c, s.sh, s.srv)
    && forall i :: 0 <= i < |s.ws| ==> WatcherInv(c, s.sh, s.srv, s.ws[i])
  }

  lemma InitInv(c: Config, events: seq<nat>)
    ensures Inv(c, Init(events))
  {
  }

  lemma ServeKeepsServer(c: Config, s: State)
    requires Inv(c, s)
    ensures ServerInv(c, ServeStep(c, s).sh, ServeStep(c, s).srv)
  {
    hide StoreAt, StoreCount, WatcherInv, WithSlot;
    var k := s.srv.k;
    match s.srv.pc
    case Store(i) => if i == StoreCount(c.pairs(k + 1)) { AllStoresWriteTheSlot(Contents(c.pairs, k), k + 1, c.pairs(k + 1)); }
    case _ =>
  }

  lemma ServeKeepsWatcher(c: Config, s: State, i: nat)
    requires Inv(c, s) && i < |s.ws|
    ensures WatcherInv(c, ServeStep(c, s).sh, ServeStep(c, s).srv, ServeStep(c, s).ws[i])
  {
    hide Contents, StoreAt, StoreCount, AfterStores, LineOk;
    assert WatcherInv(c, s.sh, s.srv, s.ws[i]);
  }

  lemma ServeKeepsInv(c: Config, s: State)
    requires Inv(c, s)
    ensures Inv(c, ServeStep(c, s))
  {
    assert |ServeStep(c, s).ws| == |s.ws| by { hide Contents, StoreAt, StoreCount, WatcherInv; }
    hide ServeStep, ServerInv, WatcherInv;
    var t := ServeStep(c, s);
    ServeKeepsServer(c, s);
    forall i | 0 <= i < |t.ws| ensures WatcherInv(c, t.sh, t.srv, t.ws[i]) {
      ServeKeepsWatcher(c, s, i);
    }
  }

  /** The last look at the sequence word: only a snapshot of an untouched page passes. */
  lemma CopyKeepsWatcher(c: Config, s: State, i: nat)
    requires Inv(c, s) && i < |s.ws| && s.ws[i].pc.Copy?
    ensures WatcherInv(c, s.sh, s.srv, WatchStep(s.sh, s.ws[i]))
  {
    hide Contents, StoreAt, StoreCount, AfterStores, LineOk;
    var w := s.ws[i];
    if AllCopied(w) && s.sh.seqWord == w.s1 {
      assert w.snapSlots == Contents(c.pairs, w.s1 / 2);
    }
  }

  /** Printing from a whole snapshot. */
  lemma CheckKeepsWatcher(c: Config, s: State, i: nat)
    requires Inv(c, s) && i < |s.ws| && s.ws[i].pc.Check?
    ensures WatcherInv(c, s.sh, s.srv, WatchStep(s.sh, s.ws[i]))
  {
    hide Contents, StoreAt, StoreCount, AfterStores, SlotAt, Stored;
    var w, snap := s.ws[i], s.ws[i].snapCounter;
    if snap > w.last {
      forall id | w.last + 1 <= id <= snap
        ensures LineOk(c.pairs, Line(id, SlotAt(w.snapSlots, id).0, SlotAt(w.snapSlots, id).1, snap))
      {
        RingLaw(c.pairs, snap, id);
      }
      hide LineOk, ServerInv;
    }
  }

  lemma WaitKeepsWatcher(c: Config, s: State, i: nat)
    requires Inv(c, s) && i < |s.ws| && (s.ws[i].pc.LoadFutex? || s.ws[i].pc.WaitCall?)
    ensures WatcherInv(c, s.sh, s.srv, WatchStep(s.sh, s.ws[i]))
  {
    hide Contents, StoreAt, StoreCount, AfterStores, LineOk, Backfill;
  }

  lemma LooksKeepWatcher(c: Config, s: State, i: nat)
    requires Inv(c, s) && i < |s.ws|
    requires !s.ws[i].pc.Copy? && !s.ws[i].pc.Check? && !s.ws[i].pc.LoadFutex? && !s.ws[i].pc.WaitCall?
    ensures WatcherInv(c, s.sh, s.srv, WatchStep(s.sh, s.ws[i]))
  {
    hide Contents, StoreAt, StoreCount, AfterStores, LineOk, Backfill;
    assert WatcherInv(c, s.sh, s.srv, s.ws[i]);
    assert s.ws[i].pc.LoadCounter? ==> (s.ws[i].s1 == s.sh.seqWord ==> s.sh.counter == s.ws[i].s1 / 2);
    hide ServerInv;
  }

  lemma WatchKeepsWatcher(c: Config, s: State, i: nat)
    requires Inv(c, s) && i < |s.ws|
    ensures WatcherInv(c, s.sh, s.srv, WatchStep(s.sh, s.ws[i]))
  {
    hide Inv, WatcherInv, WatchStep;
    if s.ws[i].pc.Copy? {
      CopyKeepsWatcher(c, s, i);
    } else if s.ws[i].pc.Check? {
      CheckKeepsWatcher(c, s, i);
    } else if s.ws[i].pc.LoadFutex? || s.ws[i].pc.WaitCall? {
      WaitKeepsWatcher(c, s, i);
    } else {
      LooksKeepWatcher(c, s, i);
    }
  }

  lemma OtherStepsKeepWatcher(c: Config, s: State, i: nat, j: nat)
    requires Inv(c, s) && i < |s.ws|
    ensures WatcherInv(c, s.sh, s.srv, CopyStep(s.sh, s.ws[i], j))
    ensures WatcherInv(c, s.sh, s.srv, Woken(s.ws[i])) && WatcherInv(c, s.sh, s.srv, ExpireStep(s.ws[i]))
  {
    hide Contents, StoreAt, StoreCount, AfterStores, LineOk;
  }

  /** A step that touches only watcher i keeps the invariant when that watcher's part holds again. */
  lemma OtherWatchersKept(c: Config, s: State, i: nat, w: Watcher)
    requires Inv(c, s) && i < |s.ws| && WatcherInv(c, s.sh, s.srv, w)
    ensures Inv(c, SetWatcher(s, i, w))
  {
    hide ServerInv, WatcherInv;
  }

  /** Every step of every process keeps the invariant. */
  lemma StepKeepsInv(c: Config, s: State, a: Action)
    requires Inv(c, s)
    ensures Inv(c, Step(c, s, a))
  {
    hide Inv, WatchStep, ServeStep, CopyStep, ExpireStep, Woken, WatcherInv, SetWatcher;
    match a
    case Serve => ServeKeepsInv(c, s);
    case Watch(i) => if i < |s.ws| { WatchKeepsWatcher(c, s, i); OtherWatchersKept(c, s, i, WatchStep(s.sh, s.ws[i])); }
    case CopyByte(i, j) => if i < |s.ws| { OtherStepsKeepWatcher(c, s, i, j); OtherWatchersKept(c, s, i, CopyStep(s.sh, s.ws[i], j)); }
    case Rouse(i) => if i < |s.ws| { OtherStepsKeepWatcher(c, s, i, 0); OtherWatchersKept(c, s, i, Woken(s.ws[i])); }
    case Expire(i) => if i < |s.ws| { OtherStepsKeepWatcher(c, s, i, 0); OtherWatchersKept(c, s, i, ExpireStep(s.ws[i])); }
  }

  lemma {:induction false} RunKeepsInv(c: Config, s: State, schedule: seq<Action>)
    requires Inv(c, s)
    ensures Inv(c, Run(c, s, schedule))
    decreases |schedule|
  {
    hide Inv, Step;
    if schedule != [] {
      StepKeepsInv(c, s, schedule[0]);
      RunKeepsInv(c, Step(c, s, schedule[0]), schedule[1..]);
    }
  }

  lemma ReachableInv(c: Config, events: seq<nat>, s: State)
    requires Reachable(c, events, s)
    ensures ServerInv(c, s.sh, s.srv)
    ensures forall i :: 0 <= i < |s.ws| ==> WatcherInv(c, s.sh, s.srv, s.ws[i])
  {
    hide Step, ServerInv, WatcherInv;
    var schedule :| s == Run(c, Init(events), schedule);
    InitInv(c, events);
    RunKeepsInv(c, Init(events), schedule);
  }

  // ----- what holds in every run -----

  /** A snapshot that seqlockRead returns is the counter and all 512 bytes as they stood after one
      whole update, the one half the sequence word names; and the sequence word never wraps. */
  lemma SnapshotIsAtomic(c: Config, events: seq<nat>, s: State, i: nat)
    requires Reachable(c, events, s) && i < |s.ws| && s.ws[i].pc.Check?
    ensures s.ws[i].snapCounter == s.ws[i].s1 / 2 <= s.sh.counter
    ensures s.ws[i].snapSlots == Contents(c.pairs, s.ws[i].snapCounter)
    ensures s.sh.seqWord <= 2 * c.updates < WORD
  {
    hide Contents, AfterStores, LineOk, Run;
    ReachableInv(c, events, s);
  }

  /** While a watcher sleeps on data it has not seen, the server still owes the wake for that update:
      it never gets back to the top of its loop, or to its end, past such a sleeper. */
  lemma NoLostWakeup(c: Config, events: seq<nat>, s: State, i: nat)
    requires Reachable(c, events, s) && i < |s.ws| && s.ws[i].pc.Asleep?
    ensures s.sh.counter > s.ws[i].last ==> s.srv.pc.SeqClose? || s.srv.pc.FutexStore? || s.srv.pc.Wake?
    ensures s.srv.pc.Top? ==> s.ws[i].last == s.sh.counter
  {
    hide Contents, AfterStores, LineOk, Run;
    ReachableInv(c, events, s);
  }

  /** After the last update a watcher sleeps only when it has printed every update and wants more. */
  lemma SleepersAreCaughtUp(c: Config, events: seq<nat>, s: State, i: nat)
    requires Reachable(c, events, s) && i < |s.ws| && s.ws[i].pc.Asleep?
    requires s.srv == Server(c.updates, Top)
    ensures |s.ws[i].printed| == c.updates < s.ws[i].events
  {
    hide Contents, AfterStores, LineOk, Run;
    ReachableInv(c, events, s);
  }

  /** watch prints ids 1, 2, 3, ... with no gap and no repeat, and each line shows the newest update on
      its ring position at the snapshot it came from. */
  lemma PrintedInOrder(c: Config, events: seq<nat>, s: State, i: nat, j: nat)
    requires Reachable(c, events, s) && i < |s.ws| && j < |s.ws[i].printed|
    ensures var l := s.ws[i].printed[j];
      l.id == j + 1 <= l.snap <= s.sh.counter <= c.updates &&
      (l.key, l.val) == Stored(c.pairs(Newest(l.snap, l.id)).0, c.pairs(Newest(l.snap, l.id)).1)
  {
    hide Contents, AfterStores, Run;
    ReachableInv(c, events, s);
  }

  // ----- schedules that let one process run alone -----

  lemma {:induction false} RunAppend(c: Config, s: State, a: seq<Action>, b: seq<Action>)
    ensures Run(c, s, a + b) == Run(c, Run(c, s, a), b)
    decreases |a|
  {
    hide Step;
    if a == [] {
      assert a + b == b;
    } else {
      assert (a + b)[1..] == a[1..] + b;
      RunAppend(c, Step(c, s, a[0]), a[1..], b);
    }
  }

  lemma RunCons(c: Config, s: State, a: Action, rest: seq<Action>)
    ensures Run(c, s, [a] + rest) == Run(c, Step(c, s, a), rest)
  {
    hide Step;
    assert ([a] + rest)[1..] == rest;
  }

  ghost function StoresLeft(c: Config, srv: Server): int {
    match srv.pc
    case Top => StoreCount(c.pairs(srv.k + 1)) + 5
    case Store(i) => if i < StoreCount(c.pairs(srv.k + 1)) then StoreCount(c.pairs(srv.k + 1)) - i + 4 else 4
    case SeqClose => 3
    case FutexStore => 2
    case Wake => 1
  }

  /** Left alone, the server finishes the round it is in. */
  lemma {:induction false} ServeAlone(c: Config, s: State) returns (schedule: seq<Action>)
    requires s.srv.k < c.updates && forall i :: 0 <= i < |s.ws| ==> !s.ws[i].pc.Asleep?
    ensures Run(c, s, schedule).srv == Server(s.srv.k + 1, Top) && Run(c, s, schedule).ws == s.ws
    decreases StoresLeft(c, s.srv)
  {
    hide StoreCount, StoreAt;
    var t := Step(c, s, Serve);
    assert t.ws == s.ws;
    schedule := [];
    if !s.srv.pc.Wake? {
      schedule := ServeAlone(c, t);
    }
    RunCons(c, s, Serve, schedule);
    schedule := [Serve] + schedule;
  }

  lemma {:induction false} ServeRounds(c: Config, s: State, n: nat) returns (schedule: seq<Action>)
    requires s.srv.pc.Top? && s.srv.k + n <= c.updates && forall i :: 0 <= i < |s.ws| ==> !s.ws[i].pc.Asleep?
    ensures Run(c, s, schedule).srv == Server(s.srv.k + n, Top) && Run(c, s, schedule).ws == s.ws
    decreases n
  {
    schedule := [];
    if n > 0 {
      var first := ServeAlone(c, s);
      var rest := ServeRounds(c, Run(c, s, first), n - 1);
      RunAppend(c, s, first, rest);
      schedule := first + rest;
    }
  }

  // ----- a watcher against a server that is not writing -----

  predicate OwnAction(a: Action, i: nat) { a == Watch(i) || (a.CopyByte? && a.i == i) }

  /** t comes from s by actions of watcher i alone. */
  ghost predicate Alone(c: Config, s: State, i: nat, t: State) {
    exists schedule: seq<Action> ::
      t == Run(c, s, schedule) && forall n :: 0 <= n < |schedule| ==> OwnAction(schedule[n], i)
  }

  lemma AloneSelf(c: Config, s: State, i: nat)
    ensures Alone(c, s, i, s)
  {
    assert s == Run(c, s, []);
  }

  lemma AloneThen(c: Config, s: State, i: nat, t: State, a: Action) returns (u: State)
    requires Alone(c, s, i, t) && OwnAction(a, i)
    ensures u == Step(c, t, a) && Alone(c, s, i, u)
  {
    u := Step(c, t, a);
    assert Run(c, t, [a]) == u by { assert Run(c, u, []) == u; assert [a][1..] == []; }
    hide Run, Step;
    var schedule: seq<Action> :| t == Run(c, s, schedule) && forall n :: 0 <= n < |schedule| ==> OwnAction(schedule[n], i);
    RunAppend(c, s, schedule, [a]);
    assert forall n :: 0 <= n < |schedule + [a]| ==> OwnAction((schedule + [a])[n], i);
  }

  lemma ReachableAlone(c: Config, events: seq<nat>, s: State, i: nat, t: State)
    requires Reachable(c, events, s) && Alone(c, s, i, t)
    ensures Reachable(c, events, t)
  {
    hide Run;
    var a :| s == Run(c, Init(events), a);
    var b: seq<Action> :| t == Run(c, s, b) && forall n :: 0 <= n < |b| ==> OwnAction(b[n], i);
    RunAppend(c, Init(events), a, b);
  }

  /** u is t with only the snapshot of watcher i further on. */
  ghost predicate OnlyReads(t: State, u: State, i: nat) {
    && u.sh == t.sh && u.srv == t.srv && |u.ws| == |t.ws| && i < |t.ws|
    && u.ws[i].last == t.ws[i].last && u.ws[i].printed == t.ws[i].printed && u.ws[i].events == t.ws[i].events
  }

  /** The bytes of the snapshot that are still missing from byte j on. */
  lemma {:induction false} CopyAlone(c: Config, s: State, i: nat, t: State, j: nat) returns (u: State)
    requires Alone(c, s, i, t) && i < |t.ws| && t.ws[i].pc.Copy? && j <= SLOTS_BYTES
    requires forall a :: 0 <= a < j ==> a in t.ws[i].copied
    ensures Alone(c, s, i, u) && OnlyReads(t, u, i) && AllCopied(u.ws[i]) && u.ws[i].pc.Copy?
    ensures u.ws[i].s1 == t.ws[i].s1 && u.ws[i].snapCounter == t.ws[i].snapCounter && u.ws[i].attempt == t.ws[i].attempt
    decreases SLOTS_BYTES - j
  {
    hide Alone;
    u := t;
    if j < SLOTS_BYTES {
      u := AloneThen(c, s, i, t, CopyByte(i, j));
      u := CopyAlone(c, s, i, u, j + 1);
    }
  }

  /** One look at a sequence word that stays even gives the current snapshot. */
  lemma SnapshotAlone(c: Config, s: State, i: nat, t: State) returns (u: State)
    requires Alone(c, s, i, t) && i < |t.ws| && t.ws[i].pc.LoadSeq? && t.sh.seqWord % 2 == 0 && t.ws[i].attempt < MAX_ATTEMPTS
    ensures Alone(c, s, i, u) && OnlyReads(t, u, i) && u.ws[i].pc.Check? && u.ws[i].snapCounter == t.sh.counter
  {
    hide Alone, AllCopied;
    u := AloneThen(c, s, i, t, Watch(i));
    u := AloneThen(c, s, i, u, Watch(i));
    u := CopyAlone(c, s, i, u, 0);
    u := AloneThen(c, s, i, u, Watch(i));
  }

  /** A collision is only retried: from anywhere inside seqlockRead, with whatever was loaded and copied before, and
      two looks left, a watcher that runs while the server is not writing gets the current snapshot. */
  lemma RetrySucceeds(c: Config, events: seq<nat>, s: State, i: nat) returns (u: State)
    requires Reachable(c, events, s) && i < |s.ws| && (s.ws[i].pc.LoadSeq? || s.ws[i].pc.LoadCounter? || s.ws[i].pc.Copy?)
    requires s.sh.seqWord % 2 == 0 && s.ws[i].attempt < MAX_ATTEMPTS - 1
    ensures Alone(c, s, i, u) && OnlyReads(s, u, i) && u.ws[i].pc.Check?
    ensures u.ws[i].snapCounter == s.sh.counter && u.ws[i].snapSlots == Contents(c.pairs, s.sh.counter)
  {
    hide Run, Alone, Reachable, Contents, AllCopied, LineOk, AfterStores;
    ReachableInv(c, events, s);
    assert s.sh.counter == s.sh.seqWord / 2 && WatcherInv(c, s.sh, s.srv, s.ws[i]);
    hide ServerInv, WatcherInv;
    AloneSelf(c, s, i);
    u := FinishLook(c, s, i);
    if !u.ws[i].pc.Check? {
      u := SnapshotAlone(c, s, i, u);
    }
    ReachableAlone(c, events, s, i, u);
    SnapshotIsAtomic(c, events, u, i);
  }

  /** The look in progress ends in a good snapshot, or in another look. */
  lemma FinishLook(c: Config, s: State, i: nat) returns (u: State)
    requires i < |s.ws| && (s.ws[i].pc.LoadSeq? || s.ws[i].pc.LoadCounter? || s.ws[i].pc.Copy?)
    requires s.ws[i].pc.Copy? && s.ws[i].s1 == s.sh.seqWord ==> s.ws[i].snapCounter == s.sh.counter
    requires s.ws[i].attempt < MAX_ATTEMPTS - 1
    ensures Alone(c, s, i, u) && OnlyReads(s, u, i)
    ensures (u.ws[i].pc.Check? && u.ws[i].snapCounter == s.sh.counter) || (u.ws[i].pc.LoadSeq? && u.ws[i].attempt < MAX_ATTEMPTS)
  {
    AloneSelf(c, s, i);
    hide Alone, AllCopied;
    u := s;
    if u.ws[i].pc.LoadCounter? {
      u := AloneThen(c, s, i, u, Watch(i));
    }
    if u.ws[i].pc.Copy? {
      u := CopyAlone(c, s, i, u, 0);
      u := AloneThen(c, s, i, u, Watch(i));
    }
  }

  /** A watcher fails only when its deadline passed or a million looks in one read all met the writer. */
  lemma FailsOnlyLate(c: Config, events: seq<nat>, s: State, i: nat)
    requires Reachable(c, events, s) && i < |s.ws| && s.ws[i].pc.Failed?
    ensures s.ws[i].expired || s.ws[i].attempt >= MAX_ATTEMPTS
  {
    hide Run, Contents, LineOk, AfterStores;
    ReachableInv(c, events, s);
  }

  /** Against a server that is not writing, a watcher with unseen updates prints from the current snapshot. */
  lemma UnseenIsPrinted(c: Config, s: State, i: nat) returns (u: State)
    requires i < |s.ws| && s.sh.seqWord % 2 == 0
    requires s.ws[i].pc.Loop? && |s.ws[i].printed| < s.ws[i].events && s.ws[i].last < s.sh.counter
    ensures Alone(c, s, i, u) && |u.ws| == |s.ws| && u.ws[i].pc.Loop? && u.ws[i].last == s.sh.counter
    ensures var p := |s.ws[i].printed|; |u.ws[i].printed| > p && u.ws[i].printed[p].snap == s.sh.counter
  {
    u := BeginAlone(c, s, i);
    hide Alone;
    u := SnapshotAlone(c, s, i, u);
    u := AloneThen(c, s, i, u, Watch(i));
  }

  /** And one that has seen everything goes to sleep, when the server is between rounds. */
  lemma CaughtUpSleeps(c: Config, events: seq<nat>, s: State, i: nat) returns (u: State)
    requires Reachable(c, events, s) && i < |s.ws| && s.srv.pc.Top?
    requires s.ws[i].pc.Loop? && |s.ws[i].printed| < s.ws[i].events && s.ws[i].last == s.sh.counter
    ensures Alone(c, s, i, u) && OnlyReads(s, u, i) && u.ws[i].pc.Asleep?
  {
    IdleServer(c, events, s);
    hide Reachable, Run;
    u := BeginAlone(c, s, i);
    hide Step, Alone;
    u := SnapshotAlone(c, s, i, u);
    u := SleepAlone(c, s, i, u);
  }

  lemma IdleServer(c: Config, events: seq<nat>, s: State)
    requires Reachable(c, events, s) && s.srv.pc.Top?
    ensures s.sh.seqWord % 2 == 0 && s.sh.futex == s.sh.counter < WORD
  {
    hide Run, Contents, WatcherInv, AfterStores;
    ReachableInv(c, events, s);
  }

  lemma BeginAlone(c: Config, s: State, i: nat) returns (u: State)
    requires i < |s.ws| && s.ws[i].pc.Loop? && |s.ws[i].printed| < s.ws[i].events
    ensures Alone(c, s, i, u) && OnlyReads(s, u, i) && u.ws[i].pc.LoadSeq? && u.ws[i].attempt == 0
  {
    AloneSelf(c, s, i);
    hide Alone;
    u := AloneThen(c, s, i, s, Watch(i));
  }

  lemma SleepAlone(c: Config, s: State, i: nat, t: State) returns (u: State)
    requires Alone(c, s, i, t) && i < |t.ws| && t.ws[i].pc.Check? && t.ws[i].snapCounter == t.ws[i].last
    requires t.sh.futex == t.ws[i].last < WORD
    ensures Alone(c, s, i, u) && OnlyReads(t, u, i) && u.ws[i].pc.Asleep?
  {
    hide Alone, Backfill;
    u := AloneThen(c, s, i, t, Watch(i));
    u := AloneThen(c, s, i, u, Watch(i));
    u := AloneThen(c, s, i, u, Watch(i));
  }
}
