/** What the C++ and Go supervisors of pmon v1 share. */
module SupervisorOptions {

  datatype Exit = Status(code: nat) | BySignal(signo: nat)

  predicate Clean(e: Exit) { e == Status(0) }

  /** max_restarts and backoff_ms as parse_supervise leaves them. A max_restarts that its cast to int has made
      negative gives up at the first crash, as 0 does, and is 0 here. */
  datatype Options = Options(maxRestarts: nat, backoffMs: nat)

  function Pow2(n: nat): (p: nat)
    ensures p >= 1
  {
    if n == 0 then 1 else 2 * Pow2(n - 1)
  }

  lemma {:induction false} Pow2Monotone(m: nat, n: nat)
    requires m <= n
    ensures Pow2(m) <= Pow2(n)
    decreases n
  {
    if m < n { Pow2Monotone(m, n - 1); }
  }

  lemma TimesMonotone(x: nat, a: nat, b: nat)
    requires a <= b
    ensures x * a <= x * b
  {
    assert x * b == x * a + x * (b - a);
  }

  /** The backoff after r restarts stays in a signed 64-bit word when the largest one does. */
  lemma BackoffFitsWord(o: Options, r: nat)
    requires r <= o.maxRestarts && o.backoffMs * Pow2(o.maxRestarts) < 0x8000_0000_0000_0000
    ensures o.backoffMs * Pow2(r) < 0x8000_0000_0000_0000
  {
    Pow2Monotone(r, o.maxRestarts);
    TimesMonotone(o.backoffMs, Pow2(r), Pow2(o.maxRestarts));
  }
}

/**
 The signalfd form: one loop that polls a descriptor on which TERM, INT, HUP and CHLD
 arrive as reads. The kernel keeps one pending bit per signal, so equal signals coalesce.
 Children are numbered in the order they are forked; times are in nanoseconds.
 */
module SupervisorSignalfd {
  import opened Common
  import opened SupervisorOptions

  const NS_PER_MS := 1_000_000

  datatype Signal = TERM | INT | HUP | CHLD
  datatype Proc = Alive | Zombie(exit: Exit) | Reaped

  /** How kill(2) on the child answers. */
  datatype KillResult = Delivered | NoSuchProcess | NotPermitted

  /** until is when the poll call gives up. */
  datatype Pc = Top | Polling(until: Timeout) | Exited(code: nat) | ForkFailed
  datatype Timeout = Never | At(time: nat)

  /** spawns (forks since the start or the last reload), crashedAt, refused (children whose kill was not permitted),
      last (the last exit that SIGCHLD brought) and shutdown (TERM or INT was read) are history: no step looks at them. */
  datatype State = State(
    procs: seq<Proc>, pending: set<Signal>, now: nat,
    pc: Pc, child: nat, running: bool, restarts: nat, backoff: nat, deadline: nat,
    spawns: nat, crashedAt: nat, refused: set<nat>, last: Option<Exit>, shutdown: bool)

  /** Turns of the loop, with what the kernel answers in them, and the moves of the outside world. */
  datatype Action =
    | Arm
    | Interrupted
    | TimedOut(forked: bool)
    | Read(sig: Signal, kill: KillResult, exit: Exit, forked: bool)
    | ChildExits(i: nat, exit: Exit)
    | Raise(sig: Signal)
    | Tick(d: nat)

  function Init(o: Options): State {
    State([Alive], {}, 0, Top, 0, true, 0, o.backoffMs, 0, 1, 0, {}, None, false)
  }

  /** spawn: a new child, or die("fork"). */
  function Start(s: State, forked: bool): State {
    if forked then s.(procs := s.procs + [Alive], child := |s.procs|, running := true, spawns := s.spawns + 1, pc := Top)
    else s.(pc := ForkFailed)
  }

  /** stop_child: kill, then wait until the child is dead and reap it, unless the kill is refused. */
  function StopChild(s: State, kill: KillResult): State
    requires s.child < |s.procs|
  {
    if kill.NotPermitted? then s.(refused := s.refused + {s.child})
    else s.(procs := s.procs[s.child := Reaped], pending := if s.procs[s.child].Alive? then s.pending + {CHLD} else s.pending)
  }

  /** Conversion to a 32-bit int: the low word, as a signed number. */
  function ToInt(n: int): int { (n + 0x8000_0000) % 0x1_0000_0000 - 0x8000_0000 }

  /** The milliseconds left are cast to int, and the 1 is added to the int. */
  function TimeoutMs(s: State): int {
    if s.deadline <= s.now then 0 else ToInt(ToInt((s.deadline - s.now) / NS_PER_MS) + 1)
  }

  /** poll(2) waits for ever on a negative timeout. */
  function PollUntil(now: nat, timeout: int): Timeout {
    if timeout < 0 then Never else At(now + timeout * NS_PER_MS)
  }

  function OnChild(o: Options, s: State): State
    requires s.child < |s.procs|
  {
    if !s.running || !s.procs[s.child].Zombie? then s.(pc := Top)
    else
      var ce := s.procs[s.child].exit;
      var r := s.(procs := s.procs[s.child := Reaped], last := Some(ce));
      if Clean(ce) then r.(pc := Exited(0))
      else if s.restarts >= o.maxRestarts then r.(pc := Exited(1))
      else r.(pc := Top, restarts := s.restarts + 1, deadline := s.now + s.backoff * NS_PER_MS, backoff := s.backoff * 2,
              running := false, crashedAt := s.now)
  }

  function OnShutdown(s: State, kill: KillResult): State
    requires s.child < |s.procs|
  {
    (if s.running then StopChild(s, kill) else s).(pc := Exited(0), shutdown := true)
  }

  function OnReload(o: Options, s: State, kill: KillResult, forked: bool): State
    requires s.child < |s.procs|
  {
    var t := if s.running then StopChild(s, kill) else s;
    Start(t.(restarts := 0, backoff := o.backoffMs, running := false, spawns := 0), forked)
  }

  function OnSignal(o: Options, s: State, a: Action): State
    requires a.Read? && s.child < |s.procs|
  {
    match a.sig
    case TERM => OnShutdown(s, a.kill)
    case INT => OnShutdown(s, a.kill)
    case HUP => OnReload(o, s, a.kill, a.forked)
    case CHLD => OnChild(o, s)
  }

  /** One step; an action that is not enabled changes nothing. */
  function Step(o: Options, s: State, a: Action): State {
    match a
    case Arm => if s.pc.Top? then s.(pc := Polling(PollUntil(s.now, if s.running then -1 else TimeoutMs(s)))) else s
    case Interrupted => if s.pc.Polling? then s.(pc := Top) else s
    case TimedOut(forked) =>
      if s.pc.Polling? && s.pending == {} && s.pc.until.At? && s.pc.until.time <= s.now then Start(s, forked) else s
    case Read(sig, _, _, _) =>
      if s.pc.Polling? && sig in s.pending && s.child < |s.procs| then OnSignal(o, s.(pending := s.pending - {sig}), a) else s
    case ChildExits(i, e) =>
      if i < |s.procs| && s.procs[i].Alive? then s.(procs := s.procs[i := Zombie(e)], pending := s.pending + {CHLD}) else s
    case Raise(sig) => s.(pending := s.pending + {sig})
    case Tick(d) => s.(now := s.now + d)
  }

  function Run(o: Options, s: State, schedule: seq<Action>): State
    decreases |schedule|
  {
    if schedule == [] then s else Run(o, Step(o, s, schedule[0]), schedule[1..])
  }

  ghost predicate Reachable(o: Options, s: State) {
    exists schedule :: s == Run(o, Init(o), schedule)
  }

  // ----- the loop in its own form -----

  /** The locals of supervise beside the kernel's side of the state, updated in place. */
  class Supervisor {
    const opts: Options
    var procs: seq<Proc>
    var pending: set<Signal>
    var now: nat
    var pc: Pc
    var child: nat
    var running: bool
    var restarts: nat
    var backoff: nat
    var deadline: nat
    ghost var spawns: nat
    ghost var crashedAt: nat
    ghost var refused: set<nat>
    ghost var last: Option<Exit>
    ghost var shutdown: bool

    ghost function View(): State
      reads this
    {
      State(procs, pending, now, pc, child, running, restarts, backoff, deadline, spawns, crashedAt, refused, last, shutdown)
    }

    constructor (opts: Options)
      ensures this.opts == opts && View() == Init(opts)
    {
      this.opts := opts;
      procs, pending, now, pc := [Alive], {}, 0, Top;
      child, running, restarts, backoff, deadline := 0, true, 0, opts.backoffMs, 0;
      spawns, crashedAt, refused, last, shutdown := 1, 0, {}, None, false;
    }

    method StartChild(forked: bool)
      modifies this
      ensures View() == Start(old(View()), forked)
    {
      if !forked {
        pc := ForkFailed;
        return;
      }
      child := |procs|;
      procs := procs + [Alive];
      running := true;
      spawns := spawns + 1;
      pc := Top;
    }

    method TermAndReap(kill: KillResult)
      requires child < |procs|
      modifies this
      ensures View() == StopChild(old(View()), kill)
    {
      if kill.Delivered? || kill.NoSuchProcess? {
        if procs[child].Alive? {
          pending := pending + {CHLD};
        }
        procs := procs[child := Reaped];
      } else {
        refused := refused + {child};
      }
    }

    /** The top of the loop: choose the poll timeout. */
    method ArmPoll()
      requires pc.Top?
      modifies this
      ensures View() == Step(opts, old(View()), Arm)
    {
      var timeout := -1;
      if !running {
        var left := deadline - now;
        timeout := if left <= 0 then 0 else ToInt(ToInt(left / NS_PER_MS) + 1);
      }
      pc := Polling(PollUntil(now, timeout));
    }

    /** SIGCHLD: poll the child, and on a crash schedule the restart or give up. */
    method ReadChild()
      requires child < |procs|
      modifies this
      ensures View() == OnChild(opts, old(View()))
    {
      if !running || !procs[child].Zombie? {
        pc := Top;
        return;
      }
      var ce := procs[child].exit;
      procs := procs[child := Reaped];
      last := Some(ce);
      if Clean(ce) {
        pc := Exited(0);
      } else if restarts >= opts.maxRestarts {
        pc := Exited(1);
      } else {
        restarts := restarts + 1;
        deadline := now + backoff * NS_PER_MS;
        backoff := backoff * 2;
        running := false;
        crashedAt := now;
        pc := Top;
      }
    }

    /** SIGTERM and SIGINT. */
    method ReadShutdown(kill: KillResult)
      requires child < |procs|
      modifies this
      ensures View() == OnShutdown(old(View()), kill)
    {
      hide StopChild;
      if running {
        TermAndReap(kill);
      }
      pc := Exited(0);
      shutdown := true;
    }

    /** SIGHUP. */
    method ReadReload(kill: KillResult, forked: bool)
      requires child < |procs|
      modifies this
      ensures View() == OnReload(opts, old(View()), kill, forked)
    {
      hide Start, StopChild;
      if running {
        TermAndReap(kill);
      }
      restarts := 0;
      backoff := opts.backoffMs;
      running, spawns := false, 0;
      StartChild(forked);
    }

    /** The rest of the loop body, for a signal read from the descriptor. */
    method Turn(a: Action)
      requires a.Read? && pc.Polling? && a.sig in pending && child < |procs|
      modifies this
      ensures View() == Step(opts, old(View()), a)
    {
      hide OnReload, OnShutdown, OnChild;
      pending := pending - {a.sig};
      match a.sig {
        case CHLD => ReadChild();
        case HUP => ReadReload(a.kill, a.forked);
        case _ => ReadShutdown(a.kill);
      }
    }
  }

  // ----- the inductive invariant -----

  predicate InLoop(pc: Pc) { pc.Top? || pc.Polling? }

  /** A child is unreaped exactly when the loop runs it or its kill was refused. */
  ghost predicate Accounted(s: State) {
    && s.child < |s.procs|
    && (forall i :: i in s.refused ==> i < |s.procs|)
    && (s.running && InLoop(s.pc) ==> s.child !in s.refused)
    && (forall i :: 0 <= i < |s.procs| ==>
         (!s.procs[i].Reaped? <==> i in s.refused || (i == s.child && s.running && InLoop(s.pc))))
    && (s.running && InLoop(s.pc) && s.procs[s.child].Zombie? ==> CHLD in s.pending)
  }

  /** From here on, in milliseconds, the timeout of a backoff can come out as 0, and as negative. */
  const EARLY_MS := 0xFFFF_FFFF
  const ENDLESS_MS := 0x7FFF_FFFF

  /** The backoff of the r-th restart, in milliseconds. */
  function BackoffOf(o: Options, r: nat): nat { if r == 0 then 0 else o.backoffMs * Pow2(r - 1) }

  ghost predicate Budgeted(o: Options, s: State) {
    && s.restarts <= o.maxRestarts
    && s.backoff == o.backoffMs * Pow2(s.restarts)
    && (InLoop(s.pc) ==> s.spawns == s.restarts + (if s.running then 1 else 0))
    && s.crashedAt <= s.now
    && (InLoop(s.pc) && !s.running ==>
         s.restarts >= 1 && s.deadline == s.crashedAt + BackoffOf(o, s.restarts) * NS_PER_MS)
    && (s.pc.Polling? && s.pc.until.At? ==> !s.running && (BackoffOf(o, s.restarts) < EARLY_MS ==> s.pc.until.time >= s.deadline))
    && (s.pc.Polling? && s.pc.until.Never? && !s.running ==> BackoffOf(o, s.restarts) >= ENDLESS_MS)
  }

  lemma BackoffMonotone(o: Options, r: nat)
    requires r <= o.maxRestarts
    ensures BackoffOf(o, r) <= BackoffOf(o, o.maxRestarts)
  {
    hide Pow2;
    if r > 0 {
      Pow2Monotone(r - 1, o.maxRestarts - 1);
      TimesMonotone(o.backoffMs, Pow2(r - 1), Pow2(o.maxRestarts - 1));
    }
  }

  /** Why supervise has returned. */
  ghost predicate Justified(o: Options, s: State) {
    && (s.pc.Exited? ==>
         if s.pc.code == 0 then s.shutdown || s.last == Some(Status(0))
         else s.pc.code == 1 && s.restarts == o.maxRestarts && s.last.Some? && s.last != Some(Status(0)))
    && (s.shutdown ==> s.pc == Exited(0))
  }

  ghost predicate Inv(o: Options, s: State) { Accounted(s) && Budgeted(o, s) && Justified(o, s) }

  /** After stop_child the only unreaped children are those whose kill was refused. */
  lemma StopChildAccounts(s: State, kill: KillResult)
    requires Accounted(s) && s.pc.Polling? && s.running
    ensures var t := StopChild(s, kill);
      && |t.procs| == |s.procs| && (forall i :: i in t.refused ==> i < |t.procs|)
      && forall i :: 0 <= i < |t.procs| ==> (!t.procs[i].Reaped? <==> i in t.refused)
  {
  }

  lemma StepKeepsAccounted(o: Options, s: State, a: Action)
    requires Inv(o, s)
    ensures Accounted(Step(o, s, a))
  {
    hide Pow2;
    match a {
      case Read(sig, kill, exit, forked) =>
        var t := s.(pending := s.pending - {sig});
        if !sig.CHLD? && s.pc.Polling? && s.running { StopChildAccounts(t, kill); }
      case _ =>
    }
  }

  lemma BackoffDoubles(o: Options, r: nat)
    ensures o.backoffMs * Pow2(r) * 2 == o.backoffMs * Pow2(r + 1)
  {
  }

  /** With at most b milliseconds left. */
  lemma WaitReachesDeadline(s: State, b: nat)
    requires s.deadline <= s.now + b * NS_PER_MS
    ensures b < EARLY_MS && TimeoutMs(s) >= 0 ==> s.now + TimeoutMs(s) * NS_PER_MS >= s.deadline
    ensures b < ENDLESS_MS ==> TimeoutMs(s) >= 0
  {
    var left := s.deadline - s.now;
    if left > 0 {
      var count := left / NS_PER_MS;
      assert count * NS_PER_MS <= left < (count + 1) * NS_PER_MS;
      assert count <= b;
    }
  }

  lemma StepKeepsBudgeted(o: Options, s: State, a: Action)
    requires Inv(o, s)
    ensures Budgeted(o, Step(o, s, a))
  {
    assert Pow2(0) == 1;
    BackoffDoubles(o, s.restarts);
    if s.deadline <= s.now + BackoffOf(o, s.restarts) * NS_PER_MS { WaitReachesDeadline(s, BackoffOf(o, s.restarts)); }
    assert BackoffOf(o, s.restarts + 1) == o.backoffMs * Pow2(s.restarts);
    hide Pow2, TimeoutMs, BackoffOf;
    match a {
      case Read(sig, kill, exit, forked) =>
        match sig {
          case HUP =>
          case CHLD =>
          case _ =>
        }
      case _ =>
    }
  }

  lemma StepKeepsJustified(o: Options, s: State, a: Action)
    requires Inv(o, s)
    ensures Justified(o, Step(o, s, a))
  {
    hide Accounted, Pow2;
  }

  lemma {:induction false} RunKeepsInv(o: Options, s: State, schedule: seq<Action>)
    requires Inv(o, s)
    ensures Inv(o, Run(o, s, schedule))
    decreases |schedule|
  {
    hide Accounted, Budgeted, Justified, Step;
    if schedule != [] {
      StepKeepsJustified(o, s, schedule[0]);
      StepKeepsAccounted(o, s, schedule[0]);
      StepKeepsBudgeted(o, s, schedule[0]);
      RunKeepsInv(o, Step(o, s, schedule[0]), schedule[1..]);
    }
  }

  lemma ReachableInv(o: Options, s: State)
    requires Reachable(o, s)
    ensures Inv(o, s)
  {
    hide Run, Step;
    var schedule :| s == Run(o, Init(o), schedule);
    assert Pow2(0) == 1;
    RunKeepsInv(o, Init(o), schedule);
  }

  // ----- what holds in every run -----

  ghost predicate Unreaped(s: State, i: nat) { i < |s.procs| && !s.procs[i].Reaped? }

  /** At every poll the children not yet reaped are the running one, if any, and those whose kill was
      refused: with no refusal, `running` holds exactly when there is one. */
  lemma UnreapedAtPoll(o: Options, s: State, i: nat)
    requires Reachable(o, s) && s.pc.Polling?
    ensures Unreaped(s, i) <==> (s.running && i == s.child) || i in s.refused
    ensures s.running ==> s.child !in s.refused && Unreaped(s, s.child)
  {
    hide Run;
    ReachableInv(o, s);
  }

  /** supervise returns with no unreaped child exactly when no kill was refused. */
  lemma UnreapedAtReturn(o: Options, s: State)
    requires Reachable(o, s) && (s.pc.Exited? || s.pc.ForkFailed?)
    ensures (forall i :: !Unreaped(s, i)) <==> s.refused == {}
  {
    hide Run;
    ReachableInv(o, s);
    if s.refused != {} {
      var i :| i in s.refused;
      assert Unreaped(s, i);
    }
  }

  /** No exit is lost to coalescing: while the running child is dead and unreaped, CHLD is pending, and
      reading it reaps the child. */
  lemma DeadChildIsSeen(o: Options, s: State, a: Action)
    requires Reachable(o, s) && s.pc.Polling? && s.running && a.Read? && a.sig.CHLD?
    requires s.child < |s.procs| && s.procs[s.child].Zombie?
    ensures CHLD in s.pending && Step(o, s, a).procs[s.child].Reaped?
  {
    hide Run;
    ReachableInv(o, s);
  }

  /** supervise returns 0 only after a shutdown signal or a child that exited with status 0, and 1 only when the
      last restart has been used up and its child ended in any other way. */
  lemma ExitCodes(o: Options, s: State)
    requires Reachable(o, s) && s.pc.Exited?
    ensures s.pc.code == 0 ==> s.shutdown || s.last == Some(Status(0))
    ensures s.pc.code != 0 ==> s.pc.code == 1 && s.restarts == o.maxRestarts && s.last.Some? && s.last != Some(Status(0))
  {
    hide Run;
    ReachableInv(o, s);
  }

  /** What a child's end leads to: status 0 ends the loop; any other status and any signal begin a backoff and use
      up one restart, or end the loop when none is left. */
  lemma ExitsRestart(o: Options, s: State, a: Action, e: Exit)
    requires Reachable(o, s) && s.pc.Polling? && s.running && s.child < |s.procs| && s.procs[s.child] == Zombie(e)
    requires a.Read? && a.sig.CHLD?
    ensures var t := Step(o, s, a);
      && t.last == Some(e) && t.procs == s.procs[s.child := Reaped]
      && (e == Status(0) ==> t.pc == Exited(0))
      && (e != Status(0) && s.restarts == o.maxRestarts ==> t.pc == Exited(1))
      && (e != Status(0) && s.restarts < o.maxRestarts ==>
            t.pc.Top? && !t.running && t.restarts == s.restarts + 1
            && t.deadline == s.now + o.backoffMs * Pow2(s.restarts) * NS_PER_MS)
  {
    hide Run, Pow2;
    ReachableInv(o, s);
  }

  /** t is about to poll over a new child that is alive. */
  ghost predicate Fresh(s: State, t: State) {
    t.pc.Top? && t.running && t.child == |s.procs| && |t.procs| == |s.procs| + 1 && t.procs[t.child].Alive?
  }

  /** TERM and INT end the loop, a reload starts afresh, both after reaping the child; and a backoff that has elapsed
      brings the child back. */
  lemma OtherTurns(o: Options, s: State, a: Action)
    requires Reachable(o, s) && s.pc.Polling?
    ensures var t := Step(o, s, a);
      && (a.Read? && a.sig in s.pending && (a.sig.TERM? || a.sig.INT?) ==> t.pc == Exited(0) && t.shutdown)
      && (a.Read? && a.sig in s.pending && a.sig.HUP? && a.forked ==> Fresh(s, t) && t.restarts == 0 && t.backoff == o.backoffMs)
      && (a.Read? && a.sig in s.pending && !a.sig.CHLD? && s.running && !a.kill.NotPermitted? ==> !Unreaped(t, s.child))
      && (a.TimedOut? && a.forked && s.pending == {} && s.pc.until.At? && s.pc.until.time <= s.now ==>
            Fresh(s, t) && t.restarts == s.restarts)
      && (a.Interrupted? ==> t == s.(pc := Top))
  {
    hide Run, Pow2;
    ReachableInv(o, s);
  }

  /** The restart budget: the backoff doubles per restart, and forks since the start or the last reload
      never exceed max_restarts + 1. */
  lemma RestartBudget(o: Options, s: State)
    requires Reachable(o, s)
    ensures s.restarts <= o.maxRestarts && s.backoff == o.backoffMs * Pow2(s.restarts)
    ensures InLoop(s.pc) ==> s.spawns == s.restarts + (if s.running then 1 else 0) <= o.maxRestarts + 1
    ensures o.backoffMs * Pow2(o.maxRestarts) < 0x8000_0000_0000_0000 ==> s.backoff < 0x8000_0000_0000_0000
  {
    hide Run, Pow2;
    ReachableInv(o, s);
    if o.backoffMs * Pow2(o.maxRestarts) < 0x8000_0000_0000_0000 { BackoffFitsWord(o, s.restarts); }
  }

  ghost predicate RespawnsEarly(o: Options, s: State) {
    Step(o, s, TimedOut(true)) != s && s.now < s.crashedAt + BackoffOf(o, s.restarts) * NS_PER_MS
  }

  /** A crashed child is never brought back before its whole backoff has passed since the crash was handled
      exactly when the longest backoff is below 2^32 - 1 ms: from there on the timeout, cast to int, can be 0. */
  lemma RespawnWaitsOutBackoffIff(o: Options)
    ensures (forall s :: Reachable(o, s) ==> !RespawnsEarly(o, s)) <==> BackoffOf(o, o.maxRestarts) < EARLY_MS
  {
    hide Run, Reachable, BackoffOf;
    if BackoffOf(o, o.maxRestarts) < EARLY_MS {
      forall s | Reachable(o, s) ensures !RespawnsEarly(o, s) {
        ReachableInv(o, s);
        BackoffMonotone(o, s.restarts);
      }
    } else {
      EarlyRespawn(o);
    }
  }

  /** The poll of a backoff always comes to an end by itself exactly when the longest backoff is below
      2^31 - 1 ms: from there on the timeout can be negative, and a crashed child is not brought back at all. */
  lemma BackoffPollEndsIff(o: Options)
    ensures (forall s :: Reachable(o, s) && s.pc == Polling(Never) ==> s.running) <==> BackoffOf(o, o.maxRestarts) < ENDLESS_MS
  {
    hide Run, Reachable, BackoffOf;
    if BackoffOf(o, o.maxRestarts) < ENDLESS_MS {
      forall s | Reachable(o, s) && s.pc == Polling(Never) ensures s.running {
        ReachableInv(o, s);
        BackoffMonotone(o, s.restarts);
      }
    } else {
      EndlessPoll(o);
    }
  }

  /** Below that bound the poll also ends soon: no more than a millisecond after the deadline, or at once when the
      deadline has passed. */
  lemma BackoffPollIsTight(o: Options, s: State)
    requires Reachable(o, s) && s.pc.Top? && !s.running && BackoffOf(o, o.maxRestarts) < ENDLESS_MS
    ensures var t := Step(o, s, Arm);
      && t.pc.Polling? && t.pc.until.At?
      && (s.deadline <= s.now ==> t.pc.until.time == s.now)
      && (s.now < s.deadline ==> s.deadline <= t.pc.until.time <= s.deadline + NS_PER_MS)
  {
    hide Run, Pow2, BackoffOf;
    ReachableInv(o, s);
    BackoffMonotone(o, s.restarts);
    WaitReachesDeadline(s, BackoffOf(o, s.restarts));
    var left := s.deadline - s.now;
    if left > 0 { assert left / NS_PER_MS * NS_PER_MS <= left; }
  }

  // ----- runs that reach a long backoff -----

  lemma {:induction false} RunLast(o: Options, s: State, schedule: seq<Action>, a: Action)
    ensures Run(o, s, schedule + [a]) == Step(o, Run(o, s, schedule), a)
    decreases |schedule|
  {
    hide Step;
    if schedule == [] {
      assert schedule + [a] == [a];
      assert Run(o, Step(o, s, a), []) == Step(o, s, a);
    } else {
      assert (schedule + [a])[1..] == schedule[1..] + [a];
      RunLast(o, Step(o, s, schedule[0]), schedule[1..], a);
    }
  }

  lemma ReachableStep(o: Options, s: State, a: Action) returns (t: State)
    requires Reachable(o, s)
    ensures t == Step(o, s, a) && Reachable(o, t)
  {
    hide Run, Step;
    var schedule :| s == Run(o, Init(o), schedule);
    RunLast(o, Init(o), schedule, a);
    t := Step(o, s, a);
  }

  /** The loop is about to poll over a live child after r restarts. */
  ghost predicate Settled(o: Options, s: State, r: nat) {
    && Reachable(o, s) && s.pc.Top? && s.running && s.restarts == r && s.pending == {}
    && s.child < |s.procs| && s.procs[s.child].Alive?
  }

  /** Its child has crashed and the backoff of restart r has begun, d milliseconds ago. */
  lemma CrashAndWait(o: Options, s: State, r: nat, d: nat) returns (t: State)
    requires Settled(o, s, r) && r < o.maxRestarts
    ensures Reachable(o, t) && t.pc.Top? && !t.running && t.restarts == r + 1 && t.pending == {}
    ensures t.now == t.crashedAt + d * NS_PER_MS && t.deadline == t.crashedAt + BackoffOf(o, r + 1) * NS_PER_MS
  {
    hide Run, Reachable;
    t := ReachableStep(o, s, ChildExits(s.child, Status(1)));
    t := ReachableStep(o, t, Arm);
    t := ReachableStep(o, t, Read(CHLD, Delivered, Status(0), true));
    t := ReachableStep(o, t, Tick(d * NS_PER_MS));
    ReachableInv(o, t);
  }

  lemma {:induction false} ReachRestart(o: Options, r: nat) returns (s: State)
    requires r <= o.maxRestarts
    ensures Settled(o, s, r)
  {
    if r == 0 {
      s := Init(o);
      assert Run(o, s, []) == s;
    } else {
      hide Run, BackoffOf, Reachable;
      s := ReachRestart(o, r - 1);
      s := CrashAndWait(o, s, r - 1, BackoffOf(o, r));
      s := ReachableStep(o, s, Arm);
      s := ReachableStep(o, s, TimedOut(true));
    }
  }

  lemma EarlyRespawn(o: Options)
    requires BackoffOf(o, o.maxRestarts) >= EARLY_MS
    ensures exists s :: Reachable(o, s) && RespawnsEarly(o, s)
  {
    hide Run, Reachable;
    var b := BackoffOf(o, o.maxRestarts);
    var s := ReachRestart(o, o.maxRestarts - 1);
    s := CrashAndWait(o, s, o.maxRestarts - 1, b - EARLY_MS);
    hide BackoffOf;
    assert s.deadline - s.now == EARLY_MS * NS_PER_MS;
    assert TimeoutMs(s) == 0;
    s := ReachableStep(o, s, Arm);
    assert RespawnsEarly(o, s);
  }

  lemma EndlessPoll(o: Options)
    requires BackoffOf(o, o.maxRestarts) >= ENDLESS_MS
    ensures exists s :: Reachable(o, s) && s.pc == Polling(Never) && !s.running
  {
    hide Run, Reachable;
    var b := BackoffOf(o, o.maxRestarts);
    var s := ReachRestart(o, o.maxRestarts - 1);
    s := CrashAndWait(o, s, o.maxRestarts - 1, b - ENDLESS_MS);
    hide BackoffOf;
    assert s.deadline - s.now == ENDLESS_MS * NS_PER_MS;
    assert TimeoutMs(s) < 0;
    s := ReachableStep(o, s, Arm);
  }

  /** A refused kill on reload does leave two unreaped children at the next poll. */
  lemma RefusedReloadLeavesTwo(o: Options)
    ensures exists s :: Reachable(o, s) && s.pc.Polling? && s.running && Unreaped(s, 0) && Unreaped(s, 1)
  {
    var hup := Read(HUP, NotPermitted, Status(0), true);
    var s0 := Init(o);
    var s1 := Step(o, s0, Raise(HUP));
    var s2 := Step(o, s1, Arm);
    var s3 := Step(o, s2, hup);
    var s4 := Step(o, s3, Arm);
    var all := [Raise(HUP), Arm, hup, Arm];
    assert all[1..] == [Arm, hup, Arm] && [Arm, hup, Arm][1..] == [hup, Arm] && [hup, Arm][1..] == [Arm];
    assert Run(o, s3, [Arm]) == s4;
    assert Run(o, s2, [hup, Arm]) == s4;
    assert Run(o, s1, [Arm, hup, Arm]) == s4;
    assert Run(o, s0, all) == s4;
    assert Unreaped(s4, 0) && Unreaped(s4, 1);
  }
}

/**
 The channel form: one goroutine per child waits for it and sends its exit on waitCh
 (capacity 1), and the supervisor selects over signals, waitCh and the backoff timer.
 */
module SupervisorChannels {
  import opened Common
  import opened SupervisorOptions

  datatype Proc = Alive | Zombie(exit: Exit) | Reaped

  /** A wait goroutine: inside cmd.Wait, or about to send the exit it got. */
  datatype Waiter = Waiting(pid: nat) | Sending(pid: nat, exit: Exit)

  datatype ChildExit = ChildExit(pid: nat, exit: Exit)

  /** Stopping is stopChild blocked on <-waitCh; reload says which branch called it. */
  datatype Pc = Select | Stopping(reload: bool) | Exited(code: nat) | StartFailed

  /** timer: a backoff timer is set, so no child is running. termed (children that stopChild has sent SIGTERM), last
      (the last exit the select received) and shutdown (a shutdown signal was) are history. */
  datatype State = State(procs: seq<Proc>, waiters: seq<Waiter>, waitCh: seq<ChildExit>,
                         pc: Pc, cmd: nat, timer: bool, restarts: nat, backoff: nat, spawns: nat,
                         termed: set<nat>, last: Option<Exit>, shutdown: bool)

  datatype Action =
    | Shutdown | Reload(started: bool)              // select: a signal
    | Receive                                       // select: waitCh
    | TimerFires(started: bool)                     // select: the timer
    | StopReceives(started: bool)                   // stopChild: <-waitCh, then the rest of its branch
    | ChildExits(i: nat, exit: Exit)
    | WaiterRuns(k: nat)

  function Init(o: Options): State {
    State([Alive], [Waiting(0)], [], Select, 0, false, 0, o.backoffMs, 1, {}, None, false)
  }

  function Start(s: State, started: bool): State {
    if started then s.(procs := s.procs + [Alive], waiters := s.waiters + [Waiting(|s.procs|)], cmd := |s.procs|, timer := false,
                       spawns := s.spawns + 1, pc := Select)
    else s.(pc := StartFailed)
  }

  function Restart(o: Options, s: State, started: bool): State {
    Start(s.(timer := true, restarts := 0, backoff := o.backoffMs, spawns := 0), started)
  }

  /** stopChild up to its receive. */
  function Stop(s: State, reload: bool): State { s.(pc := Stopping(reload), termed := s.termed + {s.cmd}) }

  function WaiterStep(s: State, k: nat): State
    requires k < |s.waiters|
  {
    match s.waiters[k]
    case Waiting(pid) =>
      if pid < |s.procs| && s.procs[pid].Zombie? then
        s.(procs := s.procs[pid := Reaped], waiters := s.waiters[k := Sending(pid, s.procs[pid].exit)])
      else s
    case Sending(pid, e) =>
      if |s.waitCh| < 1 then s.(waitCh := s.waitCh + [ChildExit(pid, e)], waiters := s.waiters[..k] + s.waiters[k + 1..]) else s
  }

  function Step(o: Options, s: State, a: Action): State {
    match a
    case Shutdown =>
      if !s.pc.Select? then s else (if s.timer then s.(pc := Exited(0)) else Stop(s, false)).(shutdown := true)
    case Reload(started) => if !s.pc.Select? then s else if s.timer then Restart(o, s, started) else Stop(s, true)
    case StopReceives(started) =>
      if !s.pc.Stopping? || s.waitCh == [] then s
      else
        var r := s.(waitCh := s.waitCh[1..]);
        if s.pc.reload then Restart(o, r, started) else r.(pc := Exited(0))
    case Receive =>
      if !s.pc.Select? || s.waitCh == [] then s
      else
        var ce := s.waitCh[0].exit;
        var r := s.(waitCh := s.waitCh[1..], last := Some(ce));
        if Clean(ce) then r.(pc := Exited(0))
        else if s.restarts >= o.maxRestarts then r.(pc := Exited(1))
        else r.(timer := true, restarts := s.restarts + 1, backoff := s.backoff * 2)
    case TimerFires(started) => if s.pc.Select? && s.timer then Start(s, started) else s
    case ChildExits(i, e) => if i < |s.procs| && s.procs[i].Alive? then s.(procs := s.procs[i := Zombie(e)]) else s
    case WaiterRuns(k) => if k < |s.waiters| then WaiterStep(s, k) else s
  }

  function Run(o: Options, s: State, schedule: seq<Action>): State
    decreases |schedule|
  {
    if schedule == [] then s else Run(o, Step(o, s, schedule[0]), schedule[1..])
  }

  ghost predicate Reachable(o: Options, s: State) {
    exists schedule :: s == Run(o, Init(o), schedule)
  }

  // ----- the inductive invariant -----

  predicate HasChild(s: State) { s.pc.Stopping? || (s.pc.Select? && !s.timer) }

  /** Wait tokens: goroutines in flight plus exits in the buffer. */
  ghost predicate Tokens(s: State) {
    && s.cmd < |s.procs|
    && |s.waiters| + |s.waitCh| == (if HasChild(s) then 1 else 0)
    && (forall k :: 0 <= k < |s.waiters| ==> s.waiters[k].pid == s.cmd)
    && (forall k :: 0 <= k < |s.waitCh| ==> s.waitCh[k].pid == s.cmd)
    && (forall i :: 0 <= i < |s.procs| ==> (!s.procs[i].Reaped? <==> i == s.cmd && |s.waiters| == 1 && s.waiters[0].Waiting?))
    && (s.pc.Stopping? ==> !s.timer)
  }

  ghost predicate Budgeted(o: Options, s: State) {
    && s.restarts <= o.maxRestarts && s.backoff == o.backoffMs * Pow2(s.restarts)
    && (HasChild(s) ==> s.spawns == s.restarts + 1)
    && (s.pc.Select? && s.timer ==> s.spawns == s.restarts >= 1)
  }

  /** Why supervise has returned, or is about to. */
  ghost predicate Justified(o: Options, s: State) {
    && (s.pc.Exited? ==>
         if s.pc.code == 0 then s.shutdown || s.last == Some(Status(0))
         else s.pc.code == 1 && s.restarts == o.maxRestarts && s.last.Some? && s.last != Some(Status(0)))
    && (s.pc.Stopping? ==> s.cmd in s.termed && s.shutdown == !s.pc.reload)
    && (s.pc.Select? ==> !s.shutdown)
  }

  ghost predicate Inv(o: Options, s: State) { Tokens(s) && Budgeted(o, s) && Justified(o, s) }

  lemma StepKeepsJustified(o: Options, s: State, a: Action)
    requires Inv(o, s)
    ensures Justified(o, Step(o, s, a))
  {
    hide Tokens, Pow2;
  }

  lemma StepKeepsInv(o: Options, s: State, a: Action)
    requires Inv(o, s)
    ensures Inv(o, Step(o, s, a))
  {
    StepKeepsJustified(o, s, a);
    hide Justified;
    assert Pow2(0) == 1 && Pow2(s.restarts + 1) == 2 * Pow2(s.restarts);
    assert o.backoffMs * Pow2(s.restarts) * 2 == o.backoffMs * Pow2(s.restarts + 1);
    hide Pow2;
    match a
    case WaiterRuns(k) =>
    case StopReceives(started) =>
    case _ =>
  }

  lemma {:induction false} RunKeepsInv(o: Options, s: State, schedule: seq<Action>)
    requires Inv(o, s)
    ensures Inv(o, Run(o, s, schedule))
    decreases |schedule|
  {
    hide Inv, Step;
    if schedule != [] {
      StepKeepsInv(o, s, schedule[0]);
      RunKeepsInv(o, Step(o, s, schedule[0]), schedule[1..]);
    }
  }

  lemma ReachableInv(o: Options, s: State)
    requires Reachable(o, s)
    ensures Inv(o, s)
  {
    hide Run, Step;
    var schedule :| s == Run(o, Init(o), schedule);
    assert Pow2(0) == 1;
    RunKeepsInv(o, Init(o), schedule);
  }

  // ----- what holds in every run -----

  /** One token while a child runs or is being stopped, none during a backoff or after the end; so a
      goroutine that has an exit to send always finds room, and none is left behind at a return. */
  lemma OneToken(o: Options, s: State)
    requires Reachable(o, s)
    ensures |s.waiters| + |s.waitCh| == if HasChild(s) then 1 else 0
    ensures forall k :: 0 <= k < |s.waiters| && s.waiters[k].Sending? ==> Step(o, s, WaiterRuns(k)) != s
    ensures s.pc.Exited? || s.pc.StartFailed? ==> forall i :: 0 <= i < |s.procs| ==> s.procs[i].Reaped?
  {
    hide Run;
    ReachableInv(o, s);
  }

  /** stopChild receives the exit of the very child it signalled, already reaped; and until it does,
      that exit is on its way: some goroutine can move, or the child is still alive. */
  lemma StopReceivesItsChild(o: Options, s: State, started: bool)
    requires Reachable(o, s) && s.pc.Stopping?
    ensures s.cmd < |s.procs| && s.cmd in s.termed
    ensures s.waitCh != [] ==> s.waitCh[0].pid == s.cmd && s.procs[s.cmd].Reaped? && Step(o, s, StopReceives(started)) != s
    ensures s.waitCh == [] ==> Step(o, s, WaiterRuns(0)) != s || s.procs[s.cmd].Alive?
  {
    hide Run;
    ReachableInv(o, s);
    if s.waitCh == [] { assert |s.waiters| == 1 && s.waiters[0].pid == s.cmd; }
  }

  /** The exit that the select receives is that of the current child. */
  lemma SelectReceivesCurrentChild(o: Options, s: State)
    requires Reachable(o, s) && s.pc.Select? && s.waitCh != []
    ensures s.waitCh[0].pid == s.cmd && !s.timer && s.spawns == s.restarts + 1 <= o.maxRestarts + 1
    ensures s.backoff == o.backoffMs * Pow2(s.restarts)
  {
    hide Run;
    ReachableInv(o, s);
  }

  /** supervise returns 0 only after a shutdown signal or a child that exited with status 0, and 1 only when the
      last restart has been used up and its child ended in any other way. */
  lemma ExitCodes(o: Options, s: State)
    requires Reachable(o, s) && s.pc.Exited?
    ensures s.pc.code == 0 ==> s.shutdown || s.last == Some(Status(0))
    ensures s.pc.code != 0 ==> s.pc.code == 1 && s.restarts == o.maxRestarts && s.last.Some? && s.last != Some(Status(0))
  {
    hide Run;
    ReachableInv(o, s);
  }

  /** What an exit that the select receives leads to. */
  lemma ExitsRestart(o: Options, s: State)
    requires Reachable(o, s) && s.pc.Select? && s.waitCh != []
    ensures var t, e := Step(o, s, Receive), s.waitCh[0].exit;
      && t.last == Some(e)
      && (e == Status(0) ==> t.pc == Exited(0))
      && (e != Status(0) && s.restarts == o.maxRestarts ==> t.pc == Exited(1))
      && (e != Status(0) && s.restarts < o.maxRestarts ==>
            t.pc.Select? && t.timer && t.restarts == s.restarts + 1 && t.backoff == 2 * s.backoff)
  {
    hide Run, Pow2;
    ReachableInv(o, s);
  }

  /** A shutdown ends the loop, over stopChild when there is a child; a reload starts afresh; the timer brings the
      child back. */
  lemma OtherTurns(o: Options, s: State, a: Action)
    requires Reachable(o, s)
    ensures var t := Step(o, s, a);
      && (a.Shutdown? && s.pc.Select? ==> t.pc == if s.timer then Exited(0) else Stopping(false))
      && (a.Reload? && s.pc.Select? && !s.timer ==> t.pc == Stopping(true))
      && (a.StopReceives? && s.pc == Stopping(false) && s.waitCh != [] ==> t.pc == Exited(0))
      && (a.Reload? && s.pc.Select? && s.timer && a.started ==> Fresh(s, t) && t.restarts == 0 && t.backoff == o.backoffMs)
      && (a.StopReceives? && s.pc == Stopping(true) && s.waitCh != [] && a.started ==>
            Fresh(s, t) && t.restarts == 0 && t.backoff == o.backoffMs)
      && (a.TimerFires? && s.pc.Select? && s.timer && a.started ==> Fresh(s, t) && t.restarts == s.restarts)
  {
    hide Run, Pow2;
    ReachableInv(o, s);
  }

  /** t selects over a new child that is alive. */
  ghost predicate Fresh(s: State, t: State) {
    t.pc.Select? && !t.timer && t.cmd == |s.procs| && |t.procs| == |s.procs| + 1 && t.procs[t.cmd].Alive?
  }
}
