/**
 pmon v5: the reaper that waits for the child and respawns it, against the control
 thread that handles "stop". Children are numbered in the order they are spawned.
 Both forms of the program share the steps; they differ in how the back-off ends.
 */
module StopRace {

  /** Channels: a select over a timer and stopCh, where a fired timer may win after stopCh is closed.
      Condvar: wait_for with the predicate `stopping`, which a timeout cannot get past. */
  datatype Form = Channels | Condvar

  /** groupAtSpawn: the child is in its own process group before spawn returns. Go's Start gives that;
      in the C++ program the child makes the group itself, after fork has returned. */
  datatype Config = Config(form: Form, groupAtSpawn: bool)

  datatype ProcState = Alive | Zombie | Reaped
  /** missed: a kill of the child's group found no such group while the child was unreaped. */
  datatype Proc = Proc(state: ProcState, grouped: bool, signalled: bool, missed: bool)

  datatype ReaperPc = Wait(cur: nat) | CheckStop | BackOff | Spawn | Adopt(next: nat) | Undo(next: nat) | WaitUndo(next: nat) | Returned
  datatype ControlPc = Serving | Announce(target: nat) | Kill(target: nat) | AwaitDone | Stopped

  /** child, restarts and stopping are the fields of the locked state; announced is the closed stopCh. spawnFailed
      is history. */
  datatype State = State(procs: seq<Proc>, child: nat, restarts: nat, stopping: bool, announced: bool,
                         reaper: ReaperPc, control: ControlPc, spawnFailed: bool)

  /** Exit and Group are the child's doing; TimerFires and SpawnFails are the reaper's other outcomes. */
  datatype Action = Reap | TimerFires | SpawnFails | Control | Exit(i: nat) | Group(i: nat)

  function NewProc(c: Config): Proc { Proc(Alive, c.groupAtSpawn, false, false) }

  function Init(c: Config): State {
    State([NewProc(c)], 0, 0, false, false, Wait(0), Serving, false)
  }

  /** kill(-pid, SIGTERM): nothing for a reaped child, a miss when the group does not exist yet. */
  function Killed(p: Proc): Proc {
    if p.state.Reaped? then p else if p.grouped then p.(signalled := true) else p.(missed := true)
  }

  function KillStep(s: State, i: nat): State {
    if i < |s.procs| then s.(procs := s.procs[i := Killed(s.procs[i])]) else s
  }

  predicate CanReap(s: State, i: nat) { i < |s.procs| && s.procs[i].state.Zombie? }

  function ReapProc(s: State, i: nat): State
    requires i < |s.procs|
  {
    s.(procs := s.procs[i := s.procs[i].(state := Reaped)])
  }

  function ReapStep(c: Config, s: State): State {
    match s.reaper
    case Wait(cur) => if CanReap(s, cur) then ReapProc(s, cur).(reaper := CheckStop) else s
    case CheckStop => s.(reaper := if s.stopping then Returned else BackOff)
    case BackOff =>
      if c.form.Channels? && s.announced then s.(reaper := Returned)
      else if c.form.Condvar? && s.stopping then s.(reaper := Returned)
      else s
    case Spawn => s.(procs := s.procs + [NewProc(c)], reaper := Adopt(|s.procs|))
    case Adopt(next) =>
      if s.stopping then s.(reaper := Undo(next))
      else s.(child := next, restarts := s.restarts + 1, reaper := Wait(next))
    case Undo(next) => KillStep(s, next).(reaper := WaitUndo(next))
    case WaitUndo(next) => if CanReap(s, next) then ReapProc(s, next).(reaper := Returned) else s
    case Returned => s
  }

  function ControlStep(s: State): State {
    match s.control
    case Serving => s.(stopping := true, control := Announce(s.child))
    case Announce(target) => s.(announced := true, control := Kill(target))
    case Kill(target) => KillStep(s, target).(control := AwaitDone)
    case AwaitDone => if s.reaper.Returned? then s.(control := Stopped) else s
    case Stopped => s
  }

  function Step(c: Config, s: State, a: Action): State {
    match a
    case Reap => ReapStep(c, s)
    case TimerFires => if s.reaper.BackOff? && (c.form.Channels? || !s.stopping) then s.(reaper := Spawn) else s
    case SpawnFails => if s.reaper.Spawn? then s.(reaper := Returned, spawnFailed := true) else s
    case Control => ControlStep(s)
    case Exit(i) =>
      if i < |s.procs| && s.procs[i].state.Alive? then s.(procs := s.procs[i := s.procs[i].(state := Zombie)]) else s
    case Group(i) =>
      if i < |s.procs| && s.procs[i].state.Alive? then s.(procs := s.procs[i := s.procs[i].(grouped := true)]) else s
  }

  function Run(c: Config, s: State, schedule: seq<Action>): State
    decreases |schedule|
  {
    if schedule == [] then s else Run(c, Step(c, s, schedule[0]), schedule[1..])
  }

  ghost predicate Reachable(c: Config, s: State) {
    exists schedule :: s == Run(c, Init(c), schedule)
  }

  // ----- the inductive invariant -----

  /** The child the reaper is responsible for, if any. */
  function Owned(r: ReaperPc): (o: seq<nat>) {
    match r
    case Wait(i) => [i]
    case Adopt(i) => [i]
    case Undo(i) => [i]
    case WaitUndo(i) => [i]
    case _ => []
  }

  predicate KillSeen(p: Proc) { p.signalled != p.missed }
  predicate NoKillYet(p: Proc) { !p.signalled && !p.missed }

  ghost predicate Inv(c: Config, s: State) {
    && s.child < |s.procs| <= s.child + 2 && s.restarts == s.child
    && (forall i :: 0 <= i < |s.procs| && i !in Owned(s.reaper) ==> s.procs[i].state.Reaped?)
    && (forall i :: i in Owned(s.reaper) ==> i == |s.procs| - 1 && !s.procs[i].state.Reaped?)
    && (s.reaper.Wait? ==> s.child == s.reaper.cur)
    && (s.stopping <==> !s.control.Serving?)
    && (s.announced <==> !s.control.Serving? && !s.control.Announce?)
    && (s.control.Announce? ==> s.control.target == s.child)
    && (s.control.Kill? ==> s.control.target == s.child)
    && (s.reaper.Wait? ==>
         if s.control.AwaitDone? then KillSeen(s.procs[s.reaper.cur])
         else !s.control.Stopped? && NoKillYet(s.procs[s.reaper.cur]))
    && (s.reaper.Adopt? ==> s.reaper.next == s.child + 1 < |s.procs| && NoKillYet(s.procs[s.reaper.next]))
    && (s.reaper.Undo? ==> s.reaper.next == s.child + 1 < |s.procs| && s.stopping && NoKillYet(s.procs[s.reaper.next]))
    && (s.reaper.WaitUndo? ==> s.reaper.next == s.child + 1 < |s.procs| && s.stopping && KillSeen(s.procs[s.reaper.next]))
    && (s.reaper.CheckStop? || s.reaper.BackOff? || s.reaper.Spawn? ==> s.child == |s.procs| - 1)
    && (s.control.Stopped? ==> s.reaper.Returned?)
    && (s.reaper.Returned? ==> s.stopping || s.spawnFailed)
    && (s.reaper.Undo? || s.reaper.WaitUndo? ==> s.stopping)
    && (c.groupAtSpawn ==> forall i :: 0 <= i < |s.procs| ==> s.procs[i].grouped && !s.procs[i].missed)
  }

  predicate Respawning(r: ReaperPc) { r.Spawn? || r.Adopt? || r.Undo? }

  lemma RespawnKeepsInv(c: Config, s: State)
    requires Inv(c, s) && Respawning(s.reaper)
    ensures Inv(c, ReapStep(c, s))
  {
  }

  lemma ReapKeepsInv(c: Config, s: State)
    requires Inv(c, s) && !Respawning(s.reaper)
    ensures Inv(c, ReapStep(c, s))
  {
  }

  lemma ControlKeepsInv(c: Config, s: State)
    requires Inv(c, s)
    ensures Inv(c, ControlStep(s))
  {
  }

  lemma StepKeepsInv(c: Config, s: State, a: Action)
    requires Inv(c, s)
    ensures Inv(c, Step(c, s, a))
  {
    hide ReapStep, ControlStep;
    if a.Reap? {
      if Respawning(s.reaper) { RespawnKeepsInv(c, s); } else { ReapKeepsInv(c, s); }
    } else if a.Control? {
      ControlKeepsInv(c, s);
    }
  }

  lemma {:induction false} RunKeepsInv(c: Config, s: State, schedule: seq<Action>)
    requires Inv(c, s)
    ensures Inv(c, Run(c, s, schedule))
    decreases |schedule|
  {
    hide Inv, Step;
    if schedule != [] {
      StepKeepsInv(c, s, schedule[0]);
      RunKeepsInv(c, Step(c, s, schedule[0]), schedule[1..]);
    }
  }

  lemma ReachableInv(c: Config, s: State)
    requires Reachable(c, s)
    ensures Inv(c, s)
  {
    hide Step, Run;
    var schedule :| s == Run(c, Init(c), schedule);
    RunKeepsInv(c, Init(c), schedule);
  }

  // ----- what holds in every interleaving -----

  ghost predicate BlockedOn(s: State, i: nat) {
    (s.reaper == Wait(i) || s.reaper == WaitUndo(i)) && i < |s.procs|
  }

  /** When stop returns, every child ever spawned has been reaped. */
  lemma StopLeavesNoChild(c: Config, s: State, i: nat)
    requires Reachable(c, s) && s.control.Stopped? && i < |s.procs|
    ensures s.procs[i].state.Reaped?
  {
    hide Run;
    ReachableInv(c, s);
  }

  /** While stop waits for the reaper and the reaper is blocked on a child, that child has had its kill,
      exactly one of two ways: it was signalled, or its group did not exist yet. A child that is in its
      group when spawn returns is always signalled. */
  lemma BlockedChildWasKilled(c: Config, s: State, i: nat)
    requires Reachable(c, s) && s.control.AwaitDone? && BlockedOn(s, i)
    ensures s.procs[i].signalled <==> !s.procs[i].missed
    ensures c.groupAtSpawn ==> s.procs[i].signalled
  {
    hide Run;
    ReachableInv(c, s);
  }

  /** From the moment stop is requested: a child the reaper waits for was killed or has a kill pending,
      in the control thread or in the reaper itself, which then does not wait yet. */
  lemma KillIsPendingOrDone(c: Config, s: State, i: nat)
    requires Reachable(c, s) && s.stopping && BlockedOn(s, i)
    ensures KillSeen(s.procs[i]) || s.control == Announce(i) || s.control == Kill(i)
  {
    hide Run;
    ReachableInv(c, s);
  }

  /** At most one child is unreaped at any time, and restarts counts the adopted respawns. */
  lemma OneChildAtATime(c: Config, s: State, i: nat, j: nat)
    requires Reachable(c, s) && i < |s.procs| && j < |s.procs|
    ensures !s.procs[i].state.Reaped? && !s.procs[j].state.Reaped? ==> i == j
    ensures s.restarts == s.child && |s.procs| <= s.restarts + 2
  {
    hide Run;
    ReachableInv(c, s);
  }

  /** Once stop is requested and until it returns, some thread can move, unless the reaper waits for a
      child that is alive: one that was signalled, or that the kill missed. */
  lemma StopMovesOn(c: Config, s: State)
    requires Reachable(c, s) && s.stopping && !s.control.Stopped?
    ensures Step(c, s, Reap) != s || Step(c, s, Control) != s
         || exists i: nat :: BlockedOn(s, i) && s.procs[i].state.Alive? && s.control.AwaitDone? && KillSeen(s.procs[i])
  {
    hide Run;
    ReachableInv(c, s);
    if s.reaper.Wait? || s.reaper.WaitUndo? {
      var i := Owned(s.reaper)[0];
      assert i in Owned(s.reaper) && BlockedOn(s, i);
    }
  }

  /** Without groupAtSpawn the miss does happen: stop kills the group of a child that has not made it
      yet, and then waits for a live child nobody has signalled. */
  lemma EarlyKillMisses(form: Form)
    ensures var c := Config(form, false);
      exists s :: Reachable(c, s) && s.control.AwaitDone? && BlockedOn(s, 0) && s.procs[0].state.Alive? && !s.procs[0].signalled
  {
    var c := Config(form, false);
    var s0 := Init(c);
    var s1 := Step(c, s0, Control);
    var s2 := Step(c, s1, Control);
    var s3 := Step(c, s2, Control);
    assert Run(c, s0, [Control, Control, Control]) == s3 by {
      assert [Control, Control, Control][1..] == [Control, Control];
      assert [Control, Control][1..] == [Control];
      assert Run(c, s2, [Control]) == s3;
      assert Run(c, s1, [Control, Control]) == s3;
    }
    assert Reachable(c, s3);
  }

  /** Stop only ever waits for children that it has signalled exactly when a child is in its group as soon as
      spawn returns. */
  lemma WaitsForSignalledIff(c: Config)
    ensures c.groupAtSpawn <==>
      forall s, i: nat :: Reachable(c, s) && s.control.AwaitDone? && BlockedOn(s, i) ==> s.procs[i].signalled
  {
    if c.groupAtSpawn {
      forall s, i: nat | Reachable(c, s) && s.control.AwaitDone? && BlockedOn(s, i) ensures s.procs[i].signalled {
        BlockedChildWasKilled(c, s, i);
      }
    } else {
      assert c == Config(c.form, false);
      EarlyKillMisses(c.form);
    }
  }

  // ----- restarting -----

  /** The reaper gives up only when stop was requested or a spawn failed. */
  lemma ReaperReturnsOnlyThen(c: Config, s: State)
    requires Reachable(c, s) && s.reaper.Returned?
    ensures s.stopping || s.spawnFailed
  {
    hide Run;
    ReachableInv(c, s);
  }

  /** Until then it can move on, unless it waits for a child that is alive. */
  lemma ReaperMovesOn(c: Config, s: State)
    requires Reachable(c, s) && !s.reaper.Returned?
    ensures Step(c, s, Reap) != s || Step(c, s, TimerFires) != s || exists i: nat :: BlockedOn(s, i) && s.procs[i].state.Alive?
  {
    hide Run;
    ReachableInv(c, s);
    if s.reaper.Wait? || s.reaper.WaitUndo? {
      var i := Owned(s.reaper)[0];
      assert i in Owned(s.reaper) && BlockedOn(s, i);
    }
  }

  lemma {:induction false} RunLast(c: Config, s: State, schedule: seq<Action>, a: Action)
    ensures Run(c, s, schedule + [a]) == Step(c, Run(c, s, schedule), a)
    decreases |schedule|
  {
    hide Step;
    if schedule == [] {
      assert schedule + [a] == [a];
      assert Run(c, Step(c, s, a), []) == Step(c, s, a);
    } else {
      assert (schedule + [a])[1..] == schedule[1..] + [a];
      RunLast(c, Step(c, s, schedule[0]), schedule[1..], a);
    }
  }

  lemma Then(c: Config, s: State, a: Action) returns (t: State)
    requires Reachable(c, s)
    ensures t == Step(c, s, a) && Reachable(c, t)
  {
    hide Run, Step;
    var schedule :| s == Run(c, Init(c), schedule);
    RunLast(c, Init(c), schedule, a);
    t := Step(c, s, a);
  }

  /** n children have died and each has been followed by another. */
  ghost predicate Restarted(c: Config, s: State, n: nat) {
    && Reachable(c, s) && |s.procs| == n + 1 && s.child == s.restarts == n && s.reaper == Wait(n) && s.procs[n].state.Alive?
    && !s.stopping && !s.announced && s.control.Serving? && forall i :: 0 <= i < n ==> s.procs[i].state.Reaped?
  }

  /** A child that exits while nobody asks for stop is reaped and followed by another, as often as it happens. */
  lemma {:induction false} RestartsForEver(c: Config, n: nat) returns (s: State)
    ensures Restarted(c, s, n)
  {
    if n == 0 {
      s := Init(c);
      assert Run(c, s, []) == s;
    } else {
      s := RestartsForEver(c, n - 1);
      hide Run, Reachable;
      s := Then(c, s, Exit(n - 1));
      s := Then(c, s, Reap);
      assert s.reaper.CheckStop? && |s.procs| == n && forall i :: 0 <= i < n ==> s.procs[i].state.Reaped?;
      s := RespawnAfter(c, s, n);
    }
  }

  lemma RespawnAfter(c: Config, s: State, n: nat) returns (t: State)
    requires Reachable(c, s) && n >= 1 && |s.procs| == n && s.child == s.restarts == n - 1 && s.reaper.CheckStop?
    requires !s.stopping && !s.announced && s.control.Serving? && forall i :: 0 <= i < n ==> s.procs[i].state.Reaped?
    ensures Restarted(c, t, n)
  {
    hide Run, Reachable;
    t := Then(c, s, Reap);
    t := Then(c, t, TimerFires);
    t := Then(c, t, Reap);
    t := Then(c, t, Reap);
  }
}
