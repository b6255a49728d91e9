/**
 The bridged chat daemon: any number of nodes, each with a registry of connections and
 at most one bridge worker that dials its peer, joins there as a client, and repeats
 what it is delivered to its own ordinary clients. Connections come, go and reconnect
 at any point; a broadcast takes a snapshot of the registry and then sends one frame
 at a time.
 */
module Bridge {
  import opened Common

  /** peers[x] is the node that node x's bridge worker dials, if it has one. */
  type Config = peers: seq<Option<nat>> | forall x :: 0 <= x < |peers| && peers[x].Some? ==> peers[x].value < |peers|

  predicate SelfFree(c: Config) { forall x :: 0 <= x < |c| ==> c[x] != Some(x) }

  /** Who opened a connection: somebody's client program, or the bridge worker of a node. */
  datatype Owner = User | Worker(node: nat)
  datatype Membership = Joining | Joined | Left

  /** isBridge is what the server reads off the nick ("bridge@..."); out holds every frame written to the
      connection so far, by message; the first readPos of them have been read by its owner. */
  datatype Conn = Conn(server: nat, owner: Owner, isBridge: bool, open: bool, member: Membership, out: seq<nat>, readPos: nat)

  /** A MSG accepted from an ordinary connection. */
  datatype Msg = Msg(node: nat, sender: nat)

  /** A broadcast of message m on one node: by the handler that read the MSG, or by a bridge worker. */
  datatype Via = Origin | Relay(worker: nat)
  /** remaining are the connections it has still to write to. audience, all those it began with, and lost, those
      whose write failed, are history. */
  datatype Task = Task(m: nat, via: Via, node: nat, remaining: set<nat>, audience: set<nat>, lost: set<nat>)

  function NewTask(m: nat, via: Via, node: nat, targets: set<nat>): Task { Task(m, via, node, targets, targets, {}) }

  function Sent(t: Task, i: nat, ok: bool): Task {
    t.(remaining := t.remaining - {i}, lost := if ok then t.lost else t.lost + {i})
  }

  datatype State = State(conns: seq<Conn>, current: seq<Option<nat>>, msgs: seq<Msg>, tasks: seq<Task>)

  datatype Action =
    | Connect(server: nat, isBridge: bool)  // a user program dials; it may even claim a bridge nick
    | Join(conn: nat)                       // the server reads the JOIN and registers the connection
    | Leave(conn: nat)                      // the server sees the connection end and removes it
    | Say(conn: nat)                        // the server reads a MSG from a user and starts to broadcast it
    | Send(task: nat, conn: nat, ok: bool)  // one frame of a broadcast is written, or fails
    | Dial(node: nat)                       // a bridge worker connects to its peer
    | Hear(node: nat)                       // a bridge worker reads the next DELIVER and starts to relay it
    | HangUp(node: nat)                     // a bridge worker's read fails; it will dial again

  function Init(c: Config): State {
    State([], seq(|c|, _ => None), [], [])
  }

  /** hub.clients of one node: registered connection -> isBridge. */
  function Clients(conns: seq<Conn>, node: nat): map<nat, bool> {
    map i | 0 <= i < |conns| && conns[i].server == node && conns[i].member.Joined? :: conns[i].isBridge
  }

  /** The connections broadcastDeliver writes to. */
  function Targets(clients: map<nat, bool>, exclude: Option<nat>, includeBridges: bool): set<nat> {
    set i | i in clients && exclude != Some(i) && (clients[i] ==> includeBridges)
  }

  function Step(c: Config, s: State, a: Action): State {
    match a
    case Connect(server, isBridge) =>
      if server < |c| then s.(conns := s.conns + [Conn(server, User, isBridge, true, Joining, [], 0)]) else s
    case Join(i) =>
      if i < |s.conns| && s.conns[i].member.Joining? then s.(conns := s.conns[i := s.conns[i].(member := Joined)]) else s
    case Leave(i) =>
      if i < |s.conns| then s.(conns := s.conns[i := s.conns[i].(member := Left)]) else s
    case Say(i) =>
      if i < |s.conns| && s.conns[i].owner.User? && s.conns[i].member.Joined? then
        var node := s.conns[i].server;
        s.(msgs := s.msgs + [Msg(node, i)],
           tasks := s.tasks + [NewTask(|s.msgs|, Origin, node, Targets(Clients(s.conns, node), Some(i), true))])
      else s
    case Send(t, i, ok) =>
      if t < |s.tasks| && i in s.tasks[t].remaining && i < |s.conns| then
        var task, conn := s.tasks[t], s.conns[i];
        s.(tasks := s.tasks[t := Sent(task, i, ok)],
           conns := if ok then s.conns[i := conn.(out := conn.out + [task.m])] else s.conns)
      else s
    case Dial(x) =>
      if x < |s.current| == |c| && c[x].Some? && s.current[x].None? then
        s.(conns := s.conns + [Conn(c[x].value, Worker(x), true, true, Joining, [], 0)], current := s.current[x := Some(|s.conns|)])
      else s
    case Hear(x) =>
      if x < |s.current| && s.current[x].Some? && s.current[x].value < |s.conns|
         && s.conns[s.current[x].value].readPos < |s.conns[s.current[x].value].out| then
        var i := s.current[x].value;
        var m := s.conns[i].out[s.conns[i].readPos];
        s.(conns := s.conns[i := s.conns[i].(readPos := s.conns[i].readPos + 1)],
           tasks := s.tasks + [NewTask(m, Relay(x), x, Targets(Clients(s.conns, x), None, false))])
      else s
    case HangUp(x) =>
      if x < |s.current| && s.current[x].Some? && s.current[x].value < |s.conns| then
        var i := s.current[x].value;
        s.(conns := s.conns[i := s.conns[i].(open := false)], current := s.current[x := None])
      else s
  }

  function Run(c: Config, s: State, schedule: seq<Action>): State
    decreases |schedule|
  {
    if schedule == [] then s else Run(c, Step(c, s, schedule[0]), schedule[1..])
  }

  ghost predicate Reachable(c: Config, s: State) {
    exists schedule :: s == Run(c, Init(c), schedule)
  }

  // ----- the registry -----

  /** Joining registers the connection on its own node and changes no other registry. */
  lemma JoinRegisters(c: Config, s: State, i: nat, node: nat)
    requires i < |s.conns| && s.conns[i].member.Joining?
    ensures Clients(Step(c, s, Join(i)).conns, node) ==
            if s.conns[i].server == node then Clients(s.conns, node)[i := s.conns[i].isBridge] else Clients(s.conns, node)
  {
  }

  /** Leaving, at any time, takes it out of every registry. */
  lemma LeaveDeregisters(c: Config, s: State, i: nat, node: nat)
    requires i < |s.conns|
    ensures Clients(Step(c, s, Leave(i)).conns, node) == Clients(s.conns, node) - {i}
  {
  }

  /** No other step changes who is registered where. */
  lemma OthersKeepRegistries(c: Config, s: State, a: Action, node: nat)
    requires !a.Join? && !a.Leave?
    ensures Clients(Step(c, s, a).conns, node) == Clients(s.conns, node)
  {
  }

  /** The registry of one node, updated in place: Add and Remove are what JoinRegisters and LeaveDeregisters say
      of Clients, and Collect gathers the Targets that Say and Hear broadcast to. */
  class Hub {
    var clients: map<nat, bool>

    constructor ()
      ensures clients == map[]
    {
      clients := map[];
    }

    method Add(conn: nat, isBridge: bool)
      modifies this
      ensures clients == old(clients)[conn := isBridge]
    {
      clients := clients[conn := isBridge];
    }

    method Remove(conn: nat)
      modifies this
      ensures clients == old(clients) - {conn}
    {
      clients := clients - {conn};
    }

    /** The loop of broadcastDeliver that collects its targets, in whatever order the map yields them. */
    method Collect(exclude: Option<nat>, includeBridges: bool) returns (targets: seq<nat>)
      ensures multiset(targets) == multiset(Targets(clients, exclude, includeBridges))
    {
      targets := [];
      var left := clients.Keys;
      while left != {}
        invariant left <= clients.Keys
        invariant multiset(targets) == multiset(Targets(clients, exclude, includeBridges) - left)
        decreases left
      {
        var conn :| conn in left;
        ghost var before := Targets(clients, exclude, includeBridges) - left;
        left := left - {conn};
        ghost var after := Targets(clients, exclude, includeBridges) - left;
        if exclude == Some(conn) || (clients[conn] && !includeBridges) {
          assert after == before;
          continue;
        }
        assert after == before + {conn};
        targets := targets + [conn];
      }
      assert Targets(clients, exclude, includeBridges) - left == Targets(clients, exclude, includeBridges);
    }
  }

  // ----- the inductive invariant -----

  /** Node x has started to relay message m. */
  ghost predicate Relayed(tasks: seq<Task>, m: nat, x: nat) {
    exists t :: 0 <= t < |tasks| && tasks[t].m == m && tasks[t].via == Relay(x)
  }

  /** A worker's open connections are exactly its current one, and all its connections go to its peer. */
  ghost predicate WorkersInv(c: Config, s: State) {
    && |s.current| == |c|
    && (forall i :: 0 <= i < |s.conns| ==>
         var k := s.conns[i];
         k.readPos <= |k.out| && k.server < |c| &&
         (k.owner.Worker? ==> k.isBridge && k.owner.node < |c| && c[k.owner.node] == Some(k.server)
                              && (k.open ==> s.current[k.owner.node] == Some(i))))
    && (forall x :: 0 <= x < |c| && s.current[x].Some? ==>
         s.current[x].value < |s.conns| && s.conns[s.current[x].value].owner == Worker(x) && s.conns[s.current[x].value].open)
  }

  ghost predicate MsgsInv(s: State) {
    forall m :: 0 <= m < |s.msgs| ==> s.msgs[m].sender < |s.conns| && s.conns[s.msgs[m].sender].server == s.msgs[m].node
  }

  /** Where a broadcast runs and whom it may still write to. */
  ghost predicate TaskInv(c: Config, s: State, t: Task) {
    && t.m < |s.msgs|
    && (t.via.Origin? ==> t.node == s.msgs[t.m].node)
    && (t.via.Relay? ==> t.node == t.via.worker && (SelfFree(c) ==> t.node != s.msgs[t.m].node))
    && (forall i :: i in t.remaining ==>
         i < |s.conns| && s.conns[i].server == t.node
         && (t.via.Origin? ==> i != s.msgs[t.m].sender) && (t.via.Relay? ==> !s.conns[i].isBridge)
         && (SelfFree(c) || s.conns[i].isBridge ==> t.m !in s.conns[i].out)
         && (s.conns[i].owner.Worker? && s.conns[i].open ==> !Relayed(s.tasks, t.m, s.conns[i].owner.node)))
  }

  ghost predicate TasksInv(c: Config, s: State) {
    && (forall t :: 0 <= t < |s.tasks| ==> TaskInv(c, s, s.tasks[t]))
    && (forall t, u :: 0 <= t < u < |s.tasks| ==> s.tasks[t].m != s.tasks[u].m || s.tasks[t].via != s.tasks[u].via)
  }

  /** What has been written to connection k. A bridge connection gets the messages said on its own server, each
      once; without a self-peer every connection gets each message once, from its own node or by a relay. */
  ghost predicate OutInv(c: Config, s: State, i: nat, k: Conn) {
    && (SelfFree(c) || k.isBridge ==> forall p, q :: 0 <= p < q < |k.out| ==> k.out[p] != k.out[q])
    && (forall p :: 0 <= p < |k.out| ==>
         k.out[p] < |s.msgs|
         && (k.isBridge ==> k.server == s.msgs[k.out[p]].node)
         && (SelfFree(c) ==>
              if k.server == s.msgs[k.out[p]].node then i != s.msgs[k.out[p]].sender else Relayed(s.tasks, k.out[p], k.server)))
    && (k.owner.Worker? && k.open ==>
         forall p :: k.readPos <= p < |k.out| ==> !Relayed(s.tasks, k.out[p], k.owner.node))
  }

  ghost predicate ConnsInv(c: Config, s: State) {
    forall i :: 0 <= i < |s.conns| ==> OutInv(c, s, i, s.conns[i])
  }

  ghost predicate Inv(c: Config, s: State) {
    WorkersInv(c, s) && MsgsInv(s) && TasksInv(c, s) && ConnsInv(c, s)
  }

  lemma RelayedByOneMore(tasks: seq<Task>, t: Task, m: nat, x: nat)
    ensures Relayed(tasks + [t], m, x) <==> Relayed(tasks, m, x) || (t.m == m && t.via == Relay(x))
  {
    var more := tasks + [t];
    if Relayed(tasks, m, x) {
      var k :| 0 <= k < |tasks| && tasks[k].m == m && tasks[k].via == Relay(x);
      assert more[k] == tasks[k];
    }
    assert more[|tasks|] == t;
  }

  lemma RelayedUnchanged(tasks: seq<Task>, k: nat, task: Task, m: nat, x: nat)
    requires k < |tasks| && task.m == tasks[k].m && task.via == tasks[k].via
    ensures Relayed(tasks[k := task], m, x) <==> Relayed(tasks, m, x)
  {
    var t := tasks[k := task];
    if Relayed(tasks, m, x) {
      var j :| 0 <= j < |tasks| && tasks[j].m == m && tasks[j].via == Relay(x);
      assert t[j].m == m && t[j].via == Relay(x);
    }
  }

  /** Who relayed what, seen from the tasks of two states. */
  ghost predicate SameRelays(s: State, t: State) {
    forall m: nat, x: nat :: Relayed(t.tasks, m, x) == Relayed(s.tasks, m, x)
  }

  lemma DialKeepsWorkers(c: Config, s: State, a: Action)
    requires WorkersInv(c, s) && (a.Dial? || a.HangUp?)
    ensures WorkersInv(c, Step(c, s, a))
  {
  }

  lemma FramesKeepWorkers(c: Config, s: State, a: Action)
    requires WorkersInv(c, s) && !a.Dial? && !a.HangUp?
    ensures WorkersInv(c, Step(c, s, a))
  {
    hide Targets, Clients;
  }

  lemma StepKeepsWorkers(c: Config, s: State, a: Action)
    requires WorkersInv(c, s)
    ensures WorkersInv(c, Step(c, s, a))
  {
    hide WorkersInv, Step;
    if a.Dial? || a.HangUp? { DialKeepsWorkers(c, s, a); } else { FramesKeepWorkers(c, s, a); }
  }

  lemma StepKeepsMsgs(c: Config, s: State, a: Action)
    requires Inv(c, s)
    ensures MsgsInv(Step(c, s, a))
  {
    hide TasksInv, ConnsInv, WorkersInv, Targets, Clients;
  }

  /** Old connections keep what was written to them; new ones have nothing. */
  ghost predicate OnlyMembership(s: State, t: State) {
    && t.tasks == s.tasks && t.msgs == s.msgs && |s.conns| <= |t.conns|
    && (forall i :: 0 <= i < |s.conns| ==>
         t.conns[i].server == s.conns[i].server && t.conns[i].out == s.conns[i].out && t.conns[i].readPos == s.conns[i].readPos
         && t.conns[i].isBridge == s.conns[i].isBridge && t.conns[i].owner == s.conns[i].owner && (t.conns[i].open ==> s.conns[i].open))
    && (forall i :: |s.conns| <= i < |t.conns| ==> t.conns[i].out == [])
  }

  lemma OnlyMembershipKeeps(c: Config, s: State, t: State)
    requires TasksInv(c, s) && ConnsInv(c, s) && OnlyMembership(s, t)
    ensures TasksInv(c, t) && ConnsInv(c, t)
  {
    hide Relayed;
    forall k | 0 <= k < |t.tasks| ensures TaskInv(c, t, t.tasks[k]) { assert TaskInv(c, s, s.tasks[k]); }
    forall i | 0 <= i < |t.conns| ensures OutInv(c, t, i, t.conns[i]) {
      if i < |s.conns| { assert OutInv(c, s, i, s.conns[i]); }
    }
  }

  /** Steps that only add a connection or change who is connected. */
  lemma MembershipKeepsInv(c: Config, s: State, a: Action)
    requires Inv(c, s) && (a.Connect? || a.Join? || a.Leave? || a.Dial? || a.HangUp?)
    ensures Inv(c, Step(c, s, a))
  {
    StepKeepsWorkers(c, s, a);
    StepKeepsMsgs(c, s, a);
    hide WorkersInv, MsgsInv, TasksInv, ConnsInv;
    assert OnlyMembership(s, Step(c, s, a));
    hide Step;
    OnlyMembershipKeeps(c, s, Step(c, s, a));
  }

  /** t is s with one more message, whose own broadcast has begun. */
  ghost predicate Said(s: State, t: State, i: nat) {
    && i < |s.conns| && t.conns == s.conns && |t.tasks| == |s.tasks| + 1 && t.tasks[..|s.tasks|] == s.tasks
    && t.msgs == s.msgs + [Msg(s.conns[i].server, i)]
    && var added := t.tasks[|s.tasks|];
      && added.m == |s.msgs| && added.via.Origin? && added.node == s.conns[i].server
      && forall j :: j in added.remaining ==> j < |s.conns| && s.conns[j].server == added.node && j != i
  }

  lemma SayKeepsInv(c: Config, s: State, i: nat)
    requires Inv(c, s)
    ensures Inv(c, Step(c, s, Say(i)))
  {
    var t := Step(c, s, Say(i));
    StepKeepsWorkers(c, s, Say(i));
    StepKeepsMsgs(c, s, Say(i));
    hide WorkersInv, MsgsInv, TasksInv, ConnsInv;
    if t != s {
      assert Said(s, t, i);
      hide Step;
      SaidKeeps(c, s, t, i);
    }
  }

  lemma SaidKeeps(c: Config, s: State, t: State, i: nat)
    requires TasksInv(c, s) && ConnsInv(c, s) && Said(s, t, i)
    ensures TasksInv(c, t) && ConnsInv(c, t)
  {
    hide Relayed;
    var m, added := |s.msgs|, t.tasks[|s.tasks|];
    assert t.tasks == s.tasks + [added];
    forall n: nat, x: nat ensures Relayed(t.tasks, n, x) == Relayed(s.tasks, n, x) { RelayedByOneMore(s.tasks, added, n, x); }
    assert forall x: nat :: !Relayed(s.tasks, m, x) by { NotYetRelayed(c, s); }
    forall j | 0 <= j < |t.conns| ensures OutInv(c, t, j, t.conns[j]) { assert OutInv(c, s, j, s.conns[j]); }
    forall j | j in added.remaining ensures m !in t.conns[j].out { assert OutInv(c, s, j, s.conns[j]); }
    forall k | 0 <= k < |t.tasks| ensures TaskInv(c, t, t.tasks[k]) {
      if k < |s.tasks| { assert TaskInv(c, s, s.tasks[k]); }
    }
    assert forall k :: 0 <= k < |s.tasks| ==> t.tasks[k] == s.tasks[k] && s.tasks[k].m < m;
  }

  lemma NotYetRelayed(c: Config, s: State)
    requires TasksInv(c, s)
    ensures forall x: nat :: !Relayed(s.tasks, |s.msgs|, x)
  {
  }

  /** t is s after one frame of broadcast k went to connection i. */
  ghost predicate OneFrame(s: State, t: State, k: nat, i: nat, ok: bool) {
    && k < |s.tasks| && i in s.tasks[k].remaining && i < |s.conns| && t.msgs == s.msgs
    && t.tasks == s.tasks[k := Sent(s.tasks[k], i, ok)]
    && t.conns == if ok then s.conns[i := s.conns[i].(out := s.conns[i].out + [s.tasks[k].m])] else s.conns
  }

  /** No other broadcast of the same message still has to write to the same connection. */
  lemma OneTaskPerTarget(c: Config, s: State, k: nat, u: nat, i: nat)
    requires TasksInv(c, s) && k < |s.tasks| && u < |s.tasks| && k != u && s.tasks[k].m == s.tasks[u].m
    requires i in s.tasks[k].remaining && i < |s.conns| && (SelfFree(c) || s.conns[i].isBridge)
    ensures i !in s.tasks[u].remaining
  {
    hide Relayed;
    assert TaskInv(c, s, s.tasks[k]) && TaskInv(c, s, s.tasks[u]);
  }

  lemma OutInvStays(c: Config, s: State, t: State, j: nat)
    requires j < |s.conns| && OutInv(c, s, j, s.conns[j]) && t.msgs == s.msgs && SameRelays(s, t)
    ensures OutInv(c, t, j, s.conns[j])
  {
    hide Relayed, SelfFree;
  }

  lemma OutInvGrows(c: Config, s: State, t: State, i: nat, task: Task)
    requires i < |s.conns| && OutInv(c, s, i, s.conns[i]) && TaskInv(c, s, task) && i in task.remaining
    requires t.msgs == s.msgs && SameRelays(s, t) && (task.via.Relay? ==> Relayed(s.tasks, task.m, task.node))
    ensures OutInv(c, t, i, s.conns[i].(out := s.conns[i].out + [task.m]))
  {
    hide Relayed, SelfFree;
  }

  lemma OneFrameKeepsConns(c: Config, s: State, t: State, k: nat, i: nat, ok: bool)
    requires TasksInv(c, s) && ConnsInv(c, s) && OneFrame(s, t, k, i, ok) && SameRelays(s, t)
    ensures ConnsInv(c, t)
  {
    var task := s.tasks[k];
    assert TaskInv(c, s, task);
    assert task.via.Relay? ==> Relayed(s.tasks, task.m, task.node);
    hide Relayed, SelfFree, TaskInv, OutInv;
    forall j | 0 <= j < |t.conns| ensures OutInv(c, t, j, t.conns[j]) {
      assert OutInv(c, s, j, s.conns[j]);
      if ok && j == i { OutInvGrows(c, s, t, i, task); } else { OutInvStays(c, s, t, j); }
    }
  }

  /** A broadcast after message m was written to connection i, which it need not write m to itself. */
  lemma TaskInvStays(c: Config, s: State, t: State, task: Task, i: nat, m: nat)
    requires TaskInv(c, s, task) && t.msgs == s.msgs && SameRelays(s, t) && i < |s.conns|
    requires t.conns == s.conns || t.conns == s.conns[i := s.conns[i].(out := s.conns[i].out + [m])]
    requires task.m == m && i in task.remaining ==> !SelfFree(c) && !s.conns[i].isBridge
    ensures TaskInv(c, t, task)
  {
    hide Relayed, SelfFree;
  }

  lemma OneFrameKeepsTasks(c: Config, s: State, t: State, k: nat, i: nat, ok: bool)
    requires TasksInv(c, s) && OneFrame(s, t, k, i, ok) && SameRelays(s, t)
    ensures TasksInv(c, t)
  {
    var less := Sent(s.tasks[k], i, ok);
    assert TaskInv(c, s, s.tasks[k]) && TaskInv(c, s, less);
    hide Relayed, SelfFree, TaskInv;
    forall u | 0 <= u < |t.tasks| ensures TaskInv(c, t, t.tasks[u]) {
      assert TaskInv(c, s, s.tasks[u]);
      if u != k && s.tasks[u].m == s.tasks[k].m && (SelfFree(c) || s.conns[i].isBridge) { OneTaskPerTarget(c, s, k, u, i); }
      TaskInvStays(c, s, t, t.tasks[u], i, s.tasks[k].m);
    }
  }

  lemma SendKeepsInv(c: Config, s: State, k: nat, i: nat, ok: bool)
    requires Inv(c, s)
    ensures Inv(c, Step(c, s, Send(k, i, ok)))
  {
    var t := Step(c, s, Send(k, i, ok));
    StepKeepsWorkers(c, s, Send(k, i, ok));
    StepKeepsMsgs(c, s, Send(k, i, ok));
    hide WorkersInv, MsgsInv, TasksInv, ConnsInv;
    if t != s {
      assert OneFrame(s, t, k, i, ok);
      hide Step;
      forall m: nat, x: nat ensures Relayed(t.tasks, m, x) == Relayed(s.tasks, m, x) {
        RelayedUnchanged(s.tasks, k, Sent(s.tasks[k], i, ok), m, x);
      }
      OneFrameKeepsConns(c, s, t, k, i, ok);
      OneFrameKeepsTasks(c, s, t, k, i, ok);
    }
  }

  /** t is s after the worker of node x, on its current connection i, took message m and began to relay it. */
  ghost predicate RelayStarts(c: Config, s: State, t: State, x: nat, i: nat, m: nat, task: Task) {
    && x < |c| && i < |s.conns| && s.conns[i].owner == Worker(x) && s.conns[i].open && s.conns[i].isBridge && c[x] == Some(s.conns[i].server)
    && s.conns[i].readPos < |s.conns[i].out| && m == s.conns[i].out[s.conns[i].readPos]
    && t.msgs == s.msgs && t.tasks == s.tasks + [task] && task.m == m && task.via == Relay(x) && task.node == x
    && t.conns == s.conns[i := s.conns[i].(readPos := s.conns[i].readPos + 1)]
    && (forall j :: j in task.remaining ==> j < |s.conns| && s.conns[j].server == x && !s.conns[j].isBridge)
    && (forall j :: 0 <= j < |s.conns| && s.conns[j].owner == Worker(x) && s.conns[j].open ==> j == i)
    && (forall j :: 0 <= j < |s.conns| && s.conns[j].owner.Worker? ==> s.conns[j].isBridge)
  }

  /** After that, x has relayed m and nothing else is new. */
  ghost predicate OneMoreRelay(s: State, t: State, m: nat, x: nat) {
    forall n: nat, y: nat :: Relayed(t.tasks, n, y) == (Relayed(s.tasks, n, y) || (n == m && y == x))
  }

  lemma HearStartsRelay(c: Config, s: State, x: nat)
    requires WorkersInv(c, s) && Step(c, s, Hear(x)) != s
    ensures x < |s.current| && s.current[x].Some? && s.current[x].value < |s.conns|
    ensures |Step(c, s, Hear(x)).tasks| == |s.tasks| + 1
    ensures var i := s.current[x].value;
      s.conns[i].readPos < |s.conns[i].out| &&
      RelayStarts(c, s, Step(c, s, Hear(x)), x, i, s.conns[i].out[s.conns[i].readPos], Step(c, s, Hear(x)).tasks[|s.tasks|])
  {
  }

  /** What a worker reads was said on the node it dials, and it has not relayed it before. */
  lemma HeardIsNew(c: Config, s: State, t: State, x: nat, i: nat, m: nat, task: Task)
    requires ConnsInv(c, s) && RelayStarts(c, s, t, x, i, m, task)
    ensures m < |s.msgs| && s.msgs[m].node == s.conns[i].server && (SelfFree(c) ==> s.msgs[m].node != x) && !Relayed(s.tasks, m, x)
  {
    hide Relayed;
    assert OutInv(c, s, i, s.conns[i]);
  }

  lemma RelayKeepsConns(c: Config, s: State, t: State, x: nat, i: nat, m: nat, task: Task)
    requires ConnsInv(c, s) && RelayStarts(c, s, t, x, i, m, task) && OneMoreRelay(s, t, m, x)
    ensures ConnsInv(c, t)
  {
    hide Relayed;
    HeardIsNew(c, s, t, x, i, m, task);
    forall j | 0 <= j < |t.conns| ensures OutInv(c, t, j, t.conns[j]) { assert OutInv(c, s, j, s.conns[j]); }
  }

  lemma RelayKeepsTasks(c: Config, s: State, t: State, x: nat, i: nat, m: nat, task: Task)
    requires TasksInv(c, s) && ConnsInv(c, s) && RelayStarts(c, s, t, x, i, m, task) && OneMoreRelay(s, t, m, x)
    ensures TasksInv(c, t)
  {
    HeardIsNew(c, s, t, x, i, m, task);
    assert forall u :: 0 <= u < |s.tasks| ==> s.tasks[u].m != m || s.tasks[u].via != Relay(x);
    hide Relayed;
    forall j | j in task.remaining && SelfFree(c) ensures m !in t.conns[j].out { assert OutInv(c, s, j, s.conns[j]); }
    hide ConnsInv;
    forall u | 0 <= u < |t.tasks| ensures TaskInv(c, t, t.tasks[u]) {
      if u < |s.tasks| { assert TaskInv(c, s, s.tasks[u]); }
    }
  }

  lemma HearKeepsInv(c: Config, s: State, x: nat)
    requires Inv(c, s)
    ensures Inv(c, Step(c, s, Hear(x)))
  {
    var t := Step(c, s, Hear(x));
    StepKeepsWorkers(c, s, Hear(x));
    StepKeepsMsgs(c, s, Hear(x));
    if t != s {
      HearStartsRelay(c, s, x);
      hide Step, WorkersInv, MsgsInv, TasksInv, ConnsInv;
      var i, task := s.current[x].value, t.tasks[|s.tasks|];
      var m := s.conns[i].out[s.conns[i].readPos];
      forall n: nat, y: nat ensures Relayed(t.tasks, n, y) == (Relayed(s.tasks, n, y) || (n == m && y == x)) {
        RelayedByOneMore(s.tasks, task, n, y);
      }
      RelayKeepsConns(c, s, t, x, i, m, task);
      RelayKeepsTasks(c, s, t, x, i, m, task);
    }
  }

  lemma StepKeepsInv(c: Config, s: State, a: Action)
    requires Inv(c, s)
    ensures Inv(c, Step(c, s, a))
  {
    hide Inv, Step;
    match a
    case Say(i) => SayKeepsInv(c, s, i);
    case Send(k, i, ok) => SendKeepsInv(c, s, k, i, ok);
    case Hear(x) => HearKeepsInv(c, s, x);
    case _ => MembershipKeepsInv(c, s, a);
  }

  lemma {:induction false} RunKeepsInv(c: Config, s: State, schedule: seq<Action>)
    requires Inv(c, s)
    ensures Inv(c, Run(c, s, schedule))
    decreases |schedule|
  {
    hide Inv, Step;
    if schedule != [] {
      StepKeepsInv(c, s, schedule[0]);
      RunKeepsInv(c, Step(c, s, schedule[0]), schedule[1..]);
    }
  }

  lemma ReachableInv(c: Config, s: State)
    requires Reachable(c, s)
    ensures Inv(c, s)
  {
    hide Run, Step;
    var schedule :| s == Run(c, Init(c), schedule);
    RunKeepsInv(c, Init(c), schedule);
  }

  // ----- what holds in every run -----

  /** No connection is ever sent the same message twice, across any number of bridge reconnects. */
  lemma AtMostOnce(c: Config, s: State, i: nat, p: nat, q: nat)
    requires SelfFree(c) && Reachable(c, s) && i < |s.conns| && p < q < |s.conns[i].out|
    ensures s.conns[i].out[p] != s.conns[i].out[q]
  {
    hide Run, TasksInv, WorkersInv, Relayed;
    ReachableInv(c, s);
    assert OutInv(c, s, i, s.conns[i]);
  }

  /** The connection that said a message is never sent it. */
  lemma SenderNeverHearsItself(c: Config, s: State, m: nat)
    requires SelfFree(c) && Reachable(c, s) && m < |s.msgs|
    ensures s.msgs[m].sender < |s.conns| && m !in s.conns[s.msgs[m].sender].out
  {
    hide Run, TasksInv, WorkersInv, Relayed;
    ReachableInv(c, s);
    assert OutInv(c, s, s.msgs[m].sender, s.conns[s.msgs[m].sender]);
  }

  /** Messages travel one hop: what a bridge connection carries was said on the node that writes it, and
      what a worker repeats goes to no bridge connection, to ordinary clients of its own node only. */
  lemma OneHop(c: Config, s: State, i: nat, p: nat, t: nat, j: nat)
    requires Reachable(c, s) && i < |s.conns| && t < |s.tasks|
    ensures s.conns[i].isBridge && p < |s.conns[i].out| ==>
      s.conns[i].out[p] < |s.msgs| && s.msgs[s.conns[i].out[p]].node == s.conns[i].server
    ensures s.tasks[t].via.Relay? && j in s.tasks[t].remaining ==>
      j < |s.conns| && !s.conns[j].isBridge && s.conns[j].server == s.tasks[t].via.worker
  {
    hide Run, WorkersInv, Relayed;
    ReachableInv(c, s);
    assert OutInv(c, s, i, s.conns[i]) && TaskInv(c, s, s.tasks[t]);
  }

  /** The broadcasts of message m so far. */
  ghost function BroadcastsOf(s: State, m: nat): set<nat> { set t | 0 <= t < |s.tasks| && s.tasks[t].m == m }

  function ViaCode(v: Via): nat { if v.Origin? then 0 else v.worker + 1 }

  lemma {:induction false} CodesBelow(ids: set<nat>, code: nat -> nat, n: nat)
    requires forall i :: i in ids ==> code(i) < n
    requires forall i, j :: i in ids && j in ids && i != j ==> code(i) != code(j)
    ensures |ids| <= n
    decreases n
  {
    if n == 0 {
      assert forall i :: i !in ids;
      assert ids == {};
    } else if i :| i in ids && code(i) == n - 1 {
      CodesBelow(ids - {i}, code, n - 1);
    } else {
      CodesBelow(ids, code, n - 1);
    }
  }

  /** One MSG causes at most one broadcast per node besides the one on its own node, so finitely many frames. */
  lemma FinitelyManyBroadcasts(c: Config, s: State, m: nat)
    requires Reachable(c, s)
    ensures |BroadcastsOf(s, m)| <= |c| + 1
  {
    hide Run, ConnsInv, Relayed;
    ReachableInv(c, s);
    RelaysOnNodes(c, s);
    var code: nat -> nat := (t: nat) => if t < |s.tasks| then ViaCode(s.tasks[t].via) else 0;
    CodesBelow(BroadcastsOf(s, m), code, |c| + 1);
  }

  /** Relays run on nodes of the configuration. */
  lemma RelaysOnNodes(c: Config, s: State)
    requires Reachable(c, s)
    ensures forall t :: 0 <= t < |s.tasks| && s.tasks[t].via.Relay? ==> s.tasks[t].via.worker < |c|
  {
    hide Step, Run;
    var schedule :| s == Run(c, Init(c), schedule);
    RunRelaysOnNodes(c, Init(c), schedule);
  }

  lemma {:induction false} RunRelaysOnNodes(c: Config, s: State, schedule: seq<Action>)
    requires |s.current| == |c| && forall t :: 0 <= t < |s.tasks| && s.tasks[t].via.Relay? ==> s.tasks[t].via.worker < |c|
    ensures forall t :: 0 <= t < |Run(c, s, schedule).tasks| && Run(c, s, schedule).tasks[t].via.Relay? ==>
      Run(c, s, schedule).tasks[t].via.worker < |c|
    decreases |schedule|
  {
    if schedule != [] {
      RunRelaysOnNodes(c, Step(c, s, schedule[0]), schedule[1..]);
    }
  }

  /** A bridge worker that loses its connection dials its peer again. */
  lemma BridgeReconnects(c: Config, s: State, x: nat)
    requires Reachable(c, s) && x < |c| == |s.current| && s.current[x].Some?
    ensures var t := Step(c, s, HangUp(x));
      && t.current[x] == None && s.current[x].value < |t.conns| && !t.conns[s.current[x].value].open
      && var u := Step(c, t, Dial(x));
         && u.current[x] == Some(|s.conns|) && |u.conns| == |s.conns| + 1
         && c[x].Some? && u.conns[|s.conns|] == Conn(c[x].value, Worker(x), true, true, Joining, [], 0)
  {
    hide Run;
    ReachableInv(c, s);
  }

  // ----- delivery -----

  /** A MSG is broadcast to every connection joined on its node but the sender's, bridges included. */
  lemma SayAddresses(c: Config, s: State, i: nat)
    requires i < |s.conns| && s.conns[i].owner.User? && s.conns[i].member.Joined?
    ensures var t := Step(c, s, Say(i));
      && t.msgs == s.msgs + [Msg(s.conns[i].server, i)] && |t.tasks| == |s.tasks| + 1 && t.conns == s.conns
      && t.tasks[|s.tasks|].m == |s.msgs| && t.tasks[|s.tasks|].lost == {}
      && forall j :: j in t.tasks[|s.tasks|].remaining <==>
           0 <= j < |s.conns| && j != i && s.conns[j].server == s.conns[i].server && s.conns[j].member.Joined?
  {
  }

  /** A DELIVER that a worker reads is repeated to every ordinary connection joined on the worker's node. */
  lemma HearAddresses(c: Config, s: State, x: nat, i: nat)
    requires x < |s.current| && s.current[x] == Some(i) && i < |s.conns| && s.conns[i].readPos < |s.conns[i].out|
    ensures var t := Step(c, s, Hear(x));
      && |t.tasks| == |s.tasks| + 1 && t.conns[i].readPos == s.conns[i].readPos + 1
      && t.tasks[|s.tasks|].m == s.conns[i].out[s.conns[i].readPos] && t.tasks[|s.tasks|].lost == {}
      && forall j :: j in t.tasks[|s.tasks|].remaining <==>
           0 <= j < |s.conns| && s.conns[j].server == x && s.conns[j].member.Joined? && !s.conns[j].isBridge
  {
  }

  /** Every connection of a broadcast's audience has the message, has still to be written to, or had its write fail. */
  ghost predicate Served(s: State, t: Task) {
    forall j :: j in t.audience ==> j < |s.conns| && (j in t.remaining || j in t.lost || t.m in s.conns[j].out)
  }

  ghost predicate AllServed(s: State) { forall k :: 0 <= k < |s.tasks| ==> Served(s, s.tasks[k]) }

  /** What is written to a connection stays written. */
  ghost predicate OutGrows(s: State, t: State) {
    |s.conns| <= |t.conns| && forall j :: 0 <= j < |s.conns| ==> s.conns[j].out <= t.conns[j].out
  }

  /** A broadcast keeps its message and its audience, whatever happens. */
  ghost predicate TasksStay(s: State, t: State) {
    && |s.tasks| <= |t.tasks|
    && forall k :: 0 <= k < |s.tasks| ==> t.tasks[k].m == s.tasks[k].m && t.tasks[k].audience == s.tasks[k].audience
  }

  lemma StepGrows(c: Config, s: State, a: Action)
    ensures OutGrows(s, Step(c, s, a)) && TasksStay(s, Step(c, s, a))
  {
    hide Targets, Clients;
  }

  lemma NewTargetsExist(conns: seq<Conn>, node: nat, exclude: Option<nat>, includeBridges: bool)
    ensures forall j :: j in Targets(Clients(conns, node), exclude, includeBridges) ==> j < |conns|
  {
  }

  lemma StepKeepsServed(c: Config, s: State, a: Action)
    requires AllServed(s)
    ensures AllServed(Step(c, s, a))
  {
    var t := Step(c, s, a);
    StepGrows(c, s, a);
    if a.Say? && a.conn < |s.conns| { NewTargetsExist(s.conns, s.conns[a.conn].server, Some(a.conn), true); }
    if a.Hear? { NewTargetsExist(s.conns, a.node, None, false); }
    hide Targets, Clients;
    forall k | 0 <= k < |t.tasks| ensures Served(t, t.tasks[k]) {
      if k < |s.tasks| { assert Served(s, s.tasks[k]); }
    }
  }

  lemma {:induction false} RunKeepsServed(c: Config, s: State, schedule: seq<Action>)
    requires AllServed(s)
    ensures AllServed(Run(c, s, schedule)) && TasksStay(s, Run(c, s, schedule))
    decreases |schedule|
  {
    hide AllServed, Step;
    if schedule != [] {
      StepKeepsServed(c, s, schedule[0]);
      StepGrows(c, s, schedule[0]);
      RunKeepsServed(c, Step(c, s, schedule[0]), schedule[1..]);
    }
  }

  lemma ReachableServed(c: Config, s: State)
    requires Reachable(c, s)
    ensures AllServed(s)
  {
    hide Run, Step, AllServed;
    var schedule :| s == Run(c, Init(c), schedule);
    NothingToServe(c);
    RunKeepsServed(c, Init(c), schedule);
  }

  lemma NothingToServe(c: Config)
    ensures AllServed(Init(c))
  {
  }

  /** A broadcast that has finished without a failed write has reached its whole audience. */
  lemma FinishedIsDelivered(c: Config, s: State, k: nat, j: nat)
    requires Reachable(c, s) && k < |s.tasks| && s.tasks[k].remaining == {} && s.tasks[k].lost == {} && j in s.tasks[k].audience
    ensures j < |s.conns| && s.tasks[k].m in s.conns[j].out
  {
    hide Run;
    ReachableServed(c, s);
    assert Served(s, s.tasks[k]);
  }

  /** What is left of a broadcast can always be written. */
  lemma BroadcastGoesOn(c: Config, s: State, k: nat, j: nat, ok: bool)
    requires Reachable(c, s) && k < |s.tasks| && j in s.tasks[k].remaining
    ensures var t := Step(c, s, Send(k, j, ok));
      && t.tasks[k].remaining == s.tasks[k].remaining - {j} && (j in t.tasks[k].lost <==> !ok || j in s.tasks[k].lost)
      && j < |s.conns| && t.conns[j].out == s.conns[j].out + if ok then [s.tasks[k].m] else []
  {
    hide Run;
    ReachableInv(c, s);
    assert TaskInv(c, s, s.tasks[k]);
  }

  /** End to end on one node: whatever happens after a MSG was read, once its broadcast has finished without a failed
      write, everybody else who was joined there has it. */
  lemma SaidIsDelivered(c: Config, s: State, i: nat, later: seq<Action>, j: nat)
    requires Reachable(c, s) && i < |s.conns| && s.conns[i].owner.User? && s.conns[i].member.Joined?
    requires j < |s.conns| && j != i && s.conns[j].server == s.conns[i].server && s.conns[j].member.Joined?
    ensures var t := Run(c, Step(c, s, Say(i)), later);
      |s.tasks| < |t.tasks| && t.tasks[|s.tasks|].m == |s.msgs|
      && (t.tasks[|s.tasks|].remaining == {} && t.tasks[|s.tasks|].lost == {} ==>
            j < |t.conns| && |s.msgs| in t.conns[j].out)
  {
    SayAddresses(c, s, i);
    AddressedIsDelivered(c, s, Say(i), later, j);
  }

  /** And across the bridge: once the worker's broadcast has finished without a failed write, every ordinary client
      of its node who was joined when the worker read the message has it. */
  lemma HeardIsDelivered(c: Config, s: State, x: nat, i: nat, later: seq<Action>, j: nat)
    requires Reachable(c, s) && x < |s.current| && s.current[x] == Some(i) && i < |s.conns| && s.conns[i].readPos < |s.conns[i].out|
    requires j < |s.conns| && s.conns[j].server == x && s.conns[j].member.Joined? && !s.conns[j].isBridge
    ensures var t, m := Run(c, Step(c, s, Hear(x)), later), s.conns[i].out[s.conns[i].readPos];
      |s.tasks| < |t.tasks| && t.tasks[|s.tasks|].m == m
      && (t.tasks[|s.tasks|].remaining == {} && t.tasks[|s.tasks|].lost == {} ==> j < |t.conns| && m in t.conns[j].out)
  {
    HearAddresses(c, s, x, i);
    AddressedIsDelivered(c, s, Hear(x), later, j);
  }

  lemma AddressedIsDelivered(c: Config, s: State, a: Action, later: seq<Action>, j: nat)
    requires Reachable(c, s) && (a.Say? || a.Hear?)
    requires |Step(c, s, a).tasks| == |s.tasks| + 1 && j in Step(c, s, a).tasks[|s.tasks|].remaining
    ensures var t, k := Run(c, Step(c, s, a), later), |s.tasks|;
      |s.tasks| < |t.tasks| && t.tasks[k].m == Step(c, s, a).tasks[k].m
      && (t.tasks[k].remaining == {} && t.tasks[k].lost == {} ==> j < |t.conns| && t.tasks[k].m in t.conns[j].out)
  {
    var t, k := Run(c, Step(c, s, a), later), |s.tasks|;
    assert j in Step(c, s, a).tasks[k].audience;
    hide Step, Run;
    ReachableServed(c, s);
    StepKeepsServed(c, s, a);
    RunKeepsServed(c, Step(c, s, a), later);
    assert Served(t, t.tasks[k]);
  }

  // ----- and why no node may peer with itself -----

  lemma {:induction false} RunLast(c: Config, s: State, schedule: seq<Action>, a: Action)
    ensures Run(c, s, schedule + [a]) == Step(c, Run(c, s, schedule), a)
    decreases |schedule|
  {
    hide Step;
    if schedule == [] {
      assert schedule + [a] == [a];
      assert Run(c, Step(c, s, a), []) == Step(c, s, a);
    } else {
      assert (schedule + [a])[1..] == schedule[1..] + [a];
      RunLast(c, Step(c, s, schedule[0]), schedule[1..], a);
    }
  }

  lemma ReachableStep(c: Config, s: State, a: Action)
    requires Reachable(c, s)
    ensures Reachable(c, Step(c, s, a))
  {
    hide Run, Step;
    var schedule :| s == Run(c, Init(c), schedule);
    RunLast(c, Init(c), schedule, a);
  }

  ghost predicate Echoes(s: State) {
    exists m :: 0 <= m < |s.msgs| && s.msgs[m].sender < |s.conns| && m in s.conns[s.msgs[m].sender].out
  }

  /** A user and the node's own worker on one registry: the user says something and hears it back. */
  lemma SelfPeerEchoes(c: Config, x: nat)
    requires x < |c| && c[x] == Some(x)
    ensures exists s :: Reachable(c, s) && Echoes(s)
  {
    var s0 := Init(c);
    assert Reachable(c, s0) by { assert Run(c, s0, []) == s0; }
    var s1 := Step(c, s0, Connect(x, false));
    var s2 := Step(c, s1, Join(0));
    var s3 := Step(c, s2, Dial(x));
    var s4 := Step(c, s3, Join(1));
    assert s4.conns == [Conn(x, User, false, true, Joined, [], 0), Conn(x, Worker(x), true, true, Joined, [], 0)];
    ReachableStep(c, s0, Connect(x, false));
    ReachableStep(c, s1, Join(0));
    ReachableStep(c, s2, Dial(x));
    ReachableStep(c, s3, Join(1));
    EchoFrom(c, s4, x);
  }

  lemma EchoFrom(c: Config, s4: State, x: nat)
    requires Reachable(c, s4) && x < |c| == |s4.current| && s4.current[x] == Some(1) && s4.msgs == [] && s4.tasks == []
    requires s4.conns == [Conn(x, User, false, true, Joined, [], 0), Conn(x, Worker(x), true, true, Joined, [], 0)]
    ensures exists s :: Reachable(c, s) && Echoes(s)
  {
    hide Run, Reachable;
    var s5 := Step(c, s4, Say(0));
    assert 1 in Clients(s4.conns, x) && |s5.tasks| == 1 && 1 in s5.tasks[0].remaining;
    var s6 := Step(c, s5, Send(0, 1, true));
    assert s6.conns[1].out == [0] && s6.conns[0] == s4.conns[0];
    ReachableStep(c, s4, Say(0));
    ReachableStep(c, s5, Send(0, 1, true));
    hide Step;
    EchoReturns(c, s6, x);
  }

  lemma EchoReturns(c: Config, s6: State, x: nat)
    requires Reachable(c, s6) && x < |c| == |s6.current| && s6.current[x] == Some(1) && |s6.tasks| == 1
    requires s6.conns == [Conn(x, User, false, true, Joined, [], 0), Conn(x, Worker(x), true, true, Joined, [0], 0)]
    requires s6.msgs == [Msg(x, 0)]
    ensures exists s :: Reachable(c, s) && Echoes(s)
  {
    hide Run, Reachable;
    var s7 := Step(c, s6, Hear(x));
    assert 0 in Clients(s6.conns, x) && |s7.tasks| == 2 && s7.tasks[1].m == 0 && 0 in s7.tasks[1].remaining;
    var s8 := Step(c, s7, Send(1, 0, true));
    assert s8.conns[0].out == [0] && s8.msgs == [Msg(x, 0)];
    ReachableStep(c, s6, Hear(x));
    ReachableStep(c, s7, Send(1, 0, true));
    assert s8.msgs[0].sender == 0 && 0 in s8.conns[s8.msgs[0].sender].out;
    assert Echoes(s8);
  }

  /** Some connection has been sent one message twice. */
  ghost predicate Repeats(s: State) {
    exists i, p, q :: 0 <= i < |s.conns| && 0 <= p < q < |s.conns[i].out| && s.conns[i].out[p] == s.conns[i].out[q]
  }

  /** Two users and the node's own worker: one user says something, the other gets it from the handler and again
      from the worker. */
  lemma SelfPeerRepeats(c: Config, x: nat)
    requires x < |c| && c[x] == Some(x)
    ensures exists s :: Reachable(c, s) && Repeats(s)
  {
    var s := Init(c);
    assert Reachable(c, s) by { assert Run(c, s, []) == s; }
    hide Run, Reachable;
    s := Then(c, s, Connect(x, false));
    s := Then(c, s, Join(0));
    s := Then(c, s, Connect(x, false));
    s := Then(c, s, Join(1));
    s := Then(c, s, Dial(x));
    s := Then(c, s, Join(2));
    var user := Conn(x, User, false, true, Joined, [], 0);
    assert s.conns == [user, user, Conn(x, Worker(x), true, true, Joined, [], 0)];
    SaidTwice(c, s, x);
  }

  lemma SaidTwice(c: Config, s: State, x: nat)
    requires Reachable(c, s) && x < |c| == |s.current| && s.current[x] == Some(2) && s.msgs == [] && s.tasks == []
    requires var user := Conn(x, User, false, true, Joined, [], 0);
      s.conns == [user, user, Conn(x, Worker(x), true, true, Joined, [], 0)]
    ensures exists s :: Reachable(c, s) && Repeats(s)
  {
    hide Run, Reachable;
    assert 1 in Clients(s.conns, x) && 2 in Clients(s.conns, x);
    var t := Then(c, s, Say(0));
    assert |t.tasks| == 1 && 1 in t.tasks[0].remaining && 2 in t.tasks[0].remaining && t.tasks[0].m == 0;
    t := Then(c, t, Send(0, 1, true));
    t := Then(c, t, Send(0, 2, true));
    assert t.conns[1] == s.conns[1].(out := [0]) && t.conns[2] == s.conns[2].(out := [0]);
    hide Step;
    HeardAgain(c, t, x);
  }

  lemma HeardAgain(c: Config, s: State, x: nat)
    requires Reachable(c, s) && x < |c| == |s.current| && s.current[x] == Some(2) && |s.tasks| == 1 && |s.conns| == 3
    requires s.conns[1] == Conn(x, User, false, true, Joined, [0], 0) && s.conns[2] == Conn(x, Worker(x), true, true, Joined, [0], 0)
    ensures exists s :: Reachable(c, s) && Repeats(s)
  {
    hide Run, Reachable;
    var t := Then(c, s, Hear(x));
    assert 1 in Clients(s.conns, x) && |t.tasks| == 2 && t.tasks[1].m == 0 && 1 in t.tasks[1].remaining;
    t := Then(c, t, Send(1, 1, true));
    assert t.conns[1].out == [0] + [0] && t.conns[1].out[0] == t.conns[1].out[1];
    assert Repeats(t);
  }

  lemma Then(c: Config, s: State, a: Action) returns (t: State)
    requires Reachable(c, s)
    ensures t == Step(c, s, a) && Reachable(c, t)
  {
    t := Step(c, s, a);
    ReachableStep(c, s, a);
  }

  /** No connection is ever sent the same message twice exactly when no node peers with itself. */
  lemma AtMostOnceIff(c: Config)
    ensures SelfFree(c) <==> forall s :: Reachable(c, s) ==> !Repeats(s)
  {
    hide Run, Reachable;
    if SelfFree(c) {
      forall s | Reachable(c, s) ensures !Repeats(s) {
        if Repeats(s) {
          var i, p, q :| 0 <= i < |s.conns| && 0 <= p < q < |s.conns[i].out| && s.conns[i].out[p] == s.conns[i].out[q];
          AtMostOnce(c, s, i, p, q);
        }
      }
    } else {
      var x :| 0 <= x < |c| && c[x] == Some(x);
      SelfPeerRepeats(c, x);
    }
  }

  /** Nobody ever hears their own message exactly when no node peers with itself. */
  lemma EchoFreeIff(c: Config)
    ensures SelfFree(c) <==> forall s :: Reachable(c, s) ==> !Echoes(s)
  {
    hide Run, Reachable;
    if SelfFree(c) {
      forall s | Reachable(c, s) ensures !Echoes(s) {
        if Echoes(s) {
          var m :| 0 <= m < |s.msgs| && s.msgs[m].sender < |s.conns| && m in s.conns[s.msgs[m].sender].out;
          SenderNeverHearsItself(c, s, m);
        }
      }
    } else {
      var x :| 0 <= x < |c| && c[x] == Some(x);
      SelfPeerEchoes(c, x);
    }
  }
}
