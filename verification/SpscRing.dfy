/**
 Lamport's single-producer single-consumer ring as bench runs it: two threads over
 head, tail and the cells, one shared access per step, in every interleaving.
 */
module SpscRing {
  import opened Common

  const U64 := 0x1_0000_0000_0000_0000

  type u64 = x: int | 0 <= x < 0x1_0000_0000_0000_0000

  function Wrap(x: int): (w: u64)
    ensures 0 <= x < U64 ==> w == x
  {
    x % U64
  }

  datatype Config = Config(capacity: u64, items: u64)

  /** parseArgs refuses a capacity of zero. */
  type Ring = c: Config | c.capacity >= 1 witness Config(1, 0)

  /** The cell that item number j lives in. */
  function Cell(r: Ring, j: nat): (k: nat)
    ensures k < r.capacity
  {
    j % r.capacity
  }

  datatype ProducerPc = PSpin | PWrite | PStore | PDone
  datatype ConsumerPc = CSpin | CRead | CStore | CWait | CDone
  datatype Producer = Producer(pc: ProducerPc, i: u64, t: u64)
  datatype Consumer = Consumer(pc: ConsumerPc, i: u64, h: u64, sum: u64)
  datatype State = State(head: u64, tail: u64, buf: seq<u64>, p: Producer, c: Consumer)
  datatype Thread = P | C

  function Init(r: Ring): State {
    State(0, 0, seq(r.capacity, _ => 0), Producer(PSpin, 0, 0), Consumer(CSpin, 0, 0, 0))
  }

  function ProducerStep(r: Ring, s: State): State
    requires |s.buf| == r.capacity
  {
    var p := s.p;
    match p.pc
    case PSpin =>
      if p.i == r.items then s.(p := p.(pc := PDone))
      else if Wrap(p.t - s.head) == r.capacity then s
      else s.(p := p.(pc := PWrite))
    case PWrite => s.(buf := s.buf[Cell(r, p.t) := p.i], p := p.(pc := PStore, t := Wrap(p.t + 1)))
    case PStore => s.(tail := p.t, p := p.(pc := PSpin, i := Wrap(p.i + 1)))
    case PDone => s
  }

  function ConsumerStep(r: Ring, s: State): State
    requires |s.buf| == r.capacity
  {
    var c := s.c;
    match c.pc
    case CSpin =>
      if c.i == r.items then s.(c := c.(pc := CWait))
      else if c.h == s.tail then s
      else s.(c := c.(pc := CRead))
    case CRead => s.(c := c.(pc := CStore, sum := Wrap(c.sum + s.buf[Cell(r, c.h)]), h := Wrap(c.h + 1)))
    case CStore => s.(head := c.h, c := c.(pc := CSpin, i := Wrap(c.i + 1)))
    case CWait => if s.p.pc.PDone? then s.(c := c.(pc := CDone)) else s
    case CDone => s
  }

  function Step(r: Ring, s: State, t: Thread): (s': State)
    requires |s.buf| == r.capacity
    ensures |s'.buf| == r.capacity
  {
    if t.P? then ProducerStep(r, s) else ConsumerStep(r, s)
  }

  /** The state after a schedule: any finite sequence of turns. */
  function Run(r: Ring, s: State, schedule: seq<Thread>): (s': State)
    requires |s.buf| == r.capacity
    ensures |s'.buf| == r.capacity
    decreases |schedule|
  {
    if schedule == [] then s else Run(r, Step(r, s, schedule[0]), schedule[1..])
  }

  ghost predicate Reachable(r: Ring, s: State) {
    exists schedule :: s == Run(r, Init(r), schedule)
  }

  // ----- the inductive invariant -----

  /** 0 + 1 + ... + (n - 1). */
  function Triangle(n: nat): nat { if n == 0 then 0 else Triangle(n - 1) + n - 1 }

  ghost predicate Inv(r: Ring, s: State) {
    var p, c := s.p, s.c;
    && |s.buf| == r.capacity
    && s.head <= s.tail <= s.head + r.capacity && s.tail <= r.items
    && (forall j :: s.head <= j < s.tail ==> s.buf[Cell(r, j)] == j)
    && (match p.pc
        case PSpin => p.i == p.t == s.tail
        case PWrite => p.i == p.t == s.tail < r.items && s.tail < s.head + r.capacity
        case PStore => p.i == s.tail < r.items && p.t == s.tail + 1 <= s.head + r.capacity && s.buf[Cell(r, s.tail)] == s.tail
        case PDone => s.tail == r.items)
    && (match c.pc
        case CSpin => c.i == c.h == s.head
        case CRead => c.i == c.h == s.head < s.tail
        case CStore => c.i == s.head < s.tail && c.h == s.head + 1
        case CWait => s.head == r.items && c.h == s.head
        case CDone => s.head == r.items && c.h == s.head && p.pc.PDone?)
    && c.sum == Wrap(Triangle(c.h))
  }

  lemma WriteKeepsCells(r: Ring, s: State)
    requires Inv(r, s) && s.p.pc.PWrite?
    ensures forall j :: s.head <= j < s.tail ==> s.buf[Cell(r, s.tail) := s.tail][Cell(r, j)] == j
  {
    forall j | s.head <= j < s.tail ensures s.buf[Cell(r, s.tail) := s.tail][Cell(r, j)] == j {
      if Cell(r, j) == Cell(r, s.tail) { SameRemainder(j, s.tail, r.capacity); }
    }
  }

  lemma SumStep(a: nat, b: nat)
    ensures Wrap(Wrap(a) + b) == Wrap(a + b)
  {
  }

  lemma ProducerKeepsInv(r: Ring, s: State)
    requires Inv(r, s)
    ensures Inv(r, ProducerStep(r, s))
  {
    hide Triangle, Cell, Wrap;
    if s.p.pc.PWrite? { WriteKeepsCells(r, s); }
  }

  lemma ReadAddsItem(r: Ring, s: State)
    requires Inv(r, s) && s.c.pc.CRead?
    ensures Wrap(s.c.sum + s.buf[Cell(r, s.c.h)]) == Wrap(Triangle(s.c.h + 1))
  {
    assert s.buf[Cell(r, s.c.h)] == s.c.h;
    SumStep(Triangle(s.c.h), s.c.h);
  }

  lemma ConsumerKeepsInv(r: Ring, s: State)
    requires Inv(r, s)
    ensures Inv(r, ConsumerStep(r, s))
  {
    hide Triangle, Cell, Wrap;
    if s.c.pc.CRead? {
      ReadAddsItem(r, s);
      var t := ConsumerStep(r, s);
      assert t.c.h == s.c.h + 1 && t.c.sum == Wrap(Triangle(t.c.h));
    }
  }

  lemma StepKeepsInv(r: Ring, s: State, t: Thread)
    requires Inv(r, s)
    ensures |s.buf| == r.capacity && Inv(r, Step(r, s, t))
  {
    assert |s.buf| == r.capacity;
    hide Inv, ProducerStep, ConsumerStep;
    if t.P? { ProducerKeepsInv(r, s); } else { ConsumerKeepsInv(r, s); }
  }

  lemma {:induction false} RunKeepsInv(r: Ring, s: State, schedule: seq<Thread>)
    requires |s.buf| == r.capacity && Inv(r, s)
    ensures Inv(r, Run(r, s, schedule))
    decreases |schedule|
  {
    hide Inv, Step;
    if schedule != [] {
      StepKeepsInv(r, s, schedule[0]);
      RunKeepsInv(r, Step(r, s, schedule[0]), schedule[1..]);
    }
  }

  lemma ReachableInv(r: Ring, s: State)
    requires Reachable(r, s)
    ensures Inv(r, s)
  {
    hide Run;
    var schedule :| s == Run(r, Init(r), schedule);
    assert Wrap(Triangle(0)) == 0;
    RunKeepsInv(r, Init(r), schedule);
  }

  // ----- what holds in every interleaving -----

  /** The published counters bound a full ring, and the cells between them hold exactly their items. */
  lemma QueueContents(r: Ring, s: State)
    requires Reachable(r, s)
    ensures s.head <= s.tail <= s.head + r.capacity && |s.buf| == r.capacity
    ensures forall j :: s.head <= j < s.tail ==> s.buf[Cell(r, j)] == j
  {
    hide Run;
    ReachableInv(r, s);
  }

  /** The producer is never about to write the cell the consumer is about to read, nor any cell whose
      item has not been released. */
  lemma NoRaceOnACell(r: Ring, s: State)
    requires Reachable(r, s) && s.p.pc.PWrite?
    ensures forall j :: s.head <= j < s.tail ==> Cell(r, s.p.t) != Cell(r, j)
    ensures s.c.pc.CRead? ==> Cell(r, s.p.t) != Cell(r, s.c.h)
  {
    hide Run;
    ReachableInv(r, s);
    forall j | s.head <= j < s.tail ensures Cell(r, s.p.t) != Cell(r, j) {
      if Cell(r, j) == Cell(r, s.p.t) { SameRemainder(j, s.p.t, r.capacity); }
    }
  }

  /** Steps still to be made by both threads. */
  ghost function Work(r: Ring, s: State): int {
    (match s.p.pc
     case PSpin => 3 * (r.items - s.p.i) + 1
     case PWrite => 3 * (r.items - s.p.i)
     case PStore => 3 * (r.items - s.p.i) - 1
     case PDone => 0)
    + (match s.c.pc
       case CSpin => 3 * (r.items - s.c.i) + 2
       case CRead => 3 * (r.items - s.c.i) + 1
       case CStore => 3 * (r.items - s.c.i)
       case CWait => 1
       case CDone => 0)
  }

  /** The two spins are never both stuck: until the sum is returned some thread can make a step. Every
      turn that is not a spin uses up exactly one of the 6 * items + 3 steps of the run, so a schedule
      that keeps giving both threads turns comes to the end. */
  lemma AlwaysProgress(r: Ring, s: State)
    requires Reachable(r, s)
    ensures |s.buf| == r.capacity && 0 <= Work(r, s) && Work(r, Init(r)) == 6 * r.items + 3
    ensures Work(r, s) == 0 <==> s.c.pc.CDone?
    ensures forall t :: Step(r, s, t) == s || Work(r, Step(r, s, t)) == Work(r, s) - 1
    ensures !s.c.pc.CDone? ==> Step(r, s, P) != s || Step(r, s, C) != s
  {
    hide Run, Triangle, Cell, Wrap;
    ReachableInv(r, s);
    ProducerProgress(r, s);
    ConsumerProgress(r, s);
    hide ProducerStep, ConsumerStep, Inv;
  }

  lemma ProducerProgress(r: Ring, s: State)
    requires Inv(r, s)
    ensures ProducerStep(r, s) == s || Work(r, ProducerStep(r, s)) == Work(r, s) - 1
    ensures ProducerStep(r, s) == s ==> s.p.pc.PDone? || s.tail == s.head + r.capacity
  {
    hide Triangle, Cell, Wrap;
  }

  lemma ConsumerProgress(r: Ring, s: State)
    requires Inv(r, s)
    ensures ConsumerStep(r, s) == s || Work(r, ConsumerStep(r, s)) == Work(r, s) - 1
    ensures ConsumerStep(r, s) == s ==> s.c.pc.CDone? || (s.c.pc.CWait? && !s.p.pc.PDone? && s.tail == s.head) || (s.head == s.tail < r.items)
  {
    hide Triangle, Cell, Wrap;
  }

  lemma {:induction false} TriangleClosed(n: nat)
    ensures Triangle(n) == n * (n - 1) / 2
  {
    if n > 0 {
      TriangleClosed(n - 1);
      assert n * (n - 1) == (n - 1) * (n - 2) + 2 * (n - 1);
    }
  }

  /** The sum that bench returns is items * (items - 1) / 2 modulo 2^64, for every capacity and schedule. */
  lemma FinalSum(r: Ring, s: State)
    requires Reachable(r, s) && s.c.pc.CDone?
    ensures s.c.sum == Wrap(r.items * (r.items - 1) / 2)
    ensures s.head == s.tail == r.items && s.p.pc.PDone?
  {
    hide Run;
    ReachableInv(r, s);
    TriangleClosed(r.items);
  }
}
