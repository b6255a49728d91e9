/**
 The worker pool: P producers, C consumers, a closer and a bounded channel, in every
 interleaving of their channel operations. The logs of sends and receives are history:
 no step looks at them.
 */
module WorkQueue {
  import opened Common

  /** payload(i) is the 64-bit value produced for index i. */
  datatype Config = Config(producers: nat, consumers: nat, items: nat, cap: nat, payload: nat -> bv64)

  /** parseArgs refuses anything else. */
  type Pool = c: Config | c.producers >= 1 && c.consumers >= 1 && c.cap >= 1 witness Config(1, 1, 0, 1, _ => 0)

  /** A value in the channel, with the index it was made for. */
  datatype Item = Item(index: nat, value: bv64)

  datatype ProducerPc = Sending | Counting | Done
  datatype Producer = Producer(pc: ProducerPc, i: nat)
  datatype Consumer = Consumer(running: bool, count: nat, sum: bv64)
  datatype State = State(queue: seq<Item>, closed: bool, produced: nat, ps: seq<Producer>, cs: seq<Consumer>,
                         sent: seq<nat>, received: seq<nat>)

  /** One turn of producer p, of consumer c, or of the closer. */
  datatype Action = Produce(p: nat) | Close | Consume(c: nat)

  function Init(c: Pool): State {
    State([], false, 0, seq(c.producers, p requires 0 <= p => Producer(Sending, p)), seq(c.consumers, _ => Consumer(true, 0, 0)), [], [])
  }

  /** queue <- payload(i), then the counter, then the next index; a send on a full channel waits. */
  function ProduceStep(c: Pool, s: State, p: nat): State
    requires p < |s.ps|
  {
    var me := s.ps[p];
    match me.pc
    case Sending =>
      if me.i >= c.items then s.(ps := s.ps[p := me.(pc := Done)])
      else if |s.queue| >= c.cap then s
      else s.(queue := s.queue + [Item(me.i, c.payload(me.i))], ps := s.ps[p := me.(pc := Counting)], sent := s.sent + [me.i])
    case Counting => s.(produced := s.produced + 1, ps := s.ps[p := Producer(Sending, me.i + c.producers)])
    case Done => s
  }

  predicate AllDone(ps: seq<Producer>) { forall p :: 0 <= p < |ps| ==> ps[p].pc.Done? }

  /** range over the channel: fold the next value, stop when it is closed and empty, else wait. */
  function ConsumeStep(s: State, k: nat): State
    requires k < |s.cs|
  {
    var me := s.cs[k];
    if !me.running then s
    else if s.queue != [] then
      s.(queue := s.queue[1..], cs := s.cs[k := Consumer(true, me.count + 1, Fold(me.sum, s.queue[0].value))],
         received := s.received + [s.queue[0].index])
    else if s.closed then s.(cs := s.cs[k := me.(running := false)])
    else s
  }

  /** One step of the pool; an action that is not enabled changes nothing. */
  function Step(c: Pool, s: State, a: Action): State {
    match a
    case Produce(p) => if p < |s.ps| then ProduceStep(c, s, p) else s
    case Close => if AllDone(s.ps) && !s.closed then s.(closed := true) else s
    case Consume(k) => if k < |s.cs| then ConsumeStep(s, k) else s
  }

  function Run(c: Pool, s: State, schedule: seq<Action>): State
    decreases |schedule|
  {
    if schedule == [] then s else Run(c, Step(c, s, schedule[0]), schedule[1..])
  }

  ghost predicate Reachable(c: Pool, s: State) {
    exists schedule :: s == Run(c, Init(c), schedule)
  }

  /** consumers.Wait() returns: every range loop has ended. */
  predicate Final(s: State) { forall k :: 0 <= k < |s.cs| ==> !s.cs[k].running }

  // ----- sums over the workers -----

  /** Folding one more value into an accumulator. */
  function Fold(sum: bv64, v: bv64): bv64 { sum ^ v }

  lemma FoldLaws(a: bv64, b: bv64, v: bv64)
    ensures Fold(Fold(a, b), v) == Fold(a, Fold(b, v)) == Fold(Fold(a, v), b)
    ensures Fold(a, 0) == a == Fold(0, a)
  {
  }

  function Xor(cs: seq<Consumer>): bv64 {
    if cs == [] then 0 else Fold(cs[0].sum, Xor(cs[1..]))
  }

  lemma {:induction false} XorUpdate(cs: seq<Consumer>, k: nat, x: Consumer, v: bv64)
    requires k < |cs| && x.sum == Fold(cs[k].sum, v)
    ensures Xor(cs[k := x]) == Fold(Xor(cs), v)
  {
    hide Fold;
    var rest := Xor(cs[1..]);
    if k > 0 {
      assert cs[k := x][1..] == cs[1..][k - 1 := x];
      XorUpdate(cs[1..], k - 1, x, v);
      FoldLaws(cs[0].sum, rest, v);
    } else {
      assert cs[k := x][1..] == cs[1..];
      FoldLaws(cs[0].sum, rest, v);
    }
  }

  // ----- XOR over a log of indices -----

  function Checksum(payload: nat -> bv64, log: seq<nat>): bv64 {
    if log == [] then 0 else Fold(Checksum(payload, log[..|log| - 1]), payload(log[|log| - 1]))
  }

  predicate LowBit(x: bv64) { x & 1 == 1 }
  function Half(x: bv64): bv64 { x >> 1 }

  /** Bit i of a word, counted from the lowest. */
  predicate Bit(x: bv64, i: nat) { if i == 0 then LowBit(x) else Bit(Half(x), i - 1) }

  lemma XorLow(a: bv64, v: bv64)
    ensures (a ^ v) & 1 == 1 <==> (a & 1 == 1) != (v & 1 == 1)
  {
  }

  lemma FoldLow(a: bv64, v: bv64)
    ensures LowBit(Fold(a, v)) <==> LowBit(a) != LowBit(v)
    ensures !LowBit(0)
  {
    XorLow(a, v);
  }

  lemma XorHalf(a: bv64, v: bv64)
    ensures (a ^ v) >> 1 == (a >> 1) ^ (v >> 1)
  {
  }

  lemma FoldHalf(a: bv64, v: bv64)
    ensures Half(Fold(a, v)) == Fold(Half(a), Half(v))
    ensures Half(0) == 0
  {
    XorHalf(a, v);
  }

  lemma {:induction false} FoldBits(a: bv64, v: bv64, i: nat)
    ensures Bit(Fold(a, v), i) <==> Bit(a, i) != Bit(v, i)
    ensures !Bit(0, i)
    decreases i
  {
    hide Fold, LowBit, Half;
    FoldLow(a, v);
    FoldHalf(a, v);
    if i > 0 { FoldBits(Half(a), Half(v), i - 1); }
  }

  /** How many of the payloads have bit i set. */
  function BitCount(payload: nat -> bv64, log: seq<nat>, i: nat): nat {
    if log == [] then 0
    else BitCount(payload, log[..|log| - 1], i) + if Bit(payload(log[|log| - 1]), i) then 1 else 0
  }

  /** Each bit of the checksum is the parity of that bit over the payloads. */
  lemma {:induction false} ChecksumIsParity(payload: nat -> bv64, log: seq<nat>, i: nat)
    ensures Bit(Checksum(payload, log), i) <==> BitCount(payload, log, i) % 2 == 1
  {
    hide Bit, Fold;
    FoldBits(0, 0, i);
    if log != [] {
      ChecksumIsParity(payload, log[..|log| - 1], i);
      FoldBits(Checksum(payload, log[..|log| - 1]), payload(log[|log| - 1]), i);
    }
  }

  lemma {:induction false} ChecksumRemove(payload: nat -> bv64, log: seq<nat>, k: nat)
    requires k < |log|
    ensures Checksum(payload, log) == Fold(Checksum(payload, log[..k] + log[k + 1..]), payload(log[k]))
    decreases |log|
  {
    hide Fold;
    var n := |log| - 1;
    if k == n {
      assert log[..k] + log[k + 1..] == log[..n];
    } else {
      var cut := log[..k] + log[k + 1..];
      assert cut[..n - 1] == log[..n][..k] + log[..n][k + 1..];
      assert cut[n - 1] == log[n];
      ChecksumRemove(payload, log[..n], k);
      FoldLaws(Checksum(payload, cut[..n - 1]), payload(log[k]), payload(log[n]));
    }
  }

  /** The checksum does not depend on the order in which the values are folded. */
  lemma {:induction false} ChecksumOrder(payload: nat -> bv64, a: seq<nat>, b: seq<nat>)
    requires multiset(a) == multiset(b)
    ensures Checksum(payload, a) == Checksum(payload, b)
    decreases |a|
  {
    hide Fold;
    assert |a| == |multiset(a)| == |multiset(b)| == |b|;
    if a != [] {
      var n := |a| - 1;
      assert a == a[..n] + [a[n]];
      assert a[n] in multiset(b);
      var k :| 0 <= k < |b| && b[k] == a[n];
      assert b == b[..k] + [b[k]] + b[k + 1..];
      assert multiset(b[..k] + b[k + 1..]) == multiset(b) - multiset{a[n]};
      ChecksumRemove(payload, b, k);
      ChecksumOrder(payload, a[..n], b[..k] + b[k + 1..]);
    }
  }

  function Range(n: nat): seq<nat> { seq(n, i requires 0 <= i => i) }

  lemma {:induction false} RangeOnce(n: nat)
    ensures forall x: nat :: multiset(Range(n))[x] == if x < n then 1 else 0
  {
    if n > 0 {
      RangeOnce(n - 1);
      assert Range(n) == Range(n - 1) + [n - 1];
    }
  }

  // ----- the inductive invariant -----

  function Indices(q: seq<Item>): seq<nat> { seq(|q|, i requires 0 <= i < |q| => q[i].index) }

  /** Index x has been put on the channel. */
  ghost predicate Sent(c: Pool, ps: seq<Producer>, x: nat)
    requires |ps| == c.producers
  {
    var p := ps[x % c.producers];
    x < c.items && (x < p.i || (p.pc.Counting? && x == p.i))
  }

  const IsCounting: Producer -> int := (p: Producer) => if p.pc.Counting? then 1 else 0
  const IsLive: Producer -> int := (p: Producer) => if p.pc.Done? then 0 else 1
  const IsRunning: Consumer -> int := (k: Consumer) => if k.running then 1 else 0
  const CountOf: Consumer -> int := (k: Consumer) => k.count

  ghost predicate Shape(c: Pool, s: State) {
    && |s.ps| == c.producers && |s.cs| == c.consumers && |s.queue| <= c.cap
    && (forall p :: 0 <= p < |s.ps| ==> s.ps[p].i % c.producers == p && (s.ps[p].pc.Counting? ==> s.ps[p].i < c.items)
                                         && (s.ps[p].pc.Done? ==> s.ps[p].i >= c.items))
    && (s.closed ==> AllDone(s.ps))
    && (forall k :: 0 <= k < |s.cs| && !s.cs[k].running ==> s.closed && s.queue == [])
  }

  ghost predicate Conserved(c: Pool, s: State) {
    && |s.queue| <= c.cap
    && |s.ps| == c.producers
    && multiset(s.received) + multiset(Indices(s.queue)) == multiset(s.sent)
    && (forall x: nat :: multiset(s.sent)[x] == if Sent(c, s.ps, x) then 1 else 0)
    && (forall j :: 0 <= j < |s.queue| ==> s.queue[j].value == c.payload(s.queue[j].index))
  }

  ghost predicate Counted(c: Pool, s: State) {
    && s.produced + Total(s.ps, IsCounting) == |s.sent|
    && Total(s.cs, CountOf) == |s.received|
    && Xor(s.cs) == Checksum(c.payload, s.received)
  }

  ghost predicate Inv(c: Pool, s: State) { Shape(c, s) && Conserved(c, s) && Counted(c, s) }

  lemma {:induction false} XorZero(cs: seq<Consumer>)
    requires forall k :: 0 <= k < |cs| ==> cs[k].sum == 0
    ensures Xor(cs) == 0
  {
    if cs != [] { XorZero(cs[1..]); }
  }

  lemma InitInv(c: Pool)
    ensures Inv(c, Init(c))
  {
    var s := Init(c);
    InitShape(c);
    InitConserved(c);
    TotalConstant(s.ps, IsCounting, 0);
    TotalConstant(s.cs, CountOf, 0);
    XorZero(s.cs);
    hide Shape, Conserved;
  }

  lemma InitShape(c: Pool)
    ensures Shape(c, Init(c))
  {
    forall p: nat | p < c.producers ensures p % c.producers == p { SmallMod(p, c.producers); }
  }

  lemma InitConserved(c: Pool)
    ensures Conserved(c, Init(c))
  {
    var s := Init(c);
    assert Indices(s.queue) == [];
    forall x: nat ensures !Sent(c, s.ps, x) { ModAtMost(x, c.producers); }
  }

  lemma SmallMod(x: nat, m: nat)
    requires x < m
    ensures x % m == x
  {
  }

  lemma ModAtMost(x: nat, m: nat)
    requires m >= 1
    ensures x % m <= x
  {
    if x < m { SmallMod(x, m); }
  }

  lemma ProduceKeepsShape(c: Pool, s: State, p: nat)
    requires Inv(c, s) && p < |s.ps|
    ensures Shape(c, ProduceStep(c, s, p))
  {
    hide Conserved, Counted;
    AddModulus(s.ps[p].i, c.producers);
  }

  lemma SendKeepsConserved(c: Pool, s: State, p: nat)
    requires Inv(c, s) && p < |s.ps| && s.ps[p].pc.Sending? && s.ps[p].i < c.items && |s.queue| < c.cap
    ensures Conserved(c, ProduceStep(c, s, p))
  {
    hide Counted;
    var t, i := ProduceStep(c, s, p), s.ps[p].i;
    assert Indices(t.queue) == Indices(s.queue) + [i];
    forall x: nat ensures multiset(t.sent)[x] == if Sent(c, t.ps, x) then 1 else 0 {
      assert multiset(t.sent) == multiset(s.sent) + multiset{i};
      assert Sent(c, t.ps, x) <==> Sent(c, s.ps, x) || x == i;
    }
  }

  lemma CountKeepsConserved(c: Pool, s: State, p: nat)
    requires Inv(c, s) && p < |s.ps| && s.ps[p].pc.Counting?
    ensures Conserved(c, ProduceStep(c, s, p))
  {
    hide Counted;
    var t, i := ProduceStep(c, s, p), s.ps[p].i;
    forall x: nat ensures Sent(c, t.ps, x) <==> Sent(c, s.ps, x) {
      if x % c.producers == p && i <= x < i + c.producers { SameRemainder(x, i, c.producers); }
    }
  }

  lemma ProduceKeepsConserved(c: Pool, s: State, p: nat)
    requires Inv(c, s) && p < |s.ps|
    ensures Conserved(c, ProduceStep(c, s, p))
  {
    if s.ps[p].pc.Counting? {
      CountKeepsConserved(c, s, p);
    } else if s.ps[p].pc.Sending? && s.ps[p].i < c.items && |s.queue| < c.cap {
      SendKeepsConserved(c, s, p);
    } else {
      var t := ProduceStep(c, s, p);
      assert forall x: nat :: Sent(c, t.ps, x) <==> Sent(c, s.ps, x);
    }
  }

  lemma ProduceKeepsCounted(c: Pool, s: State, p: nat)
    requires Inv(c, s) && p < |s.ps|
    ensures Counted(c, ProduceStep(c, s, p))
  {
    hide Conserved, Shape;
    TotalUpdate(s.ps, p, ProduceStep(c, s, p).ps[p], IsCounting);
  }

  lemma ConsumeKeepsShape(c: Pool, s: State, k: nat)
    requires Shape(c, s) && k < |s.cs|
    ensures Shape(c, ConsumeStep(s, k))
  {
  }

  lemma ConsumeKeepsConserved(c: Pool, s: State, k: nat)
    requires Conserved(c, s) && k < |s.cs|
    ensures Conserved(c, ConsumeStep(s, k))
  {
    if s.cs[k].running && s.queue != [] {
      assert Indices(s.queue) == [s.queue[0].index] + Indices(s.queue[1..]);
    }
  }

  lemma ConsumeKeepsCounted(c: Pool, s: State, k: nat)
    requires Conserved(c, s) && Counted(c, s) && k < |s.cs|
    ensures Counted(c, ConsumeStep(s, k))
  {
    hide Fold;
    var t := ConsumeStep(s, k);
    TotalUpdate(s.cs, k, t.cs[k], CountOf);
    if s.cs[k].running && s.queue != [] {
      assert s.queue[0].value == c.payload(s.queue[0].index);
      assert t.received[..|t.received| - 1] == s.received;
      XorUpdate(s.cs, k, t.cs[k], s.queue[0].value);
    } else {
      FoldLaws(s.cs[k].sum, 0, 0);
      FoldLaws(Xor(s.cs), 0, 0);
      XorUpdate(s.cs, k, t.cs[k], 0);
    }
  }

  lemma StepKeepsInv(c: Pool, s: State, a: Action)
    requires Inv(c, s)
    ensures Inv(c, Step(c, s, a))
  {
    hide ProduceStep, ConsumeStep;
    match a
    case Produce(p) =>
      hide Shape, Conserved, Counted;
      if p < |s.ps| {
        ProduceKeepsShape(c, s, p);
        ProduceKeepsConserved(c, s, p);
        ProduceKeepsCounted(c, s, p);
      }
    case Close =>
    case Consume(k) =>
      hide Shape, Conserved, Counted;
      if k < |s.cs| {
        ConsumeKeepsShape(c, s, k);
        ConsumeKeepsConserved(c, s, k);
        ConsumeKeepsCounted(c, s, k);
      }
  }

  lemma {:induction false} RunKeepsInv(c: Pool, s: State, schedule: seq<Action>)
    requires Inv(c, s)
    ensures Inv(c, Run(c, s, schedule))
    decreases |schedule|
  {
    hide Inv, Step;
    if schedule != [] {
      StepKeepsInv(c, s, schedule[0]);
      RunKeepsInv(c, Step(c, s, schedule[0]), schedule[1..]);
    }
  }

  lemma ReachableInv(c: Pool, s: State)
    requires Reachable(c, s)
    ensures Inv(c, s)
  {
    hide Inv, Step;
    var schedule :| s == Run(c, Init(c), schedule);
    InitInv(c);
    RunKeepsInv(c, Init(c), schedule);
  }

  // ----- what holds on every schedule -----

  /** At any moment every index below N is either not yet sent, in the channel once, or received once,
      and nothing is ever sent after the channel is closed. */
  lemma ExactlyOnce(c: Pool, s: State, x: nat)
    requires Reachable(c, s)
    ensures multiset(s.received)[x] + multiset(Indices(s.queue))[x] == multiset(s.sent)[x] <= 1
    ensures x >= c.items ==> multiset(s.sent)[x] == 0
    ensures s.closed ==> forall p: nat :: Step(c, s, Produce(p)) == s
  {
    hide Run;
    ReachableInv(c, s);
    assert multiset(s.sent)[x] == (multiset(s.received) + multiset(Indices(s.queue)))[x];
  }

  /** When main prints, every index below N has been sent once and received once, both counters are N,
      and the checksum is the XOR of the payloads 0..N-1: P, C, cap and the schedule do not show. */
  lemma FinalTotals(c: Pool, s: State)
    requires Reachable(c, s) && Final(s)
    ensures multiset(s.sent) == multiset(s.received) == multiset(Range(c.items))
    ensures s.produced == Total(s.cs, CountOf) == c.items
    ensures Xor(s.cs) == Checksum(c.payload, Range(c.items))
  {
    hide Run;
    ReachableInv(c, s);
    assert s.queue == [] && AllDone(s.ps) by { assert !s.cs[0].running; }
    assert Indices(s.queue) == [];
    RangeOnce(c.items);
    forall x: nat ensures multiset(s.sent)[x] == multiset(Range(c.items))[x] {
      assert s.ps[x % c.producers].pc.Done?;
    }
    assert multiset(s.sent) == multiset(Range(c.items));
    assert |s.sent| == |multiset(s.sent)| == |multiset(Range(c.items))| == |Range(c.items)|;
    assert |s.received| == |multiset(s.received)|;
    TotalConstant(s.ps, IsCounting, 0);
    ChecksumOrder(c.payload, s.received, Range(c.items));
  }

  /** The channel never holds more than cap, a producer with an index left waits exactly when it is full, and a
      consumer waits exactly when it is empty and open. */
  lemma WaitsOnlyThen(c: Pool, s: State, w: nat)
    requires Reachable(c, s)
    ensures |s.queue| <= c.cap
    ensures w < |s.ps| && s.ps[w].pc.Sending? && s.ps[w].i < c.items ==>
      (Step(c, s, Produce(w)) == s <==> |s.queue| == c.cap)
    ensures w < |s.cs| && s.cs[w].running ==> (Step(c, s, Consume(w)) == s <==> s.queue == [] && !s.closed)
    ensures Step(c, s, Close) != s <==> AllDone(s.ps) && !s.closed
  {
    hide Run;
    ReachableInv(c, s);
    if w < |s.ps| && |s.queue| < c.cap && s.ps[w].pc.Sending? && s.ps[w].i < c.items {
      assert |Step(c, s, Produce(w)).queue| == |s.queue| + 1;
    }
    if w < |s.cs| && s.cs[w].running {
      if s.queue != [] { assert |Step(c, s, Consume(w)).queue| == |s.queue| - 1; }
      else if s.closed { assert !Step(c, s, Consume(w)).cs[w].running; }
    }
  }

  /** The checksum that main prints: bit i is set exactly when an odd number of the payloads below N have it set. */
  lemma PrintedChecksum(c: Pool, s: State, i: nat)
    requires Reachable(c, s) && Final(s)
    ensures Bit(Xor(s.cs), i) <==> BitCount(c.payload, Range(c.items), i) % 2 == 1
  {
    hide Run, Bit;
    FinalTotals(c, s);
    ChecksumIsParity(c.payload, Range(c.items), i);
  }

  /** Steps still to be made. */
  ghost function Work(c: Pool, s: State): int {
    3 * (c.items - |s.sent|) + Total(s.ps, IsCounting) + |s.queue| + Total(s.ps, IsLive)
      + (if s.closed then 0 else 1) + Total(s.cs, IsRunning)
  }

  /** No state before the end is stuck. */
  lemma NeverStuck(c: Pool, s: State)
    requires Reachable(c, s) && !Final(s)
    ensures exists a :: Step(c, s, a) != s
  {
    hide Run;
    ReachableInv(c, s);
    var k :| 0 <= k < |s.cs| && s.cs[k].running;
    if s.queue != [] || s.closed {
      assert Step(c, s, Consume(k)).cs[k] != s.cs[k];
    } else if AllDone(s.ps) {
      assert Step(c, s, Close).closed;
    } else {
      var p :| 0 <= p < |s.ps| && !s.ps[p].pc.Done?;
      assert Step(c, s, Produce(p)).ps[p].pc != s.ps[p].pc;
    }
  }

  /** Every action that does something uses up exactly one of the 3N + P + C + 1 steps of the run. */
  lemma EveryRunEnds(c: Pool, s: State, a: Action)
    requires Reachable(c, s)
    ensures 0 <= Work(c, s) && Work(c, Init(c)) == 3 * c.items + c.producers + c.consumers + 1
    ensures Step(c, s, a) == s || Work(c, Step(c, s, a)) == Work(c, s) - 1
  {
    hide Run;
    ReachableInv(c, s);
    WorkNonNegative(c, s);
    TotalConstant(Init(c).ps, IsCounting, 0);
    TotalConstant(Init(c).ps, IsLive, 1);
    TotalConstant(Init(c).cs, IsRunning, 1);
    hide Inv;
    if a.Produce? {
      ProduceWorks(c, s, a.p);
    } else if a.Consume? {
      ConsumeWorks(c, s, a.c);
    }
  }

  lemma ProduceWorks(c: Pool, s: State, p: nat)
    ensures Step(c, s, Produce(p)) == s || Work(c, Step(c, s, Produce(p))) == Work(c, s) - 1
  {
    if p < |s.ps| {
      TotalUpdate(s.ps, p, Step(c, s, Produce(p)).ps[p], IsCounting);
      TotalUpdate(s.ps, p, Step(c, s, Produce(p)).ps[p], IsLive);
    }
  }

  lemma ConsumeWorks(c: Pool, s: State, k: nat)
    ensures Step(c, s, Consume(k)) == s || Work(c, Step(c, s, Consume(k))) == Work(c, s) - 1
  {
    if k < |s.cs| { TotalUpdate(s.cs, k, Step(c, s, Consume(k)).cs[k], IsRunning); }
  }

  lemma WorkNonNegative(c: Pool, s: State)
    requires Inv(c, s)
    ensures 0 <= Work(c, s)
  {
    TotalNonNegative(s.ps, IsCounting);
    TotalNonNegative(s.ps, IsLive);
    TotalNonNegative(s.cs, IsRunning);
    RangeOnce(c.items);
    assert forall x: nat :: multiset(s.sent)[x] <= multiset(Range(c.items))[x];
    assert multiset(s.sent) <= multiset(Range(c.items));
    SubMultisetSize(multiset(s.sent), multiset(Range(c.items)));
    assert |s.sent| == |multiset(s.sent)| && |multiset(Range(c.items))| == |Range(c.items)|;
  }

  lemma SubMultisetSize(a: multiset<nat>, b: multiset<nat>)
    requires a <= b
    ensures |a| <= |b|
  {
    assert b == a + (b - a);
  }
}

/** The payloads of the real pool: the splitmix64 finalizer over seed + (i + 1) * golden, on 64 bits. */
module WorkQueuePayload {
  import opened Common
  import opened WorkQueue

  function Mix(seed: bv64, i: bv64): bv64 {
    var x0 := seed + (i + 1) * 0x9E3779B97F4A7C15;
    var x1 := (x0 ^ (x0 >> 30)) * 0xBF58476D1CE4E5B9;
    var x2 := (x1 ^ (x1 >> 27)) * 0x94D049BB133111EB;
    x2 ^ (x2 >> 31)
  }

  function Payload(seed: bv64): nat -> bv64 { (i: nat) => Mix(seed, (i % 0x1_0000_0000_0000_0000) as bv64) }

  /** Two pools with the same seed and item count print the same totals, whatever their sizes and schedules. */
  lemma SameSeedSameChecksum(a: Pool, b: Pool, s: State, t: State, seed: bv64)
    requires a.items == b.items && a.payload == b.payload == Payload(seed)
    requires Reachable(a, s) && Final(s) && Reachable(b, t) && Final(t)
    ensures Xor(s.cs) == Xor(t.cs) && s.produced == t.produced && Total(s.cs, CountOf) == Total(t.cs, CountOf)
  {
    hide Run, Mix;
    FinalTotals(a, s);
    FinalTotals(b, t);
  }
}
