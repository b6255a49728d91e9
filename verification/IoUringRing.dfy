/**
 The hand-written io_uring layer: the two rings with their free-running 32-bit counters,
 and the kernel that takes submissions, runs them in any order their links allow and posts
 one completion each.
 */
module IoUringRing {
  import opened Common

  const WORD := 0x1_0000_0000

  type u32 = x: int | 0 <= x < 0x1_0000_0000

  /** Unsigned 32-bit addition and subtraction. */
  function Add32(a: int, b: int): u32 { (a + b) % WORD }
  function Sub32(a: int, b: int): u32 { (a - b) % WORD }

  /** Ring sizes are powers of two below 2^32, that is, its proper divisors; masking a counter with size - 1 is
      then its remainder by the size. */
  predicate RingSize(n: nat) { 1 <= n < WORD && WORD % n == 0 }

  /** Wrapping a counter does not move its slot. */
  lemma WrapKeepsSlot(x: nat, n: nat)
    requires RingSize(n)
    ensures x % WORD % n == x % n
  {
    var q, r, m := x / WORD, x % WORD, WORD / n;
    assert WORD == m * n;
    assert x == q * (m * n) + r;
    assert q * (m * n) == (q * m) * n;
    assert x == (q * m + r / n) * n + r % n;
    RemainderOf(q * m + r / n, r % n, n);
  }

  /** Slots of a window no longer than the ring are distinct, wherever the counter wraps. */
  lemma SlotsDiffer(base: u32, i: nat, j: nat, n: nat)
    requires RingSize(n) && i < j < i + n
    ensures Add32(base, i) % n != Add32(base, j) % n
  {
    WrapKeepsSlot(base + i, n);
    WrapKeepsSlot(base + j, n);
    if (base + i) % n == (base + j) % n { SameRemainder(base + i, base + j, n); }
  }

  lemma SubThenAdd(a: u32, b: u32)
    ensures Add32(b, Sub32(a, b)) == a
  {
  }

  // ----- submissions and completions -----

  datatype Op = Nop | Read | Write

  datatype Sqe = Sqe(op: Op, buf: nat, len: nat, off: nat, link: bool, userData: nat)

  /** memset of an SQE. */
  const ZERO_SQE := Sqe(Nop, 0, 0, 0, false, 0)

  datatype Cqe = Cqe(userData: nat, res: int)

  const ECANCELED := 125

  // ----- the kernel's work -----

  datatype Job = Job(sqe: Sqe, done: bool, ok: bool)

  /** The source and destination files, the user's buffers, the submitted requests, every completion
      posted so far, and how many of those fell short of their request. */
  datatype Kernel = Kernel(src: bytes, dst: bytes, bufs: seq<bytes>, jobs: seq<Job>, log: seq<Cqe>, shorts: nat)

  /** Which request runs next and what the device makes of it: an error, or how many bytes at most. */
  datatype Choice = Choice(job: nat, result: int)

  predicate AfterLink(k: Kernel, j: nat)
    requires j < |k.jobs|
  {
    j > 0 && k.jobs[j - 1].sqe.link
  }

  predicate CanRun(k: Kernel, j: nat) {
    j < |k.jobs| && !k.jobs[j].done && (AfterLink(k, j) ==> k.jobs[j - 1].done)
  }

  function Min(a: int, b: int): int { if a <= b then a else b }

  /** res of the completion: cancelled after a short or failed link, else the device's answer, cut to
      the request and, for a read, to the file. */
  function ResultOf(k: Kernel, ch: Choice): int
    requires CanRun(k, ch.job)
  {
    var sqe := k.jobs[ch.job].sqe;
    if AfterLink(k, ch.job) && !k.jobs[ch.job - 1].ok then -ECANCELED
    else if ch.result < 0 then ch.result
    else match sqe.op
      case Nop => 0
      case Write => Min(ch.result, sqe.len)
      case Read => Min(ch.result, Min(sqe.len, if sqe.off <= |k.src| then |k.src| - sqe.off else 0))
  }

  /** A positioned write: a gap before off is filled with zeros. */
  function WriteAt(dst: bytes, off: nat, data: bytes): bytes {
    var d := if |dst| < off then dst + Zeros(off - |dst|) else dst;
    if off + |data| <= |d| then Splice(d, off, data) else d[..off] + data
  }

  predicate BuffersFit(k: Kernel) {
    forall j :: 0 <= j < |k.jobs| ==> k.jobs[j].sqe.buf < |k.bufs| && k.jobs[j].sqe.len <= |k.bufs[k.jobs[j].sqe.buf]|
  }

  /** The kernel completes one request, if it may run. */
  function RunJob(k: Kernel, ch: Choice): (k': Kernel)
    requires BuffersFit(k)
    ensures |k'.jobs| == |k.jobs| && BuffersFit(k')
  {
    if !CanRun(k, ch.job) then k
    else
      var job, res := k.jobs[ch.job], ResultOf(k, ch);
      var k1 := k.(jobs := k.jobs[ch.job := Job(job.sqe, true, res == job.sqe.len)], log := k.log + [Cqe(job.sqe.userData, res)],
                   shorts := if res == job.sqe.len then k.shorts else k.shorts + 1);
      if res <= 0 then k1
      else match job.sqe.op
        case Nop => k1
        case Read => k1.(bufs := k.bufs[job.sqe.buf := Splice(k.bufs[job.sqe.buf], 0, k.src[job.sqe.off..job.sqe.off + res])])
        case Write => k1.(dst := WriteAt(k.dst, job.sqe.off, k.bufs[job.sqe.buf][..res]))
  }

  function RunJobs(k: Kernel, choices: seq<Choice>): (k': Kernel)
    requires BuffersFit(k)
    ensures |k'.jobs| == |k.jobs| && BuffersFit(k')
    decreases |choices|
  {
    if choices == [] then k else RunJobs(RunJob(k, choices[0]), choices[1..])
  }

  ghost predicate Reaches(k: Kernel, k': Kernel) {
    BuffersFit(k) && exists choices :: k' == RunJobs(k, choices)
  }

  lemma {:induction false} RunJobsAppend(k: Kernel, a: seq<Choice>, b: seq<Choice>)
    requires BuffersFit(k)
    ensures RunJobs(k, a + b) == RunJobs(RunJobs(k, a), b)
    decreases |a|
  {
    hide RunJob;
    if a == [] {
      assert a + b == b;
    } else {
      assert (a + b)[1..] == a[1..] + b;
      RunJobsAppend(RunJob(k, a[0]), a[1..], b);
    }
  }

  lemma ReachesSelf(k: Kernel)
    requires BuffersFit(k)
    ensures Reaches(k, k)
  {
    assert k == RunJobs(k, []);
  }

  lemma ReachesThen(a: Kernel, b: Kernel, c: Kernel)
    requires Reaches(a, b) && Reaches(b, c)
    ensures Reaches(a, c)
  {
    hide RunJobs;
    var x :| b == RunJobs(a, x);
    var y :| c == RunJobs(b, y);
    RunJobsAppend(a, x, y);
  }

  lemma ReachesOneMore(a: Kernel, b: Kernel, ch: Choice)
    requires Reaches(a, b)
    ensures BuffersFit(b) && Reaches(a, RunJob(b, ch))
  {
    hide RunJob;
    assert BuffersFit(b);
    assert RunJobs(RunJob(b, ch), []) == RunJob(b, ch);
    assert RunJobs(b, [ch]) == RunJob(b, ch);
    ReachesThen(a, b, RunJob(b, ch));
  }

  const NotDone: Job -> int := (j: Job) => if j.done then 0 else 1

  function Undone(k: Kernel): int { Total(k.jobs, NotDone) }

  lemma UndoneBounds(k: Kernel)
    ensures 0 <= Undone(k) && (Undone(k) == 0 <==> forall j :: 0 <= j < |k.jobs| ==> k.jobs[j].done)
  {
    TotalNonNegative(k.jobs, NotDone);
  }

  /** Completing a request takes one off the undone ones and posts one completion. */
  lemma RunJobCounts(k: Kernel, ch: Choice)
    requires BuffersFit(k) && CanRun(k, ch.job)
    ensures Undone(RunJob(k, ch)) == Undone(k) - 1 && |RunJob(k, ch).log| == |k.log| + 1 && RunJob(k, ch).log[..|k.log|] == k.log
  {
    TotalUpdate(k.jobs, ch.job, RunJob(k, ch).jobs[ch.job], NotDone);
  }

  lemma {:induction false} SomeCanRun(k: Kernel, upTo: nat) returns (j: nat)
    requires upTo < |k.jobs| && !k.jobs[upTo].done
    ensures CanRun(k, j)
    decreases upTo
  {
    j := upTo;
    if AfterLink(k, upTo) && !k.jobs[upTo - 1].done { j := SomeCanRun(k, upTo - 1); }
  }

  function NewJobs(queue: seq<Sqe>): seq<Job> {
    seq(|queue|, i requires 0 <= i < |queue| => Job(queue[i], false, false))
  }

  /** io_uring_enter takes the queued SQEs. Requests that are all complete are forgotten by then. */
  function Submit(k: Kernel, queue: seq<Sqe>): Kernel {
    if queue == [] then k
    else if forall j :: 0 <= j < |k.jobs| ==> k.jobs[j].done then k.(jobs := NewJobs(queue))
    else k.(jobs := k.jobs + NewJobs(queue))
  }

  lemma {:induction false} TotalAppend<T>(a: seq<T>, b: seq<T>, f: T -> int)
    ensures Total(a + b, f) == Total(a, f) + Total(b, f)
  {
    if a == [] {
      assert a + b == b;
    } else {
      assert (a + b)[1..] == a[1..] + b;
      TotalAppend(a[1..], b, f);
    }
  }

  lemma SubmitCounts(k: Kernel, queue: seq<Sqe>)
    requires BuffersFit(k) && QueueFits(k, queue)
    ensures BuffersFit(Submit(k, queue)) && Undone(Submit(k, queue)) == Undone(k) + |queue|
  {
    UndoneBounds(k);
    TotalConstant(NewJobs(queue), NotDone, 1);
    TotalAppend(k.jobs, NewJobs(queue), NotDone);
  }

  predicate QueueFits(k: Kernel, queue: seq<Sqe>) {
    forall i :: 0 <= i < |queue| ==> queue[i].buf < |k.bufs| && queue[i].len <= |k.bufs[queue[i].buf]|
  }

  // ----- the rings -----

  datatype SysOutcome = Returned | Interrupted | Failed(errno: nat)

  /** The ring entry that a counter names. */
  function Entry<T>(a: seq<T>, c: u32): T
    requires RingSize(|a|)
  {
    a[c % |a|]
  }

  /** The ring entries of the n counters from head on. */
  function WindowOf<T>(a: seq<T>, head: u32, n: nat): (w: seq<T>)
    requires RingSize(|a|)
    ensures |w| == n
  {
    seq(n, i requires 0 <= i < n => Entry(a, Add32(head, i)))
  }

  /** Writing the slot after a window that does not fill the ring only adds an entry. */
  lemma WindowGrows<T>(a: seq<T>, head: u32, n: nat, x: T)
    requires RingSize(|a|) && n < |a|
    ensures WindowOf(a[Add32(head, n) % |a| := x], head, n + 1) == WindowOf(a, head, n) + [x]
  {
    forall i | 0 <= i < n ensures Add32(head, i) % |a| != Add32(head, n) % |a| { SlotsDiffer(head, i, n, |a|); }
  }

  lemma WindowUpdates<T>(a: seq<T>, head: u32, n: nat, pos: nat, x: T)
    requires RingSize(|a|) && pos < n <= |a|
    ensures WindowOf(a[Add32(head, pos) % |a| := x], head, n) == WindowOf(a, head, n)[pos := x]
  {
    forall i | 0 <= i < n && i != pos ensures Add32(head, i) % |a| != Add32(head, pos) % |a| {
      if i < pos { SlotsDiffer(head, i, pos, |a|); } else { SlotsDiffer(head, pos, i, |a|); }
    }
  }

  lemma Add32Next(head: u32, n: nat)
    ensures Add32(head, 0) == head && forall i: nat :: i < n ==> Add32(Add32(head, 1), i) == Add32(head, i + 1)
  {
  }

  lemma WindowShrinks<T>(a: seq<T>, head: u32, n: nat)
    requires RingSize(|a|) && 1 <= n <= |a|
    ensures WindowOf(a, head, n) == [Entry(a, head)] + WindowOf(a, Add32(head, 1), n - 1)
  {
    Add32Next(head, n);
    hide Add32, Entry;
  }

  /** The index array maps each of the n slots from head on to itself. */
  ghost predicate Indexed(a: seq<nat>, head: u32, n: nat)
    requires RingSize(|a|)
  {
    forall i :: 0 <= i < n ==> a[Add32(head, i) % |a|] == Add32(head, i) % |a|
  }

  lemma IndexedShrinks(a: seq<nat>, head: u32, n: nat)
    requires RingSize(|a|) && 1 <= n && Indexed(a, head, n)
    ensures a[head % |a|] == head % |a| && Indexed(a, Add32(head, 1), n - 1)
  {
    Add32Next(head, n);
    hide Add32;
  }

  lemma IndexedGrows(a: seq<nat>, head: u32, n: nat, slot: nat)
    requires RingSize(|a|) && n < |a| && slot == Add32(head, n) % |a| && Indexed(a, head, n)
    ensures Indexed(a[slot := slot], head, n + 1)
  {
  }

  class Ring {
    const sqes: array<Sqe>
    const sqArray: array<nat>
    const cqes: array<Cqe>
    var sqHead: u32
    var sqTail: u32
    var cqHead: u32
    var cqTail: u32
    var localTail: u32
    var toSubmit: nat
    /** The kernel behind the rings, and how many more interrupted or early system calls it has in it. */
    var kernel: Kernel
    var patience: nat
    ghost var popped: nat
    ghost var failures: seq<nat>  // what system calls failed with, other than by a signal

    /** The rings of a new descriptor: sizes that are powers of two, counters anywhere, nothing queued. */
    constructor (entries: nat, completions: nat, sqStart: u32, cqStart: u32, kernel: Kernel, patience: nat)
      requires RingSize(entries) && RingSize(completions) && BuffersFit(kernel) && Undone(kernel) <= completions
      ensures KernelOk() && SqCount() == CqCount() == toSubmit == 0 && sqTail == localTail
      ensures sqes.Length == sqArray.Length == entries && cqes.Length == completions
      ensures sqHead == sqStart && cqHead == cqStart && this.kernel == kernel && this.patience == patience
      ensures fresh(sqes) && fresh(sqArray) && fresh(cqes)
    {
      sqes := new Sqe[entries](_ => ZERO_SQE);
      sqArray := new nat[entries](_ => 0);
      cqes := new Cqe[completions](_ => Cqe(0, 0));
      sqHead, sqTail, localTail, toSubmit := sqStart, sqStart, sqStart, 0;
      cqHead, cqTail := cqStart, cqStart;
      this.kernel, this.patience := kernel, patience;
      popped, failures := |kernel.log|, [];
    }

    function SqCount(): nat
      reads this`localTail, this`sqHead
    {
      Sub32(localTail, sqHead)
    }

    function CqCount(): nat
      reads this`cqTail, this`cqHead
    {
      Sub32(cqTail, cqHead)
    }

    /** sqArray maps every claimed slot to itself. */
    ghost predicate SqOk()
      reads this`localTail, this`sqHead, sqArray
    {
      RingSize(sqes.Length) && SqCount() <= sqes.Length == sqArray.Length && Indexed(sqArray[..], sqHead, SqCount())
    }

    /** The SQEs claimed and not yet taken by the kernel, oldest first. */
    ghost function Queue(): seq<Sqe>
      requires SqOk()
      reads this`localTail, this`sqHead, sqArray, sqes
    {
      WindowOf(sqes[..], sqHead, SqCount())
    }

    ghost predicate CqOk()
      reads this`cqTail, this`cqHead
    {
      RingSize(cqes.Length) && CqCount() <= cqes.Length
    }

    /** The completions posted and not yet popped, oldest first. */
    ghost function Completed(): seq<Cqe>
      requires CqOk()
      reads this`cqTail, this`cqHead, cqes
    {
      WindowOf(cqes[..], cqHead, CqCount())
    }

    /** The completion ring shows what the kernel has posted since the last pop, and has room for the rest. */
    ghost predicate KernelOk()
      reads this`cqTail, this`cqHead, this`kernel, this`popped, this`localTail, this`sqHead, cqes, sqArray
    {
      && SqOk() && CqOk() && BuffersFit(kernel)
      && popped <= |kernel.log| && Completed() == kernel.log[popped..]
      && CqCount() + Undone(kernel) + SqCount() <= cqes.Length
    }

    /** A slot for one more request, cleared of what an earlier one left there; None if every slot is in use. */
    method TryGetSqe() returns (r: Option<nat>)
      requires SqOk()
      modifies this`localTail, this`toSubmit, sqes, sqArray
      ensures SqOk()
      ensures r.None? <==> old(SqCount()) == sqes.Length
      ensures r.None? ==> Queue() == old(Queue()) && toSubmit == old(toSubmit) && localTail == old(localTail)
      ensures r.Some? ==> Queue() == old(Queue()) + [ZERO_SQE] && toSubmit == old(toSubmit) + 1
      ensures r.Some? ==> r.value == old(localTail) % sqes.Length == Add32(sqHead, old(SqCount())) % sqes.Length
      ensures r.Some? ==> forall i :: 0 <= i < old(SqCount()) ==> Add32(sqHead, i) % sqes.Length != r.value
    {
      var head := sqHead;
      ghost var n, before, index := SqCount(), sqes[..], sqArray[..];
      SubThenAdd(localTail, head);
      if Sub32(localTail, head) > sqes.Length - 1 {
        return None;
      }
      var idx := localTail % sqes.Length;
      forall i | 0 <= i < n ensures Add32(head, i) % sqes.Length != idx {
        SlotsDiffer(head, i, n, sqes.Length);
      }
      sqes[idx] := ZERO_SQE;
      sqArray[idx] := idx;
      localTail := Add32(localTail, 1);
      toSubmit := toSubmit + 1;
      NextCount(old(localTail), head);
      assert sqes[..] == before[idx := ZERO_SQE] && sqArray[..] == index[idx := idx];
      IndexedGrows(index, head, n, idx);
      WindowGrows(before, head, n, ZERO_SQE);
      return Some(idx);
    }

    /** The caller writes the fields of a slot it has claimed. */
    method Fill(pos: nat, idx: nat, sqe: Sqe)
      requires SqOk() && pos < SqCount() && idx == Add32(sqHead, pos) % sqes.Length
      modifies sqes
      ensures Queue() == old(Queue())[pos := sqe]
    {
      ghost var before := sqes[..];
      sqes[idx] := sqe;
      assert sqes[..] == before[idx := sqe];
      WindowUpdates(before, sqHead, SqCount(), pos, sqe);
    }

    /** Takes the oldest completion that is waiting. */
    method Pop() returns (r: Option<Cqe>)
      requires CqOk()
      modifies this`cqHead, this`popped
      ensures CqOk()
      ensures r.None? <==> old(CqCount()) == 0
      ensures r.None? ==> Completed() == old(Completed()) && popped == old(popped)
      ensures r.Some? ==> old(Completed()) == [r.value] + Completed() && popped == old(popped) + 1 && CqCount() == old(CqCount()) - 1
    {
      var head, tail := cqHead, cqTail;
      EmptyIff(tail, head);
      if head == tail {
        return None;
      }
      WindowShrinks(cqes[..], head, CqCount());
      r := Some(cqes[head % cqes.Length]);
      cqHead := Add32(head, 1);
      popped := popped + 1;
      DropOne(tail, head);
    }

    /** The kernel posts one completion. */
    method Post(c: Cqe)
      requires CqOk() && CqCount() < cqes.Length
      modifies this`cqTail, cqes
      ensures CqOk() && Completed() == old(Completed()) + [c]
    {
      ghost var n, before := CqCount(), cqes[..];
      SubThenAdd(cqTail, cqHead);
      cqes[cqTail % cqes.Length] := c;
      cqTail := Add32(cqTail, 1);
      NextCount(old(cqTail), cqHead);
      assert cqes[..] == before[old(cqTail) % cqes.Length := c];
      WindowGrows(before, cqHead, n, c);
    }

    // ----- the kernel behind io_uring_enter -----

    method CompleteOne(ch: Choice)
      requires KernelOk() && CanRun(kernel, ch.job)
      modifies this`kernel, this`cqTail, cqes
      ensures KernelOk() && kernel == RunJob(old(kernel), ch)
    {
      RunJobCounts(kernel, ch);
      UndoneBounds(RunJob(kernel, ch));
      var k := RunJob(kernel, ch);
      Post(k.log[|k.log| - 1]);
      kernel := k;
    }

    /** Requests complete in some order the links allow, at least until atLeast completions are waiting. */
    method Progress(atLeast: nat)
      requires KernelOk() && atLeast <= CqCount() + Undone(kernel)
      modifies this`kernel, this`cqTail, cqes
      ensures KernelOk() && Reaches(old(kernel), kernel) && CqCount() >= atLeast
    {
      ReachesSelf(kernel);
      var extra: nat := *;
      while CqCount() < atLeast || extra > 0
        invariant KernelOk() && Reaches(old(kernel), kernel) && atLeast <= CqCount() + Undone(kernel)
        decreases Undone(kernel), extra
      {
        UndoneBounds(kernel);
        if Undone(kernel) == 0 {
          return;
        }
        ghost var undone: nat :| undone < |kernel.jobs| && !kernel.jobs[undone].done;
        ghost var runnable := SomeCanRun(kernel, undone);
        var j: nat :| CanRun(kernel, j);
        var result: int := *;
        RunJobCounts(kernel, Choice(j, result));
        ReachesOneMore(old(kernel), kernel, Choice(j, result));
        CompleteOne(Choice(j, result));
        extra := if extra > 0 then extra - 1 else 0;
      }
    }

    method TakeOne() returns (sqe: Sqe)
      requires SqOk() && sqTail == localTail && sqHead != sqTail
      modifies this`sqHead
      ensures SqOk() && old(Queue()) == [sqe] + Queue() && SqCount() == old(SqCount()) - 1
    {
      hide WindowOf, Indexed, Add32, Sub32;
      EmptyIff(sqTail, sqHead);
      WindowShrinks(sqes[..], sqHead, SqCount());
      IndexedShrinks(sqArray[..], sqHead, SqCount());
      sqe := sqes[sqArray[sqHead % sqes.Length]];
      DropOne(sqTail, sqHead);
      sqHead := Add32(sqHead, 1);
    }

    /** The kernel takes every published SQE off the submission ring. */
    method TakeQueue()
      requires KernelOk() && sqTail == localTail && QueueFits(kernel, Queue())
      modifies this`sqHead, this`kernel
      ensures KernelOk() && Queue() == [] && kernel == Submit(old(kernel), old(Queue()))
    {
      hide Undone, WindowOf, Indexed, Submit, BuffersFit, Add32, Sub32;
      ghost var all := Queue();
      var q: seq<Sqe> := [];
      SubmitCounts(kernel, Queue());
      SubmitKeepsLog(kernel, Queue());
      while sqHead != sqTail
        invariant SqOk() && q + Queue() == all && kernel == old(kernel)
        decreases SqCount()
      {
        var sqe := TakeOne();
        q := q + [sqe];
      }
      EmptyIff(sqTail, sqHead);
      assert q == all;
      kernel := Submit(kernel, q);
    }

    /** One io_uring_enter(2). It may fail; it may be interrupted before or after taking the queue, or
        return before waitNr completions are there, but only as often as the kernel's patience lasts. */
    method Syscall(waitNr: nat) returns (r: SysOutcome)
      requires KernelOk() && sqTail == localTail && QueueFits(kernel, Queue())
      requires waitNr <= CqCount() + Undone(kernel) + SqCount()
      modifies this`sqHead, this`kernel, this`cqTail, this`patience, this`failures, cqes
      ensures KernelOk() && patience <= old(patience)
      ensures (Queue() == old(Queue()) && Reaches(old(kernel), kernel)) || (Queue() == [] && Submitted(old(kernel), old(Queue()), kernel))
      ensures failures == old(failures) + if r.Failed? then [r.errno] else []
      ensures r.Interrupted? ==> patience < old(patience)
      ensures r.Returned? ==> Queue() == [] && Submitted(old(kernel), old(Queue()), kernel) && (CqCount() >= waitNr || patience < old(patience))
    {
      hide RunJobs, Reaches, Submitted, Submit, WindowOf, Indexed, Add32, Sub32, Undone, RingSize;
      ReachesSelf(kernel);
      UndoneBounds(kernel);
      var fails, interrupted, early, errno: nat := *, *, *, *;
      if fails == 1 {
        failures := failures + [errno];
        return Failed(errno);
      }
      if patience > 0 && interrupted == 1 {
        patience := patience - 1;
        return Interrupted;
      }
      SubmitCounts(kernel, Queue());
      TakeQueue();
      ghost var taken := kernel;
      UndoneBounds(kernel);
      if patience > 0 && (interrupted == 2 || early == 1) {
        patience := patience - 1;
        Progress(0);
        SubmittedNow(old(kernel), old(Queue()), kernel);
        return if early == 1 then Returned else Interrupted;
      }
      Progress(waitNr);
      SubmittedNow(old(kernel), old(Queue()), kernel);
      return Returned;
    }

    // ----- the wrapper -----

    /** enter: retry while interrupted. */
    method Enter(waitNr: nat) returns (r: Result<(), nat>)
      requires KernelOk() && sqTail == localTail && QueueFits(kernel, Queue())
      requires waitNr <= CqCount() + Undone(kernel) + SqCount()
      modifies this`sqHead, this`kernel, this`cqTail, this`patience, this`failures, cqes
      ensures KernelOk() && patience <= old(patience) && failures == old(failures) + if r.Err? then [r.error] else []
      ensures (Queue() == old(Queue()) && Reaches(old(kernel), kernel)) || (Queue() == [] && Submitted(old(kernel), old(Queue()), kernel))
      ensures r.Ok? ==> Queue() == [] && Submitted(old(kernel), old(Queue()), kernel) && (CqCount() >= waitNr || patience < old(patience))
    {
      ReachesSelf(kernel);
      while true
        invariant KernelOk() && patience <= old(patience) && waitNr <= CqCount() + Undone(kernel) + SqCount()
        invariant (Queue() == old(Queue()) && Reaches(old(kernel), kernel)) || (Queue() == [] && Submitted(old(kernel), old(Queue()), kernel))
        invariant QueueFits(kernel, Queue()) && failures == old(failures)
        decreases patience
      {
        ghost var k, q := kernel, Queue();
        var outcome := Syscall(waitNr);
        SyscallChain(old(kernel), old(Queue()), k, q, kernel, Queue());
        SyscallCounts(k, q, kernel, Queue());
        match outcome {
          case Returned => return Ok(());
          case Interrupted =>
          case Failed(errno) => return Err(errno);
        }
      }
    }

    /** Hands the queue to the kernel in one system call, which also waits. */
    method SubmitAndWait(waitNr: nat) returns (r: Result<(), nat>)
      requires KernelOk() && QueueFits(kernel, Queue())
      requires waitNr <= CqCount() + Undone(kernel) + SqCount()
      modifies this`sqHead, this`sqTail, this`toSubmit, this`kernel, this`cqTail, this`patience, this`failures, cqes
      ensures KernelOk() && sqTail == localTail && toSubmit == 0 && failures == old(failures) + if r.Err? then [r.error] else []
      ensures (Queue() == old(Queue()) && Reaches(old(kernel), kernel)) || (Queue() == [] && Submitted(old(kernel), old(Queue()), kernel))
      ensures r.Ok? ==> Queue() == [] && Submitted(old(kernel), old(Queue()), kernel) && (CqCount() >= waitNr || patience < old(patience))
    {
      sqTail := localTail;
      toSubmit := 0;
      r := Enter(waitNr);
    }

    /** Pop what is waiting, at most limit completions. */
    method PopReady(limit: nat) returns (got: seq<Cqe>)
      requires KernelOk()
      modifies this`cqHead, this`popped
      ensures KernelOk() && popped == old(popped) + |got| && got == kernel.log[old(popped)..popped]
      ensures CqCount() + |got| == old(CqCount()) && |got| <= limit && (|got| == limit || CqCount() == 0)
    {
      hide WindowOf, Undone, Add32, Sub32, Indexed;
      got := [];
      while |got| < limit
        invariant KernelOk() && popped == old(popped) + |got| && got == kernel.log[old(popped)..popped]
        invariant CqCount() + |got| == old(CqCount()) && |got| <= limit
      {
        ghost var waiting := Completed();
        var c := Pop();
        if c.None? {
          return;
        }
        assert waiting == kernel.log[popped - 1..];
        assert kernel.log[popped - 1] == c.value && Completed() == kernel.log[popped..];
        got := got + [c.value];
      }
    }

    /** Waits for and takes need completions; got is what the callback is called with, in order. */
    method Drain(need: nat) returns (r: Result<(), nat>, got: seq<Cqe>)
      requires KernelOk() && SqCount() == 0 && sqTail == localTail && need == CqCount() + Undone(kernel)
      modifies this`sqHead, this`cqHead, this`kernel, this`cqTail, this`patience, this`popped, this`failures, cqes
      ensures KernelOk() && SqCount() == 0 && Reaches(old(kernel), kernel)
      ensures failures == old(failures) + if r.Err? then [r.error] else []
      ensures r.Ok? ==> |got| == need && Completed() == [] && Undone(kernel) == 0
      ensures r.Ok? ==> old(popped) <= |kernel.log| && got == kernel.log[old(popped)..]
    {
      hide RunJobs, Reaches, Undone, WindowOf, Indexed, Add32, Sub32, Submitted, BuffersFit, RingSize;
      got := [];
      var left := need;
      ReachesSelf(kernel);
      while left > 0
        invariant KernelOk() && SqCount() == 0 && Reaches(old(kernel), kernel)
        invariant left == CqCount() + Undone(kernel) && |got| + left == need
        invariant old(popped) <= popped && got == kernel.log[old(popped)..popped] && failures == old(failures)
        decreases patience, if CqCount() >= left then 0 else 1
      {
        UndoneBounds(kernel);
        ghost var k := kernel;
        ghost var from := popped;
        var ready := PopReady(left);
        JoinSlices(k.log, old(popped), from, popped, k.log);
        got, left := got + ready, left - |ready|;
        if left == 0 {
          break;
        }
        var e := Enter(left);
        SyscallCounts(k, [], kernel, []);
        JoinSlices(k.log, old(popped), popped, popped, kernel.log);
        ReachesThen(old(kernel), k, kernel);
        if e.Err? {
          return Err(e.error), got;
        }
      }
      UndoneBounds(kernel);
      return Ok(()), got;
    }
  }

  /** A stretch of the log, in two parts, in the log as it is later. */
  lemma JoinSlices<T>(log: seq<T>, from: nat, mid: nat, to: nat, later: seq<T>)
    requires from <= mid <= to <= |log| && log <= later
    ensures later[from..to] == log[from..mid] + log[mid..to]
  {
  }

  lemma SubmitKeepsLog(k: Kernel, queue: seq<Sqe>)
    ensures Submit(k, queue).log == k.log
  {
  }

  /** Running requests keeps the buffers' sizes, only adds completions, and trades undone requests for them. */
  lemma {:induction false} ReachesCounts(k: Kernel, choices: seq<Choice>)
    requires BuffersFit(k)
    ensures var k' := RunJobs(k, choices);
      |k'.log| + Undone(k') == |k.log| + Undone(k) && k.log <= k'.log && k'.src == k.src
      && |k'.bufs| == |k.bufs| && forall i :: 0 <= i < |k.bufs| ==> |k'.bufs[i]| == |k.bufs[i]|
    decreases |choices|
  {
    if choices != [] {
      if CanRun(k, choices[0].job) { RunJobCounts(k, choices[0]); }
      hide RunJob;
      ReachesCounts(RunJob(k, choices[0]), choices[1..]);
    }
  }

  /** One system call leaves waiting completions, undone requests and queued SQEs the same in total. */
  lemma SyscallCounts(k: Kernel, q: seq<Sqe>, k': Kernel, q': seq<Sqe>)
    requires QueueFits(k, q) && ((q' == q && Reaches(k, k')) || (q' == [] && Submitted(k, q, k')))
    ensures |k'.log| + Undone(k') + |q'| == |k.log| + Undone(k) + |q| && k.log <= k'.log && k'.src == k.src && QueueFits(k', q')
    ensures q == [] ==> Reaches(k, k')
  {
    hide RunJobs, Undone;
    if q' == q && Reaches(k, k') {
      var a :| k' == RunJobs(k, a);
      ReachesCounts(k, a);
    } else {
      var mid :| Reaches(k, mid) && QueueFits(mid, q) && Reaches(Submit(mid, q), k');
      var a :| mid == RunJobs(k, a);
      var b :| k' == RunJobs(Submit(mid, q), b);
      ReachesCounts(k, a);
      SubmitCounts(mid, q);
      ReachesCounts(Submit(mid, q), b);
      if q == [] { ReachesThen(k, mid, k'); }
    }
  }

  lemma SubmittedNow(k: Kernel, q: seq<Sqe>, k': Kernel)
    requires BuffersFit(k) && QueueFits(k, q) && Reaches(Submit(k, q), k')
    ensures Submitted(k, q, k')
  {
    hide RunJobs;
    ReachesSelf(k);
  }

  /** Two system calls in a row, of which at most one takes the queue. */
  lemma SyscallChain(k0: Kernel, q0: seq<Sqe>, k: Kernel, q: seq<Sqe>, k': Kernel, q': seq<Sqe>)
    requires (q == q0 && Reaches(k0, k)) || (q == [] && Submitted(k0, q0, k))
    requires (q' == q && Reaches(k, k')) || (q' == [] && Submitted(k, q, k'))
    ensures (q' == q0 && Reaches(k0, k')) || (q' == [] && Submitted(k0, q0, k'))
    ensures q' == [] && Submitted(k, q, k') ==> Submitted(k0, q0, k')
  {
    hide RunJobs, Reaches;
    if q == q0 && Reaches(k0, k) {
      if q' == q && Reaches(k, k') {
        ReachesThen(k0, k, k');
      }
      if q' == [] && Submitted(k, q, k') {
        var mid :| Reaches(k, mid) && QueueFits(mid, q) && Reaches(Submit(mid, q), k');
        ReachesThen(k0, k, mid);
      }
    }
    if q == [] && Submitted(k0, q0, k) {
      var mid :| Reaches(k0, mid) && QueueFits(mid, q0) && Reaches(Submit(mid, q0), k);
      if Reaches(k, k') {
        ReachesThen(Submit(mid, q0), k, k');
      } else {
        var m :| Reaches(k, m) && QueueFits(m, []) && Reaches(Submit(m, []), k');
        ReachesThen(k, m, k');
        ReachesThen(Submit(mid, q0), k, k');
      }
    }
  }

  /** The kernel took the queue at some point of its progress. */
  ghost predicate Submitted(k: Kernel, queue: seq<Sqe>, k': Kernel) {
    exists mid :: Reaches(k, mid) && QueueFits(mid, queue) && Reaches(Submit(mid, queue), k')
  }

  lemma NextCount(tail: u32, head: u32)
    ensures Sub32(tail, head) + 1 < WORD ==> Sub32(Add32(tail, 1), head) == Sub32(tail, head) + 1
  {
  }

  lemma EmptyIff(tail: u32, head: u32)
    ensures Sub32(tail, head) == 0 <==> tail == head
  {
  }

  lemma DropOne(tail: u32, head: u32)
    requires tail != head
    ensures Sub32(tail, Add32(head, 1)) == Sub32(tail, head) - 1
  {
  }
}
