/**
 The seccomp allowlist assembler, proved against an interpreter for the three classic-BPF
 instructions it emits. Jump offsets are 8-bit, as in struct sock_filter.
 */
module Seccomp {

  type u8 = x: int | 0 <= x < 0x100
  type u32 = x: int | 0 <= x < 0x1_0000_0000

  // BPF_LD|BPF_W|BPF_ABS, BPF_JMP|BPF_JEQ|BPF_K and BPF_RET.
  const LOAD := 0x20
  const JUMP_EQ := 0x15
  const RET := 0x06

  const NR_OFFSET: u32 := 0
  const ARCH_OFFSET: u32 := 4
  const ARCH_X86_64: u32 := 0xC000_003E
  const KILL_PROCESS: u32 := 0x8000_0000
  const ALLOW: u32 := 0x7FFF_0000
  const ERRNO: u32 := 0x0005_0000

  datatype Insn = Insn(code: int, jt: u8, jf: u8, k: u32)

  function Stmt(code: int, k: u32): Insn { Insn(code, 0, 0, k) }
  function Jump(code: int, k: u32, jt: u8, jf: u8): Insn { Insn(code, jt, jf, k) }

  /** SECCOMP_RET_ERRNO | (errno & SECCOMP_RET_DATA): the low 16 bits of the action are free. */
  function Deny(errno: u32): u32 { ERRNO + errno % 0x1_0000 }

  /** The two halves of the word keep the action and the error number apart. */
  lemma DenyCarriesErrno(errno: u32)
    ensures Deny(errno) / 0x1_0000 * 0x1_0000 == ERRNO && Deny(errno) % 0x1_0000 == errno % 0x1_0000
  {
  }

  // ----- the kernel's side -----

  /** The two words of struct seccomp_data that the filter loads. */
  datatype Data = Data(nr: u32, arch: u32)

  /** Return is the action of a RET; Fault is anything the kernel's verifier would refuse. */
  datatype Outcome = Return(action: u32) | Fault

  function Exec(prog: seq<Insn>, d: Data, pc: nat, acc: u32): Outcome
    decreases |prog| - pc
  {
    if pc >= |prog| then Fault
    else
      var insn := prog[pc];
      if insn.code == LOAD then
        if insn.k == NR_OFFSET then Exec(prog, d, pc + 1, d.nr)
        else if insn.k == ARCH_OFFSET then Exec(prog, d, pc + 1, d.arch)
        else Fault
      else if insn.code == JUMP_EQ then Exec(prog, d, pc + 1 + (if acc == insn.k then insn.jt else insn.jf), acc)
      else if insn.code == RET then Return(insn.k)
      else Fault
  }

  function Filter(prog: seq<Insn>, d: Data): Outcome { Exec(prog, d, 0, 0) }

  // ----- the assembler -----

  function Test(allowed: seq<u32>, i: nat): Insn
    requires i < |allowed|
  {
    Jump(JUMP_EQ, allowed[i], (|allowed| - i) % 0x100, 0)
  }

  function Program(allowed: seq<u32>, errno: u32): (prog: seq<Insn>)
    ensures |prog| == |allowed| + 6
  {
    [Stmt(LOAD, ARCH_OFFSET), Jump(JUMP_EQ, ARCH_X86_64, 1, 0), Stmt(RET, KILL_PROCESS), Stmt(LOAD, NR_OFFSET)]
      + seq(|allowed|, i requires 0 <= i < |allowed| => Test(allowed, i))
      + [Stmt(RET, Deny(errno)), Stmt(RET, ALLOW)]
  }

  method BuildAllowlist(allowed: seq<u32>, denyErrno: u32) returns (prog: seq<Insn>)
    ensures prog == Program(allowed, denyErrno)
  {
    prog := [
      Stmt(LOAD, ARCH_OFFSET),
      Jump(JUMP_EQ, ARCH_X86_64, 1, 0),
      Stmt(RET, KILL_PROCESS),
      Stmt(LOAD, NR_OFFSET)
    ];
    ghost var header := prog;
    for i := 0 to |allowed|
      invariant prog == header + seq(i, j requires 0 <= j < i => Test(allowed, j))
    {
      var remaining := |allowed| - i - 1;
      prog := prog + [Jump(JUMP_EQ, allowed[i], (remaining + 1) % 0x100, 0)];
    }
    prog := prog + [Stmt(RET, Deny(denyErrno))];
    prog := prog + [Stmt(RET, ALLOW)];
  }

  // ----- what the program means -----

  /** The entries whose match jump can reach the final RET ALLOW: the last 255. */
  function Effective(allowed: seq<u32>): seq<u32> {
    if |allowed| <= 255 then allowed else allowed[|allowed| - 255..]
  }

  /** From test i on, the system call is allowed exactly when an effective entry at or after i names it.
      A match further than 255 from the end jumps by its offset mod 256, which lands at a later test. */
  lemma {:induction false} ExecTests(allowed: seq<u32>, errno: u32, d: Data, i: nat)
    requires i <= |allowed|
    ensures Exec(Program(allowed, errno), d, 4 + i, d.nr) ==
            Return(if exists j :: i <= j < |allowed| && |allowed| - 255 <= j && allowed[j] == d.nr then ALLOW else Deny(errno))
    decreases |allowed| - i
  {
    var prog, n := Program(allowed, errno), |allowed|;
    if i < n {
      assert prog[4 + i] == Test(allowed, i);
      if allowed[i] != d.nr {
        ExecTests(allowed, errno, d, i + 1);
      } else if n - i <= 255 {
        assert prog[n + 5] == Stmt(RET, ALLOW);
      } else {
        assert n - (i + 1 + (n - i) % 0x100) == (n - i) / 0x100 * 0x100 - 1 >= 255;
        ExecTests(allowed, errno, d, i + 1 + (n - i) % 0x100);
      }
    } else {
      assert prog[4 + n] == Stmt(RET, Deny(errno));
    }
  }

  /** The meaning of the assembled filter, for a list of any length. */
  lemma FilterMeaning(allowed: seq<u32>, errno: u32, d: Data)
    ensures Filter(Program(allowed, errno), d) ==
            if d.arch != ARCH_X86_64 then Return(KILL_PROCESS)
            else if d.nr in Effective(allowed) then Return(ALLOW)
            else Return(Deny(errno))
  {
    var prog, n := Program(allowed, errno), |allowed|;
    assert prog[0] == Stmt(LOAD, ARCH_OFFSET) && prog[1] == Jump(JUMP_EQ, ARCH_X86_64, 1, 0);
    assert prog[2] == Stmt(RET, KILL_PROCESS) && prog[3] == Stmt(LOAD, NR_OFFSET);
    assert Filter(prog, d) == Exec(prog, d, 1, d.arch);
    if d.arch == ARCH_X86_64 {
      assert Exec(prog, d, 1, d.arch) == Exec(prog, d, 3, d.arch) == Exec(prog, d, 4, d.nr);
      ExecTests(allowed, errno, d, 0);
      if n > 255 && (exists j :: 0 <= j < n && n - 255 <= j && allowed[j] == d.nr) {
        var j :| 0 <= j < n && n - 255 <= j && allowed[j] == d.nr;
        assert Effective(allowed)[j - (n - 255)] == d.nr;
      }
    } else {
      assert Exec(prog, d, 1, d.arch) == Exec(prog, d, 2, d.arch);
    }
  }

  /** The filter is an allowlist for `allowed`: ALLOW for its members on x86-64, ERRNO for the rest. */
  ghost predicate Enforces(prog: seq<Insn>, allowed: seq<u32>, errno: u32) {
    forall d: Data :: Filter(prog, d) ==
      if d.arch != ARCH_X86_64 then Return(KILL_PROCESS) else if d.nr in allowed then Return(ALLOW) else Return(Deny(errno))
  }

  /** The assembled filter enforces its list exactly when every entry also stands among the last 255. */
  lemma EnforcesIff(allowed: seq<u32>, errno: u32)
    ensures Enforces(Program(allowed, errno), allowed, errno) <==> forall nr :: nr in allowed ==> nr in Effective(allowed)
  {
    hide Filter, Program;
    forall d: Data ensures Filter(Program(allowed, errno), d) ==
      if d.arch != ARCH_X86_64 then Return(KILL_PROCESS) else if d.nr in Effective(allowed) then Return(ALLOW) else Return(Deny(errno))
    {
      FilterMeaning(allowed, errno, d);
    }
    if Enforces(Program(allowed, errno), allowed, errno) {
      forall nr | nr in allowed ensures nr in Effective(allowed) {
        assert Filter(Program(allowed, errno), Data(nr, ARCH_X86_64)) == Return(ALLOW);
      }
    } else {
      var d: Data :| Filter(Program(allowed, errno), d) !=
        if d.arch != ARCH_X86_64 then Return(KILL_PROCESS) else if d.nr in allowed then Return(ALLOW) else Return(Deny(errno));
      assert d.nr in allowed && d.nr !in Effective(allowed);
    }
  }

  /** For lists without repetition, 255 entries is the exact limit of the 8-bit offset. */
  lemma LimitOfDistinctLists(allowed: seq<u32>, errno: u32)
    requires forall i, j :: 0 <= i < j < |allowed| ==> allowed[i] != allowed[j]
    ensures Enforces(Program(allowed, errno), allowed, errno) <==> |allowed| <= 255
  {
    hide Enforces, Program;
    EnforcesIff(allowed, errno);
    if |allowed| > 255 {
      assert allowed[0] in allowed && allowed[0] !in Effective(allowed);
    }
  }

  /** Every jump of the program, taken or not, goes forward to an instruction of the program. */
  lemma JumpsStayInside(allowed: seq<u32>, errno: u32, pc: nat)
    requires pc < |Program(allowed, errno)| && Program(allowed, errno)[pc].code == JUMP_EQ
    ensures var prog := Program(allowed, errno);
      pc < pc + 1 + prog[pc].jt < |prog| && pc < pc + 1 + prog[pc].jf < |prog|
  {
    var prog := Program(allowed, errno);
    if 4 <= pc < 4 + |allowed| {
      assert prog[pc] == Test(allowed, pc - 4);
    }
  }
}
