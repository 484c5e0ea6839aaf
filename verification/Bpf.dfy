/** The instructions of a classic BPF program that seccomp filters are made of, with the check
    the kernel makes before it installs one. */
module Bpf {
  type Word = bv32

  /** `struct seccomp_data`. */
  datatype Data = Data(nr: Word, arch: Word, ip: bv64, args: seq<bv64>)

  predicate DataOk(d: Data) { |d.args| == 6 }

  datatype Test = Eq | Gt | Ge | Set

  /** BPF_LD+W+ABS, BPF_JMP+JA, BPF_JMP with a test of the accumulator against `k`, BPF_RET. */
  datatype Insn = Load(offset: nat) | Skip(n: nat) | Jump(test: Test, k: Word, jt: nat, jf: nat) | Ret(value: Word)

  function Low(x: bv64): Word { (x & 0xffff_ffff) as Word }

  function High(x: bv64): Word { (x >> 32) as Word }

  function Wide(x: bv64, high: bool): Word { if high then High(x) else Low(x) }

  /** The word at a byte offset, on a little-endian machine. */
  function WordAt(d: Data, offset: nat): Word
    requires DataOk(d) && offset % 4 == 0 && offset < 64
  {
    if offset == 0 then d.nr
    else if offset == 4 then d.arch
    else if offset < 16 then Wide(d.ip, offset == 12)
    else Wide(d.args[(offset - 16) / 8], (offset - 16) % 8 == 4)
  }

  function Holds(test: Test, a: Word, k: Word): bool {
    match test
    case Eq => a == k
    case Gt => a > k
    case Ge => a >= k
    case Set => a & k != 0
  }

  // ---------------------------------------------------------------- one step at a time

  /** `Stuck` is a jump out of the program or a load out of the data. */
  datatype State = Running(pc: nat, a: Word) | Returned(value: Word) | Stuck

  function Step(prog: seq<Insn>, d: Data, s: State): State
    requires DataOk(d)
  {
    match s
    case Returned(_) => s
    case Stuck => s
    case Running(pc, a) =>
      if pc >= |prog| then Stuck
      else
        match prog[pc]
        case Load(offset) =>
          if offset % 4 == 0 && offset < 64 then Running(pc + 1, WordAt(d, offset)) else Stuck
        case Skip(n) => Running(pc + 1 + n, a)
        case Jump(test, k, jt, jf) => Running(pc + 1 + if Holds(test, a, k) then jt else jf, a)
        case Ret(value) => Returned(value)
  }

  function Steps(prog: seq<Insn>, d: Data, s: State, n: nat): State
    requires DataOk(d)
    decreases n
  {
    if n == 0 then s else Steps(prog, d, Step(prog, d, s), n - 1)
  }

  /** The kernel's check: loads are aligned and inside the data, jumps stay in the program,
      and the last instruction is a return. */
  predicate InsnOk(prog: seq<Insn>, pc: nat)
    requires pc < |prog|
  {
    match prog[pc]
    case Load(offset) => offset % 4 == 0 && offset < 64
    case Skip(n) => pc + 1 + n < |prog|
    case Jump(_, _, jt, jf) => pc + 1 + jt < |prog| && pc + 1 + jf < |prog|
    case Ret(_) => true
  }

  predicate Checked(prog: seq<Insn>) {
    && 0 < |prog| <= 4096
    && prog[|prog|-1].Ret?
    && forall pc :: 0 <= pc < |prog| ==> InsnOk(prog, pc)
  }

  lemma {:induction false} ReturnedStays(prog: seq<Insn>, d: Data, value: Word, n: nat)
    requires DataOk(d)
    ensures Steps(prog, d, Returned(value), n) == Returned(value)
  {
    if n > 0 { ReturnedStays(prog, d, value, n - 1); }
  }

  /** Any checked program returns from any place within as many steps as there are
      instructions left, and with one of its own values. */
  lemma {:induction false} CheckedReturnsFrom(prog: seq<Insn>, d: Data, pc: nat, a: Word, n: nat)
    requires DataOk(d) && Checked(prog) && pc < |prog| && n >= |prog| - pc
    ensures var s := Steps(prog, d, Running(pc, a), n); s.Returned? && Ret(s.value) in prog
    decreases n
  {
    assert InsnOk(prog, pc);
    var s := Step(prog, d, Running(pc, a));
    match prog[pc]
    case Ret(value) => ReturnedStays(prog, d, value, n - 1);
    case _ => CheckedReturnsFrom(prog, d, s.pc, s.a, n - 1);
  }

  // ---------------------------------------------------------------- whole runs

  /** What a checked program returns. */
  function Exec(prog: seq<Insn>, d: Data, pc: nat, a: Word): Word
    requires DataOk(d) && Checked(prog) && pc < |prog|
    decreases |prog| - pc
  {
    assert InsnOk(prog, pc);
    match prog[pc]
    case Load(offset) => Exec(prog, d, pc + 1, WordAt(d, offset))
    case Skip(n) => Exec(prog, d, pc + 1 + n, a)
    case Jump(test, k, jt, jf) => Exec(prog, d, pc + 1 + if Holds(test, a, k) then jt else jf, a)
    case Ret(value) => value
  }

  lemma {:induction false} StepsExec(prog: seq<Insn>, d: Data, pc: nat, a: Word, n: nat)
    requires DataOk(d) && Checked(prog) && pc < |prog| && n >= |prog| - pc
    ensures Steps(prog, d, Running(pc, a), n) == Returned(Exec(prog, d, pc, a))
    decreases n
  {
    assert InsnOk(prog, pc);
    var s := Step(prog, d, Running(pc, a));
    match prog[pc]
    case Ret(value) => ReturnedStays(prog, d, value, n - 1);
    case _ => StepsExec(prog, d, s.pc, s.a, n - 1);
  }
}
