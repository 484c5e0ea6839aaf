/** Three seccomp filters and the policies they implement. */
module Seccomp {
  import opened Bpf

  const AUDIT_ARCH_X86_64: Word := 0xC000_003E
  const AUDIT_ARCH_I386: Word := 0x4000_0003
  const X32_SYSCALL_BIT: Word := 0x4000_0000

  const NR_OPEN: Word := 2
  const NR_OPENAT: Word := 257
  const NR_LSEEK: Word := 8
  const NR_MQ_NOTIFY_X86_64: Word := 244
  const NR_MQ_NOTIFY_I386: Word := 281
  const NR_MQ_NOTIFY_X32: Word := 527

  const O_WRONLY: Word := 1
  const O_RDWR: Word := 2
  const O_CREAT: Word := 0x40
  const ENOTSUP: Word := 95

  const RET_KILL_PROCESS: Word := 0x8000_0000
  const RET_ERRNO: Word := 0x0005_0000
  const RET_ALLOW: Word := 0x7fff_0000

  const OFF_NR := 0
  const OFF_ARCH := 4

  function OffArg(i: nat): nat { 16 + 8 * i }

  // ---------------------------------------------------------------- seccomp_control_open.c

  function OpenFilter(): seq<Insn> {
    [ Load(OFF_ARCH),
      Jump(Eq, AUDIT_ARCH_X86_64, 0, 2),
      Load(OFF_NR),
      Jump(Ge, X32_SYSCALL_BIT, 0, 1),
      Ret(RET_KILL_PROCESS),
      Jump(Eq, NR_OPEN, 2, 0),
      Jump(Eq, NR_OPENAT, 3, 0),
      Ret(RET_ALLOW),
      Load(OffArg(1)),
      Skip(1),
      Load(OffArg(2)),
      Jump(Set, O_CREAT, 0, 1),
      Ret(RET_KILL_PROCESS),
      Jump(Set, O_WRONLY | O_RDWR, 0, 1),
      Ret(RET_ERRNO | ENOTSUP),
      Ret(RET_ALLOW) ]
  }

  /** A call by the native ABI of a 64-bit process. */
  predicate Native(d: Data) { d.arch == AUDIT_ARCH_X86_64 && d.nr < X32_SYSCALL_BIT }

  /** open() and openat() may not create and may only read. */
  function FlagsPolicy(flags: Word): Word {
    if flags & O_CREAT != 0 then RET_KILL_PROCESS
    else if flags & O_WRONLY != 0 || flags & O_RDWR != 0 then RET_ERRNO | ENOTSUP
    else RET_ALLOW
  }

  function OpenPolicy(d: Data): Word
    requires DataOk(d)
  {
    if !Native(d) then RET_KILL_PROCESS
    else if d.nr == NR_OPEN then FlagsPolicy(Low(d.args[1]))
    else if d.nr == NR_OPENAT then FlagsPolicy(Low(d.args[2]))
    else RET_ALLOW
  }

  lemma OpenChecked()
    ensures Checked(OpenFilter()) && |OpenFilter()| == 16
  {
    var p := OpenFilter();
    forall pc | 0 <= pc < |p| ensures InsnOk(p, pc) {
    }
  }

  lemma FlagsPart(d: Data, a: Word)
    requires DataOk(d) && Checked(OpenFilter())
    ensures Exec(OpenFilter(), d, 11, a) == FlagsPolicy(a)
  {
    var p := OpenFilter();
    assert Exec(p, d, 12, a) == RET_KILL_PROCESS;
    assert Exec(p, d, 14, a) == RET_ERRNO | ENOTSUP && Exec(p, d, 15, a) == RET_ALLOW;
    assert Exec(p, d, 13, a) == if a & (O_WRONLY | O_RDWR) != 0 then RET_ERRNO | ENOTSUP else RET_ALLOW;
  }

  lemma OpenLoads(d: Data, a: Word)
    requires DataOk(d) && Checked(OpenFilter())
    ensures Exec(OpenFilter(), d, 8, a) == FlagsPolicy(Low(d.args[1]))
    ensures Exec(OpenFilter(), d, 10, a) == FlagsPolicy(Low(d.args[2]))
  {
    var p := OpenFilter();
    FlagsPart(d, Low(d.args[1]));
    FlagsPart(d, Low(d.args[2]));
    assert Exec(p, d, 10, a) == Exec(p, d, 11, Low(d.args[2]));
    assert Exec(p, d, 9, Low(d.args[1])) == FlagsPolicy(Low(d.args[1]));
  }

  lemma OpenPart(d: Data)
    requires DataOk(d) && Checked(OpenFilter())
    ensures Exec(OpenFilter(), d, 5, d.nr)
            == if d.nr == NR_OPEN then FlagsPolicy(Low(d.args[1]))
               else if d.nr == NR_OPENAT then FlagsPolicy(Low(d.args[2])) else RET_ALLOW
  {
    var p := OpenFilter();
    OpenLoads(d, d.nr);
    assert Exec(p, d, 7, d.nr) == RET_ALLOW;
    assert Exec(p, d, 6, d.nr) == if d.nr == NR_OPENAT then FlagsPolicy(Low(d.args[2])) else RET_ALLOW;
  }

  /** The filter is its policy, for every system call with any arguments. */
  lemma OpenFilterIsPolicy(d: Data)
    requires DataOk(d)
    ensures Steps(OpenFilter(), d, Running(0, 0), 16) == Returned(OpenPolicy(d))
  {
    OpenChecked();
    OpenPart(d);
    OpenStart(d);
    StepsExec(OpenFilter(), d, 0, 0, 16);
  }

  lemma OpenStart(d: Data)
    requires DataOk(d) && Checked(OpenFilter())
    ensures Exec(OpenFilter(), d, 0, 0)
            == if Native(d) then Exec(OpenFilter(), d, 5, d.nr) else RET_KILL_PROCESS
  {
    var p := OpenFilter();
    assert Exec(p, d, 4, d.arch) == RET_KILL_PROCESS && Exec(p, d, 4, d.nr) == RET_KILL_PROCESS;
    assert Exec(p, d, 3, d.nr) == if d.nr >= X32_SYSCALL_BIT then RET_KILL_PROCESS else Exec(p, d, 5, d.nr);
    assert Exec(p, d, 2, d.arch) == Exec(p, d, 3, d.nr);
    assert Exec(p, d, 0, 0) == Exec(p, d, 1, d.arch);
  }

  /** The test for x32 is a comparison: it kills every call with bit 30 set, and of the
      others those with bit 31 set. */
  lemma ComparisonCoversX32(nr: Word)
    ensures nr >= X32_SYSCALL_BIT <==> nr & X32_SYSCALL_BIT != 0 || nr & 0x8000_0000 != 0
  {
  }

  // ---------------------------------------------------------------- seccomp_arg64.c

  function SeekFilter(): seq<Insn> {
    [ Load(OFF_ARCH),
      Jump(Eq, AUDIT_ARCH_X86_64, 0, 2),
      Load(OFF_NR),
      Jump(Ge, X32_SYSCALL_BIT, 0, 1),
      Ret(RET_KILL_PROCESS),
      Jump(Eq, NR_LSEEK, 1, 0),
      Ret(RET_ALLOW),
      Load(OffArg(1) + 4),
      Jump(Eq, 0, 1, 0),
      Ret(RET_ERRNO | 2),
      Load(OffArg(1)),
      Jump(Gt, 1000, 0, 1),
      Ret(RET_ERRNO | 1),
      Ret(RET_ALLOW) ]
  }

  /** lseek() is allowed up to an offset of 1000, as an unsigned 64-bit number. */
  function SeekPolicy(d: Data): Word
    requires DataOk(d)
  {
    if !Native(d) then RET_KILL_PROCESS
    else if d.nr != NR_LSEEK then RET_ALLOW
    else if d.args[1] <= 1000 then RET_ALLOW
    else if d.args[1] <= 0xffff_ffff then RET_ERRNO | 1
    else RET_ERRNO | 2
  }

  lemma SeekChecked()
    ensures Checked(SeekFilter()) && |SeekFilter()| == 14
  {
    var p := SeekFilter();
    forall pc | 0 <= pc < |p| ensures InsnOk(p, pc) {
    }
  }

  /** Comparing the halves compares the number. */
  lemma Halves(x: bv64)
    ensures High(x) == 0 <==> x <= 0xffff_ffff
    ensures High(x) == 0 ==> (Low(x) > 1000 <==> x > 1000)
  {
  }

  lemma SeekLow(d: Data, lo: Word)
    requires DataOk(d) && Checked(SeekFilter())
    ensures Exec(SeekFilter(), d, 11, lo) == if lo > 1000 then RET_ERRNO | 1 else RET_ALLOW
  {
    var p := SeekFilter();
    assert Exec(p, d, 12, lo) == RET_ERRNO | 1 && Exec(p, d, 13, lo) == RET_ALLOW;
  }

  lemma SeekHigh(d: Data, hi: Word)
    requires DataOk(d) && Checked(SeekFilter())
    ensures Exec(SeekFilter(), d, 8, hi)
            == if hi == 0 then Exec(SeekFilter(), d, 10, hi) else RET_ERRNO | 2
  {
    assert Exec(SeekFilter(), d, 9, hi) == RET_ERRNO | 2;
  }

  lemma SeekPart(d: Data)
    requires DataOk(d) && Checked(SeekFilter())
    ensures Exec(SeekFilter(), d, 7, d.nr)
            == if High(d.args[1]) != 0 then RET_ERRNO | 2
               else if Low(d.args[1]) > 1000 then RET_ERRNO | 1 else RET_ALLOW
  {
    var p, hi := SeekFilter(), High(d.args[1]);
    SeekLow(d, Low(d.args[1]));
    SeekHigh(d, hi);
    assert Exec(p, d, 10, hi) == Exec(p, d, 11, Low(d.args[1]));
  }

  lemma SeekCall(d: Data)
    requires DataOk(d) && Checked(SeekFilter())
    ensures Exec(SeekFilter(), d, 5, d.nr)
            == if d.nr == NR_LSEEK then Exec(SeekFilter(), d, 7, d.nr) else RET_ALLOW
  {
    assert Exec(SeekFilter(), d, 6, d.nr) == RET_ALLOW;
  }

  lemma SeekStart(d: Data)
    requires DataOk(d) && Checked(SeekFilter())
    ensures Exec(SeekFilter(), d, 0, 0)
            == if Native(d) then Exec(SeekFilter(), d, 5, d.nr) else RET_KILL_PROCESS
  {
    var p := SeekFilter();
    assert Exec(p, d, 4, d.arch) == RET_KILL_PROCESS && Exec(p, d, 4, d.nr) == RET_KILL_PROCESS;
    assert Exec(p, d, 3, d.nr) == if d.nr >= X32_SYSCALL_BIT then RET_KILL_PROCESS else Exec(p, d, 5, d.nr);
    assert Exec(p, d, 2, d.arch) == Exec(p, d, 3, d.nr);
    assert Exec(p, d, 0, 0) == Exec(p, d, 1, d.arch);
  }

  lemma SeekFilterIsPolicy(d: Data)
    requires DataOk(d)
    ensures Steps(SeekFilter(), d, Running(0, 0), 14) == Returned(SeekPolicy(d))
  {
    var p := SeekFilter();
    SeekChecked();
    SeekStart(d);
    SeekCall(d);
    SeekPart(d);
    Halves(d.args[1]);
    StepsExec(p, d, 0, 0, 14);
  }

  // ---------------------------------------------------------------- seccomp_multiarch.c

  function NotifyFilter(): seq<Insn> {
    [ Load(OFF_ARCH),
      Jump(Eq, AUDIT_ARCH_X86_64, 0, 5),
      Load(OFF_NR),
      Jump(Eq, NR_MQ_NOTIFY_X86_64, 0, 1),
      Ret(RET_ERRNO | NR_MQ_NOTIFY_X86_64),
      Jump(Eq, NR_MQ_NOTIFY_X32 + X32_SYSCALL_BIT, 0, 5),
      Ret(RET_ERRNO | NR_MQ_NOTIFY_X32),
      Jump(Eq, AUDIT_ARCH_I386, 0, 4),
      Load(OFF_NR),
      Jump(Eq, NR_MQ_NOTIFY_I386, 0, 1),
      Ret(RET_ERRNO | NR_MQ_NOTIFY_I386),
      Ret(RET_ALLOW),
      Ret(RET_KILL_PROCESS) ]
  }

  datatype Abi = X86_64 | X32 | I386 | Unknown

  function AbiOf(d: Data): Abi {
    if d.arch == AUDIT_ARCH_X86_64 then (if d.nr & X32_SYSCALL_BIT != 0 then X32 else X86_64)
    else if d.arch == AUDIT_ARCH_I386 then I386 else Unknown
  }

  function NotifyNumber(abi: Abi): Word
    requires abi != Unknown
  {
    match abi
    case X86_64 => NR_MQ_NOTIFY_X86_64
    case X32 => NR_MQ_NOTIFY_X32
    case I386 => NR_MQ_NOTIFY_I386
  }

  /** The number of the call within its ABI. */
  function CallNumber(d: Data): Word {
    if AbiOf(d) == X32 then d.nr & !X32_SYSCALL_BIT else d.nr
  }

  /** mq_notify() fails with its number in the ABI of the caller; everything else is allowed,
      but not in an unknown ABI. */
  function NotifyPolicy(d: Data): Word {
    var abi := AbiOf(d);
    if abi == Unknown then RET_KILL_PROCESS
    else if CallNumber(d) == NotifyNumber(abi) then RET_ERRNO | NotifyNumber(abi)
    else RET_ALLOW
  }

  lemma NotifyChecked()
    ensures Checked(NotifyFilter()) && |NotifyFilter()| == 13
  {
    var p := NotifyFilter();
    forall pc | 0 <= pc < |p| ensures InsnOk(p, pc) {
    }
  }

  lemma X32Number(nr: Word)
    ensures nr == NR_MQ_NOTIFY_X32 + X32_SYSCALL_BIT <==>
              nr & X32_SYSCALL_BIT != 0 && nr & !X32_SYSCALL_BIT == NR_MQ_NOTIFY_X32
    ensures nr == NR_MQ_NOTIFY_X86_64 ==> nr & X32_SYSCALL_BIT == 0
  {
  }

  lemma NotifyI386(d: Data)
    requires DataOk(d) && Checked(NotifyFilter())
    ensures Exec(NotifyFilter(), d, 7, d.arch)
            == if d.arch != AUDIT_ARCH_I386 then RET_KILL_PROCESS
               else if d.nr == NR_MQ_NOTIFY_I386 then RET_ERRNO | NR_MQ_NOTIFY_I386 else RET_ALLOW
  {
    var p := NotifyFilter();
    assert Exec(p, d, 12, d.arch) == RET_KILL_PROCESS && Exec(p, d, 11, d.nr) == RET_ALLOW;
    assert Exec(p, d, 10, d.nr) == RET_ERRNO | NR_MQ_NOTIFY_I386;
    assert Exec(p, d, 8, d.arch) == Exec(p, d, 9, d.nr);
  }

  lemma NotifyX86(d: Data)
    requires DataOk(d) && Checked(NotifyFilter())
    ensures Exec(NotifyFilter(), d, 2, d.arch)
            == if d.nr == NR_MQ_NOTIFY_X86_64 then RET_ERRNO | NR_MQ_NOTIFY_X86_64
               else if d.nr == NR_MQ_NOTIFY_X32 + X32_SYSCALL_BIT then RET_ERRNO | NR_MQ_NOTIFY_X32 else RET_ALLOW
  {
    var p := NotifyFilter();
    assert Exec(p, d, 11, d.nr) == RET_ALLOW && Exec(p, d, 6, d.nr) == RET_ERRNO | NR_MQ_NOTIFY_X32;
    assert Exec(p, d, 4, d.nr) == RET_ERRNO | NR_MQ_NOTIFY_X86_64;
    assert Exec(p, d, 5, d.nr)
        == if d.nr == NR_MQ_NOTIFY_X32 + X32_SYSCALL_BIT then RET_ERRNO | NR_MQ_NOTIFY_X32 else RET_ALLOW;
    assert Exec(p, d, 2, d.arch) == Exec(p, d, 3, d.nr);
  }

  lemma NotifyFilterIsPolicy(d: Data)
    requires DataOk(d)
    ensures Steps(NotifyFilter(), d, Running(0, 0), 13) == Returned(NotifyPolicy(d))
  {
    NotifyChecked();
    X32Number(d.nr);
    NotifyI386(d);
    NotifyX86(d);
    assert Exec(NotifyFilter(), d, 1, d.arch) == NotifyPolicy(d);
    StepsExec(NotifyFilter(), d, 0, 0, 13);
  }
}
