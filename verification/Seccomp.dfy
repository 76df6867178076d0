/** container_seccomp: the classic BPF program generated from a deny list, against an
    interpreter for the three instructions it uses. */
module Seccomp {
  import opened Machine

  // Instruction codes of <linux/filter.h>.
  const BPF_LD_W_ABS: nat := 0x20
  const BPF_JMP_JEQ_K: nat := 0x15
  const BPF_RET_K: nat := 0x06

  // Offsets in struct seccomp_data.
  const OFFSET_NR: u32 := 0
  const OFFSET_ARCH: u32 := 4

  const SECCOMP_RET_KILL_PROCESS: u32 := 0x8000_0000
  const SECCOMP_RET_ERRNO: u32 := 0x0005_0000
  const SECCOMP_RET_DATA: u32 := 0xffff
  const SECCOMP_RET_ALLOW: u32 := 0x7fff_0000
  const EPERM: u32 := 1

  /** SECCOMP_RET_ERRNO | (EPERM & SECCOMP_RET_DATA). */
  const DENY: u32 := SECCOMP_RET_ERRNO + EPERM

  /** struct sock_filter. */
  datatype Insn = Insn(code: nat, jt: nat, jf: nat, k: u32)

  function Stmt(code: nat, k: u32): Insn {
    Insn(code, 0, 0, k)
  }

  // ---- the machine -----------------------------------------------------------

  datatype Call = Call(arch: u32, nr: u32)

  function Load(c: Call, offset: u32): Option<u32> {
    if offset == OFFSET_NR then Some(c.nr) else if offset == OFFSET_ARCH then Some(c.arch) else None
  }

  /** The verdict of a program from pc on with accumulator a, or None if it runs off the
      end or meets an instruction the machine does not know. */
  function Exec(prog: seq<Insn>, pc: nat, a: u32, c: Call): Option<u32>
    decreases |prog| - pc
  {
    if pc >= |prog| then None
    else
      var i := prog[pc];
      if i.code == BPF_RET_K then Some(i.k)
      else if i.code == BPF_LD_W_ABS then
        match Load(c, i.k)
        case None => None
        case Some(v) => Exec(prog, pc + 1, v, c)
      else if i.code == BPF_JMP_JEQ_K then
        Exec(prog, pc + 1 + (if a == i.k then i.jt else i.jf), a, c)
      else None
  }

  function Verdict(prog: seq<Insn>, c: Call): Option<u32> {
    Exec(prog, 0, 0, c)
  }

  // ---- the generator -----------------------------------------------------------

  /** The filter's length for n denied calls: 4 + 2 * n + 1. */
  function Size(n: nat): nat {
    4 + 2 * n + 1
  }

  /** container_seccomp up to the installation of the program. */
  method BuildFilter(denied: seq<u32>, arch: u32) returns (filter: array<Insn>)
    ensures fresh(filter) && filter.Length == Size(|denied|)
    ensures WellJumped(filter[..])
    ensures forall c :: Verdict(filter[..], c) == Some(
              if c.arch != arch then SECCOMP_RET_KILL_PROCESS
              else if c.nr in denied then DENY
              else SECCOMP_RET_ALLOW)
  {
    filter := new Insn[Size(|denied|)](_ => Stmt(BPF_RET_K, 0));
    var i := 0;
    filter[i] := Stmt(BPF_LD_W_ABS, OFFSET_ARCH); i := i + 1;
    filter[i] := Insn(BPF_JMP_JEQ_K, 1, 0, arch); i := i + 1;
    filter[i] := Stmt(BPF_RET_K, SECCOMP_RET_KILL_PROCESS); i := i + 1;
    filter[i] := Stmt(BPF_LD_W_ABS, OFFSET_NR); i := i + 1;
    for j := 0 to |denied|
      invariant i == 4 + 2 * j
      invariant Prologue(filter[..], arch)
      invariant forall m :: 0 <= m < j ==> Entry(filter[..], m, denied[m])
    {
      filter[i] := Insn(BPF_JMP_JEQ_K, 0, 1, denied[j]); i := i + 1;
      filter[i] := Stmt(BPF_RET_K, DENY); i := i + 1;
    }
    filter[i] := Stmt(BPF_RET_K, SECCOMP_RET_ALLOW); i := i + 1;
    assert i == filter.Length;
    forall c {
      FilterMeaning(filter[..], denied, arch, c);
    }
    JumpsStay(filter[..], denied, arch);
  }

  ghost predicate Prologue(prog: seq<Insn>, arch: u32) {
    && |prog| >= 4
    && prog[0] == Stmt(BPF_LD_W_ABS, OFFSET_ARCH)
    && prog[1] == Insn(BPF_JMP_JEQ_K, 1, 0, arch)
    && prog[2] == Stmt(BPF_RET_K, SECCOMP_RET_KILL_PROCESS)
    && prog[3] == Stmt(BPF_LD_W_ABS, OFFSET_NR)
  }

  /** The two instructions of the m-th denied call. */
  ghost predicate Entry(prog: seq<Insn>, m: nat, nr: u32) {
    && 4 + 2 * m + 1 < |prog|
    && prog[4 + 2 * m] == Insn(BPF_JMP_JEQ_K, 0, 1, nr)
    && prog[4 + 2 * m + 1] == Stmt(BPF_RET_K, DENY)
  }

  ghost predicate Generated(prog: seq<Insn>, denied: seq<u32>, arch: u32) {
    && |prog| == Size(|denied|)
    && Prologue(prog, arch)
    && (forall m :: 0 <= m < |denied| ==> Entry(prog, m, denied[m]))
    && prog[|prog| - 1] == Stmt(BPF_RET_K, SECCOMP_RET_ALLOW)
  }

  /** Every jump goes forward to an instruction of the program, and no instruction but a
      return can be the last one executed. */
  ghost predicate WellJumped(prog: seq<Insn>) {
    forall pc :: 0 <= pc < |prog| ==>
      var i := prog[pc];
      && i.code in {BPF_LD_W_ABS, BPF_JMP_JEQ_K, BPF_RET_K}
      && (i.code == BPF_JMP_JEQ_K ==> pc + 1 + i.jt < |prog| && pc + 1 + i.jf < |prog|)
      && (i.code == BPF_LD_W_ABS ==> pc + 1 < |prog|)
  }

  lemma JumpsStay(prog: seq<Insn>, denied: seq<u32>, arch: u32)
    requires Generated(prog, denied, arch)
    ensures WellJumped(prog)
  {
    forall pc | 4 <= pc < |prog| - 1
      ensures prog[pc].code in {BPF_JMP_JEQ_K, BPF_RET_K}
      ensures prog[pc].code == BPF_JMP_JEQ_K ==> pc + 2 < |prog| && prog[pc].jt == 0 && prog[pc].jf == 1
    {
      var m := (pc - 4) / 2;
      assert Entry(prog, m, denied[m]);
      assert pc == 4 + 2 * m || pc == 4 + 2 * m + 1;
    }
  }

  /** From the j-th entry on, with the call number loaded. */
  lemma {:induction false} EntriesMeaning(prog: seq<Insn>, denied: seq<u32>, arch: u32, c: Call, j: nat)
    requires Generated(prog, denied, arch) && j <= |denied|
    ensures Exec(prog, 4 + 2 * j, c.nr, c) == Some(if c.nr in denied[j..] then DENY else SECCOMP_RET_ALLOW)
    decreases |denied| - j
  {
    if j < |denied| {
      assert Entry(prog, j, denied[j]);
      EntriesMeaning(prog, denied, arch, c, j + 1);
      assert denied[j..] == [denied[j]] + denied[j + 1..];
      assert Exec(prog, 4 + 2 * j + 1, c.nr, c) == Some(DENY);
    }
  }

  /** The generated program kills foreign calls, refuses the listed ones with EPERM and
      allows the rest, for a deny list of any length. */
  lemma FilterMeaning(prog: seq<Insn>, denied: seq<u32>, arch: u32, c: Call)
    requires Generated(prog, denied, arch)
    ensures Verdict(prog, c) == Some(
              if c.arch != arch then SECCOMP_RET_KILL_PROCESS
              else if c.nr in denied then DENY
              else SECCOMP_RET_ALLOW)
  {
    EntriesMeaning(prog, denied, arch, c, 0);
    assert denied[0..] == denied;
    assert Exec(prog, 3, c.arch, c) == Exec(prog, 4, c.nr, c);
    assert Exec(prog, 1, c.arch, c) == Exec(prog, if c.arch == arch then 3 else 2, c.arch, c);
  }
}
