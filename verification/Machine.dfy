/** Moves between registers and frame slots, on x86-64. */
module Machine {

  type Byte = b: int | 0 <= b < 256 witness 0

  /** A 64-bit register, least significant byte first. */
  type Word = w: seq<Byte> | |w| == 8 witness [0, 0, 0, 0, 0, 0, 0, 0]

  const NUM_REGISTERS := 14

  type Reg = r: int | 0 <= r < NUM_REGISTERS

  const RAX: Reg := 0
  const RBX: Reg := 1
  const RCX: Reg := 2
  const RDX: Reg := 3
  const RSI: Reg := 4
  const RDI: Reg := 5
  const R8: Reg := 6
  const R9: Reg := 7
  const R10: Reg := 8
  const R11: Reg := 9
  const R12: Reg := 10
  const R13: Reg := 11
  const R14: Reg := 12
  const R15: Reg := 13

  /** The operand sizes that have a register name of exactly that width. */
  predicate PerfectSize(n: int) {
    n == 8 || n == 4 || n == 2 || n == 1
  }

  type Memory = int -> Byte

  const ZERO_WORD: Word := [0, 0, 0, 0, 0, 0, 0, 0]

  type RegisterFile = rs: seq<Word> | |rs| == NUM_REGISTERS witness seq<Word>(NUM_REGISTERS, _ => ZERO_WORD)

  /** Memory addresses are relative to rbp: the slot at `rbpOffset` starts at address -rbpOffset. */
  datatype Machine = Machine(regs: RegisterFile, mem: Memory)

  datatype Instr =
    | MovRegReg(dst: Reg, src: Reg)
    | Xchg(a: Reg, b: Reg)
    | MovRegMem(dst: Reg, size: int, offset: int)
    | MovMemReg(offset: int, size: int, src: Reg)
    | CallProc(name: string)

  /** What a called procedure does to the machine. */
  type Callee = (string, Machine) -> Machine

  function Read(mem: Memory, address: int, n: nat): (bytes: seq<Byte>)
    ensures |bytes| == n
    ensures forall i :: 0 <= i < n ==> bytes[i] == mem(address + i)
  {
    seq(n, i requires 0 <= i < n => mem(address + i))
  }

  function Write(mem: Memory, address: int, bytes: seq<Byte>): (mem': Memory)
    ensures forall a :: mem'(a) == if address <= a < address + |bytes| then bytes[a - address] else mem(a)
  {
    a => if address <= a < address + |bytes| then bytes[a - address] else mem(a)
  }

  /** A 4-byte load clears the upper half of the register; narrower loads keep the bytes above. */
  function LoadInto(before: Word, bytes: seq<Byte>): (w: Word)
    requires PerfectSize(|bytes|)
    ensures w[..|bytes|] == bytes
  {
    if |bytes| == 4 then bytes + [0, 0, 0, 0] else bytes + before[|bytes|..]
  }

  function Exec(callee: Callee, m: Machine, i: Instr): Machine {
    match i
    case MovRegReg(dst, src) => m.(regs := m.regs[dst := m.regs[src]])
    case Xchg(a, b) => m.(regs := m.regs[a := m.regs[b]][b := m.regs[a]])
    case MovRegMem(dst, size, offset) =>
      if PerfectSize(size)
      then m.(regs := m.regs[dst := LoadInto(m.regs[dst], Read(m.mem, -offset, size))])
      else m
    case MovMemReg(offset, size, src) =>
      if PerfectSize(size)
      then m.(mem := Write(m.mem, -offset, m.regs[src][..size]))
      else m
    case CallProc(name) => callee(name, m)
  }

  /** A load of 8 bytes fills the register and one of 4 clears the bytes above; loads of 2 and of 1 leave them.
      There are no others. */
  lemma LoadsByWidth(callee: Callee, m: Machine, dst: Reg, size: int, offset: int)
    ensures var m' := Exec(callee, m, MovRegMem(dst, size, offset));
      && m'.mem == m.mem && (forall r: Reg :: r != dst ==> m'.regs[r] == m.regs[r])
      && forall k | 0 <= k < 8 ::
          m'.regs[dst][k] ==
          if size !in {1, 2, 4, 8} then m.regs[dst][k]
          else if k < size then m.mem(k - offset)
          else if size == 4 then 0
          else m.regs[dst][k]
  {
  }

  /** A store writes as many bytes as it says, from the low end of the register, and no others. */
  lemma StoresByWidth(callee: Callee, m: Machine, src: Reg, size: int, offset: int)
    ensures var m' := Exec(callee, m, MovMemReg(offset, size, src));
      && m'.regs == m.regs
      && forall a :: m'.mem(a) == if size in {1, 2, 4, 8} && 0 <= a + offset < size then m.regs[src][a + offset]
          else m.mem(a)
  {
  }

  function Run(callee: Callee, m: Machine, code: seq<Instr>): Machine {
    if code == [] then m
    else Exec(callee, Run(callee, m, code[..|code| - 1]), code[|code| - 1])
  }

  lemma RunOne(callee: Callee, m: Machine, i: Instr)
    ensures Run(callee, m, [i]) == Exec(callee, m, i)
  {
    assert [i][..0] == [];
    assert Run(callee, m, [i][..0]) == m;
  }

  lemma {:induction false} RunAppend(callee: Callee, m: Machine, a: seq<Instr>, b: seq<Instr>)
    ensures Run(callee, m, a + b) == Run(callee, Run(callee, m, a), b)
    decreases |b|
  {
    if b == [] {
      assert a + b == a;
    } else {
      RunAppend(callee, m, a, b[..|b| - 1]);
      assert (a + b)[..|a + b| - 1] == a + b[..|b| - 1];
    }
  }
}
