/** The part of a 32-bit x86 processor that the emitted instruction sequences use: eight general
    registers, six flags, a stack in memory and the Linux system call gate. */
module X86 {
  import opened Basics

  /** Register numbers follow the machine encoding. */
  type Reg = r: int | 0 <= r < 8

  const EAX: Reg := 0
  const ECX: Reg := 1
  const EDX: Reg := 2
  const EBX: Reg := 3
  const ESP: Reg := 4
  const EBP: Reg := 5
  const ESI: Reg := 6
  const EDI: Reg := 7

  type Regs = s: seq<Word> | |s| == 8 witness [0, 0, 0, 0, 0, 0, 0, 0]

  datatype Flags = Flags(cf: bool, pf: bool, af: bool, zf: bool, sf: bool, of: bool)

  /** `traps` records the registers at every `int 0x80`, oldest first. */
  datatype Machine = Machine(regs: Regs, flags: Flags, mem: map<Word, Word>, traps: seq<Regs>)

  /** What the program cannot decide: the kernel's answer, which may depend on every request made so
      far, what `cpuid` reports for a leaf and subleaf in eax, ecx, edx, ebx, and the flags an
      instruction leaves undefined. */
  datatype Env = Env(kernel: seq<Regs> -> Word, cpuid: (Word, Word) -> (Word, Word, Word, Word),
                     undefined: (Instr, Machine) -> Flags)

  datatype Instr =
    | Inc(r: Reg)
    | Dec(r: Reg)
    | Dec16(r: Reg)                       // dec on the low 16 bits
    | MovLow(r: Reg, imm: int)            // mov al, imm
    | MovHigh(r: Reg, imm: int)           // mov ah, imm
    | Mov16(r: Reg, imm: int)             // mov ax, imm
    | MovImm(r: Reg, imm: int)
    | MovReg(r: Reg, src: Reg)
    | MovFs(r: Reg)                       // the fs selector is 0 in a Linux process
    | XorSelf(r: Reg)
    | Lea(r: Reg, base: Reg, disp: int)
    | OrOnes(r: Reg)                      // or r, -1
    | AddImm(r: Reg, imm: int)
    | Push(imm: int)
    | Pop(r: Reg)
    | Bswap(r: Reg)
    | Ror1(r: Reg)
    | Shl(r: Reg, k: nat)
    | Xchg(r: Reg, s: Reg)
    | Mul(r: Reg)
    | Cdq
    | Das | Aas | Daa | Aaa
    | Lahf | Cpuid
    | Int80

  lemma {:induction false} Pow2Monotone(j: nat, k: nat)
    requires j < k
    ensures 2 * Pow2(j) <= Pow2(k)
    decreases k - j
  {
    if j + 1 < k {
      Pow2Monotone(j + 1, k);
    }
  }

  function SwapBytes(x: Word): Word {
    (x % 256) * 0x100_0000 + (x / 256 % 256) * 0x1_0000 + (x / 0x1_0000 % 256) * 256 + x / 0x100_0000
  }

  predicate EvenParity(b: int) {
    (b % 2 + b / 2 % 2 + b / 4 % 2 + b / 8 % 2 + b / 16 % 2 + b / 32 % 2 + b / 64 % 2 + b / 128 % 2) % 2 == 0
  }

  /** Sign, zero and parity as a 32-bit result sets them. */
  function ResultFlags(x: Word, cf: bool, af: bool, of: bool): Flags {
    Flags(cf, EvenParity(x % 256), af, x == 0, x >= 0x8000_0000, of)
  }

  /** Sign, zero and parity as an 8-bit result sets them. */
  function ByteFlags(b: int, cf: bool, af: bool, of: bool): Flags {
    Flags(cf, EvenParity(b), af, b == 0, b >= 128, of)
  }

  /** The flags as `lahf` stores them. */
  function FlagByte(f: Flags): int {
    (if f.sf then 128 else 0) + (if f.zf then 64 else 0) + (if f.af then 16 else 0) + (if f.pf then 4 else 0) + 2 +
    (if f.cf then 1 else 0)
  }

  function Load(mem: map<Word, Word>, a: Word): Word {
    if a in mem then mem[a] else 0
  }

  /** x with its low byte replaced by the low byte of b. */
  function WithLow(x: Word, b: int): Word {
    x - x % 256 + b % 256
  }

  function WithHigh(x: Word, b: int): Word {
    x - x / 256 % 256 * 256 + b % 256 * 256
  }

  function WithLow16(x: Word, w: int): Word {
    x - x % 0x1_0000 + w % 0x1_0000
  }

  /** `das` on al: the new al, carry and auxiliary carry. */
  function AdjustAfterSubtract(al: int, cf: bool, af: bool): (int, bool, bool) {
    var low := al % 16 > 9 || af;
    var high := al > 0x99 || cf;
    ((al - (if low then 6 else 0) - (if high then 0x60 else 0)) % 256, high || (low && al < 6), low)
  }

  /** `daa` on al: the new al, carry and auxiliary carry. */
  function AdjustAfterAdd(al: int, cf: bool, af: bool): (int, bool, bool) {
    var low := al % 16 > 9 || af;
    var high := al > 0x99 || cf;
    ((al + (if low then 6 else 0) + (if high then 0x60 else 0)) % 256, high, low)
  }

  /** `aaa` and `aas` on ax: the new ax and whether an adjustment took place. */
  function AsciiAdjust(ax: int, af: bool, step: int): (int, bool) {
    var adjust := ax % 16 > 9 || af;
    var ax' := if adjust then (ax + step) % 0x1_0000 else ax;
    (ax' - ax' % 256 + ax' % 16, adjust)
  }

  function RotateRight1(x: Word): Word {
    x / 2 + x % 2 * 0x8000_0000
  }

  /** Instructions that read and write a single register and nothing but flags besides. */
  predicate IsUnary(i: Instr, r: Reg) {
    match i
    case Inc(t) => t == r
    case Dec(t) => t == r
    case Dec16(t) => t == r
    case MovLow(t, _) => t == r
    case MovHigh(t, _) => t == r
    case Mov16(t, _) => t == r
    case MovImm(t, _) => t == r
    case MovFs(t) => t == r
    case XorSelf(t) => t == r
    case OrOnes(t) => t == r
    case AddImm(t, _) => t == r
    case Bswap(t) => t == r
    case Ror1(t) => t == r
    case Shl(t, _) => t == r
    case Lea(t, base, _) => t == r && base == r
    case _ => false
  }

  /** What such an instruction makes of the register's value. */
  function Unary(i: Instr, x: Word): Word {
    match i
    case Inc(_) => Wrap(x as int + 1)
    case Dec(_) => Wrap(x as int - 1)
    case Dec16(_) => WithLow16(x, x as int - 1)
    case MovLow(_, imm) => WithLow(x, imm)
    case MovHigh(_, imm) => WithHigh(x, imm)
    case Mov16(_, imm) => WithLow16(x, imm)
    case MovImm(_, imm) => Wrap(imm)
    case MovFs(_) => 0
    case XorSelf(_) => 0
    case OrOnes(_) => 0xFFFF_FFFF
    case AddImm(_, imm) => Wrap(x as int + imm)
    case Bswap(_) => SwapBytes(x)
    case Ror1(_) => RotateRight1(x)
    case Shl(_, k) => Wrap(x * Pow2(k))
    case Lea(_, _, disp) => Wrap(x as int + disp)
    case _ => x
  }

  /** The general registers after one instruction. */
  function RegsAfter(env: Env, i: Instr, m: Machine): Regs {
    var R := m.regs;
    match i
    case MovReg(r, src) => R[r := R[src]]
    case Lea(r, base, disp) => R[r := Wrap(R[base] as int + disp)]
    case Push(_) => R[ESP := Wrap(R[ESP] as int - 4)]
    case Pop(r) => R[ESP := Wrap(R[ESP] as int + 4)][r := Load(m.mem, R[ESP])]
    case Xchg(r, s) => R[r := R[s]][s := R[r]]
    case Mul(r) => R[EAX := Wrap(R[EAX] as int * R[r])][EDX := HighProduct(R[EAX], R[r])]
    case Cdq => R[EDX := if R[EAX] >= 0x8000_0000 then 0xFFFF_FFFF else 0]
    case Das => R[EAX := WithLow(R[EAX], AdjustAfterSubtract(R[EAX] % 256, m.flags.cf, m.flags.af).0)]
    case Daa => R[EAX := WithLow(R[EAX], AdjustAfterAdd(R[EAX] % 256, m.flags.cf, m.flags.af).0)]
    case Aas => R[EAX := WithLow16(R[EAX], AsciiAdjust(R[EAX] % 0x1_0000, m.flags.af, -0x106).0)]
    case Aaa => R[EAX := WithLow16(R[EAX], AsciiAdjust(R[EAX] % 0x1_0000, m.flags.af, 0x106).0)]
    case Lahf => R[EAX := WithHigh(R[EAX], FlagByte(m.flags))]
    case Cpuid =>
      var (a, c, d, b) := env.cpuid(R[EAX], R[ECX]);
      R[EAX := a][ECX := c][EDX := d][EBX := b]
    case Int80 => R[EAX := env.kernel(m.traps + [R])]
    case _ => R[i.r := Unary(i, R[i.r])]
  }

  /** The flags after one instruction whose registers become R'. */
  function FlagsAfter(env: Env, i: Instr, m: Machine, R': Regs): Flags {
    var u := env.undefined(i, m);
    var f := m.flags;
    var R := m.regs;
    match i
    case Inc(r) => ResultFlags(R'[r], f.cf, R[r] % 16 == 15, R[r] == 0x7FFF_FFFF)
    case Dec(r) => ResultFlags(R'[r], f.cf, R[r] % 16 == 0, R[r] == 0x8000_0000)
    case Dec16(r) =>
      var w := R'[r] % 0x1_0000;
      Flags(f.cf, EvenParity(w % 256), w % 16 == 15, w == 0, w >= 0x8000, w == 0x7FFF)
    case XorSelf(r) => ResultFlags(R'[r], false, u.af, false)
    case OrOnes(r) => ResultFlags(R'[r], false, u.af, false)
    case AddImm(r, imm) =>
      var y := Wrap(imm);
      ResultFlags(R'[r], R[r] + y >= TWO32, R[r] % 16 + y % 16 >= 16,
                  (R[r] < 0x8000_0000) == (y < 0x8000_0000) && (R[r] < 0x8000_0000) != (R'[r] < 0x8000_0000))
    case Ror1(r) => f.(cf := R'[r] >= 0x8000_0000, of := (R'[r] >= 0x8000_0000) != (R'[r] / 0x4000_0000 % 2 == 1))
    case Shl(r, k) => if k == 0 then f else ResultFlags(R'[r], R[r] * Pow2(k) / TWO32 % 2 == 1, u.af, u.of)
    case Mul(_) => u.(cf := R'[EDX] != 0, of := R'[EDX] != 0)
    case Das =>
      var (al, cf, af) := AdjustAfterSubtract(R[EAX] % 256, f.cf, f.af);
      ByteFlags(al, cf, af, u.of)
    case Daa =>
      var (al, cf, af) := AdjustAfterAdd(R[EAX] % 256, f.cf, f.af);
      ByteFlags(al, cf, af, u.of)
    case Aas => u.(cf := AsciiAdjust(R[EAX] % 0x1_0000, f.af, -0x106).1, af := AsciiAdjust(R[EAX] % 0x1_0000, f.af, -0x106).1)
    case Aaa => u.(cf := AsciiAdjust(R[EAX] % 0x1_0000, f.af, 0x106).1, af := AsciiAdjust(R[EAX] % 0x1_0000, f.af, 0x106).1)
    case _ => f
  }

  function Exec(env: Env, i: Instr, m: Machine): Machine {
    var R' := RegsAfter(env, i, m);
    Machine(R', FlagsAfter(env, i, m, R'),
            if i.Push? then m.mem[R'[ESP] := Wrap(i.imm)] else m.mem,
            if i.Int80? then m.traps + [m.regs] else m.traps)
  }

  /** The upper 32 bits of a 64-bit product. */
  function HighProduct(x: Word, y: Word): Word {
    Wrap(x * y / TWO32)
  }

  function Run(env: Env, code: seq<Instr>, m: Machine): Machine
    decreases |code|
  {
    if code == [] then m else Run(env, code[1..], Exec(env, code[0], m))
  }

  lemma {:induction false} RunAppend(env: Env, a: seq<Instr>, b: seq<Instr>, m: Machine)
    ensures Run(env, a + b, m) == Run(env, b, Run(env, a, m))
    decreases |a|
  {
    if a == [] {
      assert a + b == b;
    } else {
      assert (a + b)[1..] == a[1..] + b;
      RunAppend(env, a[1..], b, Exec(env, a[0], m));
    }
  }

  /** Encoded length in bytes, in a 32-bit segment. */
  function Size(i: Instr): nat {
    match i
    case Inc(_) | Dec(_) | Pop(_) | Cdq | Das | Aas | Daa | Aaa | Lahf => 1
    case Dec16(_) | MovLow(_, _) | MovHigh(_, _) | MovReg(_, _) | MovFs(_) | XorSelf(_) | Bswap(_) | Ror1(_)
       | Mul(_) | Cpuid | Int80 => 2
    case Push(imm) => if IsByte(imm) then 2 else 5
    case OrOnes(_) => 3
    case AddImm(_, imm) => if IsByte(imm) then 3 else 6
    case Mov16(_, _) => 4
    case MovImm(_, _) => 5
    case Lea(_, base, disp) =>
      2 + (if base == ESP then 1 else 0) +
      (if disp == 0 && base != EBP then 0 else if IsByte(disp) then 1 else 4)
    case Shl(_, k) => if k == 1 then 2 else 3
    case Xchg(r, s) => if r == EAX || s == EAX then 1 else 2
  }

  /** An immediate whose 32-bit value is the sign extension of one byte. */
  predicate IsByte(imm: int) {
    var x := Wrap(imm);
    x < 128 || x >= TWO32 - 128
  }

  function CodeSize(code: seq<Instr>): nat
    decreases |code|
  {
    if code == [] then 0 else Size(code[0]) + CodeSize(code[1..])
  }

  lemma {:induction false} CodeSizeAppend(a: seq<Instr>, b: seq<Instr>)
    ensures CodeSize(a + b) == CodeSize(a) + CodeSize(b)
    decreases |a|
  {
    if a == [] {
      assert a + b == b;
    } else {
      assert (a + b)[1..] == a[1..] + b;
      CodeSizeAppend(a[1..], b);
    }
  }

  function UnaryAll(code: seq<Instr>, x: Word): Word
    decreases |code|
  {
    if code == [] then x else UnaryAll(code[1..], Unary(code[0], x))
  }

  /** A sequence of unary instructions on r computes in r alone. */
  lemma {:induction false} RunUnary(env: Env, code: seq<Instr>, r: Reg, m: Machine)
    requires forall i :: 0 <= i < |code| ==> IsUnary(code[i], r)
    ensures var m' := Run(env, code, m);
      m'.regs == m.regs[r := UnaryAll(code, m.regs[r])] && m'.mem == m.mem && m'.traps == m.traps
    decreases |code|
  {
    if code != [] {
      ExecUnary(env, code[0], r, m);
      hide Exec, Unary, IsUnary;
      RunUnary(env, code[1..], r, Exec(env, code[0], m));
    }
  }

  lemma {:induction false} ExecUnary(env: Env, i: Instr, r: Reg, m: Machine)
    requires IsUnary(i, r)
    ensures var m' := Exec(env, i, m);
      m'.regs == m.regs[r := Unary(i, m.regs[r])] && m'.mem == m.mem && m'.traps == m.traps
  {
    hide FlagsAfter;
  }

  /** Instructions that leave every flag alone. */
  predicate KeepsFlags(i: Instr) {
    i.MovLow? || i.MovHigh? || i.Mov16? || i.MovImm? || i.MovReg? || i.MovFs? || i.Lea? || i.Push? || i.Pop? ||
    i.Bswap? || i.Xchg? || i.Cdq? || i.Lahf? || i.Cpuid? || i.Int80?
  }

  lemma {:induction false} RunKeepsFlags(env: Env, code: seq<Instr>, m: Machine)
    requires forall i :: 0 <= i < |code| ==> KeepsFlags(code[i])
    ensures Run(env, code, m).flags == m.flags
    decreases |code|
  {
    if code != [] {
      ExecKeepsFlags(env, code[0], m);
      hide Exec, KeepsFlags;
      RunKeepsFlags(env, code[1..], Exec(env, code[0], m));
    }
  }

  lemma {:induction false} ExecKeepsFlags(env: Env, i: Instr, m: Machine)
    requires KeepsFlags(i)
    ensures Exec(env, i, m).flags == m.flags
  {
    hide RegsAfter;
  }
}
