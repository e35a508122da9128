/** The instruction selector behind the `set` macro: from what the assembler has recorded about each
    register it chooses a short sequence that loads a constant. */
module Selector {
  import opened Basics
  import opened X86

  /** `reg_keepflags`, `reg_stack`, `zero_seg` and `REG_SEARCH`. */
  datatype Config = Config(keepFlags: bool, stack: bool, zeroSeg: bool, search: bool)

  /** A number the programmer may write for a 32-bit register, signed or unsigned. */
  type Literal = n: int | -0x8000_0000 <= n < TWO32

  /** What the assembler records about a register: the number it holds, or -1 nothing, -2 fits 8 bits,
      -3 fits 16 bits, -4 not negative. A negative number -k is recorded as 2^32 + k. */
  type Record = v: int | -4 <= v < TWO32 || TWO32 < v <= TWO32 + 0x8000_0000 witness 0

  type Records = s: seq<Record> | |s| == 8 witness [0, 0, 0, 0, 0, 0, 0, 0]

  predicate Describes(v: Record, x: Word) {
    if v > TWO32 then x == 2 * TWO32 - v
    else if v >= 0 then x == v
    else if v == -2 then x < 0x100
    else if v == -3 then x < 0x1_0000
    else if v == -4 then x < 0x8000_0000
    else true
  }

  ghost predicate Agrees(abs: Records, regs: Regs) {
    forall r: Reg :: Describes(abs[r], regs[r])
  }

  // ----- what rget derives from a record -----

  predicate Defined(v: Record) {
    v > -1
  }

  predicate Fits8(v: Record) {
    v == -2 || (Defined(v) && v < 256)
  }

  predicate Fits16(v: Record) {
    v == -3 || Fits8(v) || (Defined(v) && v < 65536)
  }

  predicate NotNegative(v: Record) {
    v == -4 || Fits8(v) || Fits16(v) || (Defined(v) && v < 0x8000_0000)
  }

  lemma {:induction false} DerivedFactsSound(v: Record, x: Word)
    requires Describes(v, x)
    ensures Fits8(v) ==> x < 256
    ensures Fits16(v) ==> x < 65536
    ensures NotNegative(v) ==> x < 0x8000_0000
  {
  }

  // ----- assembler arithmetic: 64-bit, `/` and `%` unsigned -----

  const TWO64 := 0x1_0000_0000_0000_0000

  function UDiv(a: int, d: int): int
    requires d > 0
  {
    a % TWO64 / d
  }

  function UMod(a: int, d: int): int
    requires d > 0
  {
    a % TWO64 % d
  }

  /** `uint32` as the `int32` macro computes it. */
  function UInt32(n: Literal): (u: Record)
    ensures u >= 0
  {
    if n < 0 then TWO32 - n else UMod(n, 0xFFFF_FFFF)
  }

  /** `sint32` as the `int32` macro computes it. */
  function SInt32(n: Literal): int {
    if n > 0x7FFF_FFFF then -UMod(0 - n, 0xFFFF_FFFF) else n
  }

  /** The remainder trick used for two's complement: modulo 2^k - 1 an unsigned negation of m
      lands on 2^k - m. */
  lemma {:induction false} NegationRemainder(m: int, k: int)
    requires k == 0x100 || k == TWO32
    requires 2 <= m <= k - 1
    ensures UMod(0 - m, k - 1) == k - m
  {
    assert (-m) % TWO64 == TWO64 - m;
    if k == TWO32 {
      assert TWO64 - m == (k - 1) * TWO32 + (k - m);
    } else {
      assert TWO64 - m == (k - 1) * ((TWO64 - 256) / 255) + (k - m);
    }
  }

  /** `sint32` is the value of the register read as a signed number, for every literal. */
  lemma {:induction false} SInt32Value(n: Literal)
    ensures SInt32(n) == if n >= 0x8000_0000 then n - TWO32 else n
    ensures Wrap(SInt32(n)) == Wrap(n)
  {
    if n > 0x7FFF_FFFF {
      NegationRemainder(n, TWO32);
    }
  }

  /** The record that `set` leaves describes the requested value, except for one literal. */
  lemma {:induction false} UInt32Describes(n: Literal)
    ensures Describes(UInt32(n), Wrap(n)) <==> n != 0xFFFF_FFFF
    ensures 0 <= n < 0xFFFF_FFFF ==> UInt32(n) == n
    ensures n == 0xFFFF_FFFF ==> UInt32(n) == 0
  {
  }

  function Log2Floor(x: nat): nat {
    if x <= 1 then 0 else 1 + Log2Floor(x / 2)
  }

  function Log2Ceil(x: nat): nat {
    if x <= 1 then 0 else 1 + Log2Floor(x - 1)
  }

  lemma {:induction false} Log2FloorBounds(x: nat)
    requires x >= 1
    ensures Pow2(Log2Floor(x)) <= x < 2 * Pow2(Log2Floor(x))
  {
    if x > 1 {
      Log2FloorBounds(x / 2);
    }
  }

  /** What the test `ilog2f(x) == ilog2c(x)` detects. */
  lemma {:induction false} PowerOfTwoTest(x: nat)
    requires x >= 1 && Log2Floor(x) == Log2Ceil(x)
    ensures x == Pow2(Log2Floor(x))
  {
    Log2FloorBounds(x);
    if x > 1 {
      Log2FloorBounds(x - 1);
      DoublePow2(Log2Floor(x - 1));
    } else {
      assert Log2Floor(x) == 0;
    }
  }

  lemma {:induction false} DoublePow2(k: nat)
    ensures Pow2(1 + k) == 2 * Pow2(k)
  {
  }

  // ----- register searches -----

  const SEARCH_ORDER: seq<Reg> := [EAX, EBX, ECX, EDX, ESI, EDI, EBP, ESP]
  const ZERO_ORDER: seq<Reg> := [EAX, EBX, ECX, EDX, ESP, EBP, ESI, EDI]

  /** Among the first k registers searched, the last one recorded as v. */
  function LastMatch(abs: Records, v: int, k: nat): (m: Option<Reg>)
    requires k <= 8
    ensures m.Some? ==> abs[m.value] == v
    ensures m.Some? ==>
      exists i :: 0 <= i < k && SEARCH_ORDER[i] == m.value && forall j :: i < j < k ==> abs[SEARCH_ORDER[j]] != v
    ensures m.None? ==> forall i :: 0 <= i < k ==> abs[SEARCH_ORDER[i]] != v
  {
    if k == 0 then None
    else if abs[SEARCH_ORDER[k - 1]] == v then Some(SEARCH_ORDER[k - 1])
    else LastMatch(abs, v, k - 1)
  }

  /** The first register recorded as zero, from position k on. */
  function FirstZero(abs: Records, k: nat): (m: Option<Reg>)
    requires k <= 8
    ensures m.Some? ==> abs[m.value] == 0
    ensures m.Some? ==>
      exists i :: k <= i < 8 && ZERO_ORDER[i] == m.value && forall j :: k <= j < i ==> abs[ZERO_ORDER[j]] != 0
    ensures m.None? ==> forall i :: k <= i < 8 ==> abs[ZERO_ORDER[i]] != 0
    decreases 8 - k
  {
    if k == 8 then None
    else if abs[ZERO_ORDER[k]] == 0 then Some(ZERO_ORDER[k])
    else FirstZero(abs, k + 1)
  }

  /** `reg_search` prefers esp, then ebp and so on down to eax. */
  lemma {:induction false} SearchPrefers(abs: Records, v: int)
    ensures LastMatch(abs, v, 8) ==
            if abs[ESP] == v then Some(ESP) else if abs[EBP] == v then Some(EBP)
            else if abs[EDI] == v then Some(EDI) else if abs[ESI] == v then Some(ESI)
            else if abs[EDX] == v then Some(EDX) else if abs[ECX] == v then Some(ECX)
            else if abs[EBX] == v then Some(EBX) else if abs[EAX] == v then Some(EAX) else None
  {
    assert SEARCH_ORDER[7] == ESP && SEARCH_ORDER[6] == EBP && SEARCH_ORDER[5] == EDI && SEARCH_ORDER[4] == ESI;
    assert SEARCH_ORDER[3] == EDX && SEARCH_ORDER[2] == ECX && SEARCH_ORDER[1] == EBX && SEARCH_ORDER[0] == EAX;
    var m := LastMatch(abs, v, 8);
    hide LastMatch;
  }

  /** `findzero` prefers eax, then ebx, ecx, edx, esp, ebp, esi, edi. */
  lemma {:induction false} ZeroPrefers(abs: Records)
    ensures FirstZero(abs, 0) ==
            if abs[EAX] == 0 then Some(EAX) else if abs[EBX] == 0 then Some(EBX)
            else if abs[ECX] == 0 then Some(ECX) else if abs[EDX] == 0 then Some(EDX)
            else if abs[ESP] == 0 then Some(ESP) else if abs[EBP] == 0 then Some(EBP)
            else if abs[ESI] == 0 then Some(ESI) else if abs[EDI] == 0 then Some(EDI) else None
  {
    assert ZERO_ORDER[0] == EAX && ZERO_ORDER[1] == EBX && ZERO_ORDER[2] == ECX && ZERO_ORDER[3] == EDX;
    assert ZERO_ORDER[4] == ESP && ZERO_ORDER[5] == EBP && ZERO_ORDER[6] == ESI && ZERO_ORDER[7] == EDI;
    var m := FirstZero(abs, 0);
    hide FirstZero;
  }

  // ----- selection -----

  /** The chosen instructions and the bytes counted as saved. */
  datatype Choice = Choice(code: seq<Instr>, saved: nat)

  /** Registers eax, ecx, edx and ebx have names for their low two bytes. */
  predicate HasParts(r: Reg) {
    r < 4
  }

  function ZeroCode(cfg: Config, abs: Records, r: Reg): seq<Instr> {
    if abs[r] == 0 then []
    else if r == EDX && NotNegative(abs[EAX]) then [Cdq]
    else if cfg.zeroSeg || cfg.keepFlags then [MovFs(r)]
    else [XorSelf(r)]
  }

  /** `setfz`: the register is known to hold zero and v is what is recorded about it. */
  function SelectFromZero(cfg: Config, v: Record, r: Reg, n: Literal): Choice {
    FromZeroRules(cfg, v, r, n, UInt32(n), SInt32(n))
  }

  /** The rule chain of `setfz`; u and s are `uint32` and `sint32`. First what takes up to two bytes. */
  function FromZeroRules(cfg: Config, v: Record, r: Reg, n: Literal, u: Record, s: int): Choice
    requires u >= 0
  {
    if v == u then Choice([], 0)
    else if n == 0 then Choice([], 5)
    else if n == 1 && !cfg.keepFlags then Choice([Inc(r)], 4)
    else if s == -1 && !cfg.keepFlags then Choice([Dec(r)], 4)
    else if HasParts(r) && u < 256 then Choice([MovLow(r, n)], 3)
    else if HasParts(r) && u % 256 == 0 && 256 <= u < 65536 then Choice([MovHigh(r, UDiv(n, 256))], 3)
    else if u == 0xFFFF && !cfg.keepFlags then Choice([Dec16(r)], 3)
    else FromZeroThree(cfg, r, n, u, s)
  }

  /** The rules of `setfz` that take three bytes. */
  function FromZeroThree(cfg: Config, r: Reg, n: Literal, u: Record, s: int): Choice
    requires u >= 0
  {
    if r != ESP && -129 < s < 128 then Choice([Lea(r, r, n)], 2)
    else if HasParts(r) && -256 <= s < 0 && !cfg.keepFlags then Choice([Dec(r), MovLow(r, n % 256)], 2)
    else if -129 < s < 128 && cfg.stack then Choice([Push(n), Pop(r)], 2)
    else if -129 < s < 128 && !cfg.keepFlags then Choice([AddImm(r, n)], 2)
    else if u == 0x1_0000 && !cfg.keepFlags then Choice([Dec16(r), Inc(r)], 1)
    else if u == 0x100_0000 && !cfg.keepFlags then Choice([Inc(r), Bswap(r)], 1)
    else if u == 0x8000_0000 && !cfg.keepFlags then Choice([Inc(r), Ror1(r)], 2)
    else FromZeroLong(cfg, r, n, u, s)
  }

  /** The rules of `setfz` that take four bytes, and the plain move. */
  function FromZeroLong(cfg: Config, r: Reg, n: Literal, u: Record, s: int): Choice
    requires u >= 0
  {
    if u < 65536 then Choice([Mov16(r, n)], 1)
    else if r == ESP && -129 < s < 128 then Choice([Lea(r, r, n)], 1)
    else if HasParts(r) && u % 0x100_0000 == 0 then Choice([MovLow(r, UDiv(n, 0x100_0000)), Bswap(r)], 1)
    else if HasParts(r) && u % 0x1_0000 == 0 && u <= 0xFF_0000 then
      Choice([MovHigh(r, UDiv(n, 0x1_0000)), Bswap(r)], 1)
    else if Log2Floor(u) == Log2Ceil(u) && !cfg.keepFlags then Choice([Inc(r), Shl(r, Log2Floor(u))], 1)
    else if u == 0xFFFF_0000 && !cfg.keepFlags then Choice([Dec16(r), Bswap(r)], 1)
    else Choice([MovImm(r, n)], 0)
  }

  /** `set` with a number: the first applicable rule of `__set_num`. */
  function Select(cfg: Config, abs: Records, r: Reg, n: Literal): Choice {
    SetRules(cfg, abs, r, n, UInt32(n), SInt32(n))
  }

  /** The rule chain of `__set_num`; u and s are `uint32` and `sint32`. First the rules that use a
      recorded value of some register. */
  function SetRules(cfg: Config, abs: Records, r: Reg, n: Literal, u: Record, s: int): Choice
    requires u >= 0
  {
    var v := abs[r];
    var same := if cfg.search then LastMatch(abs, u, 8) else None;
    var zero := if cfg.search then LastMatch(abs, 0, 8) else None;
    if v == u then Choice([], 0)
    else if v == 0 then FromZeroRules(cfg, v, r, n, u, s)
    else if Defined(v) && u as int - v == 1 && !cfg.keepFlags then Choice([Inc(r)], 0)
    else if Defined(v) && u as int - v == -1 && !cfg.keepFlags then Choice([Dec(r)], 0)
    else if same.Some? then Choice([CopyOf(r, same.value)], 3)
    else if n == 0 then Choice(ZeroCode(cfg, abs, r), 3)
    else if HasParts(r) && Fits8(v) && u < 256 then Choice([MovLow(r, n)], 0)
    else if zero.Some? && r != ESP && -129 < s < 128 then Choice([Lea(r, zero.value, n)], 2)
    else SetFresh(cfg, abs, r, n, u, s)
  }

  /** A register copy; lea cannot encode a bare esp or ebp in two bytes. */
  function CopyOf(r: Reg, src: Reg): Instr {
    if src != ESP && src != EBP then Lea(r, src, 0) else MovReg(r, src)
  }

  /** The remaining rules of `__set_num`; most of them first clear the register. */
  function SetFresh(cfg: Config, abs: Records, r: Reg, n: Literal, u: Record, s: int): Choice
    requires u >= 0
  {
    var clear := ZeroCode(cfg, abs, r);
    if n == 1 && !cfg.keepFlags then Choice(clear + [Inc(r)], 2)
    else if s == -1 && !cfg.keepFlags then Choice([OrOnes(r)], 2)
    else if -129 < s < 128 && cfg.stack then Choice([Push(n), Pop(r)], 2)
    else if HasParts(r) && u < 256 then Choice(clear + [MovLow(r, n)], 1)
    else if HasParts(r) && u % 256 == 0 && 256 <= u < 65536 then Choice(clear + [MovHigh(r, UDiv(n, 256))], 1)
    else if u == 0xFFFF && !cfg.keepFlags then Choice(clear + [Dec16(r)], 1)
    else SetLong(cfg, abs, r, n, u, s)
  }

  /** The last rules of `__set_num`: four constants an adjustment of eax produces, and the plain moves. */
  function SetLong(cfg: Config, abs: Records, r: Reg, n: Literal, u: Record, s: int): Choice
    requires u >= 0
  {
    var clear := ZeroCode(cfg, abs, r);
    if r == EAX && s == -103 && !cfg.keepFlags then Choice(clear + [Dec(r), Das], 1)
    else if r == EAX && s == -503 && !cfg.keepFlags then Choice(clear + [Dec(r), Aas], 1)
    else if r == EAX && s == -155 && !cfg.keepFlags then Choice(clear + [Dec(r), Daa], 1)
    else if r == EAX && s == -65275 && !cfg.keepFlags then Choice(clear + [Dec(r), Aaa], 1)
    else if Fits16(abs[r]) && u < 65536 then Choice([Mov16(r, n)], 1)
    else Choice([MovImm(r, n)], 0)
  }

  // ----- soundness -----

  /** From m the machine reached m' by loading n into r: every other register, the trap log and all
      memory but the free cell below the stack are unchanged. */
  ghost predicate Loads(r: Reg, n: int, m: Machine, m': Machine) {
    && m'.regs == m.regs[r := Wrap(n)]
    && m'.traps == m.traps
    && forall a: Word :: a != Wrap(m.regs[ESP] as int - 4) ==> Load(m'.mem, a) == Load(m.mem, a)
  }

  lemma {:induction false} Run1(env: Env, a: Instr, m: Machine)
    ensures Run(env, [a], m) == Exec(env, a, m)
  {
    assert [a][1..] == [];
  }

  lemma {:induction false} Run2(env: Env, a: Instr, b: Instr, m: Machine)
    ensures Run(env, [a, b], m) == Exec(env, b, Exec(env, a, m))
  {
    assert [a, b][1..] == [b];
    Run1(env, b, Exec(env, a, m));
  }

  lemma {:induction false} PushPop(env: Env, r: Reg, n: int, m: Machine)
    ensures Loads(r, n, m, Run(env, [Push(n), Pop(r)], m))
  {
    Run2(env, Push(n), Pop(r), m);
  }

  lemma {:induction false} SwapFromZero(r: Reg, imm: int)
    ensures Unary(Bswap(r), Unary(MovLow(r, imm), 0)) == imm % 256 * 0x100_0000
    ensures Unary(Bswap(r), Unary(MovHigh(r, imm), 0)) == imm % 256 * 0x1_0000
    ensures Unary(Bswap(r), Unary(Dec16(r), 0)) == 0xFFFF_0000
    ensures Unary(Bswap(r), Unary(Inc(r), 0)) == 0x100_0000
  {
    var k: Word := imm % 256;
    assert k % 256 == k && k / 256 == 0 && k / 0x1_0000 == 0 && k / 0x100_0000 == 0;
    var w: Word := k * 256;
    assert w % 256 == 0 && w / 256 == k && w / 0x1_0000 == 0 && w / 0x100_0000 == 0;
    assert Unary(Dec16(r), 0) == 0xFFFF && SwapBytes(0xFFFF) == 0xFFFF_0000;
  }

  /** The sequence touches only r and turns zero into n. */
  ghost predicate FromZeroYields(code: seq<Instr>, r: Reg, n: int) {
    (forall i :: 0 <= i < |code| ==> IsUnary(code[i], r)) && UnaryAll(code, 0) == Wrap(n)
  }

  lemma {:induction false} YieldsOne(i: Instr, r: Reg, n: int)
    requires IsUnary(i, r) && Unary(i, 0) == Wrap(n)
    ensures FromZeroYields([i], r, n)
  {
    assert [i][1..] == [];
  }

  lemma {:induction false} YieldsTwo(i: Instr, j: Instr, r: Reg, n: int)
    requires IsUnary(i, r) && IsUnary(j, r) && Unary(j, Unary(i, 0)) == Wrap(n)
    ensures FromZeroYields([i, j], r, n)
  {
    assert [i, j][1..] == [j];
    assert UnaryAll([j], Unary(i, 0)) == Unary(j, Unary(i, 0));
  }

  /** u and s are `uint32` and `sint32` of a literal other than 0xFFFFFFFF. */
  ghost predicate Views(n: Literal, u: Record, s: int) {
    && n != 0xFFFF_FFFF
    && u == (if n < 0 then TWO32 - n else n)
    && s == (if n >= 0x8000_0000 then n - TWO32 else n)
  }

  lemma {:induction false} ViewsOfLiteral(n: Literal)
    requires n != 0xFFFF_FFFF
    ensures Views(n, UInt32(n), SInt32(n))
    ensures Describes(UInt32(n), Wrap(n))
  {
    SInt32Value(n);
    UInt32Describes(n);
  }

  /** The arithmetic of `setfz`: each sequence, but the one through the stack, computes its constant. */
  lemma {:induction false} FromZeroValue(cfg: Config, v: Record, r: Reg, n: Literal, u: Record, s: int)
    requires Describes(v, 0) && Views(n, u, s)
    ensures var code := FromZeroRules(cfg, v, r, n, u, s).code;
      code == [Push(n), Pop(r)] || FromZeroYields(code, r, n)
  {
    if v == u || n == 0 {
      assert n == 0;
    } else if n == 1 && !cfg.keepFlags {
      YieldsOne(Inc(r), r, n);
    } else if s == -1 && !cfg.keepFlags {
      YieldsOne(Dec(r), r, n);
    } else if HasParts(r) && u < 256 {
      YieldsOne(MovLow(r, n), r, n);
    } else if HasParts(r) && u % 256 == 0 && 256 <= u < 65536 {
      MiddleByte(n, 256);
      YieldsOne(MovHigh(r, UDiv(n, 256)), r, n);
    } else if u == 0xFFFF && !cfg.keepFlags {
      YieldsOne(Dec16(r), r, n);
    } else {
      FromZeroThreeValue(cfg, r, n, u, s);
    }
  }

  lemma {:induction false} FromZeroThreeValue(cfg: Config, r: Reg, n: Literal, u: Record, s: int)
    requires Views(n, u, s)
    ensures var code := FromZeroThree(cfg, r, n, u, s).code;
      code == [Push(n), Pop(r)] || FromZeroYields(code, r, n)
  {
    if r != ESP && -129 < s < 128 {
      YieldsOne(Lea(r, r, n), r, n);
    } else if HasParts(r) && -256 <= s < 0 && !cfg.keepFlags {
      NegativeByteYields(r, n);
    } else if -129 < s < 128 && !cfg.stack && !cfg.keepFlags {
      YieldsOne(AddImm(r, n), r, n);
    } else if u == 0x1_0000 && !cfg.keepFlags {
      YieldsTwo(Dec16(r), Inc(r), r, n);
    } else if u == 0x100_0000 && !cfg.keepFlags {
      SwapFromZero(r, 0);
      YieldsTwo(Inc(r), Bswap(r), r, n);
    } else if u == 0x8000_0000 && !cfg.keepFlags {
      YieldsTwo(Inc(r), Ror1(r), r, n);
    } else {
      FromZeroLongValue(cfg, r, n, u, s);
    }
  }

  lemma {:induction false} FromZeroLongValue(cfg: Config, r: Reg, n: Literal, u: Record, s: int)
    requires Views(n, u, s)
    ensures FromZeroYields(FromZeroLong(cfg, r, n, u, s).code, r, n)
  {
    hide FromZeroYields, SwapBytes, Log2Floor, Log2Ceil, UDiv;
    if u < 65536 {
      WrapWord(n);
      YieldsOne(Mov16(r, n), r, n);
    } else if r == ESP && -129 < s < 128 {
      YieldsOne(Lea(r, r, n), r, n);
    } else if HasParts(r) && u % 0x100_0000 == 0 {
      TopByteYields(r, n, u);
    } else if HasParts(r) && u % 0x1_0000 == 0 && u <= 0xFF_0000 {
      MiddleByteYields(r, n);
    } else if Log2Floor(u) == Log2Ceil(u) && !cfg.keepFlags {
      PowerYields(r, n, u);
    } else if u == 0xFFFF_0000 && !cfg.keepFlags {
      SwapFromZero(r, 0);
      YieldsTwo(Dec16(r), Bswap(r), r, n);
    } else {
      YieldsOne(MovImm(r, n), r, n);
    }
  }

  lemma {:induction false} MiddleByte(n: Literal, unit: int)
    requires unit == 256 || unit == 0x1_0000
    requires 0 <= n < 256 * unit && n % unit == 0
    ensures UDiv(n, unit) % 256 * unit == n
  {
    assert n % TWO64 == n;
  }

  lemma {:induction false} NegativeByteYields(r: Reg, n: Literal)
    requires -256 <= n < 0 || TWO32 - 256 <= n
    ensures FromZeroYields([Dec(r), MovLow(r, n % 256)], r, n)
  {
    assert Unary(Dec(r), 0) == 0xFFFF_FFFF && 0xFFFF_FFFF % 256 == 0xFF;
    YieldsTwo(Dec(r), MovLow(r, n % 256), r, n);
  }

  lemma {:induction false} TopByteYields(r: Reg, n: Literal, u: int)
    requires u == (if n < 0 then TWO32 - n else n) && u % 0x100_0000 == 0
    ensures FromZeroYields([MovLow(r, UDiv(n, 0x100_0000)), Bswap(r)], r, n)
  {
    TopByte(n, u);
    SwapFromZero(r, UDiv(n, 0x100_0000));
    YieldsTwo(MovLow(r, UDiv(n, 0x100_0000)), Bswap(r), r, n);
  }

  lemma {:induction false} MiddleByteYields(r: Reg, n: Literal)
    requires 0 <= n <= 0xFF_0000 && n % 0x1_0000 == 0
    ensures FromZeroYields([MovHigh(r, UDiv(n, 0x1_0000)), Bswap(r)], r, n)
  {
    var k := UDiv(n, 0x1_0000);
    MiddleByte(n, 0x1_0000);
    assert k % 256 * 0x1_0000 == n;
    SwapFromZero(r, k);
    WrapWord(n);
    hide UDiv, Unary, FromZeroYields, Wrap;
    YieldsTwo(MovHigh(r, k), Bswap(r), r, n);
  }

  lemma {:induction false} PowerYields(r: Reg, n: Literal, u: Record)
    requires u == (if n < 0 then TWO32 - n else n) && u >= 1 && Log2Floor(u) == Log2Ceil(u)
    ensures FromZeroYields([Inc(r), Shl(r, Log2Floor(u))], r, n)
  {
    PowerOfTwoTest(u);
    NoPowerJustAbove32(Log2Floor(u));
    YieldsTwo(Inc(r), Shl(r, Log2Floor(u)), r, n);
  }

  /** A recorded negative is never taken for a power of two. */
  lemma {:induction false} NoPowerJustAbove32(k: nat)
    ensures Pow2(k) <= TWO32 || Pow2(k) >= 2 * TWO32
  {
    assert Pow2(8) == 256;
    assert Pow2(16) == 256 * Pow2(8);
    assert Pow2(24) == 256 * Pow2(16);
    assert Pow2(32) == 256 * Pow2(24);
    if k < 32 {
      Pow2Monotone(k, 32);
    } else if k > 32 {
      Pow2Monotone(32, k);
    }
  }

  /** A multiple of 2^24 is its unsigned quotient's low byte moved to the top, signed or not. */
  lemma {:induction false} TopByte(n: Literal, u: int)
    requires u == (if n < 0 then TWO32 - n else n) && u % 0x100_0000 == 0
    ensures UDiv(n, 0x100_0000) % 256 * 0x100_0000 == Wrap(n)
  {
    if n < 0 {
      var k := -n / 0x100_0000;
      assert n == -k * 0x100_0000;
      assert n % TWO64 == TWO64 - k * 0x100_0000 == (0x100_0000_0000 - k) * 0x100_0000;
      assert UDiv(n, 0x100_0000) == 0x100_0000_0000 - k;
    }
  }

  // ----- soundness of set -----

  /** A sequence that computes n from zero loads n into a register that holds zero. */
  lemma {:induction false} YieldsLoads(env: Env, code: seq<Instr>, r: Reg, n: int, m: Machine)
    requires FromZeroYields(code, r, n) && m.regs[r] == 0
    ensures Loads(r, n, m, Run(env, code, m)) && Run(env, code, m).mem == m.mem
  {
    RunUnary(env, code, r, m);
  }

  /** `setfz` on a register that holds zero. */
  lemma {:induction false} FromZeroSound(env: Env, cfg: Config, v: Record, r: Reg, n: Literal, m: Machine)
    requires m.regs[r] == 0 && Describes(v, 0) && n != 0xFFFF_FFFF
    ensures Loads(r, n, m, Run(env, SelectFromZero(cfg, v, r, n).code, m))
    ensures Describes(UInt32(n), Wrap(n))
  {
    ViewsOfLiteral(n);
    FromZeroValue(cfg, v, r, n, UInt32(n), SInt32(n));
    var code := SelectFromZero(cfg, v, r, n).code;
    if code == [Push(n), Pop(r)] {
      PushPop(env, r, n, m);
    } else {
      YieldsLoads(env, code, r, n, m);
    }
  }

  /** `zero` on one register. */
  lemma {:induction false} ZeroSound(env: Env, cfg: Config, abs: Records, r: Reg, m: Machine)
    requires Agrees(abs, m.regs)
    ensures var m' := Run(env, ZeroCode(cfg, abs, r), m);
      Loads(r, 0, m, m') && m'.mem == m.mem
  {
    assert Describes(abs[r], m.regs[r]) && Describes(abs[EAX], m.regs[EAX]);
    var code := ZeroCode(cfg, abs, r);
    if code != [] {
      Run1(env, code[0], m);
      assert code == [code[0]];
    }
  }

  /** A sequence that starts by clearing its target. */
  lemma {:induction false} ClearThenLoads(env: Env, cfg: Config, abs: Records, code: seq<Instr>, r: Reg, n: int, m: Machine)
    requires Agrees(abs, m.regs) && FromZeroYields(code, r, n)
    ensures Loads(r, n, m, Run(env, ZeroCode(cfg, abs, r) + code, m))
  {
    ZeroSound(env, cfg, abs, r, m);
    var m1 := Run(env, ZeroCode(cfg, abs, r), m);
    RunAppend(env, ZeroCode(cfg, abs, r), code, m);
    YieldsLoads(env, code, r, n, m1);
    assert m1.regs[r := Wrap(n)] == m.regs[r := Wrap(n)];
  }

  /** What the four adjustments make of eax just after it was decremented from zero. */
  function AdjustedValue(i: Instr): int {
    if i == Das then -103 else if i == Aas then -503 else if i == Daa then -155 else -65275
  }

  lemma {:induction false} AdjustAllOnes(cf: bool)
    ensures WithLow(0xFFFF_FFFF, AdjustAfterSubtract(0xFF, cf, true).0) == Wrap(-103)
    ensures WithLow(0xFFFF_FFFF, AdjustAfterAdd(0xFF, cf, true).0) == Wrap(-155)
    ensures WithLow16(0xFFFF_FFFF, AsciiAdjust(0xFFFF, true, -0x106).0) == Wrap(-503)
    ensures WithLow16(0xFFFF_FFFF, AsciiAdjust(0xFFFF, true, 0x106).0) == Wrap(-65275)
  {
  }

  /** Decrementing zero sets the auxiliary carry, so a decimal or ASCII adjustment of eax has one
      result whatever the carry flag was. */
  lemma {:induction false} AdjustedConstant(env: Env, i: Instr, m: Machine)
    requires m.regs[EAX] == 0
    requires i == Das || i == Aas || i == Daa || i == Aaa
    ensures Loads(EAX, AdjustedValue(i), m, Run(env, [Dec(EAX), i], m))
    ensures Run(env, [Dec(EAX), i], m).mem == m.mem
  {
    Run2(env, Dec(EAX), i, m);
    var m1 := Exec(env, Dec(EAX), m);
    assert m1.regs == m.regs[EAX := 0xFFFF_FFFF] && m1.flags.af;
    AdjustStep(env, i, m1);
    hide RegsAfter;
  }

  lemma {:induction false} AdjustStep(env: Env, i: Instr, m: Machine)
    requires m.regs[EAX] == 0xFFFF_FFFF && m.flags.af
    requires i == Das || i == Aas || i == Daa || i == Aaa
    ensures RegsAfter(env, i, m) == m.regs[EAX := Wrap(AdjustedValue(i))]
  {
    AdjustAllOnes(m.flags.cf);
    assert 0xFFFF_FFFF % 256 == 0xFF && 0xFFFF_FFFF % 0x1_0000 == 0xFFFF;
    hide AdjustAfterSubtract, AdjustAfterAdd, AsciiAdjust, WithLow, WithLow16, Wrap;
  }

  lemma {:induction false} ClearThenAdjust(env: Env, cfg: Config, abs: Records, i: Instr, m: Machine)
    requires Agrees(abs, m.regs)
    requires i == Das || i == Aas || i == Daa || i == Aaa
    ensures Loads(EAX, AdjustedValue(i), m, Run(env, ZeroCode(cfg, abs, EAX) + [Dec(EAX), i], m))
  {
    ZeroSound(env, cfg, abs, EAX, m);
    var m1 := Run(env, ZeroCode(cfg, abs, EAX), m);
    RunAppend(env, ZeroCode(cfg, abs, EAX), [Dec(EAX), i], m);
    AdjustedConstant(env, i, m1);
  }

  /** When `set` goes wrong: the literal 0xFFFFFFFF, which the remainder in `int32` turns into 0; and a
      step of one between two recorded negatives, whose records count the other way. */
  predicate Hazard(cfg: Config, abs: Records, r: Reg, n: Literal) {
    || n == 0xFFFF_FFFF
    || (n < 0 && abs[r] > TWO32 && !cfg.keepFlags && (UInt32(n) as int - abs[r] == 1 || UInt32(n) as int - abs[r] == -1))
  }

  lemma {:induction false} NothingLoads(env: Env, r: Reg, n: int, m: Machine)
    requires m.regs[r] == Wrap(n)
    ensures Loads(r, n, m, Run(env, [], m))
  {
    assert m.regs[r := Wrap(n)] == m.regs;
  }

  lemma {:induction false} UnaryLoads(env: Env, i: Instr, r: Reg, n: int, m: Machine)
    requires IsUnary(i, r) && Unary(i, m.regs[r]) == Wrap(n)
    ensures Loads(r, n, m, Run(env, [i], m))
  {
    OneLoads(env, i, r, n, m);
  }

  lemma {:induction false} LeaLoads(env: Env, r: Reg, base: Reg, n: int, disp: int, m: Machine)
    requires Wrap(m.regs[base] as int + disp) == Wrap(n)
    ensures Loads(r, n, m, Run(env, [Lea(r, base, disp)], m))
  {
    OneLoads(env, Lea(r, base, disp), r, n, m);
  }

  lemma {:induction false} CopyLoads(env: Env, r: Reg, src: Reg, n: int, m: Machine)
    requires m.regs[src] == Wrap(n)
    ensures Loads(r, n, m, Run(env, [CopyOf(r, src)], m))
  {
    OneLoads(env, CopyOf(r, src), r, n, m);
  }

  lemma {:induction false} OneLoads(env: Env, i: Instr, r: Reg, n: int, m: Machine)
    requires !i.Push? && !i.Int80? && RegsAfter(env, i, m) == m.regs[r := Wrap(n)]
    ensures Loads(r, n, m, Run(env, [i], m))
  {
    Run1(env, i, m);
  }

  lemma {:induction false} SetFreshLoads(env: Env, cfg: Config, abs: Records, r: Reg, n: Literal, u: Record, s: int, m: Machine)
    requires Agrees(abs, m.regs) && Views(n, u, s)
    ensures Loads(r, n, m, Run(env, SetFresh(cfg, abs, r, n, u, s).code, m))
  {
    hide Loads, Run, RegsAfter, FromZeroYields;
    if n == 1 && !cfg.keepFlags {
      YieldsOne(Inc(r), r, n);
      ClearThenLoads(env, cfg, abs, [Inc(r)], r, n, m);
    } else if s == -1 && !cfg.keepFlags {
      UnaryLoads(env, OrOnes(r), r, n, m);
    } else if -129 < s < 128 && cfg.stack {
      PushPop(env, r, n, m);
    } else if HasParts(r) && u < 256 {
      YieldsOne(MovLow(r, n), r, n);
      ClearThenLoads(env, cfg, abs, [MovLow(r, n)], r, n, m);
    } else if HasParts(r) && u % 256 == 0 && 256 <= u < 65536 {
      MiddleByte(n, 256);
      YieldsOne(MovHigh(r, UDiv(n, 256)), r, n);
      ClearThenLoads(env, cfg, abs, [MovHigh(r, UDiv(n, 256))], r, n, m);
    } else if u == 0xFFFF && !cfg.keepFlags {
      YieldsOne(Dec16(r), r, n);
      ClearThenLoads(env, cfg, abs, [Dec16(r)], r, n, m);
    } else {
      SetLongLoads(env, cfg, abs, r, n, u, s, m);
    }
  }

  lemma {:induction false} ClearThenAdjustTo(env: Env, cfg: Config, abs: Records, i: Instr, n: Literal, s: int, m: Machine)
    requires Agrees(abs, m.regs) && (s == n || s == n - TWO32) && s == AdjustedValue(i)
    requires i == Das || i == Aas || i == Daa || i == Aaa
    ensures Loads(EAX, n, m, Run(env, ZeroCode(cfg, abs, EAX) + [Dec(EAX), i], m))
  {
    ClearThenAdjust(env, cfg, abs, i, m);
    SameWord(n, s);
    hide Run, ZeroCode, Agrees, Wrap, AdjustedValue;
  }

  lemma {:induction false} SameWord(n: int, s: int)
    requires n == s || (0 <= n < TWO32 && s == n - TWO32)
    ensures Wrap(n) == Wrap(s)
  {
    if n != s {
      WrapWord(n);
      WrapNegative(s);
    }
  }

  lemma {:induction false} Mov16Value(r: Reg, x: Word, n: int)
    requires x < 0x1_0000 && 0 <= n < 0x1_0000
    ensures Unary(Mov16(r, n), x) == Wrap(n)
  {
    WrapWord(n);
  }

  lemma {:induction false} SetLongLoads(env: Env, cfg: Config, abs: Records, r: Reg, n: Literal, u: Record, s: int, m: Machine)
    requires Agrees(abs, m.regs) && Views(n, u, s)
    ensures Loads(r, n, m, Run(env, SetLong(cfg, abs, r, n, u, s).code, m))
  {
    assert Describes(abs[r], m.regs[r]);
    hide Run, Loads, Agrees, ZeroCode;
    if r == EAX && s == -103 && !cfg.keepFlags {
      ClearThenAdjustTo(env, cfg, abs, Das, n, s, m);
    } else if r == EAX && s == -503 && !cfg.keepFlags {
      ClearThenAdjustTo(env, cfg, abs, Aas, n, s, m);
    } else if r == EAX && s == -155 && !cfg.keepFlags {
      ClearThenAdjustTo(env, cfg, abs, Daa, n, s, m);
    } else if r == EAX && s == -65275 && !cfg.keepFlags {
      ClearThenAdjustTo(env, cfg, abs, Aaa, n, s, m);
    } else if Fits16(abs[r]) && u < 65536 {
      Mov16Value(r, m.regs[r], n);
      hide Unary;
      UnaryLoads(env, Mov16(r, n), r, n, m);
    } else {
      UnaryLoads(env, MovImm(r, n), r, n, m);
    }
  }

  lemma {:induction false} SetLoads(env: Env, cfg: Config, abs: Records, r: Reg, n: Literal, u: Record, s: int, m: Machine)
    requires Agrees(abs, m.regs) && !Hazard(cfg, abs, r, n)
    requires u == UInt32(n) && s == SInt32(n) && Views(n, u, s) && Describes(u, Wrap(n))
    ensures Loads(r, n, m, Run(env, SetRules(cfg, abs, r, n, u, s).code, m))
  {
    hide Loads, Run, RegsAfter, FromZeroYields;
    var v := abs[r];
    var same := if cfg.search then LastMatch(abs, u, 8) else None;
    var zero := if cfg.search then LastMatch(abs, 0, 8) else None;
    assert Describes(v, m.regs[r]);
    if v == u {
      NothingLoads(env, r, n, m);
    } else if v == 0 {
      FromZeroSound(env, cfg, v, r, n, m);
    } else if Defined(v) && (u as int - v == 1 || u as int - v == -1) && !cfg.keepFlags {
      UnaryLoads(env, if u as int - v == 1 then Inc(r) else Dec(r), r, n, m);
    } else if same.Some? {
      assert Describes(abs[same.value], m.regs[same.value]);
      CopyLoads(env, r, same.value, n, m);
    } else if n == 0 {
      ZeroSound(env, cfg, abs, r, m);
    } else if HasParts(r) && Fits8(v) && u < 256 {
      UnaryLoads(env, MovLow(r, n), r, n, m);
    } else if zero.Some? && r != ESP && -129 < s < 128 {
      assert Describes(abs[zero.value], m.regs[zero.value]);
      LeaLoads(env, r, zero.value, n, n, m);
    } else {
      SetFreshLoads(env, cfg, abs, r, n, u, s, m);
    }
  }

  lemma {:induction false} WrongRecord(abs: Records, regs: Regs, r: Reg)
    requires !Describes(abs[r], regs[r])
    ensures !Agrees(abs, regs)
  {
    assert !Describes(abs[r], regs[r]);
  }

  /** What `set r, n` is for: r holds n, nothing else moves, and the updated records describe the
      machine again. */
  ghost predicate SetCorrect(env: Env, cfg: Config, abs: Records, r: Reg, n: Literal, m: Machine) {
    var m' := Run(env, Select(cfg, abs, r, n).code, m);
    Loads(r, n, m, m') && Agrees(abs[r := UInt32(n)], m'.regs)
  }

  /** Started from any machine the records describe, `set` is correct exactly when there is no hazard. */
  lemma {:induction false} SetCorrectIff(env: Env, cfg: Config, abs: Records, r: Reg, n: Literal, m: Machine)
    requires Agrees(abs, m.regs)
    ensures SetCorrect(env, cfg, abs, r, n, m) <==> !Hazard(cfg, abs, r, n)
  {
    assert Describes(abs[r], m.regs[r]);
    var m' := Run(env, Select(cfg, abs, r, n).code, m);
    if n == 0xFFFF_FFFF {
      UInt32Describes(n);
      if m'.regs[r] == Wrap(n) {
        WrongRecord(abs[r := UInt32(n)], m'.regs, r);
      }
    } else {
      ViewsOfLiteral(n);
      if Hazard(cfg, abs, r, n) {
        Run1(env, if UInt32(n) as int - abs[r] == 1 then Inc(r) else Dec(r), m);
      } else {
        SetLoads(env, cfg, abs, r, n, UInt32(n), SInt32(n), m);
      }
    }
  }

  // ----- flags and size -----

  /** With `reg_keepflags` on, setting any register to any constant changes no flag. */
  lemma {:induction false} SetKeepsFlags(env: Env, cfg: Config, abs: Records, r: Reg, n: Literal, m: Machine)
    requires cfg.keepFlags
    ensures Run(env, Select(cfg, abs, r, n).code, m).flags == m.flags
  {
    SelectKeepsFlags(cfg, abs, r, n, UInt32(n), SInt32(n));
    RunKeepsFlags(env, Select(cfg, abs, r, n).code, m);
  }

  ghost predicate AllKeepFlags(code: seq<Instr>) {
    forall i :: 0 <= i < |code| ==> KeepsFlags(code[i])
  }

  lemma {:induction false} SelectKeepsFlags(cfg: Config, abs: Records, r: Reg, n: Literal, u: Record, s: int)
    requires cfg.keepFlags && u >= 0
    ensures AllKeepFlags(SetRules(cfg, abs, r, n, u, s).code)
  {
    hide Log2Floor, Log2Ceil, UDiv, LastMatch;
    assert AllKeepFlags(FromZeroRules(cfg, abs[r], r, n, u, s).code);
    hide FromZeroRules;
    assert AllKeepFlags(SetFresh(cfg, abs, r, n, u, s).code);
    hide SetFresh;
  }

  lemma {:induction false} CodeSizeUpTo3(code: seq<Instr>)
    requires |code| <= 3
    ensures |code| == 0 ==> CodeSize(code) == 0
    ensures |code| == 1 ==> CodeSize(code) == Size(code[0])
    ensures |code| == 2 ==> CodeSize(code) == Size(code[0]) + Size(code[1])
    ensures |code| == 3 ==> CodeSize(code) == Size(code[0]) + Size(code[1]) + Size(code[2])
  {
    if |code| > 0 {
      CodeSizeUpTo3(code[1..]);
    }
  }

  predicate WithinBudget(c: Choice) {
    CodeSize(c.code) + c.saved <= 5
  }

  lemma {:induction false} FromZeroBudget(cfg: Config, v: Record, r: Reg, n: Literal, u: Record, s: int)
    requires u >= 0 && Wrap(s) == Wrap(n)
    ensures WithinBudget(FromZeroRules(cfg, v, r, n, u, s))
  {
    hide CodeSize, Log2Floor, Log2Ceil, UDiv;
    CodeSizeUpTo3(FromZeroRules(cfg, v, r, n, u, s).code);
  }

  lemma {:induction false} SetLongBudget(cfg: Config, abs: Records, r: Reg, n: Literal, u: Record, s: int)
    requires u >= 0
    ensures WithinBudget(SetLong(cfg, abs, r, n, u, s))
  {
    hide CodeSize;
    CodeSizeUpTo3(SetLong(cfg, abs, r, n, u, s).code);
  }

  lemma {:induction false} SetFreshBudget(cfg: Config, abs: Records, r: Reg, n: Literal, u: Record, s: int)
    requires u >= 0 && Wrap(s) == Wrap(n)
    ensures WithinBudget(SetFresh(cfg, abs, r, n, u, s))
  {
    hide CodeSize, UDiv, SetLong;
    SetLongBudget(cfg, abs, r, n, u, s);
    var code := SetFresh(cfg, abs, r, n, u, s).code;
    if |code| <= 3 {
      CodeSizeUpTo3(code);
    }
  }

  /** When `set` addresses the constant from esp: the search finds esp recorded as zero, the number fits a
      signed byte and differs from every recorded value, and none of the rules for the target's own record
      applies. */
  predicate EspBased(cfg: Config, abs: Records, r: Reg, n: Literal) {
    && cfg.search && abs[ESP] == 0 && r != ESP
    && -129 < SInt32(n) < 128
    && (forall q: Reg :: abs[q] != UInt32(n)) && abs[r] != 0
    && !(Defined(abs[r]) && !cfg.keepFlags && (UInt32(n) as int - abs[r] == 1 || UInt32(n) as int - abs[r] == -1))
    && !(HasParts(r) && Fits8(abs[r]) && UInt32(n) < 256)
  }

  lemma {:induction false} NoMatchAnywhere(abs: Records, v: int)
    ensures LastMatch(abs, v, 8).None? <==> forall q: Reg :: abs[q] != v
  {
    if LastMatch(abs, v, 8).None? {
      forall q: Reg ensures abs[q] != v {
        var i := [0, 2, 3, 1, 7, 6, 4, 5][q];
        assert SEARCH_ORDER[i] == q;
      }
    }
  }

  lemma {:induction false} EspZeroFound(abs: Records)
    ensures LastMatch(abs, 0, 8) == Some(ESP) <==> abs[ESP] == 0
  {
    assert SEARCH_ORDER[7] == ESP;
  }

  /** No sequence is longer than the plain move, and emitted and saved bytes together stay within five unless
      the address is based on esp, which needs one byte more than the saved-byte count supposes. */
  lemma {:induction false} SetBudget(cfg: Config, abs: Records, r: Reg, n: Literal)
    ensures var c := Select(cfg, abs, r, n);
      && CodeSize(c.code) <= 5
      && (CodeSize(c.code) + c.saved <= 5 <==> !EspBased(cfg, abs, r, n))
      && (EspBased(cfg, abs, r, n) ==> CodeSize(c.code) + c.saved == 6)
  {
    hide FromZeroRules, SetFresh, CodeSize, UInt32, SInt32, LastMatch, Fits8;
    var u, s := UInt32(n), SInt32(n);
    SInt32Value(n);
    UInt32Describes(n);
    SetFreshBudget(cfg, abs, r, n, u, s);
    FromZeroBudget(cfg, abs[r], r, n, u, s);
    NoMatchAnywhere(abs, u);
    EspZeroFound(abs);
    var code := Select(cfg, abs, r, n).code;
    if |code| <= 3 {
      CodeSizeUpTo3(code);
    }
  }

  /** esp recorded as zero, nothing known of ecx: `set ecx, 100` takes four bytes and claims two saved. */
  lemma {:induction false} EspBaseOverspends()
    ensures var abs: Records := [-1, -1, -1, -1, 0, -1, -1, -1];
      var c := Select(Config(false, true, true, true), abs, ECX, 100);
      && c == Choice([Lea(ECX, ESP, 100)], 2)
      && CodeSize(c.code) == 4
  {
    var abs: Records := [-1, -1, -1, -1, 0, -1, -1, -1];
    UInt32Describes(100);
    SInt32Value(100);
    hide UInt32, SInt32;
    NoMatchAnywhere(abs, 100);
    EspZeroFound(abs);
    CodeSizeUpTo3([Lea(ECX, ESP, 100)]);
  }

  // ----- exact sizes -----

  predicate SignedByte(s: int) {
    -129 < s < 128
  }

  /** All bytes of the number are zero but one that has a register name of its own. */
  predicate OneNamedByte(r: Reg, u: int) {
    HasParts(r) && (u < 256 || (u % 256 == 0 && u < 65536))
  }

  ghost predicate PowerOfTwo(u: int) {
    exists k: nat :: u == Pow2(k)
  }

  /** Bytes `zero` takes on one register. */
  function ZeroSize(abs: Records, r: Reg): nat {
    if abs[r] == 0 then 0 else if r == EDX && NotNegative(abs[EAX]) then 1 else 2
  }

  /** From zero: what fits one byte of code, two, three and four. */
  predicate FromZeroIn1(cfg: Config, n: int, s: int) {
    !cfg.keepFlags && (n == 1 || s == -1)
  }

  predicate FromZeroIn2(cfg: Config, r: Reg, u: int) {
    OneNamedByte(r, u) || (!cfg.keepFlags && u == 0xFFFF)
  }

  predicate FromZeroIn3(cfg: Config, r: Reg, u: int, s: int) {
    || (SignedByte(s) && (r != ESP || cfg.stack || !cfg.keepFlags))
    || (!cfg.keepFlags && ((HasParts(r) && -256 <= s < 0) || u == 0x1_0000 || u == 0x100_0000 || u == 0x8000_0000))
  }

  ghost predicate FromZeroIn4(cfg: Config, r: Reg, u: int, s: int) {
    || u < 65536 || SignedByte(s)
    || (HasParts(r) && (u % 0x100_0000 == 0 || (u % 0x1_0000 == 0 && u <= 0xFF_0000)))
    || (!cfg.keepFlags && (PowerOfTwo(u) || u == 0xFFFF_0000))
  }

  ghost function FromZeroSize(cfg: Config, r: Reg, n: int, u: int, s: int): nat {
    if FromZeroIn1(cfg, n, s) then 1
    else if FromZeroIn2(cfg, r, u) then 2
    else if FromZeroIn3(cfg, r, u, s) then 3
    else if FromZeroIn4(cfg, r, u, s) then 4
    else 5
  }

  lemma {:induction false} Log2OfPower(k: nat)
    ensures Log2Floor(Pow2(k)) == k && (k > 0 ==> Log2Floor(Pow2(k) - 1) == k - 1)
  {
    if k > 0 {
      Log2OfPower(k - 1);
    }
    if k > 1 {
      assert (Pow2(k) - 1) / 2 == Pow2(k - 1) - 1;
    }
  }

  /** The test on logarithms accepts exactly the powers of two. */
  lemma {:induction false} PowerOfTwoIff(u: nat)
    requires u >= 1
    ensures Log2Floor(u) == Log2Ceil(u) <==> PowerOfTwo(u)
  {
    if Log2Floor(u) == Log2Ceil(u) {
      PowerOfTwoTest(u);
    }
    if k: nat :| u == Pow2(k) {
      Log2OfPower(k);
    }
  }

  lemma {:induction false} ByteImmediate(n: int, s: int)
    requires (s == n || s == n - TWO32) && -0x8000_0000 <= s < 0x8000_0000
    ensures IsByte(n) <==> SignedByte(s)
  {
  }

  lemma {:induction false} LongSizes(r: Reg, n: int, low: int, high: int, k: nat)
    ensures CodeSize([Mov16(r, n)]) == 4 && CodeSize([MovImm(r, n)]) == 5
    ensures CodeSize([MovLow(r, low), Bswap(r)]) == 4 && CodeSize([MovHigh(r, high), Bswap(r)]) == 4
    ensures CodeSize([Dec16(r), Bswap(r)]) == 4 && (k != 1 ==> CodeSize([Inc(r), Shl(r, k)]) == 4)
    ensures r == ESP && IsByte(n) && Wrap(n) != 0 ==> CodeSize([Lea(r, r, n)]) == 4
  {
    hide CodeSize, IsByte, Wrap;
    CodeSizeUpTo3([Mov16(r, n)]);
    CodeSizeUpTo3([MovImm(r, n)]);
    CodeSizeUpTo3([MovLow(r, low), Bswap(r)]);
    CodeSizeUpTo3([MovHigh(r, high), Bswap(r)]);
    CodeSizeUpTo3([Dec16(r), Bswap(r)]);
    CodeSizeUpTo3([Inc(r), Shl(r, k)]);
    CodeSizeUpTo3([Lea(r, r, n)]);
    assert n == 0 ==> Wrap(n) == 0 by {
      WrapWord(0);
    }
  }

  /** The plain move is left exactly for the numbers none of the shorter sequences makes. */
  lemma {:induction false} PlainMoveIff(cfg: Config, r: Reg, n: Literal, u: Record, s: int)
    requires u >= 1 && (SignedByte(s) ==> r == ESP)
    ensures FromZeroLong(cfg, r, n, u, s) == Choice([MovImm(r, n)], 0) <==> !FromZeroIn4(cfg, r, u, s)
    ensures FromZeroIn4(cfg, r, u, s) ==> FromZeroLong(cfg, r, n, u, s).saved == 1
  {
    PowerOfTwoIff(u);
    hide UDiv, PowerOfTwo, Log2Floor, Log2Ceil;
  }

  lemma {:induction false} FromZeroLongSizes(cfg: Config, r: Reg, n: Literal, u: Record, s: int)
    requires u >= 1 && Views(n, u, s) && !FromZeroIn2(cfg, r, u) && !FromZeroIn3(cfg, r, u, s)
    ensures var c := FromZeroLong(cfg, r, n, u, s);
      CodeSize(c.code) == (if FromZeroIn4(cfg, r, u, s) then 4 else 5) && c.saved == 5 - CodeSize(c.code)
  {
    hide CodeSize, UDiv, IsByte, Log2Floor, Log2Ceil, FromZeroIn4, OneNamedByte, Wrap, Views;
    LongFacts(n, u, s);
    PlainMoveIff(cfg, r, n, u, s);
    LongSizes(r, n, UDiv(n, 0x100_0000), UDiv(n, 0x1_0000), Log2Floor(u));
  }

  lemma {:induction false} LongFacts(n: Literal, u: Record, s: int)
    requires u >= 1 && Views(n, u, s)
    ensures Wrap(n) != 0 && (IsByte(n) <==> SignedByte(s)) && (u >= 65536 ==> Log2Floor(u) != 1)
  {
    ByteImmediate(n, s);
    Log2FloorBounds(u);
    assert Pow2(1) == 2;
  }

  lemma {:induction false} FromZeroThreeSizes(cfg: Config, r: Reg, n: Literal, u: Record, s: int)
    requires n != 0 && u >= 1 && Views(n, u, s) && !FromZeroIn2(cfg, r, u)
    ensures var c := FromZeroThree(cfg, r, n, u, s);
      && CodeSize(c.code) == (if FromZeroIn3(cfg, r, u, s) then 3 else if FromZeroIn4(cfg, r, u, s) then 4 else 5)
      && c.saved == if !cfg.keepFlags && (u == 0x1_0000 || u == 0x100_0000) then 1 else 5 - CodeSize(c.code)
  {
    if FromZeroIn3(cfg, r, u, s) {
      ByteImmediate(n, s);
      hide CodeSize, FromZeroLong, FromZeroIn4, OneNamedByte, IsByte;
      CodeSizeUpTo3(FromZeroThree(cfg, r, n, u, s).code);
    } else {
      FromZeroLongSizes(cfg, r, n, u, s);
      hide CodeSize, FromZeroLong, FromZeroIn4, OneNamedByte;
    }
  }

  /** What a sequence of `setfz` takes and saves when something is to be done. */
  lemma {:induction false} FromZeroSizes(cfg: Config, v: Record, r: Reg, n: Literal, u: Record, s: int)
    requires v != u && n != 0 && u >= 1 && Views(n, u, s)
    ensures var c := FromZeroRules(cfg, v, r, n, u, s);
      && CodeSize(c.code) == FromZeroSize(cfg, r, n, u, s)
      && c.saved == if !cfg.keepFlags && (u == 0x1_0000 || u == 0x100_0000) then 1 else 5 - CodeSize(c.code)
  {
    if FromZeroIn1(cfg, n, s) || FromZeroIn2(cfg, r, u) {
      hide CodeSize, UDiv, FromZeroThree, FromZeroIn3, FromZeroIn4, Wrap;
      CodeSizeUpTo3(FromZeroRules(cfg, v, r, n, u, s).code);
    } else {
      FromZeroThreeSizes(cfg, r, n, u, s);
      hide CodeSize, UDiv, FromZeroThree, FromZeroIn3, FromZeroIn4, Wrap;
    }
  }

  /** A sequence that needs no other register and no recorded step: bytes and saved bytes. */
  function FreshCost(cfg: Config, abs: Records, r: Reg, n: int, u: int, s: int): (nat, nat) {
    if !cfg.keepFlags && n == 1 then (ZeroSize(abs, r) + 1, 2)
    else if (!cfg.keepFlags && s == -1) || (SignedByte(s) && cfg.stack) then (3, 2)
    else if OneNamedByte(r, u) || (!cfg.keepFlags && u == 0xFFFF) then (ZeroSize(abs, r) + 2, 1)
    else if r == EAX && !cfg.keepFlags && (s == -103 || s == -155 || s == -503 || s == -65275) then
      (ZeroSize(abs, r) + 2, 1)
    else if Fits16(abs[r]) && u < 65536 then (4, 1)
    else (5, 0)
  }

  ghost predicate Recorded(abs: Records, v: int) {
    exists q: Reg :: abs[q] == v
  }

  /** Bytes and saved bytes of `set r, n`. */
  ghost function SetCost(cfg: Config, abs: Records, r: Reg, n: Literal): (int, int) {
    var u, s, v := UInt32(n), SInt32(n), abs[r];
    if v == u then (0, 0)
    else if v == 0 then
      var size := FromZeroSize(cfg, r, n, u, s);
      (size, if !cfg.keepFlags && (u == 0x1_0000 || u == 0x100_0000) then 1 else 5 - size)
    else if StepOfOne(cfg, v, u) then (1, 0)
    else if cfg.search && Recorded(abs, u) then (2, 3)
    else if n == 0 then (ZeroSize(abs, r), 3)
    else if HasParts(r) && Fits8(v) && u < 256 then (2, 0)
    else if cfg.search && Recorded(abs, 0) && r != ESP && SignedByte(s) then (if abs[ESP] == 0 then 4 else 3, 2)
    else FreshCost(cfg, abs, r, n, u, s)
  }

  lemma {:induction false} ZeroCodeSize(cfg: Config, abs: Records, r: Reg)
    ensures CodeSize(ZeroCode(cfg, abs, r)) == ZeroSize(abs, r)
  {
    CodeSizeUpTo3(ZeroCode(cfg, abs, r));
  }

  lemma {:induction false} SetLongCost(cfg: Config, abs: Records, r: Reg, n: Literal, u: Record, s: int)
    requires u >= 0 && !(!cfg.keepFlags && n == 1) && !((!cfg.keepFlags && s == -1) || (SignedByte(s) && cfg.stack))
    requires !(OneNamedByte(r, u) || (!cfg.keepFlags && u == 0xFFFF))
    ensures var c := SetLong(cfg, abs, r, n, u, s); (CodeSize(c.code), c.saved) == FreshCost(cfg, abs, r, n, u, s)
  {
    ZeroCodeSize(cfg, abs, r);
    var clear := ZeroCode(cfg, abs, r);
    hide CodeSize, ZeroCode, ZeroSize;
    CodeSizeUpTo3([Dec(r), Das]);
    CodeSizeUpTo3([Dec(r), Aas]);
    CodeSizeUpTo3([Dec(r), Daa]);
    CodeSizeUpTo3([Dec(r), Aaa]);
    CodeSizeAppend(clear, [Dec(r), Das]);
    CodeSizeAppend(clear, [Dec(r), Aas]);
    CodeSizeAppend(clear, [Dec(r), Daa]);
    CodeSizeAppend(clear, [Dec(r), Aaa]);
    CodeSizeUpTo3([Mov16(r, n)]);
    CodeSizeUpTo3([MovImm(r, n)]);
  }

  lemma {:induction false} ClearedSize(cfg: Config, abs: Records, r: Reg, i: Instr)
    ensures CodeSize(ZeroCode(cfg, abs, r) + [i]) == ZeroSize(abs, r) + Size(i)
  {
    ZeroCodeSize(cfg, abs, r);
    CodeSizeUpTo3([i]);
    CodeSizeAppend(ZeroCode(cfg, abs, r), [i]);
  }

  lemma {:induction false} SetFreshCost(cfg: Config, abs: Records, r: Reg, n: Literal, u: Record, s: int)
    requires u >= 0 && Wrap(s) == Wrap(n)
    ensures var c := SetFresh(cfg, abs, r, n, u, s); (CodeSize(c.code), c.saved) == FreshCost(cfg, abs, r, n, u, s)
  {
    hide CodeSize, UDiv, ZeroCode, ZeroSize, SetLong;
    if !cfg.keepFlags && n == 1 {
      ClearedSize(cfg, abs, r, Inc(r));
    } else if !cfg.keepFlags && s == -1 {
      CodeSizeUpTo3([OrOnes(r)]);
    } else if SignedByte(s) && cfg.stack {
      CodeSizeUpTo3([Push(n), Pop(r)]);
    } else if OneNamedByte(r, u) {
      ClearedSize(cfg, abs, r, MovLow(r, n));
      ClearedSize(cfg, abs, r, MovHigh(r, UDiv(n, 256)));
    } else if !cfg.keepFlags && u == 0xFFFF {
      ClearedSize(cfg, abs, r, Dec16(r));
    } else {
      SetLongCost(cfg, abs, r, n, u, s);
    }
  }

  /** The rules that copy or address from another register. */
  lemma {:induction false} BorrowedSizes(abs: Records, r: Reg, n: Literal, u: Record, s: int)
    requires (s == n || s == n - TWO32) && -0x8000_0000 <= s < 0x8000_0000
    ensures LastMatch(abs, u, 8).Some? <==> Recorded(abs, u)
    ensures LastMatch(abs, u, 8).Some? ==> CodeSize([CopyOf(r, LastMatch(abs, u, 8).value)]) == 2
    ensures LastMatch(abs, 0, 8).Some? <==> Recorded(abs, 0)
    ensures LastMatch(abs, 0, 8).Some? && SignedByte(s) && n != 0 ==>
      CodeSize([Lea(r, LastMatch(abs, 0, 8).value, n)]) == if abs[ESP] == 0 then 4 else 3
  {
    NoMatchAnywhere(abs, u);
    NoMatchAnywhere(abs, 0);
    EspZeroFound(abs);
    ByteImmediate(n, s);
    hide CodeSize, LastMatch, IsByte;
    if LastMatch(abs, u, 8).Some? {
      CodeSizeUpTo3([CopyOf(r, LastMatch(abs, u, 8).value)]);
    }
    if LastMatch(abs, 0, 8).Some? {
      CodeSizeUpTo3([Lea(r, LastMatch(abs, 0, 8).value, n)]);
      assert SignedByte(s) && n != 0 ==> Wrap(n) != 0;
    }
  }

  predicate StepOfOne(cfg: Config, v: Record, u: int) {
    Defined(v) && !cfg.keepFlags && (v as int == u + 1 || v as int == u - 1)
  }

  /** When the target's own record is no help. */
  lemma {:induction false} SetCostElse(cfg: Config, abs: Records, r: Reg, n: Literal)
    requires abs[r] != UInt32(n) && abs[r] != 0 && !StepOfOne(cfg, abs[r], UInt32(n))
    ensures var c := Select(cfg, abs, r, n); (CodeSize(c.code), c.saved) == SetCost(cfg, abs, r, n)
  {
    var u, s := UInt32(n), SInt32(n);
    SInt32Value(n);
    UInt32Describes(n);
    BorrowedSizes(abs, r, n, u, s);
    ZeroCodeSize(cfg, abs, r);
    SetFreshCost(cfg, abs, r, n, u, s);
    CodeSizeUpTo3([MovLow(r, n)]);
    hide CodeSize, UInt32, SInt32, LastMatch, Recorded, CopyOf, Fits8, SignedByte;
    hide FromZeroRules, FromZeroSize, SetFresh, FreshCost, ZeroCode, ZeroSize;
  }

  /** Exactly how long the sequence for any register, number and records is, and what is counted as saved. */
  lemma {:induction false} SetCosts(cfg: Config, abs: Records, r: Reg, n: Literal)
    ensures var c := Select(cfg, abs, r, n); (CodeSize(c.code), c.saved) == SetCost(cfg, abs, r, n)
  {
    var u, s, v := UInt32(n), SInt32(n), abs[r];
    if v != u && v != 0 && !StepOfOne(cfg, v, u) {
      SetCostElse(cfg, abs, r, n);
    } else {
      if v == 0 && u != 0 {
        UInt32Describes(n);
        ViewsOfLiteral(n);
        FromZeroSizes(cfg, v, r, n, u, s);
      }
      CodeSizeUpTo3([]);
      CodeSizeUpTo3([Inc(r)]);
      CodeSizeUpTo3([Dec(r)]);
      hide CodeSize, UInt32, SInt32, LastMatch, FromZeroRules, FromZeroSize, SetFresh, FreshCost, ZeroCode, ZeroSize;
    }
  }

  /** How short `set` is at least, for what its caller can see. */
  lemma {:induction false} SetIsShort(cfg: Config, abs: Records, r: Reg, n: Literal)
    ensures var size := CodeSize(Select(cfg, abs, r, n).code);
      && (n == 0 ==> size <= 2)
      && (0 <= n < 0xFFFF_FFFF && abs[r] == n ==> size == 0)
      && (SignedByte(SInt32(n)) && (cfg.stack || (!cfg.keepFlags && abs[r] == 0)) && !EspBased(cfg, abs, r, n) ==> size <= 3)
      && (HasParts(r) && 0 <= n < 256 ==> size <= 4)
      && (HasParts(r) && 0 <= n < 65536 && n % 256 == 0 ==> size <= 4)
      && (Fits16(abs[r]) && 0 <= n < 65536 ==> size <= 4)
      && (!cfg.keepFlags && n >= 0 && abs[r] >= 0 && (n == abs[r] as int + 1 || n == abs[r] as int - 1) && n != 0xFFFF_FFFF ==> size == 1)
  {
    SetCosts(cfg, abs, r, n);
    UInt32Describes(n);
    SInt32Value(n);
    hide UInt32, SInt32, Select;
  }

  // ----- what the switches forbid -----

  ghost predicate NoPush(code: seq<Instr>) {
    forall i :: 0 <= i < |code| ==> !code[i].Push?
  }

  lemma {:induction false} RunKeepsMemory(env: Env, code: seq<Instr>, m: Machine)
    requires NoPush(code)
    ensures Run(env, code, m).mem == m.mem
    decreases |code|
  {
    hide RegsAfter, FlagsAfter;
    if code != [] {
      RunKeepsMemory(env, code[1..], Exec(env, code[0], m));
    }
  }

  /** `mov r, fs` and `xor r, r` appear only where the switches allow them. */
  ghost predicate SegmentsRight(cfg: Config, code: seq<Instr>) {
    forall i :: 0 <= i < |code| ==>
      && (code[i].MovFs? ==> cfg.zeroSeg || cfg.keepFlags)
      && (code[i].XorSelf? ==> !cfg.zeroSeg && !cfg.keepFlags)
  }

  /** Without `reg_stack` no `set` touches memory, and zeros come from fs only if that is switched on. */
  lemma {:induction false} SetHeedsSwitches(env: Env, cfg: Config, abs: Records, r: Reg, n: Literal, m: Machine)
    ensures !cfg.stack ==> Run(env, Select(cfg, abs, r, n).code, m).mem == m.mem
    ensures SegmentsRight(cfg, Select(cfg, abs, r, n).code)
  {
    SelectHeeds(cfg, abs, r, n, UInt32(n), SInt32(n));
    if !cfg.stack {
      RunKeepsMemory(env, Select(cfg, abs, r, n).code, m);
    }
  }

  ghost predicate Heeds(cfg: Config, code: seq<Instr>) {
    (!cfg.stack ==> NoPush(code)) && SegmentsRight(cfg, code)
  }

  lemma {:induction false} FromZeroHeeds(cfg: Config, v: Record, r: Reg, n: Literal, u: Record, s: int)
    requires u >= 0
    ensures Heeds(cfg, FromZeroRules(cfg, v, r, n, u, s).code)
  {
    hide Log2Floor, Log2Ceil, UDiv;
    assert Heeds(cfg, FromZeroLong(cfg, r, n, u, s).code);
    hide FromZeroLong;
    assert Heeds(cfg, FromZeroThree(cfg, r, n, u, s).code);
    hide FromZeroThree;
  }

  lemma {:induction false} ClearHeeds(cfg: Config, abs: Records, r: Reg, rest: seq<Instr>)
    requires Heeds(cfg, rest)
    ensures Heeds(cfg, ZeroCode(cfg, abs, r) + rest)
  {
  }

  lemma {:induction false} FreshHeeds(cfg: Config, abs: Records, r: Reg, n: Literal, u: Record, s: int)
    requires u >= 0
    ensures Heeds(cfg, SetFresh(cfg, abs, r, n, u, s).code)
  {
    var c := SetFresh(cfg, abs, r, n, u, s).code;
    hide UDiv;
    ClearHeeds(cfg, abs, r, [Inc(r)]);
    ClearHeeds(cfg, abs, r, [MovLow(r, n)]);
    ClearHeeds(cfg, abs, r, [MovHigh(r, UDiv(n, 256))]);
    ClearHeeds(cfg, abs, r, [Dec16(r)]);
    ClearHeeds(cfg, abs, r, [Dec(r), Das]);
    ClearHeeds(cfg, abs, r, [Dec(r), Aas]);
    ClearHeeds(cfg, abs, r, [Dec(r), Daa]);
    ClearHeeds(cfg, abs, r, [Dec(r), Aaa]);
    assert Heeds(cfg, [OrOnes(r)]) && Heeds(cfg, [Mov16(r, n)]) && Heeds(cfg, [MovImm(r, n)]);
    assert cfg.stack ==> Heeds(cfg, [Push(n), Pop(r)]);
    hide Heeds, ZeroCode;
  }

  lemma {:induction false} SelectHeeds(cfg: Config, abs: Records, r: Reg, n: Literal, u: Record, s: int)
    requires u >= 0
    ensures Heeds(cfg, SetRules(cfg, abs, r, n, u, s).code)
  {
    hide LastMatch, FromZeroRules, SetFresh;
    FromZeroHeeds(cfg, abs[r], r, n, u, s);
    FreshHeeds(cfg, abs, r, n, u, s);
  }
}
