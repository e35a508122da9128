/** The register macros as the assembler runs them: assembly-time variables reassigned line by line and
    instructions appended to the output. Each macro is proved against the selector's functions. */
module Assembler {
  import opened Basics
  import opened X86
  import opened Selector
  import opened Programs

  class Macros {
    const cfg: Config

    var vals: Records             // reg_eax_val and its seven companions
    var rsave: nat
    var code: seq<Instr>          // the output so far

    // results of int32, rget, reg_search and findzero
    var uint32: Record
    var sint32: int
    var regVal: Record
    var reg8bit: bool
    var reg16bit: bool
    var regNotNeg: bool
    var searchMatch: Option<Reg>
    var searchZero: Option<Reg>
    var regZero: Option<Reg>

    /** `rtaint`: nothing is known. */
    constructor (cfg: Config)
      ensures this.cfg == cfg && vals == UNKNOWN && rsave == 0 && code == []
      ensures forall r: Reg :: vals[r] == -1
    {
      this.cfg := cfg;
      vals, rsave, code := UNKNOWN, 0, [];
      uint32, sint32, regVal := 0, 0, 0;
      reg8bit, reg16bit, regNotNeg := false, false, false;
      searchMatch, searchZero, regZero := None, None, None;
    }

    /** `rinit`: a fresh Linux process starts with every general register but esp zero. */
    method Init()
      modifies this`vals
      ensures forall r: Reg :: vals[r] == if r == ESP then -1 else 0
      ensures forall regs: Regs :: (forall r: Reg :: r != ESP ==> regs[r] == 0) <==> Agrees(vals, regs)
    {
      vals := [0, 0, 0, 0, -1, 0, 0, 0];
    }

    method Int32(n: Literal)
      modifies this`uint32, this`sint32
      ensures uint32 == UInt32(n) && sint32 == SInt32(n)
    {
      if n < 0 {
        uint32 := TWO32 - n;
      } else {
        uint32 := UMod(n, 0xFFFF_FFFF);
      }
      if n > 0x7FFF_FFFF {
        sint32 := -UMod(0 - n, 0xFFFF_FFFF);
      } else {
        sint32 := n;
      }
    }

    method RGet(r: Reg)
      modifies this`regVal, this`reg8bit, this`reg16bit, this`regNotNeg
      ensures regVal == vals[r] && reg8bit == Fits8(regVal) && reg16bit == Fits16(regVal)
      ensures regNotNeg == NotNegative(regVal)
    {
      regVal := vals[r];
      var defined := regVal > -1;
      reg8bit := regVal == -2 || (defined && regVal < 256);
      reg16bit := regVal == -3 || reg8bit || (defined && regVal < 65536);
      regNotNeg := regVal == -4 || reg8bit || reg16bit || (defined && regVal < 0x8000_0000);
    }

    /** `reg_search`: later registers override earlier ones, first for zero, then for the value. */
    method RegSearch(v: Record)
      modifies this`searchMatch, this`searchZero
      ensures searchMatch == LastMatch(vals, v, 8) && searchZero == LastMatch(vals, 0, 8)
    {
      searchZero := None;
      for i := 0 to 8
        invariant searchZero == LastMatch(vals, 0, i)
      {
        if vals[SEARCH_ORDER[i]] == 0 {
          searchZero := Some(SEARCH_ORDER[i]);
        }
      }
      searchMatch := None;
      for i := 0 to 8
        invariant searchZero == LastMatch(vals, 0, 8) && searchMatch == LastMatch(vals, v, i)
      {
        if vals[SEARCH_ORDER[i]] == v {
          searchMatch := Some(SEARCH_ORDER[i]);
        }
      }
    }

    method FindZero()
      modifies this`regZero
      ensures regZero == FirstZero(vals, 0)
    {
      regZero := None;
      var i := 0;
      while i < 8 && vals[ZERO_ORDER[i]] != 0
        invariant 0 <= i <= 8
        invariant FirstZero(vals, i) == FirstZero(vals, 0)
      {
        i := i + 1;
      }
      if i < 8 {
        regZero := Some(ZERO_ORDER[i]);
      }
    }

    /** The output so far is some earlier output followed by `more`, and the records are those of `more`. */
    ghost predicate Appended(before: seq<Instr>, savedBefore: nat, more: Output)
      reads this`code, this`rsave, this`vals
    {
      code == before + more.code && rsave == savedBefore + more.saved && vals == more.abs
    }

    method Emit(c: seq<Instr>, saved: nat)
      modifies this`code, this`rsave
      ensures code == old(code) + c && rsave == old(rsave) + saved
    {
      code := code + c;
      rsave := rsave + saved;
    }

    /** The repeated part of `zero`, on one register. */
    method ZeroOne(r: Reg)
      modifies this`vals, this`code, this`regVal, this`reg8bit, this`reg16bit, this`regNotNeg
      ensures code == old(code) + ZeroCode(cfg, old(vals), r)
      ensures vals == old(vals)[r := 0]
    {
      RGet(EAX);
      var eaxNotNeg := regNotNeg;
      RGet(r);
      assert code + [] == code;
      if regVal == 0 {
      } else if r == EDX && eaxNotNeg {
        code := code + [Cdq];
      } else if cfg.zeroSeg || cfg.keepFlags {
        code := code + [MovFs(r)];
      } else {
        code := code + [XorSelf(r)];
      }
      vals := vals[r := 0];
    }

    /** The opening of `zero`: which of eax, ebx, ecx and edx are named and not yet zero. */
    method ZeroOpening(rs: seq<Reg>)
      modifies this`vals, this`code, this`regZero
      ensures code == old(code) + ZeroTogether(old(vals), rs).code
      ensures vals == ZeroTogether(old(vals), rs).abs
    {
      var eax, ebx, ecx, edx := false, false, false, false;
      for i := 0 to |rs|
        invariant eax == WantsZero(vals, rs[..i], EAX) && ebx == WantsZero(vals, rs[..i], EBX)
        invariant ecx == WantsZero(vals, rs[..i], ECX) && edx == WantsZero(vals, rs[..i], EDX)
      {
        assert rs[..i + 1] == rs[..i] + [rs[i]];
        if rs[i] == EAX && vals[EAX] != 0 {
          eax := true;
        } else if rs[i] == EBX && vals[EBX] != 0 {
          ebx := true;
        } else if rs[i] == ECX && vals[ECX] != 0 {
          ecx := true;
        } else if rs[i] == EDX && vals[EDX] != 0 {
          edx := true;
        }
      }
      assert rs[..|rs|] == rs;
      assert code + [] == code;
      FindZero();
      if eax && ebx && ecx && edx {
        code := code + [Lahf, Cpuid];
        vals := vals[EAX := 0][EBX := 0][ECX := 0][EDX := 0];
      } else if eax && edx && regZero.Some? {
        code := code + [Mul(regZero.value)];
        vals := vals[EAX := 0][EDX := 0];
      }
    }

    /** `zero` on one or more registers. */
    method ZeroRegs(rs: seq<Reg>)
      modifies this
      ensures Appended(old(code), old(rsave), AssembleStmt(cfg, old(vals), Zero(rs)))
      ensures rsave == old(rsave)
    {
      ZeroSavesNothing(cfg, ZeroTogether(vals, rs).abs, rs);
      assert ZeroTogether(vals, rs).saved == 0;
      assert AssembleStmt(cfg, vals, Zero(rs)) == Then(ZeroTogether(vals, rs), ZeroEach(cfg, ZeroTogether(vals, rs).abs, rs));
      hide ZeroTogether, ZeroEach, AssembleStmt;
      ghost var together := ZeroTogether(vals, rs);
      ZeroOpening(rs);
      assert together.saved == 0;
      ZeroOneByOne(rs);
      assert (old(code) + together.code) + ZeroEach(cfg, together.abs, rs).code ==
             old(code) + (together.code + ZeroEach(cfg, together.abs, rs).code);
    }

    /** The registers of `zero` one by one. */
    method ZeroOneByOne(rs: seq<Reg>)
      modifies this
      ensures code == old(code) + ZeroEach(cfg, old(vals), rs).code && vals == ZeroEach(cfg, old(vals), rs).abs
      ensures rsave == old(rsave)
    {
      hide ZeroCode;
      ghost var start := code;
      ghost var all := ZeroEach(cfg, vals, rs);
      assert rs[0..] == rs;
      for i := 0 to |rs|
        invariant rsave == old(rsave)
        invariant code + ZeroEach(cfg, vals, rs[i..]).code == start + all.code
        invariant ZeroEach(cfg, vals, rs[i..]).abs == all.abs
      {
        assert rs[i..][1..] == rs[i + 1..];
        ghost var rest := ZeroEach(cfg, vals[rs[i] := 0], rs[i + 1..]);
        ghost var one := ZeroCode(cfg, vals, rs[i]);
        assert code + (one + rest.code) == (code + one) + rest.code;
        ZeroOne(rs[i]);
      }
      assert code + [] == code;
    }

    method SetFz(r: Reg, n: Literal)
      modifies this
      ensures code == old(code) + SelectFromZero(cfg, old(vals[r]), r, n).code
      ensures rsave == old(rsave) + SelectFromZero(cfg, old(vals[r]), r, n).saved
      ensures vals == old(vals)[r := UInt32(n)]
    {
      hide UInt32, SInt32, UMod, UDiv, Log2Floor, Log2Ceil;
      Int32(n);
      RGet(r);
      var out: seq<Instr>, saved := [], 0;
      if regVal == uint32 {
      } else if n == 0 {
        out, saved := [], 5;
      } else if n == 1 && !cfg.keepFlags {
        out, saved := [Inc(r)], 4;
      } else if sint32 == -1 && !cfg.keepFlags {
        out, saved := [Dec(r)], 4;
      } else if HasParts(r) && uint32 < 256 {
        out, saved := [MovLow(r, n)], 3;
      } else if HasParts(r) && uint32 % 256 == 0 && uint32 >= 256 && uint32 < 65536 {
        out, saved := [MovHigh(r, UDiv(n, 256))], 3;
      } else if uint32 == 0xFFFF && !cfg.keepFlags {
        out, saved := [Dec16(r)], 3;
      } else if r != ESP && sint32 < 128 && sint32 > -129 {
        out, saved := [Lea(r, r, n)], 2;
      } else if HasParts(r) && sint32 < 0 && sint32 >= -256 && !cfg.keepFlags {
        out, saved := [Dec(r), MovLow(r, n % 256)], 2;
      } else if sint32 < 128 && sint32 > -129 && cfg.stack {
        out, saved := [Push(n), Pop(r)], 2;
      } else if sint32 < 128 && sint32 > -129 && !cfg.keepFlags {
        out, saved := [AddImm(r, n)], 2;
      } else if uint32 == 0x1_0000 && !cfg.keepFlags {
        out, saved := [Dec16(r), Inc(r)], 1;
      } else if uint32 == 0x100_0000 && !cfg.keepFlags {
        out, saved := [Inc(r), Bswap(r)], 1;
      } else if uint32 == 0x8000_0000 && !cfg.keepFlags {
        out, saved := [Inc(r), Ror1(r)], 2;
      } else if uint32 < 65536 {
        out, saved := [Mov16(r, n)], 1;
      } else if r == ESP && sint32 < 128 && sint32 > -129 {
        out, saved := [Lea(r, r, n)], 1;
      } else if HasParts(r) && uint32 % 0x100_0000 == 0 {
        out, saved := [MovLow(r, UDiv(n, 0x100_0000)), Bswap(r)], 1;
      } else if HasParts(r) && uint32 % 0x1_0000 == 0 && uint32 <= 0xFF_0000 {
        out, saved := [MovHigh(r, UDiv(n, 0x1_0000)), Bswap(r)], 1;
      } else if Log2Floor(uint32) == Log2Ceil(uint32) && !cfg.keepFlags {
        out, saved := [Inc(r), Shl(r, Log2Floor(uint32))], 1;
      } else if uint32 == 0xFFFF_0000 && !cfg.keepFlags {
        out, saved := [Dec16(r), Bswap(r)], 1;
      } else {
        out, saved := [MovImm(r, n)], 0;
      }
      assert Choice(out, saved) == FromZeroRules(cfg, regVal, r, n, uint32, sint32);
      Emit(out, saved);
      vals := vals[r := uint32];
    }

    /** `set` with a number: the chosen code, of exactly the bytes its cost says. */
    method Set(r: Reg, n: Literal)
      modifies this
      ensures code == old(code) + Select(cfg, old(vals), r, n).code
      ensures rsave == old(rsave) + Select(cfg, old(vals), r, n).saved
      ensures (CodeSize(code[|old(code)|..]), rsave - old(rsave)) == SetCost(cfg, old(vals), r, n)
      ensures vals == old(vals)[r := UInt32(n)]
    {
      hide UInt32, SInt32, UMod, UDiv, LastMatch, FromZeroRules, SetFresh, ZeroCode, Fits8, Fits16, NotNegative;
      Int32(n);
      RGet(r);
      searchMatch, searchZero := None, None;
      if cfg.search {
        RegSearch(uint32);
      }
      var u, s := uint32, sint32;
      if regVal == u {
        assert code + [] == code;
      } else if regVal == 0 {
        SetFz(r, n);
      } else {
        SetFromRecords(r, n, u, s);
      }
      vals := vals[r := u];
      SetCosts(cfg, old(vals), r, n);
      hide SetCost, CodeSize, Select;
      assert code[|old(code)|..] == Select(cfg, old(vals), r, n).code;
    }

    /** The rules of `set` that use the recorded value of r or of another register. */
    method SetFromRecords(r: Reg, n: Literal, u: Record, s: int)
      requires u >= 0 && vals[r] != u && vals[r] != 0
      requires searchMatch == (if cfg.search then LastMatch(vals, u, 8) else None)
      requires searchZero == (if cfg.search then LastMatch(vals, 0, 8) else None)
      modifies this
      ensures code == old(code) + SetRules(cfg, old(vals), r, n, u, s).code
      ensures rsave == old(rsave) + SetRules(cfg, old(vals), r, n, u, s).saved
      ensures vals == old(vals) || vals == old(vals)[r := 0]
    {
      hide UInt32, SInt32, UMod, UDiv, LastMatch, FromZeroRules, SetFresh, ZeroCode;
      RGet(r);
      var v, delta: int := regVal, u as int - regVal;
      if v > -1 && delta == 1 && !cfg.keepFlags {
        Emit([Inc(r)], 0);
      } else if v > -1 && delta == -1 && !cfg.keepFlags {
        Emit([Dec(r)], 0);
      } else if searchMatch.Some? {
        if searchMatch.value != ESP && searchMatch.value != EBP {
          Emit([Lea(r, searchMatch.value, 0)], 3);
        } else {
          Emit([MovReg(r, searchMatch.value)], 3);
        }
      } else if n == 0 {
        ZeroOne(r);
        rsave := rsave + 3;
      } else if HasParts(r) && reg8bit && u < 256 {
        Emit([MovLow(r, n)], 0);
      } else if searchZero.Some? && r != ESP && s < 128 && s > -129 {
        Emit([Lea(r, searchZero.value, n)], 2);
      } else {
        SetFreshly(r, n, u, s);
      }
    }

    /** The rules of `set` that use no recorded value of another register, in the source's order. */
    method SetFreshly(r: Reg, n: Literal, u: Record, s: int)
      requires u >= 0
      modifies this
      ensures code == old(code) + SetFresh(cfg, old(vals), r, n, u, s).code
      ensures rsave == old(rsave) + SetFresh(cfg, old(vals), r, n, u, s).saved
      ensures vals == old(vals) || vals == old(vals)[r := 0]
    {
      hide UDiv, ZeroCode, SetLong;
      if n == 1 && !cfg.keepFlags {
        ClearThenEmit(r, [Inc(r)], 2);
      } else if s == -1 && !cfg.keepFlags {
        Emit([OrOnes(r)], 2);
      } else if s < 128 && s > -129 && cfg.stack {
        Emit([Push(n), Pop(r)], 2);
      } else if HasParts(r) && u < 256 {
        ClearThenEmit(r, [MovLow(r, n)], 1);
      } else if HasParts(r) && u % 256 == 0 && u >= 256 && u < 65536 {
        ClearThenEmit(r, [MovHigh(r, UDiv(n, 256))], 1);
      } else if u == 0xFFFF && !cfg.keepFlags {
        ClearThenEmit(r, [Dec16(r)], 1);
      } else {
        SetLongly(r, n, u, s);
      }
    }

    /** The last of these rules. */
    method SetLongly(r: Reg, n: Literal, u: Record, s: int)
      requires u >= 0
      modifies this
      ensures code == old(code) + SetLong(cfg, old(vals), r, n, u, s).code
      ensures rsave == old(rsave) + SetLong(cfg, old(vals), r, n, u, s).saved
      ensures vals == old(vals) || vals == old(vals)[r := 0]
    {
      hide ZeroCode, Fits8, NotNegative;
      RGet(r);
      if r == EAX && s == -103 && !cfg.keepFlags {
        ClearThenEmit(r, [Dec(r), Das], 1);
      } else if r == EAX && s == -503 && !cfg.keepFlags {
        ClearThenEmit(r, [Dec(r), Aas], 1);
      } else if r == EAX && s == -155 && !cfg.keepFlags {
        ClearThenEmit(r, [Dec(r), Daa], 1);
      } else if r == EAX && s == -65275 && !cfg.keepFlags {
        ClearThenEmit(r, [Dec(r), Aaa], 1);
      } else if reg16bit && u < 65536 {
        Emit([Mov16(r, n)], 1);
      } else {
        Emit([MovImm(r, n)], 0);
      }
    }

    /** `zero` on the target, then the rest of a sequence. */
    method ClearThenEmit(r: Reg, rest: seq<Instr>, saved: nat)
      modifies this
      ensures code == old(code) + (ZeroCode(cfg, old(vals), r) + rest) && rsave == old(rsave) + saved
      ensures vals == old(vals)[r := 0]
    {
      ghost var clear := ZeroCode(cfg, vals, r);
      assert code + (clear + rest) == (code + clear) + rest;
      ZeroOne(r);
      Emit(rest, saved);
    }

    /** `set` with a register, and `rmov`. */
    method SetFromReg(r: Reg, src: Reg)
      modifies this
      ensures Appended(old(code), old(rsave), CopyReg(old(vals), r, src))
    {
      if r != src {
        code := code + [MovReg(r, src)];
        RGet(src);
        vals := vals[r := regVal];
      }
    }

    method Ychg(r: Reg, s: Reg)
      modifies this
      ensures Appended(old(code), old(rsave), AssembleStmt(cfg, old(vals), Exchange(r, s)))
    {
      RGet(r);
      var val1 := regVal;
      RGet(s);
      var val2 := regVal;
      vals := vals[r := val2];
      vals := vals[s := val1];
      code := code + [Xchg(r, s)];
    }

    method TaintRegs(rs: seq<Reg>)
      modifies this`vals
      ensures vals == TaintAll(old(vals), rs)
      ensures forall r: Reg :: vals[r] == if r in rs then -1 else old(vals)[r]
    {
      forall r: Reg ensures TaintAll(vals, rs)[r] == if r in rs then -1 else vals[r] {
        TaintRecords(vals, rs, r);
      }
      for i := 0 to |rs|
        invariant TaintAll(vals, rs[i..]) == TaintAll(old(vals), rs)
      {
        assert rs[i..][1..] == rs[i + 1..];
        vals := vals[rs[i] := -1];
      }
    }

    method ScParam(r: Reg, a: Arg)
      modifies this
      ensures Appended(old(code), old(rsave), Param(cfg, old(vals), r, a))
    {
      match a
      case Keep =>
      case Imm(n) => Set(r, n);
      case From(src) => SetFromReg(r, src);
      case Popped => code := code + [Pop(r)];
    }

    /** The arguments of a system call, in order. */
    method ScParams(args: Args)
      modifies this
      ensures Appended(old(code), old(rsave), Params(cfg, old(vals), args, 0))
    {
      hide SetNum, Param;
      ghost var params := Params(cfg, vals, args, 0);
      for k := 0 to |args|
        invariant code + Params(cfg, vals, args, k).code == old(code) + params.code
        invariant rsave + Params(cfg, vals, args, k).saved == old(rsave) + params.saved
        invariant Params(cfg, vals, args, k).abs == params.abs
      {
        ghost var first := Param(cfg, vals, ARG_REGS[k], args[k]);
        ghost var rest := Params(cfg, first.abs, args, k + 1);
        assert code + (first.code + rest.code) == (code + first.code) + rest.code;
        ScParam(ARG_REGS[k], args[k]);
      }
      assert code + [] == code;
    }

    /** `syscall`: number, arguments in order, `int 0x80`, and eax becomes unknown. */
    method EmitSyscall(nr: Literal, args: Args)
      modifies this
      ensures Appended(old(code), old(rsave), AssembleStmt(cfg, old(vals), Syscall(nr, args)))
    {
      hide Select, Params, UInt32;
      Set(EAX, nr);
      ScParams(args);
      ghost var number := SetNum(cfg, old(vals), EAX, nr);
      ghost var params := Params(cfg, number.abs, args, 0);
      assert (old(code) + number.code + params.code) + [Int80] == old(code) + (number.code + params.code + [Int80]);
      code := code + [Int80];
      vals := vals[EAX := -1];
    }

    /** One macro call. */
    method Statement(st: Stmt)
      modifies this
      ensures Appended(old(code), old(rsave), AssembleStmt(cfg, old(vals), st))
    {
      hide Select, ZeroTogether, ZeroEach, Params;
      assert code + [] == code;
      match st {
        case Set(r, n) => Set(r, n);
        case Copy(r, src) => SetFromReg(r, src);
        case Zero(rs) => ZeroRegs(rs);
        case Exchange(r, s) => Ychg(r, s);
        case Taint(rs) => TaintRegs(rs);
        case Syscall(nr, args) => EmitSyscall(nr, args);
        case PushNum(n) => code := code + [Push(n)];
      }
    }

    /** A whole program, macro by macro. If it is safe, what was appended does what the program means, from every
        machine the records described at the start, and the records describe the outcome. */
    method Program(prog: seq<Stmt>)
      modifies this
      ensures Appended(old(code), old(rsave), Assemble(cfg, old(vals), prog))
      ensures code[..|old(code)|] == old(code) && rsave >= old(rsave)
      ensures forall env, m: Machine, v ::
        Agrees(old(vals), m.regs) && Shows(m, v) && Safe(cfg, old(vals), |v.stack|, prog) ==>
        var m' := Run(env, code[|old(code)|..], m);
        Shows(m', Meaning(env, prog, v)) && Agrees(vals, m'.regs)
    {
      hide AssembleStmt, Agrees, Shows, Meaning, Safe, Run;
      ghost var all := Assemble(cfg, vals, prog);
      assert prog[0..] == prog;
      for i := 0 to |prog|
        invariant code + Assemble(cfg, vals, prog[i..]).code == old(code) + all.code
        invariant rsave + Assemble(cfg, vals, prog[i..]).saved == old(rsave) + all.saved
        invariant Assemble(cfg, vals, prog[i..]).abs == all.abs
      {
        ghost var first := AssembleStmt(cfg, vals, prog[i]);
        assert prog[i..][1..] == prog[i + 1..];
        ghost var rest := Assemble(cfg, first.abs, prog[i + 1..]);
        assert code + (first.code + rest.code) == (code + first.code) + rest.code;
        Statement(prog[i]);
      }
      assert code + [] == code;
      assert code[|old(code)|..] == all.code;
      forall env, m: Machine, v | Agrees(old(vals), m.regs) && Shows(m, v) && Safe(cfg, old(vals), |v.stack|, prog)
        ensures Realises(env, Output(code[|old(code)|..], vals, 0), m, Meaning(env, prog, v))
      {
        AssembleCorrect(env, cfg, old(vals), prog, m, v);
      }
    }
  }
}
