/** Programs written with the register macros, what they mean, and the proof that assembling them
    preserves that meaning. */
module Programs {
  import opened Basics
  import opened X86
  import opened Selector

  /** An argument of a system call: omitted, a number, another register, or `pop`. */
  datatype Arg = Keep | Imm(n: Literal) | From(src: Reg) | Popped

  datatype Stmt =
    | Set(r: Reg, n: Literal)
    | Copy(r: Reg, src: Reg)
    | Zero(rs: seq<Reg>)
    | Exchange(r: Reg, s: Reg)
    | Taint(rs: seq<Reg>)
    | Syscall(nr: Literal, args: Args)
    | PushNum(n: Literal)               // a bare push between two macro calls

  type Args = s: seq<Arg> | |s| <= 6 witness []

  const ARG_REGS: seq<Reg> := [EBX, ECX, EDX, ESI, EDI, EBP]

  /** What the assembler has when it is done: the code, its records and the bytes it counted as saved. */
  datatype Output = Output(code: seq<Instr>, abs: Records, saved: nat)

  /** One output after another. */
  function Then(a: Output, b: Output): Output {
    Output(a.code + b.code, b.abs, a.saved + b.saved)
  }

  // ----- assembling -----

  predicate WantsZero(abs: Records, rs: seq<Reg>, r: Reg) {
    r in rs && abs[r] != 0
  }

  /** `zero` on several registers uses cpuid when eax, ebx, ecx and edx all need it. */
  predicate UsesCpuid(abs: Records, rs: seq<Reg>) {
    WantsZero(abs, rs, EAX) && WantsZero(abs, rs, EBX) && WantsZero(abs, rs, ECX) && WantsZero(abs, rs, EDX)
  }

  /** What `zero` emits before it looks at its registers one by one. */
  function ZeroTogether(abs: Records, rs: seq<Reg>): Output {
    var zero := FirstZero(abs, 0);
    if UsesCpuid(abs, rs) then Output([Lahf, Cpuid], abs[EAX := 0][EBX := 0][ECX := 0][EDX := 0], 0)
    else if WantsZero(abs, rs, EAX) && WantsZero(abs, rs, EDX) && zero.Some? then
      Output([Mul(zero.value)], abs[EAX := 0][EDX := 0], 0)
    else Output([], abs, 0)
  }

  function ZeroEach(cfg: Config, abs: Records, rs: seq<Reg>): Output
    decreases |rs|
  {
    if rs == [] then Output([], abs, 0)
    else Then(Output(ZeroCode(cfg, abs, rs[0]), abs[rs[0] := 0], 0), ZeroEach(cfg, abs[rs[0] := 0], rs[1..]))
  }

  function TaintAll(abs: Records, rs: seq<Reg>): Records
    decreases |rs|
  {
    if rs == [] then abs else TaintAll(abs[rs[0] := -1], rs[1..])
  }

  function SetNum(cfg: Config, abs: Records, r: Reg, n: Literal): Output {
    var c := Select(cfg, abs, r, n);
    Output(c.code, abs[r := UInt32(n)], c.saved)
  }

  function CopyReg(abs: Records, r: Reg, src: Reg): Output {
    if r == src then Output([], abs, 0) else Output([MovReg(r, src)], abs[r := abs[src]], 0)
  }

  /** `sc_param`; a `pop` leaves the records as they are. */
  function Param(cfg: Config, abs: Records, r: Reg, a: Arg): Output {
    match a
    case Keep => Output([], abs, 0)
    case Imm(n) => SetNum(cfg, abs, r, n)
    case From(src) => CopyReg(abs, r, src)
    case Popped => Output([Pop(r)], abs, 0)
  }

  /** The arguments from position k on. */
  function Params(cfg: Config, abs: Records, args: Args, k: nat): Output
    requires k <= |args|
    decreases |args| - k
  {
    if k == |args| then Output([], abs, 0)
    else
      var first := Param(cfg, abs, ARG_REGS[k], args[k]);
      Then(first, Params(cfg, first.abs, args, k + 1))
  }

  /** Number and arguments of a system call, up to the trap. */
  function Request(cfg: Config, abs: Records, nr: Literal, args: Args): Output {
    var number := SetNum(cfg, abs, EAX, nr);
    Then(number, Params(cfg, number.abs, args, 0))
  }

  function AssembleStmt(cfg: Config, abs: Records, st: Stmt): Output {
    match st
    case Set(r, n) => SetNum(cfg, abs, r, n)
    case Copy(r, src) => CopyReg(abs, r, src)
    case Zero(rs) =>
      var together := ZeroTogether(abs, rs);
      Then(together, ZeroEach(cfg, together.abs, rs))
    case Exchange(r, s) => Output([Xchg(r, s)], abs[r := abs[s]][s := abs[r]], 0)
    case Taint(rs) => Output([], TaintAll(abs, rs), 0)
    case Syscall(nr, args) =>
      var request := Request(cfg, abs, nr, args);
      Then(request, Output([Int80], request.abs[EAX := -1], 0))
    case PushNum(n) => Output([Push(n)], abs, 0)
  }

  function Assemble(cfg: Config, abs: Records, prog: seq<Stmt>): Output
    decreases |prog|
  {
    if prog == [] then Output([], abs, 0)
    else
      var first := AssembleStmt(cfg, abs, prog[0]);
      Then(first, Assemble(cfg, first.abs, prog[1..]))
  }

  // ----- meaning -----

  /** What a program can observe: the registers, the system calls made so far, and the words on the stack
      that it may still pop. */
  datatype View = View(regs: Regs, traps: seq<Regs>, stack: seq<Word>)

  /** New register contents. A macro that names esp as a target leaves nothing to rely on above it. */
  function Written(v: View, regs: Regs, namesEsp: bool): View {
    View(regs, v.traps, if namesEsp then [] else v.stack)
  }

  function ZeroMeaning(regs: Regs, rs: seq<Reg>): Regs
    decreases |rs|
  {
    if rs == [] then regs else ZeroMeaning(regs[rs[0] := 0], rs[1..])
  }

  function ParamMeaning(v: View, r: Reg, a: Arg): View {
    match a
    case Keep => v
    case Imm(n) => Written(v, v.regs[r := Wrap(n)], r == ESP)
    case From(src) => Written(v, v.regs[r := v.regs[src]], r == ESP)
    case Popped =>
      if v.stack == [] then v
      else View(v.regs[ESP := Wrap(v.regs[ESP] as int + 4)][r := v.stack[0]], v.traps, v.stack[1..])
  }

  function ParamsMeaning(v: View, args: Args, k: nat): View
    requires k <= |args|
    decreases |args| - k
  {
    if k == |args| then v else ParamsMeaning(ParamMeaning(v, ARG_REGS[k], args[k]), args, k + 1)
  }

  /** What the kernel is to see: the number, then the arguments in order. */
  function RequestMeaning(v: View, nr: Literal, args: Args): View {
    ParamsMeaning(v.(regs := v.regs[EAX := Wrap(nr)]), args, 0)
  }

  function StmtMeaning(env: Env, st: Stmt, v: View): View {
    match st
    case Set(r, n) => Written(v, v.regs[r := Wrap(n)], r == ESP)
    case Copy(r, src) => Written(v, v.regs[r := v.regs[src]], r == ESP)
    case Zero(rs) => Written(v, ZeroMeaning(v.regs, rs), ESP in rs)
    case Exchange(r, s) => Written(v, v.regs[r := v.regs[s]][s := v.regs[r]], r == ESP || s == ESP)
    case Taint(_) => v
    case Syscall(nr, args) =>
      var request := RequestMeaning(v, nr, args);
      var traps := v.traps + [request.regs];
      View(request.regs[EAX := env.kernel(traps)], traps, request.stack)
    case PushNum(n) => View(v.regs[ESP := Wrap(v.regs[ESP] as int - 4)], v.traps, [Wrap(n)] + v.stack)
  }

  function Meaning(env: Env, prog: seq<Stmt>, v: View): View
    decreases |prog|
  {
    if prog == [] then v else Meaning(env, prog[1..], StmtMeaning(env, prog[0], v))
  }

  // ----- hazards a program can be checked for while it is assembled -----

  /** A `pop` argument keeps the records right from every machine they describe: see PopSafeIff. */
  predicate Untracked(abs: Records, r: Reg) {
    abs[r] == -1 && abs[ESP] == -1
  }

  /** As many words as the program may still pop fit above the stack pointer. */
  const STACK_LIMIT := 0x4000_0000

  predicate ParamSafe(cfg: Config, abs: Records, depth: nat, r: Reg, a: Arg) {
    match a
    case Imm(n) => !Hazard(cfg, abs, r, n)
    case Popped => depth > 0 && Untracked(abs, r)
    case _ => true
  }

  function ParamDepth(depth: nat, a: Arg): nat {
    if a.Popped? && depth > 0 then depth - 1 else depth
  }

  predicate ParamsSafe(cfg: Config, abs: Records, depth: nat, args: Args, k: nat)
    requires k <= |args|
    decreases |args| - k
  {
    k == |args| ||
    (&& ParamSafe(cfg, abs, depth, ARG_REGS[k], args[k])
     && ParamsSafe(cfg, Param(cfg, abs, ARG_REGS[k], args[k]).abs, ParamDepth(depth, args[k]), args, k + 1))
  }

  predicate StmtSafe(cfg: Config, abs: Records, depth: nat, st: Stmt) {
    match st
    case Set(r, n) => !Hazard(cfg, abs, r, n)
    case Zero(rs) => !UsesCpuid(abs, rs)
    case Syscall(nr, args) =>
      !Hazard(cfg, abs, EAX, nr) && ParamsSafe(cfg, SetNum(cfg, abs, EAX, nr).abs, depth, args, 0)
    case PushNum(_) => abs[ESP] == -1 && depth + 1 < STACK_LIMIT
    case _ => true
  }

  function ParamsDepth(depth: nat, args: Args, k: nat): nat
    requires k <= |args|
    decreases |args| - k
  {
    if k == |args| then depth else ParamsDepth(ParamDepth(depth, args[k]), args, k + 1)
  }

  /** How many words can still be popped after a macro call, when depth words could be before. */
  function StmtDepth(depth: nat, st: Stmt): nat {
    match st
    case Set(r, _) => if r == ESP then 0 else depth
    case Copy(r, _) => if r == ESP then 0 else depth
    case Zero(rs) => if ESP in rs then 0 else depth
    case Exchange(r, s) => if r == ESP || s == ESP then 0 else depth
    case Taint(_) => depth
    case Syscall(_, args) => ParamsDepth(depth, args, 0)
    case PushNum(_) => depth + 1
  }

  /** The check an assembler could make: no hazard, no cpuid form, and no `pop` or `push` but of words the
      program has and past records that say nothing. */
  predicate Safe(cfg: Config, abs: Records, depth: nat, prog: seq<Stmt>)
    decreases |prog|
  {
    prog == [] ||
    (&& StmtSafe(cfg, abs, depth, prog[0])
     && Safe(cfg, AssembleStmt(cfg, abs, prog[0]).abs, StmtDepth(depth, prog[0]), prog[1..]))
  }

  /** Literals that no history of records can make go wrong. */
  predicate Plain(n: Literal) {
    0 <= n < 0xFFFF_FFFF
  }

  // ----- correctness -----

  ghost predicate OnStack(m: Machine, s: seq<Word>) {
    |s| < STACK_LIMIT && forall i :: 0 <= i < |s| ==> Load(m.mem, Wrap(m.regs[ESP] as int + 4 * i)) == s[i]
  }

  ghost predicate Shows(m: Machine, v: View) {
    m.regs == v.regs && m.traps == v.traps && OnStack(m, v.stack)
  }

  /** The output drives the machine to the wanted view, and its records describe the result. */
  ghost predicate Realises(env: Env, out: Output, m: Machine, want: View) {
    var m' := Run(env, out.code, m);
    Shows(m', want) && Agrees(out.abs, m'.regs)
  }

  lemma {:induction false} Sequence(env: Env, a: Output, b: Output, m: Machine, want: View)
    requires Realises(env, b, Run(env, a.code, m), want)
    ensures Realises(env, Then(a, b), m, want)
  {
    RunAppend(env, a.code, b.code, m);
  }

  /** Stack addresses around the wrap: one word up, one word down, and no two of a stack alike. */
  lemma {:induction false} WrapSteps(e: Word, i: int)
    ensures Wrap(Wrap(e as int + 4) as int + 4 * i) == Wrap(e as int + 4 * (i + 1))
    ensures Wrap(Wrap(e as int - 4) as int + 4 * i) == Wrap(e as int + 4 * (i - 1))
    ensures Wrap(e) == e
    ensures 0 < i < STACK_LIMIT ==> Wrap(e as int + 4 * i) != e
  {
    WrapSum(e as int + 4, 4 * i);
    WrapSum(e as int - 4, 4 * i);
    if 0 < i < STACK_LIMIT {
      WrapApart(e, 4 * i);
    }
    hide Wrap;
    assert Wrap(e) == e by {
      WrapWord(e);
    }
  }

  lemma {:induction false} WrapApart(e: Word, d: int)
    requires 0 < d < TWO32
    ensures Wrap(e as int + d) != e
  {
  }

  lemma {:induction false} StackKept(m: Machine, m': Machine, s: seq<Word>)
    requires OnStack(m, s) && m'.regs[ESP] == m.regs[ESP]
    requires forall a: Word :: a != Wrap(m.regs[ESP] as int - 4) ==> Load(m'.mem, a) == Load(m.mem, a)
    ensures OnStack(m', s)
  {
    forall i | 0 <= i < |s| ensures Load(m'.mem, Wrap(m'.regs[ESP] as int + 4 * i)) == s[i] {
      assert Load(m.mem, Wrap(m.regs[ESP] as int + 4 * i)) == s[i];
    }
  }

  lemma {:induction false} SetRealises(env: Env, cfg: Config, abs: Records, r: Reg, n: Literal, m: Machine, v: View)
    requires Agrees(abs, m.regs) && Shows(m, v) && !Hazard(cfg, abs, r, n)
    ensures Realises(env, SetNum(cfg, abs, r, n), m, Written(v, v.regs[r := Wrap(n)], r == ESP))
  {
    hide Select;
    SetCorrectIff(env, cfg, abs, r, n, m);
    if r != ESP {
      StackKept(m, Run(env, Select(cfg, abs, r, n).code, m), v.stack);
    }
  }

  lemma {:induction false} CopyRealises(env: Env, abs: Records, r: Reg, src: Reg, m: Machine, v: View)
    requires Agrees(abs, m.regs) && Shows(m, v)
    ensures Realises(env, CopyReg(abs, r, src), m, Written(v, v.regs[r := v.regs[src]], r == ESP))
  {
    if r == src {
      assert m.regs[r := m.regs[src]] == m.regs;
    } else {
      Run1(env, MovReg(r, src), m);
      assert Describes(abs[src], m.regs[src]);
      if r != ESP {
        StackKept(m, Exec(env, MovReg(r, src), m), v.stack);
      }
    }
  }

  /** Machines that differ only as the code `zero` emits makes them differ. */
  ghost predicate Cleared(m: Machine, m': Machine, rs: seq<Reg>) {
    m'.regs == ZeroMeaning(m.regs, rs) && m'.mem == m.mem && m'.traps == m.traps
  }

  lemma {:induction false} ZeroEachClears(env: Env, cfg: Config, abs: Records, rs: seq<Reg>, m: Machine)
    requires Agrees(abs, m.regs)
    ensures var out := ZeroEach(cfg, abs, rs);
      var m' := Run(env, out.code, m);
      Cleared(m, m', rs) && Agrees(out.abs, m'.regs)
    decreases |rs|
  {
    if rs != [] {
      var code := ZeroCode(cfg, abs, rs[0]);
      ZeroSound(env, cfg, abs, rs[0], m);
      var m1 := Run(env, code, m);
      ZeroEachClears(env, cfg, abs[rs[0] := 0], rs[1..], m1);
      RunAppend(env, code, ZeroEach(cfg, abs[rs[0] := 0], rs[1..]).code, m);
    }
  }

  /** With nothing recorded about esp, and about r if it changes, the records hold as before. */
  lemma {:induction false} EspUnrecorded(abs: Records, regs: Regs, regs': Regs, r: Reg)
    requires Agrees(abs, regs) && abs[ESP] == -1 && abs[r] == -1
    requires forall q: Reg :: q != ESP && q != r ==> regs'[q] == regs[q]
    ensures Agrees(abs, regs')
  {
    forall q: Reg ensures Describes(abs[q], regs'[q]) {
      assert Describes(abs[q], regs[q]);
    }
  }

  lemma {:induction false} StackPopped(m: Machine, m': Machine, s: seq<Word>)
    requires OnStack(m, s) && s != [] && m'.mem == m.mem && m'.regs[ESP] == Wrap(m.regs[ESP] as int + 4)
    ensures Load(m.mem, m.regs[ESP]) == s[0] && OnStack(m', s[1..])
  {
    var e := m.regs[ESP];
    assert Wrap(e as int + 4 * 0) == e;
    hide Load;
    forall i | 0 <= i < |s| - 1 ensures Load(m'.mem, Wrap(m'.regs[ESP] as int + 4 * i)) == s[1..][i] {
      WrapSteps(e, i);
      hide Wrap;
      assert Load(m.mem, Wrap(e as int + 4 * (i + 1))) == s[i + 1];
    }
  }

  lemma {:induction false} StackPushed(m: Machine, m': Machine, s: seq<Word>, x: Word)
    requires OnStack(m, s) && |s| + 1 < STACK_LIMIT
    requires m'.regs[ESP] == Wrap(m.regs[ESP] as int - 4) && m'.mem == m.mem[m'.regs[ESP] := x]
    ensures OnStack(m', [x] + s)
  {
    var e, e' := m.regs[ESP], m'.regs[ESP];
    forall i | 0 <= i < |s| + 1 ensures Load(m'.mem, Wrap(e' as int + 4 * i)) == ([x] + s)[i] {
      WrapSteps(e', i);
      WrapSteps(e, i);
      hide Wrap;
      if i == 0 {
        assert Load(m'.mem, e') == x;
      } else {
        assert Load(m.mem, Wrap(e as int + 4 * (i - 1))) == s[i - 1];
      }
    }
  }

  /** A `pop` argument of a word the program has, with nothing recorded for its target and for esp. */
  lemma {:induction false} PopRealises(env: Env, cfg: Config, abs: Records, r: Reg, m: Machine, v: View)
    requires Agrees(abs, m.regs) && Shows(m, v) && v.stack != [] && r != ESP && Untracked(abs, r)
    ensures Realises(env, Param(cfg, abs, r, Popped), m, ParamMeaning(v, r, Popped))
  {
    Run1(env, Pop(r), m);
    var m' := Exec(env, Pop(r), m);
    assert m'.regs == m.regs[ESP := Wrap(m.regs[ESP] as int + 4)][r := Load(m.mem, m.regs[ESP])];
    hide Run, Exec, Wrap, Agrees, OnStack;
    StackPopped(m, m', v.stack);
    EspUnrecorded(abs, m.regs, m'.regs, r);
  }

  /** A word pushed becomes the first to pop. */
  lemma {:induction false} PushRealises(env: Env, cfg: Config, abs: Records, n: Literal, m: Machine, v: View)
    requires Agrees(abs, m.regs) && Shows(m, v) && abs[ESP] == -1 && |v.stack| + 1 < STACK_LIMIT
    ensures Realises(env, AssembleStmt(cfg, abs, PushNum(n)), m, StmtMeaning(env, PushNum(n), v))
  {
    Run1(env, Push(n), m);
    var m' := Exec(env, Push(n), m);
    assert m'.regs == m.regs[ESP := Wrap(m.regs[ESP] as int - 4)] && m'.mem == m.mem[m'.regs[ESP] := Wrap(n)];
    hide Run, Exec, Wrap, Agrees, OnStack;
    StackPushed(m, m', v.stack, Wrap(n));
    EspUnrecorded(abs, m.regs, m'.regs, ESP);
  }

  lemma {:induction false} ParamRealises(env: Env, cfg: Config, abs: Records, r: Reg, a: Arg, m: Machine, v: View)
    requires Agrees(abs, m.regs) && Shows(m, v) && r != ESP && ParamSafe(cfg, abs, |v.stack|, r, a)
    ensures Realises(env, Param(cfg, abs, r, a), m, ParamMeaning(v, r, a))
    ensures |ParamMeaning(v, r, a).stack| == ParamDepth(|v.stack|, a)
  {
    match a
    case Keep =>
    case Imm(n) => SetRealises(env, cfg, abs, r, n, m, v);
    case From(src) => CopyRealises(env, abs, r, src, m, v);
    case Popped => PopRealises(env, cfg, abs, r, m, v);
  }

  lemma {:induction false} ParamsRealise(env: Env, cfg: Config, abs: Records, args: Args, k: nat, m: Machine, v: View)
    requires k <= |args| && Agrees(abs, m.regs) && Shows(m, v) && ParamsSafe(cfg, abs, |v.stack|, args, k)
    ensures Realises(env, Params(cfg, abs, args, k), m, ParamsMeaning(v, args, k))
    ensures |ParamsMeaning(v, args, k).stack| == ParamsDepth(|v.stack|, args, k)
    decreases |args| - k
  {
    hide Param, ParamMeaning, Agrees, Shows, ParamSafe;
    if k < |args| {
      ParamRealises(env, cfg, abs, ARG_REGS[k], args[k], m, v);
      var first := Param(cfg, abs, ARG_REGS[k], args[k]);
      ParamsRealise(env, cfg, first.abs, args, k + 1, Run(env, first.code, m), ParamMeaning(v, ARG_REGS[k], args[k]));
      Sequence(env, first, Params(cfg, first.abs, args, k + 1), m, ParamsMeaning(v, args, k));
    }
  }

  lemma {:induction false} ZeroMeaningAt(regs: Regs, rs: seq<Reg>, r: Reg)
    ensures ZeroMeaning(regs, rs)[r] == if r in rs then 0 else regs[r]
    decreases |rs|
  {
    if rs != [] {
      ZeroMeaningAt(regs[rs[0] := 0], rs[1..], r);
    }
  }

  /** Clearing some of the registers beforehand does not change what clearing all of them means. */
  lemma {:induction false} ZeroBeforehand(regs: Regs, regs': Regs, rs: seq<Reg>)
    requires forall r: Reg :: regs'[r] == regs[r] || r in rs
    ensures ZeroMeaning(regs', rs) == ZeroMeaning(regs, rs)
  {
    forall r: Reg ensures ZeroMeaning(regs', rs)[r] == ZeroMeaning(regs, rs)[r] {
      ZeroMeaningAt(regs, rs, r);
      ZeroMeaningAt(regs', rs, r);
    }
  }

  /** One multiplication by a register known to be zero clears eax and edx. */
  lemma {:induction false} MulByZero(env: Env, abs: Records, z: Reg, m: Machine)
    requires Agrees(abs, m.regs) && abs[z] == 0
    ensures var m' := Run(env, [Mul(z)], m);
      && m'.regs == m.regs[EAX := 0][EDX := 0] && m'.mem == m.mem && m'.traps == m.traps
      && Agrees(abs[EAX := 0][EDX := 0], m'.regs)
  {
    assert Describes(abs[z], m.regs[z]);
    Run1(env, Mul(z), m);
  }

  /** `cpuid`, asked for the leaf that `lahf` puts together, answers with zeros. */
  ghost predicate CpuidClears(env: Env, m: Machine) {
    env.cpuid(WithHigh(m.regs[EAX], FlagByte(m.flags)), m.regs[ECX]) == (0, 0, 0, 0)
  }

  lemma {:induction false} CpuidForm(env: Env, abs: Records, m: Machine)
    ensures var m' := Run(env, [Lahf, Cpuid], m);
      && m'.mem == m.mem && m'.traps == m.traps
      && (forall r: Reg :: r >= 4 ==> m'.regs[r] == m.regs[r])
      && (CpuidClears(env, m) <==> forall r: Reg :: r < 4 ==> m'.regs[r] == 0)
  {
    Run2(env, Lahf, Cpuid, m);
    var m1 := Exec(env, Lahf, m);
    assert m1.regs == m.regs[EAX := WithHigh(m.regs[EAX], FlagByte(m.flags))];
    var (a, c, d, b) := env.cpuid(m1.regs[EAX], m1.regs[ECX]);
    var m' := Exec(env, Cpuid, m1);
    assert m'.regs[EAX] == a && m'.regs[ECX] == c && m'.regs[EDX] == d && m'.regs[EBX] == b;
  }

  lemma {:induction false} ZeroCodeLeaves(env: Env, cfg: Config, abs: Records, t: Reg, m: Machine, r: Reg)
    requires abs[r] == 0
    ensures Run(env, ZeroCode(cfg, abs, t), m).regs[r] == m.regs[r]
  {
    var code := ZeroCode(cfg, abs, t);
    if code != [] {
      Run1(env, code[0], m);
      assert code == [code[0]];
    }
  }

  /** A register recorded as zero is never touched, whatever it holds. */
  lemma {:induction false} ZeroEachLeaves(env: Env, cfg: Config, abs: Records, rs: seq<Reg>, m: Machine, r: Reg)
    requires abs[r] == 0
    ensures Run(env, ZeroEach(cfg, abs, rs).code, m).regs[r] == m.regs[r]
    decreases |rs|
  {
    if rs != [] {
      var code := ZeroCode(cfg, abs, rs[0]);
      ZeroCodeLeaves(env, cfg, abs, rs[0], m, r);
      RunAppend(env, code, ZeroEach(cfg, abs[rs[0] := 0], rs[1..]).code, m);
      hide ZeroCode, Run;
      ZeroEachLeaves(env, cfg, abs[rs[0] := 0], rs[1..], Run(env, code, m), r);
    }
  }

  /** After an opening that cleared some of the registers named, the rest follow one by one. */
  lemma {:induction false} ZeroAfterOpening(env: Env, cfg: Config, abs: Records, rs: seq<Reg>, m: Machine)
    requires var m1 := Run(env, ZeroTogether(abs, rs).code, m);
      && Agrees(ZeroTogether(abs, rs).abs, m1.regs) && m1.mem == m.mem && m1.traps == m.traps
      && forall r: Reg :: m1.regs[r] == m.regs[r] || r in rs
    ensures var out := AssembleStmt(cfg, abs, Zero(rs));
      var m' := Run(env, out.code, m);
      Cleared(m, m', rs) && Agrees(out.abs, m'.regs)
  {
    hide ZeroTogether;
    var together := ZeroTogether(abs, rs);
    var m1 := Run(env, together.code, m);
    ZeroEachClears(env, cfg, together.abs, rs, m1);
    ZeroBeforehand(m.regs, m1.regs, rs);
    RunAppend(env, together.code, ZeroEach(cfg, together.abs, rs).code, m);
  }

  lemma {:induction false} ZeroPlain(env: Env, cfg: Config, abs: Records, rs: seq<Reg>, m: Machine)
    requires Agrees(abs, m.regs) && !UsesCpuid(abs, rs)
    ensures var out := AssembleStmt(cfg, abs, Zero(rs));
      var m' := Run(env, out.code, m);
      Cleared(m, m', rs) && Agrees(out.abs, m'.regs)
  {
    if ZeroTogether(abs, rs).code != [] {
      MulByZero(env, abs, FirstZero(abs, 0).value, m);
    }
    ZeroAfterOpening(env, cfg, abs, rs, m);
  }

  lemma {:induction false} CpuidAgrees(env: Env, abs: Records, rs: seq<Reg>, m: Machine)
    requires Agrees(abs, m.regs) && UsesCpuid(abs, rs) && CpuidClears(env, m)
    ensures Agrees(ZeroTogether(abs, rs).abs, Run(env, ZeroTogether(abs, rs).code, m).regs)
  {
    CpuidForm(env, abs, m);
    hide Run, CpuidClears;
    var together := ZeroTogether(abs, rs);
    forall r: Reg ensures Describes(together.abs[r], Run(env, together.code, m).regs[r]) {
      assert Describes(abs[r], m.regs[r]);
    }
  }

  lemma {:induction false} CpuidMisses(env: Env, abs: Records, rs: seq<Reg>, m: Machine) returns (r: Reg)
    requires UsesCpuid(abs, rs) && !CpuidClears(env, m)
    ensures r in rs && ZeroTogether(abs, rs).abs[r] == 0 && Run(env, ZeroTogether(abs, rs).code, m).regs[r] != 0
  {
    CpuidForm(env, abs, m);
    assert ZeroTogether(abs, rs).code == [Lahf, Cpuid];
    hide Run, CpuidClears;
    r :| r < 4 && Run(env, [Lahf, Cpuid], m).regs[r] != 0;
  }

  lemma {:induction false} CpuidLeavesValue(env: Env, cfg: Config, abs: Records, rs: seq<Reg>, m: Machine)
    requires UsesCpuid(abs, rs) && !CpuidClears(env, m)
    ensures Run(env, AssembleStmt(cfg, abs, Zero(rs)).code, m).regs != ZeroMeaning(m.regs, rs)
  {
    hide ZeroTogether, ZeroEach, UsesCpuid, CpuidClears, Run, ZeroMeaning;
    var together := ZeroTogether(abs, rs);
    var r := CpuidMisses(env, abs, rs, m);
    ZeroEachLeaves(env, cfg, together.abs, rs, Run(env, together.code, m), r);
    RunAppend(env, together.code, ZeroEach(cfg, together.abs, rs).code, m);
    ZeroMeaningAt(m.regs, rs, r);
  }

  lemma {:induction false} ZeroByCpuid(env: Env, cfg: Config, abs: Records, rs: seq<Reg>, m: Machine)
    requires Agrees(abs, m.regs) && UsesCpuid(abs, rs)
    ensures var out := AssembleStmt(cfg, abs, Zero(rs));
      var m' := Run(env, out.code, m);
      if CpuidClears(env, m) then Cleared(m, m', rs) && Agrees(out.abs, m'.regs) else m'.regs != ZeroMeaning(m.regs, rs)
  {
    if CpuidClears(env, m) {
      CpuidForm(env, abs, m);
      CpuidAgrees(env, abs, rs, m);
      hide CpuidClears, Run, AssembleStmt, Agrees;
      assert ZeroTogether(abs, rs).code == [Lahf, Cpuid];
      ZeroAfterOpening(env, cfg, abs, rs, m);
    } else {
      CpuidLeavesValue(env, cfg, abs, rs, m);
    }
  }

  /** `zero` on any list of registers clears them, unless it takes the cpuid form and the processor does not
      answer with zeros. */
  lemma {:induction false} ZeroRealises(env: Env, cfg: Config, abs: Records, rs: seq<Reg>, m: Machine, v: View)
    requires Agrees(abs, m.regs) && Shows(m, v)
    ensures Realises(env, AssembleStmt(cfg, abs, Zero(rs)), m, StmtMeaning(env, Zero(rs), v)) <==>
            (UsesCpuid(abs, rs) ==> CpuidClears(env, m))
  {
    hide AssembleStmt, UsesCpuid;
    if UsesCpuid(abs, rs) {
      ZeroByCpuid(env, cfg, abs, rs, m);
    } else {
      ZeroPlain(env, cfg, abs, rs, m);
    }
    var m' := Run(env, AssembleStmt(cfg, abs, Zero(rs)).code, m);
    ZeroMeaningAt(m.regs, rs, ESP);
    if Cleared(m, m', rs) && ESP !in rs {
      StackKept(m, m', v.stack);
    }
  }

  lemma {:induction false} TaintKeepsAgreement(abs: Records, rs: seq<Reg>, regs: Regs)
    requires Agrees(abs, regs)
    ensures Agrees(TaintAll(abs, rs), regs)
    decreases |rs|
  {
    if rs != [] {
      TaintKeepsAgreement(abs[rs[0] := -1], rs[1..], regs);
    }
  }

  /** Up to the trap a system call sets its number and its arguments in order. */
  lemma {:induction false} SyscallRequest(env: Env, cfg: Config, abs: Records, nr: Literal, args: Args, m: Machine, v: View)
    requires Agrees(abs, m.regs) && Shows(m, v) && StmtSafe(cfg, abs, |v.stack|, Syscall(nr, args))
    ensures Realises(env, Request(cfg, abs, nr, args), m, RequestMeaning(v, nr, args))
    ensures |RequestMeaning(v, nr, args).stack| == ParamsDepth(|v.stack|, args, 0)
  {
    hide SetNum, Params, ParamsMeaning, ParamsSafe, ParamsDepth;
    var number := SetNum(cfg, abs, EAX, nr);
    SetRealises(env, cfg, abs, EAX, nr, m, v);
    ParamsRealise(env, cfg, number.abs, args, 0, Run(env, number.code, m), v.(regs := v.regs[EAX := Wrap(nr)]));
    Sequence(env, number, Params(cfg, number.abs, args, 0), m, RequestMeaning(v, nr, args));
  }

  lemma {:induction false} SyscallRealises(env: Env, cfg: Config, abs: Records, nr: Literal, args: Args, m: Machine, v: View)
    requires Agrees(abs, m.regs) && Shows(m, v) && StmtSafe(cfg, abs, |v.stack|, Syscall(nr, args))
    ensures Realises(env, AssembleStmt(cfg, abs, Syscall(nr, args)), m, StmtMeaning(env, Syscall(nr, args), v))
    ensures |StmtMeaning(env, Syscall(nr, args), v).stack| == StmtDepth(|v.stack|, Syscall(nr, args))
  {
    SyscallRequest(env, cfg, abs, nr, args, m, v);
    ParamsLeaveTraps(v.(regs := v.regs[EAX := Wrap(nr)]), args, 0);
    hide Request, RequestMeaning, ParamsDepth, Select, ParamsSafe, Hazard;
    var request := Request(cfg, abs, nr, args);
    var m1 := Run(env, request.code, m);
    Run1(env, Int80, m1);
    StackKept(m1, Exec(env, Int80, m1), RequestMeaning(v, nr, args).stack);
    Sequence(env, request, Output([Int80], request.abs[EAX := -1], 0), m, StmtMeaning(env, Syscall(nr, args), v));
  }

  lemma {:induction false} ParamsLeaveTraps(v: View, args: Args, k: nat)
    requires k <= |args|
    ensures ParamsMeaning(v, args, k).traps == v.traps
    decreases |args| - k
  {
    if k < |args| {
      ParamsLeaveTraps(ParamMeaning(v, ARG_REGS[k], args[k]), args, k + 1);
    }
  }

  lemma {:induction false} ExchangeRealises(env: Env, cfg: Config, abs: Records, r: Reg, s: Reg, m: Machine, v: View)
    requires Agrees(abs, m.regs) && Shows(m, v)
    ensures Realises(env, AssembleStmt(cfg, abs, Exchange(r, s)), m, StmtMeaning(env, Exchange(r, s), v))
  {
    Run1(env, Xchg(r, s), m);
    assert Describes(abs[r], m.regs[r]) && Describes(abs[s], m.regs[s]);
    if r != ESP && s != ESP {
      StackKept(m, Exec(env, Xchg(r, s), m), v.stack);
    }
  }

  lemma {:induction false} StmtRealises(env: Env, cfg: Config, abs: Records, st: Stmt, m: Machine, v: View)
    requires Agrees(abs, m.regs) && Shows(m, v) && StmtSafe(cfg, abs, |v.stack|, st)
    ensures Realises(env, AssembleStmt(cfg, abs, st), m, StmtMeaning(env, st, v))
    ensures |StmtMeaning(env, st, v).stack| == StmtDepth(|v.stack|, st)
  {
    match st
    case Set(r, n) => SetRealises(env, cfg, abs, r, n, m, v);
    case Copy(r, src) => CopyRealises(env, abs, r, src, m, v);
    case Zero(rs) => ZeroRealises(env, cfg, abs, rs, m, v);
    case Exchange(r, s) => ExchangeRealises(env, cfg, abs, r, s, m, v);
    case Taint(rs) => TaintKeepsAgreement(abs, rs, m.regs);
    case Syscall(nr, args) => SyscallRealises(env, cfg, abs, nr, args, m, v);
    case PushNum(n) => PushRealises(env, cfg, abs, n, m, v);
  }

  /** Assembling a program preserves its meaning: registers, the log of system calls and the words left to
      pop come out as written, from every machine the initial records describe, and the final records
      describe the result. */
  lemma {:induction false} AssembleCorrect(env: Env, cfg: Config, abs: Records, prog: seq<Stmt>, m: Machine, v: View)
    requires Agrees(abs, m.regs) && Shows(m, v) && Safe(cfg, abs, |v.stack|, prog)
    ensures Realises(env, Assemble(cfg, abs, prog), m, Meaning(env, prog, v))
    decreases |prog|
  {
    hide AssembleStmt, StmtMeaning, StmtSafe, StmtDepth, Agrees, Shows;
    if prog != [] {
      StmtRealises(env, cfg, abs, prog[0], m, v);
      var first := AssembleStmt(cfg, abs, prog[0]);
      AssembleCorrect(env, cfg, first.abs, prog[1..], Run(env, first.code, m), StmtMeaning(env, prog[0], v));
      Sequence(env, first, Assemble(cfg, first.abs, prog[1..]), m, Meaning(env, prog, v));
    }
  }

  // ----- what callers rely on -----

  predicate PlainArg(a: Arg) {
    !a.Popped? && (a.Imm? ==> Plain(a.n))
  }

  predicate PlainStmt(st: Stmt) {
    match st
    case Set(_, n) => Plain(n)
    case Zero(rs) => !(EAX in rs && EBX in rs && ECX in rs && EDX in rs)
    case Syscall(nr, args) => Plain(nr) && forall i :: 0 <= i < |args| ==> PlainArg(args[i])
    case PushNum(_) => false
    case _ => true
  }

  lemma {:induction false} PlainParamsSafe(cfg: Config, abs: Records, depth: nat, args: Args, k: nat)
    requires k <= |args| && forall i :: 0 <= i < |args| ==> PlainArg(args[i])
    ensures ParamsSafe(cfg, abs, depth, args, k)
    decreases |args| - k
  {
    if k < |args| {
      PlainParamsSafe(cfg, Param(cfg, abs, ARG_REGS[k], args[k]).abs, ParamDepth(depth, args[k]), args, k + 1);
    }
  }

  /** A program whose numbers are all in 0..0xFFFFFFFE, that never zeroes eax, ebx, ecx and edx in one go and
      neither pushes nor pops is assembled correctly whatever has been recorded before it. */
  lemma {:induction false} PlainProgramsSafe(cfg: Config, abs: Records, depth: nat, prog: seq<Stmt>)
    requires forall i :: 0 <= i < |prog| ==> PlainStmt(prog[i])
    ensures Safe(cfg, abs, depth, prog)
    decreases |prog|
  {
    if prog != [] {
      assert PlainStmt(prog[0]);
      if prog[0].Syscall? {
        PlainParamsSafe(cfg, SetNum(cfg, abs, EAX, prog[0].nr).abs, depth, prog[0].args, 0);
      }
      PlainProgramsSafe(cfg, AssembleStmt(cfg, abs, prog[0]).abs, StmtDepth(depth, prog[0]), prog[1..]);
    }
  }

  /** How many of the arguments from j up to k are `pop`. */
  function Pops(args: Args, j: nat, k: nat): nat
    requires j <= k <= |args|
    decreases k - j
  {
    if j == k then 0 else (if args[j].Popped? then 1 else 0) + Pops(args, j + 1, k)
  }

  lemma {:induction false} SafeParamsHaveWords(cfg: Config, abs: Records, depth: nat, args: Args, k: nat)
    requires k <= |args| && ParamsSafe(cfg, abs, depth, args, k)
    ensures Pops(args, k, |args|) <= depth
    decreases |args| - k
  {
    hide Param;
    if k < |args| {
      SafeParamsHaveWords(cfg, Param(cfg, abs, ARG_REGS[k], args[k]).abs, ParamDepth(depth, args[k]), args, k + 1);
    }
  }

  /** Registers other than those of the arguments keep their values. */
  lemma {:induction false} ParamsKeep(v: View, args: Args, k: nat, r: Reg)
    requires k <= |args| && r != ESP
    requires forall i :: k <= i < |args| && !args[i].Keep? ==> ARG_REGS[i] != r
    ensures ParamsMeaning(v, args, k).regs[r] == v.regs[r]
    decreases |args| - k
  {
    if k < |args| {
      ParamsKeep(ParamMeaning(v, ARG_REGS[k], args[k]), args, k + 1, r);
    }
  }

  lemma {:induction false} ParamsMoveEsp(v: View, args: Args, k: nat)
    requires k <= |args| && Pops(args, k, |args|) <= |v.stack|
    ensures ParamsMeaning(v, args, k).regs[ESP] == Wrap(v.regs[ESP] as int + 4 * Pops(args, k, |args|))
    decreases |args| - k
  {
    hide Wrap;
    var e: int := v.regs[ESP];
    if k == |args| {
      WrapWord(e);
    } else {
      var v1 := ParamMeaning(v, ARG_REGS[k], args[k]);
      var p := Pops(args, k + 1, |args|);
      assert v1.regs[ESP] == if args[k].Popped? then Wrap(e + 4) else e;
      assert |v1.stack| == if args[k].Popped? then |v.stack| - 1 else |v.stack|;
      hide ParamMeaning;
      ParamsMoveEsp(v1, args, k + 1);
      WrapSum(e + 4, 4 * p);
      var q := Pops(args, k, |args|);
      assert q == if args[k].Popped? then p + 1 else p;
      hide Pops;
      assert ParamsMeaning(v, args, k) == ParamsMeaning(v1, args, k + 1);
      hide ParamsMeaning;
    }
  }

  /** Numbers arrive in their registers, and `pop`s take the words of the stack in order. */
  lemma {:induction false} ParamsDeliver(v: View, args: Args, k: nat, i: nat)
    requires k <= i < |args| && Pops(args, k, |args|) <= |v.stack|
    ensures args[i].Imm? ==> ParamsMeaning(v, args, k).regs[ARG_REGS[i]] == Wrap(args[i].n)
    ensures args[i].Popped? ==>
      Pops(args, k, i) < |v.stack| && ParamsMeaning(v, args, k).regs[ARG_REGS[i]] == v.stack[Pops(args, k, i)]
    decreases i - k
  {
    var v1 := ParamMeaning(v, ARG_REGS[k], args[k]);
    if i == k {
      ParamsKeep(v1, args, k + 1, ARG_REGS[k]);
    } else {
      ParamsDeliver(v1, args, k + 1, i);
    }
  }

  /** At the `int 0x80` of a system call with numbers, `pop`s or omitted arguments the kernel sees the requested
      number in eax, every number in its register, the words of the stack in order in the registers of the
      `pop`s, and every other register as it was; esp has moved past the words popped. */
  ghost predicate Delivers(m: Machine, v: View, nr: Literal, args: Args, seen: Regs) {
    && seen[EAX] == Wrap(nr)
    && (forall i :: 0 <= i < |args| && args[i].Imm? ==> seen[ARG_REGS[i]] == Wrap(args[i].n))
    && (forall i :: 0 <= i < |args| && args[i].Popped? ==>
          Pops(args, 0, i) < |v.stack| && seen[ARG_REGS[i]] == v.stack[Pops(args, 0, i)])
    && seen[ESP] == Wrap(m.regs[ESP] as int + 4 * Pops(args, 0, |args|))
    && (forall r: Reg :: r != EAX && r != ESP && (forall i :: 0 <= i < |args| && !args[i].Keep? ==> ARG_REGS[i] != r) ==>
          seen[r] == m.regs[r])
  }

  lemma {:induction false} RequestDelivers(m: Machine, v: View, nr: Literal, args: Args)
    requires m.regs == v.regs && Pops(args, 0, |args|) <= |v.stack|
    ensures Delivers(m, v, nr, args, RequestMeaning(v, nr, args).regs)
  {
    hide ParamsMeaning;
    var start := v.(regs := v.regs[EAX := Wrap(nr)]);
    var seen := ParamsMeaning(start, args, 0).regs;
    assert seen == RequestMeaning(v, nr, args).regs;
    ParamsKeep(start, args, 0, EAX);
    ParamsMoveEsp(start, args, 0);
    forall i | 0 <= i < |args|
      ensures args[i].Imm? ==> seen[ARG_REGS[i]] == Wrap(args[i].n)
      ensures args[i].Popped? ==> Pops(args, 0, i) < |v.stack| && seen[ARG_REGS[i]] == v.stack[Pops(args, 0, i)]
    {
      ParamsDeliver(start, args, 0, i);
    }
    forall r: Reg | r != EAX && r != ESP && (forall i :: 0 <= i < |args| && !args[i].Keep? ==> ARG_REGS[i] != r)
      ensures seen[r] == m.regs[r]
    {
      ParamsKeep(start, args, 0, r);
    }
  }

  /** A system call makes one trap, at which the kernel sees what was requested; afterwards only eax has changed. */
  lemma {:induction false} SyscallDelivers(env: Env, cfg: Config, abs: Records, nr: Literal, args: Args, m: Machine, v: View)
    requires Agrees(abs, m.regs) && Shows(m, v) && StmtSafe(cfg, abs, |v.stack|, Syscall(nr, args))
    ensures var m' := Run(env, AssembleStmt(cfg, abs, Syscall(nr, args)).code, m);
      && |m'.traps| == |m.traps| + 1 && m'.traps[..|m.traps|] == m.traps
      && Delivers(m, v, nr, args, m'.traps[|m.traps|])
      && m'.regs == m'.traps[|m.traps|][EAX := env.kernel(m'.traps)]
  {
    SyscallRealises(env, cfg, abs, nr, args, m, v);
    SafeParamsHaveWords(cfg, SetNum(cfg, abs, EAX, nr).abs, |v.stack|, args, 0);
    RequestDelivers(m, v, nr, args);
  }

  lemma {:induction false} ZeroSavesNothing(cfg: Config, abs: Records, rs: seq<Reg>)
    ensures ZeroEach(cfg, abs, rs).saved == 0
    decreases |rs|
  {
    if rs != [] {
      ZeroSavesNothing(cfg, abs[rs[0] := 0], rs[1..]);
    }
  }

  /** The argument registers by name, in the kernel's order. */
  lemma {:induction false} SixArguments(env: Env, cfg: Config, abs: Records, nr: Literal,
                                        a: Literal, b: Literal, c: Literal, d: Literal, e: Literal, f: Literal,
                                        m: Machine, v: View)
    requires Agrees(abs, m.regs) && Shows(m, v)
    requires StmtSafe(cfg, abs, |v.stack|, Syscall(nr, [Imm(a), Imm(b), Imm(c), Imm(d), Imm(e), Imm(f)]))
    ensures var m' := Run(env, AssembleStmt(cfg, abs, Syscall(nr, [Imm(a), Imm(b), Imm(c), Imm(d), Imm(e), Imm(f)])).code, m);
      && |m'.traps| == |m.traps| + 1
      && var seen := m'.traps[|m.traps|];
      && seen[EAX] == Wrap(nr) && seen[EBX] == Wrap(a) && seen[ECX] == Wrap(b) && seen[EDX] == Wrap(c)
      && seen[ESI] == Wrap(d) && seen[EDI] == Wrap(e) && seen[EBP] == Wrap(f)
  {
    var args: Args := [Imm(a), Imm(b), Imm(c), Imm(d), Imm(e), Imm(f)];
    SyscallDelivers(env, cfg, abs, nr, args, m, v);
    var m' := Run(env, AssembleStmt(cfg, abs, Syscall(nr, args)).code, m);
    var seen := m'.traps[|m.traps|];
    assert Delivers(m, v, nr, args, seen);
    hide Run, AssembleStmt, StmtSafe, Agrees, Shows, Pops, Wrap;
    assert args[0].Imm? && args[1].Imm? && args[2].Imm? && args[3].Imm? && args[4].Imm? && args[5].Imm?;
    assert seen[ARG_REGS[0]] == Wrap(args[0].n) && seen[ARG_REGS[1]] == Wrap(args[1].n);
    assert seen[ARG_REGS[2]] == Wrap(args[2].n) && seen[ARG_REGS[3]] == Wrap(args[3].n);
    assert seen[ARG_REGS[4]] == Wrap(args[4].n) && seen[ARG_REGS[5]] == Wrap(args[5].n);
  }

  /** A register argument is read after the number and the arguments before it are in place. */
  lemma {:induction false} ArgumentsInOrder(env: Env, cfg: Config, abs: Records, nr: Literal, n: Literal, m: Machine, v: View)
    requires Agrees(abs, m.regs) && Shows(m, v)
    requires StmtSafe(cfg, abs, |v.stack|, Syscall(nr, [From(EAX), Imm(n), From(ECX)]))
    ensures var m' := Run(env, AssembleStmt(cfg, abs, Syscall(nr, [From(EAX), Imm(n), From(ECX)])).code, m);
      && |m'.traps| == |m.traps| + 1
      && var seen := m'.traps[|m.traps|];
      seen[EBX] == Wrap(nr) && seen[ECX] == Wrap(n) && seen[EDX] == Wrap(n)
  {
    var args: Args := [From(EAX), Imm(n), From(ECX)];
    SyscallRealises(env, cfg, abs, nr, args, m, v);
    var v0 := v.(regs := v.regs[EAX := Wrap(nr)]);
    var v1 := ParamMeaning(v0, EBX, From(EAX));
    var v2 := ParamMeaning(v1, ECX, Imm(n));
    hide Run, AssembleStmt, StmtSafe, Agrees, Wrap;
    assert ParamsMeaning(v0, args, 0) == ParamsMeaning(v1, args, 1) == ParamsMeaning(v2, args, 2);
    assert ParamsMeaning(v2, args, 2) == ParamsMeaning(ParamMeaning(v2, EDX, From(ECX)), args, 3);
  }

  // ----- the records afterwards, register by register -----

  lemma {:induction false} SetRecords(cfg: Config, abs: Records, r: Reg, n: Literal, q: Reg)
    ensures SetNum(cfg, abs, r, n).abs[q] ==
            if q != r then abs[q] else if n < 0 then TWO32 - n else if n == 0xFFFF_FFFF then 0 else n
  {
    UInt32Describes(n);
  }

  /** The same number again costs nothing. */
  lemma {:induction false} SetTwice(cfg: Config, abs: Records, r: Reg, n: Literal)
    ensures var once := SetNum(cfg, abs, r, n).abs; SetNum(cfg, once, r, n) == Output([], once, 0)
  {
    hide UInt32;
    var once := SetNum(cfg, abs, r, n).abs;
    assert once[r := UInt32(n)] == once;
  }

  lemma {:induction false} CopyRecords(abs: Records, r: Reg, src: Reg, q: Reg)
    ensures CopyReg(abs, r, src).abs[q] == if q == r then abs[src] else abs[q]
    ensures CodeSize(CopyReg(abs, r, src).code) == if r == src then 0 else 2
  {
    CodeSizeUpTo3(CopyReg(abs, r, src).code);
  }

  lemma {:induction false} ExchangeRecords(cfg: Config, abs: Records, r: Reg, s: Reg, q: Reg)
    ensures var abs' := AssembleStmt(cfg, abs, Exchange(r, s)).abs;
      && abs'[q] == (if q == r then abs[s] else if q == s then abs[r] else abs[q])
      && AssembleStmt(cfg, abs', Exchange(r, s)).abs == abs
  {
  }

  lemma {:induction false} ZeroEachRecords(cfg: Config, abs: Records, rs: seq<Reg>, q: Reg)
    ensures ZeroEach(cfg, abs, rs).abs[q] == if q in rs then 0 else abs[q]
    decreases |rs|
  {
    if rs != [] {
      ZeroEachRecords(cfg, abs[rs[0] := 0], rs[1..], q);
    }
  }

  lemma {:induction false} ZeroRecords(cfg: Config, abs: Records, rs: seq<Reg>, q: Reg)
    ensures AssembleStmt(cfg, abs, Zero(rs)).abs[q] == if q in rs then 0 else abs[q]
  {
    ZeroEachRecords(cfg, ZeroTogether(abs, rs).abs, rs, q);
  }

  lemma {:induction false} TaintRecords(abs: Records, rs: seq<Reg>, q: Reg)
    ensures TaintAll(abs, rs)[q] == if q in rs then -1 else abs[q]
    decreases |rs|
  {
    if rs != [] {
      TaintRecords(abs[rs[0] := -1], rs[1..], q);
    }
  }

  /** What `taint` is for: other code may then have done anything to the registers named. */
  lemma {:induction false} TaintCovers(abs: Records, rs: seq<Reg>, regs: Regs, regs': Regs)
    requires Agrees(abs, regs) && forall r: Reg :: r !in rs ==> regs'[r] == regs[r]
    ensures Agrees(TaintAll(abs, rs), regs')
  {
    forall r: Reg ensures Describes(TaintAll(abs, rs)[r], regs'[r]) {
      TaintRecords(abs, rs, r);
      assert Describes(abs[r], regs[r]);
    }
  }

  lemma {:induction false} ParamsRecords(cfg: Config, abs: Records, args: Args, k: nat, q: Reg)
    requires k <= |args| && forall i :: k <= i < |args| ==> !args[i].From?
    ensures (forall i :: k <= i < |args| && args[i].Imm? ==> ARG_REGS[i] != q) ==> Params(cfg, abs, args, k).abs[q] == abs[q]
    ensures forall i :: k <= i < |args| && args[i].Imm? ==> Params(cfg, abs, args, k).abs[ARG_REGS[i]] == UInt32(args[i].n)
    decreases |args| - k
  {
    hide Select, UInt32;
    if k < |args| {
      var first := Param(cfg, abs, ARG_REGS[k], args[k]);
      ParamsRecords(cfg, first.abs, args, k + 1, q);
      ParamsRecords(cfg, first.abs, args, k + 1, ARG_REGS[k]);
    }
  }

  /** After a system call eax is unknown, a numeric argument is recorded for its register, and the rest is as before. */
  lemma {:induction false} SyscallRecords(cfg: Config, abs: Records, nr: Literal, args: Args, q: Reg)
    requires forall i :: 0 <= i < |args| ==> !args[i].From?
    ensures var abs' := AssembleStmt(cfg, abs, Syscall(nr, args)).abs;
      && abs'[EAX] == -1
      && (forall i :: 0 <= i < |args| && args[i].Imm? ==> abs'[ARG_REGS[i]] == UInt32(args[i].n))
      && (q != EAX && (forall i :: 0 <= i < |args| && args[i].Imm? ==> ARG_REGS[i] != q) ==> abs'[q] == abs[q])
  {
    hide Select, UInt32, Params;
    ParamsRecords(cfg, SetNum(cfg, abs, EAX, nr).abs, args, 0, q);
  }

  // ----- size of zero -----

  lemma {:induction false} ZeroOneSize(cfg: Config, abs: Records, r: Reg)
    ensures CodeSize(AssembleStmt(cfg, abs, Zero([r])).code) == ZeroSize(abs, r)
  {
    var rs := [r];
    assert rs[1..] == [];
    assert ZeroEach(cfg, abs[r := 0], []).code == [];
    assert ZeroTogether(abs, rs) == Output([], abs, 0);
    hide ZeroCode;
    assert AssembleStmt(cfg, abs, Zero(rs)).code == ZeroCode(cfg, abs, r);
    ZeroCodeSize(cfg, abs, r);
  }

  /** How `zero` opens: cpuid when eax, ebx, ecx and edx are all named and not zero yet, a multiplication by a zero
      register when eax and edx are and there is one, and otherwise with the single registers. */
  lemma {:induction false} ZeroOpens(cfg: Config, abs: Records, rs: seq<Reg>)
    ensures var opening := ZeroTogether(abs, rs).code;
      var ad := EAX in rs && abs[EAX] != 0 && EDX in rs && abs[EDX] != 0;
      var bc := EBX in rs && abs[EBX] != 0 && ECX in rs && abs[ECX] != 0;
      && opening <= AssembleStmt(cfg, abs, Zero(rs)).code
      && (ad && bc ==> opening == [Lahf, Cpuid])
      && (ad && !bc && Recorded(abs, 0) ==> |opening| == 1 && opening[0].Mul? && abs[opening[0].r] == 0)
      && (!ad || (!bc && !Recorded(abs, 0)) ==> opening == [])
  {
    ZeroPrefers(abs);
    hide ZeroEach, FirstZero;
  }

  lemma {:induction false} ZerosCostNothing(cfg: Config, abs: Records, rs: seq<Reg>)
    requires forall q: Reg :: q in rs ==> abs[q] == 0
    ensures ZeroEach(cfg, abs, rs).code == []
    decreases |rs|
  {
    if rs != [] {
      assert rs[0] in rs;
      ZerosCostNothing(cfg, abs[rs[0] := 0], rs[1..]);
    }
  }

  lemma {:induction false} ZeroPairEach(cfg: Config, abs: Records)
    requires abs[EAX] != 0 && abs[EDX] != 0
    ensures CodeSize(ZeroEach(cfg, abs, [EAX, EDX]).code) == 3
  {
    var rs, rest: seq<Reg> := [EAX, EDX], [EDX];
    var abs1: Records := abs[EAX := 0];
    assert rs[1..] == rest && rest[1..] == [];
    assert ZeroEach(cfg, abs1[EDX := 0], []).code == [];
    hide ZeroCode;
    assert ZeroEach(cfg, abs1, rest).code == ZeroCode(cfg, abs1, EDX);
    assert ZeroEach(cfg, abs, rs).code == ZeroCode(cfg, abs, EAX) + ZeroCode(cfg, abs1, EDX);
    CodeSizeAppend(ZeroCode(cfg, abs, EAX), ZeroCode(cfg, abs1, EDX));
    ZeroCodeSize(cfg, abs, EAX);
    ZeroCodeSize(cfg, abs1, EDX);
  }

  /** eax and edx together take two bytes if some register is zero and three if none is; all four of eax, ebx, ecx and
      edx take three. */
  lemma {:induction false} ZeroTogetherSize(cfg: Config, abs: Records)
    requires abs[EAX] != 0 && abs[EDX] != 0
    ensures CodeSize(AssembleStmt(cfg, abs, Zero([EAX, EDX])).code) == if Recorded(abs, 0) then 2 else 3
    ensures abs[EBX] != 0 && abs[ECX] != 0 ==> CodeSize(AssembleStmt(cfg, abs, Zero([EAX, EBX, ECX, EDX])).code) == 3
  {
    PairSize(cfg, abs);
    if abs[EBX] != 0 && abs[ECX] != 0 {
      FourSize(cfg, abs, [EAX, EBX, ECX, EDX]);
    }
  }

  lemma {:induction false} FourOpening(abs: Records, rs: seq<Reg>)
    requires rs == [EAX, EBX, ECX, EDX] && abs[EAX] != 0 && abs[EDX] != 0 && abs[EBX] != 0 && abs[ECX] != 0
    ensures ZeroTogether(abs, rs).code == [Lahf, Cpuid] && forall q: Reg :: q in rs ==> ZeroTogether(abs, rs).abs[q] == 0
  {
    hide FirstZero;
    assert UsesCpuid(abs, rs);
  }

  lemma {:induction false} OpeningOnly(cfg: Config, abs: Records, rs: seq<Reg>)
    requires forall q: Reg :: q in rs ==> ZeroTogether(abs, rs).abs[q] == 0
    ensures AssembleStmt(cfg, abs, Zero(rs)).code == ZeroTogether(abs, rs).code
  {
    hide ZeroTogether, ZeroEach;
    ZerosCostNothing(cfg, ZeroTogether(abs, rs).abs, rs);
  }

  lemma {:induction false} FourSize(cfg: Config, abs: Records, rs: seq<Reg>)
    requires rs == [EAX, EBX, ECX, EDX] && abs[EAX] != 0 && abs[EDX] != 0 && abs[EBX] != 0 && abs[ECX] != 0
    ensures CodeSize(AssembleStmt(cfg, abs, Zero(rs)).code) == 3
  {
    hide ZeroTogether, AssembleStmt, CodeSize;
    FourOpening(abs, rs);
    OpeningOnly(cfg, abs, rs);
    CodeSizeUpTo3([Lahf, Cpuid]);
  }

  lemma {:induction false} PairSize(cfg: Config, abs: Records)
    requires abs[EAX] != 0 && abs[EDX] != 0
    ensures CodeSize(AssembleStmt(cfg, abs, Zero([EAX, EDX])).code) == if Recorded(abs, 0) then 2 else 3
  {
    var rs := [EAX, EDX];
    assert !UsesCpuid(abs, rs);
    ZeroPrefers(abs);
    var zero := FirstZero(abs, 0);
    assert zero.Some? <==> Recorded(abs, 0);
    hide FirstZero, CodeSize, ZeroEach;
    if zero.Some? {
      OpeningOnly(cfg, abs, rs);
      hide AssembleStmt;
      CodeSizeUpTo3([Mul(zero.value)]);
    } else {
      ZeroPairEach(cfg, abs);
      assert AssembleStmt(cfg, abs, Zero(rs)).code == ZeroEach(cfg, abs, rs).code;
    }
  }

  // ----- size of runs of set -----

  /** How many `set`s of a program address their constant from esp. */
  function EspBasedSets(cfg: Config, abs: Records, prog: seq<Stmt>): nat
    decreases |prog|
  {
    if prog == [] then 0
    else
      (if prog[0].Set? && EspBased(cfg, abs, prog[0].r, prog[0].n) then 1 else 0) +
      EspBasedSets(cfg, AssembleStmt(cfg, abs, prog[0]).abs, prog[1..])
  }

  /** Over any run of `set`s emitted and saved bytes together exceed the five bytes of a plain move only by one
      byte for each constant addressed from esp. */
  lemma {:induction false} SetsCost(cfg: Config, abs: Records, prog: seq<Stmt>)
    requires forall i :: 0 <= i < |prog| ==> prog[i].Set?
    ensures var out := Assemble(cfg, abs, prog);
      CodeSize(out.code) + out.saved <= 5 * |prog| + EspBasedSets(cfg, abs, prog)
    decreases |prog|
  {
    if prog != [] {
      hide Select, EspBased;
      var first := AssembleStmt(cfg, abs, prog[0]);
      SetBudget(cfg, abs, prog[0].r, prog[0].n);
      SetsCost(cfg, first.abs, prog[1..]);
      CodeSizeAppend(first.code, Assemble(cfg, first.abs, prog[1..]).code);
    }
  }

  /** While esp is not recorded as zero, that never happens. */
  lemma {:induction false} SetsBudget(cfg: Config, abs: Records, prog: seq<Stmt>)
    requires abs[ESP] != 0
    requires forall i :: 0 <= i < |prog| ==> prog[i].Set? && (prog[i].r == ESP ==> UInt32(prog[i].n) != 0)
    ensures EspBasedSets(cfg, abs, prog) == 0
    ensures var out := Assemble(cfg, abs, prog); CodeSize(out.code) + out.saved <= 5 * |prog|
    decreases |prog|
  {
    SetsCost(cfg, abs, prog);
    if prog != [] {
      SetsBudget(cfg, AssembleStmt(cfg, abs, prog[0]).abs, prog[1..]);
    }
  }

  // ----- ways to be misled -----

  /** Nothing recorded: `rtaint`. */
  const UNKNOWN: Records := [-1, -1, -1, -1, -1, -1, -1, -1]

  const DEFAULTS := Config(false, true, true, false)

  lemma {:induction false} AssembleTwo(cfg: Config, abs: Records, a: Stmt, b: Stmt)
    ensures var first := AssembleStmt(cfg, abs, a);
      Assemble(cfg, abs, [a, b]).code == first.code + AssembleStmt(cfg, first.abs, b).code
  {
    hide AssembleStmt;
    var first := AssembleStmt(cfg, abs, a);
    var second := AssembleStmt(cfg, first.abs, b);
    assert [a, b][1..] == [b] && [b][1..] == [];
    assert Assemble(cfg, first.abs, [b]).code == second.code + [];
    assert second.code + [] == second.code;
  }

  lemma {:induction false} NegativeStepCode()
    ensures Assemble(DEFAULTS, UNKNOWN, [Set(EAX, -5), Set(EAX, -6)]).code == [Push(-5), Pop(EAX)] + [Inc(EAX)]
  {
    AssembleTwo(DEFAULTS, UNKNOWN, Set(EAX, -5), Set(EAX, -6));
    var first := SetNum(DEFAULTS, UNKNOWN, EAX, -5);
    assert first == Output([Push(-5), Pop(EAX)], UNKNOWN[EAX := TWO32 + 5], 2);
    assert SetNum(DEFAULTS, first.abs, EAX, -6).code == [Inc(EAX)];
  }

  /** `set eax, -5` then `set eax, -6` leaves -4: the second step increments. */
  lemma {:induction false} NegativeStepWrong(env: Env, m: Machine)
    ensures Run(env, Assemble(DEFAULTS, UNKNOWN, [Set(EAX, -5), Set(EAX, -6)]).code, m).regs[EAX] == Wrap(-4)
  {
    NegativeStepCode();
    var load := [Push(-5), Pop(EAX)];
    RunAppend(env, load, [Inc(EAX)], m);
    PushPop(env, EAX, -5, m);
    var m1 := Run(env, load, m);
    Run1(env, Inc(EAX), m1);
    assert m1.regs[EAX] == 0xFFFF_FFFB;
  }

  /** `set eax, 0` then `set eax, 0xFFFFFFFF` emits nothing for the second and leaves 0. */
  lemma {:induction false} AllOnesSkipped(env: Env, m: Machine)
    ensures Run(env, Assemble(DEFAULTS, UNKNOWN, [Set(EAX, 0), Set(EAX, 0xFFFF_FFFF)]).code, m).regs[EAX] == 0
  {
    UInt32Describes(0);
    UInt32Describes(0xFFFF_FFFF);
    AssembleTwo(DEFAULTS, UNKNOWN, Set(EAX, 0), Set(EAX, 0xFFFF_FFFF));
    assert SetNum(DEFAULTS, UNKNOWN, EAX, 0).code == [MovFs(EAX)];
    assert [MovFs(EAX)] + [] == [MovFs(EAX)];
    Run1(env, MovFs(EAX), m);
  }

  /** A `pop` argument loads its register without touching the records: what that asks of one machine. */
  lemma {:induction false} PopKeepsAgreement(env: Env, abs: Records, r: Reg, m: Machine)
    requires Agrees(abs, m.regs) && r != ESP
    ensures Agrees(abs, Run(env, [Pop(r)], m).regs) <==>
            Describes(abs[r], Load(m.mem, m.regs[ESP])) && Describes(abs[ESP], Wrap(m.regs[ESP] as int + 4))
  {
    Run1(env, Pop(r), m);
    var m' := Exec(env, Pop(r), m);
    if !Describes(abs[r], m'.regs[r]) {
      WrongRecord(abs, m'.regs, r);
    }
    if !Describes(abs[ESP], m'.regs[ESP]) {
      WrongRecord(abs, m'.regs, ESP);
    }
  }

  /** The greatest value a record allows. */
  function Greatest(v: Record): Word {
    if v > TWO32 then 2 * TWO32 - v
    else if v >= 0 then v
    else if v == -2 then 0xFF
    else if v == -3 then 0xFFFF
    else if v == -4 then 0x7FFF_FFFF
    else 0xFFFF_FFFF
  }

  function Least(v: Record): Word {
    if v >= 0 then Greatest(v) else 0
  }

  /** A machine with these registers and a given word on top of the stack. */
  function Holding(regs: Regs, top: Word): Machine {
    Machine(regs, Flags(false, false, false, false, false, false), map[regs[ESP] := top], [])
  }

  /** A `pop` argument keeps the records right from every machine they describe if and only if nothing is recorded
      about its register and about esp. */
  lemma {:induction false} PopSafeIff(env: Env, abs: Records, r: Reg)
    requires r != ESP
    ensures (forall m: Machine :: Agrees(abs, m.regs) ==> Agrees(abs, Run(env, [Pop(r)], m).regs)) <==> Untracked(abs, r)
  {
    if Untracked(abs, r) {
      forall m: Machine | Agrees(abs, m.regs) ensures Agrees(abs, Run(env, [Pop(r)], m).regs) {
        PopKeepsAgreement(env, abs, r, m);
      }
    } else {
      var regs: Regs := seq(8, q requires 0 <= q < 8 => Greatest(abs[q]));
      var m := Holding(regs, Wrap(Greatest(abs[r]) as int + 1));
      assert Agrees(abs, m.regs);
      PopKeepsAgreement(env, abs, r, m);
      assert !Agrees(abs, Run(env, [Pop(r)], m).regs);
    }
  }

  /** A bare push keeps the records right from every machine they describe if and only if nothing is recorded about
      esp. */
  lemma {:induction false} PushSafeIff(env: Env, abs: Records, n: int)
    ensures (forall m: Machine :: Agrees(abs, m.regs) ==> Agrees(abs, Run(env, [Push(n)], m).regs)) <==> abs[ESP] == -1
  {
    if abs[ESP] == -1 {
      forall m: Machine | Agrees(abs, m.regs) ensures Agrees(abs, Run(env, [Push(n)], m).regs) {
        PushMovesEsp(env, n, m);
      }
    } else {
      var regs: Regs := seq(8, q requires 0 <= q < 8 => Least(abs[q]));
      var m := Holding(regs, 0);
      assert Agrees(abs, m.regs);
      PushMovesEsp(env, n, m);
      WrongRecord(abs, Run(env, [Push(n)], m).regs, ESP);
    }
  }

  lemma {:induction false} PushMovesEsp(env: Env, n: int, m: Machine)
    ensures Run(env, [Push(n)], m).regs == m.regs[ESP := Wrap(m.regs[ESP] as int - 4)]
  {
    Run1(env, Push(n), m);
  }

  /** With nothing recorded and a processor whose cpuid answers 1 in eax, `zero eax, ebx, ecx, edx` leaves that 1. */
  lemma {:induction false} CpuidLeavesOne(env: Env, cfg: Config, m: Machine, v: View)
    requires Shows(m, v) && forall a, c :: env.cpuid(a, c) == (1, 0, 0, 0)
    ensures var rs := [EAX, EBX, ECX, EDX];
      !Realises(env, AssembleStmt(cfg, UNKNOWN, Zero(rs)), m, StmtMeaning(env, Zero(rs), v))
  {
    assert Agrees(UNKNOWN, m.regs);
    assert UsesCpuid(UNKNOWN, [EAX, EBX, ECX, EDX]);
    ZeroRealises(env, cfg, UNKNOWN, [EAX, EBX, ECX, EDX], m, v);
  }

  /** 5 recorded for ebx, 7 on the stack: `pop` and then `set ebx, 5`, which emits nothing, leaves 7. */
  lemma {:induction false} StalePop(env: Env, cfg: Config, m: Machine)
    requires Load(m.mem, m.regs[ESP]) == 7
    ensures var popped := Param(cfg, UNKNOWN[EBX := 5], EBX, Popped);
      Run(env, Then(popped, SetNum(cfg, popped.abs, EBX, 5)).code, m).regs[EBX] == 7
  {
    UInt32Describes(5);
    var popped := Param(cfg, UNKNOWN[EBX := 5], EBX, Popped);
    assert Then(popped, SetNum(cfg, popped.abs, EBX, 5)).code == [Pop(EBX)];
    Run1(env, Pop(EBX), m);
  }
}
