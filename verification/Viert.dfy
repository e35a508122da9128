/** The viert Forth machine: dictionaries, what words mean, and the threaded interpreter that runs them. */
module Viert {
  import opened Basics
  import opened Encoding

  /** `Docol` is entered through the jump of a colon word. `Other` stands for machine code that is not modelled. As
      words of a thread neither has a result. */
  datatype Prim =
    | Exit | Lit8 | Lit32 | SpAt | Add | Swap | Dup | Drop | Neg | Equ | Syscall3 | Docol
    | Other

  /** One source item of a colon definition: a word, or `lit n`. */
  datatype Item = Call(w: nat) | Lit(n: int)

  datatype Definition = Primitive(p: Prim) | Colon(body: seq<Item>)

  type Dictionary = seq<Definition>

  /** The word numbers the macros give to EXIT, lit8 and lit32. */
  const EXIT := 0
  const LIT8 := 1
  const LIT32 := 2

  predicate Inline(d: Definition) {
    d == Primitive(Exit) || d == Primitive(Lit8) || d == Primitive(Lit32)
  }

  /** A body uses only words defined before number `bound`, and EXIT, lit8 and lit32 only through the
      macros that place them. */
  ghost predicate ItemsOk(dict: Dictionary, items: seq<Item>, bound: nat) {
    bound <= |dict| &&
    forall k :: 0 <= k < |items| ==>
      match items[k]
      case Call(w) => w < bound && !Inline(dict[w])
      case Lit(n) => -0x8000_0000 <= n < 0x1_0000_0000
  }

  ghost predicate DictionaryOk(dict: Dictionary) {
    && |dict| >= 3
    && dict[EXIT] == Primitive(Exit) && dict[LIT8] == Primitive(Lit8) && dict[LIT32] == Primitive(Lit32)
    && forall k :: 0 <= k < |dict| && dict[k].Colon? ==> ItemsOk(dict, dict[k].body, k)
  }

  // ----- what words mean -----

  datatype Request = Request(nr: Word, a: Word, b: Word, c: Word)

  /** The data stack, deepest cell first, and the system calls made so far. */
  datatype World = World(data: seq<Word>, calls: seq<Request>)

  /** The address just above the first data cell, and the kernel's answer to a history of calls. */
  datatype Env = Env(base: Word, kernel: seq<Request> -> Word)

  /** A primitive step: a word's machine code, or pushing a literal. */
  datatype Basic = Do(p: Prim) | Push(n: Word)

  /** None when the data stack would underflow. */
  function Exec(env: Env, b: Basic, w: World): Option<World> {
    var d, n := w.data, |w.data|;
    match b
    case Push(v) => Some(w.(data := d + [v]))
    case Do(SpAt) => Some(w.(data := d + [Wrap(env.base - 4 * n)]))
    case Do(Add) => if n < 2 then None else Some(w.(data := d[..n - 2] + [Wrap(d[n - 1] as int + d[n - 2])]))
    case Do(Swap) => if n < 2 then None else Some(w.(data := d[..n - 2] + [d[n - 1], d[n - 2]]))
    case Do(Dup) => if n < 1 then None else Some(w.(data := d + [d[n - 1]]))
    case Do(Drop) => if n < 1 then None else Some(w.(data := d[..n - 1]))
    case Do(Neg) => if n < 1 then None else Some(w.(data := d[..n - 1] + [Wrap(0 - d[n - 1] as int)]))
    case Do(Equ) => if n < 2 then None else Some(w.(data := d[..n - 2] + [if d[n - 1] == d[n - 2] then 1 else 0]))
    case Do(Syscall3) =>
      if n < 4 then None
      else
        var calls := w.calls + [Request(d[n - 1], d[n - 2], d[n - 3], d[n - 4])];
        Some(World(d[..n - 4] + [env.kernel(calls)], calls))
    case Do(_) => None
  }

  function ExecAll(env: Env, bs: seq<Basic>, w: World): Option<World>
    decreases |bs|
  {
    if bs == [] then Some(w)
    else
      var w' := Exec(env, bs[0], w);
      if w'.None? then None else ExecAll(env, bs[1..], w'.value)
  }

  /** The primitives an item amounts to, colon words replaced by their bodies all the way down. */
  function ExpandItem(dict: Dictionary, it: Item, bound: nat): seq<Basic>
    requires DictionaryOk(dict) && ItemsOk(dict, [it], bound)
    decreases bound, 0
  {
    assert [it][0] == it;
    match it
    case Lit(n) => [Push(Wrap(n))]
    case Call(w) =>
      match dict[w]
      case Primitive(p) => [Do(p)]
      case Colon(body) => Expand(dict, body, w)
  }

  function Expand(dict: Dictionary, items: seq<Item>, bound: nat): seq<Basic>
    requires DictionaryOk(dict) && ItemsOk(dict, items, bound)
    decreases bound, |items| + 1
  {
    if items == [] then []
    else
      assert ItemsOk(dict, [items[0]], bound) && ItemsOk(dict, items[1..], bound);
      ExpandItem(dict, items[0], bound) + Expand(dict, items[1..], bound)
  }

  // ----- what the primitives are -----

  /** The data stack is d with x and y on top, y topmost. */
  function Top2(d: seq<Word>, x: Word, y: Word, calls: seq<Request>): World {
    World(d + [x, y], calls)
  }

  lemma {:induction false} OnTwo(env: Env, d: seq<Word>, x: Word, y: Word, calls: seq<Request>)
    ensures Exec(env, Do(Add), Top2(d, x, y, calls)) == Some(World(d + [(x as int + y) % 0x1_0000_0000], calls))
    ensures Exec(env, Do(Swap), Top2(d, x, y, calls)) == Some(Top2(d, y, x, calls))
    ensures Exec(env, Do(Equ), Top2(d, x, y, calls)) == Some(World(d + [if x == y then 1 else 0], calls))
    ensures Exec(env, Do(Drop), Top2(d, x, y, calls)) == Some(World(d + [x], calls))
  {
    assert (d + [x, y])[..|d|] == d && (d + [x, y])[..|d| + 1] == d + [x];
  }

  lemma {:induction false} OnOne(env: Env, d: seq<Word>, x: Word, calls: seq<Request>)
    ensures Exec(env, Do(Dup), World(d + [x], calls)) == Some(Top2(d, x, x, calls))
    ensures Exec(env, Do(Neg), World(d + [x], calls)) == Some(World(d + [(0x1_0000_0000 - x as int) % 0x1_0000_0000], calls))
  {
    assert (d + [x])[..|d|] == d && d + [x] + [x] == d + [x, x];
    NegIsComplement(x);
  }

  /** `syscall3` takes the call number from the top, then the three arguments; `sp_at` pushes the address of the
      topmost cell. */
  lemma {:induction false} OnFour(env: Env, d: seq<Word>, c: Word, b: Word, a: Word, nr: Word, calls: seq<Request>)
    ensures var calls' := calls + [Request(nr, a, b, c)];
      Exec(env, Do(Syscall3), World(d + [c, b, a, nr], calls)) == Some(World(d + [env.kernel(calls')], calls'))
    ensures Exec(env, Do(SpAt), World(d, calls)) == Some(World(d + [Wrap(env.base - 4 * |d|)], calls))
  {
    assert (d + [c, b, a, nr])[..|d|] == d;
  }

  lemma {:induction false} NegIsComplement(x: Word)
    ensures Wrap(0 - x as int) == (0x1_0000_0000 - x as int) % 0x1_0000_0000
  {
  }

  function Minus(x: Word): Word {
    (0x1_0000_0000 - x as int) % 0x1_0000_0000
  }

  lemma {:induction false} DupThen(env: Env, d: seq<Word>, x: Word, b: Basic, calls: seq<Request>)
    ensures ExecAll(env, [Do(Dup), b], World(d + [x], calls)) == Exec(env, b, Top2(d, x, x, calls))
  {
    hide Exec, ExecAll;
    OnOne(env, d, x, calls);
    ExecTwo(env, Do(Dup), b, World(d + [x], calls));
  }

  lemma {:induction false} DupNegAdd(env: Env, d: seq<Word>, x: Word, calls: seq<Request>)
    ensures ExecAll(env, [Do(Dup), Do(Neg), Do(Add)], World(d + [x], calls)) == Some(World(d + [0], calls))
  {
    var minus := Minus(x);
    NegLaws(x);
    hide Exec, ExecAll;
    OnOne(env, d, x, calls);
    OnOne(env, d + [x], x, calls);
    assert d + [x] + [x] == d + [x, x] && d + [x] + [minus] == d + [x, minus];
    ExecThree(env, Do(Dup), Do(Neg), Do(Add), World(d + [x], calls));
    OnTwo(env, d, x, minus, calls);
  }

  lemma {:induction false} NegNeg(env: Env, d: seq<Word>, x: Word, calls: seq<Request>)
    ensures ExecAll(env, [Do(Neg), Do(Neg)], World(d + [x], calls)) == Some(World(d + [x], calls))
  {
    NegLaws(x);
    hide Exec, ExecAll;
    OnOne(env, d, x, calls);
    OnOne(env, d, Minus(x), calls);
    ExecTwo(env, Do(Neg), Do(Neg), World(d + [x], calls));
  }

  /** `dup equ` turns any cell into 1, `dup neg add` into 0; `dup drop` and `neg neg` do nothing. */
  lemma {:induction false} OneCellLaws(env: Env, d: seq<Word>, x: Word, calls: seq<Request>)
    ensures ExecAll(env, [Do(Dup), Do(Equ)], World(d + [x], calls)) == Some(World(d + [1], calls))
    ensures ExecAll(env, [Do(Dup), Do(Neg), Do(Add)], World(d + [x], calls)) == Some(World(d + [0], calls))
    ensures ExecAll(env, [Do(Dup), Do(Drop)], World(d + [x], calls)) == Some(World(d + [x], calls))
    ensures ExecAll(env, [Do(Neg), Do(Neg)], World(d + [x], calls)) == Some(World(d + [x], calls))
  {
    hide Exec, ExecAll;
    DupThen(env, d, x, Do(Equ), calls);
    DupThen(env, d, x, Do(Drop), calls);
    OnTwo(env, d, x, x, calls);
    DupNegAdd(env, d, x, calls);
    NegNeg(env, d, x, calls);
  }

  lemma {:induction false} NegLaws(x: Word)
    ensures (x as int + Minus(x)) % 0x1_0000_0000 == 0 && Minus(Minus(x)) == x
  {
  }

  /** `swap swap` does nothing; `swap add` is `add`, and `swap equ` is `equ`. */
  lemma {:induction false} TwoCellLaws(env: Env, d: seq<Word>, x: Word, y: Word, calls: seq<Request>)
    ensures ExecAll(env, [Do(Swap), Do(Swap)], Top2(d, x, y, calls)) == Some(Top2(d, x, y, calls))
    ensures ExecAll(env, [Do(Swap), Do(Add)], Top2(d, x, y, calls)) == Exec(env, Do(Add), Top2(d, x, y, calls))
    ensures ExecAll(env, [Do(Swap), Do(Equ)], Top2(d, x, y, calls)) == Exec(env, Do(Equ), Top2(d, x, y, calls))
  {
    var w := Top2(d, x, y, calls);
    ExecTwo(env, Do(Swap), Do(Swap), w);
    ExecTwo(env, Do(Swap), Do(Add), w);
    ExecTwo(env, Do(Swap), Do(Equ), w);
    OnTwo(env, d, x, y, calls);
    OnTwo(env, d, y, x, calls);
    hide Exec, ExecAll;
  }

  lemma {:induction false} ExecOne(env: Env, a: Basic, w: World)
    ensures ExecAll(env, [a], w) == Exec(env, a, w)
  {
    hide Exec;
    var w1 := Exec(env, a, w);
    assert [a][1..] == [];
    assert w1.Some? ==> ExecAll(env, [], w1.value) == w1;
  }

  lemma {:induction false} ExecTwo(env: Env, a: Basic, b: Basic, w: World)
    ensures ExecAll(env, [a, b], w) == var w1 := Exec(env, a, w); if w1.None? then None else Exec(env, b, w1.value)
  {
    hide Exec;
    assert [a, b][1..] == [b];
    var w1 := Exec(env, a, w);
    if w1.Some? {
      ExecOne(env, b, w1.value);
    }
  }

  lemma {:induction false} ExecThree(env: Env, a: Basic, b: Basic, c: Basic, w: World)
    ensures ExecAll(env, [a, b, c], w) == var w1 := Exec(env, a, w); if w1.None? then None else ExecAll(env, [b, c], w1.value)
    ensures Exec(env, a, w).Some? ==>
      var w1 := Exec(env, a, w).value;
      ExecAll(env, [b, c], w1) == var w2 := Exec(env, b, w1); if w2.None? then None else Exec(env, c, w2.value)
  {
    hide Exec;
    assert [a, b, c][1..] == [b, c];
    var w1 := Exec(env, a, w);
    if w1.Some? {
      ExecTwo(env, b, c, w1.value);
    }
  }

  // ----- compiling -----

  datatype Image = Image(layout: Layout, mem: Memory, dict: Dictionary)

  /** The bytes the macros emit for one item. */
  function CompileItem(l: Layout, it: Item): seq<Byte>
    requires Supported(l.scheme) && |l.defs| >= 3 && (it.Call? ==> it.w < |l.defs|)
  {
    match it
    case Call(w) => Token(l, w)
    case Lit(n) =>
      if 0 <= n < 256 then Token(l, LIT8) + [n] else Token(l, LIT32) + Bytes4(n)
  }

  function Compile(l: Layout, items: seq<Item>): seq<Byte>
    requires Supported(l.scheme) && |l.defs| >= 3
    requires forall k :: 0 <= k < |items| && items[k].Call? ==> items[k].w < |l.defs|
    decreases |items|
  {
    if items == [] then [] else CompileItem(l, items[0]) + Compile(l, items[1..])
  }

  function Signed(b: Byte): int {
    if b < 128 then b else b - 256
  }

  /** Where a `jmp short` at address a leads, if there is one. */
  function JumpTarget(m: Memory, a: int): Option<int> {
    if Peek(m, a) == 0xEB then Some(a + 2 + Signed(Peek(m, a + 1))) else None
  }

  /** Every colon definition begins with a jump to DOCOL. */
  ghost predicate JumpsToDocol(l: Layout, mem: Memory, dict: Dictionary)
    requires |l.defs| == |dict|
  {
    forall k :: 0 <= k < |dict| && dict[k].Colon? ==>
      exists j :: 0 <= j < |dict| && dict[j] == Primitive(Docol) && JumpTarget(mem, l.defs[k]) == Some(l.defs[j] as int)
  }

  /** Memory holds every colon definition: two bytes of jump to DOCOL, the body, EXIT. */
  ghost predicate HoldsBodies(l: Layout, mem: Memory, dict: Dictionary)
    requires Supported(l.scheme) && |l.defs| == |dict| && DictionaryOk(dict)
  {
    forall k :: 0 <= k < |dict| && dict[k].Colon? ==>
      Holds(mem, l.defs[k] as int + 2, Compile(l, dict[k].body) + Token(l, EXIT))
  }

  /** An assembled program: no two definitions at one address, and every jump and body in memory. */
  ghost predicate ImageOk(img: Image) {
    && ValidLayout(img.layout, img.mem) && DictionaryOk(img.dict)
    && |img.layout.defs| == |img.dict|
    && (forall i, j :: 0 <= i < j < |img.dict| ==> img.layout.defs[i] != img.layout.defs[j])
    && HoldsBodies(img.layout, img.mem, img.dict) && JumpsToDocol(img.layout, img.mem, img.dict)
  }

  // ----- the threaded interpreter -----

  /** Thread pointer, return stack, world, and the primitives performed so far. */
  datatype VM = VM(esi: int, rstack: seq<int>, world: World, done: seq<Basic>)

  function Find(defs: seq<Word>, a: int): (i: Option<nat>)
    ensures i.Some? ==> i.value < |defs| && defs[i.value] == a
    ensures i.None? ==> a !in defs
    decreases |defs|
  {
    if defs == [] then None
    else if defs[|defs| - 1] == a then Some(|defs| - 1)
    else Find(defs[..|defs| - 1], a)
  }

  function Perform(env: Env, s: VM, b: Basic, esi: int): Option<VM> {
    var w := Exec(env, b, s.world);
    if w.None? then None else Some(VM(esi, s.rstack, w.value, s.done + [b]))
  }

  /** The code at address a jumps to DOCOL. */
  predicate EntersDocol(img: Image, a: int)
    requires |img.layout.defs| == |img.dict|
  {
    var t := JumpTarget(img.mem, a);
    t.Some? &&
    var j := Find(img.layout.defs, t.value);
    j.Some? && img.dict[j.value] == Primitive(Docol)
  }

  /** NEXT, and the code it jumps to, up to the following NEXT. */
  function Step(env: Env, img: Image, s: VM): Option<VM>
    requires |img.layout.defs| == |img.dict|
  {
    var (eax, esi) := Fetch(img.layout, img.mem, s.esi);
    var i := Find(img.layout.defs, eax);
    if i.None? then None
    else
      match img.dict[i.value]
      case Colon(_) => if EntersDocol(img, eax) then Some(s.(esi := eax + 2, rstack := s.rstack + [esi])) else None
      case Primitive(Exit) =>
        if s.rstack == [] then None
        else Some(s.(esi := s.rstack[|s.rstack| - 1], rstack := s.rstack[..|s.rstack| - 1]))
      case Primitive(Lit8) => Perform(env, s, Push(Peek(img.mem, esi)), esi + 1)
      case Primitive(Lit32) => Perform(env, s, Push(Peek4(img.mem, esi)), esi + 4)
      case Primitive(p) => Perform(env, s, Do(p), esi)
  }

  function Run(env: Env, img: Image, s: Option<VM>, n: nat): Option<VM>
    requires |img.layout.defs| == |img.dict|
    decreases n
  {
    if n == 0 || s.None? then s else Run(env, img, Step(env, img, s.value), n - 1)
  }
}
