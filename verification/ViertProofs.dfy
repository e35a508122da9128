/** The threaded interpreter refines the meaning of words. */
module ViertProofs {
  import opened Basics
  import opened Encoding
  import opened Viert

  /** The number of NEXTs a word or body takes; there are no jumps, so the data does not matter. */
  function ItemCost(dict: Dictionary, it: Item, bound: nat): nat
    requires DictionaryOk(dict) && ItemsOk(dict, [it], bound)
    decreases bound, 0
  {
    assert [it][0] == it;
    match it
    case Lit(_) => 1
    case Call(w) => if dict[w].Colon? then 1 + Cost(dict, dict[w].body, w) + 1 else 1
  }

  function Cost(dict: Dictionary, items: seq<Item>, bound: nat): nat
    requires DictionaryOk(dict) && ItemsOk(dict, items, bound)
    decreases bound, |items| + 1
  {
    if items == [] then 0
    else
      SplitItems(dict, items, bound);
      ItemCost(dict, items[0], bound) + Cost(dict, items[1..], bound)
  }

  lemma {:induction false} SplitItems(dict: Dictionary, items: seq<Item>, bound: nat)
    requires ItemsOk(dict, items, bound) && items != []
    ensures ItemsOk(dict, [items[0]], bound) && ItemsOk(dict, items[1..], bound)
  {
    assert forall k :: 0 <= k < |items| - 1 ==> items[1..][k] == items[k + 1];
  }

  lemma {:induction false} RunAdd(env: Env, img: Image, s: Option<VM>, m: nat, n: nat)
    requires |img.layout.defs| == |img.dict|
    ensures Run(env, img, s, m + n) == Run(env, img, Run(env, img, s, m), n)
    decreases m
  {
    hide Step;
    if m > 0 && s.Some? {
      RunAdd(env, img, Step(env, img, s.value), m - 1, n);
    }
  }

  lemma {:induction false} ExecAllAppend(env: Env, p: seq<Basic>, q: seq<Basic>, w: World)
    ensures ExecAll(env, p + q, w) ==
            var mid := ExecAll(env, p, w); if mid.None? then None else ExecAll(env, q, mid.value)
    decreases |p|
  {
    if p == [] {
      assert p + q == q;
    } else {
      assert (p + q)[1..] == p[1..] + q;
      var w' := Exec(env, p[0], w);
      if w'.Some? {
        ExecAllAppend(env, p[1..], q, w'.value);
      }
    }
  }

  lemma {:induction false} HoldsSplit(m: Memory, a: int, p: seq<Byte>, q: seq<Byte>)
    requires Holds(m, a, p + q)
    ensures Holds(m, a, p) && Holds(m, a + |p|, q)
  {
    forall k | 0 <= k < |p| ensures Peek(m, a + k) == p[k] {
      assert (p + q)[k] == p[k];
    }
    forall k | 0 <= k < |q| ensures Peek(m, a + |p| + k) == q[k] {
      assert (p + q)[|p| + k] == q[k];
    }
  }

  lemma {:induction false} FindDefinition(defs: seq<Word>, i: nat)
    requires i < |defs| && forall j, k :: 0 <= j < k < |defs| ==> defs[j] != defs[k]
    ensures Find(defs, defs[i]) == Some(i)
  {
    var f := Find(defs, defs[i]);
    assert defs[i] in defs;
  }

  /** NEXT on the token of definition i. */
  lemma {:induction false} NextOnToken(img: Image, esi: int, i: nat)
    requires ImageOk(img) && i < |img.dict| && Holds(img.mem, esi, Token(img.layout, i))
    ensures Fetch(img.layout, img.mem, esi) == (img.layout.defs[i], esi + |Token(img.layout, i)|)
    ensures Find(img.layout.defs, img.layout.defs[i]) == Some(i)
  {
    FetchToken(img.layout, img.mem, esi, i);
    FindDefinition(img.layout.defs, i);
  }

  /** What running some primitives from s to thread position esi comes to. */
  function Finished(env: Env, s: VM, bs: seq<Basic>, esi: int): Option<VM> {
    var w := ExecAll(env, bs, s.world);
    if w.None? then None else Some(VM(esi, s.rstack, w.value, s.done + bs))
  }

  lemma {:induction false} FinishedOne(env: Env, s: VM, b: Basic, esi: int)
    ensures Finished(env, s, [b], esi) == Perform(env, s, b, esi)
  {
    ExecOne(env, b, s.world);
  }

  lemma {:induction false} FinishedTwice(env: Env, s: VM, p: seq<Basic>, q: seq<Basic>, mid: int, esi: int)
    ensures Finished(env, s, p + q, esi) ==
            var t := Finished(env, s, p, mid); if t.None? then None else Finished(env, t.value, q, esi)
  {
    ExecAllAppend(env, p, q, s.world);
    assert s.done + (p + q) == (s.done + p) + q;
  }

  lemma {:induction false} RunLiteral(env: Env, img: Image, n: int, s: VM)
    requires ImageOk(img) && -0x8000_0000 <= n < 0x1_0000_0000
    requires Holds(img.mem, s.esi, CompileItem(img.layout, Lit(n)))
    ensures Step(env, img, s) == Perform(env, s, Push(Wrap(n)), s.esi + |CompileItem(img.layout, Lit(n))|)
  {
    hide Token, Fetch, Find;
    var l := img.layout;
    if 0 <= n < 256 {
      HoldsSplit(img.mem, s.esi, Token(l, LIT8), [n]);
      NextOnToken(img, s.esi, LIT8);
      assert Peek(img.mem, s.esi + |Token(l, LIT8)| + 0) == [n][0];
    } else {
      HoldsSplit(img.mem, s.esi, Token(l, LIT32), Bytes4(n));
      NextOnToken(img, s.esi, LIT32);
      Bytes4Wrap(n);
      Peek4Holds(img.mem, s.esi + |Token(l, LIT32)|, Wrap(n));
    }
  }

  lemma {:induction false} Bytes4Wrap(n: int)
    requires -0x8000_0000 <= n < 0x1_0000_0000
    ensures Bytes4(n) == Bytes4(Wrap(n))
  {
    hide Wrap, Bytes4;
    if n < 0 {
      WrapNegative(n);
      Bytes4Periodic(n, n + TWO32);
    } else {
      WrapWord(n);
    }
  }

  lemma {:induction false} Bytes4Periodic(n: int, w: int)
    requires w == n + TWO32
    ensures Bytes4(n) == Bytes4(w)
  {
    hide Low;
    ShiftDigit(n, 0x100_0000, w);
    ShiftDigit(n / 256, 0x1_0000, w / 256);
    ShiftDigit(n / 256 / 256, 0x100, w / 256 / 256);
    ShiftDigit(n / 256 / 256 / 256, 1, w / 256 / 256 / 256);
  }

  lemma {:induction false} ShiftDigit(q: int, k: int, w: int)
    requires w == q + 256 * k
    ensures w / 256 == q / 256 + k && Low(w) == Low(q)
  {
  }

  /** Executing one item performs its expansion, moves past its bytes and leaves the return stack alone. */
  lemma {:induction false} RunItem(env: Env, img: Image, it: Item, bound: nat, s: VM)
    requires ImageOk(img) && ItemsOk(img.dict, [it], bound) && (it.Call? ==> it.w < |img.dict|)
    requires Holds(img.mem, s.esi, CompileItem(img.layout, it))
    ensures Run(env, img, Some(s), ItemCost(img.dict, it, bound)) ==
            Finished(env, s, ExpandItem(img.dict, it, bound), s.esi + |CompileItem(img.layout, it)|)
    decreases bound, 0
  {
    hide Token, Fetch, Find, ExecAll, Exec, Holds;
    assert [it][0] == it;
    match it
    case Lit(n) =>
      RunLiteral(env, img, n, s);
      FinishedOne(env, s, Push(Wrap(n)), s.esi + |CompileItem(img.layout, it)|);
    case Call(w) =>
      NextOnToken(img, s.esi, w);
      if img.dict[w].Primitive? {
        FinishedOne(env, s, Do(img.dict[w].p), s.esi + |CompileItem(img.layout, it)|);
      } else {
        RunColon(env, img, w, s);
      }
  }

  lemma {:induction false} RunOne(env: Env, img: Image, s: VM)
    requires |img.layout.defs| == |img.dict|
    ensures Run(env, img, Some(s), 1) == Step(env, img, s)
  {
    var t := Step(env, img, s);
    assert Run(env, img, t, 0) == t;
  }

  /** NEXT on a colon word's token goes through DOCOL into its body. */
  lemma {:induction false} StepColon(env: Env, img: Image, w: nat, s: VM)
    requires ImageOk(img) && w < |img.dict| && img.dict[w].Colon?
    requires Holds(img.mem, s.esi, Token(img.layout, w))
    ensures Step(env, img, s) ==
            Some(s.(esi := img.layout.defs[w] as int + 2, rstack := s.rstack + [s.esi + |Token(img.layout, w)|]))
  {
    ColonEnters(img, w);
    hide Token, Fetch, Find, ImageOk, EntersDocol;
    NextOnToken(img, s.esi, w);
  }

  lemma {:induction false} ColonEnters(img: Image, w: nat)
    requires ImageOk(img) && w < |img.dict| && img.dict[w].Colon?
    ensures EntersDocol(img, img.layout.defs[w])
  {
    hide ValidLayout, HoldsBodies, DictionaryOk;
    var j :| 0 <= j < |img.dict| && img.dict[j] == Primitive(Docol)
      && JumpTarget(img.mem, img.layout.defs[w]) == Some(img.layout.defs[j] as int);
    FindDefinition(img.layout.defs, j);
  }

  /** NEXT on the token of EXIT returns to the caller. */
  lemma {:induction false} StepExit(env: Env, img: Image, s: VM, rstack: seq<int>, back: int)
    requires ImageOk(img) && Holds(img.mem, s.esi, Token(img.layout, EXIT)) && s.rstack == rstack + [back]
    ensures Step(env, img, s) == Some(s.(esi := back, rstack := rstack))
  {
    assert img.dict[EXIT] == Primitive(Exit);
    hide Token, Fetch, Find, ImageOk;
    NextOnToken(img, s.esi, EXIT);
  }

  /** DOCOL, the body, EXIT. */
  lemma {:induction false} RunColon(env: Env, img: Image, w: nat, s: VM)
    requires ImageOk(img) && w < |img.dict| && img.dict[w].Colon?
    requires Holds(img.mem, s.esi, Token(img.layout, w))
    ensures Run(env, img, Some(s), 1 + Cost(img.dict, img.dict[w].body, w) + 1) ==
            Finished(env, s, Expand(img.dict, img.dict[w].body, w), s.esi + |Token(img.layout, w)|)
    decreases w, |img.dict[w].body| + 2
  {
    hide Token, Step, Run, ExecAll, Compile, Cost, Expand;
    var body := img.dict[w].body;
    var back := s.esi + |Token(img.layout, w)|;
    var start := img.layout.defs[w] as int + 2;
    var cost := Cost(img.dict, body, w);
    StepColon(env, img, w, s);
    RunOne(env, img, s);
    var inner := s.(esi := start, rstack := s.rstack + [back]);
    HoldsSplit(img.mem, start, Compile(img.layout, body), Token(img.layout, EXIT));
    RunItems(env, img, body, w, inner);
    RunAdd(env, img, Some(s), 1, cost);
    RunAdd(env, img, Some(s), 1 + cost, 1);
    var t := Run(env, img, Some(inner), cost);
    if t.Some? {
      StepExit(env, img, t.value, s.rstack, back);
      RunOne(env, img, t.value);
    } else {
      RunNone(env, img, 1);
    }
  }

  lemma {:induction false} RunNone(env: Env, img: Image, n: nat)
    requires |img.layout.defs| == |img.dict|
    ensures Run(env, img, None, n) == None
  {
  }

  /** Executing a thread performs its expansion in order. */
  lemma {:induction false} RunItems(env: Env, img: Image, items: seq<Item>, bound: nat, s: VM)
    requires ImageOk(img) && ItemsOk(img.dict, items, bound)
    requires Holds(img.mem, s.esi, Compile(img.layout, items))
    ensures Run(env, img, Some(s), Cost(img.dict, items, bound)) ==
            Finished(env, s, Expand(img.dict, items, bound), s.esi + |Compile(img.layout, items)|)
    decreases bound, |items| + 1
  {
    hide Step, ItemCost, ExpandItem, CompileItem, Holds;
    if items == [] {
      assert s.done + [] == s.done;
    } else {
      UnfoldItems(img, items, bound);
      hide Cost, Expand, Compile, Run, ExecAll, ImageOk;
      var first, rest := items[0], items[1..];
      var mid := s.esi + |CompileItem(img.layout, first)|;
      var esi := s.esi + |Compile(img.layout, items)|;
      HoldsSplit(img.mem, s.esi, CompileItem(img.layout, first), Compile(img.layout, rest));
      RunItem(env, img, first, bound, s);
      RunAdd(env, img, Some(s), ItemCost(img.dict, first, bound), Cost(img.dict, rest, bound));
      FinishedTwice(env, s, ExpandItem(img.dict, first, bound), Expand(img.dict, rest, bound), mid, esi);
      var t := Finished(env, s, ExpandItem(img.dict, first, bound), mid);
      if t.Some? {
        RunItems(env, img, rest, bound, t.value);
      } else {
        RunNone(env, img, Cost(img.dict, rest, bound));
      }
    }
  }

  lemma {:induction false} UnfoldItems(img: Image, items: seq<Item>, bound: nat)
    requires ImageOk(img) && ItemsOk(img.dict, items, bound) && items != []
    ensures ItemsOk(img.dict, [items[0]], bound) && ItemsOk(img.dict, items[1..], bound)
    ensures items[0].Call? ==> items[0].w < |img.dict|
    ensures Cost(img.dict, items, bound) == ItemCost(img.dict, items[0], bound) + Cost(img.dict, items[1..], bound)
    ensures Expand(img.dict, items, bound) == ExpandItem(img.dict, items[0], bound) + Expand(img.dict, items[1..], bound)
    ensures Compile(img.layout, items) == CompileItem(img.layout, items[0]) + Compile(img.layout, items[1..])
  {
    SplitItems(img.dict, items, bound);
  }

  // ----- the return stack on the way -----

  /** How many colon bodies are open after m NEXTs. */
  function ItemNesting(dict: Dictionary, it: Item, bound: nat, m: nat): nat
    requires DictionaryOk(dict) && ItemsOk(dict, [it], bound)
    decreases bound, 0
  {
    assert [it][0] == it;
    if it.Call? && dict[it.w].Colon? && 0 < m <= 1 + Cost(dict, dict[it.w].body, it.w) then
      1 + Nesting(dict, dict[it.w].body, it.w, m - 1)
    else 0
  }

  function Nesting(dict: Dictionary, items: seq<Item>, bound: nat, m: nat): nat
    requires DictionaryOk(dict) && ItemsOk(dict, items, bound)
    decreases bound, |items| + 1
  {
    if items == [] then 0
    else
      SplitItems(dict, items, bound);
      var c := ItemCost(dict, items[0], bound);
      if m <= c then ItemNesting(dict, items[0], bound, m) else Nesting(dict, items[1..], bound, m - c)
  }

  /** Nesting never exceeds the number of words that can be open. */
  lemma {:induction false} NestingWithin(dict: Dictionary, items: seq<Item>, bound: nat, m: nat)
    requires DictionaryOk(dict) && ItemsOk(dict, items, bound)
    ensures Nesting(dict, items, bound, m) <= bound
    decreases bound, |items| + 1
  {
    if items != [] {
      SplitItems(dict, items, bound);
      var it := items[0];
      assert [it][0] == it;
      var c := ItemCost(dict, it, bound);
      if m <= c {
        if it.Call? && dict[it.w].Colon? && 0 < m {
          NestingWithin(dict, dict[it.w].body, it.w, m - 1);
        }
      } else {
        NestingWithin(dict, items[1..], bound, m - c);
      }
    }
  }

  /** The return stack is what it was with `depth` addresses on top. */
  ghost predicate Above(s: VM, t: Option<VM>, depth: nat) {
    t.Some? ==> s.rstack <= t.value.rstack && |t.value.rstack| == |s.rstack| + depth
  }

  lemma {:induction false} RstackInItem(env: Env, img: Image, it: Item, bound: nat, s: VM, m: nat)
    requires ImageOk(img) && ItemsOk(img.dict, [it], bound) && (it.Call? ==> it.w < |img.dict|)
    requires Holds(img.mem, s.esi, CompileItem(img.layout, it)) && m <= ItemCost(img.dict, it, bound)
    ensures Above(s, Run(env, img, Some(s), m), ItemNesting(img.dict, it, bound, m))
    decreases bound, 0
  {
    hide Token, Fetch, Find, ExecAll, Exec, Step, Holds, Expand;
    assert [it][0] == it;
    RunItem(env, img, it, bound, s);
    if 0 < m < ItemCost(img.dict, it, bound) {
      RstackInColon(env, img, it.w, s, m);
    }
  }

  lemma {:induction false} RstackInColon(env: Env, img: Image, w: nat, s: VM, m: nat)
    requires ImageOk(img) && w < |img.dict| && img.dict[w].Colon?
    requires Holds(img.mem, s.esi, Token(img.layout, w))
    requires 0 < m <= 1 + Cost(img.dict, img.dict[w].body, w)
    ensures Above(s, Run(env, img, Some(s), m), 1 + Nesting(img.dict, img.dict[w].body, w, m - 1))
    decreases w, |img.dict[w].body| + 2
  {
    hide Token, Step, Run, Cost, Nesting, Compile;
    var body := img.dict[w].body;
    var back := s.esi + |Token(img.layout, w)|;
    var start := img.layout.defs[w] as int + 2;
    StepColon(env, img, w, s);
    RunOne(env, img, s);
    var inner := s.(esi := start, rstack := s.rstack + [back]);
    HoldsSplit(img.mem, start, Compile(img.layout, body), Token(img.layout, EXIT));
    RunAdd(env, img, Some(s), 1, m - 1);
    RstackInItems(env, img, body, w, inner, m - 1);
  }

  /** At every NEXT of a running thread the return stack holds the caller's addresses, untouched, and one
      address for each colon body open at that point. */
  lemma {:induction false} RstackInItems(env: Env, img: Image, items: seq<Item>, bound: nat, s: VM, m: nat)
    requires ImageOk(img) && ItemsOk(img.dict, items, bound)
    requires Holds(img.mem, s.esi, Compile(img.layout, items))
    requires m <= Cost(img.dict, items, bound)
    ensures Above(s, Run(env, img, Some(s), m), Nesting(img.dict, items, bound, m))
    decreases bound, |items| + 1
  {
    hide Token, Fetch, Find, ExecAll, Exec, Step, Holds, Expand, ExpandItem, CompileItem, ItemNesting, ItemCost;
    if items != [] {
      SplitItems(img.dict, items, bound);
      var it, rest := items[0], items[1..];
      assert [it][0] == it;
      var c := ItemCost(img.dict, it, bound);
      HoldsSplit(img.mem, s.esi, CompileItem(img.layout, it), Compile(img.layout, rest));
      RunItem(env, img, it, bound, s);
      if m <= c {
        RstackInItem(env, img, it, bound, s, m);
      } else {
        RunAdd(env, img, Some(s), c, m - c);
        var t := Run(env, img, Some(s), c);
        if t.Some? {
          RstackInItems(env, img, rest, bound, t.value, m - c);
        }
      }
    }
  }

  /** With at most 256 words the return stack of a running thread never outgrows the 65535 bytes `enter`
      sets aside for it. */
  lemma {:induction false} ReturnStackFits(env: Env, img: Image, items: seq<Item>, s: VM, m: nat)
    requires ImageOk(img) && |img.dict| <= 256 && ItemsOk(img.dict, items, |img.dict|)
    requires Holds(img.mem, s.esi, Compile(img.layout, items)) && s.rstack == []
    requires m <= Cost(img.dict, items, |img.dict|)
    ensures var t := Run(env, img, Some(s), m); t.Some? ==> 4 * |t.value.rstack| <= 1024 < 65535
  {
    RstackInItems(env, img, items, |img.dict|, s, m);
    NestingWithin(img.dict, items, |img.dict|, m);
  }
}
