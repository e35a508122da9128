/** What the macros assemble: every definition at its aligned address, and behind them the jump table. */
module ViertImage {
  import opened Basics
  import opened Encoding
  import opened Viert

  /** A program: its dictionary, the machine code of each primitive with the NEXT at its end, and the word number of
      DOCOL. */
  datatype Source = Source(dict: Dictionary, code: seq<seq<Byte>>, docol: nat)

  ghost predicate SourceOk(src: Source) {
    && DictionaryOk(src.dict) && |src.code| == |src.dict| && src.docol < |src.dict|
    && (forall k :: 0 <= k < |src.dict| ==> (src.dict[k] == Primitive(Docol) <==> k == src.docol))
    && forall k :: 0 <= k < |src.dict| && src.dict[k].Primitive? ==> src.code[k] != []
  }

  // ----- sizes and addresses -----

  function TokenSize(s: Scheme): nat {
    match s
    case Four => 4
    case Two => 2
    case One(_) => 1
    case Table(_) => 1
  }

  function ItemSize(s: Scheme, it: Item): nat {
    TokenSize(s) + if it.Call? then 0 else if 0 <= it.n < 256 then 1 else 4
  }

  function BodySize(s: Scheme, items: seq<Item>): nat
    decreases |items|
  {
    if items == [] then 0 else ItemSize(s, items[0]) + BodySize(s, items[1..])
  }

  /** DEFFORTH puts a two-byte jump before the body, ENDDEF a token behind it. */
  function Size(src: Source, s: Scheme, k: nat): nat
    requires k < |src.dict| == |src.code|
  {
    match src.dict[k]
    case Primitive(_) => |src.code[k]|
    case Colon(body) => 2 + BodySize(s, body) + TokenSize(s)
  }

  /** `align`. */
  function RoundUp(x: nat, a: nat): nat
    requires a > 0
  {
    if x % a == 0 then x else x + a - x % a
  }

  lemma {:induction false} RoundedUp(x: nat, a: nat)
    requires a == 1 || a == 2 || a == 4 || a == 8
    ensures x <= RoundUp(x, a) < x + a && RoundUp(x, a) % a == 0
  {
    if x % a != 0 {
      NextMultiple(x / a, x % a, a);
    }
  }

  lemma {:induction false} NextMultiple(q: nat, r: nat, a: nat)
    requires a == 1 || a == 2 || a == 4 || a == 8
    ensures (a * q + r + a - r) % a == 0
  {
    if a == 2 {
      Quotient2(q + 1, 0);
    } else if a == 4 {
      Quotient4(q + 1, 0);
    } else if a == 8 {
      Quotient8(q + 1, 0);
    }
  }

  /** Where definition k begins, counted from the first; for k one past the last, where the table can begin. */
  function Offset(src: Source, s: Scheme, k: nat): nat
    requires k <= |src.dict| == |src.code| && Supported(s)
    decreases k
  {
    if k == 0 then 0 else RoundUp(Offset(src, s, k - 1) + Size(src, s, k - 1), Align(s))
  }

  lemma {:induction false} OffsetsGrow(src: Source, s: Scheme, j: nat, k: nat)
    requires SourceOk(src) && Supported(s) && j < k <= |src.dict|
    ensures Offset(src, s, j) + Size(src, s, j) <= Offset(src, s, k)
    decreases k
  {
    hide RoundUp;
    RoundedUp(Offset(src, s, k - 1) + Size(src, s, k - 1), Align(s));
    if j < k - 1 {
      OffsetsGrow(src, s, j, k - 1);
    }
  }

  lemma {:induction false} OffsetAligned(src: Source, s: Scheme, k: nat)
    requires SourceOk(src) && Supported(s) && k <= |src.dict|
    ensures Offset(src, s, k) % Align(s) == 0
  {
    if k > 0 {
      hide RoundUp;
      RoundedUp(Offset(src, s, k - 1) + Size(src, s, k - 1), Align(s));
    }
  }

  function Start(s: Scheme, org: Word): nat {
    org + HeaderSize(s)
  }

  /** The program has 32-bit addresses, is loaded at a multiple of 64 KB, and a table lies behind the code. */
  ghost predicate Placed(src: Source, s: Scheme, org: Word) {
    && SourceOk(src) && Supported(s) && org % 0x1_0000 == 0
    && Start(s, org) + Offset(src, s, |src.dict|) <= TWO32
    && (s.Table? ==> s.at >= Start(s, org) + Offset(src, s, |src.dict|))
  }

  /** The layout is the one DEF arrives at. */
  ghost predicate LaidOut(src: Source, s: Scheme, org: Word, l: Layout) {
    && Placed(src, s, org)
    && l.scheme == s && l.org == org && |l.defs| == |src.dict|
    && forall k :: 0 <= k < |src.dict| ==> l.defs[k] == Start(s, org) + Offset(src, s, k)
  }

  /** Every definition is within reach of a token. */
  predicate InReach(src: Source, s: Scheme)
    requires |src.code| == |src.dict| && Supported(s)
  {
    match s
    case Four => true
    case Two => forall k :: 0 <= k < |src.dict| ==> HeaderSize(s) + Offset(src, s, k) < 0x1_0000
    case One(a) => forall k :: 0 <= k < |src.dict| ==> HeaderSize(s) + Offset(src, s, k) < 256 * a
    case Table(_) =>
      |src.dict| <= 256 && forall k :: 0 <= k < |src.dict| ==> HeaderSize(s) + Offset(src, s, k) < 0x1_0000
  }

  /** The `jmp short` of every colon word reaches DOCOL. */
  predicate JumpsReach(src: Source, s: Scheme)
    requires |src.code| == |src.dict| && Supported(s) && src.docol < |src.dict|
  {
    forall k :: 0 <= k < |src.dict| && src.dict[k].Colon? ==>
      -128 <= Offset(src, s, src.docol) - (Offset(src, s, k) + 2) <= 127
  }

  // ----- bytes -----

  /** The bytes of definition k: machine code, or jump to DOCOL, body and EXIT. */
  function DefBytes(src: Source, l: Layout, k: nat): seq<Byte>
    requires k < |src.dict| == |l.defs| == |src.code| && src.docol < |src.dict| && Supported(l.scheme)
    requires |l.defs| >= 3 && (src.dict[k].Colon? ==> BodyCompiles(l, src.dict[k].body))
  {
    match src.dict[k]
    case Primitive(_) => src.code[k]
    case Colon(body) =>
      [0xEB, Low(l.defs[src.docol] - (l.defs[k] as int + 2))] + (Compile(l, body) + Token(l, EXIT))
  }

  predicate BodyCompiles(l: Layout, items: seq<Item>) {
    forall k :: 0 <= k < |items| && items[k].Call? ==> items[k].w < |l.defs|
  }

  lemma {:induction false} CompileSize(l: Layout, items: seq<Item>)
    requires Supported(l.scheme) && |l.defs| >= 3 && BodyCompiles(l, items)
    ensures |Compile(l, items)| == BodySize(l.scheme, items)
    decreases |items|
  {
    if items != [] {
      assert BodyCompiles(l, items[1..]) by {
        assert forall k :: 0 <= k < |items| - 1 ==> items[1..][k] == items[k + 1];
      }
      CompileSize(l, items[1..]);
    }
  }

  /** A literal from 0 to 255 takes a byte behind its token, any other four. */
  lemma {:induction false} LiteralSize(l: Layout, n: int)
    requires Supported(l.scheme) && |l.defs| >= 3
    ensures CompileItem(l, Lit(n)) == if 0 <= n <= 255 then Token(l, LIT8) + [n] else Token(l, LIT32) + Bytes4(n)
    ensures |CompileItem(l, Lit(n))| == TokenSize(l.scheme) + if 0 <= n <= 255 then 1 else 4
  {
  }

  /** Bytes put into memory from address a on. */
  function Emit(m: Memory, a: int, bytes: seq<Byte>): Memory
    decreases |bytes|
  {
    if bytes == [] then m else Emit(m[a := bytes[0]], a + 1, bytes[1..])
  }

  lemma {:induction false} EmitElsewhere(m: Memory, a: int, bytes: seq<Byte>, b: int)
    requires b < a || b >= a + |bytes|
    ensures Peek(Emit(m, a, bytes), b) == Peek(m, b)
    decreases |bytes|
  {
    if bytes != [] {
      EmitElsewhere(m[a := bytes[0]], a + 1, bytes[1..], b);
    }
  }

  lemma {:induction false} EmitHolds(m: Memory, a: int, bytes: seq<Byte>)
    ensures Holds(Emit(m, a, bytes), a, bytes)
    decreases |bytes|
  {
    if bytes != [] {
      var m' := m[a := bytes[0]];
      EmitHolds(m', a + 1, bytes[1..]);
      EmitElsewhere(m', a + 1, bytes[1..], a);
      forall k | 0 <= k < |bytes| ensures Peek(Emit(m, a, bytes), a + k) == bytes[k] {
        if k > 0 {
          assert Peek(Emit(m', a + 1, bytes[1..]), a + 1 + (k - 1)) == bytes[1..][k - 1];
        }
      }
    }
  }

  lemma {:induction false} HoldsBeside(m: Memory, a: int, bytes: seq<Byte>, b: int, other: seq<Byte>)
    requires Holds(m, a, bytes) && (a + |bytes| <= b || b + |other| <= a)
    ensures Holds(Emit(m, b, other), a, bytes)
  {
    forall k | 0 <= k < |bytes| ensures Peek(Emit(m, b, other), a + k) == bytes[k] {
      EmitElsewhere(m, b, other, a + k);
    }
  }

  /** The memory holds the definitions before number n. */
  ghost predicate HoldsDefs(src: Source, l: Layout, m: Memory, n: nat)
    requires SourceOk(src) && |l.defs| == |src.dict| && Supported(l.scheme) && n <= |src.dict|
  {
    forall k :: 0 <= k < n ==> BodiesCompile(src, l, k) && Holds(m, l.defs[k], DefBytes(src, l, k))
  }

  /** Bodies use earlier words only, so every token in them has its definition. */
  ghost predicate BodiesCompile(src: Source, l: Layout, k: nat)
    requires k < |src.dict|
  {
    src.dict[k].Colon? ==> BodyCompiles(l, src.dict[k].body)
  }

  lemma {:induction false} AllBodiesCompile(src: Source, l: Layout, k: nat)
    requires SourceOk(src) && |l.defs| == |src.dict| && k < |src.dict|
    ensures BodiesCompile(src, l, k)
  {
    if src.dict[k].Colon? {
      assert ItemsOk(src.dict, src.dict[k].body, k);
    }
  }

  /** The jump table's first n entries. */
  ghost predicate HoldsTable(l: Layout, m: Memory, n: nat)
    requires n <= |l.defs| && Supported(l.scheme) && l.scheme.Table?
  {
    forall i :: 0 <= i < n ==> Holds(m, l.scheme.at + 2 * i, Bytes2(TokenValue(l, HeaderSize(l.scheme), i)))
  }

  lemma {:induction false} DefBytesFit(src: Source, s: Scheme, org: Word, l: Layout, j: nat, k: nat)
    requires LaidOut(src, s, org, l) && j < k <= |src.dict|
    ensures BodiesCompile(src, l, j)
    ensures l.defs[j] as int + |DefBytes(src, l, j)| <= Start(s, org) + Offset(src, s, k)
  {
    AllBodiesCompile(src, l, j);
    OffsetsGrow(src, s, j, k);
    if src.dict[j].Colon? {
      CompileSize(l, src.dict[j].body);
    }
  }

  /** One more definition. */
  lemma {:induction false} EmitDef(src: Source, s: Scheme, org: Word, l: Layout, m: Memory, n: nat)
    requires LaidOut(src, s, org, l) && n < |src.dict| && HoldsDefs(src, l, m, n)
    ensures BodiesCompile(src, l, n)
    ensures HoldsDefs(src, l, Emit(m, l.defs[n], DefBytes(src, l, n)), n + 1)
  {
    AllBodiesCompile(src, l, n);
    var bytes := DefBytes(src, l, n);
    EmitHolds(m, l.defs[n], bytes);
    forall k | 0 <= k < n
      ensures BodiesCompile(src, l, k) && Holds(Emit(m, l.defs[n], bytes), l.defs[k], DefBytes(src, l, k))
    {
      DefBytesFit(src, s, org, l, k, n);
      HoldsBeside(m, l.defs[k], DefBytes(src, l, k), l.defs[n], bytes);
    }
  }

  /** Anything stored behind all the code. */
  lemma {:induction false} DefsKept(src: Source, s: Scheme, org: Word, l: Layout, m: Memory, b: int, bytes: seq<Byte>)
    requires LaidOut(src, s, org, l) && HoldsDefs(src, l, m, |src.dict|)
    requires b >= Start(s, org) + Offset(src, s, |src.dict|)
    ensures HoldsDefs(src, l, Emit(m, b, bytes), |src.dict|)
  {
    forall k | 0 <= k < |src.dict|
      ensures BodiesCompile(src, l, k) && Holds(Emit(m, b, bytes), l.defs[k], DefBytes(src, l, k))
    {
      DefBytesFit(src, s, org, l, k, |src.dict|);
      HoldsBeside(m, l.defs[k], DefBytes(src, l, k), b, bytes);
    }
  }

  /** One more table entry. */
  lemma {:induction false} EntryAdded(l: Layout, m: Memory, n: nat)
    requires Supported(l.scheme) && l.scheme.Table? && n < |l.defs| && HoldsTable(l, m, n)
    ensures HoldsTable(l, Emit(m, l.scheme.at + 2 * n, Bytes2(TokenValue(l, HeaderSize(l.scheme), n))), n + 1)
  {
    hide TokenValue, HeaderSize, Holds, Emit;
    var h := HeaderSize(l.scheme);
    var entry := Bytes2(TokenValue(l, h, n));
    EmitHolds(m, l.scheme.at + 2 * n, entry);
    forall i | 0 <= i < n ensures Holds(Emit(m, l.scheme.at + 2 * n, entry), l.scheme.at + 2 * i, Bytes2(TokenValue(l, h, i))) {
      HoldsBeside(m, l.scheme.at + 2 * i, Bytes2(TokenValue(l, h, i)), l.scheme.at + 2 * n, entry);
    }
  }

  // ----- the image -----

  lemma {:induction false} DefsApart(src: Source, s: Scheme, org: Word, l: Layout)
    requires LaidOut(src, s, org, l)
    ensures forall i, j :: 0 <= i < j < |l.defs| ==> l.defs[i] < l.defs[j]
  {
    forall i, j | 0 <= i < j < |l.defs| ensures l.defs[i] < l.defs[j] {
      OffsetsGrow(src, s, i, j);
    }
  }

  /** The layout is valid exactly if every definition is within reach. */
  lemma {:induction false} LayoutValidIff(src: Source, s: Scheme, org: Word, l: Layout, m: Memory)
    requires LaidOut(src, s, org, l) && (s.Table? ==> HoldsTable(l, m, |src.dict|))
    ensures ValidLayout(l, m) <==> InReach(src, s)
  {
    assert Offset(src, s, 0) == 0;
    hide Offset, TokenValue;
    forall k | 0 <= k < |src.dict|
      ensures l.defs[0] <= l.defs[k] && (l.defs[k] - l.defs[0] as int) % Align(s) == 0
      ensures l.defs[k] - l.org as int == HeaderSize(s) + Offset(src, s, k)
    {
      OffsetAligned(src, s, k);
    }
  }

  lemma {:induction false} ColonBodyHeld(src: Source, l: Layout, m: Memory, k: nat)
    requires SourceOk(src) && |l.defs| == |src.dict| && Supported(l.scheme) && k < |src.dict|
    requires HoldsDefs(src, l, m, |src.dict|) && src.dict[k].Colon?
    ensures BodiesCompile(src, l, k)
    ensures Holds(m, l.defs[k] as int + 2, Compile(l, src.dict[k].body) + Token(l, EXIT))
  {
    var rest := Compile(l, src.dict[k].body) + Token(l, EXIT);
    var bytes := DefBytes(src, l, k);
    assert |bytes| == |rest| + 2 && bytes[2..] == rest;
    forall i | 0 <= i < |rest| ensures Peek(m, l.defs[k] as int + 2 + i) == rest[i] {
      assert Peek(m, l.defs[k] as int + (i + 2)) == bytes[i + 2];
      assert bytes[i + 2] == bytes[2..][i];
    }
  }

  lemma {:induction false} BodiesHeld(src: Source, l: Layout, m: Memory)
    requires SourceOk(src) && |l.defs| == |src.dict| && Supported(l.scheme) && HoldsDefs(src, l, m, |src.dict|)
    ensures HoldsBodies(l, m, src.dict)
  {
    forall k | 0 <= k < |src.dict| && src.dict[k].Colon?
      ensures BodiesCompile(src, l, k)
      ensures Holds(m, l.defs[k] as int + 2, Compile(l, src.dict[k].body) + Token(l, EXIT))
    {
      ColonBodyHeld(src, l, m, k);
    }
  }

  lemma {:induction false} JumpDecodes(m: Memory, a: int, target: int)
    requires Peek(m, a) == 0xEB && Peek(m, a + 1) == Low(target - (a + 2))
    ensures JumpTarget(m, a) == Some(target) <==> -128 <= target - (a + 2) <= 127
  {
  }

  lemma {:induction false} JumpLeads(src: Source, s: Scheme, org: Word, l: Layout, m: Memory, k: nat)
    requires LaidOut(src, s, org, l) && HoldsDefs(src, l, m, |src.dict|) && k < |src.dict| && src.dict[k].Colon?
    ensures JumpTarget(m, l.defs[k]) == Some(l.defs[src.docol] as int) <==>
            -128 <= Offset(src, s, src.docol) - (Offset(src, s, k) + 2) <= 127
  {
    AllBodiesCompile(src, l, k);
    var bytes := DefBytes(src, l, k);
    hide Compile, Token, Offset, JumpTarget;
    assert Peek(m, l.defs[k] as int + 0) == bytes[0] && Peek(m, l.defs[k] as int + 1) == bytes[1];
    JumpDecodes(m, l.defs[k], l.defs[src.docol]);
  }

  /** The jumps lead to DOCOL exactly if they reach that far. */
  lemma {:induction false} JumpsIff(src: Source, s: Scheme, org: Word, l: Layout, m: Memory)
    requires LaidOut(src, s, org, l) && HoldsDefs(src, l, m, |src.dict|)
    ensures JumpsToDocol(l, m, src.dict) <==> JumpsReach(src, s)
  {
    hide Offset, HoldsDefs, JumpTarget, DictionaryOk;
    forall k | 0 <= k < |src.dict| && src.dict[k].Colon?
      ensures (exists j :: 0 <= j < |src.dict| && src.dict[j] == Primitive(Docol) &&
                 JumpTarget(m, l.defs[k]) == Some(l.defs[j] as int)) <==>
              -128 <= Offset(src, s, src.docol) - (Offset(src, s, k) + 2) <= 127
    {
      JumpLeads(src, s, org, l, m, k);
      OnlyDocol(src, l, m, k);
    }
  }

  lemma {:induction false} OnlyDocol(src: Source, l: Layout, m: Memory, k: nat)
    requires SourceOk(src) && |l.defs| == |src.dict| && k < |src.dict|
    ensures (exists j :: 0 <= j < |src.dict| && src.dict[j] == Primitive(Docol) &&
               JumpTarget(m, l.defs[k]) == Some(l.defs[j] as int)) <==>
            JumpTarget(m, l.defs[k]) == Some(l.defs[src.docol] as int)
  {
    hide JumpTarget, DictionaryOk;
  }

  /** An assembled program is what the interpreter relies on exactly if every definition is within reach of a token and
      DOCOL within reach of every colon word. */
  lemma {:induction false} ImageOkIff(src: Source, s: Scheme, org: Word, l: Layout, m: Memory)
    requires LaidOut(src, s, org, l) && HoldsDefs(src, l, m, |src.dict|)
    requires s.Table? ==> HoldsTable(l, m, |src.dict|)
    ensures ImageOk(Image(l, m, src.dict)) <==> InReach(src, s) && JumpsReach(src, s)
  {
    LayoutValidIff(src, s, org, l, m);
    JumpsIff(src, s, org, l, m);
    DefsApart(src, s, org, l);
    BodiesHeld(src, l, m);
    hide ValidLayout, InReach, JumpsReach, JumpsToDocol, HoldsDefs, HoldsTable, HoldsBodies, Offset;
  }

  /** The addresses DEF gives out, counting words. */
  method PlaceDefs(src: Source, s: Scheme, org: Word) returns (defs: seq<Word>)
    requires Placed(src, s, org)
    ensures LaidOut(src, s, org, Layout(s, org, defs))
  {
    hide RoundUp, HeaderSize, Size;
    defs := [];
    var at, wordCount := 0, 0;
    while wordCount < |src.dict|
      invariant 0 <= wordCount <= |src.dict| == |src.code| && |defs| == wordCount
      invariant at == Offset(src, s, wordCount)
      invariant forall k :: 0 <= k < wordCount ==> defs[k] == Start(s, org) + Offset(src, s, k)
    {
      OffsetsGrow(src, s, wordCount, |src.dict|);
      SizePositive(src, s, wordCount);
      defs := defs + [Start(s, org) + at];
      at := RoundUp(at + Size(src, s, wordCount), Align(s));
      wordCount := wordCount + 1;
    }
  }

  /** The definitions one by one. */
  method EmitDefs(src: Source, s: Scheme, org: Word, l: Layout) returns (m: Memory)
    requires LaidOut(src, s, org, l)
    ensures HoldsDefs(src, l, m, |src.dict|)
  {
    hide Offset, DefBytes, Emit, HeaderSize;
    m := map[];
    for k := 0 to |src.dict|
      invariant HoldsDefs(src, l, m, k)
    {
      EmitDef(src, s, org, l, m, k);
      m := Emit(m, l.defs[k], DefBytes(src, l, k));
    }
  }

  /** The `%rep` loop over the jump table. */
  method EmitTable(src: Source, s: Scheme, org: Word, l: Layout, code: Memory) returns (m: Memory)
    requires LaidOut(src, s, org, l) && s.Table? && HoldsDefs(src, l, code, |src.dict|)
    ensures HoldsDefs(src, l, m, |src.dict|) && HoldsTable(l, m, |src.dict|)
  {
    m := code;
    for i := 0 to |src.dict|
      invariant HoldsDefs(src, l, m, |src.dict|) && HoldsTable(l, m, i)
    {
      var entry := Bytes2(TokenValue(l, HeaderSize(s), i));
      hide HoldsDefs, Offset, Emit, TokenValue, HeaderSize, Holds;
      DefsKept(src, s, org, l, m, s.at + 2 * i, entry);
      EntryAdded(l, m, i);
      m := Emit(m, s.at + 2 * i, entry);
    }
  }

  /** A whole program: it is what the interpreter relies on exactly if the tokens and the jumps reach. */
  method Assemble(src: Source, s: Scheme, org: Word) returns (img: Image)
    requires Placed(src, s, org)
    ensures img.dict == src.dict && LaidOut(src, s, org, img.layout)
    ensures HoldsDefs(src, img.layout, img.mem, |src.dict|)
    ensures ImageOk(img) <==> InReach(src, s) && JumpsReach(src, s)
  {
    var defs := PlaceDefs(src, s, org);
    var l := Layout(s, org, defs);
    hide HoldsDefs, HoldsTable, ImageOk, InReach, JumpsReach, Offset;
    var m := EmitDefs(src, s, org, l);
    if s.Table? {
      m := EmitTable(src, s, org, l, m);
    }
    img := Image(l, m, src.dict);
    ImageOkIff(src, s, org, l, m);
  }

  lemma {:induction false} SizePositive(src: Source, s: Scheme, k: nat)
    requires SourceOk(src) && k < |src.dict|
    ensures Size(src, s, k) > 0
  {
  }
}
