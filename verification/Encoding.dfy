/** Token threads: how the WORD macro encodes a definition and how NEXT gets its address back. */
module Encoding {
  import opened Basics

  /** The four-byte, two-byte and one-byte tokens without a table, and one-byte tokens that index a table
      of 16-bit offsets. Only the one-byte form without a table supports an alignment. */
  datatype Scheme = Four | Two | One(align: nat) | Table(at: Word)

  predicate Supported(s: Scheme) {
    s.One? ==> s.align == 1 || s.align == 2 || s.align == 4 || s.align == 8
  }

  /** `ELF_HEADER_SIZE`: one ELF header, one program header, and padding for alignment 8. */
  function HeaderSize(s: Scheme): nat {
    52 + 1 * 32 + if s.One? && s.align == 8 then 4 else 0
  }

  function Align(s: Scheme): nat {
    if s.One? then s.align else 1
  }

  /** Where things were assembled: the load address and each definition's address. */
  datatype Layout = Layout(scheme: Scheme, org: Word, defs: seq<Word>)

  function Low(w: int): Byte {
    w % 256
  }

  function Bytes2(w: int): seq<Byte> {
    [Low(w), Low(w / 256)]
  }

  function Bytes4(w: int): seq<Byte> {
    [Low(w), Low(w / 256), Low(w / 256 / 256), Low(w / 256 / 256 / 256)]
  }

  /** The lowest byte comes first. */
  lemma {:induction false} LittleEndian(a: Byte, b: Byte, c: Byte, d: Byte)
    ensures Bytes4(a + 0x100 * b + 0x1_0000 * c + 0x100_0000 * d) == [a, b, c, d] && Bytes2(a + 0x100 * b) == [a, b]
  {
    var w2 := c + 0x100 * d;
    var w1 := b + 0x100 * w2;
    var w := a + 0x100 * w1;
    assert w % 256 == a && w / 256 == w1 && w1 % 256 == b && w1 / 256 == w2 && w2 % 256 == c && w2 / 256 == d;
  }

  /** `(DEF - DEF0 + ELF_HEADER_SIZE) / WORD_ALIGN` with header size h. */
  function TokenValue(l: Layout, h: nat, i: nat): int
    requires i < |l.defs| && Supported(l.scheme)
  {
    (l.defs[i] - l.defs[0] as int + h) / Align(l.scheme)
  }

  /** `WORD i`. */
  function Token(l: Layout, i: nat): seq<Byte>
    requires i < |l.defs| && Supported(l.scheme)
  {
    match l.scheme
    case Four => Bytes4(l.defs[i])
    case Two => Bytes2(TokenValue(l, HeaderSize(l.scheme), i))
    case One(_) => [Low(TokenValue(l, HeaderSize(l.scheme), i))]
    case Table(_) => [Low(i)]
  }

  // ----- memory -----

  function Peek2(m: Memory, a: int): int {
    Peek(m, a) + 256 * Peek(m, a + 1)
  }

  function Peek4(m: Memory, a: int): Word {
    Peek(m, a) + 256 * Peek(m, a + 1) + 0x1_0000 * Peek(m, a + 2) + 0x100_0000 * Peek(m, a + 3)
  }

  ghost predicate Holds(m: Memory, a: int, bytes: seq<Byte>) {
    forall k :: 0 <= k < |bytes| ==> Peek(m, a + k) == bytes[k]
  }

  // ----- NEXT -----

  /** The address NEXT jumps to, left in eax, and the new thread pointer; edi holds the load address. */
  function Fetch(l: Layout, m: Memory, esi: int): (int, int) {
    match l.scheme
    case Four => (Peek4(m, esi), esi + 4)
    case Two => (l.org - l.org % 0x1_0000 + Peek2(m, esi), esi + 2)
    case One(align) =>
      if align > 1 then (align * Peek(m, esi) + l.org, esi + 1)
      else (l.org - l.org % 256 + Peek(m, esi), esi + 1)
    case Table(at) => (Peek2(m, at + 2 * Peek(m, esi)) + l.org, esi + 1)
  }

  /** The assembled program: code starts right behind the headers, every definition is aligned and within
      reach of a token, and the jump table lists every definition's offset. */
  ghost predicate ValidLayout(l: Layout, m: Memory) {
    && Supported(l.scheme) && |l.defs| > 0 && l.org % 0x1_0000 == 0
    && l.defs[0] == l.org + HeaderSize(l.scheme)
    && (forall i :: 0 <= i < |l.defs| ==> l.defs[0] <= l.defs[i] && (l.defs[i] - l.defs[0] as int) % Align(l.scheme) == 0)
    && (l.scheme.Two? || l.scheme.Table? ==> forall i :: 0 <= i < |l.defs| ==> l.defs[i] - l.org as int < 0x1_0000)
    && (l.scheme.One? ==> forall i :: 0 <= i < |l.defs| ==> l.defs[i] - l.org as int < 256 * l.scheme.align)
    && (l.scheme.Table? ==>
          && |l.defs| <= 256
          && forall i :: 0 <= i < |l.defs| ==>
            Holds(m, l.scheme.at + 2 * i, Bytes2(TokenValue(l, HeaderSize(l.scheme), i))))
  }

  lemma {:induction false} Peek2Holds(m: Memory, a: int, w: int)
    requires 0 <= w < 0x1_0000 && Holds(m, a, Bytes2(w))
    ensures Peek2(m, a) == w
  {
    assert Peek(m, a + 0) == Bytes2(w)[0] && Peek(m, a + 1) == Bytes2(w)[1];
  }

  lemma {:induction false} Peek4Holds(m: Memory, a: int, w: int)
    requires 0 <= w < 0x1_0000_0000 && Holds(m, a, Bytes4(w))
    ensures Peek4(m, a) == w
  {
    var b := Bytes4(w);
    assert Peek(m, a + 0) == b[0] && Peek(m, a + 1) == b[1] && Peek(m, a + 2) == b[2] && Peek(m, a + 3) == b[3];
    var q1, q2, q3 := w / 256, w / 256 / 256, w / 256 / 256 / 256;
    assert w == 256 * q1 + b[0] && q1 == 256 * q2 + b[1] && q2 == 256 * q3 + b[2] && q3 == b[3];
  }

  /** Under every scheme NEXT on the token of definition i goes to definition i with its address in eax,
      and steps over exactly the token. */
  lemma {:induction false} FetchToken(l: Layout, m: Memory, esi: int, i: nat)
    requires ValidLayout(l, m) && i < |l.defs| && Holds(m, esi, Token(l, i))
    ensures Fetch(l, m, esi) == (l.defs[i], esi + |Token(l, i)|)
  {
    var offset := l.defs[i] - l.org as int;
    match l.scheme {
      case Four =>
        Peek4Holds(m, esi, l.defs[i]);
      case Two =>
        assert TokenValue(l, HeaderSize(l.scheme), i) == offset;
        Peek2Holds(m, esi, offset);
      case One(_) =>
        FetchByte(l, m, esi, i);
      case Table(at) =>
        assert TokenValue(l, HeaderSize(l.scheme), i) == offset;
        assert Peek(m, esi + 0) == Token(l, i)[0] == i;
        Peek2Holds(m, at + 2 * i, offset);
    }
  }

  lemma {:induction false} QuotientFits(a: int, v: int, offset: int)
    requires a == 1 || a == 2 || a == 4 || a == 8
    requires a * v == offset && 0 <= offset < 256 * a
    ensures 0 <= v < 256
  {
    if a == 1 {
    } else if a == 2 {
    } else if a == 4 {
    } else {
    }
  }

  lemma {:induction false} FetchByte(l: Layout, m: Memory, esi: int, i: nat)
    requires ValidLayout(l, m) && l.scheme.One? && i < |l.defs| && Holds(m, esi, Token(l, i))
    ensures Fetch(l, m, esi) == (l.defs[i], esi + 1)
  {
    var v := TokenValue(l, HeaderSize(l.scheme), i);
    TokenInByte(l, m, i);
    hide TokenValue, HeaderSize, ValidLayout;
    assert Peek(m, esi + 0) == Token(l, i)[0] == v;
    FetchOne(l, m, esi, v, l.defs[i] - l.org as int);
  }

  lemma {:induction false} TokenInByte(l: Layout, m: Memory, i: nat)
    requires ValidLayout(l, m) && l.scheme.One? && i < |l.defs|
    ensures Supported(l.scheme) && l.org % 0x1_0000 == 0
    ensures var v := TokenValue(l, HeaderSize(l.scheme), i);
      0 <= v < 256 && l.scheme.align * v == l.defs[i] - l.org as int
  {
    AlignedOffset(l, i, HeaderSize(l.scheme));
    hide TokenValue;
    QuotientFits(l.scheme.align, TokenValue(l, HeaderSize(l.scheme), i), l.defs[i] - l.org as int);
  }

  lemma {:induction false} FetchOne(l: Layout, m: Memory, esi: int, v: int, offset: int)
    requires l.scheme.One? && Supported(l.scheme) && l.org % 0x1_0000 == 0
    requires Peek(m, esi) == v && l.scheme.align * v == offset
    ensures Fetch(l, m, esi) == (l.org + offset, esi + 1)
  {
    var a := l.scheme.align;
    if a == 1 {
      WholeSegments(l.org);
      assert v == offset;
    } else {
      hide Peek;
    }
  }

  /** The division in a token is exact if and only if the header size is a multiple of the alignment;
      this is what the four bytes of padding at alignment 8 are for. */
  lemma {:induction false} AlignedOffset(l: Layout, i: nat, h: nat)
    requires Supported(l.scheme) && i < |l.defs| && l.defs[0] <= l.defs[i]
    requires (l.defs[i] - l.defs[0] as int) % Align(l.scheme) == 0
    ensures Align(l.scheme) * TokenValue(l, h, i) == l.defs[i] - l.defs[0] as int + h <==> h % Align(l.scheme) == 0
  {
    ExactDivision(l.defs[i] - l.defs[0] as int, h, Align(l.scheme));
  }

  lemma {:induction false} ExactDivision(d: int, h: int, a: int)
    requires a == 1 || a == 2 || a == 4 || a == 8
    requires d % a == 0
    ensures a * ((d + h) / a) == d + h <==> h % a == 0
  {
    var q, k, r := d / a, h / a, h % a;
    if a == 2 {
      Quotient2(q + k, r);
    } else if a == 4 {
      Quotient4(q + k, r);
    } else if a == 8 {
      Quotient8(q + k, r);
    }
  }

  lemma {:induction false} Quotient2(q: int, r: int)
    requires 0 <= r < 2
    ensures (2 * q + r) / 2 == q
  {
  }

  lemma {:induction false} Quotient4(q: int, r: int)
    requires 0 <= r < 4
    ensures (4 * q + r) / 4 == q
  {
  }

  lemma {:induction false} Quotient8(q: int, r: int)
    requires 0 <= r < 8
    ensures (8 * q + r) / 8 == q
  {
  }

  /** The header and its padding: 84 bytes, and 88 so that alignment 8 divides it. */
  lemma {:induction false} HeaderSizes(s: Scheme)
    requires Supported(s)
    ensures HeaderSize(s) == (if s == One(8) then 88 else 84) && HeaderSize(s) % Align(s) == 0
  {
  }

  /** Without the padding alignment 8 would miss every definition. */
  lemma {:induction false} UnpaddedAlignmentMisses(l: Layout, i: nat)
    requires l.scheme == One(8) && i < |l.defs| && l.defs[0] <= l.defs[i]
    requires (l.defs[i] - l.defs[0] as int) % 8 == 0
    ensures 8 * TokenValue(l, 84, i) == l.defs[i] - l.defs[0] as int + 84 - 4
  {
  }
}
