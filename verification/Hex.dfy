/** tohex: eight hex digits by rotating a register and the cmp, sbb, das digit trick. */
module Hex {
  import opened Basics
  import opened X86

  type Nibble = d: int | 0 <= d < 16

  /** `cmp al, 10`, `sbb al, 0x69`, `das` on a nibble in al. */
  function DigitTrick(d: Nibble): int {
    var carry := if d < 10 then 1 else 0;
    var al := (d - 0x69 - carry) % 256;
    var af := d - 9 - carry < 0;
    AdjustAfterSubtract(al, true, af).0
  }

  /** The trick yields the ASCII hex digit. */
  lemma {:induction false} DigitTrickIsHex(d: Nibble)
    ensures DigitTrick(d) == if d < 10 then '0' as int + d else 'A' as int + (d - 10)
  {
  }

  lemma {:induction false} HexDigits(d: Nibble)
    ensures DigitTrick(d) == "0123456789ABCDEF"[d] as int
  {
    DigitTrickIsHex(d);
  }

  function RotateLeft4(x: Word): Word {
    x % 0x1000_0000 * 16 + x / 0x1000_0000
  }

  function Pow16(k: nat): (p: int)
    ensures p >= 1
  {
    if k == 0 then 1 else 16 * Pow16(k - 1)
  }

  /** The k low nibbles of x, most significant first. */
  function Nibbles(x: nat, k: nat): (s: seq<Nibble>)
    ensures |s| == k
    decreases k
  {
    if k == 0 then [] else Nibbles(x / 16, k - 1) + [x % 16]
  }

  function FromNibbles(s: seq<Nibble>): nat
    decreases |s|
  {
    if s == [] then 0 else 16 * FromNibbles(s[..|s| - 1]) + s[|s| - 1]
  }

  function Digits(s: seq<Nibble>): seq<int> {
    seq(|s|, i requires 0 <= i < |s| => DigitTrick(s[i]))
  }

  lemma {:induction false} NibblesBack(x: nat, k: nat)
    requires x < Pow16(k)
    ensures FromNibbles(Nibbles(x, k)) == x
    decreases k
  {
    if k > 0 {
      NibblesBack(x / 16, k - 1);
      var s := Nibbles(x, k);
      assert s[..k - 1] == Nibbles(x / 16, k - 1);
    }
  }

  /** The nibbles of a number with a digit t put in front. */
  lemma {:induction false} NibblesTop(t: Nibble, x: nat, k: nat)
    requires x < Pow16(k)
    ensures Nibbles(t * Pow16(k) + x, k + 1) == [t] + Nibbles(x, k)
    decreases k
  {
    if k == 0 {
      assert Nibbles(t, 1) == Nibbles(0, 0) + [t];
    } else {
      var p := Pow16(k - 1);
      assert t * Pow16(k) == 16 * (t * p);
      assert (16 * (t * p) + x) / 16 == t * p + x / 16 && (16 * (t * p) + x) % 16 == x % 16;
      NibblesTop(t, x / 16, k - 1);
    }
  }

  /** Rotating by four bits moves the first nibble to the end. */
  lemma {:induction false} RotateNibbles(x: Word)
    ensures Nibbles(RotateLeft4(x), 8) == Nibbles(x, 8)[1..] + [Nibbles(x, 8)[0]]
  {
    var t, rest := x / 0x1000_0000, x % 0x1000_0000;
    Pow16Seven();
    NibblesTop(t, rest, 7);
    assert RotateLeft4(x) / 16 == rest && RotateLeft4(x) % 16 == t;
  }

  lemma {:induction false} Pow16Seven()
    ensures Pow16(7) == 0x1000_0000 && Pow16(8) == TWO32
  {
    assert Pow16(3) == 0x1000 && Pow16(6) == 0x1000 * Pow16(3);
  }

  /** The loop: eight digits that read back as the register are stored from edi on, and the register ends
      as it began. */
  method ToHex(buffer: array<int>, edi: nat, x: Word) returns (x': Word)
    requires edi + 8 <= buffer.Length
    modifies buffer
    ensures buffer[edi..edi + 8] == Digits(Nibbles(x, 8)) && FromNibbles(Nibbles(x, 8)) == x
    ensures buffer[..edi] == old(buffer[..edi]) && buffer[edi + 8..] == old(buffer[edi + 8..])
    ensures x' == x
  {
    hide DigitTrick, RotateLeft4, FromNibbles, Nibbles;
    ghost var n := Nibbles(x, 8);
    x' := x;
    var count := 8;
    assert n[0..] + n[..0] == n;
    while count != 0
      invariant 0 <= count <= 8
      invariant Nibbles(x', 8) == n[8 - count..] + n[..8 - count]
      invariant buffer[edi..edi + (8 - count)] == Digits(n[..8 - count])
      invariant buffer[..edi] == old(buffer[..edi]) && buffer[edi + 8..] == old(buffer[edi + 8..])
    {
      RotateNibbles(x');
      LastNibble(RotateLeft4(x'));
      ghost var k := 8 - count;
      assert (n[k..] + n[..k])[1..] + [n[k]] == n[k + 1..] + n[..k + 1];
      assert Digits(n[..k + 1]) == Digits(n[..k]) + [DigitTrick(n[k])];
      assert RotateLeft4(x') % 16 == n[k];
      x' := RotateLeft4(x');
      var al := x' % 16;
      buffer[edi + (8 - count)] := DigitTrick(al);
      assert buffer[edi..edi + (k + 1)] == buffer[edi..edi + k] + [DigitTrick(al)];
      count := count - 1;
    }
    assert n[8..] + n[..8] == n && n[..8] == n;
    Pow16Seven();
    NibblesBack(x, 8);
    NibblesBack(x', 8);
  }

  lemma {:induction false} LastNibble(x: Word)
    ensures Nibbles(x, 8)[7] == x % 16
  {
  }
}
