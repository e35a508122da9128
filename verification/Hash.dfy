/** The hash of crc2d.asm: each byte is added to nine times the accumulator and the sum rotated right by
    twelve bits. A byte is read into the lowest byte of the dword on top of the stack and popped with the other
    three; only for the first byte can these be other than zero. */
module Hash {
  import opened Basics
  import X86

  function RotateRight12(x: Word): Word {
    x / 4096 + x % 4096 * 0x10_0000
  }

  function RotateLeft12(x: Word): Word {
    x / 0x10_0000 + x % 0x10_0000 * 4096
  }

  /** `lea esi, [9*esi]`, `add esi, eax`, `ror esi, 12`. */
  function Mix(h: Word, a: Word): Word {
    RotateRight12((9 * h + a) % TWO32)
  }

  function RotatedRight(x: Word, n: nat): Word
    decreases n
  {
    if n == 0 then x else X86.RotateRight1(RotatedRight(x, n - 1))
  }

  lemma {:induction false} MulBounds(m: int, d: int)
    requires m > 0
    ensures d >= 1 ==> m * d >= m
    ensures d <= -1 ==> m * d <= -m
  {
    if d >= 1 {
      assert m * (d - 1) >= 0;
    } else if d <= -1 {
      assert m * (-1 - d) >= 0;
    }
  }

  lemma {:induction false} DivisionUnique(x: int, m: int, q: int, r: int)
    requires m > 0 && x == m * q + r && 0 <= r < m
    ensures x / m == q && x % m == r
  {
    var d := x / m - q;
    assert m * (x / m) + x % m == x;
    assert m * d == m * (x / m) - m * q;
    MulBounds(m, d);
  }

  /** x rotated right by k bits, for p = 2^k and q = 2^(32 - k). */
  function Turned(x: Word, p: int, q: int): int
    requires p > 0
  {
    x / p + x % p * q
  }

  lemma {:induction false} HalveParts(x: int, p: int, a: int, r: int, b: int, c: int)
    requires x == p * a + r && 0 <= r < p && a == 2 * b + c && (c == 0 || c == 1)
    ensures x == (2 * p) * b + (p * c + r) && 0 <= p * c + r < 2 * p
  {
    if c == 0 {
      assert p * a == (2 * p) * b;
    } else {
      assert p * a == (2 * p) * b + p;
    }
  }

  /** Halving a quotient. */
  lemma {:induction false} HalveQuotient(x: Word, p: int, a: int, r: int)
    requires p > 0 && a == x / p && r == x % p
    ensures x / (2 * p) == a / 2 && x % (2 * p) == p * (a % 2) + r
  {
    HalveParts(x, p, a, r, a / 2, a % 2);
    DivisionUnique(x, 2 * p, a / 2, p * (a % 2) + r);
  }

  /** One more bit. */
  lemma {:induction false} TurnedOnce(x: Word, p: int, q: int)
    requires p > 0 && p * q == 0x8000_0000 && 0 <= Turned(x, p, 2 * q) < TWO32
    ensures X86.RotateRight1(Turned(x, p, 2 * q)) == Turned(x, 2 * p, q)
  {
    var a, r := x / p, x % p;
    HalveQuotient(x, p, a, r);
    var t := r * q;
    assert r * (2 * q) == 2 * t;
    var c := a % 2;
    assert (p * c + r) * q == c * (p * q) + t;
    HalveSum(a, t);
  }

  lemma {:induction false} HalveSum(a: int, t: int)
    ensures (a + 2 * t) / 2 == a / 2 + t && (a + 2 * t) % 2 == a % 2
  {
  }

  lemma {:induction false} RotateFrom(x: Word, n: nat, p: int, q: int)
    requires p > 0 && p * q == 0x8000_0000 && RotatedRight(x, n) == Turned(x, p, 2 * q)
    ensures RotatedRight(x, n + 1) == Turned(x, 2 * p, q)
  {
    TurnedOnce(x, p, q);
  }

  lemma {:induction false} RotateTwelve(x: Word)
    ensures RotatedRight(x, 12) == RotateRight12(x)
  {
    assert RotatedRight(x, 0) == x == Turned(x, 1, TWO32);
    hide RotatedRight, Turned;
    RotateFrom(x, 0, 1, 0x8000_0000);
    RotateFrom(x, 1, 2, 0x4000_0000);
    RotateFrom(x, 2, 4, 0x2000_0000);
    RotateFrom(x, 3, 8, 0x1000_0000);
    RotateFrom(x, 4, 16, 0x800_0000);
    RotateFrom(x, 5, 32, 0x400_0000);
    RotateFrom(x, 6, 64, 0x200_0000);
    RotateFrom(x, 7, 128, 0x100_0000);
    RotateFrom(x, 8, 256, 0x80_0000);
    RotateFrom(x, 9, 512, 0x40_0000);
    RotateFrom(x, 10, 1024, 0x20_0000);
    RotateFrom(x, 11, 2048, 0x10_0000);
    TurnedTwelve(x);
  }

  lemma {:induction false} TurnedTwelve(x: Word)
    ensures Turned(x, 4096, 0x10_0000) == RotateRight12(x)
  {
  }

  /** The mixing step in single instructions: nine times the accumulator, the addend, and twelve rotations by one. */
  lemma {:induction false} MixInSteps(h: Word, a: Word)
    ensures Mix(h, a) == RotatedRight(Wrap(Wrap(h as int + 8 * h) as int + a), 12)
  {
    WrapSum(9 * (h as int), a);
    RotateTwelve(Wrap(9 * (h as int) + a));
    hide RotatedRight, RotateRight12;
  }

  /** 9 * NINTH is 1 modulo 2^32. */
  const NINTH := 954437177

  function Unmix(k: Word, a: Word): Word {
    (RotateLeft12(k) as int - a) * NINTH % TWO32
  }

  /** The dword popped after b was read over the lowest byte of top. */
  function Popped(top: Word, b: Byte): Word {
    top - top % 256 + b
  }

  /** The accumulator after s, from h, with top on the stack at the first read. */
  function Digest(h: Word, top: Word, s: seq<Byte>): Word
    decreases |s|
  {
    if s == [] then h else Digest(Mix(h, Popped(top, s[0])), 0, s[1..])
  }

  /** The read loop over the whole input. The stack top is the argument vector's next pointer: zero for a single
      file name, the program's name for standard input. */
  method ReadLoop(input: seq<Byte>, start: Word, argv: Word) returns (esi: Word)
    ensures esi == Digest(start, argv, input)
  {
    hide RotateRight12;
    esi := start;
    var top: Word := argv;
    for i := 0 to |input|
      invariant Digest(esi, top, input[i..]) == Digest(start, argv, input)
    {
      assert input[i..][1..] == input[i + 1..];
      var h: int := esi;
      top := Popped(top, input[i]);
      var eax: Word := top;
      WrapSum(9 * h, eax);
      esi := 9 * h % TWO32;
      esi := (esi as int + eax) % TWO32;
      esi := RotateRight12(esi);
      assert esi == Mix(h, eax);
      top := 0;
    }
  }

  lemma {:induction false} RotationsCancel(x: Word)
    ensures RotateLeft12(RotateRight12(x)) == x && RotateRight12(RotateLeft12(x)) == x
  {
    assert RotateRight12(x) / 0x10_0000 == x % 4096 && RotateRight12(x) % 0x10_0000 == x / 4096;
    assert RotateLeft12(x) / 4096 == x % 0x10_0000 && RotateLeft12(x) % 4096 == x / 0x10_0000;
  }

  lemma {:induction false} ModOnce(a: int, k: int)
    ensures (a + k * TWO32) % TWO32 == a % TWO32
  {
  }

  /** Multiplying by 9 and then by NINTH, both modulo 2^32, changes nothing. */
  lemma {:induction false} NinthCancels(h: Word, b: int, q: int, r: int)
    requires r == 9 * h + b - q * TWO32
    ensures (r - b) * NINTH % TWO32 == h
  {
    assert (r - b) * NINTH == h + (2 * h - q * NINTH) * TWO32;
    ModOnce(h, 2 * h - q * NINTH);
  }

  lemma {:induction false} NineCancels(x: int, b: int, q: int, h: int)
    requires h == x * NINTH - q * TWO32
    ensures (9 * h + b) % TWO32 == (x + b) % TWO32
  {
    assert 9 * h + b == x + b + (2 * x - 9 * q) * TWO32;
    ModOnce(x + b, 2 * x - 9 * q);
  }

  /** A mixing step can be undone. */
  lemma {:induction false} UnmixMix(h: Word, a: Word)
    ensures Unmix(Mix(h, a), a) == h
  {
    hide RotateLeft12, RotateRight12;
    var y := 9 * h + a;
    var r: Word := y % TWO32;
    RotationsCancel(r);
    assert Unmix(Mix(h, a), a) == (r as int - a) * NINTH % TWO32;
    NinthCancels(h, a, y / TWO32, r);
  }

  /** Every accumulator is reached from exactly one other by a given addend. */
  lemma {:induction false} MixUnmix(k: Word, a: Word)
    ensures Mix(Unmix(k, a), a) == k
  {
    hide RotateLeft12, RotateRight12;
    RotationsCancel(k);
    var x: int := RotateLeft12(k) as int - a;
    var y := x * NINTH;
    var h := Unmix(k, a);
    assert h == y % TWO32;
    NineCancels(x, a, y / TWO32, h);
    assert (x + a) % TWO32 == RotateLeft12(k);
  }

  lemma {:induction false} DigestAppend(h: Word, top: Word, p: seq<Byte>, s: seq<Byte>)
    ensures Digest(h, top, p + s) == if p == [] then Digest(h, top, s) else Digest(Digest(h, top, p), 0, s)
    decreases |p|
  {
    if p == [] {
      assert p + s == s;
    } else {
      assert (p + s)[1..] == p[1..] + s;
      DigestAppend(Mix(h, Popped(top, p[0])), 0, p[1..], s);
    }
  }

  /** Different accumulators stay different whatever follows. */
  lemma {:induction false} DigestInjective(h: Word, h': Word, top: Word, s: seq<Byte>)
    requires h != h'
    ensures Digest(h, top, s) != Digest(h', top, s)
    decreases |s|
  {
    if s != [] {
      hide Mix;
      UnmixMix(h, Popped(top, s[0]));
      UnmixMix(h', Popped(top, s[0]));
      DigestInjective(Mix(h, Popped(top, s[0])), Mix(h', Popped(top, s[0])), 0, s[1..]);
    }
  }

  /** Two inputs that differ in one byte never have the same digest, whatever was on the stack. */
  lemma {:induction false} OneByteNeverCollides(h: Word, top: Word, p: seq<Byte>, b: Byte, b': Byte, s: seq<Byte>)
    requires b != b'
    ensures Digest(h, top, p + [b] + s) != Digest(h, top, p + [b'] + s)
  {
    assert p + [b] + s == p + ([b] + s) && p + [b'] + s == p + ([b'] + s);
    DigestAppend(h, top, p, [b] + s);
    DigestAppend(h, top, p, [b'] + s);
    DifferNow(if p == [] then h else Digest(h, top, p), if p == [] then top else 0, b, b', s);
  }

  lemma {:induction false} DifferNow(h: Word, top: Word, b: Byte, b': Byte, s: seq<Byte>)
    requires b != b'
    ensures Digest(h, top, [b] + s) != Digest(h, top, [b'] + s)
  {
    hide Mix;
    assert ([b] + s)[1..] == s && ([b'] + s)[1..] == s;
    MixTellsApart(h, Popped(top, b), Popped(top, b'));
    DigestInjective(Mix(h, Popped(top, b)), Mix(h, Popped(top, b')), 0, s);
  }

  lemma {:induction false} MixTellsApart(h: Word, a: Word, a': Word)
    requires a != a'
    ensures Mix(h, a) != Mix(h, a')
  {
    hide RotateLeft12, RotateRight12;
    RotationsCancel((9 * h + a) % TWO32);
    RotationsCancel((9 * h + a') % TWO32);
    DifferentAddends(9 * h, a, a');
  }

  lemma {:induction false} DifferentAddends(h: int, a: Word, a': Word)
    requires a != a'
    ensures (h + a) % TWO32 != (h + a') % TWO32
  {
  }
}
