/** fizzbuzz.asm: the lines it writes for every limit, and how it ends. */
module FizzBuzz {
  import opened Basics
  import opened Decimal

  function Read(m: Memory, a: int, n: nat): (s: seq<Byte>)
    ensures |s| == n
    decreases n
  {
    if n == 0 then [] else [Peek(m, a)] + Read(m, a + 1, n - 1)
  }

  lemma {:induction false} ReadSame(m: Memory, m': Memory, a: int, n: nat)
    requires forall k :: a <= k < a + n ==> Peek(m, k) == Peek(m', k)
    ensures Read(m, a, n) == Read(m', a, n)
    decreases n
  {
    if n > 0 {
      ReadSame(m, m', a + 1, n - 1);
    }
  }

  lemma {:induction false} ReadAppend(m: Memory, a: int, p: nat, q: nat)
    ensures Read(m, a, p + q) == Read(m, a, p) + Read(m, a + p, q)
    decreases p
  {
    if p > 0 {
      ReadAppend(m, a + 1, p - 1, q);
    }
  }

  lemma {:induction false} ReadFour(m: Memory, a: int, b: seq<Byte>)
    requires |b| == 4 && Peek(m, a) == b[0] && Peek(m, a + 1) == b[1] && Peek(m, a + 2) == b[2] && Peek(m, a + 3) == b[3]
    ensures Read(m, a, 4) == b
  {
    assert Read(m, a + 4, 0) == [] && Read(m, a + 3, 1) == [b[3]] && Read(m, a + 2, 2) == [b[2], b[3]];
  }

  /** `push` of four bytes, the lowest first, to address a. */
  function Store4(m: Memory, a: int, b: seq<Byte>): Memory
    requires |b| == 4
  {
    m[a := b[0]][a + 1 := b[1]][a + 2 := b[2]][a + 3 := b[3]]
  }

  const NEWLINE: seq<Byte> := [10, 0, 0, 0]
  const ZERO: seq<Byte> := [0, 0, 0, 0]
  const FIZZ: seq<Byte> := ['F' as int, 'i' as int, 'z' as int, 'z' as int]
  const BUZZ: seq<Byte> := ['B' as int, 'u' as int, 'z' as int, 'z' as int]

  /** The line for n. */
  function Line(n: nat): seq<Byte> {
    (if n % 15 == 0 then FIZZ + BUZZ
     else if n % 3 == 0 then FIZZ
     else if n % 5 == 0 then BUZZ
     else Digits(n)) + [10]
  }

  function Codes(s: string): (b: seq<int>)
    ensures |b| == |s|
  {
    seq(|s|, i requires 0 <= i < |s| => s[i] as int)
  }

  /** The lines in plain text. */
  lemma {:induction false} LineReads(n: nat)
    ensures Line(n) ==
            if n % 15 == 0 then Codes("FizzBuzz\n")
            else if n % 3 == 0 then Codes("Fizz\n")
            else if n % 5 == 0 then Codes("Buzz\n")
            else Digits(n) + Codes("\n")
  {
    assert Codes("FizzBuzz\n") == FIZZ + BUZZ + [10] && Codes("Fizz\n") == FIZZ + [10] && Codes("Buzz\n") == BUZZ + [10];
    assert Codes("\n") == [10];
  }

  /** Whether the end of the loop jumps back: a comparison as cheap as MAX allows, whose byte operand the
      assembler truncates, or a plain jump for MAX 0. */
  predicate Continues(max: nat, eax: nat) {
    if max == 0 then true
    else if max < 128 then eax % 256 < max
    else if max == 255 then eax / 256 % 256 < 1
    else if max % 256 == 0 then eax / 256 % 256 < max / 256 % 256
    else eax < max
  }

  /** The last line number: the limit, but for the limit 255 and for multiples of 256 beyond 16 bits. MAX 0 has
      no last line; 2^32 is more than eax can count. */
  function Last(max: nat): nat {
    if max == 0 then TWO32
    else if max == 255 then 256
    else if max % 0x1_0000 == 0 then 1
    else if max % 256 == 0 then max % 0x1_0000
    else max
  }

  /** The limits that are met. */
  lemma {:induction false} LastIsLimit(max: nat)
    requires max < TWO32
    ensures Last(max) == max <==> max != 0 && max != 255 && (max < 0x1_0000 || max % 256 != 0)
  {
    if max % 0x1_0000 == 0 {
      WholeSegments(max);
    }
  }

  lemma {:induction false} PagesOfLimit(max: nat)
    requires max > 0 && max % 256 == 0
    ensures var k := max / 256 % 256; max % 0x1_0000 == 256 * k && Last(max) == if k == 0 then 1 else 256 * k
  {
    var q, k := max / 256 / 256, max / 256 % 256;
    assert max == 0x1_0000 * q + 256 * k;
  }

  lemma {:induction false} ComparePages(n: nat, k: nat)
    requires n <= 0xFF00
    ensures n / 256 % 256 < k <==> n < 256 * k
  {
    var q, r := n / 256, n % 256;
    assert n == 256 * q + r && q < 256;
    SmallModulus(q);
  }

  lemma {:induction false} ContinuesIff(max: nat, n: nat)
    requires max < TWO32 && 1 <= n <= Last(max) && n < TWO32
    ensures Continues(max, n) <==> n < Last(max)
  {
    PlainLimit(max);
    if max % 256 == 0 && max > 0 {
      PagesOfLimit(max);
      ComparePages(n, max / 256 % 256);
    } else if max == 255 {
      ComparePages(n, 1);
    } else if 0 < max < 128 {
      SmallModulus(n);
    }
    hide Last;
  }

  lemma {:induction false} PlainLimit(max: nat)
    ensures max == 0 ==> Last(max) == TWO32
    ensures max == 255 ==> Last(max) == 256
    ensures max != 255 && max % 256 != 0 ==> Last(max) == max
  {
    if max % 0x1_0000 == 0 {
      WholeSegments(max);
    }
  }

  lemma {:induction false} SmallModulus(n: nat)
    requires n < 256
    ensures n % 256 == n
  {
  }

  /** The numbers for which the zero bytes pushed are enough whatever the stack held before: 10000 and 10^8 are
      multiples of 5. */
  function Roomy(wide: bool): nat {
    if wide then 100_000_000 else 10_000
  }

  lemma {:induction false} DigitsHaveRoom(n: nat, wide: bool)
    requires n <= Roomy(wide) && n % 5 != 0
    ensures |Digits(n)| <= if wide then 8 else 4
  {
    assert Pow10(2) == 100 && Pow10(4) == 100 * Pow10(2) && Pow10(6) == 100 * Pow10(4) && Pow10(8) == 100 * Pow10(6);
    DigitsFit(n, if wide then 8 else 4);
  }

  ghost predicate ZeroBelow(m: Memory, lo: int, hi: int) {
    forall a :: lo <= a < hi ==> Peek(m, a) == 0
  }

  ghost predicate SameFrom(m: Memory, m': Memory, lo: int) {
    forall a :: a >= lo ==> Peek(m', a) == Peek(m, a)
  }

  ghost predicate SameBelow(m: Memory, m': Memory, hi: int) {
    forall a :: a < hi ==> Peek(m', a) == Peek(m, a)
  }

  /** A stack nobody has used: all zero but for the two dwords a round may leave below its end. */
  ghost predicate Fresh(m: Memory, esp: int) {
    forall a :: a < esp - 8 ==> Peek(m, a) == 0
  }

  /** The digit loop: eax ends as zero, the digits of n lie just below ecx, and esi counts them. It relies on
      zero bytes there, which xchg turns into the cleared edx of the next division. */
  method Itoa(n: nat, m: Memory, ecx: int) returns (m': Memory, ecx': int, esi: nat, edx: nat)
    requires 0 < n && ZeroBelow(m, ecx - |Digits(n)|, ecx)
    ensures esi == |Digits(n)| && ecx' == ecx - esi && edx == 0
    ensures Read(m', ecx', esi) == Digits(n)
    ensures SameFrom(m, m', ecx) && SameBelow(m, m', ecx')
  {
    hide Digits, Read;
    var eax := n;
    m', ecx', esi, edx := m, ecx, 0, 0;
    LastDigit(0);
    assert Digits(n) == Digits(eax) + Read(m', ecx', esi);
    var zf := false;
    while !zf
      invariant edx == 0 && ecx' == ecx - esi && zf == (eax == 0)
      invariant Digits(n) == Digits(eax) + Read(m', ecx', esi)
      invariant SameFrom(m, m', ecx) && SameBelow(m, m', ecx')
      decreases eax
    {
      LastDigit(eax);
      ghost var before, at, stored := m', ecx', Read(m', ecx', esi);
      esi := esi + 1;
      edx, eax := eax % 10, eax / 10;
      var dl: Byte := edx + '0' as int;
      ecx' := ecx' - 1;
      assert |Digits(n)| >= |Digits(eax)| + 1 + (esi - 1);
      assert Peek(m, ecx') == 0;
      edx := Peek(m', ecx');
      m' := m'[ecx' := dl];
      ReadAfterStore(before, at, esi - 1, dl);
      assert Digits(eax) + ([dl] + stored) == (Digits(eax) + [dl]) + stored;
      zf := eax == 0;
    }
    LastDigit(0);
    assert [] + Read(m', ecx', esi) == Read(m', ecx', esi);
  }

  lemma {:induction false} ReadAfterStore(m: Memory, a: int, n: nat, b: Byte)
    ensures Read(m[a - 1 := b], a - 1, n + 1) == [b] + Read(m, a, n)
    ensures SameFrom(m, m[a - 1 := b], a)
  {
    ReadSame(m, m[a - 1 := b], a, n);
  }

  /** Four bytes pushed at a, over whatever is there. */
  lemma {:induction false} StoreFour(m: Memory, a: int, b: seq<Byte>)
    requires |b| == 4
    ensures Read(Store4(m, a, b), a, 4) == b
    ensures SameFrom(m, Store4(m, a, b), a + 4) && SameBelow(m, Store4(m, a, b), a)
  {
    ReadFour(Store4(m, a, b), a, b);
  }

  /** A push and a pop: the four bytes below the stack change, nothing above. */
  function Scratch(m: Memory, esp: int, v: nat): Memory {
    Store4(m, esp - 4, [v % 256, v / 256 % 256, v / 0x1_0000 % 256, v / 0x100_0000 % 256])
  }

  /** What is on the stack so far for n: the words pushed, then the newline. */
  ghost predicate Stacked(m: Memory, esp: int, text: seq<Byte>) {
    Read(m, esp, |text| + 1) == text + [10]
  }

  lemma {:induction false} StackedPush(m: Memory, esp: int, text: seq<Byte>, b: seq<Byte>)
    requires Stacked(m, esp, text) && |b| == 4
    ensures Stacked(Store4(m, esp - 4, b), esp - 4, b + text) && SameBelow(m, Store4(m, esp - 4, b), esp - 4)
  {
    var m' := Store4(m, esp - 4, b);
    StoreFour(m, esp - 4, b);
    ReadSame(m, m', esp, |text| + 1);
    ReadAppend(m', esp - 4, 4, |text| + 1);
    assert b + (text + [10]) == (b + text) + [10];
  }

  lemma {:induction false} StackedSame(m: Memory, m': Memory, esp: int, text: seq<Byte>)
    requires Stacked(m, esp, text) && SameFrom(m, m', esp)
    ensures Stacked(m', esp, text)
  {
    ReadSame(m, m', esp, |text| + 1);
  }

  lemma {:induction false} ScratchBelow(m: Memory, esp: int, v: nat, w: nat)
    ensures SameFrom(m, Scratch(Scratch(m, esp, v), esp - 4, w), esp) && SameFrom(m, Scratch(m, esp, v), esp)
    ensures SameBelow(m, Scratch(Scratch(m, esp, v), esp - 4, w), esp - 8) && SameBelow(m, Scratch(m, esp, v), esp - 4)
    ensures w == 0 ==> ZeroBelow(Scratch(Scratch(m, esp, v), esp - 4, w), esp - 8, esp - 4)
  {
  }

  /** `cdq` and an unsigned `div`, which faults on a quotient beyond 32 bits: the remainder in edx. */
  method Divide(eax: Word, ebx: Word) returns (fault: bool, edx: Word)
    requires ebx > 0
    ensures fault <==> eax >= 0x8000_0000
    ensures !fault ==> edx == eax % ebx
  {
    edx := if eax >= 0x8000_0000 then 0xFFFF_FFFF else 0;
    fault := edx >= ebx;
    if !fault {
      edx := (edx * TWO32 + eax) % ebx;
    }
  }

  /** The newline, then Buzz and Fizz as the number asks for: edx counts their bytes. Below the stack the scratch
      dwords remain, the lower of them zero if nothing but the newline was pushed. */
  method Words(n: Word, m: Memory, esp: int) returns (fault: bool, m': Memory, esp': int, edx: nat)
    ensures fault <==> n >= 0x8000_0000
    ensures !fault ==>
      var text := (if n % 3 == 0 then FIZZ else []) + (if n % 5 == 0 then BUZZ else []);
      edx == |text| && esp' == esp - 4 - edx && Stacked(m', esp', text)
    ensures !fault ==> SameBelow(m, m', esp' - 8) && (edx == 0 ==> ZeroBelow(m', esp' - 8, esp' - 4))
  {
    hide Read, Store4, Scratch, Stacked, ZeroBelow, SameFrom;
    ghost var text: seq<Byte> := [];
    m', esp', edx := Store4(m, esp - 4, NEWLINE), esp - 4, 0;
    NewlineStacked(m, esp - 4);
    ScratchBelow(m', esp', n, 0);
    StackedSame(m', Scratch(m', esp', n), esp', text);
    m' := Scratch(m', esp', n);
    var rest;
    fault, rest := Divide(n, 5);
    if fault {
      return;
    }
    if rest == 0 {
      StackedPush(m', esp', text, BUZZ);
      m', esp', edx := Store4(m', esp' - 4, BUZZ), esp' - 4, 4;
      text := BUZZ + text;
    }
    ScratchBelow(m', esp', n, edx);
    StackedSame(m', Scratch(Scratch(m', esp', n), esp' - 4, edx), esp', text);
    m' := Scratch(Scratch(m', esp', n), esp' - 4, edx);
    fault, rest := Divide(n, 3);
    if rest == 0 {
      StackedPush(m', esp', text, FIZZ);
      m', esp', edx := Store4(m', esp' - 4, FIZZ), esp' - 4, edx + 4;
      text := FIZZ + text;
    }
    assert BUZZ + [] == BUZZ && FIZZ + [] == FIZZ && [] + BUZZ == BUZZ;
  }

  lemma {:induction false} NewlineStacked(m: Memory, a: int)
    ensures Stacked(Store4(m, a, NEWLINE), a, []) && SameBelow(m, Store4(m, a, NEWLINE), a)
  {
    StoreFour(m, a, NEWLINE);
    ReadAppend(Store4(m, a, NEWLINE), a, 1, 3);
    var r := Read(Store4(m, a, NEWLINE), a, 1);
    assert r[0] == 10 && r == [10];
  }

  lemma {:induction false} ZerosStored(m: Memory, esp: int)
    ensures ZeroBelow(Store4(m, esp - 4, ZERO), esp - 4, esp)
    ensures SameFrom(m, Store4(m, esp - 4, ZERO), esp) && SameBelow(m, Store4(m, esp - 4, ZERO), esp - 4)
  {
  }

  /** `push edx`, twice if the limit asks for it, with edx zero. */
  method PushZeros(wide: bool, m: Memory, esp: int) returns (m': Memory, esp': int)
    ensures esp' == (if wide then esp - 8 else esp - 4)
    ensures ZeroBelow(m', esp', esp) && SameFrom(m, m', esp) && SameBelow(m, m', esp')
  {
    hide Store4;
    ZerosStored(m, esp);
    m', esp' := Store4(m, esp - 4, ZERO), esp - 4;
    if wide {
      ZerosStored(m', esp');
      m', esp' := Store4(m', esp' - 4, ZERO), esp' - 4;
    }
  }

  /** One round for n, from its pushes to its write. */
  method Round(n: Word, wide: bool, m: Memory, esp: int)
    returns (fault: bool, line: seq<Byte>, m': Memory, esp': int, esi: nat)
    requires n > 0 && (n <= Roomy(wide) || Fresh(m, esp))
    ensures fault <==> n >= 0x8000_0000
    ensures !fault ==> line == Line(n) && esi == 0 && (Fresh(m, esp) ==> Fresh(m', esp'))
  {
    hide Read, Store4, Stacked, Digits;
    var edx;
    fault, m', esp', edx := Words(n, m, esp);
    line, esi := [], 0;
    if fault {
      return;
    }
    var ecx := esp';
    if edx == 0 {
      ghost var before, at := m', esp';
      m', esp' := PushZeros(wide, m', esp');
      ghost var zeros := m';
      RoomForDigits(n, wide, m, before, zeros, at, esp');
      m', ecx, esi, edx := Itoa(n, m', ecx);
      edx, esi := esi, edx;
      StackedSame(before, m', at, []);
      DigitsOnStack(n, m', ecx, edx, at);
      TenDigits(n);
    }
    edx := edx + 1;
    line := Read(m', ecx, edx);
    LineText(n, m', ecx);
  }

  /** Enough zero bytes lie below the text, on an unused stack in any number. */
  lemma {:induction false} RoomForDigits(n: nat, wide: bool, m: Memory, before: Memory, zeros: Memory, at: int, esp: int)
    requires n < 0x8000_0000 && n % 5 != 0 && (n <= Roomy(wide) || Fresh(m, at + 4))
    requires SameBelow(m, before, at - 8) && ZeroBelow(before, at - 8, at - 4)
    requires esp == (if wide then at - 8 else at - 4) && ZeroBelow(zeros, esp, at) && SameBelow(before, zeros, esp)
    ensures ZeroBelow(zeros, at - |Digits(n)|, at)
    ensures Fresh(m, at + 4) ==> forall a :: a < at ==> Peek(zeros, a) == 0
  {
    if n <= Roomy(wide) {
      DigitsHaveRoom(n, wide);
    }
    if Fresh(m, at + 4) {
      forall a | a < at ensures Peek(zeros, a) == 0 {
        if a < esp {
          assert Peek(zeros, a) == Peek(before, a);
          if a < at - 8 {
            assert Peek(before, a) == Peek(m, a) == 0;
          }
        }
      }
    }
  }

  lemma {:induction false} DigitsOnStack(n: nat, m: Memory, ecx: int, len: nat, at: int)
    requires Stacked(m, at, []) && ecx + len == at && len == |Digits(n)| && Read(m, ecx, len) == Digits(n)
    ensures Stacked(m, ecx, Digits(n))
  {
    ReadAppend(m, ecx, len, 1);
    assert [] + [10] == [10];
  }

  lemma {:induction false} LineText(n: nat, m: Memory, ecx: int)
    ensures n % 3 == 0 || n % 5 == 0 ==>
      var text := (if n % 3 == 0 then FIZZ else []) + (if n % 5 == 0 then BUZZ else []);
      (Stacked(m, ecx, text) ==> Read(m, ecx, |text| + 1) == Line(n))
    ensures n % 3 != 0 && n % 5 != 0 && Stacked(m, ecx, Digits(n)) ==> Read(m, ecx, |Digits(n)| + 1) == Line(n)
  {
    assert FIZZ + [] == FIZZ && [] + BUZZ == BUZZ;
    assert n % 15 == 0 <==> n % 3 == 0 && n % 5 == 0;
  }

  /** How a run of so many rounds ends. */
  datatype End = Exited | Faulted | Running

  /** The first `rounds` rounds, or all there are: lines 1, 2, 3 and so on, up to the last of the limit. From 2^31 on
      cdq makes eax a negative dividend and div faults. Beyond the numbers the pushed zeros are good for, the stack
      must be unused at the start. */
  method MainLoop(max: nat, rounds: nat, m0: Memory, esp0: int) returns (out: seq<seq<Byte>>, end: End)
    requires max < TWO32
    requires Min(rounds, Last(max)) <= Roomy(max == 0 || max > 10000) || Fresh(m0, esp0)
    ensures |out| == Min(rounds, Min(Last(max), 0x7FFF_FFFF))
    ensures forall i :: 0 <= i < |out| ==> out[i] == Line(i + 1)
    ensures end == if |out| == Last(max) then Exited else if |out| == rounds then Running else Faulted
  {
    assert Last(max) > 0;
    hide Line, Fresh, Last, Continues, Digits;
    out, end := [], Running;
    var eax, esi := 0, 0;
    var m, esp := m0, esp0;
    ghost var unused := Fresh(m0, esp0);
    while end == Running && |out| < rounds
      invariant eax == |out| <= Min(rounds, Min(Last(max), 0x7FFF_FFFF)) && esi == 0
      invariant end == if |out| == Last(max) then Exited else Running
      invariant forall i :: 0 <= i < |out| ==> out[i] == Line(i + 1)
      invariant unused ==> Fresh(m, esp)
      decreases rounds - |out|, end == Running
    {
      eax := eax + 1;
      var fault, line;
      fault, line, m, esp, esi := Round(eax, max == 0 || max > 10000, m, esp);
      if fault {
        end := Faulted;
        return;
      }
      out := out + [line];
      ContinuesIff(max, eax);
      if !Continues(max, eax) {
        end := Exited;
      }
    }
  }
}
