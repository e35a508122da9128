/** Decimal output: numbers as digit strings, and the backward printing loop of print.mac. */
module Decimal {
  import opened Basics
  import Selector

  /** The decimal digits of n, without leading zeros; 0 has none. */
  function Digits(n: nat): seq<Byte> {
    if n == 0 then [] else Digits(n / 10) + ['0' as int + n % 10]
  }

  function Parse(s: seq<Byte>): int
    decreases |s|
  {
    if s == [] then 0 else 10 * Parse(s[..|s| - 1]) + (s[|s| - 1] - '0' as int)
  }

  lemma {:induction false} ParseAppend(s: seq<Byte>, d: Byte)
    ensures Parse(s + [d]) == 10 * Parse(s) + (d - '0' as int)
  {
    assert (s + [d])[..|s|] == s;
  }

  /** The digits read back as the number, and a positive number does not begin with 0. */
  lemma {:induction false} DigitsParse(n: nat)
    ensures Parse(Digits(n)) == n
    ensures n > 0 ==> Digits(n) != [] && Digits(n)[0] != '0' as int
    decreases n
  {
    if n > 0 {
      DigitsParse(n / 10);
      ParseAppend(Digits(n / 10), '0' as int + n % 10);
      if n < 10 {
        assert Digits(n / 10) == [];
      } else {
        assert Digits(n)[0] == Digits(n / 10)[0];
      }
    }
  }

  function Pow10(k: nat): (p: int)
    ensures p >= 1
  {
    if k == 0 then 1 else 10 * Pow10(k - 1)
  }

  lemma {:induction false} DigitsFit(n: nat, k: nat)
    requires n < Pow10(k)
    ensures |Digits(n)| <= k
    decreases k
  {
    if n > 0 {
      DigitsFit(n / 10, k - 1);
    }
  }

  lemma {:induction false} TenDigits(n: nat)
    requires n < 0x8000_0000
    ensures |Digits(n)| <= 10
  {
    assert Pow10(5) == 100000 && Pow10(10) == 100000 * Pow10(5);
    DigitsFit(n, 10);
  }

  lemma {:induction false} LastDigit(n: nat)
    ensures Digits(n) == if n == 0 then [] else Digits(n / 10) + ['0' as int + n % 10]
  {
  }

  // ----- print.mac -----

  /** `(c - '0') % 255` in the assembler's unsigned arithmetic. */
  function Terminator(c: Byte): int {
    Selector.UMod(c - '0' as int, 255)
  }

  /** Adding '0' in dl gives the wanted terminator for every byte but '/'. */
  lemma {:induction false} TerminatorIff(c: Byte)
    ensures 0 <= Terminator(c) < 256
    ensures (Terminator(c) + '0' as int) % 256 == c <==> c != '/' as int
  {
    if c < '/' as int {
      var m := '0' as int - c;
      Selector.NegationRemainder(m, 256);
      assert Terminator(c) == 256 - m;
      hide Selector.UMod, Terminator;
    } else if c == '/' as int {
      assert (c - '0' as int) % Selector.TWO64 == Selector.TWO64 - 1;
    } else {
      assert Terminator(c) == (c - '0' as int) % 255;
    }
  }

  /** Where the loop stands: `text` is stored, the digit in edx and the number in eax are left, unless the
      last digit has gone out. */
  ghost predicate Progress(all: seq<Byte>, eax: nat, edx: nat, finished: bool, text: seq<Byte>) {
    if finished then all == text
    else edx < 256 && all == Digits(eax) + [(edx + '0' as int) % 256] + text
  }

  lemma {:induction false} ProgressStep(all: seq<Byte>, eax: nat, edx: nat, text: seq<Byte>)
    requires Progress(all, eax, edx, false, text)
    ensures Progress(all, eax / 10, eax % 10, eax == 0, [(edx + '0' as int) % 256] + text)
  {
    LastDigit(eax);
    hide Digits;
    var dl: Byte := (edx + '0' as int) % 256;
    assert Digits(eax) + [dl] + text == Digits(eax) + ([dl] + text);
  }

  /** __print_init and __print_loop on a twelve-byte buffer: `from` is ecx and `length` esi at the end; fault
      stands for the divide error that a sign-extended edx provokes. */
  method PrintLoop(buffer: array<Byte>, n: Word, c: Byte) returns (fault: bool, from: nat, length: nat)
    requires buffer.Length == 12
    modifies buffer
    ensures fault <==> n >= 0x8000_0000
    ensures !fault ==> from + length == 12 && length == |Digits(n)| + 1
    ensures !fault ==> buffer[from..] == Digits(n) + [(Terminator(c) + '0' as int) % 256]
    ensures !fault && c != '/' as int ==> buffer[from..] == Digits(n) + [c]
  {
    TerminatorIff(c);
    hide Digits, Terminator, Progress;
    var eax, edx: Word := n, Terminator(c);
    from, length, fault := 12, 0, false;
    ghost var all := Digits(n) + [(Terminator(c) + '0' as int) % 256];
    StartProgress(all, n, Terminator(c));
    assert buffer[12..] == [];
    if n < 0x8000_0000 {
      TenDigits(n);
    }
    var zf := false;
    while !zf
      invariant from + length == 12 && !fault
      invariant length == 0 ==> eax == n && !zf
      invariant length > 0 ==> n < 0x8000_0000 && eax < 0x8000_0000
      invariant Progress(all, eax, edx, zf, buffer[from..])
      decreases !zf, eax
    {
      var dl: Byte := (edx + '0' as int) % 256;
      ghost var stored := buffer[from..];
      ProgressStep(all, eax, edx, stored);
      ProgressRoom(all, eax, edx, stored);
      if n >= 0x8000_0000 {
        assert from == 12;
      }
      from := from - 1;
      buffer[from] := dl;
      assert buffer[from..] == [dl] + stored;
      edx := if eax >= 0x8000_0000 then 0xFFFF_FFFF else 0;
      length := length + 1;
      zf := eax == 0;
      if edx >= 10 {
        fault := true;
        return;
      }
      eax, edx := eax / 10, eax % 10;
    }
    ProgressDone(all, eax, edx, buffer[from..]);
  }

  lemma {:induction false} StartProgress(all: seq<Byte>, n: nat, edx: nat)
    requires edx < 256 && all == Digits(n) + [(edx + '0' as int) % 256]
    ensures Progress(all, n, edx, false, [])
  {
    assert all + [] == all;
  }

  /** Before the end at least one byte is still to be stored. */
  lemma {:induction false} ProgressRoom(all: seq<Byte>, eax: nat, edx: nat, text: seq<Byte>)
    requires Progress(all, eax, edx, false, text)
    ensures |text| < |all|
  {
  }

  lemma {:induction false} ProgressDone(all: seq<Byte>, eax: nat, edx: nat, text: seq<Byte>)
    requires Progress(all, eax, edx, true, text)
    ensures all == text
  {
  }
}
