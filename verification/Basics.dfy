/** Bytes, 32-bit words and a few other notions the models share. */
module Basics {

  datatype Option<+T> = None | Some(value: T)

  type Byte = b: int | 0 <= b < 256

  const TWO32 := 0x1_0000_0000

  type Word = x: int | 0 <= x < TWO32

  /** A number modulo 2^32. */
  function Wrap(x: int): Word {
    x % TWO32
  }

  lemma {:induction false} WrapWord(x: int)
    requires 0 <= x < TWO32
    ensures Wrap(x) == x
  {
  }

  lemma {:induction false} WrapNegative(x: int)
    requires -TWO32 <= x < 0
    ensures Wrap(x) == x + TWO32
  {
  }

  lemma {:induction false} WrapSum(a: int, b: int)
    ensures Wrap(Wrap(a) as int + b) == Wrap(a + b)
  {
  }

  lemma {:induction false} WholePages(k: int)
    ensures 256 * k % 256 == 0
  {
  }

  /** What is divisible by 2^16 is divisible by 2^8. */
  lemma {:induction false} WholeSegments(x: int)
    requires x % 0x1_0000 == 0
    ensures x % 256 == 0
  {
    assert x == 256 * (256 * (x / 0x1_0000));
    WholePages(256 * (x / 0x1_0000));
  }

  function Min(a: nat, b: nat): nat {
    if a < b then a else b
  }

  function Pow2(k: nat): (p: nat)
    ensures p >= 1
  {
    if k == 0 then 1 else 2 * Pow2(k - 1)
  }

  /** Memory by address; bytes never stored read as zero. */
  type Memory = map<int, Byte>

  function Peek(m: Memory, a: int): Byte {
    if a in m then m[a] else 0
  }
}
