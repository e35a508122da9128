/** How much the replacement of frequent bytes shortens the command of escape.pl. */
module EscapeSize {
  import opened Basics
  import opened Escape
  import opened EscapeProofs

  function Ascii(s: string): Bytes
    requires forall i :: 0 <= i < |s| ==> s[i] as int < 128
  {
    seq(|s|, i requires 0 <= i < |s| => s[i] as int)
  }

  /** The command as printed. */
  function Text(c: Command): Bytes {
    Ascii("printf '") + c.format + Ascii("'") +
    if c.tr.None? then [] else Ascii("|tr ") + c.tr.value.0 + Ascii(" '") + c.tr.value.1 + Ascii("'")
  }

  /** Bytes a letter saves over the escape it stands for, over the whole file. */
  function Gained(s: Bytes, bytes: Bytes): int
    decreases |s|
  {
    if s == [] then 0
    else (if ByLetter(s[0], s[1..], bytes) then |EscapeByte(s[0], s[1..], FORMAT_ESCAPES)| - 1 else 0) + Gained(s[1..], bytes)
  }

  /** What the tr sets cost. */
  function SetCost(bytes: Bytes): nat
    decreases |bytes|
  {
    if bytes == [] then 0 else 1 + Width(bytes[0]) + SetCost(bytes[1..])
  }

  lemma {:induction false} FormatLength(s: Bytes, bytes: Bytes, letters: Bytes)
    requires Replacement(bytes, letters)
    ensures |EscapeAll(s, TableOf(bytes, letters))| == |EscapeAll(s, FORMAT_ESCAPES)| - Gained(s, bytes)
    decreases |s|
  {
    if s != [] {
      EscapeByLetter(s[0], s[1..], bytes, letters);
      FormatLength(s[1..], bytes, letters);
    }
  }

  lemma {:induction false} WideNoDigit(b: Byte)
    requires Wide(b)
    ensures !IsOctal(b) && b != PERCENT
  {
  }

  lemma {:induction false} SetLength(bytes: Bytes)
    requires forall i :: 0 <= i < |bytes| ==> Wide(bytes[i])
    ensures |bytes| + |EscapeAll(bytes, LETTER_ESCAPES)| == SetCost(bytes)
    decreases |bytes|
  {
    if bytes != [] {
      if |bytes| > 1 {
        WideNoDigit(bytes[1]);
      }
      SetLength(bytes[1..]);
    }
  }

  /** The exact length of every command. */
  lemma {:induction false} CommandLength(file: Bytes, order: Bytes)
    requires Offers(file, order)
    ensures var bytes := Replaced(file, order);
      |Text(Compose(file, order))| ==
      |Text(Compose(file, []))| - Gained(file, bytes) + if bytes == [] then 0 else 7 + SetCost(bytes)
  {
    ComposeIsReplacement(file, order);
    var bytes, letters := Replaced(file, order), Letters(file, order);
    FormatLength(file, bytes, letters);
    SetLength(bytes);
    assert Assign(FORMAT_ESCAPES, [], []) == FORMAT_ESCAPES;
  }

  // ----- the promised savings -----

  function SavingSum(file: Bytes, bytes: Bytes): int
    decreases |bytes|
  {
    if bytes == [] then 0 else Saving(file, bytes[0]) + SavingSum(file, bytes[1..])
  }

  /** The same savings counted along the file. */
  function Covered(s: Bytes, bytes: Bytes): int
    decreases |s|
  {
    if s == [] then 0 else (if s[0] in bytes then Width(s[0]) - 1 else 0) + Covered(s[1..], bytes)
  }

  lemma {:induction false} CoveredNothing(s: Bytes)
    ensures Covered(s, []) == 0
    decreases |s|
  {
    if s != [] {
      CoveredNothing(s[1..]);
    }
  }

  lemma {:induction false} OneMoreTime(f: nat, w: int)
    ensures (f + 1) * w == f * w + w
  {
  }

  lemma {:induction false} CoveredCons(s: Bytes, b: Byte, bytes: Bytes)
    requires b !in bytes
    ensures Covered(s, [b] + bytes) == Covered(s, bytes) + Frequency(s, b) * (Width(b) - 1)
    decreases |s|
  {
    if s != [] {
      hide Width;
      CoveredCons(s[1..], b, bytes);
      assert s[0] in [b] + bytes <==> s[0] == b || s[0] in bytes;
      var f, w := Frequency(s[1..], b), Width(b) - 1;
      OneMoreTime(f, w);
      assert Frequency(s, b) == if s[0] == b then f + 1 else f;
      hide Frequency;
    }
  }

  lemma {:induction false} SavingsAlongFile(file: Bytes, bytes: Bytes)
    requires Distinct(bytes)
    ensures SavingSum(file, bytes) == Covered(file, bytes) - SetCost(bytes)
    decreases |bytes|
  {
    if bytes == [] {
      CoveredNothing(file);
    } else {
      SavingsAlongFile(file, bytes[1..]);
      CoveredCons(file, bytes[0], bytes[1..]);
      assert bytes == [bytes[0]] + bytes[1..];
    }
  }

  /** What a replaced byte falls short of its computed saving where it stands: a quote is never printed as its
      letter, a bell only before an octal digit; an octal escape that padding lengthens gives more back. */
  function Loss(b: Byte, rest: Bytes): int {
    if b == QUOTE then 2
    else if b == BELL then (if DigitNext(rest) then 0 else 1)
    else if b !in LETTER_ESCAPES && DigitNext(rest) then Width(b) - 4
    else 0
  }

  function Shortfall(s: Bytes, bytes: Bytes): int
    decreases |s|
  {
    if s == [] then 0 else (if s[0] in bytes then Loss(s[0], s[1..]) else 0) + Shortfall(s[1..], bytes)
  }

  lemma {:induction false} ShortfallIsDifference(s: Bytes, bytes: Bytes)
    requires forall i :: 0 <= i < |bytes| ==> Wide(bytes[i])
    ensures Shortfall(s, bytes) == Covered(s, bytes) - Gained(s, bytes)
    decreases |s|
  {
    if s != [] {
      ShortfallIsDifference(s[1..], bytes);
      if s[0] in bytes {
        WideNoDigit(s[0]);
      }
    }
  }

  /** The command with tr is shorter than the one without by the computed savings less 7, but for the shortfall of
      the replaced bytes. */
  lemma {:induction false} SavingsDelivered(file: Bytes, order: Bytes)
    requires Offers(file, order) && Replaced(file, order) != []
    ensures var bytes := Replaced(file, order);
      |Text(Compose(file, order))| == |Text(Compose(file, []))| - (SavingSum(file, bytes) - 7) + Shortfall(file, bytes)
  {
    ComposeIsReplacement(file, order);
    CommandLength(file, order);
    SavingsAlongFile(file, Replaced(file, order));
    ShortfallIsDifference(file, Replaced(file, order));
  }

  /** Some replaced byte stands before an octal digit with an escape that padding lengthens. */
  predicate Padded(s: Bytes, bytes: Bytes)
    decreases |s|
  {
    s != [] &&
    ((s[0] in bytes && s[0] !in LETTER_ESCAPES && s[0] < 64 && DigitNext(s[1..])) || Padded(s[1..], bytes))
  }

  /** Without bell and quote the savings are delivered at least, and exactly if no replaced escape was padded. */
  lemma {:induction false} ShortfallSign(s: Bytes, bytes: Bytes)
    requires BELL !in bytes && QUOTE !in bytes && forall i :: 0 <= i < |bytes| ==> Wide(bytes[i])
    ensures Shortfall(s, bytes) <= 0
    ensures Shortfall(s, bytes) == 0 <==> !Padded(s, bytes)
    decreases |s|
  {
    if s != [] {
      ShortfallSign(s[1..], bytes);
      if s[0] in bytes {
        WideNoDigit(s[0]);
      }
    }
  }

  // ----- quotes -----

  function Without(bytes: Bytes, b: Byte): Bytes
    requires b in bytes
  {
    bytes[..IndexOf(bytes, b)] + bytes[IndexOf(bytes, b) + 1..]
  }

  lemma {:induction false} SetCostAppend(a: Bytes, b: Bytes)
    ensures SetCost(a + b) == SetCost(a) + SetCost(b)
    decreases |a|
  {
    if a == [] {
      assert a + b == b;
    } else {
      assert (a + b)[1..] == a[1..] + b;
      SetCostAppend(a[1..], b);
    }
  }

  /** What a letter saves does not depend on the quote. */
  lemma {:induction false} GainedSame(s: Bytes, bytes: Bytes, others: Bytes)
    requires forall b: Byte :: b != QUOTE ==> (b in bytes <==> b in others)
    ensures Gained(s, bytes) == Gained(s, others)
    decreases |s|
  {
    if s != [] {
      GainedSame(s[1..], bytes, others);
    }
  }

  lemma {:induction false} WithoutKeepsOthers(bytes: Bytes, b: Byte)
    requires b in bytes && Distinct(bytes)
    ensures Distinct(Without(bytes, b))
    ensures forall c: Byte :: c in Without(bytes, b) <==> c in bytes && c != b
  {
    var i := IndexOf(bytes, b);
    assert bytes == bytes[..i] + [b] + bytes[i + 1..];
  }

  lemma {:induction false} QuoteSetCost(bytes: Bytes)
    requires QUOTE in bytes
    ensures SetCost(bytes) == SetCost(Without(bytes, QUOTE)) + 4
  {
    var i := IndexOf(bytes, QUOTE);
    var before, quote, after := bytes[..i], [bytes[i]], bytes[i + 1..];
    assert bytes == before + (quote + after);
    SetCostAppend(before, quote + after);
    SetCostAppend(quote, after);
    SetCostAppend(before, after);
    assert quote[1..] == [] && Width(QUOTE) == 3;
  }

  /** Replacing a quote never pays: whatever the file, leaving the quote out of the replaced bytes makes the command
      four bytes shorter, or eleven if nothing else was replaced. */
  lemma {:induction false} QuoteNeverPays(file: Bytes, order: Bytes)
    requires Offers(file, order) && QUOTE in Replaced(file, order)
    ensures var others := Without(Replaced(file, order), QUOTE);
      && Offers(file, others) && Replaced(file, others) == others
      && |Text(Compose(file, order))| == |Text(Compose(file, others))| + if others == [] then 11 else 4
  {
    var bytes := Replaced(file, order);
    var others := Without(bytes, QUOTE);
    WithoutKeepsOthers(bytes, QUOTE);
    QuoteSetCost(bytes);
    GainedSame(file, bytes, others);
    hide Text, Compose, Saving, Gained, SetCost;
    assert forall i :: 0 <= i < |others| ==> others[i] in bytes;
    assert Replaced(file, others) == others;
    CommandLength(file, order);
    CommandLength(file, others);
    WithoutNothing(file, others);
  }

  lemma {:induction false} WithoutNothing(file: Bytes, bytes: Bytes)
    ensures bytes == [] ==> Gained(file, bytes) == 0 && SetCost(bytes) == 0
    decreases |file|
  {
    if file != [] {
      WithoutNothing(file[1..], bytes);
    }
  }

  /** A file of three quotes is offered a letter that is never printed. */
  lemma {:induction false} ThreeQuotesLonger()
    ensures var file := [QUOTE, QUOTE, QUOTE];
      && Offers(file, [QUOTE])
      && |Text(Compose(file, [QUOTE]))| == |Text(Compose(file, []))| + 11
  {
    var file: Bytes := [QUOTE, QUOTE, QUOTE];
    var q: Bytes := [QUOTE];
    assert q[1..] == [];
    assert Frequency(file, QUOTE) == 3 by {
      assert file[1..] == [QUOTE, QUOTE] && file[1..][1..] == q;
      assert Frequency(q, QUOTE) == 1 && Frequency([QUOTE, QUOTE], QUOTE) == 2;
    }
    assert Width(QUOTE) == 3;
    UnusedNotEmpty(file);
    assert Replaced(file, q) == q;
    hide Text, Compose;
    QuoteNeverPays(file, q);
    assert Without(q, QUOTE) == [];
  }

  lemma {:induction false} OnlyBells(s: Bytes)
    requires forall i :: 0 <= i < |s| ==> s[i] == BELL
    ensures Frequency(s, BELL) == |s| && Shortfall(s, [BELL]) == |s|
    decreases |s|
  {
    if s != [] {
      OnlyBells(s[1..]);
    }
  }

  /** Four bells fall short by four: none of them is printed as the letter it pays for. */
  lemma {:induction false} FourBellsFallShort()
    ensures var file := [BELL, BELL, BELL, BELL];
      && Offers(file, [BELL])
      && Shortfall(file, [BELL]) == 4
      && |Text(Compose(file, [BELL]))| == |Text(Compose(file, []))| + 10
  {
    var file: Bytes := [BELL, BELL, BELL, BELL];
    var bell: Bytes := [BELL];
    assert bell[1..] == [] && Width(BELL) == 2;
    OnlyBells(file);
    UnusedNotEmpty(file);
    assert Replaced(file, bell) == bell;
    hide Text, Compose;
    SavingsDelivered(file, bell);
    assert SavingSum(file, bell) == 1 by {
      assert SavingSum(file, []) == 0;
    }
  }
}
