/** The command escape.pl prints reproduces its input, and how long it is. */
module EscapeProofs {
  import opened Basics
  import opened Escape

  // ----- letters and worthwhile bytes -----

  lemma {:induction false} FrequencyZero(s: Bytes, b: Byte)
    ensures Frequency(s, b) == 0 <==> b !in s
    decreases |s|
  {
    if s != [] {
      FrequencyZero(s[1..], b);
      assert s == [s[0]] + s[1..];
    }
  }

  lemma {:induction false} UnusedFacts(file: Bytes, c: nat)
    requires c <= 'z' as int + 1
    ensures var u := UnusedFrom(file, c);
      && Distinct(u)
      && forall i :: 0 <= i < |u| ==> IsLetter(u[i]) && u[i] >= c && u[i] !in file
    decreases 'z' as int + 1 - c
  {
    if c <= 'z' as int {
      UnusedFacts(file, c + 1);
      FrequencyZero(file, c);
    }
  }

  /** Every letter the file does not use is offered, in the order of the alphabet. */
  lemma {:induction false} UnusedComplete(file: Bytes, c: nat, x: Byte)
    requires c <= 'z' as int + 1 && IsLetter(x) && x >= c && x !in file
    ensures x in UnusedFrom(file, c)
    decreases 'z' as int + 1 - c
  {
    FrequencyZero(file, x);
    if c != x {
      UnusedComplete(file, c + 1, x);
    }
  }

  lemma {:induction false} UnusedAscends(file: Bytes, c: nat)
    requires c <= 'z' as int + 1
    ensures var u := UnusedFrom(file, c); forall i, j :: 0 <= i < j < |u| ==> u[i] < u[j]
    decreases 'z' as int + 1 - c
  {
    if c <= 'z' as int {
      UnusedAscends(file, c + 1);
      UnusedFacts(file, c + 1);
    }
  }

  /** A byte offered in vain: every letter is in the file or already stands for another byte. */
  lemma {:induction false} OfferedInVain(file: Bytes, order: Bytes, b: Byte, x: Byte)
    requires b in order && b !in Replaced(file, order) && IsLetter(x)
    ensures x in file || x in Letters(file, order)
  {
    assert |order| <= |Unused(file)| ==> Replaced(file, order) == order;
    assert |order| > |Unused(file)| ==> Letters(file, order) == Unused(file);
    if x !in file {
      UnusedComplete(file, 'A' as int, x);
    }
  }

  /** The first bytes offered get letters, and the letters are given out in the order of the alphabet, none left out. */
  lemma {:induction false} LettersInOrder(file: Bytes, order: Bytes)
    ensures Replaced(file, order) <= order
    ensures var letters := Letters(file, order);
      && (forall i, j :: 0 <= i < j < |letters| ==> letters[i] < letters[j])
      && (forall i, x: Byte :: 0 <= i < |letters| && IsLetter(x) && x !in file && x < letters[i] ==> x in letters[..i])
  {
    var u, letters := Unused(file), Letters(file, order);
    UnusedAscends(file, 'A' as int);
    forall i, x: Byte | 0 <= i < |letters| && IsLetter(x) && x !in file && x < letters[i] ensures x in letters[..i] {
      UnusedComplete(file, 'A' as int, x);
      var j :| 0 <= j < |u| && u[j] == x;
      assert letters[i] == u[i] && j < i;
      assert letters[..i][j] == x;
    }
  }

  /** How many bytes each byte's own escape takes. */
  lemma {:induction false} Widths(b: Byte)
    ensures Width(b) ==
            if b < 14 || b == 27 || b == 92 then 2
            else if b <= 32 || b == 39 then 3
            else if b < 127 then 1
            else 4
  {
    assert b == QUOTE || b in LETTER_ESCAPES || IsPlain(b) || b < 33 || b >= 127;
  }

  /** Printable text without quote, backslash and percent is its own format. */
  lemma {:induction false} PlainText(s: Bytes)
    requires forall i :: 0 <= i < |s| ==> 0x21 <= s[i] <= 0x7E && s[i] != QUOTE && s[i] != BACKSLASH && s[i] != PERCENT
    ensures EscapeAll(s, FORMAT_ESCAPES) == s
    decreases |s|
  {
    if s != [] {
      PlainText(s[1..]);
      assert EscapeByte(s[0], s[1..], FORMAT_ESCAPES) == [s[0]];
    }
  }

  /** Only bytes whose own escape is longer than themselves are worth replacing. */
  predicate Wide(b: Byte) {
    b == QUOTE || b in LETTER_ESCAPES || !IsPlain(b)
  }

  lemma {:induction false} WorthIsWide(file: Bytes, b: Byte)
    requires Saving(file, b) > 0
    ensures Wide(b) && b in file
  {
    FrequencyZero(file, b);
    assert !Wide(b) ==> Width(b) == 1;
  }

  // ----- the table -----

  ghost predicate Replacement(bytes: Bytes, letters: Bytes) {
    && |bytes| == |letters| && Distinct(bytes) && Distinct(letters)
    && (forall i :: 0 <= i < |bytes| ==> Wide(bytes[i]) && IsLetter(letters[i]))
  }

  function TableOf(bytes: Bytes, letters: Bytes): Table
    requires |bytes| == |letters|
  {
    Assign(FORMAT_ESCAPES, bytes, letters)
  }

  lemma {:induction false} AssignElsewhere(table: Table, bytes: Bytes, letters: Bytes, b: Byte)
    requires |bytes| == |letters| && b !in bytes
    ensures b in Assign(table, bytes, letters) <==> b in table
    ensures b in table ==> Assign(table, bytes, letters)[b] == table[b]
    decreases |bytes|
  {
    if bytes != [] {
      AssignElsewhere(table, bytes[..|bytes| - 1], letters[..|bytes| - 1], b);
    }
  }

  lemma {:induction false} AssignAt(table: Table, bytes: Bytes, letters: Bytes, i: nat)
    requires |bytes| == |letters| && Distinct(bytes) && i < |bytes|
    ensures bytes[i] in Assign(table, bytes, letters)
    ensures Assign(table, bytes, letters)[bytes[i]] == [letters[i]]
    decreases |bytes|
  {
    if i < |bytes| - 1 {
      AssignAt(table, bytes[..|bytes| - 1], letters[..|bytes| - 1], i);
    }
  }

  function IndexOf(s: Bytes, b: Byte): (i: nat)
    requires b in s
    ensures i < |s| && s[i] == b
    decreases |s|
  {
    if s[0] == b then 0 else 1 + IndexOf(s[1..], b)
  }

  /** A replaced byte shows up as its letter, except a quote, and except a bell before anything but an
      octal digit. */
  predicate ByLetter(b: Byte, rest: Bytes, bytes: Bytes) {
    b in bytes && b != QUOTE && (b == BELL ==> DigitNext(rest))
  }

  /** The byte printf prints for b. */
  function Shown(b: Byte, rest: Bytes, bytes: Bytes, letters: Bytes): Byte
    requires |bytes| == |letters|
  {
    if ByLetter(b, rest, bytes) then letters[IndexOf(bytes, b)] else b
  }

  lemma {:induction false} EscapeByLetter(b: Byte, rest: Bytes, bytes: Bytes, letters: Bytes)
    requires Replacement(bytes, letters)
    ensures EscapeByte(b, rest, TableOf(bytes, letters)) ==
            if ByLetter(b, rest, bytes) then [Shown(b, rest, bytes, letters)] else EscapeByte(b, rest, FORMAT_ESCAPES)
  {
    if b in bytes {
      AssignAt(FORMAT_ESCAPES, bytes, letters, IndexOf(bytes, b));
    } else {
      AssignElsewhere(FORMAT_ESCAPES, bytes, letters, b);
    }
  }

  // ----- octal escapes -----

  lemma {:induction false} ReadShort(b: Byte, tail: Bytes)
    requires !DigitNext(tail)
    ensures var digits := OctalShort(b)[1..];
      DigitNext(digits + tail) && ReadOctal(digits + tail) == (b, |digits|)
  {
    if b < 8 {
      var s := [Digit(b)] + tail;
      assert s[1..] == tail && OctalShort(b)[1..] == [Digit(b)];
    } else if b < 64 {
      var s := [Digit(b / 8), Digit(b % 8)] + tail;
      assert s[2..] == tail && s[1..] == [Digit(b % 8)] + tail;
      assert OctalShort(b)[1..] == [Digit(b / 8), Digit(b % 8)];
      assert ReadOctal(s) == (b / 8 * 8 + b % 8, 2);
    } else {
      ReadFull(b, tail);
    }
  }

  lemma {:induction false} ReadFull(b: Byte, tail: Bytes)
    ensures var digits := OctalFull(b)[1..];
      DigitNext(digits + tail) && ReadOctal(digits + tail) == (b, 3)
  {
    ReadThree(b / 64, b / 8 % 8, b % 8, tail);
    OctalParts(b);
    assert OctalFull(b)[1..] == [Digit(b / 64), Digit(b / 8 % 8), Digit(b % 8)];
    hide ReadOctal, Digit, DigitNext;
  }

  lemma {:induction false} ReadThree(x: nat, y: nat, z: nat, tail: Bytes)
    requires x < 8 && y < 8 && z < 8
    ensures var s := [Digit(x), Digit(y), Digit(z)] + tail;
      DigitNext(s) && ReadOctal(s) == (((x * 8 + y) * 8 + z) % 256, 3)
  {
    var s := [Digit(x), Digit(y), Digit(z)] + tail;
    assert s[0] == Digit(x) && s[1] == Digit(y) && s[2] == Digit(z);
  }

  lemma {:induction false} OctalParts(b: Byte)
    ensures ((b / 64 * 8 + b / 8 % 8) * 8 + b % 8) % 256 == b
  {
    assert b / 64 == b / 8 / 8;
  }

  /** An octal escape reads back as its byte when it was padded wherever a digit follows. */
  lemma {:induction false} ReadBack(b: Byte, rest: Bytes, tail: Bytes)
    requires DigitNext(tail) ==> DigitNext(rest)
    ensures var digits := Octal(b, rest)[1..];
      && Octal(b, rest) == [BACKSLASH] + digits
      && DigitNext(digits + tail) && ReadOctal(digits + tail) == (b, |digits|)
  {
    if DigitNext(rest) {
      ReadFull(b, tail);
    } else {
      ReadShort(b, tail);
    }
  }

  // ----- printf undoes the escaping -----

  lemma {:induction false} PrintfOctal(b: Byte, rest: Bytes, tail: Bytes)
    requires DigitNext(tail) ==> DigitNext(rest)
    ensures Printf(Octal(b, rest) + tail) == Prepend(b, Printf(tail))
  {
    ReadBack(b, rest, tail);
    var digits := Octal(b, rest)[1..];
    var s := [BACKSLASH] + (digits + tail);
    assert Octal(b, rest) + tail == s;
    assert s[1..] == digits + tail && s[1 + |digits|..] == tail;
  }

  /** Without replacements every byte prints as itself. */
  lemma {:induction false} PrintfFormat(b: Byte, rest: Bytes, tail: Bytes)
    requires DigitNext(tail) ==> DigitNext(rest)
    ensures Printf(EscapeByte(b, rest, FORMAT_ESCAPES) + tail) == Prepend(b, Printf(tail))
  {
    var out := EscapeByte(b, rest, FORMAT_ESCAPES);
    if out == Octal(b, rest) {
      PrintfOctal(b, rest, tail);
    } else if |out| == 2 {
      var s := out + tail;
      assert s[0] == out[0] && s[1] == out[1] && s[2..] == tail && s[1..] == [out[1]] + tail;
    } else {
      assert out == [b] && (out + tail)[1..] == tail;
    }
  }

  lemma {:induction false} PrintfByte(b: Byte, rest: Bytes, tail: Bytes, bytes: Bytes, letters: Bytes)
    requires Replacement(bytes, letters)
    requires DigitNext(tail) ==> DigitNext(rest)
    ensures Printf(EscapeByte(b, rest, TableOf(bytes, letters)) + tail) ==
            Prepend(Shown(b, rest, bytes, letters), Printf(tail))
  {
    EscapeByLetter(b, rest, bytes, letters);
    if ByLetter(b, rest, bytes) {
      var c := Shown(b, rest, bytes, letters);
      assert ([c] + tail)[1..] == tail;
    } else {
      PrintfFormat(b, rest, tail);
    }
  }

  lemma {:induction false} EscapeStarts(b: Byte, rest: Bytes)
    ensures |EscapeByte(b, rest, FORMAT_ESCAPES)| > 0
    ensures IsOctal(EscapeByte(b, rest, FORMAT_ESCAPES)[0]) ==> IsOctal(b)
  {
  }

  /** Escaped text begins with an octal digit only where the raw text does. */
  lemma {:induction false} DigitsSurface(s: Bytes, bytes: Bytes, letters: Bytes)
    requires Replacement(bytes, letters)
    ensures DigitNext(EscapeAll(s, TableOf(bytes, letters))) ==> DigitNext(s)
  {
    if s != [] {
      EscapeByLetter(s[0], s[1..], bytes, letters);
      EscapeStarts(s[0], s[1..]);
    }
  }

  function ShownAll(s: Bytes, bytes: Bytes, letters: Bytes): Bytes
    requires |bytes| == |letters|
    decreases |s|
  {
    if s == [] then [] else [Shown(s[0], s[1..], bytes, letters)] + ShownAll(s[1..], bytes, letters)
  }

  lemma {:induction false} PrintfShows(s: Bytes, bytes: Bytes, letters: Bytes)
    requires Replacement(bytes, letters)
    ensures Printf(EscapeAll(s, TableOf(bytes, letters))) == Some(ShownAll(s, bytes, letters))
    decreases |s|
  {
    if s != [] {
      PrintfShows(s[1..], bytes, letters);
      DigitsSurface(s[1..], bytes, letters);
      PrintfByte(s[0], s[1..], EscapeAll(s[1..], TableOf(bytes, letters)), bytes, letters);
    }
  }

  // ----- tr undoes the replacement -----

  /** What tr takes a listed byte for. */
  function TrValue(b: Byte, e: Byte): Byte {
    if b == ESCAPE then e else b
  }

  function TrValues(bytes: Bytes, e: Byte): Bytes {
    seq(|bytes|, i requires 0 <= i < |bytes| => TrValue(bytes[i], e))
  }

  lemma {:induction false} TrSetLetters(s: Bytes, e: Byte)
    requires forall i :: 0 <= i < |s| ==> IsLetter(s[i])
    ensures TrSet(s, e) == Some(s)
    decreases |s|
  {
    if s != [] {
      TrSetLetters(s[1..], e);
      assert s == [s[0]] + s[1..];
    }
  }

  lemma {:induction false} TrSetOctal(b: Byte, rest: Bytes, tail: Bytes, e: Byte)
    requires DigitNext(tail) ==> DigitNext(rest)
    ensures TrSet(Octal(b, rest) + tail, e) == Prepend(b, TrSet(tail, e))
  {
    ReadBack(b, rest, tail);
    var digits := Octal(b, rest)[1..];
    var s := [BACKSLASH] + (digits + tail);
    assert Octal(b, rest) + tail == s;
    assert s[1..] == digits + tail && s[1 + |digits|..] == tail;
  }

  lemma {:induction false} TrSetByte(b: Byte, rest: Bytes, tail: Bytes, e: Byte)
    requires Wide(b) && (DigitNext(tail) ==> DigitNext(rest))
    ensures b != ESCAPE ==> TrSet(EscapeByte(b, rest, LETTER_ESCAPES) + tail, e) == Prepend(b, TrSet(tail, e))
    ensures b == ESCAPE ==> TrSet(EscapeByte(b, rest, LETTER_ESCAPES) + tail, e) == Prepend(e, TrSet(tail, e))
  {
    var out := EscapeByte(b, rest, LETTER_ESCAPES);
    if out == Octal(b, rest) {
      TrSetOctal(b, rest, tail, e);
    } else {
      var s := out + tail;
      assert s[0] == out[0] && s[1] == out[1] && s[2..] == tail && s[1..] == [out[1]] + tail;
    }
  }

  lemma {:induction false} WideStarts(b: Byte, rest: Bytes)
    requires Wide(b)
    ensures EscapeByte(b, rest, LETTER_ESCAPES) != [] && !IsOctal(EscapeByte(b, rest, LETTER_ESCAPES)[0])
  {
  }

  lemma {:induction false} TrSetCons(b: Byte, rest: Bytes, tail: Bytes, e: Byte)
    requires Wide(b) && !DigitNext(tail)
    ensures var s := EscapeByte(b, rest, LETTER_ESCAPES) + tail;
      TrSet(s, e) == Prepend(TrValue(b, e), TrSet(tail, e)) && !DigitNext(s)
  {
    WideStarts(b, rest);
    TrSetByte(b, rest, tail, e);
    hide EscapeByte, TrSet, Wide;
  }

  lemma {:induction false} TrValuesCons(bytes: Bytes, e: Byte)
    requires bytes != []
    ensures TrValues(bytes, e) == [TrValue(bytes[0], e)] + TrValues(bytes[1..], e)
  {
  }

  /** tr reads the second set as the replaced bytes, but for byte 27. */
  lemma {:induction false} TrSetBytes(bytes: Bytes, e: Byte)
    requires forall i :: 0 <= i < |bytes| ==> Wide(bytes[i])
    ensures TrSet(EscapeAll(bytes, LETTER_ESCAPES), e) == Some(TrValues(bytes, e))
    ensures !DigitNext(EscapeAll(bytes, LETTER_ESCAPES))
    decreases |bytes|
  {
    if bytes == [] {
      assert TrValues(bytes, e) == [];
    } else {
      hide EscapeByte, TrSet, Wide, TrValue, TrValues, DigitNext;
      TrSetBytes(bytes[1..], e);
      TrSetCons(bytes[0], bytes[1..], EscapeAll(bytes[1..], LETTER_ESCAPES), e);
      TrValuesCons(bytes, e);
    }
  }

  lemma {:induction false} TranslateAt(from: Bytes, to: Bytes, i: nat)
    requires |from| == |to| && Distinct(from) && i < |from|
    ensures Translate(from[i], from, to) == to[i]
    decreases |from|
  {
    if i < |from| - 1 {
      TranslateAt(from[..|from| - 1], to[..|to| - 1], i);
    }
  }

  lemma {:induction false} TranslateOther(b: Byte, from: Bytes, to: Bytes)
    requires |from| == |to| && b !in from
    ensures Translate(b, from, to) == b
    decreases |from|
  {
    if from != [] {
      TranslateOther(b, from[..|from| - 1], to[..|to| - 1]);
    }
  }

  /** What a byte of the file finally comes out as. */
  function Restored(b: Byte, bytes: Bytes, e: Byte): Byte {
    if b in bytes then TrValue(b, e) else b
  }

  lemma {:induction false} TranslateShown(b: Byte, rest: Bytes, bytes: Bytes, letters: Bytes, e: Byte)
    requires Replacement(bytes, letters) && b !in letters
    ensures Translate(Shown(b, rest, bytes, letters), letters, TrValues(bytes, e)) == Restored(b, bytes, e)
  {
    if ByLetter(b, rest, bytes) {
      TranslateAt(letters, TrValues(bytes, e), IndexOf(bytes, b));
    } else {
      TranslateOther(b, letters, TrValues(bytes, e));
    }
  }

  function RestoredAll(s: Bytes, bytes: Bytes, e: Byte): Bytes {
    seq(|s|, i requires 0 <= i < |s| => Restored(s[i], bytes, e))
  }

  lemma {:induction false} TranslateShownAll(s: Bytes, bytes: Bytes, letters: Bytes, e: Byte)
    requires Replacement(bytes, letters) && forall i :: 0 <= i < |letters| ==> letters[i] !in s
    ensures TranslateAll(ShownAll(s, bytes, letters), letters, TrValues(bytes, e)) == RestoredAll(s, bytes, e)
    decreases |s|
  {
    if s == [] {
      assert RestoredAll(s, bytes, e) == [];
    } else {
      TranslateShown(s[0], s[1..], bytes, letters, e);
      TranslateShownAll(s[1..], bytes, letters, e);
      assert RestoredAll(s, bytes, e) == [Restored(s[0], bytes, e)] + RestoredAll(s[1..], bytes, e);
    }
  }

  // ----- the round trip -----

  lemma {:induction false} ComposeIsReplacement(file: Bytes, order: Bytes)
    requires Offers(file, order)
    ensures Replacement(Replaced(file, order), Letters(file, order))
    ensures forall i :: 0 <= i < |Letters(file, order)| ==> Letters(file, order)[i] !in file
    ensures forall i :: 0 <= i < |Replaced(file, order)| ==> Replaced(file, order)[i] in file
  {
    UnusedFacts(file, 'A' as int);
    forall i | 0 <= i < |order| ensures Wide(order[i]) && order[i] in file {
      WorthIsWide(file, order[i]);
    }
  }

  /** The command always runs, and restores every byte except a replaced byte 27, which becomes whatever
      tr makes of `\e`. */
  lemma {:induction false} CommandOutput(file: Bytes, order: Bytes, e: Byte)
    requires Offers(file, order)
    ensures Execute(Compose(file, order), e) == Some(RestoredAll(file, Replaced(file, order), e))
  {
    hide Printf, TrSet, EscapeAll, ShownAll, TranslateAll, Translate, UnusedFrom, Replacement;
    ComposeIsReplacement(file, order);
    var bytes, letters := Replaced(file, order), Letters(file, order);
    ReplacementShape(bytes, letters);
    PrintfShows(file, bytes, letters);
    TranslateShownAll(file, bytes, letters, e);
    if bytes == [] {
      assert letters == [] && TrValues(bytes, e) == [];
      NothingTranslated(ShownAll(file, bytes, letters));
    } else {
      TrSetLetters(letters, e);
      TrSetBytes(bytes, e);
    }
  }

  lemma {:induction false} ReplacementShape(bytes: Bytes, letters: Bytes)
    requires Replacement(bytes, letters)
    ensures |bytes| == |letters|
    ensures forall i :: 0 <= i < |bytes| ==> Wide(bytes[i])
    ensures forall i :: 0 <= i < |letters| ==> IsLetter(letters[i])
  {
  }

  lemma {:induction false} NothingTranslated(s: Bytes)
    ensures TranslateAll(s, [], []) == s
    decreases |s|
  {
    if s != [] {
      NothingTranslated(s[1..]);
      assert s == [s[0]] + s[1..];
    }
  }

  /** The command reproduces the file exactly when byte 27 was not replaced (or tr happens to read `\e` as
      byte 27). */
  lemma {:induction false} RoundTripIff(file: Bytes, order: Bytes, e: Byte)
    requires Offers(file, order)
    ensures Execute(Compose(file, order), e) == Some(file) <==> ESCAPE !in Replaced(file, order) || e == ESCAPE
  {
    CommandOutput(file, order, e);
    ComposeIsReplacement(file, order);
    var bytes := Replaced(file, order);
    var out := RestoredAll(file, bytes, e);
    if ESCAPE in bytes && e != ESCAPE {
      var i :| 0 <= i < |file| && file[i] == ESCAPE;
      assert out[i] == e;
    } else {
      assert out == file;
    }
  }

  /** Fewer than four bytes 27 in the file are never replaced. */
  lemma {:induction false} FewEscapesSafe(file: Bytes, order: Bytes, e: Byte)
    requires Offers(file, order) && Frequency(file, ESCAPE) < 4
    ensures Execute(Compose(file, order), e) == Some(file)
  {
    assert Width(ESCAPE) == 2;
    assert Saving(file, ESCAPE) <= 0;
    RoundTripIff(file, order, e);
  }

  /** With a tr that reads `\e` as the letter e, four bytes 27 come out as four letters. */
  lemma {:induction false} FourEscapesLost()
    ensures var file := [ESCAPE, ESCAPE, ESCAPE, ESCAPE]; var e := 'e' as int;
      Offers(file, [ESCAPE]) && Execute(Compose(file, [ESCAPE]), e) == Some([e, e, e, e])
  {
    var file: Bytes := [ESCAPE, ESCAPE, ESCAPE, ESCAPE];
    assert file[1..] == [ESCAPE, ESCAPE, ESCAPE] && file[1..][1..] == [ESCAPE, ESCAPE] && file[1..][1..][1..] == [ESCAPE];
    assert Frequency([ESCAPE], ESCAPE) == 1 && Frequency([ESCAPE, ESCAPE], ESCAPE) == 2;
    assert EscapeByte(ESCAPE, [], LETTER_ESCAPES) == LETTER_ESCAPES[ESCAPE] == [BACKSLASH, 'e' as int];
    assert Frequency(file, ESCAPE) == 4 && Width(ESCAPE) == 2;
    hide Width, EscapeByte, Execute, Compose;
    CommandOutput(file, [ESCAPE], 'e' as int);
    UnusedNotEmpty(file);
    assert Replaced(file, [ESCAPE]) == [ESCAPE];
    assert RestoredAll(file, [ESCAPE], 'e' as int) == ['e' as int, 'e' as int, 'e' as int, 'e' as int];
  }

  lemma {:induction false} UnusedNotEmpty(file: Bytes)
    requires 'A' as int !in file
    ensures |Unused(file)| > 0
  {
    FrequencyZero(file, 'A' as int);
  }

  // ----- quoting -----

  /** Safe inside single quotes, and not blank. */
  ghost predicate Quotable(s: Bytes) {
    forall i :: 0 <= i < |s| ==> IsPlain(s[i]) && s[i] != QUOTE
  }

  lemma {:induction false} EscapeQuotable(s: Bytes, bytes: Bytes, letters: Bytes)
    requires Replacement(bytes, letters)
    ensures Quotable(EscapeAll(s, TableOf(bytes, letters)))
    decreases |s|
  {
    if s != [] {
      EscapeByLetter(s[0], s[1..], bytes, letters);
      EscapeQuotable(s[1..], bytes, letters);
      if ByLetter(s[0], s[1..], bytes) {
        assert IsLetter(letters[IndexOf(bytes, s[0])]);
      }
    }
  }

  lemma {:induction false} SetQuotable(s: Bytes)
    ensures Quotable(EscapeAll(s, LETTER_ESCAPES))
    decreases |s|
  {
    if s != [] {
      SetQuotable(s[1..]);
    }
  }

  /** Nothing the command quotes contains a quote, a blank or an unprintable byte, so the shell passes the
      format and both sets on unchanged. */
  lemma {:induction false} CommandQuotable(file: Bytes, order: Bytes)
    requires Offers(file, order)
    ensures var c := Compose(file, order);
      Quotable(c.format) && (c.tr.Some? ==> Quotable(c.tr.value.0) && Quotable(c.tr.value.1))
  {
    ComposeIsReplacement(file, order);
    EscapeQuotable(file, Replaced(file, order), Letters(file, order));
    SetQuotable(Replaced(file, order));
  }
}
