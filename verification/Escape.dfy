/** escape.pl: rendering a byte string as a printf format, with frequent bytes replaced by letters the
    input does not use and restored by tr. */
module Escape {
  import opened Basics

  type Bytes = seq<Byte>
  type Table = map<Byte, Bytes>

  const BACKSLASH: Byte := 92
  const PERCENT: Byte := 37
  const QUOTE: Byte := 39
  const BELL: Byte := 7
  const ESCAPE: Byte := 27

  /** `%eorig`: backslash and a letter. */
  const LETTER_ESCAPES: Table := map[
    7 := [BACKSLASH, 'a' as int], 8 := [BACKSLASH, 'b' as int], 27 := [BACKSLASH, 'e' as int],
    12 := [BACKSLASH, 'f' as int], 10 := [BACKSLASH, 'n' as int], 13 := [BACKSLASH, 'r' as int],
    9 := [BACKSLASH, 't' as int], 11 := [BACKSLASH, 'v' as int], 92 := [BACKSLASH, BACKSLASH]]

  /** `%escape` before any replacement. */
  const FORMAT_ESCAPES: Table := LETTER_ESCAPES[PERCENT := [PERCENT, PERCENT]]

  predicate IsOctal(b: Byte) {
    '0' as int <= b <= '7' as int
  }

  predicate IsLetter(b: Byte) {
    'A' as int <= b <= 'Z' as int || 'a' as int <= b <= 'z' as int
  }

  /** Bytes printed as themselves unless a table says otherwise. */
  predicate IsPlain(b: Byte) {
    0x21 <= b < 0x7F
  }

  /** Whether the raw text that follows begins with an octal digit. */
  predicate DigitNext(rest: Bytes) {
    rest != [] && IsOctal(rest[0])
  }

  function Digit(n: nat): Byte
    requires n < 8
  {
    '0' as int + n
  }

  /** `\%o`. */
  function OctalShort(b: Byte): Bytes {
    if b < 8 then [BACKSLASH, Digit(b)]
    else if b < 64 then [BACKSLASH, Digit(b / 8), Digit(b % 8)]
    else [BACKSLASH, Digit(b / 64), Digit(b / 8 % 8), Digit(b % 8)]
  }

  /** `\%03o`. */
  function OctalFull(b: Byte): Bytes {
    [BACKSLASH, Digit(b / 64), Digit(b / 8 % 8), Digit(b % 8)]
  }

  /** `esc`: padded exactly when a digit follows. */
  function Octal(b: Byte, rest: Bytes): Bytes {
    if DigitNext(rest) then OctalFull(b) else OctalShort(b)
  }

  /** `esc3`: one byte, given the raw bytes that follow it. */
  function EscapeByte(b: Byte, rest: Bytes, table: Table): Bytes {
    if b == QUOTE then Octal(b, rest)
    else if b in table then (if b == BELL && !DigitNext(rest) then Octal(b, rest) else table[b])
    else if IsPlain(b) then [b]
    else Octal(b, rest)
  }

  /** `escstr`. */
  function EscapeAll(s: Bytes, table: Table): Bytes
    decreases |s|
  {
    if s == [] then [] else EscapeByte(s[0], s[1..], table) + EscapeAll(s[1..], table)
  }

  // ----- choosing replacements -----

  function Frequency(s: Bytes, b: Byte): nat
    decreases |s|
  {
    if s == [] then 0 else (if s[0] == b then 1 else 0) + Frequency(s[1..], b)
  }

  /** Length of a byte's own escape, nothing following. */
  function Width(b: Byte): nat {
    |EscapeByte(b, [], LETTER_ESCAPES)|
  }

  function Saving(file: Bytes, b: Byte): int {
    Frequency(file, b) * (Width(b) - 1) - 1 - Width(b)
  }

  /** Letters A to Z and a to z that the file does not use, from letter c on. */
  function UnusedFrom(file: Bytes, c: nat): Bytes
    requires c <= 'z' as int + 1
    decreases 'z' as int + 1 - c
  {
    if c == 'z' as int + 1 then []
    else (if IsLetter(c) && Frequency(file, c) == 0 then [c] else []) + UnusedFrom(file, c + 1)
  }

  function Unused(file: Bytes): Bytes {
    UnusedFrom(file, 'A' as int)
  }

  predicate Distinct(s: Bytes) {
    forall i, j :: 0 <= i < j < |s| ==> s[i] != s[j]
  }

  /** An order in which worthwhile bytes are offered for replacement. */
  predicate Offers(file: Bytes, order: Bytes) {
    Distinct(order) && forall i :: 0 <= i < |order| ==> Saving(file, order[i]) > 0
  }

  /** The bytes replaced: as many as there are letters. */
  function Replaced(file: Bytes, order: Bytes): Bytes {
    order[..Min(|order|, |Unused(file)|)]
  }

  /** The letters that stand for them. */
  function Letters(file: Bytes, order: Bytes): Bytes {
    Unused(file)[..Min(|order|, |Unused(file)|)]
  }

  /** The table after assigning letters to bytes. */
  function Assign(table: Table, bytes: Bytes, letters: Bytes): Table
    requires |bytes| == |letters|
    decreases |bytes|
  {
    if bytes == [] then table
    else
      var n := |bytes| - 1;
      Assign(table, bytes[..n], letters[..n])[bytes[n] := [letters[n]]]
  }

  /** The command: a printf format and, if anything was replaced, the two sets of a tr. */
  datatype Command = Command(format: Bytes, tr: Option<(Bytes, Bytes)>)

  function Compose(file: Bytes, order: Bytes): Command {
    var bytes, letters := Replaced(file, order), Letters(file, order);
    Command(EscapeAll(file, Assign(FORMAT_ESCAPES, bytes, letters)),
            if bytes == [] then None else Some((letters, EscapeAll(bytes, LETTER_ESCAPES))))
  }

  /** The script divides by the input's length before it prints, so an empty file yields no command. */
  function Script(file: Bytes, order: Bytes): Option<Command> {
    if file == [] then None else Some(Compose(file, order))
  }

  // ----- what printf and tr do -----

  /** The letter escapes printf and tr share. */
  function LetterValue(c: Byte): Option<Byte> {
    if c == 'a' as int then Some(7)
    else if c == 'b' as int then Some(8)
    else if c == 'f' as int then Some(12)
    else if c == 'n' as int then Some(10)
    else if c == 'r' as int then Some(13)
    else if c == 't' as int then Some(9)
    else if c == 'v' as int then Some(11)
    else if c == BACKSLASH then Some(BACKSLASH)
    else None
  }

  /** One to three octal digits, as many as there are: the value and the digits read. */
  function ReadOctal(s: Bytes): (r: (Byte, nat))
    requires DigitNext(s)
    ensures 1 <= r.1 <= |s|
  {
    var a := s[0] - '0' as int;
    if !DigitNext(s[1..]) then (a, 1)
    else
      var b := a * 8 + (s[1] - '0' as int);
      if !DigitNext(s[2..]) then (b, 2) else ((b * 8 + (s[2] - '0' as int)) % 256, 3)
  }

  function Prepend(b: Byte, s: Option<Bytes>): Option<Bytes> {
    if s.Some? then Some([b] + s.value) else None
  }

  /** printf on a format without arguments. None stands for a conversion or an escape whose effect is not
      specified; `\e` is the extension the script relies on. */
  function Printf(s: Bytes): Option<Bytes>
    decreases |s|
  {
    if s == [] then Some([])
    else if s[0] == PERCENT then
      if |s| >= 2 && s[1] == PERCENT then Prepend(PERCENT, Printf(s[2..])) else None
    else if s[0] == BACKSLASH then
      if DigitNext(s[1..]) then
        var (b, n) := ReadOctal(s[1..]);
        Prepend(b, Printf(s[1 + n..]))
      else if |s| < 2 then None
      else if s[1] == 'e' as int then Prepend(ESCAPE, Printf(s[2..]))
      else
        var v := LetterValue(s[1]);
        if v.Some? then Prepend(v.value, Printf(s[2..])) else None
    else Prepend(s[0], Printf(s[1..]))
  }

  /** The bytes a tr set lists; e is what this tr makes of `\e`, which is not one of its escapes. None
      stands for ranges and bracket expressions. */
  function TrSet(s: Bytes, e: Byte): Option<Bytes>
    decreases |s|
  {
    if s == [] then Some([])
    else if s[0] == '-' as int || s[0] == '[' as int then None
    else if s[0] == BACKSLASH then
      if DigitNext(s[1..]) then
        var (b, n) := ReadOctal(s[1..]);
        Prepend(b, TrSet(s[1 + n..], e))
      else if |s| < 2 then None
      else if s[1] == 'e' as int then Prepend(e, TrSet(s[2..], e))
      else
        var v := LetterValue(s[1]);
        if v.Some? then Prepend(v.value, TrSet(s[2..], e)) else None
    else Prepend(s[0], TrSet(s[1..], e))
  }

  /** tr on one byte: the last position of the byte in the first set counts. */
  function Translate(b: Byte, from: Bytes, to: Bytes): Byte
    requires |from| == |to|
    decreases |from|
  {
    if from == [] then b
    else if from[|from| - 1] == b then to[|to| - 1]
    else Translate(b, from[..|from| - 1], to[..|to| - 1])
  }

  function TranslateAll(s: Bytes, from: Bytes, to: Bytes): Bytes
    requires |from| == |to|
    decreases |s|
  {
    if s == [] then [] else [Translate(s[0], from, to)] + TranslateAll(s[1..], from, to)
  }

  /** The output of the command. */
  function Execute(c: Command, e: Byte): Option<Bytes> {
    var printed := Printf(c.format);
    if printed.None? || c.tr.None? then printed
    else
      var from, to := TrSet(c.tr.value.0, e), TrSet(c.tr.value.1, e);
      if from.None? || to.None? || |from.value| != |to.value| then None
      else Some(TranslateAll(printed.value, from.value, to.value))
  }
}
