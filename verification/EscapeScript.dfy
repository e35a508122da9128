/** The script escape.pl as it runs: tables and lists changed in place while the command is built. */
module EscapeScript {
  import opened Basics
  import opened Escape
  import opened EscapeProofs

  /** The worthwhile bytes among the given names, in their order. */
  function Worthwhile(file: Bytes, names: Bytes): (r: Bytes)
    ensures forall i :: 0 <= i < |r| ==> Saving(file, r[i]) > 0 && r[i] in names
    decreases |names|
  {
    if names == [] then []
    else
      var n := |names| - 1;
      Worthwhile(file, names[..n]) + if Saving(file, names[n]) > 0 then [names[n]] else []
  }

  lemma {:induction false} WorthwhileOffers(file: Bytes, names: Bytes)
    requires Distinct(names)
    ensures Offers(file, Worthwhile(file, names))
    decreases |names|
  {
    if names != [] {
      WorthwhileOffers(file, names[..|names| - 1]);
    }
  }

  /** Exactly the names with a positive saving are worthwhile. */
  lemma {:induction false} WorthwhileIff(file: Bytes, names: Bytes, b: Byte)
    ensures b in Worthwhile(file, names) <==> b in names && Saving(file, b) > 0
    decreases |names|
  {
    if names != [] {
      var n := |names| - 1;
      WorthwhileIff(file, names[..n], b);
      assert names == names[..n] + [names[n]];
    }
  }

  /** They keep their order. */
  lemma {:induction false} WorthwhileInOrder(file: Bytes, names: Bytes, i: nat, j: nat) returns (p: nat, q: nat)
    requires i < j < |Worthwhile(file, names)|
    ensures p < q < |names| && Worthwhile(file, names)[i] == names[p] && Worthwhile(file, names)[j] == names[q]
    decreases |names|
  {
    var n := |names| - 1;
    var before := Worthwhile(file, names[..n]);
    if j < |before| {
      p, q := WorthwhileInOrder(file, names[..n], i, j);
    } else {
      assert before[i] in names[..n];
      p :| 0 <= p < n && names[p] == before[i];
      q := n;
    }
  }

  class Perl {
    var freq: map<Byte, nat>
    var escape: Table
    var unused: Bytes
    var replace1: Bytes
    var replace2: Bytes
    var post: Option<(Bytes, Bytes)>

    constructor ()
      ensures freq == map[] && escape == FORMAT_ESCAPES && unused == [] && replace1 == [] && replace2 == [] && post == None
    {
      freq := map[];
      escape := LETTER_ESCAPES[PERCENT := [PERCENT, PERCENT]];
      unused, replace1, replace2, post := [], [], [], None;
    }

    function Freq(b: Byte): nat
      reads this`freq
    {
      if b in freq then freq[b] else 0
    }

    /** `$freq{ord()}++` over the input. */
    method CountBytes(file: Bytes)
      requires freq == map[]
      modifies this`freq
      ensures forall b: Byte :: Freq(b) == Frequency(file, b)
    {
      for i := |file| downto 0
        invariant forall b: Byte :: Freq(b) == Frequency(file[i..], b)
      {
        assert file[i..][1..] == file[i + 1..];
        freq := freq[file[i] := Freq(file[i]) + 1];
      }
      assert file[0..] == file;
    }

    /** The two loops over A to Z and a to z. */
    method CollectUnused(file: Bytes)
      requires unused == [] && forall b: Byte :: Freq(b) == Frequency(file, b)
      modifies this`unused
      ensures unused == Unused(file)
    {
      hide UnusedFrom, Frequency;
      assert [] + UnusedFrom(file, 'A' as int) == UnusedFrom(file, 'A' as int);
      for c := 'A' as int to 'Z' as int + 1
        invariant unused + UnusedFrom(file, c) == Unused(file)
      {
        StepUnused(file, c, unused);
        if Freq(c) == 0 {
          unused := unused + [c];
        }
      }
      NoLettersBetween(file, 'Z' as int + 1);
      for c := 'a' as int to 'z' as int + 1
        invariant unused + UnusedFrom(file, c) == Unused(file)
      {
        StepUnused(file, c, unused);
        if Freq(c) == 0 {
          unused := unused + [c];
        }
      }
      NoneAfterZ(file, unused);
    }

    /** `escstr`: accumulates the escapes of a string. */
    method EscStr(s: Bytes, table: Table) returns (out: Bytes)
      ensures out == EscapeAll(s, table)
    {
      out := [];
      for i := 0 to |s|
        invariant out + EscapeAll(s[i..], table) == EscapeAll(s, table)
      {
        assert s[i..][1..] == s[i + 1..];
        ghost var e, tail := EscapeByte(s[i], s[i + 1..], table), EscapeAll(s[i + 1..], table);
        assert out + (e + tail) == (out + e) + tail;
        out := out + EscapeByte(s[i], s[i + 1..], table);
      }
      assert out + [] == out;
    }

    /** `repl`: gives the byte the next unused letter, if one is left. */
    method Repl(input: Byte)
      modifies this`unused, this`replace1, this`replace2, this`escape, this`post
      ensures old(unused) == [] ==>
        unused == [] && replace1 == old(replace1) && replace2 == old(replace2) && escape == old(escape) && post == old(post)
      ensures old(unused) != [] ==>
        && unused == old(unused)[1..]
        && replace1 == old(replace1) + [old(unused)[0]] && replace2 == old(replace2) + [input]
        && escape == old(escape)[input := [old(unused)[0]]]
        && post == Some((replace1, EscapeAll(replace2, LETTER_ESCAPES)))
    {
      if |unused| > 0 {
        var chr := unused[0];
        unused := unused[1..];
        replace1 := replace1 + [chr];
        replace2 := replace2 + [input];
        escape := escape[input := [chr]];
        var set2 := EscStr(replace2, LETTER_ESCAPES);
        post := Some((replace1, set2));
      }
    }

    /** The fields after offering the bytes of `order`, as the specification describes them. */
    ghost predicate Offered(file: Bytes, order: Bytes)
      reads this
    {
      && replace1 == Letters(file, order) && replace2 == Replaced(file, order)
      && unused == Unused(file)[|replace1|..]
      && escape == Assign(FORMAT_ESCAPES, replace2, replace1)
      && post == (if replace2 == [] then None else Some((replace1, EscapeAll(replace2, LETTER_ESCAPES))))
    }

    /** One worthwhile name. */
    method OfferName(file: Bytes, ghost order: Bytes, name: Byte)
      requires Offered(file, order)
      modifies this`unused, this`replace1, this`replace2, this`escape, this`post
      ensures Offered(file, order + [name])
    {
      hide EscapeAll, UnusedFrom;
      OfferOne(file, order, name);
      ghost var n := |replace1|;
      assert unused == Unused(file)[n..] && (unused != [] ==> unused[1..] == Unused(file)[n + 1..]);
      assert (replace2 + [name])[..|replace2|] == replace2;
      assert unused != [] ==> (replace1 + [unused[0]])[..n] == replace1;
      Repl(name);
    }

    /** The loop that offers every name whose saving is positive; `-n` switches the replacement off. */
    method OfferNames(file: Bytes, names: Bytes, replace: bool)
      requires Offered(file, []) && forall b: Byte :: Freq(b) == Frequency(file, b)
      modifies this`unused, this`replace1, this`replace2, this`escape, this`post
      ensures Offered(file, if replace then Worthwhile(file, names) else [])
    {
      hide Offered;
      assert names[..0] == [];
      for i := 0 to |names|
        invariant Offered(file, if replace then Worthwhile(file, names[..i]) else [])
      {
        assert names[..i + 1][..i] == names[..i];
        var name := names[i];
        var saving := Freq(name) * (Width(name) - 1) - 1 - Width(name);
        ghost var sofar := Worthwhile(file, names[..i]);
        assert Worthwhile(file, names[..i + 1]) == sofar + if saving > 0 then [name] else [];
        assert sofar + [] == sofar;
        if saving > 0 && replace {
          OfferName(file, sofar, name);
        }
      }
      assert names[..|names|] == names;
    }

    /** The whole script; the names are the input's bytes, each once, in whatever order the sort puts them. */
    method Run(file: Bytes, names: Bytes, replace: bool) returns (c: Option<Command>)
      requires freq == map[] && escape == FORMAT_ESCAPES && unused == [] && replace1 == [] && replace2 == [] && post == None
      requires Distinct(names) && forall b :: b in names <==> b in file
      modifies this
      ensures c == Script(file, if replace then Worthwhile(file, names) else [])
      ensures c.Some? && !replace ==> forall e: Byte :: Execute(c.value, e) == Some(file)
      ensures c.Some? && replace ==> forall e: Byte ::
        Execute(c.value, e) == Some(file) <==> ESCAPE !in Replaced(file, Worthwhile(file, names)) || e == ESCAPE
      ensures c.Some? && replace ==> forall b: Byte :: Saving(file, b) > 0 ==>
        || b in Replaced(file, Worthwhile(file, names))
        || forall x: Byte :: IsLetter(x) ==> x in file || x in Letters(file, Worthwhile(file, names))
    {
      CountBytes(file);
      CollectUnused(file);
      OfferNames(file, names, replace);
      var out := EscStr(file, escape);
      if |file| == 0 {
        return None;
      }
      c := Some(Command(out, post));
      AllWorthwhileOffered(file, names);
      forall e: Byte ensures !replace ==> Execute(c.value, e) == Some(file) {
        RoundTripIff(file, [], e);
      }
      WorthwhileOffers(file, names);
      forall e: Byte ensures replace ==>
        (Execute(c.value, e) == Some(file) <==> ESCAPE !in Replaced(file, Worthwhile(file, names)) || e == ESCAPE)
      {
        RoundTripIff(file, Worthwhile(file, names), e);
      }
    }
  }

  /** Whatever is worth a letter gets one while there are any. */
  lemma {:induction false} AllWorthwhileOffered(file: Bytes, names: Bytes)
    requires forall b :: b in names <==> b in file
    ensures forall b: Byte :: Saving(file, b) > 0 ==>
      || b in Replaced(file, Worthwhile(file, names))
      || forall x: Byte :: IsLetter(x) ==> x in file || x in Letters(file, Worthwhile(file, names))
  {
    var order := Worthwhile(file, names);
    forall b: Byte, x: Byte | Saving(file, b) > 0 && b !in Replaced(file, order) && IsLetter(x)
      ensures x in file || x in Letters(file, order)
    {
      WorthIsWide(file, b);
      WorthwhileIff(file, names, b);
      OfferedInVain(file, order, b, x);
    }
  }

  lemma {:induction false} StepUnused(file: Bytes, c: nat, before: Bytes)
    requires c <= 'z' as int && IsLetter(c)
    ensures before + UnusedFrom(file, c) ==
            (if Frequency(file, c) == 0 then before + [c] else before) + UnusedFrom(file, c + 1)
  {
    UnfoldUnused(file, c);
    hide UnusedFrom, Frequency, IsLetter;
    var rest := UnusedFrom(file, c + 1);
    assert before + ([c] + rest) == (before + [c]) + rest && before + ([] + rest) == before + rest;
  }

  lemma {:induction false} UnfoldUnused(file: Bytes, c: nat)
    requires c <= 'z' as int && IsLetter(c)
    ensures UnusedFrom(file, c) == (if Frequency(file, c) == 0 then [c] else []) + UnusedFrom(file, c + 1)
  {
  }

  lemma {:induction false} NoneAfterZ(file: Bytes, before: Bytes)
    ensures before + UnusedFrom(file, 'z' as int + 1) == before
  {
  }

  lemma {:induction false} NoLettersBetween(file: Bytes, c: nat)
    requires 'Z' as int < c <= 'a' as int
    ensures UnusedFrom(file, c) == UnusedFrom(file, 'a' as int)
    decreases 'a' as int - c
  {
    if c < 'a' as int {
      NoLettersBetween(file, c + 1);
    }
  }

  /** One more offer takes the next letter, unless none is left. */
  lemma {:induction false} OfferOne(file: Bytes, order: Bytes, b: Byte)
    ensures var n := |Letters(file, order)|;
      if n == |Unused(file)| then
        Letters(file, order + [b]) == Letters(file, order) && Replaced(file, order + [b]) == Replaced(file, order)
      else
        && Letters(file, order + [b]) == Letters(file, order) + [Unused(file)[n]]
        && Replaced(file, order + [b]) == Replaced(file, order) + [b]
  {
    if |order| < |Unused(file)| {
      assert (order + [b])[..|order| + 1] == order[..|order|] + [b];
      assert Unused(file)[..|order| + 1] == Unused(file)[..|order|] + [Unused(file)[|order|]];
    } else {
      assert (order + [b])[..|Unused(file)|] == order[..|Unused(file)|];
    }
  }
}
