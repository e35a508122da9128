/** One keystroke of 2048 seen from a single row or column: three bubble passes, a merging pass and three
    more bubble passes amount to the rule of the game. */
module Slide {
  import opened Basics

  type Line = s: seq<Byte> | |s| == 4 witness [0, 0, 0, 0]

  // ----- the rule of the game -----

  function Nonzero(s: seq<Byte>): (t: seq<Byte>)
    ensures |t| <= |s| && forall i :: 0 <= i < |t| ==> t[i] != 0
    decreases |s|
  {
    if s == [] then [] else (if s[0] == 0 then [] else [s[0]]) + Nonzero(s[1..])
  }

  /** Merges equal neighbours, each tile at most once, from the leading edge. */
  function Merge(s: seq<Byte>): (t: seq<Byte>)
    ensures |t| <= |s|
    decreases |s|
  {
    if |s| < 2 then s
    else if s[0] == s[1] then [(s[0] as int + 1) % 256] + Merge(s[2..])
    else [s[0]] + Merge(s[1..])
  }

  function Pad(s: seq<Byte>): Line
    requires |s| <= 4
  {
    s + seq(4 - |s|, _ => 0)
  }

  /** Drop the gaps, merge once, drop the gaps again. */
  function Slid(line: Line): Line {
    Pad(Nonzero(Merge(Nonzero(line))))
  }

  // ----- the elementary steps on a line -----

  function Pull(l: Line, k: nat): Line
    requires k < 3
  {
    if l[k] == 0 && l[k + 1] != 0 then l[k := l[k + 1]][k + 1 := 0] else l
  }

  function Join(l: Line, k: nat): Line
    requires k < 3
  {
    if l[k] == l[k + 1] && l[k + 1] != 0 then l[k := (l[k + 1] as int + 1) % 256][k + 1 := 0] else l
  }

  function PullPass(l: Line): Line {
    Pull(Pull(Pull(l, 0), 1), 2)
  }

  function JoinPass(l: Line): Line {
    Join(Join(Join(l, 0), 1), 2)
  }

  function Pulled(l: Line): Line {
    PullPass(PullPass(PullPass(l)))
  }

  function Kept(a: Byte): seq<Byte> {
    if a == 0 then [] else [a]
  }

  lemma {:induction false} NonzeroAppend(s: seq<Byte>, t: seq<Byte>)
    ensures Nonzero(s + t) == Nonzero(s) + Nonzero(t)
    decreases |s|
  {
    if s == [] {
      assert s + t == t;
    } else {
      assert (s + t)[1..] == s[1..] + t;
      NonzeroAppend(s[1..], t);
    }
  }

  lemma {:induction false} NonzeroOne(a: Byte)
    ensures Nonzero([a]) == Kept(a)
  {
    assert [a][1..] == [];
  }

  lemma {:induction false} NonzeroFour(a: Byte, b: Byte, c: Byte, d: Byte)
    ensures Nonzero([a, b, c, d]) == Kept(a) + Kept(b) + Kept(c) + Kept(d)
    ensures Nonzero([a, b, c]) == Kept(a) + Kept(b) + Kept(c)
    ensures Nonzero([a, b]) == Kept(a) + Kept(b)
  {
    assert [a, b, c, d] == [a] + [b] + [c] + [d] && [a, b, c] == [a] + [b] + [c] && [a, b] == [a] + [b];
    NonzeroAppend([a], [b]);
    NonzeroAppend([a] + [b], [c]);
    NonzeroAppend([a] + [b] + [c], [d]);
    NonzeroOne(a);
    NonzeroOne(b);
    NonzeroOne(c);
    NonzeroOne(d);
  }

  /** Three bubble passes close all gaps. */
  lemma {:induction false} PulledCloses(l: Line)
    ensures Pulled(l) == Pad(Nonzero(l))
  {
    assert l == [l[0], l[1], l[2], l[3]];
    NonzeroFour(l[0], l[1], l[2], l[3]);
  }

  function Inc(a: Byte): Byte {
    (a as int + 1) % 256
  }

  lemma {:induction false} MergeTwo(a: Byte, b: Byte)
    ensures Merge([a]) == [a]
    ensures Merge([a, b]) == if a == b then [Inc(a)] else [a, b]
  {
    assert [a, b][2..] == [] && [a, b][1..] == [b];
  }

  lemma {:induction false} MergeThree(a: Byte, b: Byte, c: Byte)
    ensures Merge([a, b, c]) == if a == b then [Inc(a), c] else if b == c then [a, Inc(b)] else [a, b, c]
  {
    MergeTwo(b, c);
    MergeTwo(c, c);
    assert [a, b, c][2..] == [c] && [a, b, c][1..] == [b, c];
  }

  lemma {:induction false} MergeFour(a: Byte, b: Byte, c: Byte, d: Byte)
    ensures Merge([a, b, c, d]) ==
            if a == b then (if c == d then [Inc(a), Inc(c)] else [Inc(a), c, d])
            else if b == c then [a, Inc(b), d]
            else if c == d then [a, b, Inc(c)] else [a, b, c, d]
  {
    MergeTwo(c, d);
    MergeThree(b, c, d);
    assert [a, b, c, d][2..] == [c, d] && [a, b, c, d][1..] == [b, c, d];
  }

  /** On a line without gaps the merging pass does what Merge does and leaves a zero beside each merged
      tile. */
  lemma {:induction false} JoinPassCases(a: Byte, b: Byte, c: Byte, d: Byte)
    requires a != 0 && (b == 0 ==> c == 0) && (c == 0 ==> d == 0)
    ensures JoinPass([a, b, c, d]) ==
            if a == b then (if c == d != 0 then [Inc(a), 0, Inc(c), 0] else [Inc(a), 0, c, d])
            else if b == c != 0 then [a, Inc(b), 0, d]
            else if c == d != 0 then [a, b, Inc(c), 0] else [a, b, c, d]
  {
  }

  lemma {:induction false} JoinPassMerges(s: seq<Byte>)
    requires |s| <= 4 && forall i :: 0 <= i < |s| ==> s[i] != 0
    ensures Nonzero(JoinPass(Pad(s))) == Nonzero(Merge(s))
  {
    hide JoinPass, Merge, Nonzero;
    var p := Pad(s);
    assert p == [p[0], p[1], p[2], p[3]];
    if |s| == 0 {
      assert p == [0, 0, 0, 0] && s == [];
      JoinPassZero();
    } else {
      JoinPassCases(p[0], p[1], p[2], p[3]);
      var j, m := JoinPass(p), Merge(s);
      assert j == [j[0], j[1], j[2], j[3]];
      NonzeroFour(j[0], j[1], j[2], j[3]);
      if |s| == 1 {
        assert s == [p[0]];
        MergeTwo(p[0], p[0]);
        NonzeroOne(p[0]);
      } else if |s| == 2 {
        assert s == [p[0], p[1]];
        MergeTwo(p[0], p[1]);
        NonzeroFour(p[0], p[1], 0, 0);
        NonzeroOne(Inc(p[0]));
      } else if |s| == 3 {
        JoinPassMergesThree(p[0], p[1], p[2]);
        assert s == [p[0], p[1], p[2]];
      } else {
        JoinPassMergesFour(p[0], p[1], p[2], p[3]);
        assert s == [p[0], p[1], p[2], p[3]];
      }
    }
  }

  lemma {:induction false} JoinPassZero()
    ensures Nonzero(JoinPass([0, 0, 0, 0])) == Nonzero(Merge([]))
  {
    assert JoinPass([0, 0, 0, 0]) == [0, 0, 0, 0];
    NonzeroFour(0, 0, 0, 0);
  }

  lemma {:induction false} JoinPassMergesThree(a: Byte, b: Byte, c: Byte)
    requires a != 0 && b != 0 && c != 0
    ensures Nonzero(JoinPass([a, b, c, 0])) == Nonzero(Merge([a, b, c]))
  {
    hide JoinPass, Merge, Nonzero;
    JoinPassCases(a, b, c, 0);
    MergeThree(a, b, c);
    NonzeroFour(Inc(a), 0, c, 0);
    NonzeroFour(a, Inc(b), 0, 0);
    NonzeroFour(a, b, c, 0);
    NonzeroFour(Inc(a), c, 0, 0);
  }

  lemma {:induction false} JoinPassMergesFour(a: Byte, b: Byte, c: Byte, d: Byte)
    requires a != 0 && b != 0 && c != 0 && d != 0
    ensures Nonzero(JoinPass([a, b, c, d])) == Nonzero(Merge([a, b, c, d]))
  {
    hide JoinPass, Merge, Nonzero;
    JoinPassCases(a, b, c, d);
    MergeFour(a, b, c, d);
    if a == b {
      NonzeroFour(Inc(a), 0, c, d);
      NonzeroFour(Inc(a), 0, Inc(c), 0);
      NonzeroFour(Inc(a), c, d, 0);
      NonzeroFour(Inc(a), Inc(c), 0, 0);
    } else {
      NonzeroFour(a, Inc(b), 0, d);
      NonzeroFour(a, Inc(b), d, 0);
      NonzeroFour(a, b, Inc(c), 0);
      NonzeroFour(a, b, c, d);
    }
  }

  /** Bubble, merge, bubble is the rule of the game, for all bytes. */
  lemma {:induction false} PassesSlide(l: Line)
    ensures Pulled(JoinPass(Pulled(l))) == Slid(l)
  {
    PulledCloses(l);
    JoinPassMerges(Nonzero(l));
    PulledCloses(JoinPass(Pad(Nonzero(l))));
  }
}
