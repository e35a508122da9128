/** 2048: keystrokes, tile insertion and whole games. */
module Game {
  import opened Basics
  import opened Board
  import opened Slide

  type Word16 = w: int | 0 <= w < 0x1_0000

  // ----- keys -----

  const LEFT: Byte := 0x4B
  const RIGHT: Byte := 0x4D
  const DOWN: Byte := 0x50
  const UP: Byte := 0x48

  predicate Arrow(key: Byte) {
    key == LEFT || key == RIGHT || key == DOWN || key == UP
  }

  /** Where the I-th row or column begins, si, and the step along it, di. Other keys leave si at I and
      di at 0. */
  function Origin(key: Byte, i: nat): nat {
    if key == LEFT then 4 * i
    else if key == RIGHT then 4 * i + 3
    else if key == DOWN then i + 12
    else i
  }

  function Step(key: Byte): int {
    if key == LEFT then 1
    else if key == RIGHT then -1
    else if key == DOWN then -4
    else if key == UP then 4
    else 0
  }

  // ----- one row or column -----

  predicate InBox(x: int, d: int) {
    && 0 <= x < 16 && 0 <= x + d < 16 && 0 <= x + 2 * d < 16 && 0 <= x + 3 * d < 16
  }

  function Pass(x: int, d: int, merge: bool): Actions
    requires InBox(x, d)
  {
    [Action(x, x + d, merge), Action(x + d, x + 2 * d, merge), Action(x + 2 * d, x + 3 * d, merge)]
  }

  function Passes(x: int, d: int, n: nat): Actions
    requires InBox(x, d)
  {
    if n == 0 then [] else Passes(x, d, n - 1) + Pass(x, d, false)
  }

  /** All calls of the common code for one row or column; `merging` tells whether dx starts at zero. */
  function LineActions(x: int, d: int, merging: bool): Actions
    requires InBox(x, d)
  {
    Passes(x, d, 3) + if merging then Pass(x, d, true) + Passes(x, d, 3) else []
  }

  function LineAt(b: Cells, x: int, d: int): Line
    requires InBox(x, d)
  {
    [b[x], b[x + d], b[x + 2 * d], b[x + 3 * d]]
  }

  function CellAt(x: int, d: int, k: nat): int {
    if k == 0 then x else if k == 1 then x + d else if k == 2 then x + 2 * d else x + 3 * d
  }

  predicate OnLine(c: int, x: int, d: int) {
    c == x || c == x + d || c == x + 2 * d || c == x + 3 * d
  }

  ghost predicate OthersKept(b: Cells, b': Cells, x: int, d: int) {
    forall c :: 0 <= c < 16 && !OnLine(c, x, d) ==> b'[c] == b[c]
  }

  lemma {:induction false} ThreeActions(b: Cells, p: Action, q: Action, r: Action)
    requires OnBoard(p) && OnBoard(q) && OnBoard(r)
    ensures RunActions(b, [p, q, r]) == Act(Act(Act(b, p), q), r)
  {
    assert [p, q, r][1..] == [q, r] && [q, r][1..] == [r] && [r][1..] == [];
    assert RunActions(Act(Act(b, p), q), [r]) == Act(Act(Act(b, p), q), r);
    assert RunActions(Act(b, p), [q, r]) == RunActions(Act(Act(b, p), q), [r]);
  }

  lemma {:induction false} ActOnLine(b: Cells, x: int, d: int, k: nat, merge: bool)
    requires InBox(x, d) && d != 0 && k < 3
    ensures var b' := Act(b, Action(CellAt(x, d, k), CellAt(x, d, k + 1), merge));
      LineAt(b', x, d) == (if merge then Join(LineAt(b, x, d), k) else Pull(LineAt(b, x, d), k)) && OthersKept(b, b', x, d)
  {
  }

  lemma {:induction false} PassOnLine(b: Cells, x: int, d: int, merge: bool)
    requires InBox(x, d) && d != 0
    ensures var b' := RunActions(b, Pass(x, d, merge));
      LineAt(b', x, d) == (if merge then JoinPass(LineAt(b, x, d)) else PullPass(LineAt(b, x, d))) && OthersKept(b, b', x, d)
  {
    hide Pull, Join, Act;
    var p, q, r := Action(x, x + d, merge), Action(x + d, x + 2 * d, merge), Action(x + 2 * d, x + 3 * d, merge);
    ThreeActions(b, p, q, r);
    ActOnLine(b, x, d, 0, merge);
    ActOnLine(Act(b, p), x, d, 1, merge);
    ActOnLine(Act(Act(b, p), q), x, d, 2, merge);
  }

  lemma {:induction false} PassesOnLine(b: Cells, x: int, d: int)
    requires InBox(x, d) && d != 0
    ensures var b' := RunActions(b, Passes(x, d, 3));
      LineAt(b', x, d) == Pulled(LineAt(b, x, d)) && OthersKept(b, b', x, d)
  {
    var pass := Pass(x, d, false);
    assert Passes(x, d, 1) == [] + pass;
    assert Passes(x, d, 2) == Passes(x, d, 1) + pass;
    RunActionsAppend(b, [], pass);
    RunActionsAppend(b, Passes(x, d, 1), pass);
    RunActionsAppend(b, Passes(x, d, 2), pass);
    PassOnLine(b, x, d, false);
    PassOnLine(RunActions(b, Passes(x, d, 1)), x, d, false);
    PassOnLine(RunActions(b, Passes(x, d, 2)), x, d, false);
  }

  /** The 21 calls of the common code play one row or column by the rules and touch no other cell. */
  lemma {:induction false} LineActionsSlide(b: Cells, x: int, d: int)
    requires InBox(x, d) && d != 0
    ensures var b' := RunActions(b, LineActions(x, d, true));
      LineAt(b', x, d) == Slid(LineAt(b, x, d)) && OthersKept(b, b', x, d)
  {
    var first, join := Passes(x, d, 3), Pass(x, d, true);
    RunActionsAppend(b, first, join + first);
    var b1 := RunActions(b, first);
    RunActionsAppend(b1, join, first);
    var b2 := RunActions(b1, join);
    PassesOnLine(b, x, d);
    PassOnLine(b1, x, d, true);
    PassesOnLine(b2, x, d);
    PassesSlide(LineAt(b, x, d));
  }

  // ----- a whole keystroke -----

  lemma {:induction false} LinesInBox(key: Byte, i: nat)
    requires i < 4
    ensures InBox(Origin(key, i), Step(key))
  {
  }

  /** The calls for rows or columns i - 1 down to 0. Scan codes from 80h on start with dx at FFFFh. */
  function KeyActionsBelow(key: Byte, i: nat): Actions
    requires i <= 4
  {
    if i == 0 then []
    else
      LinesInBox(key, i - 1);
      LineActions(Origin(key, i - 1), Step(key), key < 0x80) + KeyActionsBelow(key, i - 1)
  }

  function KeyActions(key: Byte): Actions {
    KeyActionsBelow(key, 4)
  }

  function Lane(b: Cells, key: Byte, i: nat): Line
    requires i < 4
  {
    LinesInBox(key, i);
    LineAt(b, Origin(key, i), Step(key))
  }

  lemma {:induction false} OtherLaneKept(b: Cells, b': Cells, key: Byte, i: nat, j: nat)
    requires Arrow(key) && i < 4 && j < 4 && i != j
    requires OthersKept(b, b', Origin(key, i), Step(key))
    ensures Lane(b', key, j) == Lane(b, key, j)
  {
    var x, d := Origin(key, j), Step(key);
    LinesInBox(key, j);
    assert !OnLine(x, Origin(key, i), d) && !OnLine(x + d, Origin(key, i), d);
    assert !OnLine(x + 2 * d, Origin(key, i), d) && !OnLine(x + 3 * d, Origin(key, i), d);
  }

  lemma {:induction false} LanesSlide(b: Cells, key: Byte, n: nat)
    requires Arrow(key) && n <= 4
    ensures forall i :: 0 <= i < n ==> Lane(RunActions(b, KeyActionsBelow(key, n)), key, i) == Slid(Lane(b, key, i))
    ensures forall i :: n <= i < 4 ==> Lane(RunActions(b, KeyActionsBelow(key, n)), key, i) == Lane(b, key, i)
    decreases n
  {
    hide LineAt, LineActions, Slid, OthersKept, Act;
    if n > 0 {
      LinesInBox(key, n - 1);
      var x, d := Origin(key, n - 1), Step(key);
      var line := LineActions(x, d, true);
      var b1 := RunActions(b, line);
      RunActionsAppend(b, line, KeyActionsBelow(key, n - 1));
      LineActionsSlide(b, x, d);
      LanesSlide(b1, key, n - 1);
      forall i | 0 <= i < 4 && i != n - 1 ensures Lane(b1, key, i) == Lane(b, key, i) {
        OtherLaneKept(b, b1, key, n - 1, i);
      }
    }
  }

  /** An arrow key slides the four rows or columns of its direction independently. */
  lemma {:induction false} ArrowSlides(b: Cells, key: Byte, i: nat)
    requires Arrow(key) && i < 4
    ensures Lane(RunActions(b, KeyActions(key)), key, i) == Slid(Lane(b, key, i))
  {
    LanesSlide(b, key, 4);
  }

  /** The four lanes of a direction make up the whole board. */
  lemma {:induction false} LanesDetermine(b: Cells, b': Cells, key: Byte)
    requires Arrow(key) && forall i :: 0 <= i < 4 ==> Lane(b, key, i) == Lane(b', key, i)
    ensures b == b'
  {
    assert Lane(b, key, 0) == Lane(b', key, 0) && Lane(b, key, 1) == Lane(b', key, 1);
    assert Lane(b, key, 2) == Lane(b', key, 2) && Lane(b, key, 3) == Lane(b', key, 3);
    forall c | 0 <= c < 16 ensures b[c] == b'[c] {
      var i, k := CellIndex(key, c);
      assert Lane(b, key, i)[k] == b[c] && Lane(b', key, i)[k] == b'[c];
    }
  }

  lemma {:induction false} CellIndex(key: Byte, c: nat) returns (i: nat, k: nat)
    requires Arrow(key) && c < 16
    ensures i < 4 && k < 4 && CellAt(Origin(key, i), Step(key), k) == c
  {
    if key == LEFT {
      i, k := c / 4, c % 4;
    } else if key == RIGHT {
      i, k := c / 4, 3 - c % 4;
    } else if key == UP {
      i, k := c % 4, c / 4;
    } else {
      i, k := c % 4, 3 - c / 4;
    }
  }

  /** Row i of the board, from the left, and column i, from the top. */
  function RowOf(b: Cells, i: nat): Line
    requires i < 4
  {
    [b[4 * i], b[4 * i + 1], b[4 * i + 2], b[4 * i + 3]]
  }

  function ColumnOf(b: Cells, i: nat): Line
    requires i < 4
  {
    [b[i], b[i + 4], b[i + 8], b[i + 12]]
  }

  function Reversed(l: Line): Line {
    [l[3], l[2], l[1], l[0]]
  }

  /** Which way the keys go, by scan code: 4Bh slides every row to the left, 4Dh to the right, 48h every column up
      and 50h down. */
  lemma {:induction false} KeysSlide(b: Cells, i: nat)
    requires i < 4
    ensures RowOf(RunActions(b, KeyActions(0x4B)), i) == Slid(RowOf(b, i))
    ensures Reversed(RowOf(RunActions(b, KeyActions(0x4D)), i)) == Slid(Reversed(RowOf(b, i)))
    ensures ColumnOf(RunActions(b, KeyActions(0x48)), i) == Slid(ColumnOf(b, i))
    ensures Reversed(ColumnOf(RunActions(b, KeyActions(0x50)), i)) == Slid(Reversed(ColumnOf(b, i)))
  {
    hide KeyActions, RunActions, Slid;
    LanesByCode(b, i);
    ArrowSlides(b, 0x4B, i);
    ArrowSlides(b, 0x4D, i);
    ArrowSlides(b, 0x48, i);
    ArrowSlides(b, 0x50, i);
    LanesByCode(RunActions(b, KeyActions(0x4B)), i);
    LanesByCode(RunActions(b, KeyActions(0x4D)), i);
    LanesByCode(RunActions(b, KeyActions(0x48)), i);
    LanesByCode(RunActions(b, KeyActions(0x50)), i);
  }

  lemma {:induction false} LanesByCode(b: Cells, i: nat)
    requires i < 4
    ensures Lane(b, 0x4B, i) == RowOf(b, i) && Lane(b, 0x4D, i) == Reversed(RowOf(b, i))
    ensures Lane(b, 0x48, i) == ColumnOf(b, i) && Lane(b, 0x50, i) == Reversed(ColumnOf(b, i))
  {
  }

  // ----- direction of travel -----

  /** The place of cell c in its lane, counted from the leading edge. */
  function RankOf(key: Byte, c: nat): (k: nat)
    requires c < 16
    ensures k > 0
  {
    if key == LEFT then c % 4 + 1
    else if key == RIGHT then 4 - c % 4
    else if key == UP then c / 4 + 1
    else if key == DOWN then 4 - c / 4
    else 1
  }

  function Rank(key: Byte): Ranks {
    seq(16, c requires 0 <= c < 16 => RankOf(key, c))
  }

  /** Every action moves downhill, and only keys other than arrows make a cell its own neighbour. */
  ghost predicate Travels(acts: Actions, key: Byte) {
    forall i :: 0 <= i < |acts| ==>
      if Arrow(key) then Rank(key)[acts[i].x] < Rank(key)[acts[i].y] else acts[i].x == acts[i].y
  }

  lemma {:induction false} TravelsAppend(p: Actions, q: Actions, key: Byte)
    requires Travels(p, key) && Travels(q, key)
    ensures Travels(p + q, key)
  {
  }

  lemma {:induction false} PassTravels(key: Byte, i: nat, merge: bool)
    requires i < 4
    ensures InBox(Origin(key, i), Step(key)) && Travels(Pass(Origin(key, i), Step(key), merge), key)
  {
    LinesInBox(key, i);
    var x, d := Origin(key, i), Step(key);
    if Arrow(key) {
      RankAlongLane(key, i);
      assert RankOf(key, CellAt(x, d, 0)) == 1 && RankOf(key, CellAt(x, d, 1)) == 2;
      assert RankOf(key, CellAt(x, d, 2)) == 3 && RankOf(key, CellAt(x, d, 3)) == 4;
      hide RankOf, Origin, Step, Arrow;
    } else {
      assert d == 0;
      hide RankOf, Origin, Step, Arrow;
    }
  }

  lemma {:induction false} RankAlongLane(key: Byte, i: nat)
    requires i < 4 && Arrow(key)
    ensures InBox(Origin(key, i), Step(key))
    ensures forall k :: 0 <= k < 4 ==> RankOf(key, CellAt(Origin(key, i), Step(key), k)) == k + 1
  {
  }

  lemma {:induction false} PassesTravel(x: int, d: int, key: Byte, n: nat)
    requires InBox(x, d) && Travels(Pass(x, d, false), key)
    ensures Travels(Passes(x, d, n), key) && |Passes(x, d, n)| == 3 * n
  {
    if n > 0 {
      PassesTravel(x, d, key, n - 1);
      TravelsAppend(Passes(x, d, n - 1), Pass(x, d, false), key);
    }
  }

  lemma {:induction false} KeyTravels(key: Byte, n: nat)
    requires n <= 4
    ensures Travels(KeyActionsBelow(key, n), key) && |KeyActionsBelow(key, n)| <= 21 * n
  {
    if n > 0 {
      LinesInBox(key, n - 1);
      hide Rank, Origin, Step, InBox, Pass;
      var x, d := Origin(key, n - 1), Step(key);
      PassTravels(key, n - 1, false);
      PassTravels(key, n - 1, true);
      PassesTravel(x, d, key, 3);
      TravelsAppend(Pass(x, d, true), Passes(x, d, 3), key);
      TravelsAppend(Passes(x, d, 3), Pass(x, d, true) + Passes(x, d, 3), key);
      KeyTravels(key, n - 1);
      TravelsAppend(LineActions(x, d, key < 0x80), KeyActionsBelow(key, n - 1), key);
    }
  }

  /** bp counts at most 84 firings, so it does not wrap, and it is nonzero exactly when the key changed
      the board. */
  lemma {:induction false} MovedIffChanged(b: Cells, key: Byte)
    ensures Fired(b, KeyActions(key)) <= 84
    ensures Fired(b, KeyActions(key)) != 0 <==> RunActions(b, KeyActions(key)) != b
  {
    KeyTravels(key, 4);
    FiredAtMost(b, KeyActions(key));
    FiredIffChanged(b, KeyActions(key), Rank(key));
  }

  /** An arrow key conserves the weight of a bounded board. */
  lemma {:induction false} ArrowConserves(b: Cells, key: Byte)
    requires Arrow(key) && Bounded(b)
    ensures Weight(RunActions(b, KeyActions(key))) == Weight(b)
  {
    KeyTravels(key, 4);
    ActionsConserve(b, KeyActions(key));
  }

  // ----- keys that are not arrows -----

  function Cleared(b: Cells): Cells {
    ClearedBelow(b, 4)
  }

  /** With a step of zero the bubble passes do nothing and the merging pass empties its one cell. */
  lemma {:induction false} StillLine(b: Cells, x: nat, merging: bool)
    requires x < 4
    ensures RunActions(b, LineActions(x, 0, merging)) == if merging then b[x := 0] else b
  {
    hide Act, RunActions, Passes;
    StillPasses(b, x, 3);
    var first := Passes(x, 0, 3);
    if merging {
      var b1 := RunActions(b, Pass(x, 0, true));
      StillJoin(b, x);
      RunActionsAppend(b, first, Pass(x, 0, true) + first);
      RunActionsAppend(b, Pass(x, 0, true), first);
      StillPasses(b1, x, 3);
    } else {
      assert first + [] == first;
    }
  }

  lemma {:induction false} StillJoin(b: Cells, x: nat)
    requires x < 4
    ensures RunActions(b, Pass(x, 0, true)) == b[x := 0]
  {
    var a := Action(x, x, true);
    ThreeActions(b, a, a, a);
    hide RunActions;
    assert Act(b, a) == b[x := 0] && Act(b[x := 0], a) == b[x := 0];
  }

  lemma {:induction false} StillPasses(b: Cells, x: nat, n: nat)
    requires x < 4
    ensures RunActions(b, Passes(x, 0, n)) == b
    decreases n
  {
    if n > 0 {
      hide RunActions;
      StillPasses(b, x, n - 1);
      var a := Action(x, x, false);
      RunActionsAppend(b, Passes(x, 0, n - 1), Pass(x, 0, false));
      ThreeActions(b, a, a, a);
    }
  }

  /** A key that is not an arrow wipes the first four cells, unless its scan code is 80h or more. */
  lemma {:induction false} OtherKeyClears(b: Cells, key: Byte)
    requires !Arrow(key)
    ensures RunActions(b, KeyActions(key)) == if key < 0x80 then Cleared(b) else b
  {
    hide LineActions, Act;
    StillLanes(b, key, 4);
  }

  function ClearedBelow(b: Cells, n: nat): Cells
    requires n <= 4
    decreases n
  {
    if n == 0 then b else ClearedBelow(b[n - 1 := 0], n - 1)
  }

  lemma {:induction false} StillLanes(b: Cells, key: Byte, n: nat)
    requires !Arrow(key) && n <= 4
    ensures RunActions(b, KeyActionsBelow(key, n)) == if key < 0x80 then ClearedBelow(b, n) else b
    decreases n
  {
    hide LineActions, Act;
    if n > 0 {
      var line := LineActions(n - 1, 0, key < 0x80);
      StillLine(b, n - 1, key < 0x80);
      RunActionsAppend(b, line, KeyActionsBelow(key, n - 1));
      StillLanes(RunActions(b, line), key, n - 1);
    }
  }

  function FacesBelow(b: Cells, n: nat): nat
    requires n <= 4
  {
    if n == 0 then 0 else Face(b[n - 1]) + FacesBelow(b, n - 1)
  }

  /** The weight a key destroys. */
  function Wiped(b: Cells, key: Byte): nat {
    if Arrow(key) || key >= 0x80 then 0 else FacesBelow(b, 4)
  }

  lemma {:induction false} ClearedWeight(b: Cells, n: nat)
    requires n <= 4
    ensures Weight(ClearedBelow(b, n)) + FacesBelow(b, n) == Weight(b)
    decreases n
  {
    if n > 0 {
      SumUpdate(b, FaceAt(), 16, n - 1, 0);
      SameFacesBelow(b, b[n - 1 := 0], n - 1);
      ClearedWeight(b[n - 1 := 0], n - 1);
    }
  }

  lemma {:induction false} SameFacesBelow(b: Cells, b': Cells, n: nat)
    requires n <= 4 && forall i :: 0 <= i < n ==> b[i] == b'[i]
    ensures FacesBelow(b, n) == FacesBelow(b', n)
    decreases n
  {
    if n > 0 {
      SameFacesBelow(b, b', n - 1);
    }
  }

  /** The exact balance of any key on a bounded board. */
  lemma {:induction false} KeyBalance(b: Cells, key: Byte)
    requires Bounded(b)
    ensures Weight(RunActions(b, KeyActions(key))) + Wiped(b, key) == Weight(b)
  {
    if Arrow(key) {
      ArrowConserves(b, key);
    } else {
      OtherKeyClears(b, key);
      ClearedWeight(b, 4);
    }
  }

  // ----- random numbers and new tiles -----

  function Next(seed: Word16): Word16 {
    (seed * 9421 + 1) % 0x1_0000
  }

  function Draw(seed: Word16, n: nat): Word16
    decreases n
  {
    if n == 0 then seed else Draw(Next(seed), n - 1)
  }

  /** Where each low nibble stands on the generator's one cycle of sixteen. */
  const PLACE: seq<nat> := [0, 1, 14, 7, 12, 13, 10, 3, 8, 9, 6, 15, 4, 5, 2, 11]

  lemma {:induction false} Mod16(k: int, c: int)
    ensures (16 * k + c) % 16 == c % 16
  {
  }

  lemma {:induction false} NextNibble(seed: Word16)
    ensures Next(seed) % 16 == (seed % 16 * 13 + 1) % 16
  {
    var y, q, r := seed * 9421 + 1, seed / 16, seed % 16;
    var p := y / 0x1_0000;
    assert y == 16 * (9421 * q + 588 * r) + (13 * r + 1);
    assert y == 16 * (4096 * p) + Next(seed);
    Mod16(9421 * q + 588 * r, 13 * r + 1);
    Mod16(4096 * p, Next(seed));
  }

  lemma {:induction false} NextPlace(seed: Word16)
    ensures PLACE[Next(seed) % 16] == (PLACE[seed % 16] + 1) % 16
  {
    NextNibble(seed);
    NibbleStep(seed % 16);
  }

  lemma {:induction false} NibbleStep(r: nat)
    requires r < 16
    ensures PLACE[(r * 13 + 1) % 16] == (PLACE[r] + 1) % 16
  {
    var next := [1, 14, 11, 8, 5, 2, 15, 12, 9, 6, 3, 0, 13, 10, 7, 4];
    assert (r * 13 + 1) % 16 == next[r];
    assert PLACE[next[r]] == (PLACE[r] + 1) % 16;
  }

  lemma {:induction false} ModSuccessor(a: int, k: int)
    ensures ((a + 1) % 16 + k) % 16 == (a + 1 + k) % 16
  {
    var q, r := (a + 1) / 16, (a + 1) % 16;
    assert a + 1 + k == 16 * q + (r + k);
    Mod16(q, r + k);
  }

  lemma {:induction false} DrawPlace(seed: Word16, n: nat)
    ensures PLACE[Draw(seed, n) % 16] == (PLACE[seed % 16] + n) % 16
    decreases n
  {
    var from: nat := PLACE[seed % 16];
    if n > 0 {
      NextPlace(seed);
      DrawPlace(Next(seed), n - 1);
      ModSuccessor(from, n - 1);
    } else {
      assert from < 16;
    }
  }

  /** Any sixteen consecutive draws visit every location. */
  lemma {:induction false} DrawsCoverBoard(seed: Word16, c: nat) returns (n: nat)
    requires c < 16
    ensures 1 <= n <= 16 && Draw(seed, n) % 16 == c
  {
    var from: int, to: int := PLACE[seed % 16], PLACE[c];
    n := (to - from - 1) % 16 + 1;
    assert PLACE[c] < 16 && (from + n) % 16 == to;
    DrawPlace(seed, n);
    PlaceInjective(Draw(seed, n) % 16, c);
  }

  lemma {:induction false} PlaceInjective(c: nat, c': nat)
    requires c < 16 && c' < 16 && PLACE[c] == PLACE[c']
    ensures c == c'
  {
  }
}
