/** Whole games of 2048: what holds after any sequence of keys. */
module Play {
  import opened Basics
  import opened Board
  import opened Slide
  import opened Game

  /** The board and the self-modified operand of the random number generator. */
  datatype State = State(board: Cells, seed: Word16)

  ghost predicate HasHole(b: Cells) {
    exists c :: 0 <= c < 16 && b[c] == 0
  }

  ghost predicate FreeWithin(b: Cells, seed: Word16, n: nat) {
    exists j :: 1 <= j <= n && b[Draw(seed, j) % 16] == 0
  }

  lemma {:induction false} HoleIsDrawn(b: Cells, seed: Word16)
    requires HasHole(b)
    ensures FreeWithin(b, seed, 16)
  {
    var c :| 0 <= c < 16 && b[c] == 0;
    var n := DrawsCoverBoard(seed, c);
    assert b[Draw(seed, n) % 16] == 0;
  }

  lemma {:induction false} FreeAfterMiss(b: Cells, seed: Word16, n: nat)
    requires FreeWithin(b, seed, n) && b[Next(seed) % 16] != 0
    ensures n >= 2 && FreeWithin(b, Next(seed), n - 1)
  {
    var j :| 1 <= j <= n && b[Draw(seed, j) % 16] == 0;
    assert Draw(seed, j) == Draw(Next(seed), j - 1);
    assert j >= 2 by {
      assert Draw(Next(seed), 0) == Next(seed);
    }
  }

  /** Draws until the low nibble names an empty cell. */
  function Settle(b: Cells, seed: Word16, n: nat): Word16
    requires FreeWithin(b, seed, n)
    decreases n
  {
    var s := Next(seed);
    if b[s % 16] == 0 then s
    else
      FreeAfterMiss(b, seed, n);
      Settle(b, s, n - 1)
  }

  /** The loop stops at the first draw that names an empty cell. */
  lemma {:induction false} SettleIsFirst(b: Cells, seed: Word16, n: nat) returns (k: nat)
    requires FreeWithin(b, seed, n)
    ensures 1 <= k <= n && Settle(b, seed, n) == Draw(seed, k) && b[Draw(seed, k) % 16] == 0
    ensures forall j :: 1 <= j < k ==> b[Draw(seed, j) % 16] != 0
    decreases n
  {
    var s := Next(seed);
    assert Draw(seed, 1) == Draw(s, 0) == s;
    if b[s % 16] == 0 {
      k := 1;
    } else {
      FreeAfterMiss(b, seed, n);
      var k' := SettleIsFirst(b, s, n - 1);
      k := k' + 1;
      forall j | 1 <= j < k ensures b[Draw(seed, j) % 16] != 0 {
        assert Draw(seed, j) == Draw(s, j - 1);
      }
    }
  }

  /** One tile in ten is a 4. */
  function NewTile(seed: Word16): Byte {
    if seed % 256 % 10 == 0 then 2 else 1
  }

  /** The new tile is a 4 for 26 of the 256 low bytes of the random number, the multiples of ten, and else a 2. */
  lemma {:induction false} NewTileIs(seed: Word16)
    ensures NewTile(seed) == if exists q :: 0 <= q < 26 && seed % 256 == Ten(q) then 2 else 1
    ensures forall p, q :: 0 <= p < q < 26 ==> 0 <= Ten(p) < Ten(q) < 256
  {
    var b := seed % 256;
    if b % 10 == 0 {
      assert b == Ten(b / 10);
    }
  }

  function Ten(q: int): int {
    10 * q
  }

  function Insert(st: State): State
    requires HasHole(st.board)
  {
    HoleIsDrawn(st.board, st.seed);
    var s := Settle(st.board, st.seed, 16);
    State(st.board[s % 16 := NewTile(s)], s)
  }

  lemma {:induction false} InsertAddsTile(st: State)
    requires HasHole(st.board)
    ensures var st' := Insert(st); var c := st'.seed % 16;
      && st.board[c] == 0 && st'.board == st.board[c := NewTile(st'.seed)]
      && Weight(st'.board) == Weight(st.board) + Face(NewTile(st'.seed))
      && (Bounded(st.board) ==> Bounded(st'.board))
  {
    HoleIsDrawn(st.board, st.seed);
    var k := SettleIsFirst(st.board, st.seed, 16);
    var c := Insert(st).seed % 16;
    SumUpdate(st.board, FaceAt(), 16, c, NewTile(Insert(st).seed));
    if Bounded(st.board) {
      NewTileBounded(st.board, c, NewTile(Insert(st).seed));
    }
  }

  predicate Moves(b: Cells, key: Byte) {
    Fired(b, KeyActions(key)) != 0
  }

  /** A changed board has room for the next tile. */
  lemma {:induction false} MovedHasHole(b: Cells, key: Byte)
    requires Moves(b, key)
    ensures HasHole(RunActions(b, KeyActions(key)))
  {
    FiredLeavesHole(b, KeyActions(key));
  }

  lemma {:induction false} EmptyHasHole()
    ensures HasHole(EMPTY)
  {
    assert EMPTY[0] == 0;
  }

  /** A key is ignored unless something moved; otherwise a tile is inserted and the turn ends. */
  function Press(st: State, key: Byte): State {
    if Moves(st.board, key) then
      MovedHasHole(st.board, key);
      Insert(State(RunActions(st.board, KeyActions(key)), st.seed))
    else st
  }

  function Start(): State {
    EmptyHasHole();
    Insert(State(EMPTY, 12345))
  }

  /** The state after a sequence of keys. */
  function After(keys: seq<Byte>): State
    decreases |keys|
  {
    if keys == [] then Start() else Press(After(keys[..|keys| - 1]), keys[|keys| - 1])
  }

  /** A key that leaves the board as it is changes nothing, not even the seed; after any other one tile is new. */
  lemma {:induction false} PressIs(st: State, key: Byte)
    ensures var b := RunActions(st.board, KeyActions(key));
      if b == st.board then Press(st, key) == st
      else
        var st' := Press(st, key);
        var c := st'.seed % 16;
        st'.board == b[c := NewTile(st'.seed)] && b[c] == 0
  {
    MovedIffChanged(st.board, key);
    hide KeyActions, RunActions, Insert, HasHole;
    if Moves(st.board, key) {
      MovedHasHole(st.board, key);
      InsertAddsTile(State(RunActions(st.board, KeyActions(key)), st.seed));
    }
  }

  /** The sum of the tiles inserted so far. */
  function Dealt(keys: seq<Byte>): nat
    decreases |keys|
  {
    if keys == [] then Face(NewTile(Start().seed))
    else
      var before := keys[..|keys| - 1];
      Dealt(before) + if Moves(After(before).board, keys[|keys| - 1]) then Face(NewTile(After(keys).seed)) else 0
  }

  /** The sum of the tiles wiped out so far by keys that are not arrows. */
  function Lost(keys: seq<Byte>): nat
    decreases |keys|
  {
    if keys == [] then 0
    else
      var before := keys[..|keys| - 1];
      Lost(before) + Wiped(After(before).board, keys[|keys| - 1])
  }

  lemma {:induction false} EmptyBoard()
    ensures Weight(EMPTY) == 0 && Bounded(EMPTY)
  {
    SumOfEmpty(FaceAt(), 16);
    forall k | 2 <= k <= 18 ensures Count(EMPTY, k) <= 18 - k {
      SumOfEmpty(AtLeast(k), 16);
    }
  }

  lemma {:induction false} SumOfEmpty(f: (int, Byte) -> int, n: nat)
    requires n <= 16 && forall i :: 0 <= i < 16 ==> f(i, 0) == 0
    ensures Sum(EMPTY, f, n) == 0
  {
    if n > 0 {
      SumOfEmpty(f, n - 1);
    }
  }

  /** After any keys whatever the tile counts are bounded, and what was dealt is on the board or lost. */
  lemma {:induction false} GameInvariant(keys: seq<Byte>)
    ensures Bounded(After(keys).board)
    ensures Weight(After(keys).board) + Lost(keys) == Dealt(keys)
    decreases |keys|
  {
    if keys == [] {
      EmptyBoard();
      EmptyHasHole();
      InsertAddsTile(State(EMPTY, 12345));
    } else {
      var before, key := keys[..|keys| - 1], keys[|keys| - 1];
      var st := After(before);
      GameInvariant(before);
      KeyBalance(st.board, key);
      ActionsBounded(st.board, KeyActions(key));
      MovedIffChanged(st.board, key);
      if Moves(st.board, key) {
        MovedHasHole(st.board, key);
        InsertAddsTile(State(RunActions(st.board, KeyActions(key)), st.seed));
      }
    }
  }

  /** No tile of any game exceeds 2^17, so incrementing an exponent byte never wraps. */
  lemma {:induction false} LargestTile(keys: seq<Byte>, c: nat)
    requires c < 16
    ensures After(keys).board[c] <= 17
  {
    GameInvariant(keys);
    BoundedMax(After(keys).board, c);
  }

  /** The tiles on the board add up to the tiles dealt exactly when no key wiped a tile. */
  lemma {:induction false} ConservedIffNothingLost(keys: seq<Byte>)
    ensures Weight(After(keys).board) == Dealt(keys) <==> Lost(keys) == 0
  {
    GameInvariant(keys);
  }

  /** A key wipes something exactly when it is not an arrow, its scan code is below 80h and one of the
      first four cells is occupied. */
  lemma {:induction false} WipesIff(b: Cells, key: Byte)
    ensures Wiped(b, key) > 0 <==> !Arrow(key) && key < 0x80 && !(b[0] == b[1] == b[2] == b[3] == 0)
  {
    assert FacesBelow(b, 1) == Face(b[0]);
    assert FacesBelow(b, 2) == Face(b[1]) + Face(b[0]);
    assert FacesBelow(b, 3) == Face(b[2]) + Face(b[1]) + Face(b[0]);
  }

  lemma {:induction false} ArrowsLoseNothing(keys: seq<Byte>)
    requires forall i :: 0 <= i < |keys| ==> Arrow(keys[i])
    ensures Lost(keys) == 0
    ensures Weight(After(keys).board) == Dealt(keys)
    decreases |keys|
  {
    if keys != [] {
      ArrowsLoseNothing(keys[..|keys| - 1]);
    }
    ConservedIffNothingLost(keys);
  }

  lemma {:induction false} SecondToFirst()
    ensures Slid([0, 1, 0, 0]) == [1, 0, 0, 0]
  {
    NonzeroFour(0, 1, 0, 0);
    NonzeroOne(1);
    MergeTwo(1, 1);
  }

  lemma {:induction false} FirstTile()
    ensures Start() == State(EMPTY[6 := 1], 41382)
  {
    EmptyHasHole();
    hide FreeWithin, Draw;
    HoleIsDrawn(EMPTY, 12345);
    assert 12345 * 9421 + 1 == 0x1_0000 * 1774 + 41382;
    assert Next(12345) == 41382;
    assert 41382 % 16 == 6 && NewTile(41382) == 1;
  }

  /** A tile in the second row with nothing above it goes to the first row on an up key, and stays there
      when the next tile appears. */
  lemma {:induction false} UpFromSecondRow(st: State)
    requires st.board[2] == 0 && st.board[6] == 1 && st.board[10] == 0 && st.board[14] == 0
    ensures Press(st, UP).board[2] == 1
  {
    UpSlidesSecondRow(st.board);
    MovedIffChanged(st.board, UP);
    hide KeyActions, RunActions, Insert, HasHole;
    MovedHasHole(st.board, UP);
    InsertAddsTile(State(RunActions(st.board, KeyActions(UP)), st.seed));
  }

  lemma {:induction false} UpSlidesSecondRow(b: Cells)
    requires b[2] == 0 && b[6] == 1 && b[10] == 0 && b[14] == 0
    ensures RunActions(b, KeyActions(UP))[2] == 1
  {
    assert Lane(b, UP, 2) == [0, 1, 0, 0];
    var b' := RunActions(b, KeyActions(UP));
    ArrowSlides(b, UP, 2);
    hide KeyActions, RunActions, Slid;
    SecondToFirst();
    assert Lane(b', UP, 2)[0] == b'[2];
  }

  /** The first tile lies in cell 6, so the up key moves it to cell 2. */
  lemma {:induction false} UpFromStart()
    ensures After([UP]).board[2] == 1
  {
    var keys: seq<Byte> := [UP];
    FirstTile();
    UpFromSecondRow(Start());
    hide Press, Start;
    assert keys[..0] == [];
    assert After(keys) == Press(After([]), UP);
  }

  lemma {:induction false} LostAtLast(keys: seq<Byte>)
    requires keys != []
    ensures Lost(keys) >= Wiped(After(keys[..|keys| - 1]).board, keys[|keys| - 1])
  {
  }

  /** Losing a tile takes two keys from the start: up, then escape. */
  lemma {:induction false} EscapeWipesTile()
    ensures Lost([UP, 1]) > 0
  {
    hide After, Wiped, Lost;
    var keys: seq<Byte> := [UP, 1];
    UpFromStart();
    assert keys[..1] == [UP];
    LostAtLast(keys);
    WipesIff(After([UP]).board, 1);
  }
}
