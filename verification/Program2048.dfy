/** The program itself: a sixteen-byte box changed in place, the moved counter bp, and the random number
    generator's self-modified operand. */
module Program2048 {
  import opened Basics
  import opened Board
  import opened Game
  import opened Play
  import X86

  lemma {:induction false} NoActions(b: Cells)
    ensures RunActions(b, []) == b && Fired(b, []) == 0
  {
  }

  /** A keystroke on lanes n down to 0 is lane n followed by the rest. */
  lemma {:induction false} LaneThenRest(b: Cells, key: Byte, n: nat)
    requires n < 4
    ensures InBox(Origin(key, n), Step(key))
    ensures var line := LineActions(Origin(key, n), Step(key), key < 0x80);
      && RunActions(b, KeyActionsBelow(key, n + 1)) == RunActions(RunActions(b, line), KeyActionsBelow(key, n))
      && Fired(b, KeyActionsBelow(key, n + 1)) == Fired(b, line) + Fired(RunActions(b, line), KeyActionsBelow(key, n))
  {
    LinesInBox(key, n);
    RunActionsAppend(b, LineActions(Origin(key, n), Step(key), key < 0x80), KeyActionsBelow(key, n));
  }

  lemma {:induction false} NoLanes(b: Cells, key: Byte)
    ensures RunActions(b, KeyActionsBelow(key, 0)) == b && Fired(b, KeyActionsBelow(key, 0)) == 0
  {
  }

  /** The rounds of one row or column. */
  lemma {:induction false} LineInPhases(b: Cells, x: int, d: int, merging: bool)
    requires InBox(x, d)
    ensures var shift, join := Passes(x, d, 3), Pass(x, d, true);
      var b1 := RunActions(b, shift);
      var b2 := RunActions(b1, join);
      && RunActions(b, LineActions(x, d, merging)) == (if merging then RunActions(b2, shift) else b1)
      && Fired(b, LineActions(x, d, merging)) ==
         Fired(b, shift) + if merging then Fired(b1, join) + Fired(b2, shift) else 0
  {
    hide RunActions, Fired, Passes, Pass;
    var shift, join := Passes(x, d, 3), Pass(x, d, true);
    if merging {
      RunActionsAppend(b, shift, join + shift);
      RunActionsAppend(RunActions(b, shift), join, shift);
    } else {
      assert shift + [] == shift;
    }
  }

  lemma {:induction false} AfterNext(keys: seq<Byte>, i: nat)
    requires i < |keys|
    ensures After(keys[..i + 1]) == Press(After(keys[..i]), keys[i])
  {
    assert keys[..i + 1][..i] == keys[..i];
  }

  class Program {
    const box: array<Byte>
    var bp: Word16
    var seed: Word16

    ghost predicate Valid() {
      box.Length == 16
    }

    ghost function Abstract(): State
      requires Valid()
      reads this, box
    {
      State(box[..], seed)
    }

    /** Start-up: `rep stosb` empties the box. */
    constructor ()
      ensures Valid() && fresh(box)
      ensures Abstract() == State(EMPTY, 12345)
    {
      box := new Byte[16];
      bp, seed := 0, 12345;
      new;
      var di := 0;
      var cx := 16;
      while cx != 0
        invariant di + cx == 16 && di >= 0 && cx >= 0 && seed == 12345
        invariant forall i :: 0 <= i < di ==> box[i] == 0
      {
        box[di] := 0;
        di, cx := di + 1, cx - 1;
      }
      assert box[..] == EMPTY;
    }

    /** The common code at label st100. */
    method Common(x: nat, y: nat, ghost merge: bool, ah: Byte, dh: Byte)
      requires Valid() && x < 16 && y < 16 && bp < 0xFFFF
      requires ah == (if merge then box[y] else 0) && dh == (if merge then 1 else 0)
      modifies this`bp, box
      ensures box[..] == Act(old(box[..]), Action(x, y, merge))
      ensures bp == old(bp) + if Fires(old(box[..]), Action(x, y, merge)) then 1 else 0
    {
      if ah == box[x] && box[y] != 0 {
        var sum := (dh as int + box[y] as int) % 256;
        box[x] := sum;
        box[y] := 0;
        bp := bp + 1;
      }
    }

    /** One sweep of three neighbouring pairs along a row or column. */
    method Sweep(si: nat, di: int, merge: bool)
      requires Valid() && InBox(si, di) && bp <= 0xFFFF - 3
      modifies this`bp, box
      ensures box[..] == RunActions(old(box[..]), Pass(si, di, merge))
      ensures bp == old(bp) + Fired(old(box[..]), Pass(si, di, merge)) <= old(bp) + 3
    {
      hide Act, Fires;
      var bx := si as int;
      var n := 3;
      ghost var all := Pass(si, di, merge);
      assert all[..0] == [];
      while n != 0
        invariant 0 <= n <= 3 && bx == CellAt(si, di, 3 - n)
        invariant box[..] == RunActions(old(box[..]), all[..3 - n])
        invariant bp == old(bp) + Fired(old(box[..]), all[..3 - n]) <= old(bp) + (3 - n)
      {
        ghost var now := box[..];
        ghost var a := Action(bx, bx + di, merge);
        assert a == all[3 - n];
        assert all[..4 - n] == all[..3 - n] + [a];
        RunActionsAppend(old(box[..]), all[..3 - n], [a]);
        assert [a][1..] == [];
        Common(bx, bx + di, merge, if merge then box[bx + di] else 0, if merge then 1 else 0);
        bx := bx + di;
        n := n - 1;
      }
      assert all[..3] == all;
    }

    /** Three sweeps that only close gaps. */
    method CloseGaps(si: nat, di: int)
      requires Valid() && InBox(si, di) && bp <= 0xFFFF - 9
      modifies this`bp, box
      ensures box[..] == RunActions(old(box[..]), Passes(si, di, 3))
      ensures bp == old(bp) + Fired(old(box[..]), Passes(si, di, 3)) <= old(bp) + 9
    {
      hide RunActions, Fired, Pass;
      NoActions(box[..]);
      var m := 3;
      while m != 0
        invariant 0 <= m <= 3
        invariant box[..] == RunActions(old(box[..]), Passes(si, di, 3 - m))
        invariant bp == old(bp) + Fired(old(box[..]), Passes(si, di, 3 - m)) <= old(bp) + 3 * (3 - m)
      {
        RunActionsAppend(old(box[..]), Passes(si, di, 3 - m), Pass(si, di, false));
        Sweep(si, di, false);
        m := m - 1;
      }
    }

    /** MoveTiles: dl starts at the sign of the scan code and counts down once per round; the loop ends
        when its parity turns odd. */
    method MoveTiles(si: nat, di: int, key: Byte)
      requires Valid() && InBox(si, di) && bp <= 0xFFFF - 21
      modifies this`bp, box
      ensures box[..] == RunActions(old(box[..]), LineActions(si, di, key < 0x80))
      ensures bp == old(bp) + Fired(old(box[..]), LineActions(si, di, key < 0x80)) <= old(bp) + 21
    {
      hide RunActions, Fired, Passes, Pass, LineActions;
      ghost var merging := key < 0x80;
      ghost var b0, shift, join := box[..], Passes(si, di, 3), Pass(si, di, true);
      ghost var b1 := RunActions(b0, shift);
      ghost var b2 := RunActions(b1, join);
      ghost var f1, f2, f3 := Fired(b0, shift), Fired(b1, join), Fired(b2, shift);
      LineInPhases(b0, si, di, merging);
      assert X86.EvenParity(0xFF) && !X86.EvenParity(0xFE);
      assert (0 - 1) % 256 == 0xFF && (0xFF - 1) % 256 == 0xFE;
      hide X86.EvenParity;
      var dl: Byte := if key < 0x80 then 0 else 0xFF;
      while true
        invariant if dl == 0 then merging && box[..] == b0 && bp == old(bp)
                  else dl == 0xFF && if merging then box[..] == b2 && bp == old(bp) + f1 + f2 <= old(bp) + 12
                                     else box[..] == b0 && bp == old(bp)
        decreases if dl == 0 then 1 else 0
      {
        CloseGaps(si, di);
        dl := (dl as int - 1) % 256;
        if !X86.EvenParity(dl) {
          break;
        }
        Sweep(si, di, true);
      }
    }

    /** Aims at row or column cx and moves its tiles. */
    method MoveLane(cx: nat, key: Byte, ghost line: Actions)
      requires Valid() && cx < 4 && bp <= 0xFFFF - 21
      requires InBox(Origin(key, cx), Step(key)) && line == LineActions(Origin(key, cx), Step(key), key < 0x80)
      modifies this`bp, box
      ensures box[..] == RunActions(old(box[..]), line)
      ensures bp == old(bp) + Fired(old(box[..]), line) <= old(bp) + 21
    {
      var si, di := cx, 0;
      if key == LEFT {
        si, di := 4 * si, di + 1;
      }
      if key == RIGHT {
        si, di := 4 * si + 3, di - 1;
      }
      if key == DOWN {
        si, di := si + 12, -4;
      }
      if key == UP {
        di := 4;
      }
      LinesInBox(key, cx);
      MoveTiles(si, di, key);
    }

    /** One keystroke: rows or columns 3 down to 0. */
    method Keystroke(key: Byte)
      requires Valid() && bp == 0
      modifies this`bp, box
      ensures box[..] == RunActions(old(box[..]), KeyActions(key))
      ensures bp == Fired(old(box[..]), KeyActions(key))
    {
      ghost var start := box[..];
      MovedIffChanged(start, key);
      hide RunActions, Fired, LineActions, KeyActionsBelow, Origin, Step, InBox;
      for cx := 4 downto 0
        invariant RunActions(box[..], KeyActionsBelow(key, cx)) == RunActions(start, KeyActions(key))
        invariant bp + Fired(box[..], KeyActionsBelow(key, cx)) == Fired(start, KeyActions(key))
      {
        LaneThenRest(box[..], key, cx);
        MoveLane(cx, key, LineActions(Origin(key, cx), Step(key), key < 0x80));
      }
      NoLanes(box[..], key);
    }

    /** The insertion loop at label tl00. */
    method InsertTile()
      requires Valid() && HasHole(box[..])
      modifies this`seed, box
      ensures Abstract() == Insert(old(Abstract()))
    {
      HoleIsDrawn(box[..], seed);
      ghost var tries := 16;
      ghost var goal := Settle(box[..], seed, 16);
      var bx := 0;
      while true
        invariant tries >= 0 && box[..] == old(box[..])
        invariant FreeWithin(box[..], seed, tries) && Settle(box[..], seed, tries) == goal
        decreases tries
      {
        ghost var last := seed;
        seed := (seed * 9421 + 1) % 0x1_0000;
        bx := seed % 16;
        if box[bx] == 0 {
          break;
        }
        FreeAfterMiss(box[..], last, tries);
        tries := tries - 1;
      }
      var cl: Byte := 1;
      if seed % 256 % 10 == 0 {
        cl := 2;
      }
      box[bx] := cl;
    }

    /** The turn loop on a sequence of keys: a key that moves nothing is followed by another, one that
        moves something by a new tile and a cleared bp. */
    method Run(keys: seq<Byte>)
      requires Valid() && Abstract() == State(EMPTY, 12345)
      modifies this, box
      ensures Abstract() == After(keys)
    {
      EmptyHasHole();
      InsertTile();
      bp := 0;
      assert keys[..0] == [];
      for i := 0 to |keys|
        invariant bp == 0 && Abstract() == After(keys[..i])
      {
        AfterNext(keys, i);
        ghost var before := box[..];
        MovedIffChanged(before, keys[i]);
        hide After, KeyActions, RunActions, Fired, Insert;
        Keystroke(keys[i]);
        if bp != 0 {
          MovedHasHole(before, keys[i]);
          InsertTile();
          bp := 0;
        }
      }
      assert keys[..|keys|] == keys;
    }
  }
}
