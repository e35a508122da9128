/** The 4x4 board of 2048 as the program manipulates it: sixteen bytes, each 0 for an empty cell or the
    exponent of a tile, changed by one elementary step on two neighbouring cells. */
module Board {
  import opened Basics

  type Cells = s: seq<Byte> | |s| == 16 witness seq(16, _ => 0)

  const EMPTY: Cells := [0, 0, 0, 0, 0, 0, 0, 0, 0, 0, 0, 0, 0, 0, 0, 0]

  /** One call of the common code at x with neighbour y, looking for an empty or for an equal cell. */
  datatype Action = Action(x: nat, y: nat, merge: bool)

  predicate OnBoard(a: Action) {
    a.x < 16 && a.y < 16
  }

  type Actions = s: seq<Action> | forall i :: 0 <= i < |s| ==> OnBoard(s[i]) witness []

  predicate Fires(b: Cells, a: Action)
    requires OnBoard(a)
  {
    b[a.x] == (if a.merge then b[a.y] else 0) && b[a.y] != 0
  }

  function Act(b: Cells, a: Action): Cells
    requires OnBoard(a)
  {
    if Fires(b, a) then b[a.x := ((if a.merge then 1 else 0) + b[a.y] as int) % 256][a.y := 0] else b
  }

  function RunActions(b: Cells, acts: Actions): Cells
    decreases |acts|
  {
    if acts == [] then b else RunActions(Act(b, acts[0]), acts[1..])
  }

  /** How many of the actions change the board; the program counts them in bp. */
  function Fired(b: Cells, acts: Actions): nat
    decreases |acts|
  {
    if acts == [] then 0 else (if Fires(b, acts[0]) then 1 else 0) + Fired(Act(b, acts[0]), acts[1..])
  }

  lemma {:induction false} RunActionsAppend(b: Cells, p: Actions, q: Actions)
    ensures RunActions(b, p + q) == RunActions(RunActions(b, p), q)
    ensures Fired(b, p + q) == Fired(b, p) + Fired(RunActions(b, p), q)
    decreases |p|
  {
    if p == [] {
      assert p + q == q;
    } else {
      assert (p + q)[0] == p[0] && (p + q)[1..] == p[1..] + q;
      RunActionsAppend(Act(b, p[0]), p[1..], q);
    }
  }

  // ----- sums over the board -----

  function Sum(b: Cells, f: (int, Byte) -> int, n: nat): int
    requires n <= 16
  {
    if n == 0 then 0 else Sum(b, f, n - 1) + f(n - 1, b[n - 1])
  }

  lemma {:induction false} SumUpdate(b: Cells, f: (int, Byte) -> int, n: nat, i: nat, v: Byte)
    requires n <= 16 && i < 16
    ensures Sum(b[i := v], f, n) == Sum(b, f, n) + if i < n then f(i, v) - f(i, b[i]) else 0
  {
    if n > 0 {
      SumUpdate(b, f, n - 1, i, v);
    }
  }

  lemma {:induction false} SumLess(b: Cells, f: (int, Byte) -> int, g: (int, Byte) -> int, n: nat)
    requires n <= 16 && forall i, v :: 0 <= i < 16 ==> f(i, v) <= g(i, v)
    ensures Sum(b, f, n) <= Sum(b, g, n)
  {
    if n > 0 {
      SumLess(b, f, g, n - 1);
    }
  }

  lemma {:induction false} SumBetween(b: Cells, f: (int, Byte) -> int, n: nat)
    requires n <= 16 && forall i, v :: 0 <= i < 16 ==> 0 <= f(i, v) <= 1
    ensures 0 <= Sum(b, f, n) <= n
  {
    if n > 0 {
      SumBetween(b, f, n - 1);
    }
  }

  /** What one firing action does to a sum. */
  lemma {:induction false} SumAct(b: Cells, f: (int, Byte) -> int, a: Action)
    requires OnBoard(a) && Fires(b, a)
    ensures a.x != a.y ==>
      Sum(Act(b, a), f, 16) ==
      Sum(b, f, 16) - f(a.x, b[a.x]) - f(a.y, b[a.y]) + f(a.x, Act(b, a)[a.x]) + f(a.y, 0)
    ensures a.x == a.y ==> Sum(Act(b, a), f, 16) == Sum(b, f, 16) - f(a.x, b[a.x]) + f(a.x, 0)
  {
    var v: Byte := ((if a.merge then 1 else 0) + b[a.y] as int) % 256;
    SumUpdate(b, f, 16, a.x, v);
    SumUpdate(b[a.x := v], f, 16, a.y, 0);
  }

  // ----- the weight of the board -----

  /** The number shown on a tile. */
  function Face(v: int): nat {
    if v <= 0 then 0 else Pow2(v)
  }

  function FaceAt(): (int, Byte) -> int {
    (_: int, v: Byte) => Face(v)
  }

  function Weight(b: Cells): int {
    Sum(b, FaceAt(), 16)
  }

  // ----- how many tiles are large -----

  function AtLeast(k: int): (int, Byte) -> int {
    (_: int, v: Byte) => if v >= k then 1 else 0
  }

  /** The number of cells whose exponent is at least k. */
  function Count(b: Cells, k: int): int {
    Sum(b, AtLeast(k), 16)
  }

  /** For each k from 2 on, at most 18 - k cells hold an exponent of k or more. */
  ghost predicate Bounded(b: Cells) {
    forall k :: 2 <= k <= 18 ==> Count(b, k) <= 18 - k
  }

  /** Two cells that hold exactly e are counted at e but not at e + 1. */
  lemma {:induction false} PairCounts(b: Cells, x: nat, y: nat, e: int)
    requires x < 16 && y < 16 && x != y && b[x] == e && b[y] == e && e >= 1
    ensures Count(b, e + 1) <= Count(b, e) - 2
    ensures Count(b, e) >= 2
  {
    var rest := b[x := 0][y := 0];
    SumUpdate(b, AtLeast(e), 16, x, 0);
    SumUpdate(b[x := 0], AtLeast(e), 16, y, 0);
    SumUpdate(b, AtLeast(e + 1), 16, x, 0);
    SumUpdate(b[x := 0], AtLeast(e + 1), 16, y, 0);
    SumLess(rest, AtLeast(e + 1), AtLeast(e), 16);
    SumBetween(rest, AtLeast(e), 16);
  }

  lemma {:induction false} CountBelow(b: Cells, k: int, j: int)
    requires j <= k
    ensures Count(b, k) <= Count(b, j)
  {
    SumLess(b, AtLeast(k), AtLeast(j), 16);
  }

  /** On a bounded board no pair that merges holds more than 16. */
  lemma {:induction false} MergedPairSmall(b: Cells, x: nat, y: nat)
    requires Bounded(b) && x < 16 && y < 16 && x != y && b[x] == b[y] != 0
    ensures b[y] <= 16
  {
    assert Count(b, 17) <= 18 - 17;
    PairCounts(b, x, y, b[y]);
    if b[y] >= 17 {
      CountBelow(b, b[y], 17);
    }
  }

  lemma {:induction false} ActBounded(b: Cells, a: Action)
    requires OnBoard(a) && Bounded(b)
    ensures Bounded(Act(b, a))
  {
    if Fires(b, a) {
      forall k | 2 <= k <= 18 ensures Count(Act(b, a), k) <= 18 - k {
        SumAct(b, AtLeast(k), a);
        assert Count(b, k) <= 18 - k;
        SumBetween(Act(b, a), AtLeast(k), 16);
        if a.merge && a.x != a.y && k == b[a.y] as int + 1 && k > 2 {
          PairCounts(b, a.x, a.y, b[a.y]);
          assert Count(b, k - 1) <= 18 - (k - 1);
        }
        if a.merge && a.x != a.y {
          MergedPairSmall(b, a.x, a.y);
        }
      }
    }
  }

  lemma {:induction false} NewTileBounded(b: Cells, i: nat, v: Byte)
    requires i < 16 && Bounded(b) && b[i] == 0 && v <= 2
    ensures Bounded(b[i := v])
  {
    var b' := b[i := v];
    forall k | 2 <= k <= 18 ensures Count(b', k) <= 18 - k {
      SumUpdate(b, AtLeast(k), 16, i, v);
      assert Count(b, k) <= 18 - k;
      SumBetween(b', AtLeast(k), 16);
    }
  }

  /** The largest tile a bounded board can show is 2^17 = 131072. */
  lemma {:induction false} BoundedMax(b: Cells, i: nat)
    requires i < 16 && Bounded(b)
    ensures b[i] <= 17
  {
    assert Count(b, 18) <= 18 - 18;
    SumUpdate(b, AtLeast(18), 16, i, 0);
    SumBetween(b[i := 0], AtLeast(18), 16);
  }

  /** An action on two different cells of a bounded board neither creates nor destroys weight. */
  lemma {:induction false} ActConserves(b: Cells, a: Action)
    requires OnBoard(a) && a.x != a.y && Bounded(b)
    ensures Weight(Act(b, a)) == Weight(b)
  {
    if Fires(b, a) {
      SumAct(b, FaceAt(), a);
      if a.merge {
        MergedPairSmall(b, a.x, a.y);
      }
    }
  }

  // ----- empty cells -----

  function Empty(): (int, Byte) -> int {
    (_: int, v: Byte) => if v == 0 then 1 else 0
  }

  function Zeros(b: Cells): int {
    Sum(b, Empty(), 16)
  }

  lemma {:induction false} ActLeavesHole(b: Cells, a: Action)
    requires OnBoard(a)
    ensures Zeros(Act(b, a)) >= Zeros(b)
    ensures Fires(b, a) ==> Act(b, a)[a.y] == 0
  {
    if Fires(b, a) {
      SumAct(b, Empty(), a);
    }
  }

  lemma {:induction false} HoleExists(b: Cells, n: nat)
    requires n <= 16 && Sum(b, Empty(), n) > 0
    ensures exists i :: 0 <= i < 16 && b[i] == 0
  {
    if b[n - 1] != 0 {
      HoleExists(b, n - 1);
    }
  }

  lemma {:induction false} HoleCounts(b: Cells, i: nat)
    requires i < 16 && b[i] == 0
    ensures Zeros(b) > 0
  {
    SumUpdate(b, Empty(), 16, i, 1);
    SumBetween(b[i := 1], Empty(), 16);
  }

  lemma {:induction false} ActionsKeepHoles(b: Cells, acts: Actions)
    ensures Zeros(RunActions(b, acts)) >= Zeros(b)
    ensures Fired(b, acts) > 0 ==> Zeros(RunActions(b, acts)) > 0
    decreases |acts|
  {
    if acts != [] {
      ActLeavesHole(b, acts[0]);
      ActionsKeepHoles(Act(b, acts[0]), acts[1..]);
      if Fires(b, acts[0]) {
        HoleCounts(Act(b, acts[0]), acts[0].y);
      }
    }
  }

  /** Any firing leaves an empty cell for the next tile. */
  lemma {:induction false} FiredLeavesHole(b: Cells, acts: Actions)
    requires Fired(b, acts) > 0
    ensures exists i :: 0 <= i < 16 && RunActions(b, acts)[i] == 0
  {
    ActionsKeepHoles(b, acts);
    HoleExists(RunActions(b, acts), 16);
  }

  // ----- a potential that every firing lowers -----

  type Ranks = s: seq<nat> | |s| == 16 && forall i :: 0 <= i < 16 ==> s[i] > 0 witness seq(16, _ => 1)

  function Ranked(rank: Ranks): (int, Byte) -> int {
    (i: int, v: Byte) => if 0 <= i < 16 && v != 0 then rank[i] else 0
  }

  /** Tiles only move towards lower ranks. */
  ghost predicate Downhill(acts: Actions, rank: Ranks) {
    forall i :: 0 <= i < |acts| ==> rank[acts[i].x] < rank[acts[i].y] || acts[i].x == acts[i].y
  }

  lemma {:induction false} FiringLowers(b: Cells, acts: Actions, rank: Ranks)
    requires Downhill(acts, rank)
    ensures Sum(RunActions(b, acts), Ranked(rank), 16) + Fired(b, acts) <= Sum(b, Ranked(rank), 16)
    ensures Fired(b, acts) == 0 ==> RunActions(b, acts) == b
    decreases |acts|
  {
    if acts != [] {
      FiringLowers(Act(b, acts[0]), acts[1..], rank);
      if Fires(b, acts[0]) {
        SumAct(b, Ranked(rank), acts[0]);
      }
    }
  }

  /** The moved counter is zero exactly when the board is as it was. */
  lemma {:induction false} FiredIffChanged(b: Cells, acts: Actions, rank: Ranks)
    requires Downhill(acts, rank)
    ensures Fired(b, acts) != 0 <==> RunActions(b, acts) != b
  {
    FiringLowers(b, acts, rank);
  }

  lemma {:induction false} FiredAtMost(b: Cells, acts: Actions)
    ensures Fired(b, acts) <= |acts|
    decreases |acts|
  {
    if acts != [] {
      FiredAtMost(Act(b, acts[0]), acts[1..]);
    }
  }

  lemma {:induction false} ActionsBounded(b: Cells, acts: Actions)
    requires Bounded(b)
    ensures Bounded(RunActions(b, acts))
    decreases |acts|
  {
    if acts != [] {
      ActBounded(b, acts[0]);
      ActionsBounded(Act(b, acts[0]), acts[1..]);
    }
  }

  lemma {:induction false} ActionsConserve(b: Cells, acts: Actions)
    requires Bounded(b) && forall i :: 0 <= i < |acts| ==> acts[i].x != acts[i].y
    ensures Weight(RunActions(b, acts)) == Weight(b)
    decreases |acts|
  {
    if acts != [] {
      ActBounded(b, acts[0]);
      ActConserves(b, acts[0]);
      ActionsConserve(Act(b, acts[0]), acts[1..]);
    }
  }
}
