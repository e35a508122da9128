/** The dictionary the source defines, and what its words do. */
module ViertWords {
  import opened Basics
  import opened Viert
  import opened ViertProofs

  const SP_AT := 3
  const SWAP := 7
  const SYSCALL3 := 16
  const HEYA := 20
  const TRIPLE := 21

  const HEYA_BODY: seq<Item> := [Lit(0x41484148), Call(SP_AT), Lit(4), Call(SWAP), Lit(1), Lit(4), Call(SYSCALL3)]

  /** The words in the order of their definition; those not modelled, among them the two colon words
      without EXIT, are Other. */
  const WORDS: Dictionary := [
    Primitive(Exit), Primitive(Lit8), Primitive(Lit32), Primitive(SpAt), Primitive(Other), Primitive(Other),
    Primitive(Add), Primitive(Swap), Primitive(Dup), Primitive(Drop), Primitive(Other), Primitive(Other),
    Primitive(Neg), Primitive(Equ), Primitive(Other), Primitive(Other), Primitive(Syscall3), Primitive(Docol),
    Primitive(Other), Primitive(Other), Colon(HEYA_BODY), Colon([Call(HEYA), Call(HEYA), Call(HEYA)])]

  lemma {:induction false} WordsOk()
    ensures DictionaryOk(WORDS)
    ensures ItemsOk(WORDS, HEYA_BODY, HEYA) && ItemsOk(WORDS, [Call(HEYA), Call(HEYA), Call(HEYA)], TRIPLE)
  {
  }

  lemma {:induction false} ExpandCons(dict: Dictionary, it: Item, rest: seq<Item>, bound: nat)
    requires DictionaryOk(dict) && ItemsOk(dict, [it] + rest, bound)
    ensures ItemsOk(dict, [it], bound) && ItemsOk(dict, rest, bound)
    ensures Expand(dict, [it] + rest, bound) == ExpandItem(dict, it, bound) + Expand(dict, rest, bound)
  {
    SplitItems(dict, [it] + rest, bound);
    assert ([it] + rest)[1..] == rest;
  }

  const HEYA_STEPS: seq<Basic> := [Push(0x41484148), Do(SpAt), Push(4), Do(Swap), Push(1), Push(4), Do(Syscall3)]

  /** The expansion of a body that uses only primitives and literals is the body, item by item. */
  lemma {:induction false} ExpandFlat(dict: Dictionary, items: seq<Item>, bound: nat, steps: seq<Basic>)
    requires DictionaryOk(dict) && ItemsOk(dict, items, bound) && |steps| == |items|
    requires forall k :: 0 <= k < |items| ==>
      match items[k]
      case Lit(n) => steps[k] == Push(Wrap(n))
      case Call(w) => dict[w].Primitive? && steps[k] == Do(dict[w].p)
    ensures Expand(dict, items, bound) == steps
    decreases |items|
  {
    if items != [] {
      SplitItems(dict, items, bound);
      assert [items[0]][0] == items[0];
      ExpandFlat(dict, items[1..], bound, steps[1..]);
      assert steps == [steps[0]] + steps[1..];
    }
  }

  lemma {:induction false} HeyaExpands()
    requires DictionaryOk(WORDS) && ItemsOk(WORDS, HEYA_BODY, HEYA)
    ensures Expand(WORDS, HEYA_BODY, HEYA) == HEYA_STEPS
  {
    ExpandFlat(WORDS, HEYA_BODY, HEYA, HEYA_STEPS);
  }

  /** The world after heya: it writes the four bytes HAHA from the data stack to standard output and leaves
      them and the kernel's answer there. */
  function AfterHeya(env: Env, w: World): World {
    var calls := w.calls + [Request(4, 1, Wrap(env.base - 4 * (|w.data| + 1)), 4)];
    World(w.data + [0x41484148, env.kernel(calls)], calls)
  }

  /** Halfway: the text, its length and its address are in place. */
  function Prepared(env: Env, w: World): World {
    w.(data := w.data + [0x41484148, 4, Wrap(env.base - 4 * (|w.data| + 1))])
  }

  lemma {:induction false} HeyaPrepares(env: Env, w: World)
    ensures ExecAll(env, [Push(0x41484148), Do(SpAt), Push(4), Do(Swap)], w) == Some(Prepared(env, w))
  {
    hide ExecAll;
    var d, text: Word := w.data, 0x41484148;
    var at := Wrap(env.base - 4 * (|d| + 1));
    var s := [Push(text), Do(SpAt), Push(4), Do(Swap)];
    var w1, w2, w3 := w.(data := d + [text]), w.(data := d + [text, at]), w.(data := d + [text, at, 4]);
    Stepwise(env, s, w, w1);
    assert w1.data + [at] == w2.data;
    Stepwise(env, s[1..], w1, w2);
    assert w2.data + [4] == w3.data;
    Stepwise(env, s[2..], w2, w3);
    assert w3.data[..|d| + 1] + [4, at] == Prepared(env, w).data;
    Stepwise(env, s[3..], w3, Prepared(env, w));
    assert s[1..][1..] == s[2..] && s[2..][1..] == s[3..] && s[3..][1..] == [];
    NothingLeft(env, Prepared(env, w));
  }

  lemma {:induction false} HeyaCalls(env: Env, w: World)
    ensures ExecAll(env, [Push(1), Push(4), Do(Syscall3)], Prepared(env, w)) == Some(AfterHeya(env, w))
  {
    hide ExecAll;
    var p, s := Prepared(env, w), [Push(1), Push(4), Do(Syscall3)];
    var p1, p2 := p.(data := p.data + [1]), p.(data := p.data + [1, 4]);
    Stepwise(env, s, p, p1);
    assert p1.data + [4] == p2.data;
    Stepwise(env, s[1..], p1, p2);
    var w' := AfterHeya(env, w);
    assert p2.data[..|w.data| + 1] + [env.kernel(w'.calls)] == w'.data;
    Stepwise(env, s[2..], p2, w');
    assert s[1..][1..] == s[2..] && s[2..][1..] == [];
    NothingLeft(env, w');
  }

  lemma {:induction false} HeyaWrites(env: Env, w: World)
    ensures ExecAll(env, HEYA_STEPS, w) == Some(AfterHeya(env, w))
  {
    var p, q := [Push(0x41484148), Do(SpAt), Push(4), Do(Swap)], [Push(1), Push(4), Do(Syscall3)];
    HeyaPrepares(env, w);
    HeyaCalls(env, w);
    ExecAllAppend(env, p, q, w);
    assert HEYA_STEPS == p + q;
  }

  lemma {:induction false} NothingLeft(env: Env, w: World)
    ensures ExecAll(env, [], w) == Some(w)
  {
  }

  lemma {:induction false} Stepwise(env: Env, bs: seq<Basic>, w: World, w': World)
    requires bs != [] && Exec(env, bs[0], w) == Some(w')
    ensures ExecAll(env, bs, w) == ExecAll(env, bs[1..], w')
  {
  }

  /** triple is heya three times over. */
  lemma {:induction false} TripleWrites(env: Env, w: World)
    requires DictionaryOk(WORDS) && ItemsOk(WORDS, HEYA_BODY, HEYA) && ItemsOk(WORDS, [Call(TRIPLE)], |WORDS|)
    ensures ExecAll(env, ExpandItem(WORDS, Call(TRIPLE), |WORDS|), w) ==
            Some(AfterHeya(env, AfterHeya(env, AfterHeya(env, w))))
  {
    var h := HEYA_STEPS;
    var call := Call(HEYA);
    HeyaExpands();
    WordsOk();
    assert WORDS[TRIPLE].body == [call] + [call, call] && [call, call] == [call] + [call] && [call] == [call] + [];
    ExpandCons(WORDS, call, [call, call], TRIPLE);
    ExpandCons(WORDS, call, [call], TRIPLE);
    ExpandCons(WORDS, call, [], TRIPLE);
    assert Expand(WORDS, WORDS[TRIPLE].body, TRIPLE) == h + (h + (h + []));
    var w1, w2 := AfterHeya(env, w), AfterHeya(env, AfterHeya(env, w));
    HeyaWrites(env, w);
    HeyaWrites(env, w1);
    HeyaWrites(env, w2);
    ExecAllAppend(env, h, h + (h + []), w);
    ExecAllAppend(env, h, h + [], w1);
    ExecAllAppend(env, h, [], w2);
  }
}
