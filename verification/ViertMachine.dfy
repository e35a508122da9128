/** The viert machine with its two stacks in one memory: the return stack grows down from the frame `enter`
    makes, the data stack from the other end of the 65535 bytes it reserves. */
module ViertMachine {
  import opened Basics
  import opened Encoding
  import opened Viert
  import opened ViertProofs

  const GAP := 65535

  class Machine {
    const env: Env
    const img: Image
    var esi: int
    var esp: int
    var ebp: int
    var cells: map<int, int>        // four-byte cells by address
    var calls: seq<Request>
    ghost var done: seq<Basic>

    /** The address `enter` left in ebp. */
    ghost function Frame(): int {
      env.base + GAP
    }

    /** Address of the k-th cell of the data stack, the deepest first. */
    ghost function DataCell(k: int): int {
      env.base - 4 * (k + 1)
    }

    ghost function ReturnCell(k: int): int {
      Frame() - 4 * (k + 1)
    }

    ghost predicate Valid()
      reads this`esp, this`ebp, this`cells
    {
      && |img.layout.defs| == |img.dict|
      && esp <= env.base && (env.base - esp) % 4 == 0
      && ebp <= Frame() && (Frame() - ebp) % 4 == 0
      && env.base <= ebp                                  // no return cell reaches the data stack
      && (forall k :: 0 <= k < (env.base - esp) / 4 ==>
            DataCell(k) in cells && 0 <= cells[DataCell(k)] < 0x1_0000_0000)
      && (forall k :: 0 <= k < (Frame() - ebp) / 4 ==> ReturnCell(k) in cells)
    }

    ghost function Data(): seq<Word>
      requires Valid()
      reads this`esp, this`ebp, this`cells
    {
      var n, c := (env.base - esp) / 4, cells;
      seq(n, k requires 0 <= k < n && DataCell(k) in c && 0 <= c[DataCell(k)] < 0x1_0000_0000 => c[DataCell(k)])
    }

    ghost function Returns(): seq<int>
      requires Valid()
      reads this`esp, this`ebp, this`cells
    {
      var n, c := (Frame() - ebp) / 4, cells;
      seq(n, k requires 0 <= k < n && ReturnCell(k) in c => c[ReturnCell(k)])
    }

    ghost function Abstract(): VM
      requires Valid()
      reads this
    {
      VM(esi, Returns(), World(Data(), calls), done)
    }

    /** `enter 0xFFFF, 0`, then esi at the program's thread. */
    constructor (env: Env, img: Image, forth: int)
      requires |img.layout.defs| == |img.dict|
      ensures Valid() && this.env == env && this.img == img
      ensures Abstract() == VM(forth, [], World([], []), [])
    {
      this.env, this.img := env, img;
      esi, esp, ebp := forth, env.base, env.base + GAP;
      cells, calls, done := map[], [], [];
    }

    method Push(v: Word)
      requires Valid()
      modifies this`esp, this`cells
      ensures Valid() && Data() == old(Data()) + [v] && Returns() == old(Returns())
    {
      esp := esp - 4;
      cells := cells[esp := v];
    }

    method Pop() returns (v: Word)
      requires Valid() && Data() != []
      modifies this`esp
      ensures Valid() && Returns() == old(Returns())
      ensures Data() == old(Data()[..|Data()| - 1]) && v == old(Data()[|Data()| - 1])
    {
      assert esp == DataCell(|Data()| - 1);
      v := cells[esp];
      esp := esp + 4;
    }

    method RsPush(v: int)
      requires Valid() && 4 * (|Returns()| + 1) <= GAP
      modifies this`ebp, this`esp, this`cells
      ensures Valid() && Returns() == old(Returns()) + [v] && Data() == old(Data())
    {
      ebp, esp := esp, ebp;
      esp := esp - 4;
      cells := cells[esp := v];
      ebp, esp := esp, ebp;
    }

    method RsPop() returns (v: int)
      requires Valid() && Returns() != []
      modifies this`ebp, this`esp
      ensures Valid() && Data() == old(Data())
      ensures Returns() == old(Returns()[..|Returns()| - 1]) && v == old(Returns()[|Returns()| - 1])
    {
      assert ebp == ReturnCell(|Returns()| - 1);
      ebp, esp := esp, ebp;
      v := cells[esp];
      esp := esp + 4;
      ebp, esp := esp, ebp;
    }

    // ----- the primitives -----

    method DoSpAt()
      requires Valid()
      modifies this`esp, this`cells, this`calls
      ensures Valid() && Returns() == old(Returns())
      ensures Exec(env, Do(SpAt), old(World(Data(), calls))) == Some(World(Data(), calls))
    {
      ghost var d := Data();
      Push(Wrap(esp));
      assert Data() == d + [Wrap(env.base - 4 * |d|)];
    }

    method DoAdd()
      requires Valid() && |Data()| >= 2
      modifies this`esp, this`cells, this`calls
      ensures Valid() && Returns() == old(Returns())
      ensures Exec(env, Do(Add), old(World(Data(), calls))) == Some(World(Data(), calls))
    {
      hide Valid, Data, Returns;
      ghost var d, n := Data(), |Data()|;
      assert d[..n - 1][..n - 2] == d[..n - 2];
      var eax: int := Pop();
      var ebx: int := Pop();
      eax := Wrap(eax + ebx);
      Push(eax);
      assert Data() == d[..n - 2] + [Wrap(d[n - 1] as int + d[n - 2])];
    }

    method DoSwap()
      requires Valid() && |Data()| >= 2
      modifies this`esp, this`cells, this`calls
      ensures Valid() && Returns() == old(Returns())
      ensures Exec(env, Do(Swap), old(World(Data(), calls))) == Some(World(Data(), calls))
    {
      hide Valid, Data, Returns;
      ghost var d, n := Data(), |Data()|;
      assert d[..n - 1][..n - 2] == d[..n - 2];
      var ebx := Pop();
      var eax := Pop();
      Push(ebx);
      Push(eax);
      assert Data() == d[..n - 2] + [d[n - 1], d[n - 2]];
    }

    method DoDup()
      requires Valid() && |Data()| >= 1
      modifies this`esp, this`cells, this`calls
      ensures Valid() && Returns() == old(Returns())
      ensures Exec(env, Do(Dup), old(World(Data(), calls))) == Some(World(Data(), calls))
    {
      hide Valid, Data, Returns;
      ghost var d, n := Data(), |Data()|;
      var eax := Pop();
      Push(eax);
      Push(eax);
      assert Data() == d + [d[n - 1]];
    }

    method DoDrop()
      requires Valid() && |Data()| >= 1
      modifies this`esp, this`cells, this`calls
      ensures Valid() && Returns() == old(Returns())
      ensures Exec(env, Do(Drop), old(World(Data(), calls))) == Some(World(Data(), calls))
    {
      hide Valid, Data, Returns;
      var ebx := Pop();
    }

    method DoNeg()
      requires Valid() && |Data()| >= 1
      modifies this`esp, this`cells, this`calls
      ensures Valid() && Returns() == old(Returns())
      ensures Exec(env, Do(Neg), old(World(Data(), calls))) == Some(World(Data(), calls))
    {
      hide Valid, Data, Returns;
      ghost var d, n := Data(), |Data()|;
      var eax: int := Pop();
      eax := Wrap(0 - eax);
      Push(eax);
      assert Data() == d[..n - 1] + [Wrap(0 - d[n - 1] as int)];
    }

    method DoEqu()
      requires Valid() && |Data()| >= 2
      modifies this`esp, this`cells, this`calls
      ensures Valid() && Returns() == old(Returns())
      ensures Exec(env, Do(Equ), old(World(Data(), calls))) == Some(World(Data(), calls))
    {
      hide Valid, Data, Returns;
      ghost var d, n := Data(), |Data()|;
      assert d[..n - 1][..n - 2] == d[..n - 2];
      var eax := Pop();
      var ebx := Pop();
      var al := if eax == ebx then 1 else 0;
      Push(al);
      assert Data() == d[..n - 2] + [if d[n - 1] == d[n - 2] then 1 else 0];
    }

    method DoSyscall3()
      requires Valid() && |Data()| >= 4
      modifies this`esp, this`cells, this`calls
      ensures Valid() && Returns() == old(Returns())
      ensures Exec(env, Do(Syscall3), old(World(Data(), calls))) == Some(World(Data(), calls))
    {
      hide Valid, Data, Returns;
      ghost var d, n := Data(), |Data()|;
      assert d[..n - 1][..n - 2] == d[..n - 2] && d[..n - 2][..n - 3] == d[..n - 3] && d[..n - 3][..n - 4] == d[..n - 4];
      var eax := Pop();
      var ebx := Pop();
      var ecx := Pop();
      var edx := Pop();
      assert Data() == d[..n - 4];
      calls := calls + [Request(eax, ebx, ecx, edx)];
      Push(env.kernel(calls));
      assert Data() == d[..n - 4] + [env.kernel(calls)];
    }

    /** Runs a primitive if the data stack is deep enough for it. */
    method Primitive(p: Prim) returns (ok: bool)
      requires Valid()
      modifies this`esp, this`cells, this`calls
      ensures Valid() && Returns() == old(Returns())
      ensures ok == Exec(env, Do(p), old(World(Data(), calls))).Some?
      ensures ok ==> Exec(env, Do(p), old(World(Data(), calls))) == Some(World(Data(), calls))
    {
      var depth := (env.base - esp) / 4;
      assert depth == |Data()|;
      ok := true;
      match p
      case SpAt => DoSpAt();
      case Add => if depth >= 2 { DoAdd(); } else { ok := false; }
      case Swap => if depth >= 2 { DoSwap(); } else { ok := false; }
      case Dup => if depth >= 1 { DoDup(); } else { ok := false; }
      case Drop => if depth >= 1 { DoDrop(); } else { ok := false; }
      case Neg => if depth >= 1 { DoNeg(); } else { ok := false; }
      case Equ => if depth >= 2 { DoEqu(); } else { ok := false; }
      case Syscall3 => if depth >= 4 { DoSyscall3(); } else { ok := false; }
      case _ => ok := false;
    }

    /** The code of lit8 and lit32 once the operand is in eax. */
    method Literal(v: Word, next: int)
      requires Valid()
      modifies this`esi, this`esp, this`cells, this`done
      ensures Valid() && Some(Abstract()) == Perform(env, old(Abstract()), Basic.Push(v), next)
    {
      hide Valid, Data, Returns;
      Push(v);
      esi := next;
      done := done + [Basic.Push(v)];
    }

    /** NEXT and the code it jumps to. The machine itself checks nothing; ok is false where it would read
        below its stacks or jump to no definition. */
    method Next() returns (ok: bool)
      requires Valid() && 4 * (|Returns()| + 1) <= GAP
      modifies this
      ensures Valid()
      ensures ok == Step(env, img, old(Abstract())).Some?
      ensures ok ==> Some(Abstract()) == Step(env, img, old(Abstract()))
    {
      assert (Returns() == []) == (ebp == env.base + GAP);
      ghost var before := Abstract();
      hide Valid, Data, Returns, Exec, Fetch, Find, Peek, Peek4, EntersDocol;
      var (eax, thread) := Fetch(img.layout, img.mem, esi);
      var i := Find(img.layout.defs, eax);
      if i.None? {
        return false;
      }
      match img.dict[i.value] {
        case Colon(_) =>
          if !EntersDocol(img, eax) {
            return false;
          }
          RsPush(thread);
          esi := eax + 2;
          ok := true;
        case Primitive(p) =>
          if p == Exit {
            if ebp == env.base + GAP {
              return false;
            }
            esi := RsPop();
            ok := true;
          } else if p == Lit8 {
            Literal(Peek(img.mem, thread), thread + 1);
            ok := true;
          } else if p == Lit32 {
            Literal(Peek4(img.mem, thread), thread + 4);
            ok := true;
          } else {
            ok := Primitive(p);
            esi := thread;
            done := done + [Do(p)];
            assert Step(env, img, before) == Perform(env, before, Do(p), thread);
          }
      }
    }

    /** Runs a thread from start-up to its end, or until a stack would underflow: exactly the primitives its
        words stand for, with the return stack empty again. */
    method RunThread(items: seq<Item>, forth: int) returns (ok: bool)
      requires Valid() && ImageOk(img) && |img.dict| <= 256 && ItemsOk(img.dict, items, |img.dict|)
      requires Holds(img.mem, forth, Compile(img.layout, items))
      requires Abstract() == VM(forth, [], World([], []), [])
      modifies this
      ensures Valid()
      ensures var bs := Expand(img.dict, items, |img.dict|); var w := ExecAll(env, bs, World([], []));
        && ok == w.Some?
        && (ok ==> Abstract() == VM(forth + |Compile(img.layout, items)|, [], w.value, bs))
    {
      hide Valid, Data, Returns, Step, Compile, Expand, ExecAll, Cost, Holds, ItemsOk;
      ghost var start := Abstract();
      var cost := Cost(img.dict, items, |img.dict|);
      RunItems(env, img, items, |img.dict|, start);
      var n := 0;
      while n < cost
        invariant Valid() && n <= cost
        invariant Run(env, img, Some(start), n) == Some(Abstract())
      {
        ReturnStackFits(env, img, items, start, n);
        RunAdd(env, img, Some(start), n, 1);
        RunAdd(env, img, Some(start), n + 1, cost - (n + 1));
        ok := Next();
        if !ok {
          return;
        }
        n := n + 1;
      }
      ok := true;
    }
  }
}
