/** Code as a sequence of instructions in which the jumps that leave a loop
    body and the accesses to iterator slots are still symbolic. */
module Code {
  import opened Bytes
  import opened Wrappers
  import opened Instructions

  /** I is a finished instruction. Brk and Cont are the jumps of BREAK and
      CONTINUE; Iter(k) loads the k-th slot above the procedure's locals. */
  datatype Item = I(i: Instr) | Brk | Cont | Iter(k: nat)

  function Op(op: Byte): Item { I(Instr(op, 0)) }

  function With(op: Byte, arg: int): Item { I(Instr(op, arg)) }

  const JUMP_SIZE := 5

  function ItemSize(x: Item): (n: nat)
    ensures n > 0
  {
    if x.I? then Size(x.i) else 5
  }

  function Len(c: seq<Item>): nat {
    if c == [] then 0 else ItemSize(c[0]) + Len(c[1..])
  }

  lemma {:induction false} LenCat(a: seq<Item>, b: seq<Item>)
    ensures Len(a + b) == Len(a) + Len(b)
  {
    if a == [] {
      assert a + b == b;
    } else {
      assert (a + b)[1..] == a[1..] + b;
      LenCat(a[1..], b);
    }
  }

  lemma OneLen(x: Item)
    ensures Len([x]) == ItemSize(x)
  {
    assert [x][1..] == [];
  }

  /** The binding of the symbolic parts: absolute jump targets and the slot of
      the first iterator. */
  datatype Targets = Targets(brk: int, cont: int, base: nat)

  function Concrete(x: Item, pc: int, t: Targets): Instr {
    match x
    case I(i) => i
    case Brk => Instr(W_JMP, t.brk - pc)
    case Cont => Instr(W_JMP, t.cont - pc)
    case Iter(k) => Instr(W_LDLO32, t.base + k)
  }

  /** Binds the jumps out of code that starts at position pc. */
  function Resolve(c: seq<Item>, pc: int, brk: int, cont: int): (r: seq<Item>)
    ensures |r| == |c|
    ensures Len(r) == Len(c)
  {
    if c == [] then []
    else
      var x := match c[0]
        case Brk => With(W_JMP, brk - pc)
        case Cont => With(W_JMP, cont - pc)
        case _ => c[0];
      [x] + Resolve(c[1..], pc + ItemSize(c[0]), brk, cont)
  }

  predicate Closed(c: seq<Item>) {
    forall x :: x in c ==> x.I? || x.Iter?
  }

  /** Code at a position of a code area: the bytes there decode to it. */
  predicate At(code: seq<Byte>, pc: int, c: seq<Item>, t: Targets)
    decreases |c|
  {
    c == [] || (DecodeAt(code, pc) == Some(Concrete(c[0], pc, t)) && At(code, pc + ItemSize(c[0]), c[1..], t))
  }

  lemma {:induction false} AtCat(code: seq<Byte>, pc: int, a: seq<Item>, b: seq<Item>, t: Targets)
    ensures At(code, pc, a + b, t) <==> At(code, pc, a, t) && At(code, pc + Len(a), b, t)
    decreases |a|
  {
    hide DecodeAt, ItemSize, Concrete;
    if a == [] {
      assert a + b == b;
    } else {
      assert (a + b)[1..] == a[1..] + b;
      AtCat(code, pc + ItemSize(a[0]), a[1..], b, t);
    }
  }

  /** Resolved code means what the symbolic code means under the same targets. */
  lemma {:induction false} AtResolve(code: seq<Byte>, pc: int, c: seq<Item>, off: int, t: Targets, u: Targets)
    requires t.base == u.base
    ensures At(code, pc, Resolve(c, off, u.brk - pc + off, u.cont - pc + off), t) <==> At(code, pc, c, u)
    decreases |c|
  {
    hide DecodeAt;
    if c != [] {
      var n := ItemSize(c[0]);
      var r := Resolve(c, off, u.brk - pc + off, u.cont - pc + off);
      assert r[1..] == Resolve(c[1..], off + n, u.brk - (pc + n) + (off + n), u.cont - (pc + n) + (off + n));
      AtResolve(code, pc + n, c[1..], off + n, t, u);
    }
  }
}
