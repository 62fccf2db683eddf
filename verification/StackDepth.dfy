/** The depth of the value stack is a function of the position in the code. */
module StackDepth {
  import opened Bytes
  import opened Syntax
  import opened Instructions
  import opened Code
  import opened Compiler
  import opened Machine

  /** What an instruction takes from and puts on the stack, whether the next
      instruction can follow it, and whether it can jump. */
  datatype Move = Move(pops: nat, pushes: nat, falls: bool, jumps: bool)

  function MoveOf(i: Instr, procs: seq<Proc>): Move {
    match KindOf(i.op)
    case LoadNulls => Move(0, if i.arg < 0 then 0 else i.arg, true, false)
    case LoadInt => Move(0, 1, true, false)
    case LoadTruth => Move(0, 1, true, false)
    case LoadSlot => Move(0, 1, true, false)
    case DropCells => Move(if i.arg < 0 then 0 else i.arg, 0, true, false)
    case Stores => Move(2, 1, true, false)
    case Binary => Move(2, 1, true, false)
    case Indexing => Move(2, 1, true, false)
    case NullTests => Move(1, 1, true, false)
    case Negation => Move(1, 1, true, false)
    case FieldOfTable => Move(1, 1, true, false)
    case IterOffset => Move(1, 1, true, false)
    case StartsLoop => Move(1, 2, true, false)
    case NextInLoop => Move(1, 2, true, false)
    case CallsProc => Move(if 0 <= i.arg < |procs| then |procs[i.arg].params| else 0, 1, true, false)
    case CondJump => Move(1, if i.op == W_JF || i.op == W_JT then 1 else 0, true, true)
    case Jump => Move(0, 0, false, true)
    case Returns => Move(1, 0, false, false)
    case Unsupported => Move(0, 0, false, false)
  }

  /** The procedures, the number of locals, the depth at the enclosing loop's
      BREAK and CONTINUE targets, and whether the counts that are written in one
      byte are taken to be right; if not, only the positions are followed. */
  datatype Setting = Setting(procs: seq<Proc>, locals: nat, brk: nat, cont: nat, exact: bool)

  /** The depth of the stack at some positions of the code area. */
  type Depths = map<int, nat>

  predicate Has(ds: Depths, q: int, d: int) {
    q in ds && ds[q] == d
  }

  /** The position has a depth, and it is d where depths are followed. */
  predicate Reaches(ds: Depths, q: int, d: int, s: Setting) {
    q in ds && (s.exact ==> ds[q] == d)
  }

  /** The item at p fits the depths there, after it, and where it jumps. */
  predicate Sound(x: Item, p: int, ds: Depths, s: Setting) {
    p in ds &&
    match x
    case Brk => ds[p] == s.brk
    case Cont => ds[p] == s.cont
    case Iter(k) => k < ds[p] && Has(ds, p + 5, ds[p] + 1)
    case I(i) =>
      var m := MoveOf(i, s.procs);
      && !KindOf(i.op).Unsupported? && (s.exact ==> m.pops <= ds[p])
      && (KindOf(i.op).LoadSlot? ==> i.arg < s.locals)
      && (KindOf(i.op).CallsProc? ==> i.arg < |s.procs|)
      && (m.falls ==> Reaches(ds, p + Size(i), ds[p] - m.pops + m.pushes, s))
      && (m.jumps ==> Reaches(ds, p + i.arg, ds[p] - m.pops + m.pushes, s))
  }

  predicate Flows(c: seq<Item>, p: int, ds: Depths, s: Setting)
    decreases |c|
  {
    c == [] || (Sound(c[0], p, ds, s) && Flows(c[1..], p + ItemSize(c[0]), ds, s))
  }

  /** q is the start of an instruction of the code at p, or its end. */
  predicate Boundary(c: seq<Item>, p: int, q: int)
    decreases |c|
  {
    q == p || (c != [] && Boundary(c[1..], p + ItemSize(c[0]), q))
  }

  ghost predicate AtBoundaries(c: seq<Item>, p: int, ds: Depths) {
    forall q :: q in ds ==> Boundary(c, p, q)
  }

  /** Code at p that takes depth d0 to depth d1, with depths for its own
      instructions only. */
  ghost predicate Piece(c: seq<Item>, p: int, ds: Depths, d0: int, d1: int, s: Setting) {
    Flows(c, p, ds, s) && AtBoundaries(c, p, ds) && Has(ds, p, d0) && Has(ds, p + Len(c), d1)
  }

  lemma {:induction false} FlowsCat(a: seq<Item>, b: seq<Item>, p: int, ds: Depths, s: Setting)
    ensures Flows(a + b, p, ds, s) <==> Flows(a, p, ds, s) && Flows(b, p + Len(a), ds, s)
    decreases |a|
  {
    hide Sound, ItemSize;
    if a == [] {
      assert a + b == b;
    } else {
      assert (a + b)[1..] == a[1..] + b;
      FlowsCat(a[1..], b, p + ItemSize(a[0]), ds, s);
    }
  }

  lemma {:induction false} BoundaryCat(a: seq<Item>, b: seq<Item>, p: int, q: int)
    ensures Boundary(a + b, p, q) <==> Boundary(a, p, q) || Boundary(b, p + Len(a), q)
    decreases |a|
  {
    hide ItemSize;
    if a == [] {
      assert a + b == b;
    } else {
      assert (a + b)[1..] == a[1..] + b;
      BoundaryCat(a[1..], b, p + ItemSize(a[0]), q);
    }
  }

  lemma {:induction false} BoundaryInside(c: seq<Item>, p: int, q: int)
    requires Boundary(c, p, q)
    ensures p <= q <= p + Len(c)
    decreases |c|
  {
    if q != p {
      BoundaryInside(c[1..], p + ItemSize(c[0]), q);
    }
  }

  predicate Extends(ds: Depths, more: Depths) {
    forall q :: q in ds ==> q in more && more[q] == ds[q]
  }

  lemma {:induction false} FlowsMore(c: seq<Item>, p: int, ds: Depths, more: Depths, s: Setting)
    requires Flows(c, p, ds, s) && Extends(ds, more)
    ensures Flows(c, p, more, s)
    decreases |c|
  {
    if c != [] {
      SoundMore(c[0], p, ds, more, s);
      FlowsMore(c[1..], p + ItemSize(c[0]), ds, more, s);
    }
  }

  lemma SoundMore(x: Item, p: int, ds: Depths, more: Depths, s: Setting)
    requires Sound(x, p, ds, s) && Extends(ds, more)
    ensures Sound(x, p, more, s)
  {
    hide MoveOf, KindOf;
  }

  /** The depths of two pieces that share at most the boundary between them. */
  lemma Merge(a: seq<Item>, da: Depths, p: int, b: seq<Item>, db: Depths, q: int)
    requires AtBoundaries(a, p, da) && AtBoundaries(b, q, db) && p + Len(a) <= q
    requires p + Len(a) == q ==> q in da && q in db && da[q] == db[q]
    ensures Extends(da, da + db) && Extends(db, da + db)
  {
    forall k | k in da
      ensures k in da + db && (da + db)[k] == da[k]
    {
      BoundaryInside(a, p, k);
      if k in db {
        BoundaryInside(b, q, k);
      }
    }
  }

  lemma PieceCat(a: seq<Item>, da: Depths, b: seq<Item>, db: Depths, p: int, d0: int, d1: int, d2: int, s: Setting)
    requires Piece(a, p, da, d0, d1, s) && Piece(b, p + Len(a), db, d1, d2, s)
    ensures Piece(a + b, p, da + db, d0, d2, s) && Len(a + b) == Len(a) + Len(b)
  {
    hide Flows, Boundary, Len;
    LenCat(a, b);
    Merge(a, da, p, b, db, p + Len(a));
    FlowsMore(a, p, da, da + db, s);
    FlowsMore(b, p + Len(a), db, da + db, s);
    FlowsCat(a, b, p, da + db, s);
    forall q | q in da + db
      ensures Boundary(a + b, p, q)
    {
      BoundaryCat(a, b, p, q);
    }
  }

  /** An instruction that goes on to the next one, from depth d to depth next. */
  predicate Passes(i: Instr, d: int, next: int, s: Setting) {
    var m := MoveOf(i, s.procs);
    && !KindOf(i.op).Unsupported? && m.falls && !m.jumps
    && (s.exact ==> m.pops <= d && next == d - m.pops + m.pushes)
    && (KindOf(i.op).LoadSlot? ==> i.arg < s.locals) && (KindOf(i.op).CallsProc? ==> i.arg < |s.procs|)
  }

  lemma PieceOne(i: Instr, p: int, d: nat, next: nat, s: Setting)
    requires Passes(i, d, next, s)
    ensures Piece([I(i)], p, map[p := d, p + Size(i) := next], d, next, s)
  {
    hide KindOf, MoveOf;
    OneLen(I(i));
    var ds := map[p := d, p + Size(i) := next];
    assert [I(i)][1..] == [];
    assert Boundary([I(i)][1..], p + Size(i), p + Size(i));
    assert Boundary([I(i)], p, p + Size(i));
    assert Flows([I(i)][1..], p + Size(i), ds, s);
    assert Sound(I(i), p, ds, s);
  }

  /** Code followed by such an instruction. */
  lemma PieceThen(a: seq<Item>, da: Depths, i: Instr, p: int, d0: int, d1: nat, d2: nat, s: Setting) returns (ds: Depths)
    requires Piece(a, p, da, d0, d1, s) && Passes(i, d1, d2, s)
    ensures Piece(a + [I(i)], p, ds, d0, d2, s)
  {
    hide Piece, Passes, Len, Size;
    var q := p + Len(a);
    PieceOne(i, q, d1, d2, s);
    ds := da + map[q := d1, q + Size(i) := d2];
    PieceCat(a, da, [I(i)], map[q := d1, q + Size(i) := d2], p, d0, d1, d2, s);
  }

  lemma PieceEmpty(p: int, d: nat, s: Setting)
    ensures Piece([], p, map[p := d], d, d, s)
  {
  }

  /** What a jump leaves of depth d. */
  function Landing(op: Byte, d: int): int {
    if op == W_JFC || op == W_JTC then d - 1 else d
  }

  /** A jump over the code after it, to a place that has the right depth. */
  lemma PieceJump(a: seq<Item>, da: Depths, op: Byte, v: int, b: seq<Item>, db: Depths, p: int, d0: int, d1: int, d2: int, d3: int,
                  s: Setting)
    requires IsJump(op) && (op == W_JMP || d1 >= 1) && (op == W_JMP || d2 == Landing(op, d1))
    requires Piece(a, p, da, d0, d1, s) && Piece(b, p + Len(a) + 5, db, d2, d3, s)
    requires Has(da + db, p + Len(a) + v, Landing(op, d1))
    ensures Piece(a + [With(op, v)] + b, p, da + db, d0, d3, s)
    ensures Len(a + [With(op, v)] + b) == Len(a) + 5 + Len(b)
  {
    hide Flows, Boundary, Len;
    var j, ds := With(op, v), da + db;
    var q := p + Len(a);
    JumpLength(a, op, v, b);
    Merge(a, da, p, b, db, q + 5);
    FlowsMore(a, p, da, ds, s);
    FlowsMore(b, q + 5, db, ds, s);
    JumpFlows(op, v, q, ds, d1, d2, s);
    FlowsCat(a, [j], p, ds, s);
    FlowsCat(a + [j], b, p, ds, s);
    forall k | k in ds
      ensures Boundary(a + [j] + b, p, k)
    {
      BoundaryCat(a + [j], b, p, k);
      BoundaryCat(a, [j], p, k);
    }
  }

  lemma JumpLength(a: seq<Item>, op: Byte, v: int, b: seq<Item>)
    requires IsJump(op)
    ensures Len(a + [With(op, v)]) == Len(a) + 5 && Len(a + [With(op, v)] + b) == Len(a) + 5 + Len(b)
  {
    LenCat(a, [With(op, v)]);
    LenCat(a + [With(op, v)], b);
    OneLen(With(op, v));
    assert ItemSize(With(op, v)) == 5;
  }

  lemma JumpFlows(op: Byte, v: int, p: int, ds: Depths, d: int, next: int, s: Setting)
    requires IsJump(op) && (op == W_JMP || (d >= 1 && next == Landing(op, d)))
    requires Has(ds, p, d) && Has(ds, p + 5, next) && Has(ds, p + v, Landing(op, d))
    ensures Flows([With(op, v)], p, ds, s)
  {
    assert [With(op, v)][1..] == [];
  }
}
