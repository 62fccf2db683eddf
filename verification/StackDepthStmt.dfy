/** Statements leave the depth of the stack as it was. */
module StackDepthStmt {
  import opened Bytes
  import opened Syntax
  import opened Instructions
  import opened Operators
  import opened Code
  import opened Compiler
  import opened ByteCounts
  import opened CompilerLemmas
  import opened GeneratorLemmas
  import opened Machine
  import opened StackDepth
  import opened StackDepthCode
  import SimulateExp
  import SimulateCopy
  import opened SimulateStmt
  import ConstantPool

  // ----- loops -----

  /** Binding the jumps out of a body to places with the depths they expect. */
  lemma {:induction false} ResolveFlows(c: seq<Item>, p: int, off: int, brk: int, cont: int, ds: Depths, inner: Setting, s: Setting)
    requires Flows(c, p, ds, inner) && inner.procs == s.procs && inner.locals == s.locals && inner.exact == s.exact
    requires Has(ds, p - off + brk, inner.brk) && Has(ds, p - off + cont, inner.cont)
    ensures Flows(Resolve(c, off, brk, cont), p, ds, s)
    decreases |c|
  {
    hide Sound;
    if c != [] {
      var n := ItemSize(c[0]);
      var x := Resolve(c, off, brk, cont)[0];
      ResolveFlows(c[1..], p + n, off + n, brk, cont, ds, inner, s);
      ResolveSound(c[0], x, p, off, brk, cont, ds, inner, s);
      assert Resolve(c, off, brk, cont)[1..] == Resolve(c[1..], off + n, brk, cont);
      assert ItemSize(x) == n;
    }
  }

  lemma ResolveSound(y: Item, x: Item, p: int, off: int, brk: int, cont: int, ds: Depths, inner: Setting, s: Setting)
    requires Sound(y, p, ds, inner) && inner.procs == s.procs && inner.locals == s.locals && inner.exact == s.exact
    requires Has(ds, p - off + brk, inner.brk) && Has(ds, p - off + cont, inner.cont)
    requires x == (if y.Brk? then With(W_JMP, brk - off) else if y.Cont? then With(W_JMP, cont - off) else y)
    ensures Sound(x, p, ds, s)
  {
  }

  /** Three pieces in a row, each with a gap of one jump after it. */
  lemma MergeThree(a: seq<Item>, da: Depths, p: int, b: seq<Item>, db: Depths, q: int, e: int, d: nat)
    requires AtBoundaries(a, p, da) && AtBoundaries(b, q, db) && p + Len(a) < q && q + Len(b) < e
    ensures var ds := (da + db)[e := d]; Extends(da, ds) && Extends(db, ds)
  {
    Merge(a, da, p, b, db, q);
    forall k | k in da || k in db
      ensures k != e
    {
      if k in da { BoundaryInside(a, p, k); }
      if k in db { BoundaryInside(b, q, k); }
    }
  }

  lemma LoopLen(head: seq<Item>, b: seq<Item>, cont: nat)
    ensures var r := Resolve(b, Len(head) + 5, Len(head) + 10 + Len(b), cont);
            var end := Len(head) + 5 + Len(b);
            && Len(head + [With(W_JFC, Len(b) + 10)]) == Len(head) + 5
            && Len(head + [With(W_JFC, Len(b) + 10)] + r) == end
            && Len(LoopCode(head, b, cont)) == end + 5
            && LoopCode(head, b, cont) == head + [With(W_JFC, Len(b) + 10)] + r + [With(W_JMP, cont - end)]
  {
    hide Len, Resolve;
    var r := Resolve(b, Len(head) + 5, Len(head) + 10 + Len(b), cont);
    JumpLength(head, W_JFC, Len(b) + 10, r);
    JumpLength(head + [With(W_JFC, Len(b) + 10)] + r, W_JMP, cont - (Len(head) + 5 + Len(b)), []);
  }

  lemma LoopBoundaries(head: seq<Item>, b: seq<Item>, cont: nat, p: int, q: int)
    requires Boundary(head, p, q) || Boundary(b, p + Len(head) + 5, q) || q == p + Len(head) + Len(b) + 10
    ensures Boundary(LoopCode(head, b, cont), p, q)
  {
    hide Len, Resolve, Boundary;
    var r := Resolve(b, Len(head) + 5, Len(head) + 10 + Len(b), cont);
    var h := head + [With(W_JFC, Len(b) + 10)];
    var back := [With(W_JMP, cont - (Len(head) + 5 + Len(b)))];
    LoopLen(head, b, cont);
    BoundaryCat(h + r, back, p, q);
    BoundaryCat(h, r, p, q);
    BoundaryCat(head, [With(W_JFC, Len(b) + 10)], p, q);
    ResolveBoundary(b, Len(head) + 5, Len(head) + 10 + Len(b), cont, p + Len(head) + 5, q);
    BackBoundary(back[0], p + Len(head) + 5 + Len(b));
  }

  lemma BackBoundary(x: Item, p: int)
    requires ItemSize(x) == 5
    ensures Boundary([x], p, p + 5)
  {
    assert Boundary([x][1..], p + 5, p + 5);
  }

  lemma {:induction false} ResolveBoundary(c: seq<Item>, off: int, brk: int, cont: int, p: int, q: int)
    ensures Boundary(Resolve(c, off, brk, cont), p, q) == Boundary(c, p, q)
    decreases |c|
  {
    if c != [] {
      var n := ItemSize(c[0]);
      ResolveBoundary(c[1..], off + n, brk, cont, p + n, q);
      assert Resolve(c, off, brk, cont)[1..] == Resolve(c[1..], off + n, brk, cont);
    }
  }

  /** A loop whose exit leaves depth d; its body runs at depth d, and so does
      what CONTINUE goes to. */
  lemma LoopPiece(head: seq<Item>, dh: Depths, b: seq<Item>, db: Depths, cont: nat, p: int, d0: int, d: nat, s: Setting)
    returns (ds: Depths)
    requires Piece(head, p, dh, d0, d + 1, s) && Has(dh, p + cont, d)
    requires Piece(b, p + Len(head) + 5, db, d, d, s.(brk := d, cont := d))
    ensures Piece(LoopCode(head, b, cont), p, ds, d0, d, s)
  {
    hide Flows, Boundary, Len, Resolve;
    var start, end := p + Len(head) + 5, p + Len(head) + 5 + Len(b);
    ds := (dh + db)[end + 5 := d];
    MergeThree(head, dh, p, b, db, start, end + 5, d);
    FlowsMore(head, p, dh, ds, s);
    FlowsMore(b, start, db, ds, s.(brk := d, cont := d));
    var r := Resolve(b, Len(head) + 5, Len(head) + 10 + Len(b), cont);
    ResolveFlows(b, start, Len(head) + 5, Len(head) + 10 + Len(b), cont, ds, s.(brk := d, cont := d), s);
    var h := head + [With(W_JFC, Len(b) + 10)];
    LoopLen(head, b, cont);
    JumpFlows(W_JFC, Len(b) + 10, p + Len(head), ds, d + 1, d, s);
    JumpFlows(W_JMP, cont - (Len(head) + 5 + Len(b)), end, ds, d, d, s);
    FlowsCat(head, [With(W_JFC, Len(b) + 10)], p, ds, s);
    FlowsCat(h, r, p, ds, s);
    FlowsCat(h + r, [With(W_JMP, cont - (Len(head) + 5 + Len(b)))], p, ds, s);
    forall q | q in ds
      ensures Boundary(LoopCode(head, b, cont), p, q)
    {
      LoopBoundaries(head, b, cont, p, q);
    }
  }

  lemma UntilPiece(b: seq<Item>, db: Depths, c: seq<Item>, dc: Depths, p: int, d: nat, s: Setting) returns (ds: Depths)
    requires Piece(b, p, db, d, d, s.(brk := d, cont := d)) && Piece(c, p + Len(b), dc, d, d + 1, s)
    ensures Piece(UntilCode(b, c), p, ds, d, d, s)
  {
    hide Flows, Boundary, Len, Resolve;
    var q, end := p + Len(b), p + Len(b) + Len(c);
    ds := (db + dc)[end + 5 := d];
    UntilMerge(b, db, c, dc, p, end + 5, d);
    FlowsMore(b, p, db, ds, s.(brk := d, cont := d));
    FlowsMore(c, q, dc, ds, s);
    var r := Resolve(b, 0, Len(b) + Len(c) + 5, Len(b));
    ResolveFlows(b, p, 0, Len(b) + Len(c) + 5, Len(b), ds, s.(brk := d, cont := d), s);
    var back := With(W_JTC, -(Len(b) + Len(c)));
    JumpFlows(W_JTC, -(Len(b) + Len(c)), end, ds, d + 1, d, s);
    LenCat(r, c);
    JumpLength(r + c, W_JTC, -(Len(b) + Len(c)), []);
    FlowsCat(r, c, p, ds, s);
    FlowsCat(r + c, [back], p, ds, s);
    assert UntilCode(b, c) == r + c + [back] && r + c + [back] + [] == r + c + [back];
    forall k | k in ds
      ensures Boundary(UntilCode(b, c), p, k)
    {
      BoundaryCat(r + c, [back], p, k);
      BoundaryCat(r, c, p, k);
      ResolveBoundary(b, 0, Len(b) + Len(c) + 5, Len(b), p, k);
      BackBoundary(back, end);
    }
  }

  lemma UntilMerge(b: seq<Item>, db: Depths, c: seq<Item>, dc: Depths, p: int, e: int, d: nat)
    requires AtBoundaries(b, p, db) && AtBoundaries(c, p + Len(b), dc) && p + Len(b) + Len(c) < e
    requires p + Len(b) in db && p + Len(b) in dc && db[p + Len(b)] == dc[p + Len(b)]
    ensures var ds := (db + dc)[e := d]; Extends(db, ds) && Extends(dc, ds)
  {
    Merge(b, db, p, c, dc, p + Len(b));
    forall k | k in db || k in dc
      ensures k != e
    {
      if k in db { BoundaryInside(b, p, k); }
      if k in dc { BoundaryInside(c, p + Len(b), k); }
    }
  }

  lemma ForHeadPiece(i: seq<Item>, di: Depths, t: seq<Item>, dt: Depths, c: seq<Item>, dc: Depths, p: int, d: nat, s: Setting)
    returns (ds: Depths)
    requires Piece(i, p, di, d, d + 1, s) && Piece(t, p + Len(i) + 7, dt, d, d + 1, s)
    requires Piece(c, p + Len(i) + 7 + Len(t) + 2, dc, d, d + 1, s)
    ensures Piece(ForHead(i, t, c), p, ds, d, d + 1, s) && Has(ds, p + Len(i) + 7, d)
  {
    hide Flows, Len, AtBoundaries, Passes;
    var drop := I(Instr(W_CTS, 1));
    DropPasses(1, d + 1, s);
    DropLen();
    LenCat(i, [drop]);
    LenCat(t, [drop]);
    var q := p + Len(i) + 7;
    var d1 := PieceThen(i, di, drop.i, p, d, d + 1, d, s);
    var d2 := PieceThen(t, dt, drop.i, q, d, d + 1, d, s);
    PieceCat(t + [drop], d2, c, dc, q, d, d, d + 1, s);
    PieceJump(i + [drop], d1, W_JMP, Len(t) + 7, t + [drop] + c, d2 + dc, p, d, d, d, d + 1, s);
    ds := d1 + (d2 + dc);
    assert i + [drop] + [With(W_JMP, Len(t) + 7)] + (t + [drop] + c) == ForHead(i, t, c);
  }

  lemma DropPasses(n: nat, d: nat, s: Setting)
    requires n <= d && (s.exact ==> n <= 255)
    ensures Passes(Instr(W_CTS, n % 256), d, d - n, s)
  {
  }

  lemma ForeachHeadPiece(e: seq<Item>, de: Depths, reverse: bool, p: int, d: nat, s: Setting) returns (ds: Depths)
    requires Piece(e, p, de, d, d + 1, s)
    ensures Piece(ForeachHead(e, reverse), p, ds, d, d + 2, s) && Has(ds, p + Len(e) + 6, d + 1)
  {
    hide Flows, Len, AtBoundaries, Passes, OperandSize;
    var first, next := Instr(if reverse then W_ITL else W_ITF, 0), Instr(if reverse then W_ITP else W_ITN, 0);
    StepPasses(first, d + 1, s);
    StepPasses(next, d + 1, s);
    IterSizes();
    OneLen(I(first));
    OneLen(I(next));
    LenCat(e, [I(first)]);
    var q := p + Len(e) + 6;
    var d1 := PieceThen(e, de, first, p, d, d + 1, d + 2, s);
    PieceOne(next, q, d + 1, d + 2, s);
    var d2 := map[q := d + 1, q + Size(next) := d + 2];
    PieceJump(e + [I(first)], d1, W_JMP, 6, [I(next)], d2, p, d, d + 2, d + 1, d + 2, s);
    ds := d1 + d2;
    assert e + [I(first)] + [With(W_JMP, 6)] + [I(next)] == ForeachHead(e, reverse);
  }

  lemma StepPasses(i: Instr, d: nat, s: Setting)
    requires i.op in {W_ITF, W_ITL, W_ITN, W_ITP} && d > 0
    ensures Passes(i, d, d + 1, s)
  {
  }

  // ----- row copies -----

  /** One field adds one value; its slots are those of the copy's operands. */
  lemma FieldPiece(k: nat, loff: nat, roff: nat, op: Byte, p: int, d: nat, s: Setting) returns (ds: Depths)
    requires KindOf(op) == Stores && k + 4 <= d
    ensures Piece(FieldCode(k, loff, roff, op), p, ds, d, d + 1, s)
  {
    hide Piece, Passes, KindOf;
    PieceEmpty(p, d, s);
    ds := AddressPiece([], map[p := d], k, loff, p, d, d, s);
    var l := [Iter(k), With(W_SELF, loff), Iter(k + 1), Op(W_INDF)];
    assert [] + l == l;
    ds := AddressPiece(l, ds, k + 2, roff, p, d, d + 1, s);
    OperatorPasses(op, d + 2, s);
    var r := [Iter(k + 2), With(W_SELF, roff), Iter(k + 3), Op(W_INDF)];
    ds := PieceThen(l + r, ds, Instr(op, 0), p, d, d + 2, d + 1, s);
    assert l + r + [I(Instr(op, 0))] == FieldCode(k, loff, roff, op);
  }

  lemma AddressPiece(a: seq<Item>, da: Depths, k: nat, off: nat, p: int, d0: int, d: nat, s: Setting) returns (ds: Depths)
    requires Piece(a, p, da, d0, d, s) && k + 2 <= d
    ensures Piece(a + [Iter(k), With(W_SELF, off), Iter(k + 1), Op(W_INDF)], p, ds, d0, d + 1, s)
  {
    hide Piece, Passes;
    SelfPasses(off, d + 1, s);
    ds := PieceIter(a, da, k, p, d0, d, s);
    ds := PieceThen(a + [Iter(k)], ds, Instr(W_SELF, off), p, d0, d + 1, d + 1, s);
    ds := PieceIter(a + [Iter(k)] + [I(Instr(W_SELF, off))], ds, k + 1, p, d0, d + 1, s);
    ds := PieceThen(a + [Iter(k)] + [I(Instr(W_SELF, off))] + [Iter(k + 1)], ds, Instr(W_INDF, 0), p, d0, d + 2, d + 1, s);
    assert a + [Iter(k)] + [I(Instr(W_SELF, off))] + [Iter(k + 1)] + [I(Instr(W_INDF, 0))]
        == a + [Iter(k), With(W_SELF, off), Iter(k + 1), Op(W_INDF)];
  }

  lemma SelfPasses(off: nat, d: nat, s: Setting)
    requires d > 0
    ensures Passes(Instr(W_SELF, off), d, d, s) && Passes(Instr(W_INDF, 0), d + 1, d, s)
  {
  }

  lemma {:induction false} FieldsPiece(pairs: seq<Pair>, k: nat, pool: seq<Byte>, p: int, d: nat, s: Setting) returns (ds: Depths)
    requires GenFields(pairs, k, pool).Some? && k + 4 <= d
    ensures Piece(GenFields(pairs, k, pool).value.code, p, ds, d, d + |pairs|, s)
    decreases pairs
  {
    hide Piece, CopyOpcode, FieldCode, ConstantPool.Add, Len, KindOf, ConstantPool.Holds;
    if pairs == [] {
      PieceEmpty(p, d, s);
      ds := map[p := d];
    } else {
      var a := ConstantPool.Add(pool, pairs[0].l.name);
      var b := ConstantPool.Add(a.1, pairs[0].r.name);
      var f := FieldCode(k, a.0, b.0, CopyOpcode(pairs[0]));
      SimulateCopy.CopyOpcodeKind(pairs[0]);
      var df := FieldPiece(k, a.0, b.0, CopyOpcode(pairs[0]), p, d, s);
      var dr := FieldsPiece(pairs[1..], k, b.1, p + Len(f), d + 1, s);
      PieceCat(f, df, GenFields(pairs[1..], k, b.1).value.code, dr, p, d, d + 1, d + |pairs|, s);
      ds := df + dr;
    }
  }

  lemma CopyPiece(st: Stmt, env: Env, p: int, s: Setting) returns (ds: Depths)
    requires (st.RowCopy? || st.RowCopyFree?) && GenStmt(st, env).Some? && Measured(st, env, s) && Fit(env, s)
    ensures Piece(GenStmt(st, env).value.code, p, ds, |env.iters|, |env.iters|, s)
  {
    hide GenExp, Piece, Fit, Len, SelectPairs, SharedPairs, GenFields, Passes;
    var d := |env.iters|;
    var h := GenCopyHead(st.lt, st.li, st.rt, st.ri, env).value;
    var pairs := if st.RowCopyFree? then SharedPairs(h.left, h.right) else SelectPairs(h.left, st.lsel, h.right, st.rsel).value;
    var f := GenFields(pairs, d, env.pool).value.code;
    var a, b, c, e := GenExp(st.lt, env).value.code, GenExp(st.li, env).value.code, GenExp(st.rt, env).value.code,
                      GenExp(st.ri, env).value.code;
    var da := ExpPiece(st.lt, env, p, d, s);
    var db := ExpPiece(st.li, env, p + Len(a), d + 1, s);
    PieceCat(a, da, b, db, p, d, d + 1, d + 2, s);
    var dc := ExpPiece(st.rt, env, p + Len(a + b), d + 2, s);
    PieceCat(a + b, da + db, c, dc, p, d, d + 2, d + 3, s);
    var de := ExpPiece(st.ri, env, p + Len(a + b + c), d + 3, s);
    PieceCat(a + b + c, da + db + dc, e, de, p, d, d + 3, d + 4, s);
    var df := FieldsPiece(pairs, d, env.pool, p + Len(h.code), d + 4, s);
    PieceCat(h.code, da + db + dc + de, f, df, p, d, d + 4, d + 4 + |pairs|, s);
    DropPasses(4 + |pairs|, d + 4 + |pairs|, s);
    ds := PieceThen(h.code + f, da + db + dc + de + df, Instr(W_CTS, (4 + |pairs|) % 256), p, d, d + 4 + |pairs|, d, s);
  }

  // ----- statements -----

  /** A statement's code, at the depth of the enclosing iterators. */
  ghost predicate StmtPiece(st: Stmt, env: Env, p: int, ds: Depths, s: Setting)
    requires GenStmt(st, env).Some?
  {
    Piece(GenStmt(st, env).value.code, p, ds, |env.iters|, |env.iters|, s)
  }

  /** Where depths are followed, the one-byte counts have to be right. */
  predicate Measured(st: Stmt, env: Env, s: Setting)
    requires GenStmt(st, env).Some?
  {
    s.exact ==> Narrow(st, env)
  }

  predicate Inside(env: Env, s: Setting) {
    s.brk == |env.iters| && s.cont == |env.iters|
  }

  lemma {:induction false} StmtDepth(st: Stmt, env: Env, p: int, s: Setting) returns (ds: Depths)
    requires GenStmt(st, env).Some? && Measured(st, env, s) && Fit(GenStmt(st, env).value.env, s) && Inside(env, s)
    ensures StmtPiece(st, env, p, ds, s)
    decreases st, 1
  {
    hide GenStmt, GenChain, Piece, Fit, Narrow, Len, StmtPiece, GenExp;
    FitBefore(st, env, s);
    match st
    case Seq(_, _) => ds := SeqDepth(st, env, p, s);
    case If(_) => ds := IfDepth(st, env, p, s);
    case While(_, _) => ds := LoopDepth(st, env, p, s);
    case For(_, _, _, _) => ds := LoopDepth(st, env, p, s);
    case Until(_, _) => ds := UntilDepth(st, env, p, s);
    case Foreach(_, _, _, _) => ds := ForeachDepth(st, env, p, s);
    case RowCopy(_, _, _, _, _, _) => ds := CopyDepth(st, env, p, s);
    case RowCopyFree(_, _, _, _) => ds := CopyDepth(st, env, p, s);
    case _ => ds := SimpleDepth(st, env, p, s);
  }

  lemma FitBefore(st: Stmt, env: Env, s: Setting)
    requires GenStmt(st, env).Some? && Fit(GenStmt(st, env).value.env, s)
    ensures Fit(env, s)
  {
    hide GenStmt;
    StmtGrows(st, env);
  }

  lemma CopyDepth(st: Stmt, env: Env, p: int, s: Setting) returns (ds: Depths)
    requires (st.RowCopy? || st.RowCopyFree?) && GenStmt(st, env).Some? && Measured(st, env, s) && Fit(env, s)
    ensures StmtPiece(st, env, p, ds, s)
  {
    hide Piece, GenStmt;
    ds := CopyPiece(st, env, p, s);
  }

  lemma SimpleDepth(st: Stmt, env: Env, p: int, s: Setting) returns (ds: Depths)
    requires GenStmt(st, env).Some? && Measured(st, env, s)
    requires Fit(GenStmt(st, env).value.env, s) && Fit(env, s) && Inside(env, s)
    requires st.Skip? || st.ExpStmt? || st.Decl? || st.Assign? || st.Break? || st.Continue? || st.Return?
    ensures StmtPiece(st, env, p, ds, s)
  {
    hide GenExp, Piece, Passes, Lookup, StoreOpcode, Returnable, Len;
    var d := |env.iters|;
    match st
    case Skip => PieceEmpty(p, d, s); ds := map[p := d];
    case Decl(_, _) => PieceEmpty(p, d, s); ds := map[p := d];
    case ExpStmt(e) => ds := DropPiece(e, env, p, s);
    case Assign(name, e) =>
      if Lookup(env.locals, name).Some? {
        assert FewMissing(Id(name), env.procs);
        ds := DropPiece(Exp.Store(Id(name), e), env, p, s);
      } else {
        ds := AutoPiece(e, env, p, s);
      }
    case Return(e) => ds := ReturnPiece(e, env, p, s);
    case Break => OpenPiece(Brk, p, d, s); ds := map[p := d, p + 5 := d];
    case Continue => OpenPiece(Cont, p, d, s); ds := map[p := d, p + 5 := d];
  }

  lemma OpenPiece(x: Item, p: int, d: nat, s: Setting)
    requires (x.Brk? || x.Cont?) && s.brk == d && s.cont == d
    ensures Piece([x], p, map[p := d, p + 5 := d], d, d, s)
  {
    OneLen(x);
    assert [x][1..] == [];
    BackBoundary(x, p);
    assert Boundary([x], p, p);
  }

  lemma DropPiece(e: Exp, env: Env, p: int, s: Setting) returns (ds: Depths)
    requires GenExp(e, env).Some? && Fit(env, s) && Countable(e, env, s)
    ensures Piece(GenExp(e, env).value.code + [Drop(1)], p, ds, |env.iters|, |env.iters|, s)
  {
    hide GenExp, Piece, Passes;
    var d := |env.iters|;
    ds := ExpPiece(e, env, p, d, s);
    DropPasses(1, d + 1, s);
    ds := PieceThen(GenExp(e, env).value.code, ds, Instr(W_CTS, 1), p, d, d + 1, d, s);
  }

  lemma AutoPiece(e: Exp, env: Env, p: int, s: Setting) returns (ds: Depths)
    requires GenExp(e, env).Some? && StoreOpcode(GenExp(e, env).value.ty, GenExp(e, env).value.ty) != W_NA
    requires Fit(env, s) && Countable(e, env, s) && |env.locals| < s.locals
    ensures Piece(AutoCode(|env.locals|, GenExp(e, env).value) + [Drop(1)], p, ds, |env.iters|, |env.iters|, s)
  {
    hide GenExp, Piece, Passes, StoreOpcode, Len, KindOf;
    var d, k, c := |env.iters|, |env.locals|, GenExp(e, env).value;
    var load := LoadLocal(k).i;
    LoadPasses(k, d, s);
    PieceOne(load, p, d, d + 1, s);
    var dl := map[p := d, p + Size(load) := d + 1];
    var dc := ExpPiece(e, env, p + Len([I(load)]), d + 1, s);
    PieceCat([I(load)], dl, c.code, dc, p, d, d + 1, d + 2, s);
    var op := StoreOpcode(c.ty, c.ty);
    SimulateExp.StoreOpcodeKind(c.ty, c.ty);
    OperatorPasses(op, d + 2, s);
    ds := PieceThen([I(load)] + c.code, dl + dc, Instr(op, 0), p, d, d + 2, d + 1, s);
    DropPasses(1, d + 1, s);
    ds := PieceThen(AutoCode(k, c), ds, Instr(W_CTS, 1), p, d, d + 1, d, s);
  }

  lemma LoadPasses(k: nat, d: nat, s: Setting)
    requires k < s.locals
    ensures LoadLocal(k).I? && Passes(LoadLocal(k).i, d, d + 1, s)
  {
  }

  lemma ReturnPiece(e: Exp, env: Env, p: int, s: Setting) returns (ds: Depths)
    requires GenExp(e, env).Some? && Fit(env, s) && Countable(e, env, s)
    ensures Piece(GenExp(e, env).value.code + [Op(W_RET)], p, ds, |env.iters|, |env.iters|, s)
  {
    hide GenExp, Flows, Len, Boundary;
    var d, c := |env.iters|, GenExp(e, env).value.code;
    var q := p + Len(c);
    var de := ExpPiece(e, env, p, d, s);
    RetPiece(q, d, s);
    var dr := map[q := d + 1, q + 1 := d];
    PieceCat(c, de, [Op(W_RET)], dr, p, d, d + 1, d, s);
    ds := de + dr;
  }

  lemma RetPiece(p: int, d: nat, s: Setting)
    ensures Piece([Op(W_RET)], p, map[p := d + 1, p + 1 := d], d + 1, d, s)
  {
    var ds := map[p := d + 1, p + 1 := d];
    OneLen(Op(W_RET));
    assert Boundary([Op(W_RET)][1..], p + 1, p + 1) && Boundary([Op(W_RET)], p, p + 1) && Boundary([Op(W_RET)], p, p);
    assert Flows([Op(W_RET)][1..], p + 1, ds, s) && Sound(Op(W_RET), p, ds, s);
  }

  lemma SeqDepth(st: Stmt, env: Env, p: int, s: Setting) returns (ds: Depths)
    requires st.Seq? && GenStmt(st, env).Some? && Measured(st, env, s) && Fit(GenStmt(st, env).value.env, s) && Inside(env, s)
    ensures StmtPiece(st, env, p, ds, s)
    decreases st, 0
  {
    hide Piece, Fit, Len;
    var a := GenStmt(st.s1, env).value;
    var b := GenStmt(st.s2, a.env).value;
    StmtGrows(st.s1, env);
    FitBefore(st.s2, a.env, s);
    var da := StmtDepth(st.s1, env, p, s);
    var db := StmtDepth(st.s2, a.env, p + Len(a.code), s);
    PieceCat(a.code, da, b.code, db, p, |env.iters|, |env.iters|, |env.iters|, s);
    ds := da + db;
  }

  lemma IfDepth(st: Stmt, env: Env, p: int, s: Setting) returns (ds: Depths)
    requires st.If? && GenStmt(st, env).Some? && Measured(st, env, s) && Fit(GenStmt(st, env).value.env, s) && Inside(env, s)
    ensures StmtPiece(st, env, p, ds, s)
    decreases st, 0
  {
    hide Piece, Fit, Len, GenChain, NarrowChain;
    ds := ChainDepth(st.chain, env, p, s);
  }

  lemma {:induction false} ChainDepth(c: Chain, env: Env, p: int, s: Setting) returns (ds: Depths)
    requires GenChain(c, env).Some? && (s.exact ==> NarrowChain(c, env)) && Fit(GenChain(c, env).value.env, s) && Inside(env, s)
    ensures Piece(GenChain(c, env).value.code, p, ds, |env.iters|, |env.iters|, s)
    decreases c, 0
  {
    hide Piece, Fit, Len, GenChain, GenStmt, GenExp, Narrow, NarrowChain;
    var d := |env.iters|;
    ChainParts(c, env);
    if s.exact { NarrowParts(c, env); }
    ChainFit(c, env, s);
    var x, b := GenExp(c.c, env).value.code, GenStmt(c.body, env).value;
    StmtGrows(c.body, env);
    var dx := ExpPiece(c.c, env, p, d, s);
    var db := StmtDepth(c.body, env, p + Len(x) + 5, s);
    match c.tail
    case NoElse => ds := OnlyPiece(x, dx, b.code, db, p, d, s);
    case Else(t) =>
      var de := StmtDepth(t, b.env, p + Len(x) + 5 + Len(b.code) + 5, s);
      ds := ChoicePiece(x, dx, b.code, db, GenStmt(t, b.env).value.code, de, p, d, d, s);
    case ElseIf(next) =>
      var de := ChainDepth(next, b.env, p + Len(x) + 5 + Len(b.code) + 5, s);
      ds := ChoicePiece(x, dx, b.code, db, GenChain(next, b.env).value.code, de, p, d, d, s);
  }

  lemma ChainFit(c: Chain, env: Env, s: Setting)
    requires GenChain(c, env).Some? && Fit(GenChain(c, env).value.env, s)
    ensures GenStmt(c.body, env).Some? && Fit(GenStmt(c.body, env).value.env, s) && Fit(env, s)
  {
    hide GenStmt, GenExp, IfCode, IfElseCode;
    ChainGrows(c, env);
    StmtGrows(c.body, env);
    var env1 := GenStmt(c.body, env).value.env;
    match c.tail
    case NoElse =>
    case Else(body) => StmtGrows(body, env1);
    case ElseIf(next) => ChainGrows(next, env1);
  }

  /** A branch that may be skipped. */
  lemma OnlyPiece(c: seq<Item>, dc: Depths, b: seq<Item>, db: Depths, p: int, d: nat, s: Setting) returns (ds: Depths)
    requires Piece(c, p, dc, d, d + 1, s) && Piece(b, p + Len(c) + 5, db, d, d, s)
    ensures Piece(IfCode(c, b), p, ds, d, d, s)
  {
    hide Flows, Len, AtBoundaries;
    PieceJump(c, dc, W_JFC, Len(b) + 5, b, db, p, d, d + 1, d, d, s);
    ds := dc + db;
  }

  lemma LoopDepth(st: Stmt, env: Env, p: int, s: Setting) returns (ds: Depths)
    requires (st.While? || st.For?) && GenStmt(st, env).Some? && Measured(st, env, s) && Fit(GenStmt(st, env).value.env, s)
    requires Inside(env, s)
    ensures StmtPiece(st, env, p, ds, s)
    decreases st, 0
  {
    hide Fit, Len, GenStmt, GenExp, Narrow, ForHead, LoopCode, Piece;
    var d := |env.iters|;
    LoopEquation(st, env);
    BodyFits(st, env, s);
    var b := GenStmt(st.body, InLoop(env)).value;
    var c := GenExp(st.c, env).value.code;
    if st.While? {
      var dh := ExpPiece(st.c, env, p, d, s);
      var db := StmtDepth(st.body, InLoop(env), p + Len(c) + 5, s);
      PieceStarts(c, p, dh, d, d + 1, s);
      ds := LoopPiece(c, dh, b.code, db, 0, p, d, d, s);
    } else {
      var i, t := GenExp(st.init, env).value.code, GenExp(st.step, env).value.code;
      var di := ExpPiece(st.init, env, p, d, s);
      var dt := ExpPiece(st.step, env, p + Len(i) + 7, d, s);
      var dc := ExpPiece(st.c, env, p + Len(i) + 7 + Len(t) + 2, d, s);
      var dh := ForHeadPiece(i, di, t, dt, c, dc, p, d, s);
      var db := StmtDepth(st.body, InLoop(env), p + Len(ForHead(i, t, c)) + 5, s);
      ds := LoopPiece(ForHead(i, t, c), dh, b.code, db, Len(i) + 7, p, d, d, s);
    }
  }

  lemma PieceStarts(c: seq<Item>, p: int, ds: Depths, d0: int, d1: int, s: Setting)
    requires Piece(c, p, ds, d0, d1, s)
    ensures Has(ds, p, d0)
  {
  }

  lemma BodyFits(st: Stmt, env: Env, s: Setting)
    requires (st.While? || st.For? || st.Until?) && GenStmt(st, env).Some? && Measured(st, env, s) && Fit(GenStmt(st, env).value.env, s)
    ensures Fit(env, s) && GenStmt(st.body, InLoop(env)).Some? && Fit(GenStmt(st.body, InLoop(env)).value.env, s)
    ensures Measured(st.body, InLoop(env), s) && GenStmt(st.body, InLoop(env)).value.env.iters == env.iters
    ensures st.For? ==> Countable(st.init, env, s) && Countable(st.step, env, s)
    ensures Countable(st.c, env, s) && Countable(st.c, GenStmt(st.body, InLoop(env)).value.env, s)
  {
    hide GenExp, LoopCode, UntilCode;
    StmtGrows(st, env);
    StmtGrows(st.body, InLoop(env));
  }

  lemma UntilDepth(st: Stmt, env: Env, p: int, s: Setting) returns (ds: Depths)
    requires st.Until? && GenStmt(st, env).Some? && Measured(st, env, s) && Fit(GenStmt(st, env).value.env, s) && Inside(env, s)
    ensures StmtPiece(st, env, p, ds, s)
    decreases st, 0
  {
    hide Fit, Len, GenStmt, GenExp, Narrow, UntilCode, Piece;
    var d := |env.iters|;
    UntilEquation(st, env);
    BodyFits(st, env, s);
    var b := GenStmt(st.body, InLoop(env)).value;
    var db := StmtDepth(st.body, InLoop(env), p, s);
    var dc := ExpPiece(st.c, b.env, p + Len(b.code), d, s);
    ds := UntilPiece(b.code, db, GenExp(st.c, b.env).value.code, dc, p, d, s);
  }

  lemma ForeachDepth(st: Stmt, env: Env, p: int, s: Setting) returns (ds: Depths)
    requires st.Foreach? && GenStmt(st, env).Some? && Measured(st, env, s) && Fit(GenStmt(st, env).value.env, s) && Inside(env, s)
    ensures StmtPiece(st, env, p, ds, s)
    decreases st, 0
  {
    hide Fit, Len, GenStmt, GenExp, Narrow, ForeachHead, LoopCode, Piece, Passes;
    var d := |env.iters|;
    ForeachEquation(st, env);
    ForeachFits(st, env, s);
    var c := GenExp(st.e, env).value;
    var inner := Enter(st.it, c.ty, env);
    var b := GenStmt(st.body, inner).value.code;
    var head := ForeachHead(c.code, st.reverse);
    var de := ExpPiece(st.e, env, p, d, s);
    var dh := ForeachHeadPiece(c.code, de, st.reverse, p, d, s);
    var db := StmtDepth(st.body, inner, p + Len(head) + 5, s.(brk := d + 1, cont := d + 1));
    ds := LoopPiece(head, dh, b, db, Len(c.code) + 6, p, d, d + 1, s);
    DropPasses(1, d + 1, s);
    ds := PieceThen(LoopCode(head, b, Len(c.code) + 6), ds, Instr(W_CTS, 1), p, d, d + 1, d, s);
  }

  lemma ForeachFits(st: Stmt, env: Env, s: Setting)
    requires st.Foreach? && GenStmt(st, env).Some? && Measured(st, env, s) && Fit(GenStmt(st, env).value.env, s)
    ensures Fit(env, s) && GenExp(st.e, env).Some? && GenExp(st.e, env).value.ty.Array? && Countable(st.e, env, s)
    ensures var inner := Enter(st.it, GenExp(st.e, env).value.ty, env);
            && GenStmt(st.body, inner).Some? && (s.exact ==> Narrow(st.body, inner))
            && forall k :: Fit(GenStmt(st.body, inner).value.env, s.(brk := k, cont := k))
  {
    hide GenExp, LoopCode, ForeachCode, Lookup;
    StmtGrows(st, env);
    StmtGrows(st.body, Enter(st.it, GenExp(st.e, env).value.ty, env));
  }
}
