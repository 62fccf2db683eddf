/** Every expression leaves one value more on the stack, every statement leaves
    the depth as it was, whatever path is taken. */
module StackDepthCode {
  import opened Bytes
  import opened Syntax
  import opened Instructions
  import opened Operators
  import opened Code
  import opened Compiler
  import opened ByteCounts
  import opened GeneratorLemmas
  import opened Machine
  import opened StackDepth
  import SimulateExp

  /** The frame has room for the declared locals. */
  predicate Fit(env: Env, s: Setting) {
    |env.locals| <= s.locals && s.procs == env.procs
  }

  /** Where depths are followed, no call may leave out more than 255 arguments. */
  predicate Countable(e: Exp, env: Env, s: Setting) {
    s.exact ==> FewMissing(e, env.procs)
  }

  lemma PieceIter(a: seq<Item>, da: Depths, k: nat, p: int, d0: int, d1: nat, s: Setting) returns (ds: Depths)
    requires Piece(a, p, da, d0, d1, s) && k < d1
    ensures Piece(a + [Iter(k)], p, ds, d0, d1 + 1, s)
  {
    hide Flows, Len, Boundary;
    var q := p + Len(a);
    var di := map[q := d1, q + 5 := d1 + 1];
    OneIter(k, q, d1, s);
    PieceCat(a, da, [Iter(k)], di, p, d0, d1, d1 + 1, s);
    ds := da + di;
  }

  lemma OneIter(k: nat, p: int, d: nat, s: Setting)
    requires k < d
    ensures Piece([Iter(k)], p, map[p := d, p + 5 := d + 1], d, d + 1, s)
  {
    var ds := map[p := d, p + 5 := d + 1];
    OneLen(Iter(k));
    assert [Iter(k)][1..] == [];
    assert Boundary([Iter(k)][1..], p + 5, p + 5) && Boundary([Iter(k)], p, p + 5);
    assert Flows([Iter(k)][1..], p + 5, ds, s) && Sound(Iter(k), p, ds, s);
  }

  // ----- expressions -----

  lemma {:induction false} ExpPiece(e: Exp, env: Env, p: int, d: nat, s: Setting) returns (ds: Depths)
    requires GenExp(e, env).Some? && Fit(env, s) && Countable(e, env, s) && |env.iters| <= d
    ensures Piece(GenExp(e, env).value.code, p, ds, d, d + 1, s)
    decreases e, 1
  {
    hide GenExp, Piece, Fit;
    match e
    case Not(_) => ds := UnaryPiece(e, env, p, d, s);
    case IsNull(_, _) => ds := UnaryPiece(e, env, p, d, s);
    case Bin(_, _, _) => ds := OperatorPiece(e, env, p, d, s);
    case Store(_, _) => ds := OperatorPiece(e, env, p, d, s);
    case Index(_, _) => ds := OperatorPiece(e, env, p, d, s);
    case Sel(_, _, _) => ds := SelPiece(e, env, p, d, s);
    case Call(_, _) => ds := CallPiece(e, env, p, d, s);
    case OffsetOf(_) => ds := OffsetPiece(e, env, p, d, s);
    case _ => ds := LeafPiece(e, env, p, d, s);
  }

  lemma LeafPiece(e: Exp, env: Env, p: int, d: nat, s: Setting) returns (ds: Depths)
    requires GenExp(e, env).Some? && Fit(env, s) && Countable(e, env, s) && |env.iters| <= d && (e.NullC? || e.BoolC? || e.IntC? || e.Id?)
    ensures Piece(GenExp(e, env).value.code, p, ds, d, d + 1, s)
  {
    hide CommonType, StoreOpcode, BinCode, Passable, Piece;
    var c := GenExp(e, env).value.code;
    if c[0].Iter? {
      OneIter(c[0].k, p, d, s);
      ds := map[p := d, p + 5 := d + 1];
    } else {
      PieceOne(c[0].i, p, d, d + 1, s);
      ds := map[p := d, p + Size(c[0].i) := d + 1];
      assert c == [I(c[0].i)];
    }
  }

  lemma OffsetPiece(e: Exp, env: Env, p: int, d: nat, s: Setting) returns (ds: Depths)
    requires GenExp(e, env).Some? && |env.iters| <= d && e.OffsetOf?
    ensures Piece(GenExp(e, env).value.code, p, ds, d, d + 1, s)
  {
    hide Piece;
    var k := Lookup(env.iters, e.name).value;
    OneIter(k, p, d, s);
    ds := PieceThen([Iter(k)], map[p := d, p + 5 := d + 1], Instr(W_ITOFF, 0), p, d, d + 1, d + 1, s);
    assert [Iter(k)] + [I(Instr(W_ITOFF, 0))] == GenExp(e, env).value.code;
  }

  lemma UnaryPiece(e: Exp, env: Env, p: int, d: nat, s: Setting) returns (ds: Depths)
    requires GenExp(e, env).Some? && Fit(env, s) && Countable(e, env, s) && |env.iters| <= d && (e.Not? || e.IsNull?)
    ensures Piece(GenExp(e, env).value.code, p, ds, d, d + 1, s)
    decreases e, 0
  {
    hide GenExp, Piece, Fit, Passes;
    UnaryEquation(e, env);
    var a := GenExp(e.e, env).value.code;
    var i := GenExp(e, env).value.code[|a|].i;
    ds := ExpPiece(e.e, env, p, d, s);
    UnaryPasses(i, d + 1, s);
    ds := PieceThen(a, ds, i, p, d, d + 1, d + 1, s);
  }

  lemma UnaryPasses(i: Instr, d: nat, s: Setting)
    requires i.op in {W_NOT, W_NOTB, W_INULL, W_NNULL} && d > 0
    ensures Passes(i, d, d, s)
  {
  }

  lemma OperatorPasses(op: Byte, d: nat, s: Setting)
    requires KindOf(op) in {Binary, Stores, Indexing} && d >= 2
    ensures Passes(Instr(op, 0), d, d - 1, s)
  {
  }

  lemma OperatorKind(e: Exp, a: Ty, b: Ty)
    requires (e.Bin? || e.Store? || e.Index?) && OperatorOf(e, a, b) != W_NA
    ensures KindOf(OperatorOf(e, a, b)) in {Binary, Stores, Indexing}
  {
    hide BinOpcode, StoreOpcode, KindOf;
    if e.Bin? {
      SimulateExp.BinOpcodeKind(e.op, a.base, b.base);
    } else if e.Store? {
      SimulateExp.StoreOpcodeKind(a, b);
    } else {
      IndexKind();
    }
  }

  lemma IndexKind()
    ensures KindOf(W_INDA) == Indexing
  {
  }

  lemma OperatorPiece(e: Exp, env: Env, p: int, d: nat, s: Setting) returns (ds: Depths)
    requires GenExp(e, env).Some? && Fit(env, s) && Countable(e, env, s) && |env.iters| <= d && (e.Bin? || e.Store? || e.Index?)
    ensures Piece(GenExp(e, env).value.code, p, ds, d, d + 1, s)
    decreases e, 0
  {
    hide GenExp, Piece, Fit, Passes, Len, OperatorOf, KindOf;
    OperatorParts(e, env);
    var a, b := GenExp(e.l, env).value, GenExp(e.r, env).value;
    var op := OperatorOf(e, a.ty, b.ty);
    OperatorKind(e, a.ty, b.ty);
    OperatorPasses(op, d + 2, s);
    var da := ExpPiece(e.l, env, p, d, s);
    if Decides(e, a.ty) {
      var q := p + Len(a.code) + 5;
      var db := ExpPiece(e.r, env, q, d + 1, s);
      db := PieceThen(b.code, db, Instr(op, 0), q, d + 1, d + 2, d + 1, s);
      var jump := if e.op.And? then W_JF else W_JT;
      ds := ShortPiece(a.code, da, jump, b.code, op, db, p, d, s) by { OperatorSize(e, a.ty, b.ty); }
    } else {
      var db := ExpPiece(e.r, env, p + Len(a.code), d + 1, s);
      PieceCat(a.code, da, b.code, db, p, d, d + 1, d + 2, s);
      ds := PieceThen(a.code + b.code, da + db, Instr(op, 0), p, d, d + 2, d + 1, s);
    }
  }

  lemma ShortPiece(a: seq<Item>, da: Depths, jump: Byte, b: seq<Item>, op: Byte, db: Depths, p: int, d: nat, s: Setting)
    returns (ds: Depths)
    requires Piece(a, p, da, d, d + 1, s) && (jump == W_JF || jump == W_JT) && OperandSize(op) == 0
    requires Piece(b + [I(Instr(op, 0))], p + Len(a) + 5, db, d + 1, d + 1, s)
    ensures Piece(ShortCode(a, jump, b, op), p, ds, d, d + 1, s)
  {
    hide Flows, Len, AtBoundaries, OperandSize;
    var tail := b + [I(Instr(op, 0))];
    LenCat(b, [I(Instr(op, 0))]);
    OneLen(I(Instr(op, 0)));
    PieceJump(a, da, jump, Len(b) + 6, tail, db, p, d, d + 1, d + 1, d + 1, s);
    ds := da + db;
    assert a + [With(jump, Len(b) + 6)] + tail == ShortCode(a, jump, b, op);
  }

  /** Two branches of which one runs. */
  lemma ChoicePiece(c: seq<Item>, dc: Depths, l: seq<Item>, dl: Depths, r: seq<Item>, dr: Depths, p: int, d: nat, d1: nat,
                    s: Setting) returns (ds: Depths)
    requires Piece(c, p, dc, d, d + 1, s) && Piece(l, p + Len(c) + 5, dl, d, d1, s)
    requires Piece(r, p + Len(c) + 5 + Len(l) + 5, dr, d, d1, s)
    ensures Piece(SelCode(c, l, r), p, ds, d, d1, s)
  {
    hide Flows, Len, AtBoundaries;
    var q := p + Len(c) + 5;
    var rest := l + [With(W_JMP, Len(r) + 5)] + r;
    PieceJump(l, dl, W_JMP, Len(r) + 5, r, dr, q, d, d1, d, d1, s);
    PieceJump(c, dc, W_JFC, Len(l) + 10, rest, dl + dr, p, d, d + 1, d, d1, s);
    ds := dc + (dl + dr);
    assert c + [With(W_JFC, Len(l) + 10)] + rest == SelCode(c, l, r);
  }

  lemma SelPiece(e: Exp, env: Env, p: int, d: nat, s: Setting) returns (ds: Depths)
    requires GenExp(e, env).Some? && Fit(env, s) && Countable(e, env, s) && |env.iters| <= d && e.Sel?
    ensures Piece(GenExp(e, env).value.code, p, ds, d, d + 1, s)
    decreases e, 0
  {
    hide GenExp, Piece, Fit, Len, CommonType;
    SelectParts(e, env);
    var c, l, r := GenExp(e.c, env).value.code, GenExp(e.l, env).value.code, GenExp(e.r, env).value.code;
    var dc := ExpPiece(e.c, env, p, d, s);
    var dl := ExpPiece(e.l, env, p + Len(c) + 5, d, s);
    var dr := ExpPiece(e.r, env, p + Len(c) + 5 + Len(l) + 5, d, s);
    ds := ChoicePiece(c, dc, l, dl, r, dr, p, d, d + 1, s);
  }

  lemma {:induction false} ArgsPiece(args: Args, params: seq<Ty>, env: Env, p: int, d: nat, s: Setting) returns (ds: Depths)
    requires GenArgs(args, params, env).Some? && Fit(env, s) && |env.iters| <= d
    requires s.exact ==> ArgsFewMissing(args, env.procs)
    ensures Piece(GenArgs(args, params, env).value, p, ds, d, d + ArgCount(args), s)
    decreases args
  {
    hide GenExp, Piece, Fit, Len, Passable;
    match args
    case NoArgs =>
      PieceEmpty(p, d, s);
      ds := map[p := d];
    case Arg(e, tail) =>
      var a, b := GenExp(e, env).value.code, GenArgs(tail, params[1..], env).value;
      var da := ExpPiece(e, env, p, d, s);
      var db := ArgsPiece(tail, params[1..], env, p + Len(a), d + 1, s);
      PieceCat(a, da, b, db, p, d, d + 1, d + 1 + ArgCount(tail), s);
      ds := da + db;
  }

  /** W_CALL finds exactly the declared number of values on the stack. */
  lemma CallPiece(e: Exp, env: Env, p: int, d: nat, s: Setting) returns (ds: Depths)
    requires GenExp(e, env).Some? && Fit(env, s) && Countable(e, env, s) && |env.iters| <= d && e.Call?
    ensures Piece(GenExp(e, env).value.code, p, ds, d, d + 1, s)
    decreases e, 0
  {
    hide GenExp, GenArgs, Piece, Len, Passes;
    CallParts(e, env);
    var params := env.procs[e.proc].params;
    var a := GenArgs(e.args, params, env).value;
    var n := ArgCount(e.args);
    ds := ArgsPiece(e.args, params, env, p, d, s);
    var missing := |params| - n;
    CallPasses(e.proc, missing, d + n, s);
    var c := a;
    if n < |params| {
      ds := PieceThen(a, ds, Instr(W_LDNULL, missing % 256), p, d, d + n, d + |params|, s);
      c := a + [I(Instr(W_LDNULL, missing % 256))];
    }
    ds := PieceThen(c, ds, Instr(W_CALL, e.proc), p, d, d + |params|, d + 1, s);
    assert c + [I(Instr(W_CALL, e.proc))] == a + CallCode(e.proc, missing);
  }

  lemma CallPasses(proc: nat, missing: nat, d: nat, s: Setting)
    requires proc < |s.procs| && |s.procs[proc].params| <= d + missing && (s.exact ==> missing <= 255)
    ensures Passes(Instr(W_LDNULL, missing % 256), d, d + missing, s)
    ensures Passes(Instr(W_CALL, proc), d + missing, d + missing - |s.procs[proc].params| + 1, s)
  {
  }
}
