/** Every operand of compiled code fits its field, in a unit of ordinary size. */
module Limits {
  import opened Bytes
  import opened Wrappers
  import opened Syntax
  import opened Instructions
  import opened Operators
  import opened Code
  import opened Compiler
  import opened CompilerLemmas
  import opened OpenCode
  import opened Backpatch
  import opened GeneratorLemmas
  import ConstantPool

  const MAX32: nat := 0x1_0000_0000

  /** The item can be encoded; a jump goes at most span bytes far, a slot load
      has a number below slots. */
  predicate Small(x: Item, slots: nat, span: nat) {
    match x
    case I(i) =>
      && W_NA < i.op < W_OP_END_MARK
      && if IsJump(i.op) then 0 - span <= i.arg <= span else 0 <= i.arg < Pow256(OperandSize(i.op))
    case Iter(k) => k < slots
    case _ => true
  }

  predicate AllSmall(c: seq<Item>, slots: nat, span: nat) {
    forall x :: x in c ==> Small(x, slots, span)
  }

  lemma SmallCat(a: seq<Item>, b: seq<Item>, slots: nat, span: nat)
    ensures AllSmall(a + b, slots, span) <==> AllSmall(a, slots, span) && AllSmall(b, slots, span)
  {
    if AllSmall(a + b, slots, span) {
      assert forall x :: x in a || x in b ==> x in a + b;
    }
  }

  lemma SmallMore(c: seq<Item>, slots: nat, span: nat, slots': nat, span': nat)
    requires AllSmall(c, slots, span) && slots <= slots' && span <= span'
    ensures AllSmall(c, slots', span')
  {
    hide Pow256, OperandSize;
    forall x | x in c
      ensures Small(x, slots', span')
    {
    }
  }

  /** A single instruction. */
  lemma SmallOne(op: Byte, arg: int, slots: nat, span: nat)
    requires W_NA < op < W_OP_END_MARK
    requires if IsJump(op) then 0 - span <= arg <= span else 0 <= arg < Pow256(OperandSize(op))
    ensures AllSmall([With(op, arg)], slots, span)
  {
    hide Pow256, OperandSize;
  }

  lemma Powers()
    ensures Pow256(0) == 1 && Pow256(1) == 0x100 && Pow256(2) == 0x1_0000 && Pow256(4) == MAX32
    ensures Pow256(8) == 0x1_0000_0000_0000_0000
  {
    assert Pow256(2) == 256 * Pow256(1) && Pow256(3) == 256 * Pow256(2);
    assert Pow256(4) == 256 * Pow256(3) && Pow256(5) == 256 * Pow256(4);
    assert Pow256(6) == 256 * Pow256(5) && Pow256(7) == 256 * Pow256(6);
  }

  lemma LoadsSmall(n: UInt64, i: nat, slots: nat, span: nat)
    requires i < MAX32
    ensures AllSmall([LoadInt(n)], slots, span) && AllSmall([LoadLocal(i)], slots, span)
  {
    Powers();
  }

  /** No jump in the code is longer than the code. */
  predicate Fits(c: seq<Item>, slots: nat) {
    AllSmall(c, slots, Len(c))
  }

  lemma FitsCat(a: seq<Item>, b: seq<Item>, slots: nat)
    requires Fits(a, slots) && Fits(b, slots)
    ensures Fits(a + b, slots) && Len(a + b) == Len(a) + Len(b)
  {
    hide Small;
    LenCat(a, b);
    SmallMore(a, slots, Len(a), slots, Len(a + b));
    SmallMore(b, slots, Len(b), slots, Len(a + b));
    SmallCat(a, b, slots, Len(a + b));
  }

  lemma FitsOp(a: seq<Item>, op: Byte, arg: nat, slots: nat)
    requires Fits(a, slots) && W_NA < op < W_OP_END_MARK && !IsJump(op) && arg < Pow256(OperandSize(op))
    ensures Fits(a + [With(op, arg)], slots) && Len(a + [With(op, arg)]) == Len(a) + 1 + OperandSize(op)
  {
    hide Pow256, OperandSize;
    SmallOne(op, arg, slots, Len([With(op, arg)]));
    FitsCat(a, [With(op, arg)], slots);
    OneLen(With(op, arg));
  }

  /** A jump between two pieces of code, both possibly with longer jumps. */
  lemma FitsJump(a: seq<Item>, op: Byte, arg: int, b: seq<Item>, slots: nat, span: nat)
    requires IsJump(op) && AllSmall(a, slots, span) && AllSmall(b, slots, span) && 0 - span <= arg <= span
    ensures AllSmall(a + [With(op, arg)] + b, slots, span) && Len(a + [With(op, arg)] + b) == Len(a) + 5 + Len(b)
  {
    hide Pow256, OperandSize, Small;
    assert AllSmall([With(op, arg)], slots, span) by { SmallOne(op, arg, slots, span); }
    SmallCat(a + [With(op, arg)], b, slots, span);
    SmallCat(a, [With(op, arg)], slots, span);
    assert OperandSize(op) == 4 by { JumpWidth(op); }
    BoundJump(a, op, arg, b, 0, None);
  }

  lemma JumpWidth(op: Byte)
    requires IsJump(op)
    ensures OperandSize(op) == 4
  {
  }

  lemma FitsWithin(c: seq<Item>, slots: nat, slots': nat, span: nat)
    requires Fits(c, slots) && slots <= slots' && Len(c) <= span
    ensures AllSmall(c, slots', span)
  {
    hide Small;
    SmallMore(c, slots, Len(c), slots', span);
  }

  lemma SelFits(c: seq<Item>, a: seq<Item>, b: seq<Item>, slots: nat)
    requires Fits(c, slots) && Fits(a, slots) && Fits(b, slots)
    ensures Fits(SelCode(c, a, b), slots)
  {
    hide Small, Len, AllSmall;
    var span := Len(c) + 10 + Len(a) + Len(b);
    FitsWithin(c, slots, slots, span);
    FitsWithin(a, slots, slots, span);
    FitsWithin(b, slots, slots, span);
    FitsJump(c, W_JFC, Len(a) + 10, a, slots, span);
    FitsJump(c + [With(W_JFC, Len(a) + 10)] + a, W_JMP, Len(b) + 5, b, slots, span);
  }

  lemma IfFits(c: seq<Item>, b: seq<Item>, slots: nat)
    requires Fits(c, slots) && Fits(b, slots)
    ensures Fits(IfCode(c, b), slots)
  {
    hide Small, Len, AllSmall;
    var span := Len(c) + 5 + Len(b);
    FitsWithin(c, slots, slots, span);
    FitsWithin(b, slots, slots, span);
    FitsJump(c, W_JFC, Len(b) + 5, b, slots, span);
  }

  lemma ShortFits(a: seq<Item>, jump: Byte, b: seq<Item>, op: Byte, slots: nat)
    requires Fits(a, slots) && Fits(b, slots) && IsJump(jump) && W_NA < op < W_OP_END_MARK && !IsJump(op) && OperandSize(op) == 0
    ensures Fits(ShortCode(a, jump, b, op), slots)
  {
    hide Small, Len, AllSmall;
    var span := Len(a) + 6 + Len(b);
    Powers();
    assert b + [Op(op)] == b + [With(op, 0)];
    FitsOp(b, op, 0, slots);
    FitsWithin(a, slots, slots, span);
    FitsWithin(b + [Op(op)], slots, slots, span);
    FitsJump(a, jump, Len(b) + 6, b + [Op(op)], slots, span);
    assert a + [With(jump, Len(b) + 6)] + (b + [Op(op)]) == ShortCode(a, jump, b, op);
  }

  /** Filling in the jumps out of a loop body. */
  lemma {:induction false} ResolveFits(c: seq<Item>, pc: int, brk: int, cont: int, slots: nat, span: nat)
    requires AllSmall(c, slots, span) && 0 <= pc && pc + Len(c) <= span && 0 <= brk <= span && 0 <= cont <= span
    ensures AllSmall(Resolve(c, pc, brk, cont), slots, span)
    decreases |c|
  {
    hide Small, ItemSize, Bound, Marks, Resolve, AllSmall, ResolvedItem;
    if c == [] {
      NothingBound(0, None, brk, cont);
      NothingSmall(slots, span);
      assert Resolve(c, pc, brk, cont) == [];
    } else {
      var n := ItemSize(c[0]);
      var y := ResolvedItem(c[0], pc, brk, cont);
      BoundHead(c, pc, None, brk, cont);
      assert c == [c[0]] + c[1..];
      SmallCat([c[0]], c[1..], slots, span);
      ResolveFits(c[1..], pc + n, brk, cont, slots, span);
      ResolvedSmall(c[0], pc, brk, cont, slots, span);
      SmallCat([y], Resolve(c[1..], pc + n, brk, cont), slots, span);
    }
  }

  lemma ResolvedSmall(x: Item, pc: int, brk: int, cont: int, slots: nat, span: nat)
    requires AllSmall([x], slots, span) && 0 <= pc <= span && 0 <= brk <= span && 0 <= cont <= span
    ensures AllSmall([ResolvedItem(x, pc, brk, cont)], slots, span)
  {
    hide Small;
    assert x in [x];
    if x.Brk? {
      SmallOne(W_JMP, brk - pc, slots, span);
    } else if x.Cont? {
      SmallOne(W_JMP, cont - pc, slots, span);
    }
  }

  lemma LoopFits(head: seq<Item>, b: seq<Item>, cont: nat, slots: nat)
    requires Fits(head, slots) && Fits(b, slots) && cont <= Len(head) + 10
    ensures Fits(LoopCode(head, b, cont), slots)
  {
    hide Small, Len, AllSmall, Resolve;
    var start := Len(head) + 5;
    var end := start + Len(b);
    var span := end + 5;
    FitsWithin(head, slots, slots, span);
    FitsWithin(b, slots, slots, span);
    ResolveFits(b, start, end + 5, cont, slots, span);
    FitsJump(head, W_JFC, Len(b) + 10, Resolve(b, start, end + 5, cont), slots, span);
    NothingSmall(slots, span);
    LenNothing();
    var most := head + [With(W_JFC, Len(b) + 10)] + Resolve(b, start, end + 5, cont);
    FitsJump(most, W_JMP, cont - end, [], slots, span);
    assert most + [With(W_JMP, cont - end)] + [] == LoopCode(head, b, cont);
  }

  lemma NothingSmall(slots: nat, span: nat)
    ensures AllSmall([], slots, span) && Fits([], slots)
  {
  }

  lemma UntilFits(b: seq<Item>, c: seq<Item>, slots: nat)
    requires Fits(b, slots) && Fits(c, slots)
    ensures Fits(UntilCode(b, c), slots)
  {
    hide Small, Len, AllSmall, Resolve;
    var end := Len(b) + Len(c);
    var span := end + 5;
    var r := Resolve(b, 0, end + 5, Len(b));
    FitsWithin(c, slots, slots, span);
    FitsWithin(b, slots, slots, span);
    ResolveFits(b, 0, end + 5, Len(b), slots, span);
    SmallCat(r, c, slots, span);
    LenCat(r, c);
    NothingSmall(slots, span);
    LenNothing();
    FitsJump(r + c, W_JTC, 0 - end, [], slots, span);
    assert r + c + [With(W_JTC, 0 - end)] + [] == UntilCode(b, c);
  }

  lemma ForHeadFits(i: seq<Item>, s: seq<Item>, c: seq<Item>, slots: nat)
    requires Fits(i, slots) && Fits(s, slots) && Fits(c, slots)
    ensures Fits(ForHead(i, s, c), slots)
  {
    hide Small, Len, AllSmall;
    Powers();
    FitsOp(i, W_CTS, 1, slots);
    FitsOp(s, W_CTS, 1, slots);
    FitsCat(s + [Drop(1)], c, slots);
    var span := Len(i) + 7 + Len(s) + 2 + Len(c);
    FitsWithin(i + [Drop(1)], slots, slots, span);
    FitsWithin(s + [Drop(1)] + c, slots, slots, span);
    FitsJump(i + [Drop(1)], W_JMP, Len(s) + 7, s + [Drop(1)] + c, slots, span);
    assert i + [Drop(1)] + [With(W_JMP, Len(s) + 7)] + (s + [Drop(1)] + c) == ForHead(i, s, c);
  }

  lemma ForeachHeadFits(e: seq<Item>, reverse: bool, slots: nat)
    requires Fits(e, slots)
    ensures Fits(ForeachHead(e, reverse), slots) && Len(ForeachHead(e, reverse)) == Len(e) + 7
  {
    hide Small, Len, AllSmall;
    Powers();
    var first, next := if reverse then W_ITL else W_ITF, if reverse then W_ITP else W_ITN;
    FitsOp(e, first, 0, slots);
    var span := Len(e) + 7;
    NothingSmall(slots, 0);
    FitsOp([], next, 0, slots);
    FitsWithin(e + [Op(first)], slots, slots, span);
    assert [] + [With(next, 0)] == [Op(next)];
    LenNothing();
    FitsWithin([Op(next)], slots, slots, span);
    FitsJump(e + [Op(first)], W_JMP, 6, [Op(next)], slots, span);
    assert e + [Op(first)] + [With(W_JMP, 6)] + [Op(next)] == ForeachHead(e, reverse);
  }

  lemma LenNothing()
    ensures Len([]) == 0
  {
  }

  // ----- expressions -----

  predicate Sizes(env: Env) {
    |env.locals| <= MAX32 && |env.procs| <= MAX32 && |env.pool| <= MAX32
  }

  lemma {:induction false} ExpFits(e: Exp, env: Env)
    requires GenExp(e, env).Some? && Sizes(env)
    ensures Fits(GenExp(e, env).value.code, |env.iters|)
    decreases e
  {
    hide GenExp, AllSmall, Len;
    var n := |env.iters|;
    match e
    case Not(a) => UnaryFits(e, env);
    case IsNull(a, _) => UnaryFits(e, env);
    case Bin(_, _, _) => OperatorFits(e, env);
    case Store(_, _) => OperatorFits(e, env);
    case Index(_, _) => OperatorFits(e, env);
    case Sel(c, l, r) =>
      SelectParts(e, env);
      ExpFits(c, env);
      ExpFits(l, env);
      ExpFits(r, env);
      SelFits(GenExp(c, env).value.code, GenExp(l, env).value.code, GenExp(r, env).value.code, n);
    case Call(p, args) => CallFits(e, env);
    case _ => LeafFits(e, env);
  }

  lemma LeafFits(e: Exp, env: Env)
    requires GenExp(e, env).Some? && Sizes(env) && (e.NullC? || e.BoolC? || e.IntC? || e.Id? || e.OffsetOf?)
    ensures Fits(GenExp(e, env).value.code, |env.iters|)
  {
    hide CommonType, StoreOpcode, BinCode, Passable, LoadInt, LoadLocal;
    Powers();
    var c := GenExp(e, env).value.code;
    match e
    case IntC(k, _) => LoadsSmall(k, 0, |env.iters|, Len(c));
    case Id(name) =>
      if Lookup(env.iters, name).None? {
        LoadsSmall(0, Lookup(env.locals, name).value, |env.iters|, Len(c));
      }
    case _ =>
  }

  lemma UnaryFits(e: Exp, env: Env)
    requires GenExp(e, env).Some? && Sizes(env) && (e.Not? || e.IsNull?)
    ensures Fits(GenExp(e, env).value.code, |env.iters|)
    decreases e, 0
  {
    hide GenExp, AllSmall, Len;
    Powers();
    UnaryEquation(e, env);
    ExpFits(e.e, env);
    FitsOp(GenExp(e.e, env).value.code, GenExp(e, env).value.code[|GenExp(e.e, env).value.code|].i.op, 0, |env.iters|);
  }

  lemma OperatorFits(e: Exp, env: Env)
    requires GenExp(e, env).Some? && Sizes(env) && (e.Bin? || e.Store? || e.Index?)
    ensures Fits(GenExp(e, env).value.code, |env.iters|)
    decreases e, 0
  {
    hide GenExp, AllSmall, Len, OperatorOf;
    Powers();
    OperatorParts(e, env);
    ExpFits(e.l, env);
    ExpFits(e.r, env);
    var a, b := GenExp(e.l, env).value, GenExp(e.r, env).value;
    var op := OperatorOf(e, a.ty, b.ty);
    OperatorFitsByte(e, a.ty, b.ty);
    if Decides(e, a.ty) {
      ShortFits(a.code, if e.op.And? then W_JF else W_JT, b.code, op, |env.iters|);
    } else {
      FitsCat(a.code, b.code, |env.iters|);
      FitsOp(a.code + b.code, op, 0, |env.iters|);
    }
  }

  lemma OperatorFitsByte(e: Exp, a: Ty, b: Ty)
    requires e.Bin? || e.Store? || e.Index?
    ensures var x := OperatorOf(e, a, b); x < W_OP_END_MARK && !IsJump(x) && OperandSize(x) == 0
  {
    hide MatrixCell, StoreOpcode;
    if e.Store? {
      StoreFitsByte(a, b);
    } else if e.Bin? && a.Scalar? && b.Scalar? {
      CellFitsByte(e.op, a.base, b.base);
      CellFitsByte(e.op, a.base, a.base);
      CellFitsByte(e.op, b.base, b.base);
    }
  }

  lemma CellFitsByte(op: BinOp, f: Base, s: Base)
    ensures var x := MatrixCell(op, f, s); x < W_OP_END_MARK && !IsJump(x) && OperandSize(x) == 0
  {
  }

  lemma StoreFitsByte(d: Ty, s: Ty)
    ensures var x := StoreOpcode(d, s); x < W_OP_END_MARK && !IsJump(x) && OperandSize(x) == 0
  {
  }

  lemma CallFits(e: Exp, env: Env)
    requires GenExp(e, env).Some? && Sizes(env) && e.Call?
    ensures Fits(GenExp(e, env).value.code, |env.iters|)
    decreases e, 0
  {
    hide GenExp, GenArgs, AllSmall, Len;
    Powers();
    CallParts(e, env);
    var params := env.procs[e.proc].params;
    var a := GenArgs(e.args, params, env).value;
    ArgsFit(e.args, params, env);
    var missing := |params| - ArgCount(e.args);
    var c := if missing > 0 then a + [With(W_LDNULL, missing % 256)] else a;
    if missing > 0 {
      FitsOp(a, W_LDNULL, missing % 256, |env.iters|);
    }
    FitsOp(c, W_CALL, e.proc, |env.iters|);
    assert a + CallCode(e.proc, missing) == c + [With(W_CALL, e.proc)];
  }

  lemma {:induction false} ArgsFit(args: Args, params: seq<Ty>, env: Env)
    requires GenArgs(args, params, env).Some? && Sizes(env)
    ensures Fits(GenArgs(args, params, env).value, |env.iters|)
    decreases args
  {
    hide GenExp, AllSmall, Len, Passable;
    match args
    case NoArgs => NothingSmall(|env.iters|, 0);
    case Arg(e, tail) =>
      ExpFits(e, env);
      ArgsFit(tail, params[1..], env);
      FitsCat(GenExp(e, env).value.code, GenArgs(tail, params[1..], env).value, |env.iters|);
  }

  // ----- statements -----

  lemma FieldFits(k: nat, loff: nat, roff: nat, p: Pair, slots: nat)
    requires k + 3 < slots && loff < MAX32 && roff < MAX32 && CopyOpcode(p) != W_NA
    ensures Fits(FieldCode(k, loff, roff, CopyOpcode(p)), slots)
  {
    Powers();
    CopyFits(p);
  }

  lemma CopyFits(p: Pair)
    ensures var x := CopyOpcode(p); x < W_OP_END_MARK && !IsJump(x) && OperandSize(x) == 0
  {
  }

  lemma {:induction false} FieldsFit(pairs: seq<Pair>, k: nat, pool: seq<Byte>, slots: nat)
    requires GenFields(pairs, k, pool).Some? && |GenFields(pairs, k, pool).value.pool| <= MAX32 && k + 3 < slots
    ensures Fits(GenFields(pairs, k, pool).value.code, slots)
    decreases pairs
  {
    hide AllSmall, Len, CopyOpcode, FieldCode, ConstantPool.Holds;
    if pairs == [] {
      NothingSmall(slots, 0);
    } else {
      var a := ConstantPool.Add(pool, pairs[0].l.name);
      var b := ConstantPool.Add(a.1, pairs[0].r.name);
      FieldsGrow(pairs[1..], k, b.1);
      OffsetInside(a.1, a.0, pairs[0].l.name);
      OffsetInside(b.1, b.0, pairs[0].r.name);
      FieldFits(k, a.0, b.0, pairs[0], slots);
      FieldsFit(pairs[1..], k, b.1, slots);
      FitsCat(FieldCode(k, a.0, b.0, CopyOpcode(pairs[0])), GenFields(pairs[1..], k, b.1).value.code, slots);
    }
  }

  lemma OffsetInside(pool: seq<Byte>, off: nat, text: seq<Byte>)
    requires text != [] && ConstantPool.Holds(pool, off, text)
    ensures off < |pool|
  {
  }

  /** A row copy of at least one field has enough code for its four slots. */
  lemma CopyStmtFits(s: Stmt, env: Env)
    requires (s.RowCopy? || s.RowCopyFree?) && GenStmt(s, env).Some? && Sizes(GenStmt(s, env).value.env)
    ensures Fits(GenStmt(s, env).value.code, |env.iters| + Len(GenStmt(s, env).value.code))
  {
    hide GenExp, AllSmall, Len, SelectPairs, SharedPairs, GenFields;
    StmtGrows(s, env);
    Powers();
    var h := GenCopyHead(s.lt, s.li, s.rt, s.ri, env).value;
    var pairs := if s.RowCopyFree? then SharedPairs(h.left, h.right) else SelectPairs(h.left, s.lsel, h.right, s.rsel).value;
    var f := GenFields(pairs, |env.iters|, env.pool).value;
    var a, b, c, d := GenExp(s.lt, env).value.code, GenExp(s.li, env).value.code, GenExp(s.rt, env).value.code,
                      GenExp(s.ri, env).value.code;
    ExpFits(s.lt, env);
    ExpFits(s.li, env);
    ExpFits(s.rt, env);
    ExpFits(s.ri, env);
    FitsCat(a, b, |env.iters|);
    FitsCat(a + b, c, |env.iters|);
    FitsCat(a + b + c, d, |env.iters|);
    var slots := |env.iters| + Len(GenStmt(s, env).value.code);
    LenCat(h.code + f.code, [Drop(4 + |pairs|)]);
    LenCat(h.code, f.code);
    CodeLen(pairs, |env.iters|, env.pool);
    FitsWithin(h.code, |env.iters|, slots, Len(h.code));
    if pairs == [] {
      NoFields(|env.iters|, env.pool);
      NothingSmall(slots, 0);
    } else {
      FieldsFit(pairs, |env.iters|, env.pool, slots);
    }
    FitsCat(h.code, f.code, slots);
    FitsOp(h.code + f.code, W_CTS, (4 + |pairs|) % 256, slots);
  }

  lemma NoFields(k: nat, pool: seq<Byte>)
    ensures GenFields([], k, pool) == Some(CopyCode([], pool))
  {
  }

  lemma CodeLen(pairs: seq<Pair>, k: nat, pool: seq<Byte>)
    requires GenFields(pairs, k, pool).Some?
    ensures pairs != [] ==> Len(GenFields(pairs, k, pool).value.code) >= 4
  {
    hide CopyOpcode, ConstantPool.Add, OperandSize;
    if pairs != [] {
      var a := ConstantPool.Add(pool, pairs[0].l.name);
      var b := ConstantPool.Add(a.1, pairs[0].r.name);
      var rest := GenFields(pairs[1..], k, b.1).value.code;
      var x, y := [Iter(k)], GenFields(pairs, k, pool).value.code[1..];
      assert GenFields(pairs, k, pool).value.code == x + y;
      LenCat(x, y);
    }
  }

  lemma {:induction false} StmtFits(s: Stmt, env: Env)
    requires GenStmt(s, env).Some? && Sizes(GenStmt(s, env).value.env)
    ensures Fits(GenStmt(s, env).value.code, |env.iters| + Len(GenStmt(s, env).value.code))
    decreases s, 1
  {
    hide GenExp, AllSmall, Len, GenStmt, GenChain, GenBool;
    StmtGrows(s, env);
    var n := |env.iters|;
    match s
    case Seq(s1, s2) =>
      SeqParts(s, env);
      var a := GenStmt(s1, env).value;
      var b := GenStmt(s2, a.env).value;
      StmtGrows(s1, env);
      StmtGrows(s2, a.env);
      StmtFits(s1, env);
      StmtFits(s2, a.env);
      LenCat(a.code, b.code);
      FitsMore(a.code, n + Len(a.code), n + Len(a.code + b.code));
      FitsMore(b.code, n + Len(b.code), n + Len(a.code + b.code));
      FitsCat(a.code, b.code, n + Len(a.code + b.code));
    case If(chain) =>
      IfEquation(s, env);
      ChainFits(chain, env);
    case While(_, _) => LoopStmtFits(s, env);
    case For(_, _, _, _) => LoopStmtFits(s, env);
    case Until(_, _) => UntilStmtFits(s, env);
    case Foreach(_, _, _, _) => ForeachStmtFits(s, env);
    case RowCopy(_, _, _, _, _, _) => CopyStmtFits(s, env);
    case RowCopyFree(_, _, _, _) => CopyStmtFits(s, env);
    case _ => SimpleFits(s, env);
  }

  lemma FitsMore(c: seq<Item>, slots: nat, slots': nat)
    requires Fits(c, slots) && slots <= slots'
    ensures Fits(c, slots')
  {
    FitsWithin(c, slots, slots', Len(c));
  }

  lemma SimpleFits(s: Stmt, env: Env)
    requires GenStmt(s, env).Some? && Sizes(GenStmt(s, env).value.env)
    requires s.Skip? || s.ExpStmt? || s.Decl? || s.Assign? || s.Break? || s.Continue? || s.Return?
    ensures Fits(GenStmt(s, env).value.code, |env.iters| + Len(GenStmt(s, env).value.code))
  {
    hide GenExp, Fits, Len, Returnable, StoreOpcode, Lookup;
    Powers();
    LenNothing();
    var slots := |env.iters| + Len(GenStmt(s, env).value.code);
    NothingSmall(slots, 0);
    match s
    case Skip =>
    case Decl(_, _) =>
    case ExpStmt(e) => DropFits(e, env, slots);
    case Return(e) =>
      ExpFits(e, env);
      FitsMore(GenExp(e, env).value.code, |env.iters|, slots);
      FitsOp(GenExp(e, env).value.code, W_RET, 0, slots);
    case Assign(name, e) =>
      if Lookup(env.locals, name).Some? {
        DropFits(Store(Id(name), e), env, slots);
      } else {
        AutoFits(name, e, env, slots);
      }
    case Break => OpenFits(Brk, slots);
    case Continue => OpenFits(Cont, slots);
  }

  lemma OpenFits(x: Item, slots: nat)
    requires x.Brk? || x.Cont?
    ensures Fits([x], slots)
  {
  }

  lemma DropFits(e: Exp, env: Env, slots: nat)
    requires GenExp(e, env).Some? && Sizes(env) && |env.iters| <= slots
    ensures Fits(GenExp(e, env).value.code + [Drop(1)], slots)
  {
    hide GenExp, Fits, Len;
    Powers();
    ExpFits(e, env);
    FitsMore(GenExp(e, env).value.code, |env.iters|, slots);
    FitsOp(GenExp(e, env).value.code, W_CTS, 1, slots);
  }

  lemma AutoFits(name: Label, e: Exp, env: Env, slots: nat)
    requires GenExp(e, env).Some? && StoreOpcode(GenExp(e, env).value.ty, GenExp(e, env).value.ty) != W_NA
    requires Sizes(env) && |env.locals| < MAX32 && |env.iters| <= slots
    ensures Fits(AutoCode(|env.locals|, GenExp(e, env).value) + [Drop(1)], slots)
  {
    hide GenExp, Len, StoreOpcode, LoadLocal, AllSmall;
    Powers();
    var c := GenExp(e, env).value;
    ExpFits(e, env);
    FitsMore(c.code, |env.iters|, slots);
    LoadsSmall(0, |env.locals|, slots, Len([LoadLocal(|env.locals|)]));
    FitsCat([LoadLocal(|env.locals|)], c.code, slots);
    StoreFitsByte(c.ty, c.ty);
    FitsOp([LoadLocal(|env.locals|)] + c.code, StoreOpcode(c.ty, c.ty), 0, slots);
    FitsOp(AutoCode(|env.locals|, c), W_CTS, 1, slots);
  }

  lemma {:induction false} ChainFits(c: Chain, env: Env)
    requires GenChain(c, env).Some? && Sizes(GenChain(c, env).value.env)
    ensures Fits(GenChain(c, env).value.code, |env.iters| + Len(GenChain(c, env).value.code))
    decreases c, 0
  {
    hide GenExp, Fits, Len, GenStmt, GenChain, GenBool;
    ChainParts(c, env);
    ChainGrows(c, env);
    StmtGrows(c.body, env);
    var x, b := GenExp(c.c, env).value.code, GenStmt(c.body, env).value;
    var slots := |env.iters| + Len(GenChain(c, env).value.code);
    BranchBody([], x, b.code, None) by { ExpClosed(c.c, env); }
    match c.tail
    case NoElse =>
      BranchFits(c, env);
      IfLength(x, b.code, []);
      FitsMore(x, |env.iters|, slots);
      FitsMore(b.code, |env.iters| + Len(b.code), slots);
      IfFits(x, b.code, slots);
    case Else(s) =>
      var e := GenStmt(s, b.env).value;
      StmtGrows(s, b.env);
      BranchFits(c, env);
      StmtFits(s, b.env);
      IfLength(x, b.code, e.code);
      FitsMore(x, |env.iters|, slots);
      FitsMore(b.code, |env.iters| + Len(b.code), slots);
      FitsMore(e.code, |env.iters| + Len(e.code), slots);
      SelFits(x, b.code, e.code, slots);
    case ElseIf(next) =>
      var e := GenChain(next, b.env).value;
      ChainGrows(next, b.env);
      BranchFits(c, env);
      ChainFits(next, b.env);
      IfLength(x, b.code, e.code);
      FitsMore(x, |env.iters|, slots);
      FitsMore(b.code, |env.iters| + Len(b.code), slots);
      FitsMore(e.code, |env.iters| + Len(e.code), slots);
      SelFits(x, b.code, e.code, slots);
  }

  lemma IfLength(x: seq<Item>, b: seq<Item>, e: seq<Item>)
    ensures Len(IfCode(x, b)) >= Len(x) + Len(b) && Len(IfElseCode(x, b, e)) >= Len(x) + Len(b) + Len(e)
  {
    hide Len;
    var y, z := With(W_JFC, Len(b) + 5), With(W_JFC, Len(b) + 10);
    LenCat(x + [y], b);
    LenCat(x, [y]);
    LenCat(x + [z] + b + [With(W_JMP, Len(e) + 5)], e);
    LenCat(x + [z] + b, [With(W_JMP, Len(e) + 5)]);
    LenCat(x + [z], b);
    LenCat(x, [z]);
  }

  /** The condition and the first branch of an IF. */
  lemma {:induction false} BranchFits(c: Chain, env: Env)
    requires GenExp(c.c, env).Some? && GenStmt(c.body, env).Some? && Sizes(GenStmt(c.body, env).value.env)
    ensures Fits(GenExp(c.c, env).value.code, |env.iters|)
    ensures Fits(GenStmt(c.body, env).value.code, |env.iters| + Len(GenStmt(c.body, env).value.code))
    decreases c.body, 2
  {
    hide GenExp, Fits, Len, GenStmt;
    StmtGrows(c.body, env);
    ExpFits(c.c, env);
    StmtFits(c.body, env);
  }

  lemma {:induction false} LoopStmtFits(s: Stmt, env: Env)
    requires (s.While? || s.For?) && GenStmt(s, env).Some? && Sizes(GenStmt(s, env).value.env)
    ensures Fits(GenStmt(s, env).value.code, |env.iters| + Len(GenStmt(s, env).value.code))
    decreases s, 0
  {
    hide GenExp, Fits, Len, GenStmt, ForHead, LoopCode;
    LoopEquation(s, env);
    var b := GenStmt(s.body, InLoop(env)).value;
    StmtGrows(s.body, InLoop(env));
    StmtFits(s.body, InLoop(env));
    ExpFits(s.c, env);
    var c := GenExp(s.c, env).value.code;
    var slots := |env.iters| + Len(GenStmt(s, env).value.code);
    if s.While? {
      LoopLength(c, b.code, 0);
      FitsMore(c, |env.iters|, slots);
      FitsMore(b.code, |env.iters| + Len(b.code), slots);
      LoopFits(c, b.code, 0, slots);
    } else {
      var i, t := GenExp(s.init, env).value.code, GenExp(s.step, env).value.code;
      ExpFits(s.init, env);
      ExpFits(s.step, env);
      ForHeadFits(i, t, c, |env.iters|);
      ForHeadLen(i, t, c);
      LoopLength(ForHead(i, t, c), b.code, Len(i) + 7);
      FitsMore(ForHead(i, t, c), |env.iters|, slots);
      FitsMore(b.code, |env.iters| + Len(b.code), slots);
      LoopFits(ForHead(i, t, c), b.code, Len(i) + 7, slots);
    }
  }

  lemma LoopLength(head: seq<Item>, b: seq<Item>, cont: nat)
    ensures Len(LoopCode(head, b, cont)) >= Len(head) + 5 + Len(b)
  {
    hide Len, Resolve;
    var start := Len(head) + 5;
    var x := With(W_JFC, Len(b) + 10);
    var r := Resolve(b, start, start + Len(b) + 5, cont);
    BoundJump(head, W_JFC, Len(b) + 10, r, 0, None);
    LenCat(head + [x] + r, [With(W_JMP, cont - (start + Len(b)))]);
  }

  lemma {:induction false} UntilStmtFits(s: Stmt, env: Env)
    requires s.Until? && GenStmt(s, env).Some? && Sizes(GenStmt(s, env).value.env)
    ensures Fits(GenStmt(s, env).value.code, |env.iters| + Len(GenStmt(s, env).value.code))
    decreases s, 0
  {
    hide GenExp, Fits, Len, GenStmt, UntilCode;
    UntilEquation(s, env);
    var b := GenStmt(s.body, InLoop(env)).value;
    StmtGrows(s.body, InLoop(env));
    StmtFits(s.body, InLoop(env));
    ExpFits(s.c, b.env);
    var c := GenExp(s.c, b.env).value.code;
    var slots := |env.iters| + Len(GenStmt(s, env).value.code);
    UntilLength(b.code, c);
    FitsMore(c, |env.iters|, slots);
    FitsMore(b.code, |env.iters| + Len(b.code), slots);
    UntilFits(b.code, c, slots);
  }

  lemma UntilLength(b: seq<Item>, c: seq<Item>)
    ensures Len(UntilCode(b, c)) >= Len(b) + Len(c)
  {
    hide Len, Resolve;
    var end := Len(b) + Len(c);
    var r := Resolve(b, 0, end + 5, Len(b));
    LenCat(r + c, [With(W_JTC, 0 - end)]);
    LenCat(r, c);
  }

  lemma {:induction false} ForeachStmtFits(s: Stmt, env: Env)
    requires s.Foreach? && GenStmt(s, env).Some? && Sizes(GenStmt(s, env).value.env)
    ensures Fits(GenStmt(s, env).value.code, |env.iters| + Len(GenStmt(s, env).value.code))
    decreases s, 0
  {
    hide GenExp, Fits, Len, GenStmt, ForeachHead, LoopCode;
    Powers();
    ForeachEquation(s, env);
    var c := GenExp(s.e, env).value;
    var inner := Enter(s.it, c.ty, env);
    var b := GenStmt(s.body, inner).value;
    StmtGrows(s.body, inner);
    StmtFits(s.body, inner);
    ExpFits(s.e, env);
    var head := ForeachHead(c.code, s.reverse);
    var slots := |env.iters| + Len(GenStmt(s, env).value.code);
    ForeachHeadFits(c.code, s.reverse, |env.iters|);
    LoopLength(head, b.code, Len(c.code) + 6);
    LenCat(LoopCode(head, b.code, Len(c.code) + 6), [Drop(1)]);
    FitsMore(head, |env.iters|, slots);
    FitsMore(b.code, |inner.iters| + Len(b.code), slots);
    LoopFits(head, b.code, Len(c.code) + 6, slots);
    FitsOp(LoopCode(head, b.code, Len(c.code) + 6), W_CTS, 1, slots);
  }
}
