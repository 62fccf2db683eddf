/** Where compiled code has open jumps, and the code of an IF whose branches are
    not patched yet. */
module OpenCode {
  import opened Bytes
  import opened Wrappers
  import opened Syntax
  import opened Instructions
  import opened Operators
  import opened Code
  import opened Compiler
  import opened Rendering
  import opened Backpatch
  import opened Returns
  import opened CompilerLemmas
  import ConstantPool

  /** Expressions leave no open jump out of a loop. */
  lemma {:induction false} ExpClosed(e: Exp, env: Env)
    requires GenExp(e, env).Some?
    ensures Closed(GenExp(e, env).value.code)
    decreases e
  {
    hide CommonType, StoreOpcode, BinOpcode, BinResult, Passable, Lookup, LoadInt, LoadLocal, Len;
    match e
    case Not(a) => ExpClosed(a, env);
    case IsNull(a, _) => ExpClosed(a, env);
    case Bin(_, l, r) => ExpClosed(l, env); ExpClosed(r, env);
    case Sel(c, l, r) => ExpClosed(c, env); ExpClosed(l, env); ExpClosed(r, env);
    case Store(l, r) => ExpClosed(l, env); ExpClosed(r, env);
    case Index(l, r) => ExpClosed(l, env); ExpClosed(r, env);
    case Call(p, args) => ArgsClosed(args, env.procs[p].params, env);
    case IntC(_, _) => LoadsClosed();
    case Id(_) => LoadsClosed();
    case _ =>
  }

  lemma LoadsClosed()
    ensures forall n: UInt64 :: LoadInt(n).I?
    ensures forall i: nat :: LoadLocal(i).I?
  {
  }

  lemma {:induction false} ArgsClosed(args: Args, params: seq<Ty>, env: Env)
    requires GenArgs(args, params, env).Some?
    ensures Closed(GenArgs(args, params, env).value)
    decreases args
  {
    hide GenExp, Passable;
    match args
    case NoArgs =>
    case Arg(e, tail) =>
      ExpClosed(e, env);
      ArgsClosed(tail, params[1..], env);
  }

  lemma {:induction false} FieldsClosed(pairs: seq<Pair>, k: nat, pool: seq<Byte>)
    requires GenFields(pairs, k, pool).Some?
    ensures Closed(GenFields(pairs, k, pool).value.code)
    decreases pairs
  {
    hide ConstantPool.Add, CopyOpcode;
    if pairs != [] {
      var a := ConstantPool.Add(pool, pairs[0].l.name);
      var b := ConstantPool.Add(a.1, pairs[0].r.name);
      FieldsClosed(pairs[1..], k, b.1);
    }
  }
  lemma CopyClosed(lt: Exp, li: Exp, rt: Exp, ri: Exp, pairs: seq<Pair>, env: Env)
    requires GenCopyHead(lt, li, rt, ri, env).Some?
    requires GenCopy(GenCopyHead(lt, li, rt, ri, env).value.code, pairs, env).Some?
    ensures Closed(GenCopy(GenCopyHead(lt, li, rt, ri, env).value.code, pairs, env).value.code)
  {
    hide GenExp, GenFields;
    ExpClosed(lt, env);
    ExpClosed(li, env);
    ExpClosed(rt, env);
    ExpClosed(ri, env);
    FieldsClosed(pairs, |env.iters|, env.pool);
  }

  /** Statements without statements in them leave no jump open. */
  lemma SimpleClosed(s: Stmt, env: Env)
    requires GenStmt(s, env).Some? && !s.Seq? && !s.If? && !s.While? && !s.Until? && !s.For? && !s.Foreach? && !s.Break? && !s.Continue?
    ensures Closed(GenStmt(s, env).value.code)
  {
    hide GenExp, GenCopyHead, GenCopy, SelectPairs, SharedPairs, StoreOpcode, Lookup, Returnable, LoadLocal;
    match s
    case ExpStmt(e) => ExpClosed(e, env);
    case Assign(name, e) =>
      LoadsClosed();
      if Lookup(env.locals, name).Some? { ExpClosed(Store(Id(name), e), env); } else { ExpClosed(e, env); }
    case Return(e) => ExpClosed(e, env);
    case RowCopy(lt, lsel, li, rt, rsel, ri) =>
      var h := GenCopyHead(lt, li, rt, ri, env).value;
      CopyClosed(lt, li, rt, ri, SelectPairs(h.left, lsel, h.right, rsel).value, env);
    case RowCopyFree(lt, li, rt, ri) =>
      var h := GenCopyHead(lt, li, rt, ri, env).value;
      CopyClosed(lt, li, rt, ri, SharedPairs(h.left, h.right), env);
    case _ =>
  }

  lemma LoopsClosed(head: seq<Item>, b: seq<Item>, c: seq<Item>, cont: nat)
    requires Closed(head) && Closed(c)
    ensures Closed(LoopCode(head, b, cont)) && Closed(UntilCode(b, c))
  {
    var start := Len(head) + 5;
    ResolveClosed(b, start, start + Len(b) + 5, cont);
    ResolveClosed(b, 0, Len(b) + Len(c) + 5, Len(b));
  }

  /** Outside of loops nothing is left open. */
  lemma {:induction false} StmtClosed(s: Stmt, env: Env)
    requires GenStmt(s, env).Some? && !env.inLoop
    ensures Closed(GenStmt(s, env).value.code)
    decreases s
  {
    hide GenExp, GenCopyHead, GenCopy, SelectPairs, SharedPairs, StoreOpcode, Lookup, Returnable, Len, LoadLocal, LoopCode, UntilCode;
    match s
    case Seq(s1, s2) =>
      EnvLoop(s1, env);
      StmtClosed(s1, env);
      StmtClosed(s2, GenStmt(s1, env).value.env);
    case If(chain) => ChainClosed(chain, env);
    case While(c, body) =>
      ExpClosed(c, env);
      LoopsClosed(GenExp(c, env).value.code, GenStmt(body, InLoop(env)).value.code, [], 0);
    case Until(body, c) =>
      var b := GenStmt(body, InLoop(env)).value;
      ExpClosed(c, b.env);
      LoopsClosed([], b.code, GenExp(c, b.env).value.code, 0);
    case For(i, c, t, body) =>
      ExpClosed(i, env);
      ExpClosed(c, env);
      ExpClosed(t, env);
      LoopsClosed(ForHead(GenExp(i, env).value.code, GenExp(t, env).value.code, GenExp(c, env).value.code),
                  GenStmt(body, InLoop(env)).value.code, [], Len(GenExp(i, env).value.code) + 7);
    case Foreach(it, e, reverse, body) =>
      ExpClosed(e, env);
      LoopsClosed(ForeachHead(GenExp(e, env).value.code, reverse),
                  GenStmt(body, Enter(it, GenExp(e, env).value.ty, env)).value.code, [], Len(GenExp(e, env).value.code) + 6);
    case Break =>
    case Continue =>
    case _ => SimpleClosed(s, env);
  }

  lemma EnvLoop(s: Stmt, env: Env)
    requires GenStmt(s, env).Some?
    ensures GenStmt(s, env).value.env.inLoop == env.inLoop && GenStmt(s, env).value.env.iters == env.iters
    ensures GenStmt(s, env).value.env.procs == env.procs && GenStmt(s, env).value.env.ret == env.ret
  {
    StmtGrows(s, env);
  }

  lemma {:induction false} ChainClosed(c: Chain, env: Env)
    requires GenChain(c, env).Some? && !env.inLoop
    ensures Closed(GenChain(c, env).value.code)
    decreases c
  {
    hide GenExp, Len;
    ExpClosed(c.c, env);
    StmtClosed(c.body, env);
    EnvLoop(c.body, env);
    var env1 := GenStmt(c.body, env).value.env;
    match c.tail
    case NoElse =>
    case Else(s) => StmtClosed(s, env1);
    case ElseIf(next) => ChainClosed(next, env1);
  }

  // ----- an IF before its end is known -----

  /** The code of an IF when its last branch has been emitted: the jumps to its
      end still have a zero operand. */
  function OpenChain(c: Chain, env: Env): (r: seq<Item>)
    requires GenChain(c, env).Some?
  {
    var x, b := GenExp(c.c, env).value.code, GenStmt(c.body, env).value;
    match c.tail
    case NoElse => x + [With(W_JFC, 0)] + b.code
    case Else(s) => x + [With(W_JFC, Len(b.code) + 10)] + b.code + [With(W_JMP, 0)] + GenStmt(s, b.env).value.code
    case ElseIf(next) => x + [With(W_JFC, Len(b.code) + 10)] + b.code + [With(W_JMP, 0)] + OpenChain(next, b.env)
  }

  /** The entries the branches of an IF at pos leave on the branch stack. */
  function Branches(c: Chain, kind: BranchKind, env: Env, pos: nat): (r: seq<Branch>)
    requires GenChain(c, env).Some?
    ensures r != []
  {
    var x, b := GenExp(c.c, env).value.code, GenStmt(c.body, env).value;
    var start := pos + Len(x);
    var next := start + 5 + Len(b.code);
    var d := Detects(c.body);
    match c.tail
    case NoElse => [Branch(kind, start, 0, d, false)]
    case Else(s) => [Branch(kind, start, next, Detects(s), d)]
    case ElseIf(n) => [Branch(kind, start, next, d, d)] + Branches(n, ElseIfBranch, b.env, next + 5)
  }

  lemma {:induction false} OpenLen(c: Chain, env: Env)
    requires GenChain(c, env).Some?
    ensures Len(OpenChain(c, env)) == Len(GenChain(c, env).value.code)
    decreases c
  {
    hide GenExp, GenStmt, Len, ItemSize;
    ChainParts(c, env);
    var x, b := GenExp(c.c, env).value.code, GenStmt(c.body, env).value;
    match c.tail
    case NoElse => SameLen(x, W_JFC, 0, Len(b.code) + 5, b.code);
    case Else(s) =>
      SameLen(x + [With(W_JFC, Len(b.code) + 10)] + b.code, W_JMP, 0, Len(GenStmt(s, b.env).value.code) + 5,
              GenStmt(s, b.env).value.code);
    case ElseIf(next) =>
      OpenLen(next, b.env);
      var pre := x + [With(W_JFC, Len(b.code) + 10)] + b.code;
      SameLen(pre, W_JMP, 0, Len(GenChain(next, b.env).value.code) + 5, OpenChain(next, b.env));
      LenCat(pre + [With(W_JMP, Len(GenChain(next, b.env).value.code) + 5)], OpenChain(next, b.env));
      LenCat(pre + [With(W_JMP, Len(GenChain(next, b.env).value.code) + 5)], GenChain(next, b.env).value.code);
  }

  lemma SameLen(a: seq<Item>, op: Byte, v: int, v': int, b: seq<Item>)
    ensures Len(a + [With(op, v)] + b) == Len(a + [With(op, v')] + b)
  {
    LenCat(a + [With(op, v)], b);
    LenCat(a + [With(op, v')], b);
    OneItem(a, With(op, v));
    OneItem(a, With(op, v'));
  }

  /** Emitted code around a jump. */
  lemma BoundJump(a: seq<Item>, op: Byte, v: int, b: seq<Item>, pos: nat, k: Option<int>)
    requires OperandSize(op) == 4
    ensures Bound(a + [With(op, v)] + b, pos, k) == Bound(a, pos, k) + [With(op, v)] + Bound(b, pos + Len(a) + 5, k)
    ensures Marks(a + [With(op, v)] + b, pos, k) == Marks(a, pos, k) + Marks(b, pos + Len(a) + 5, k)
    ensures Len(a + [With(op, v)]) == Len(a) + 5
    ensures Len(a + [With(op, v)] + b) == Len(a) + 5 + Len(b)
  {
    hide OperandSize, Bound, Marks, Len;
    var x := With(op, v);
    BoundCat(a + [x], b, pos, k);
    BoundCat(a, [x], pos, k);
    OneItem(a, x);
    LenCat(a + [x], b);
    BoundClosed([x], pos + Len(a), k);
  }

  /** Patching one jump to the end of the code that follows it. */
  lemma PatchToEnd(pre: seq<Item>, a: seq<Item>, op: Byte, v: int, b: seq<Item>, end: int)
    requires IsJump(op)
    ensures Patch(pre + (a + [With(op, v)] + b), Len(pre) + Len(a), end) == pre + (a + [With(op, end)] + b)
  {
    hide Patch, Len;
    LenCat(pre, a);
    PatchMid(pre + a, With(op, v), b, end);
    assert pre + (a + [With(op, v)] + b) == pre + a + [With(op, v)] + b;
    assert pre + (a + [With(op, end)] + b) == pre + a + [With(op, end)] + b;
  }

  /** Patching the branches of an IF gives the code with computed offsets. */
  lemma {:induction false} ChainCloses(pre: seq<Item>, c: Chain, kind: BranchKind, env: Env, k: Option<int>)
    requires GenChain(c, env).Some?
    ensures var p := Len(pre);
            var code := GenChain(c, env).value.code;
            PatchBranches(pre + Bound(OpenChain(c, env), p, k), Branches(c, kind, env, p), p + Len(code))
              == pre + Bound(code, p, k)
    decreases c
  {
    hide GenExp, GenStmt, GenChain, Bound, Marks, Len, ItemSize, Patch, PatchBranches;
    ChainParts(c, env);
    var p := Len(pre);
    var x, b := GenExp(c.c, env).value.code, GenStmt(c.body, env).value;
    ExpClosed(c.c, env);
    BoundClosed(x, p, k);
    match c.tail
    case NoElse => IfCloses(pre, x, b.code, Branches(c, kind, env, p)[0], k);
    case Else(s) => ElseCloses(pre, x, b.code, GenStmt(s, b.env).value.code, Branches(c, kind, env, p)[0], k);
    case ElseIf(next) =>
      var o, e := OpenChain(next, b.env), GenChain(next, b.env).value.code;
      var head := x + [With(W_JFC, Len(b.code) + 10)] + b.code;
      var pre1 := pre + (Bound(head, p, k) + [With(W_JMP, 0)]);
      OpenLen(next, b.env);
      ElseIfPrefix(pre, x, b.code, k);
      ChainCloses(pre1, next, ElseIfBranch, b.env, k);
      ElseIfCloses(pre, x, b.code, o, e, Branches(c, kind, env, p)[0], Branches(next, ElseIfBranch, b.env, Len(pre1)), k);
  }

  lemma IfCloses(pre: seq<Item>, x: seq<Item>, b: seq<Item>, b0: Branch, k: Option<int>)
    requires OpenJump(b0) == Len(pre) + Len(x) && Bound(x, Len(pre), k) == x
    ensures PatchBranches(pre + Bound(x + [With(W_JFC, 0)] + b, Len(pre), k), [b0], Len(pre) + Len(IfCode(x, b)))
         == pre + Bound(IfCode(x, b), Len(pre), k)
  {
    hide Bound, Marks, Len, ItemSize, Patch, PatchBranches;
    var p := Len(pre);
    BoundJump(x, W_JFC, 0, b, p, k);
    BoundJump(x, W_JFC, Len(b) + 5, b, p, k);
    PatchToEnd(pre, x, W_JFC, 0, Bound(b, p + Len(x) + 5, k), Len(b) + 5);
    PatchSingle(pre + Bound(x + [With(W_JFC, 0)] + b, p, k), b0, p + Len(x) + 5 + Len(b));
  }

  lemma ElseCloses(pre: seq<Item>, x: seq<Item>, b: seq<Item>, e: seq<Item>, b0: Branch, k: Option<int>)
    requires OpenJump(b0) == Len(pre) + Len(x) + 5 + Len(b)
    ensures var all := pre + Bound(x + [With(W_JFC, Len(b) + 10)] + b + [With(W_JMP, 0)] + e, Len(pre), k);
            PatchBranches(all, [b0], Len(pre) + Len(IfElseCode(x, b, e))) == pre + Bound(IfElseCode(x, b, e), Len(pre), k)
  {
    hide Bound, Marks, Len, ItemSize, Patch, PatchBranches;
    BranchCloses(pre, x, b, e, e, k);
    PatchSingle(pre + Bound(x + [With(W_JFC, Len(b) + 10)] + b + [With(W_JMP, 0)] + e, Len(pre), k), b0,
                Len(pre) + Len(IfElseCode(x, b, e)));
  }

  lemma ElseIfPrefix(pre: seq<Item>, x: seq<Item>, b: seq<Item>, k: Option<int>)
    ensures var head := x + [With(W_JFC, Len(b) + 10)] + b;
            Len(pre + (Bound(head, Len(pre), k) + [With(W_JMP, 0)])) == Len(pre) + Len(x) + 10 + Len(b)
  {
    hide Bound, Len, ItemSize, Marks;
    var head := x + [With(W_JFC, Len(b) + 10)] + b;
    BoundJump(x, W_JFC, Len(b) + 10, b, 0, k);
    BoundJump(Bound(head, Len(pre), k), W_JMP, 0, [], 0, k);
    LenCat(pre, Bound(head, Len(pre), k) + [With(W_JMP, 0)]);
  }

  /** One more branch before branches that are patched already. */
  lemma ElseIfCloses(pre: seq<Item>, x: seq<Item>, b: seq<Item>, o: seq<Item>, e: seq<Item>, b0: Branch, bs: seq<Branch>,
                     k: Option<int>)
    requires OpenJump(b0) == Len(pre) + Len(x) + 5 + Len(b)
    requires var head := x + [With(W_JFC, Len(b) + 10)] + b;
             var pre1 := pre + (Bound(head, Len(pre), k) + [With(W_JMP, 0)]);
             PatchBranches(pre1 + Bound(o, Len(pre1), k), bs, Len(pre1) + Len(e)) == pre1 + Bound(e, Len(pre1), k)
    ensures var all := pre + Bound(x + [With(W_JFC, Len(b) + 10)] + b + [With(W_JMP, 0)] + o, Len(pre), k);
            PatchBranches(all, [b0] + bs, Len(pre) + Len(IfElseCode(x, b, e))) == pre + Bound(IfElseCode(x, b, e), Len(pre), k)
  {
    hide Bound, Marks, Len, ItemSize, Patch, PatchBranches;
    var p := Len(pre);
    var head := x + [With(W_JFC, Len(b) + 10)] + b;
    var pre1 := pre + (Bound(head, p, k) + [With(W_JMP, 0)]);
    var end := p + Len(x) + 10 + Len(b) + Len(e);
    ElseIfPrefix(pre, x, b, k);
    BranchCloses(pre, x, b, o, e, k);
    var all := pre + Bound(head + [With(W_JMP, 0)] + o, p, k);
    assert all == pre1 + Bound(o, Len(pre1), k);
    PatchBranchesCat(all, [b0], bs, end);
    var mid := pre1 + Bound(e, Len(pre1), k);
    assert mid == pre + (Bound(head, p, k) + [With(W_JMP, 0)] + Bound(e, p + Len(head) + 5, k));
    PatchSingle(mid, b0, end);
  }

  lemma PatchSingle(c: seq<Item>, b: Branch, end: int)
    ensures PatchBranches(c, [b], end) == Patch(c, OpenJump(b), end - OpenJump(b))
  {
    hide Patch;
    assert [b][..0] == [];
  }

  /** The open jump before the last part of an IF, which may itself be open. */
  lemma BranchCloses(pre: seq<Item>, x: seq<Item>, b: seq<Item>, o: seq<Item>, e: seq<Item>, k: Option<int>)
    ensures var p := Len(pre);
            var head := x + [With(W_JFC, Len(b) + 10)] + b;
            && Len(head) == Len(x) + 5 + Len(b) && Len(IfElseCode(x, b, e)) == Len(head) + 5 + Len(e)
            && Bound(head + [With(W_JMP, 0)] + o, p, k)
                 == Bound(head, p, k) + [With(W_JMP, 0)] + Bound(o, p + Len(head) + 5, k)
            && Patch(pre + (Bound(head, p, k) + [With(W_JMP, 0)] + Bound(e, p + Len(head) + 5, k)), p + Len(head), Len(e) + 5)
                 == pre + Bound(IfElseCode(x, b, e), p, k)
  {
    hide Bound, Len, ItemSize, Patch, Marks;
    var p := Len(pre);
    var head := x + [With(W_JFC, Len(b) + 10)] + b;
    BoundJump(x, W_JFC, Len(b) + 10, b, p, k);
    BoundJump(head, W_JMP, 0, o, p, k);
    BoundJump(head, W_JMP, Len(e) + 5, e, p, k);
    PatchToEnd(pre, Bound(head, p, k), W_JMP, 0, Bound(e, p + Len(head) + 5, k), Len(e) + 5);
  }

  // ----- a loop before its end is known -----

  /** The code of a WHILE, FOR or FOREACH when its body has been emitted and the
      jump back appended: the exits and the jump back have a zero operand. */
  function OpenLoop(pre: seq<Item>, head: seq<Item>, b: seq<Item>, cont: nat): seq<Item> {
    pre + (head + [With(W_JFC, 0)] + Bound(b, Len(pre) + Len(head) + 5, Some(Len(pre) + cont)) + [With(W_JMP, 0)])
  }

  /** Patching the body's exits, the loop's own exit and the jump back finishes
      the loop. */
  lemma LoopCloses(pre: seq<Item>, head: seq<Item>, b: seq<Item>, cont: nat)
    ensures var p, exit := Len(pre), Len(pre) + Len(head);
            var start := exit + 5;
            var end := start + Len(b);
            var open := OpenLoop(pre, head, b, cont);
            var scanned := PatchLoop(open, Marks(b, start, Some(p + cont)), end + 5, 0);
            && Len(open) == end + 5 && JumpAt(scanned, exit)
            && JumpAt(Patch(scanned, exit, end + 5 - exit), end)
            && Patch(Patch(scanned, exit, end + 5 - exit), end, p + cont - end) == pre + LoopCode(head, b, cont)
  {
    hide Bound, Marks, Len, ItemSize, Patch, PatchLoop, Resolve, JumpAt;
    var p, h := Len(pre), Len(head);
    var start, end := p + h + 5, p + h + 5 + Len(b);
    var k := Some(p + cont);
    var jump, back := With(W_JFC, 0), With(W_JMP, 0);
    var open := OpenLoop(pre, head, b, cont);
    var pre1 := pre + head + [jump];
    LenCat(pre, head);
    BoundJump(pre + head, W_JFC, 0, Bound(b, start, k), 0, k);
    BoundJump(pre1 + Bound(b, start, k), W_JMP, 0, [], 0, k);
    assert open == pre1 + Bound(b, start, k) + [back];
    var r := Resolve(b, start, end + 5, p + cont);
    ResolveShift(b, h + 5, h + 5 + Len(b) + 5, cont, p);
    PatchLoopResolves(pre1, b, [back], k, end + 5, 0);
    assert pre1 + r + [back] == (pre + head) + [jump] + (r + [back]);
    PatchMid(pre + head, jump, r + [back], Len(b) + 10);
    var done := With(W_JFC, Len(b) + 10);
    var pre2 := pre + head + [done] + r;
    assert (pre + head) + [done] + (r + [back]) == pre2 + [back] + [];
    BoundJump(pre + head, W_JFC, Len(b) + 10, r, 0, k);
    PatchMid(pre2, back, [], p + cont - end);
    assert pre2 + [With(W_JMP, p + cont - end)] + [] == pre + LoopCode(head, b, cont);
  }

  /** The same for UNTIL, whose condition comes last: the CONTINUEs of its body
      go to the condition and the final jump goes back to the body. */
  lemma UntilCloses(pre: seq<Item>, b: seq<Item>, c: seq<Item>)
    ensures var p := Len(pre);
            var end := p + Len(b) + Len(c);
            var open := pre + (Bound(b, p, None) + c + [With(W_JTC, 0)]);
            && Len(open) == end + 5 && JumpAt(PatchLoop(open, Marks(b, p, None), end + 5, p + Len(b)), end)
            && Patch(PatchLoop(open, Marks(b, p, None), end + 5, p + Len(b)), end, p - end) == pre + UntilCode(b, c)
  {
    hide Bound, Marks, Len, ItemSize, Patch, PatchLoop, Resolve, JumpAt;
    var p := Len(pre);
    var end := p + Len(b) + Len(c);
    var jump := With(W_JTC, 0);
    var r := Resolve(b, p, end + 5, p + Len(b));
    ResolveShift(b, 0, Len(b) + Len(c) + 5, Len(b), p);
    var open := pre + (Bound(b, p, None) + c + [jump]);
    assert open == pre + Bound(b, p, None) + (c + [jump]);
    BoundJump(pre + Bound(b, p, None) + c, W_JTC, 0, [], 0, None);
    assert open == pre + Bound(b, p, None) + c + [jump];
    LenCat(pre + Bound(b, p, None), c);
    LenCat(pre, Bound(b, p, None));
    PatchLoopResolves(pre, b, c + [jump], None, end + 5, p + Len(b));
    LenCat(pre + r, c);
    LenCat(pre, r);
    assert pre + r + (c + [jump]) == (pre + r + c) + [jump] + [];
    PatchMid(pre + r + c, jump, [], p - end);
    assert (pre + r + c) + [With(W_JTC, p - end)] + [] == pre + UntilCode(b, c);
  }

  // ----- the recorded positions are open jumps -----

  lemma {:induction false} MarksJump(pre: seq<Item>, c: seq<Item>, post: seq<Item>, k: Option<int>)
    ensures forall m :: m in Marks(c, Len(pre), k) ==> !IsBegin(m) && JumpAt(pre + Bound(c, Len(pre), k) + post, m.breakMark)
    decreases |c|
  {
    hide Bound, Marks, Len, ItemSize, JumpAt, Mark, BoundItem, Resolve;
    var p := Len(pre);
    if c == [] {
      NothingBound(p, k, 0, 0);
    } else {
      var x := BoundItem(c[0], p, k);
      BoundHead(c, p, k, 0, 0);
      OneItem(pre, x);
      MarksJump(pre + [x], c[1..], post, k);
      var tail := Bound(c[1..], p + ItemSize(c[0]), k) + post;
      assert pre + [x] + tail == pre + Bound(c, p, k) + post;
      assert (pre + [x]) + Bound(c[1..], p + ItemSize(c[0]), k) + post == pre + [x] + tail;
      MarkJump(pre, c[0], tail, k);
    }
  }

  lemma MarkJump(pre: seq<Item>, x: Item, post: seq<Item>, k: Option<int>)
    ensures forall m :: m in Mark(x, Len(pre), k) ==> !IsBegin(m) && JumpAt(pre + [BoundItem(x, Len(pre), k)] + post, m.breakMark)
  {
    hide JumpAt, Len;
    if Mark(x, Len(pre), k) != [] {
      PatchMid(pre, x, post, 0);
    }
  }

  /** Only the first entry of a chain is that of its IF. */
  lemma {:induction false} BranchKinds(c: Chain, kind: BranchKind, env: Env, pos: nat)
    requires GenChain(c, env).Some?
    ensures forall i :: 0 < i < |Branches(c, kind, env, pos)| ==> Branches(c, kind, env, pos)[i].kind.ElseIfBranch?
    ensures Branches(c, kind, env, pos)[0].kind == kind
    decreases c
  {
    hide GenExp, GenStmt, GenChain, Len;
    ChainParts(c, env);
    if c.tail.ElseIf? {
      var x, b := GenExp(c.c, env).value.code, GenStmt(c.body, env).value;
      BranchKinds(c.tail.next, ElseIfBranch, b.env, pos + Len(x) + 5 + Len(b.code) + 5);
    }
  }

  /** The jump of the chain's own entry. */
  lemma FirstJump(pre: seq<Item>, c: Chain, kind: BranchKind, env: Env, k: Option<int>)
    requires GenChain(c, env).Some?
    ensures JumpAt(pre + Bound(OpenChain(c, env), Len(pre), k), OpenJump(Branches(c, kind, env, Len(pre))[0]))
  {
    hide GenExp, GenStmt, GenChain, Bound, Marks, Len, ItemSize, Patch, JumpAt;
    ChainParts(c, env);
    var p := Len(pre);
    var x, b := GenExp(c.c, env).value.code, GenStmt(c.body, env).value;
    var head := x + [With(W_JFC, Len(b.code) + 10)] + b.code;
    BoundJump(x, W_JFC, if c.tail.NoElse? then 0 else Len(b.code) + 10, b.code, p, k);
    if c.tail.NoElse? {
      JumpBetween(pre, Bound(x, p, k), W_JFC, Bound(b.code, p + Len(x) + 5, k));
    } else {
      var e := if c.tail.Else? then GenStmt(c.tail.body, b.env).value.code else OpenChain(c.tail.next, b.env);
      BoundJump(head, W_JMP, 0, e, p, k);
      JumpBetween(pre, Bound(head, p, k), W_JMP, Bound(e, p + Len(head) + 5, k));
    }
  }

  lemma {:induction false} BranchesJump(pre: seq<Item>, c: Chain, kind: BranchKind, env: Env, k: Option<int>)
    requires GenChain(c, env).Some?
    ensures forall b :: b in Branches(c, kind, env, Len(pre)) ==> JumpAt(pre + Bound(OpenChain(c, env), Len(pre), k), OpenJump(b))
    decreases c
  {
    hide GenExp, GenStmt, GenChain, Bound, Marks, Len, ItemSize, Patch, JumpAt, OpenJump;
    ChainParts(c, env);
    FirstJump(pre, c, kind, env, k);
    if c.tail.ElseIf? {
      var p := Len(pre);
      var x, b := GenExp(c.c, env).value.code, GenStmt(c.body, env).value;
      var head := x + [With(W_JFC, Len(b.code) + 10)] + b.code;
      var o := OpenChain(c.tail.next, b.env);
      BoundJump(x, W_JFC, Len(b.code) + 10, b.code, p, k);
      BoundJump(head, W_JMP, 0, o, p, k);
      var pre1 := pre + (Bound(head, p, k) + [With(W_JMP, 0)]);
      ElseIfPrefix(pre, x, b.code, k);
      BranchesJump(pre1, c.tail.next, ElseIfBranch, b.env, k);
      assert pre1 + Bound(o, Len(pre1), k) == pre + Bound(OpenChain(c, env), p, k);
    }
  }

  lemma JumpBetween(pre: seq<Item>, a: seq<Item>, op: Byte, b: seq<Item>)
    requires IsJump(op)
    ensures JumpAt(pre + (a + [With(op, 0)] + b), Len(pre) + Len(a))
  {
    hide JumpAt, Len;
    LenCat(pre, a);
    PatchMid(pre + a, With(op, 0), b, 0);
    assert pre + (a + [With(op, 0)] + b) == (pre + a) + [With(op, 0)] + b;
  }

  /** The zero operands do not change what an IF leaves on the loop stack. */
  lemma {:induction false} OpenMarks(c: Chain, env: Env, pos: nat, k: Option<int>)
    requires GenChain(c, env).Some?
    ensures Marks(OpenChain(c, env), pos, k) == Marks(GenChain(c, env).value.code, pos, k)
    decreases c
  {
    hide GenExp, GenStmt, GenChain, Bound, Marks, Len, ItemSize;
    ChainParts(c, env);
    var x, b := GenExp(c.c, env).value.code, GenStmt(c.body, env).value;
    var head := x + [With(W_JFC, Len(b.code) + 10)] + b.code;
    match c.tail
    case NoElse =>
      BoundJump(x, W_JFC, 0, b.code, pos, k);
      BoundJump(x, W_JFC, Len(b.code) + 5, b.code, pos, k);
    case Else(s) =>
      var e := GenStmt(s, b.env).value.code;
      BoundJump(head, W_JMP, 0, e, pos, k);
      BoundJump(head, W_JMP, Len(e) + 5, e, pos, k);
    case ElseIf(next) =>
      var e := GenChain(next, b.env).value.code;
      BoundJump(head, W_JMP, 0, OpenChain(next, b.env), pos, k);
      BoundJump(head, W_JMP, Len(e) + 5, e, pos, k);
      OpenMarks(next, b.env, pos + Len(head) + 5, k);
  }

  // ----- return flags -----

  /** The flag of the innermost open branch, or of the procedure, is raised. */
  function WithReturn(bs: seq<Branch>, d: bool): (r: seq<Branch>)
    ensures |r| == |bs|
  {
    if bs == [] then bs
    else
      var n := |bs| - 1;
      bs[n := bs[n].(returnDetected := bs[n].returnDetected || d)]
  }

  predicate BranchReturns(b: Branch) {
    b.elsePos != 0 && b.returnDetected && b.prevReturnDetected
  }

  predicate AllReturn(bs: seq<Branch>) {
    forall b :: b in bs ==> BranchReturns(b)
  }

  /** The flags the branches leave say whether all of them return. */
  lemma {:induction false} AllReturnExact(c: Chain, kind: BranchKind, env: Env, pos: nat)
    requires GenChain(c, env).Some?
    ensures AllReturn(Branches(c, kind, env, pos)) <==> DetectsAll(c)
    decreases c
  {
    hide GenExp, GenStmt, GenChain, Len;
    ChainParts(c, env);
    var bs := Branches(c, kind, env, pos);
    assert bs[0] in bs;
    match c.tail
    case ElseIf(next) =>
      var b := GenStmt(c.body, env).value;
      var rest := Branches(next, ElseIfBranch, b.env, pos + Len(GenExp(c.c, env).value.code) + 5 + Len(b.code) + 5);
      AllReturnExact(next, ElseIfBranch, b.env, pos + Len(GenExp(c.c, env).value.code) + 5 + Len(b.code) + 5);
      assert bs == [bs[0]] + rest;
      assert AllReturn(bs) <==> BranchReturns(bs[0]) && AllReturn(rest) by {
        assert forall b :: b in bs <==> b == bs[0] || b in rest;
      }
    case _ =>
  }
}
