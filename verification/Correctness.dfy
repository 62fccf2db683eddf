/** A compiled procedure does what its source means. */
module Correctness {
  import opened Syntax
  import opened Instructions
  import opened Code
  import opened Compiler
  import opened ByteCounts
  import opened CompilerLemmas
  import opened Rendering
  import opened OpenCode
  import opened Data
  import opened Machine
  import opened Semantics
  import opened StackLemmas
  import opened SimulateExp
  import opened SimulateStmt
  import opened Limits

  /** The unit holds the finished code of a procedure body compiled in env: its
      code is shorter than 2^31 bytes and its numbers fit 32 bits. */
  predicate Finished(body: Stmt, env: Env, u: Unit) {
    && GenStmt(body, env).Some? && env.iters == [] && !env.inLoop
    && var c := GenStmt(body, env).value;
       && u.code == Render(c.code, |c.env.locals|) && |u.code| < 0x8000_0000
       && c.env.pool <= u.consts && |c.env.pool| <= MAX32
       && |c.env.locals| < 0x8000_0000 && |env.procs| <= MAX32
  }

  /** The code runs in its own unit, and what it counts in one byte fits. */
  predicate Runnable(body: Stmt, env: Env, u: Unit) {
    Finished(body, env, u) && Narrow(body, env) && Linked(u, env)
  }

  /** How the source says a call of the procedure ends. */
  function Ending(r: Outcome): State
    requires r.Normal? || r.Returned? || r.Failed?
  {
    match r
    case Normal(_) => FellOff
    case Returned(v, w) => Done(v, w)
    case Failed => State.Raised
  }

  /** Every call starts at the first byte with its locals on the stack. */
  function Entry(locals: seq<Val>, w: World): State {
    Conf(0, Semantics.Store(locals, [], w), [])
  }

  lemma FinishedAt(body: Stmt, env: Env, u: Unit, t: Targets)
    requires Finished(body, env, u) && t.base == |GenStmt(body, env).value.env.locals|
    ensures At(u.code, 0, GenStmt(body, env).value.code, t)
    ensures Len(GenStmt(body, env).value.code) == |u.code|
  {
    hide GenStmt, At, Len, Small, AllSmall, AllEncodable, Render;
    var c := GenStmt(body, env).value;
    StmtClosed(body, env);
    StmtGrows(body, env);
    StmtFits(body, env);
    SmallEncodable(c.code, Len(c.code), t.base);
    RenderAt([], c.code, [], t);
    assert [] + Render(c.code, t.base) + [] == u.code;
  }

  lemma SmallEncodable(c: seq<Item>, span: nat, base: nat)
    requires AllSmall(c, span, span) && span < 0x8000_0000 && base < 0x8000_0000
    ensures AllEncodable(c, base)
  {
    hide OperandSize;
    assert OperandSize(W_LDLO32) == 4 by { LoadSize(); }
    JumpNumbers();
    Powers();
    forall x | x in c
      ensures Encodable(Emitted(x, base))
    {
      assert Small(x, span, span);
    }
  }

  lemma JumpNumbers()
    ensures IsJump(W_JMP) && W_NA < W_JMP < W_OP_END_MARK && !IsJump(W_LDLO32) && W_NA < W_LDLO32 < W_OP_END_MARK
  {
  }

  /** Outside of loops nothing breaks or continues. */
  lemma {:induction false} NoJumpOut(s: Stmt, env: Env, calls: Calls, st: Semantics.Store, fuel: nat)
    requires GenStmt(s, env).Some? && !env.inLoop
    ensures var r := Exec(s, env, calls, st, fuel); !r.Broke? && !r.Continued?
    decreases fuel, s, 5
  {
    hide GenExp, GenBool, Eval, GenCopyHead, GenCopy, SelectPairs, SharedPairs, ExecCopy, Test, Stored, StartIter, ExecWhile,
      ExecUntil, ExecFor, ExecForeach, Lookup;
    match s
    case Seq(s1, s2) =>
      NoJumpOut(s1, env, calls, st, fuel);
      EnvLoop(s1, env);
      var r := Exec(s1, env, calls, st, fuel);
      if r.Normal? { NoJumpOut(s2, GenStmt(s1, env).value.env, calls, r.st, fuel); }
    case If(chain) => NoChainJump(chain, env, calls, st, fuel);
    case While(c, body) => LoopEnds(s, env, calls, st, fuel);
    case Until(body, c) => LoopEnds(s, env, calls, st, fuel);
    case For(i, c, t, body) => LoopEnds(s, env, calls, st, fuel);
    case Foreach(it, e, reverse, body) => LoopEnds(s, env, calls, st, fuel);
    case RowCopy(_, _, _, _, _, _) => CopyEnds(s, env, calls, st, fuel);
    case RowCopyFree(_, _, _, _) => CopyEnds(s, env, calls, st, fuel);
    case _ =>
  }

  lemma {:induction false} NoChainJump(c: Chain, env: Env, calls: Calls, st: Semantics.Store, fuel: nat)
    requires GenChain(c, env).Some? && !env.inLoop
    ensures var r := ExecChain(c, env, calls, st, fuel); !r.Broke? && !r.Continued?
    decreases fuel, c, 5
  {
    hide GenExp, GenBool, Test, Exec, GenStmt;
    ChainParts(c, env);
    EnvLoop(c.body, env);
    var env1 := GenStmt(c.body, env).value.env;
    var x := Test(c.c, env, calls, st);
    if x.Value? {
      NoJumpOut(c.body, env, calls, x.st, fuel);
      match c.tail
      case NoElse =>
      case Else(s) => NoJumpOut(s, env1, calls, x.st, fuel);
      case ElseIf(next) => NoChainJump(next, env1, calls, x.st, fuel);
    }
  }

  lemma CopyEnds(s: Stmt, env: Env, calls: Calls, st: Semantics.Store, fuel: nat)
    requires (s.RowCopy? || s.RowCopyFree?) && GenStmt(s, env).Some?
    ensures var r := Exec(s, env, calls, st, fuel); r.Normal? || r.Failed?
  {
    hide GenExp, Eval, CopyFields, SelectPairs, SharedPairs, GenCopy;
  }

  /** A loop is left by its end, a return or a failure. */
  predicate Leaves(r: Outcome) {
    !r.Broke? && !r.Continued?
  }

  lemma LoopEnds(s: Stmt, env: Env, calls: Calls, st: Semantics.Store, fuel: nat)
    requires (s.While? || s.Until? || s.For? || s.Foreach?) && GenStmt(s, env).Some?
    ensures Leaves(Exec(s, env, calls, st, fuel))
  {
    hide GenExp, GenBool, Eval, StartIter, ExecWhile, ExecUntil, ExecFor, ExecForeach, Lookup, GenStmt, WhileCode, UntilCode, ForCode, ForeachCode;
    if s.Foreach? {
      ForeachUnfold(s, env, calls, st, fuel);
      var x := Eval(s.e, env, calls, st);
      var inner := Enter(s.it, GenExp(s.e, env).value.ty, env);
      if x.Value? && StartIter(s.reverse, Raw(x.o, x.st), x.st.w).Some? && StartIter(s.reverse, Raw(x.o, x.st), x.st.w).value.From? {
        ForeachEnds(s.reverse, s.body, inner, calls, WithIter(x.st, StartIter(s.reverse, Raw(x.o, x.st), x.st.w).value.it), fuel);
      }
    } else if s.For? {
      ForUnfold(s, env, calls, st, fuel);
      var q := Eval(s.init, env, calls, st);
      if q.Value? { ForEnds(s.c, s.step, s.body, env, calls, q.st, fuel); }
    } else {
      LoopUnfold(s, env, calls, st, fuel);
      if s.While? { WhileEnds(s.c, s.body, env, calls, st, fuel); } else { UntilEnds(s.body, s.c, env, calls, st, fuel); }
    }
  }

  lemma {:induction false} WhileEnds(c: Exp, body: Stmt, env: Env, calls: Calls, st: Semantics.Store, fuel: nat)
    requires GenBool(c, env).Some? && GenStmt(body, InLoop(env)).Some?
    ensures Leaves(ExecWhile(c, body, env, calls, st, fuel))
    decreases fuel
  {
    hide GenExp, GenStmt, Test, Exec;
    var x := Test(c, env, calls, st);
    if x.Value? && fuel > 0 {
      var r := Exec(body, InLoop(env), calls, x.st, fuel);
      if r.Normal? || r.Continued? { WhileEnds(c, body, env, calls, r.st, fuel - 1); }
    }
  }

  lemma {:induction false} UntilEnds(body: Stmt, c: Exp, env: Env, calls: Calls, st: Semantics.Store, fuel: nat)
    requires GenStmt(body, InLoop(env)).Some? && GenBool(c, GenStmt(body, InLoop(env)).value.env).Some?
    ensures Leaves(ExecUntil(body, c, env, calls, st, fuel))
    decreases fuel, 1
  {
    hide GenExp, GenStmt, Exec, UntilTest;
    var r := Exec(body, InLoop(env), calls, st, fuel);
    if r.Normal? || r.Continued? {
      UntilTestEnds(body, c, env, calls, r.st, fuel);
    }
  }

  lemma {:induction false} UntilTestEnds(body: Stmt, c: Exp, env: Env, calls: Calls, st: Semantics.Store, fuel: nat)
    requires GenStmt(body, InLoop(env)).Some? && GenBool(c, GenStmt(body, InLoop(env)).value.env).Some?
    ensures Leaves(UntilTest(body, c, env, calls, st, fuel))
    decreases fuel, 0
  {
    hide GenExp, GenStmt, Test, ExecUntil;
    var x := Test(c, GenStmt(body, InLoop(env)).value.env, calls, st);
    if x.Value? && fuel > 0 {
      UntilEnds(body, c, env, calls, x.st, fuel - 1);
    }
  }

  lemma {:induction false} ForEnds(c: Exp, step: Exp, body: Stmt, env: Env, calls: Calls, st: Semantics.Store, fuel: nat)
    requires GenBool(c, env).Some? && GenExp(step, env).Some? && GenStmt(body, InLoop(env)).Some?
    ensures Leaves(ExecFor(c, step, body, env, calls, st, fuel))
    decreases fuel, 1
  {
    hide GenExp, GenStmt, Test, Exec, ForStep;
    var x := Test(c, env, calls, st);
    if x.Value? {
      var r := Exec(body, InLoop(env), calls, x.st, fuel);
      if r.Normal? || r.Continued? {
        ForStepEnds(c, step, body, env, calls, r.st, fuel);
      }
    }
  }

  lemma {:induction false} ForStepEnds(c: Exp, step: Exp, body: Stmt, env: Env, calls: Calls, st: Semantics.Store, fuel: nat)
    requires GenBool(c, env).Some? && GenExp(step, env).Some? && GenStmt(body, InLoop(env)).Some?
    ensures Leaves(ForStep(c, step, body, env, calls, st, fuel))
    decreases fuel, 0
  {
    hide GenExp, GenStmt, Eval, ExecFor;
    var y := Eval(step, env, calls, st);
    if y.Value? && fuel > 0 {
      ForEnds(c, step, body, env, calls, y.st, fuel - 1);
    }
  }

  lemma {:induction false} ForeachEnds(reverse: bool, body: Stmt, inner: Env, calls: Calls, st: Semantics.Store, fuel: nat)
    requires GenStmt(body, inner).Some?
    ensures Leaves(ExecForeach(reverse, body, inner, calls, st, fuel))
    decreases fuel
  {
    hide GenStmt, Exec, NextIter;
    var r := Exec(body, inner, calls, st, fuel);
    if (r.Normal? || r.Continued?) && r.st.iters != [] && fuel > 0 {
      var k := |r.st.iters| - 1;
      var q := NextIter(reverse, r.st.iters[k], r.st.w);
      if q.Some? && q.value.From? {
        ForeachEnds(reverse, body, inner, calls, r.st.(iters := r.st.iters[k := q.value.it]), fuel - 1);
      }
    }
  }

  // ----- the theorem -----

  /** For every number of loop iterations the source needs, the machine stops in
      the state the source calls for; while the source needs more, the machine
      is still running after at least as many steps. */
  lemma ProcedureCorrect(body: Stmt, env: Env, u: Unit, locals: seq<Val>, w: World, fuel: nat) returns (n: nat)
    requires Runnable(body, env, u) && |locals| == |GenStmt(body, env).value.env.locals|
    ensures var r := Exec(body, env, u.calls, Semantics.Store(locals, [], w), fuel);
            if r.OutOfFuel? then n >= fuel && Steps(u, Entry(locals, w), n).Running?
            else (r.Normal? || r.Returned? || r.Failed?) && Steps(u, Entry(locals, w), n) == Ending(r)
  {
    hide GenStmt, Exec, At, Len, Narrow, Linked, Steps;
    var t := Targets(0, 0, |locals|);
    var st := Semantics.Store(locals, [], w);
    FinishedAt(body, env, u, t);
    StmtGrows(body, env);
    LinkedSame(u, env, GenStmt(body, env).value.env);
    n := SimStmt(body, env, u, 0, st, t, fuel);
    NoJumpOut(body, env, u.calls, st, fuel);
    var r := Exec(body, env, u.calls, st, fuel);
    if r.Normal? {
      AtEnd(u, r.st);
      StepsAdd(u, Entry(locals, w), n, 1);
      n := n + 1;
    }
  }

  lemma AtEnd(u: Unit, st: Semantics.Store)
    ensures Steps(u, Conf(|u.code|, st, []), 1) == FellOff
  {
    assert Steps(u, Conf(|u.code|, st, []), 1) == Steps(u, Step(u, Conf(|u.code|, st, [])), 0);
  }

  /** The other direction: if the machine stops at all, the source ends, and in
      the same way. In particular the machine never gets stuck. */
  lemma MachineStops(body: Stmt, env: Env, u: Unit, locals: seq<Val>, w: World, m: nat)
    requires Runnable(body, env, u) && |locals| == |GenStmt(body, env).value.env.locals|
    requires !Steps(u, Entry(locals, w), m).Running?
    ensures var r := Exec(body, env, u.calls, Semantics.Store(locals, [], w), m);
            (r.Normal? || r.Returned? || r.Failed?) && Steps(u, Entry(locals, w), m) == Ending(r)
  {
    hide GenStmt, Exec, Runnable, Steps, Entry;
    var n := ProcedureCorrect(body, env, u, locals, w, m);
    var s := Entry(locals, w);
    if n >= m {
      StepsAdd(u, s, m, n - m);
      StepsStopped(u, Steps(u, s, m), n - m);
    } else {
      StepsAdd(u, s, n, m - n);
      StepsStopped(u, Steps(u, s, n), m - n);
    }
  }

  /** No run of a compiled procedure ever decodes an invalid instruction, takes a
      value from an empty stack or reaches a slot that is not there. */
  lemma NeverCorrupt(body: Stmt, env: Env, u: Unit, locals: seq<Val>, w: World, m: nat)
    requires Runnable(body, env, u) && |locals| == |GenStmt(body, env).value.env.locals|
    ensures !Steps(u, Entry(locals, w), m).Corrupt?
  {
    hide GenStmt, Exec, Runnable, Steps, Entry;
    if !Steps(u, Entry(locals, w), m).Running? {
      MachineStops(body, env, u, locals, w, m);
    }
  }
}
