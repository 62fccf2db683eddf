/** What the return check promises about runs of a compiled procedure. */
module ReturnSafety {
  import opened Syntax
  import opened Compiler
  import opened CompilerLemmas
  import opened Data
  import opened Machine
  import opened Semantics
  import opened StackLemmas
  import opened SimulateStmt
  import opened Correctness
  import R = Returns

  function WayOf(r: Outcome): R.Way {
    match r
    case Normal(_) => R.Falls
    case Broke(_) => R.Breaks
    case Continued(_) => R.Continues
    case Returned(_, _) => R.Returns
    case _ => R.Open
  }

  predicate Possible(s: Stmt, r: Outcome) {
    WayOf(r).Open? || R.Can(s, WayOf(r))
  }

  predicate LoopPossible(body: Stmt, r: Outcome) {
    WayOf(r).Open? || R.CanLoop(body, WayOf(r))
  }

  /** An execution ends in one of the ways read off the statement. */
  lemma {:induction false} ExecPossible(s: Stmt, env: Env, calls: Calls, st: Semantics.Store, fuel: nat)
    requires GenStmt(s, env).Some?
    ensures Possible(s, Exec(s, env, calls, st, fuel))
    decreases fuel, s, 5
  {
    hide GenExp, GenBool, Eval, GenCopyHead, GenCopy, SelectPairs, SharedPairs, ExecCopy, Test, Stored, StartIter, ExecWhile,
      ExecUntil, ExecFor, ExecForeach, Lookup;
    match s
    case Seq(s1, s2) =>
      ExecPossible(s1, env, calls, st, fuel);
      var r := Exec(s1, env, calls, st, fuel);
      if r.Normal? { ExecPossible(s2, GenStmt(s1, env).value.env, calls, r.st, fuel); }
    case If(chain) => ChainPossible(chain, env, calls, st, fuel);
    case While(c, body) => WhilePossible(c, body, env, calls, st, fuel);
    case Until(body, c) => UntilPossible(body, c, env, calls, st, fuel);
    case For(i, c, t, body) =>
      var q := Eval(i, env, calls, st);
      if q.Value? { ForPossible(c, t, body, env, calls, q.st, fuel); }
    case Foreach(it, e, reverse, body) => ForeachStmtPossible(s, env, calls, st, fuel);
    case RowCopy(_, _, _, _, _, _) => CopyEnds(s, env, calls, st, fuel);
    case RowCopyFree(_, _, _, _) => CopyEnds(s, env, calls, st, fuel);
    case _ =>
  }

  lemma {:induction false} ChainPossible(c: Chain, env: Env, calls: Calls, st: Semantics.Store, fuel: nat)
    requires GenChain(c, env).Some?
    ensures var r := ExecChain(c, env, calls, st, fuel); WayOf(r).Open? || R.CanChain(c, WayOf(r))
    decreases fuel, c, 5
  {
    hide GenExp, GenBool, Test, Exec, GenStmt;
    ChainParts(c, env);
    var env1 := GenStmt(c.body, env).value.env;
    var x := Test(c.c, env, calls, st);
    if x.Value? {
      ExecPossible(c.body, env, calls, x.st, fuel);
      match c.tail
      case NoElse =>
      case Else(s) => ExecPossible(s, env1, calls, x.st, fuel);
      case ElseIf(next) => ChainPossible(next, env1, calls, x.st, fuel);
    }
  }

  lemma {:induction false} WhilePossible(c: Exp, body: Stmt, env: Env, calls: Calls, st: Semantics.Store, fuel: nat)
    requires GenBool(c, env).Some? && GenStmt(body, InLoop(env)).Some?
    ensures LoopPossible(body, ExecWhile(c, body, env, calls, st, fuel))
    decreases fuel, body, 6
  {
    hide GenExp, GenStmt, Test, Exec, R.Can;
    WhileRound(c, body, env, calls, st, fuel);
    var x := Test(c, env, calls, st);
    if x.Value? {
      ExecPossible(body, InLoop(env), calls, x.st, fuel);
      var r := Exec(body, InLoop(env), calls, x.st, fuel);
      if (r.Normal? || r.Continued?) && fuel > 0 { WhilePossible(c, body, env, calls, r.st, fuel - 1); }
    }
  }

  /** The body of an UNTIL runs at least once. */
  lemma {:induction false} UntilPossible(body: Stmt, c: Exp, env: Env, calls: Calls, st: Semantics.Store, fuel: nat)
    requires GenStmt(body, InLoop(env)).Some? && GenBool(c, GenStmt(body, InLoop(env)).value.env).Some?
    ensures Possible(Until(body, c), ExecUntil(body, c, env, calls, st, fuel))
    decreases fuel, body, 6
  {
    hide GenExp, GenStmt, Test, Exec, ExecUntil;
    UntilRound(body, c, env, calls, st, fuel);
    ExecPossible(body, InLoop(env), calls, st, fuel);
    var r := Exec(body, InLoop(env), calls, st, fuel);
    if r.Normal? || r.Continued? {
      var x := Test(c, GenStmt(body, InLoop(env)).value.env, calls, r.st);
      if x.Value? && fuel > 0 { UntilPossible(body, c, env, calls, x.st, fuel - 1); }
    }
  }

  lemma {:induction false} ForPossible(c: Exp, step: Exp, body: Stmt, env: Env, calls: Calls, st: Semantics.Store, fuel: nat)
    requires GenBool(c, env).Some? && GenExp(step, env).Some? && GenStmt(body, InLoop(env)).Some?
    ensures LoopPossible(body, ExecFor(c, step, body, env, calls, st, fuel))
    decreases fuel, body, 7
  {
    hide GenExp, GenStmt, Test, Exec, ForStep, R.Can;
    var x := Test(c, env, calls, st);
    if x.Value? {
      ExecPossible(body, InLoop(env), calls, x.st, fuel);
      var r := Exec(body, InLoop(env), calls, x.st, fuel);
      if r.Normal? || r.Continued? { ForStepPossible(c, step, body, env, calls, r.st, fuel); }
    }
  }

  lemma {:induction false} ForStepPossible(c: Exp, step: Exp, body: Stmt, env: Env, calls: Calls, st: Semantics.Store, fuel: nat)
    requires GenBool(c, env).Some? && GenExp(step, env).Some? && GenStmt(body, InLoop(env)).Some?
    ensures LoopPossible(body, ForStep(c, step, body, env, calls, st, fuel))
    decreases fuel, body, 6
  {
    hide GenExp, GenStmt, Eval, ExecFor, R.Can, R.CanLoop;
    var y := Eval(step, env, calls, st);
    if y.Value? && fuel > 0 { ForPossible(c, step, body, env, calls, y.st, fuel - 1); }
  }

  lemma {:induction false} ForeachPossible(reverse: bool, body: Stmt, inner: Env, calls: Calls, st: Semantics.Store, fuel: nat)
    requires GenStmt(body, inner).Some?
    ensures LoopPossible(body, ExecForeach(reverse, body, inner, calls, st, fuel))
    decreases fuel, body, 6
  {
    hide GenStmt, Exec, NextIter, R.Can;
    ExecPossible(body, inner, calls, st, fuel);
    var r := Exec(body, inner, calls, st, fuel);
    if (r.Normal? || r.Continued?) && r.st.iters != [] && fuel > 0 {
      var k := |r.st.iters| - 1;
      var q := NextIter(reverse, r.st.iters[k], r.st.w);
      if q.Some? && q.value.From? {
        ForeachPossible(reverse, body, inner, calls, r.st.(iters := r.st.iters[k := q.value.it]), fuel - 1);
      }
    }
  }

  lemma {:induction false} ForeachStmtPossible(s: Stmt, env: Env, calls: Calls, st: Semantics.Store, fuel: nat)
    requires s.Foreach? && GenStmt(s, env).Some?
    ensures Possible(s, Exec(s, env, calls, st, fuel))
    decreases fuel, s, 4
  {
    hide GenExp, GenStmt, Exec, Eval, StartIter, ExecForeach;
    ForeachUnfold(s, env, calls, st, fuel);
    assert forall w: R.Way :: R.Can(s, w) == R.CanLoop(s.body, w);
    var x := Eval(s.e, env, calls, st);
    if x.Value? {
      var q := StartIter(s.reverse, Raw(x.o, x.st), x.st.w);
      if q.Some? && q.value.From? {
        ForeachPossible(s.reverse, s.body, Enter(s.it, GenExp(s.e, env).value.ty, env), calls, WithIter(x.st, q.value.it), fuel);
      }
    }
  }

  // ----- the promise -----

  /** A procedure falls off its end in some run only if some path of it does. */
  lemma FallsOnPath(body: Stmt, env: Env, u: Unit, locals: seq<Val>, w: World, m: nat)
    requires Runnable(body, env, u) && |locals| == |GenStmt(body, env).value.env.locals|
    requires Steps(u, Entry(locals, w), m).FellOff?
    ensures R.Can(body, R.Falls)
  {
    hide GenStmt, Exec, Runnable, Steps, Entry, R.Can;
    MachineStops(body, env, u, locals, w, m);
    RunnableSome(body, env, u);
    ExecPossible(body, env, u.calls, Semantics.Store(locals, [], w), m);
  }

  lemma RunnableSome(body: Stmt, env: Env, u: Unit)
    requires Runnable(body, env, u)
    ensures GenStmt(body, env).Some?
  {
  }

  /** A procedure without loops that passes the return check never falls off its
      end, whatever its arguments. */
  lemma CheckedNeverFalls(body: Stmt, env: Env, u: Unit, locals: seq<Val>, w: World, m: nat)
    requires Runnable(body, env, u) && |locals| == |GenStmt(body, env).value.env.locals|
    requires R.LoopFree(body) && R.Detects(body)
    ensures !Steps(u, Entry(locals, w), m).FellOff?
  {
    hide GenStmt, Runnable, Steps, Entry, R.Can;
    if Steps(u, Entry(locals, w), m).FellOff? {
      FallsOnPath(body, env, u, locals, w, m);
      R.LoopFreeExact(body);
    }
  }

  const ZeroTimes := While(BoolC(false), Return(NullC))

  /** With loops the check is not enough: this body passes it in every
      environment and always reaches its end. */
  lemma CheckedMayFall(env: Env, calls: Calls, st: Semantics.Store, fuel: nat)
    ensures R.Detects(ZeroTimes) && R.Can(ZeroTimes, R.Falls)
    ensures GenStmt(ZeroTimes, env).Some? && Exec(ZeroTimes, env, calls, st, fuel) == Normal(st)
  {
  }
}
