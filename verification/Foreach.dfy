/** A FOREACH over an array runs its body once for every element, in order. */
module Foreach {
  import opened Wrappers
  import opened Syntax
  import opened Operators
  import opened Compiler
  import opened CompilerLemmas
  import opened Data
  import opened Meaning
  import opened Semantics
  import opened StackLemmas
  import opened SimulateStmt
  import opened Memory

  // ----- no execution changes the iterators of the loops around it -----

  /** Every iterator is on an array element. */
  predicate OnElements(its: seq<Val>) {
    forall k :: 0 <= k < |its| ==> its[k].ElemAt?
  }

  predicate SameIters(r: Result, st: Store) {
    r.Value? ==> r.st.iters == st.iters
  }

  lemma StoredKeeps(t: Ty, d: Operand, s: Operand, st: Store)
    requires OnElements(st.iters)
    ensures SameIters(Stored(t, d, s, st), st)
  {
    hide Converted, Load;
    if d.It? && d.k < |st.iters| {
      assert st.iters[d.k].ElemAt?;
    }
  }

  lemma {:induction false} EvalKeeps(e: Exp, env: Env, calls: Calls, st: Store)
    requires GenExp(e, env).Some? && OnElements(st.iters)
    ensures SameIters(Eval(e, env, calls, st), st)
    decreases e, 0
  {
    hide Applied, Stored, Selected, Condition, NullTest, Inverted, OnElements, Read, Raw, Lookup, CommonType, Passable, StoreOpcode,
      BinCode, Invoke;
    match e
    case Not(x) => EvalKeeps(x, env, calls, st);
    case IsNull(x, _) => EvalKeeps(x, env, calls, st);
    case Bin(op, l, r) =>
      TwoKeep(e, l, r, env, calls, st);
      OperatorKeeps(e, env, calls, st);
    case Store(l, r) =>
      TwoKeep(e, l, r, env, calls, st);
      var x := Eval(l, env, calls, st);
      if x.Value? && Eval(r, env, calls, x.st).Value? {
        var y := Eval(r, env, calls, x.st);
        StoredKeeps(GenExp(l, env).value.ty, x.o, y.o, y.st);
      }
    case Index(l, r) =>
      TwoKeep(e, l, r, env, calls, st);
      PureKeeps();
    case Sel(c, l, r) =>
      EvalKeeps(c, env, calls, st);
      var x := Eval(c, env, calls, st);
      if x.Value? {
        EvalKeeps(l, env, calls, x.st);
        EvalKeeps(r, env, calls, x.st);
      }
    case Call(p, args) =>
      ArgsKeep(args, env.procs[p].params, env, calls, st);
      InvokeKeeps();
    case _ =>
  }

  lemma PureKeeps()
    ensures forall op: BinOp, f: Base, s: Base, a: Operand, b: Operand, st: Store :: SameIters(Applied(op, f, s, a, b, st), st)
    ensures forall a: Operand, b: Operand, st: Store :: SameIters(Selected(a, b, st), st)
  {
  }

  lemma InvokeKeeps()
    ensures forall p: nat, os: seq<Operand>, missing: nat, calls: Calls, st: Store ::
              SameIters(Invoke(p, os, missing, calls, st), st)
  {
  }

  lemma OperatorKeeps(e: Exp, env: Env, calls: Calls, st: Store)
    requires GenExp(e, env).Some? && e.Bin? && GenExp(e.l, env).Some? && GenExp(e.r, env).Some?
    requires SameIters(Eval(e.l, env, calls, st), st)
    requires var x := Eval(e.l, env, calls, st); x.Value? ==> SameIters(Eval(e.r, env, calls, x.st), x.st)
    ensures SameIters(Eval(e, env, calls, st), st)
  {
    hide Operate, Condition, Read, Raw, BinCode, GenExp;
  }

  lemma {:induction false} TwoKeep(e: Exp, l: Exp, r: Exp, env: Env, calls: Calls, st: Store)
    requires l < e && r < e && GenExp(l, env).Some? && GenExp(r, env).Some? && OnElements(st.iters)
    ensures SameIters(Eval(l, env, calls, st), st)
    ensures var x := Eval(l, env, calls, st);
            x.Value? ==> OnElements(x.st.iters) && SameIters(Eval(r, env, calls, x.st), x.st)
    decreases e, -1
  {
    hide Eval, GenExp;
    EvalKeeps(l, env, calls, st);
    var x := Eval(l, env, calls, st);
    if x.Value? {
      EvalKeeps(r, env, calls, x.st);
    }
  }

  lemma {:induction false} ArgsKeep(args: Args, params: seq<Ty>, env: Env, calls: Calls, st: Store)
    requires GenArgs(args, params, env).Some? && OnElements(st.iters)
    ensures var r := EvalArgs(args, params, env, calls, st); r.Values? ==> r.st.iters == st.iters
    decreases args, 0
  {
    hide GenExp, Eval, Passable;
    if args.Arg? {
      EvalKeeps(args.head, env, calls, st);
      var x := Eval(args.head, env, calls, st);
      if x.Value? {
        ArgsKeep(args.tail, params[1..], env, calls, x.st);
      }
    }
  }

  /** Wherever the statement ends, these are the iterators. */
  predicate Kept(r: Outcome, its: seq<Val>) {
    r.Normal? || r.Broke? || r.Continued? ==> r.st.iters == its
  }

  lemma TestKeeps(c: Exp, env: Env, calls: Calls, st: Store)
    requires GenExp(c, env).Some? && OnElements(st.iters)
    ensures SameIters(Test(c, env, calls, st), st)
  {
    hide Condition, Eval;
    EvalKeeps(c, env, calls, st);
  }

  lemma BoolGen(c: Exp, env: Env)
    requires GenBool(c, env).Some?
    ensures GenExp(c, env).Some?
  {
  }

  lemma {:induction false} ExecKeeps(s: Stmt, env: Env, calls: Calls, st: Store, fuel: nat)
    requires GenStmt(s, env).Some? && OnElements(st.iters)
    ensures Kept(Exec(s, env, calls, st, fuel), st.iters)
    decreases fuel, s, 5
  {
    hide GenExp, GenBool, Eval, GenCopyHead, GenCopy, SelectPairs, SharedPairs, ExecCopy, Test, Stored, StartIter, ExecWhile,
      ExecUntil, ExecFor, ExecForeach, Lookup, OnElements;
    match s
    case Seq(s1, s2) =>
      ExecKeeps(s1, env, calls, st, fuel);
      var r := Exec(s1, env, calls, st, fuel);
      if r.Normal? { ExecKeeps(s2, GenStmt(s1, env).value.env, calls, r.st, fuel); }
    case ExpStmt(e) => EvalKeeps(e, env, calls, st);
    case Assign(_, _) => AssignKeeps(s, env, calls, st, fuel);
    case If(chain) => ChainKeeps(chain, env, calls, st, fuel);
    case While(c, body) => WhileKeeps(c, body, env, calls, st, fuel);
    case Until(body, c) => UntilKeeps(body, c, env, calls, st, fuel);
    case For(i, c, t, body) =>
      EvalKeeps(i, env, calls, st);
      var q := Eval(i, env, calls, st);
      if q.Value? { ForKeeps(c, t, body, env, calls, q.st, fuel); }
    case Foreach(_, _, _, _) => ForeachStmtKeeps(s, env, calls, st, fuel);
    case RowCopy(_, _, _, _, _, _) => CopyKeeps(s, env, calls, st, fuel);
    case RowCopyFree(_, _, _, _) => CopyKeeps(s, env, calls, st, fuel);
    case _ =>
  }

  lemma AssignKeeps(s: Stmt, env: Env, calls: Calls, st: Store, fuel: nat)
    requires s.Assign? && GenStmt(s, env).Some? && OnElements(st.iters)
    ensures Kept(Exec(s, env, calls, st, fuel), st.iters)
  {
    hide GenExp, Eval, Stored, Lookup, OnElements;
    if Lookup(env.locals, s.name).Some? {
      EvalKeeps(Exp.Store(Id(s.name), s.e), env, calls, st);
    } else {
      EvalKeeps(s.e, env, calls, st);
      var x := Eval(s.e, env, calls, st);
      if x.Value? {
        StoredKeeps(GenExp(s.e, env).value.ty, L(|env.locals|), x.o, x.st);
      }
    }
  }

  lemma CopyKeeps(s: Stmt, env: Env, calls: Calls, st: Store, fuel: nat)
    requires (s.RowCopy? || s.RowCopyFree?) && GenStmt(s, env).Some? && OnElements(st.iters)
    ensures Kept(Exec(s, env, calls, st, fuel), st.iters)
  {
    hide GenExp, Eval, CopyFields, SelectPairs, SharedPairs, GenCopy, OnElements;
    FourKeep(s.lt, s.li, s.rt, s.ri, env, calls, st);
  }

  lemma FourKeep(lt: Exp, li: Exp, rt: Exp, ri: Exp, env: Env, calls: Calls, st: Store)
    requires GenExp(lt, env).Some? && GenExp(li, env).Some? && GenExp(rt, env).Some? && GenExp(ri, env).Some?
    requires OnElements(st.iters)
    ensures forall pairs :: Kept(ExecCopy(lt, li, rt, ri, pairs, env, calls, st), st.iters)
  {
    hide GenExp, Eval, CopyFields, OnElements;
    TwoKeep(Index(lt, li), lt, li, env, calls, st);
    var x := Eval(lt, env, calls, st);
    if x.Value? && Eval(li, env, calls, x.st).Value? {
      TwoKeep(Index(rt, ri), rt, ri, env, calls, Eval(li, env, calls, x.st).st);
    }
  }

  lemma {:induction false} ChainKeeps(c: Chain, env: Env, calls: Calls, st: Store, fuel: nat)
    requires GenChain(c, env).Some? && OnElements(st.iters)
    ensures Kept(ExecChain(c, env, calls, st, fuel), st.iters)
    decreases fuel, c, 5
  {
    hide GenExp, GenBool, Test, Exec, GenStmt, OnElements;
    ChainParts(c, env);
    var env1 := GenStmt(c.body, env).value.env;
    TestKeeps(c.c, env, calls, st);
    var x := Test(c.c, env, calls, st);
    if x.Value? {
      ExecKeeps(c.body, env, calls, x.st, fuel);
      match c.tail
      case NoElse =>
      case Else(s) => ExecKeeps(s, env1, calls, x.st, fuel);
      case ElseIf(next) => ChainKeeps(next, env1, calls, x.st, fuel);
    }
  }

  lemma {:induction false} WhileKeeps(c: Exp, body: Stmt, env: Env, calls: Calls, st: Store, fuel: nat)
    requires GenBool(c, env).Some? && GenStmt(body, InLoop(env)).Some? && OnElements(st.iters)
    ensures Kept(ExecWhile(c, body, env, calls, st, fuel), st.iters)
    decreases fuel, body, 6
  {
    hide GenExp, GenBool, GenStmt, Test, Exec, OnElements;
    BoolGen(c, env);
    WhileRound(c, body, env, calls, st, fuel);
    TestKeeps(c, env, calls, st);
    var x := Test(c, env, calls, st);
    if x.Value? {
      ExecKeeps(body, InLoop(env), calls, x.st, fuel);
      var r := Exec(body, InLoop(env), calls, x.st, fuel);
      if (r.Normal? || r.Continued?) && fuel > 0 { WhileKeeps(c, body, env, calls, r.st, fuel - 1); }
    }
  }

  lemma {:induction false} UntilKeeps(body: Stmt, c: Exp, env: Env, calls: Calls, st: Store, fuel: nat)
    requires GenStmt(body, InLoop(env)).Some? && GenBool(c, GenStmt(body, InLoop(env)).value.env).Some? && OnElements(st.iters)
    ensures Kept(ExecUntil(body, c, env, calls, st, fuel), st.iters)
    decreases fuel, body, 7
  {
    hide GenExp, GenBool, GenStmt, Test, Exec, ExecUntil, UntilTest, OnElements;
    UntilRound(body, c, env, calls, st, fuel);
    ExecKeeps(body, InLoop(env), calls, st, fuel);
    var r := Exec(body, InLoop(env), calls, st, fuel);
    if r.Normal? || r.Continued? { UntilTestKeeps(body, c, env, calls, r.st, fuel); }
  }

  lemma {:induction false} UntilTestKeeps(body: Stmt, c: Exp, env: Env, calls: Calls, st: Store, fuel: nat)
    requires GenStmt(body, InLoop(env)).Some? && GenBool(c, GenStmt(body, InLoop(env)).value.env).Some? && OnElements(st.iters)
    ensures Kept(UntilTest(body, c, env, calls, st, fuel), st.iters)
    decreases fuel, body, 6
  {
    hide GenExp, GenBool, GenStmt, Test, ExecUntil, OnElements;
    var inner := GenStmt(body, InLoop(env)).value.env;
    BoolGen(c, inner);
    TestKeeps(c, inner, calls, st);
    var x := Test(c, inner, calls, st);
    if x.Value? && fuel > 0 { UntilKeeps(body, c, env, calls, x.st, fuel - 1); }
  }

  lemma {:induction false} ForKeeps(c: Exp, step: Exp, body: Stmt, env: Env, calls: Calls, st: Store, fuel: nat)
    requires GenBool(c, env).Some? && GenExp(step, env).Some? && GenStmt(body, InLoop(env)).Some? && OnElements(st.iters)
    ensures Kept(ExecFor(c, step, body, env, calls, st, fuel), st.iters)
    decreases fuel, body, 7
  {
    hide GenExp, GenBool, GenStmt, Test, Exec, ForStep, OnElements;
    BoolGen(c, env);
    ForRound(c, step, body, env, calls, st, fuel);
    TestKeeps(c, env, calls, st);
    var x := Test(c, env, calls, st);
    if x.Value? {
      ExecKeeps(body, InLoop(env), calls, x.st, fuel);
      var r := Exec(body, InLoop(env), calls, x.st, fuel);
      if r.Normal? || r.Continued? { ForStepKeeps(c, step, body, env, calls, r.st, fuel); }
    }
  }

  lemma {:induction false} ForStepKeeps(c: Exp, step: Exp, body: Stmt, env: Env, calls: Calls, st: Store, fuel: nat)
    requires GenBool(c, env).Some? && GenExp(step, env).Some? && GenStmt(body, InLoop(env)).Some? && OnElements(st.iters)
    ensures Kept(ForStep(c, step, body, env, calls, st, fuel), st.iters)
    decreases fuel, body, 6
  {
    hide GenExp, GenBool, GenStmt, Eval, ExecFor, OnElements;
    EvalKeeps(step, env, calls, st);
    var y := Eval(step, env, calls, st);
    if y.Value? && fuel > 0 { ForKeeps(c, step, body, env, calls, y.st, fuel - 1); }
  }

  lemma {:induction false} ForeachStmtKeeps(s: Stmt, env: Env, calls: Calls, st: Store, fuel: nat)
    requires s.Foreach? && GenStmt(s, env).Some? && OnElements(st.iters)
    ensures Kept(Exec(s, env, calls, st, fuel), st.iters)
    decreases fuel, s, 4
  {
    hide GenExp, GenStmt, Exec, Eval, StartIter, ExecForeach, OnElements;
    ForeachUnfold(s, env, calls, st, fuel);
    EvalKeeps(s.e, env, calls, st);
    var x := Eval(s.e, env, calls, st);
    if x.Value? {
      var q := StartIter(s.reverse, Raw(x.o, x.st), x.st.w);
      if q.Some? && q.value.From? {
        var inner := Enter(s.it, GenExp(s.e, env).value.ty, env);
        StartsOnElement(s.reverse, Raw(x.o, x.st), x.st, q.value.it);
        ForeachKeeps(s.reverse, s.body, inner, calls, WithIter(x.st, q.value.it), fuel);
      }
    }
  }

  lemma StartsOnElement(reverse: bool, v: Val, st: Store, it: Val)
    requires OnElements(st.iters) && StartIter(reverse, v, st.w) == Some(From(it))
    ensures it.ElemAt? && OnElements(WithIter(st, it).iters)
    ensures WithIter(st, it).iters[..|st.iters|] == st.iters
  {
  }

  /** A loop changes its own iterator only, which is the last, and drops it. */
  lemma {:induction false} ForeachKeeps(reverse: bool, body: Stmt, inner: Env, calls: Calls, st: Store, fuel: nat)
    requires GenStmt(body, inner).Some? && OnElements(st.iters) && st.iters != []
    ensures Kept(ExecForeach(reverse, body, inner, calls, st, fuel), st.iters[..|st.iters| - 1])
    decreases fuel, body, 6
  {
    hide GenStmt, Exec, NextIter, OnElements;
    ExecKeeps(body, inner, calls, st, fuel);
    var r := Exec(body, inner, calls, st, fuel);
    if (r.Normal? || r.Continued?) && fuel > 0 {
      var k := |r.st.iters| - 1;
      var q := NextIter(reverse, r.st.iters[k], r.st.w);
      if q.Some? && q.value.From? {
        NextOnElement(reverse, r.st, q.value.it);
        ForeachKeeps(reverse, body, inner, calls, r.st.(iters := r.st.iters[k := q.value.it]), fuel - 1);
      }
    }
  }

  lemma NextOnElement(reverse: bool, st: Store, it: Val)
    requires OnElements(st.iters) && st.iters != [] && NextIter(reverse, st.iters[|st.iters| - 1], st.w) == Some(From(it))
    ensures OnElements(st.iters[|st.iters| - 1 := it])
    ensures st.iters[|st.iters| - 1 := it][..|st.iters| - 1] == st.iters[..|st.iters| - 1]
  {
  }

  // ----- the rounds of a loop -----

  /** The body is run once for each iterator in the list, in order. Every round
      after the first takes one of the fuel. */
  function RunOver(its: seq<Val>, body: Stmt, inner: Env, calls: Calls, st: Store, fuel: nat): Outcome
    requires GenStmt(body, inner).Some?
    decreases |its|
  {
    if its == [] then Normal(st)
    else
      var r := Exec(body, inner, calls, WithIter(st, its[0]), fuel);
      if r.Broke? then Normal(DropIter(r.st))
      else if !r.Normal? && !r.Continued? then r
      else if |its| == 1 then Normal(DropIter(r.st))
      else if fuel == 0 then OutOfFuel
      else RunOver(its[1..], body, inner, calls, DropIter(r.st), fuel - 1)
  }

  /** No round changes the number of the array's elements. */
  predicate LengthStays(id: nat, n: nat, its: seq<Val>, body: Stmt, inner: Env, calls: Calls, st: Store, fuel: nat)
    requires GenStmt(body, inner).Some?
    decreases |its|
  {
    its != [] ==>
      var r := Exec(body, inner, calls, WithIter(st, its[0]), fuel);
      r.Normal? || r.Continued? ==>
        && Count(id, r.st.w) == n
        && (|its| > 1 && fuel > 0 ==> LengthStays(id, n, its[1..], body, inner, calls, DropIter(r.st), fuel - 1))
  }

  /** A loop over an array whose length its body leaves alone runs the body once
      for every element: forwards from the first to the last, in reverse from the
      last to the first, up to a BREAK, a RETURN or a failure. */
  lemma ForeachVisits(s: Stmt, env: Env, calls: Calls, st: Store, fuel: nat, id: nat)
    requires s.Foreach? && GenStmt(s, env).Some? && OnElements(st.iters)
    requires GenExp(s.e, env).Some? && Eval(s.e, env, calls, st).Value?
    requires var x := Eval(s.e, env, calls, st); Raw(x.o, x.st) == Arr(id) && Count(id, x.st.w) <= WORD
    requires GenExp(s.e, env).value.ty.Array? && GenStmt(s.body, Enter(s.it, GenExp(s.e, env).value.ty, env)).Some?
    requires var x, inner := Eval(s.e, env, calls, st), Enter(s.it, GenExp(s.e, env).value.ty, env);
             LengthStays(id, Count(id, x.st.w), InOrder(s.reverse, id, Count(id, x.st.w)), s.body, inner, calls, x.st, fuel)
    ensures var x, inner := Eval(s.e, env, calls, st), Enter(s.it, GenExp(s.e, env).value.ty, env);
            Exec(s, env, calls, st, fuel)
              == RunOver(InOrder(s.reverse, id, Count(id, x.st.w)), s.body, inner, calls, x.st, fuel)
  {
    hide GenExp, GenStmt, Exec, Eval, StartIter, ExecForeach, OnElements, Count, LengthStays, InOrder, RunOver;
    ForeachUnfold(s, env, calls, st, fuel);
    EvalKeeps(s.e, env, calls, st);
    var x := Eval(s.e, env, calls, st);
    var n, inner := Count(id, x.st.w), Enter(s.it, GenExp(s.e, env).value.ty, env);
    StartsAtEnd(s.reverse, id, x.st.w);
    if n == 0 {
      NoRounds(s.reverse, id, s.body, inner, calls, x.st, fuel);
    } else {
      RoundsFrom(s.reverse, s.body, inner, calls, x.st, fuel, id, n, 0);
      assert InOrder(s.reverse, id, n)[0..] == InOrder(s.reverse, id, n);
    }
  }

  lemma NoRounds(reverse: bool, id: nat, body: Stmt, inner: Env, calls: Calls, st: Store, fuel: nat)
    requires GenStmt(body, inner).Some?
    ensures RunOver(InOrder(reverse, id, 0), body, inner, calls, st, fuel) == Normal(st)
  {
  }

  lemma {:induction false} RoundsFrom(reverse: bool, body: Stmt, inner: Env, calls: Calls, st: Store, fuel: nat, id: nat, n: nat,
                                      k: nat)
    requires GenStmt(body, inner).Some? && OnElements(st.iters) && k < n <= WORD
    requires LengthStays(id, n, InOrder(reverse, id, n)[k..], body, inner, calls, st, fuel)
    ensures ExecForeach(reverse, body, inner, calls, WithIter(st, InOrder(reverse, id, n)[k]), fuel)
         == RunOver(InOrder(reverse, id, n)[k..], body, inner, calls, st, fuel)
    decreases n - k
  {
    hide GenStmt, Exec, NextIter, OnElements, Count, InOrder, ExecForeach, RunOver, LengthStays;
    var all := InOrder(reverse, id, n);
    OneRound(reverse, body, inner, calls, WithIter(st, all[k]), fuel);
    OneRunOver(all[k..], body, inner, calls, st, fuel, id, n);
    var its, it := all[k..], all[k];
    assert its[0] == it && its[1..] == all[k + 1..];
    EnteredElement(st, it);
    ExecKeeps(body, inner, calls, WithIter(st, it), fuel);
    var r := Exec(body, inner, calls, WithIter(st, it), fuel);
    if r.Normal? || r.Continued? {
      Reentered(st, r.st, it);
      StepsOn(reverse, id, r.st.w, if reverse then n - 1 - k else k);
      if k + 1 < n && fuel > 0 {
        NextRound(st, r.st, it, all[k + 1]);
        RoundsFrom(reverse, body, inner, calls, DropIter(r.st), fuel - 1, id, n, k + 1);
      }
    }
  }

  lemma OneRound(reverse: bool, body: Stmt, inner: Env, calls: Calls, st: Store, fuel: nat)
    requires GenStmt(body, inner).Some?
    ensures var r := Exec(body, inner, calls, st, fuel);
            ExecForeach(reverse, body, inner, calls, st, fuel) ==
              if r.Broke? then Normal(DropIter(r.st))
              else if !r.Normal? && !r.Continued? then r
              else if r.st.iters == [] then Failed
              else
                var k := |r.st.iters| - 1;
                match NextIter(reverse, r.st.iters[k], r.st.w) {
                  case None => Failed
                  case Some(Empty) => Normal(DropIter(r.st))
                  case Some(From(it)) =>
                    if fuel == 0 then OutOfFuel
                    else ExecForeach(reverse, body, inner, calls, r.st.(iters := r.st.iters[k := it]), fuel - 1)
                }
  {
    hide GenStmt, Exec, NextIter;
  }

  lemma OneRunOver(its: seq<Val>, body: Stmt, inner: Env, calls: Calls, st: Store, fuel: nat, id: nat, n: nat)
    requires GenStmt(body, inner).Some? && its != [] && LengthStays(id, n, its, body, inner, calls, st, fuel)
    ensures var r := Exec(body, inner, calls, WithIter(st, its[0]), fuel);
            && (r.Normal? || r.Continued? ==> Count(id, r.st.w) == n)
            && ((r.Normal? || r.Continued?) && |its| > 1 && fuel > 0 ==>
                  LengthStays(id, n, its[1..], body, inner, calls, DropIter(r.st), fuel - 1))
            && RunOver(its, body, inner, calls, st, fuel) ==
                 if r.Broke? then Normal(DropIter(r.st))
                 else if !r.Normal? && !r.Continued? then r
                 else if |its| == 1 then Normal(DropIter(r.st))
                 else if fuel == 0 then OutOfFuel
                 else RunOver(its[1..], body, inner, calls, DropIter(r.st), fuel - 1)
  {
    hide GenStmt, Exec, DropIter, WithIter, Count;
  }

  lemma EnteredElement(st: Store, it: Val)
    requires OnElements(st.iters) && it.ElemAt?
    ensures OnElements(WithIter(st, it).iters)
  {
  }

  lemma Reentered(st: Store, st1: Store, it: Val)
    requires st1.iters == WithIter(st, it).iters
    ensures st1.iters != [] && st1.iters[|st1.iters| - 1] == it && DropIter(st1).iters == st.iters
  {
  }

  lemma NextRound(st: Store, st1: Store, it: Val, next: Val)
    requires st1.iters == WithIter(st, it).iters
    ensures WithIter(DropIter(st1), next) == st1.(iters := st1.iters[|st1.iters| - 1 := next])
  {
    Reentered(st, st1, it);
  }

  /** A container that is NULL has no rounds. */
  lemma NothingToVisit(s: Stmt, env: Env, calls: Calls, st: Store, fuel: nat)
    requires s.Foreach? && GenStmt(s, env).Some? && GenExp(s.e, env).Some? && Eval(s.e, env, calls, st).Value?
    requires var x := Eval(s.e, env, calls, st); Raw(x.o, x.st) == Null
    ensures Exec(s, env, calls, st, fuel) == Normal(Eval(s.e, env, calls, st).st)
  {
    hide GenExp, GenStmt, Exec, Eval, ExecForeach;
    ForeachUnfold(s, env, calls, st, fuel);
  }

  /** In a round the iterator reads as the element the round is for. */
  lemma IteratorReads(st: Store, id: nat, i: nat)
    ensures var whole := Load(Arr(id), st.w).value;
            Read(It(|st.iters|), WithIter(st, ElemAt(id, i)))
              == if whole.Elems? && i < |whole.s| then Some(whole.s[i]) else None
  {
    WholeByElements(id, st.w);
    assert WithIter(st, ElemAt(id, i)).iters[|st.iters|] == ElemAt(id, i);
  }
}
