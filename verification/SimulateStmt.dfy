/** The machine code of a statement does what the statement means. */
module SimulateStmt {
  import opened Bytes
  import opened Wrappers
  import opened Syntax
  import opened Instructions
  import opened Operators
  import opened Code
  import opened Compiler
  import opened ByteCounts
  import opened Data
  import opened Machine
  import opened Semantics
  import opened StackLemmas
  import opened SimulateExp
  import opened SimulateCopy
  import opened CompilerLemmas

  // ----- outcomes as machine states -----

  /** The state a statement's code ends in; breaks and continues go to the
      targets of the enclosing loop. */
  function Target(r: Outcome, end: int, t: Targets): State
    requires !r.OutOfFuel?
  {
    match r
    case Normal(st) => Conf(end, st, [])
    case Broke(st) => Conf(t.brk, st, [])
    case Continued(st) => Conf(t.cont, st, [])
    case Returned(v, w) => Done(v, w)
    case Failed => State.Raised
  }

  /** n steps reach the outcome; without enough fuel the machine is still
      running after at least that many steps. */
  predicate Ends(r: Outcome, u: Unit, s: State, n: nat, end: int, t: Targets, fuel: nat) {
    if r.OutOfFuel? then n >= fuel && Steps(u, s, n).Running? else Steps(u, s, n) == Target(r, end, t)
  }

  predicate KeepsShape(r: Outcome, st: Store) {
    r.Normal? || r.Broke? || r.Continued? ==> SameShape(st, r.st)
  }

  lemma Then(u: Unit, s: State, m: nat, s1: State, r: Outcome, n: nat, end: int, t: Targets, fuel: nat, fuel1: nat)
    requires Steps(u, s, m) == s1 && Ends(r, u, s1, n, end, t, fuel1) && m + fuel1 >= fuel
    ensures Ends(r, u, s, m + n, end, t, fuel)
  {
    StepsAdd(u, s, m, n);
  }

  /** The store and the unit have room for everything the statement declares. */
  predicate Room(env: Env, st: Store, u: Unit, t: Targets) {
    |env.locals| <= |st.locals| && |env.iters| == |st.iters| && t.base == |st.locals|
    && env.pool <= u.consts && Linked(u, env)
  }

  // ----- expressions as statements -----

  lemma SimDrop(e: Exp, env: Env, u: Unit, pc: int, st: Store, t: Targets) returns (n: nat)
    requires GenExp(e, env).Some? && FewMissing(e, env.procs) && Ready(env, st, t) && Linked(u, env)
    requires At(u.code, pc, GenExp(e, env).value.code, t)
    requires DecodeAt(u.code, pc + Len(GenExp(e, env).value.code)) == Some(Instr(W_CTS, 1))
    ensures n > 0
    ensures var r := Eval(e, env, u.calls, st);
            && Steps(u, Conf(pc, st, []), n)
                 == (if r.Raises? then State.Raised else Conf(pc + Len(GenExp(e, env).value.code) + 2, r.st, []))
            && (r.Value? ==> SameShape(st, r.st))
  {
    hide At, Len, Steps, DecodeAt, Conf, Low, Linked, Eval, GenExp;
    n := SimExp(e, env, u, pc, st, [], t);
    var r := Eval(e, env, u.calls, st);
    if r.Value? {
      DropStep(u, 1, pc + Len(GenExp(e, env).value.code), r.st, [], [Low(r.o, |st.locals|)]);
      StepsAdd(u, Conf(pc, st, []), n, 1);
    } else {
      Stopped(u, Conf(pc, st, []), n);
    }
    n := n + 1;
  }

  /** A condition and the jump that pops it. */
  lemma SimTest(e: Exp, i: Instr, env: Env, u: Unit, pc: int, st: Store, t: Targets) returns (n: nat)
    requires GenExp(e, env).Some? && FewMissing(e, env.procs) && Ready(env, st, t) && Linked(u, env) && (i.op == W_JFC || i.op == W_JTC)
    requires At(u.code, pc, GenExp(e, env).value.code, t)
    requires DecodeAt(u.code, pc + Len(GenExp(e, env).value.code)) == Some(i)
    ensures n > 0
    ensures var r := Test(e, env, u.calls, st);
            var at := pc + Len(GenExp(e, env).value.code);
            && Steps(u, Conf(pc, st, []), n)
                 == (if r.Raises? then State.Raised
                     else Conf(at + if r.o == V(Truth(i.op == W_JTC)) then i.arg else 5, r.st, []))
            && (r.Value? ==> SameShape(st, r.st))
  {
    hide At, Len, Steps, DecodeAt, Conf, Low, Linked, Eval, GenExp, Condition;
    n := SimExp(e, env, u, pc, st, [], t);
    var r := Eval(e, env, u.calls, st);
    if r.Value? {
      JumpsOn(u, i, pc + Len(GenExp(e, env).value.code), r.st, [], r.o);
      StepsAdd(u, Conf(pc, st, []), n, 1);
    } else {
      Stopped(u, Conf(pc, st, []), n);
    }
    n := n + 1;
  }

  // ----- where the parts of a compound statement stand -----

  lemma IfParts(code: seq<Byte>, pc: int, c: seq<Item>, b: seq<Item>, t: Targets)
    requires At(code, pc, IfCode(c, b), t)
    ensures At(code, pc, c, t) && DecodeAt(code, pc + Len(c)) == Some(Instr(W_JFC, Len(b) + 5))
    ensures At(code, pc + Len(c) + 5, b, t)
    ensures Len(IfCode(c, b)) == Len(c) + 5 + Len(b)
  {
    hide At, Len, DecodeAt;
    Split(code, pc, c + [With(W_JFC, Len(b) + 5)], b, t);
    SplitLast(code, pc, c, With(W_JFC, Len(b) + 5), t);
  }

  lemma IfElseParts(code: seq<Byte>, pc: int, c: seq<Item>, b: seq<Item>, e: seq<Item>, t: Targets)
    requires At(code, pc, IfElseCode(c, b, e), t)
    ensures At(code, pc, c, t) && DecodeAt(code, pc + Len(c)) == Some(Instr(W_JFC, Len(b) + 10))
    ensures At(code, pc + Len(c) + 5, b, t)
    ensures DecodeAt(code, pc + Len(c) + 5 + Len(b)) == Some(Instr(W_JMP, Len(e) + 5))
    ensures At(code, pc + Len(c) + 10 + Len(b), e, t)
    ensures Len(IfElseCode(c, b, e)) == Len(c) + 10 + Len(b) + Len(e)
  {
    hide At, Len, DecodeAt;
    SelParts(code, pc, c, b, e, t);
  }

  /** A loop body under the targets of its loop, and the jump back after it. */
  lemma BodyParts(code: seq<Byte>, pc: int, head: seq<Item>, jump: Item, b: seq<Item>, start: int, brk: int, cont: int,
                  back: Item, t: Targets)
    requires At(code, pc, head + [jump] + Resolve(b, start, brk, cont) + [back], t)
    requires start == Len(head) + ItemSize(jump)
    ensures At(code, pc, head, t) && DecodeAt(code, pc + Len(head)) == Some(Concrete(jump, pc + Len(head), t))
    ensures At(code, pc + start, b, t.(brk := pc + brk, cont := pc + cont))
    ensures DecodeAt(code, pc + start + Len(b)) == Some(Concrete(back, pc + start + Len(b), t))
    ensures Len(head + [jump] + Resolve(b, start, brk, cont) + [back]) == start + Len(b) + ItemSize(back)
  {
    hide At, Len, DecodeAt, Resolve;
    var r := Resolve(b, start, brk, cont);
    SplitLast(code, pc, head + [jump] + r, back, t);
    Split(code, pc, head + [jump], r, t);
    SplitLast(code, pc, head, jump, t);
    AtResolve(code, pc + start, b, start, t, t.(brk := pc + brk, cont := pc + cont));
  }

  lemma WhileParts(code: seq<Byte>, pc: int, c: seq<Item>, b: seq<Item>, t: Targets)
    requires At(code, pc, WhileCode(c, b), t)
    ensures var end := Len(c) + 5 + Len(b);
            && At(code, pc, c, t) && DecodeAt(code, pc + Len(c)) == Some(Instr(W_JFC, Len(b) + 10))
            && At(code, pc + Len(c) + 5, b, t.(brk := pc + end + 5, cont := pc))
            && DecodeAt(code, pc + end) == Some(Instr(W_JMP, -end))
            && Len(WhileCode(c, b)) == end + 5
  {
    hide At, Len, DecodeAt, Resolve;
    var end := Len(c) + 5 + Len(b);
    BodyParts(code, pc, c, With(W_JFC, Len(b) + 10), b, Len(c) + 5, end + 5, 0, With(W_JMP, -end), t);
  }

  lemma UntilParts(code: seq<Byte>, pc: int, b: seq<Item>, c: seq<Item>, t: Targets)
    requires At(code, pc, UntilCode(b, c), t)
    ensures var end := Len(b) + Len(c);
            && At(code, pc, b, t.(brk := pc + end + 5, cont := pc + Len(b)))
            && At(code, pc + Len(b), c, t)
            && DecodeAt(code, pc + end) == Some(Instr(W_JTC, -end))
            && Len(UntilCode(b, c)) == end + 5
  {
    hide At, Len, DecodeAt, Resolve;
    var end := Len(b) + Len(c);
    var r := Resolve(b, 0, end + 5, Len(b));
    SplitLast(code, pc, r + c, With(W_JTC, -end), t);
    Split(code, pc, r, c, t);
    AtResolve(code, pc, b, 0, t, t.(brk := pc + end + 5, cont := pc + Len(b)));
  }

  lemma ForParts(code: seq<Byte>, pc: int, i: seq<Item>, s: seq<Item>, c: seq<Item>, b: seq<Item>, t: Targets)
    requires At(code, pc, ForCode(i, s, c, b), t)
    ensures var cont := Len(i) + 7;
            var test := cont + Len(s) + 2;
            var start := test + Len(c) + 5;
            var end := start + Len(b);
            && At(code, pc, i, t) && DecodeAt(code, pc + Len(i)) == Some(Instr(W_CTS, 1))
            && DecodeAt(code, pc + Len(i) + 2) == Some(Instr(W_JMP, Len(s) + 7))
            && At(code, pc + cont, s, t) && DecodeAt(code, pc + cont + Len(s)) == Some(Instr(W_CTS, 1))
            && At(code, pc + test, c, t) && DecodeAt(code, pc + test + Len(c)) == Some(Instr(W_JFC, Len(b) + 10))
            && At(code, pc + start, b, t.(brk := pc + end + 5, cont := pc + cont))
            && DecodeAt(code, pc + end) == Some(Instr(W_JMP, cont - end))
            && Len(ForCode(i, s, c, b)) == end + 5
  {
    hide At, Len, DecodeAt, Resolve;
    ForHeadLen(i, s, c);
    var cont := Len(i) + 7;
    var start := cont + Len(s) + 2 + Len(c) + 5;
    var end := start + Len(b);
    BodyParts(code, pc, ForHead(i, s, c), With(W_JFC, Len(b) + 10), b, start, end + 5, cont, With(W_JMP, cont - end), t);
    var x, y := Drop(1), With(W_JMP, Len(s) + 7);
    assert i + [x, y] == i + [x] + [y];
    Split(code, pc, i + [x, y] + s + [x], c, t);
    SplitLast(code, pc, i + [x, y] + s, x, t);
    Split(code, pc, i + [x, y], s, t);
    SplitLast(code, pc, i + [x], y, t);
    SplitLast(code, pc, i, x, t);
  }

  lemma ForeachParts(code: seq<Byte>, pc: int, e: seq<Item>, reverse: bool, b: seq<Item>, t: Targets)
    requires At(code, pc, ForeachCode(e, reverse, b), t)
    ensures var cont := Len(e) + 6;
            var end := cont + 6 + Len(b);
            && At(code, pc, e, t) && DecodeAt(code, pc + Len(e)) == Some(Instr(if reverse then W_ITL else W_ITF, 0))
            && DecodeAt(code, pc + Len(e) + 1) == Some(Instr(W_JMP, 6))
            && DecodeAt(code, pc + cont) == Some(Instr(if reverse then W_ITP else W_ITN, 0))
            && DecodeAt(code, pc + cont + 1) == Some(Instr(W_JFC, Len(b) + 10))
            && At(code, pc + cont + 6, b, t.(brk := pc + end + 5, cont := pc + cont))
            && DecodeAt(code, pc + end) == Some(Instr(W_JMP, cont - end))
            && DecodeAt(code, pc + end + 5) == Some(Instr(W_CTS, 1))
            && Len(ForeachCode(e, reverse, b)) == end + 7
  {
    hide At, Len, DecodeAt, Resolve;
    var x, y, z := Op(if reverse then W_ITL else W_ITF), With(W_JMP, 6), Op(if reverse then W_ITP else W_ITN);
    assert ForeachHead(e, reverse) == e + [x] + [y] + [z];
    LenCat(e + [x] + [y], [z]);
    LenCat(e + [x], [y]);
    LenCat(e, [x]);
    OneLen(x); OneLen(y); OneLen(z);
    var cont := Len(e) + 6;
    var end := cont + 6 + Len(b);
    var head := ForeachHead(e, reverse) + [With(W_JFC, Len(b) + 10)] + Resolve(b, cont + 6, end + 5, cont);
    assert ForeachCode(e, reverse, b) == head + [With(W_JMP, cont - end)] + [Drop(1)];
    SplitLast(code, pc, head + [With(W_JMP, cont - end)], Drop(1), t);
    BodyParts(code, pc, ForeachHead(e, reverse), With(W_JFC, Len(b) + 10), b, cont + 6, end + 5, cont,
              With(W_JMP, cont - end), t);
    SplitLast(code, pc, e + [x] + [y], z, t);
    SplitLast(code, pc, e + [x], y, t);
    SplitLast(code, pc, e, x, t);
  }

  // ----- statements -----

  /** The statement's code does what the statement means. */
  predicate Correct(s: Stmt, env: Env, u: Unit, pc: int, st: Store, t: Targets, fuel: nat, n: nat)
    requires GenStmt(s, env).Some?
  {
    var r := Exec(s, env, u.calls, st, fuel);
    Ends(r, u, Conf(pc, st, []), n, pc + Len(GenStmt(s, env).value.code), t, fuel) && KeepsShape(r, st)
  }

  /** The assumptions under which a statement's code runs at pc. */
  predicate Placed(s: Stmt, env: Env, u: Unit, pc: int, st: Store, t: Targets) {
    && GenStmt(s, env).Some? && Room(GenStmt(s, env).value.env, st, u, t) && Narrow(s, env)
    && At(u.code, pc, GenStmt(s, env).value.code, t)
  }

  lemma SimSeq(s: Stmt, env: Env, u: Unit, pc: int, st: Store, t: Targets, fuel: nat) returns (n: nat)
    requires s.Seq? && Placed(s, env, u, pc, st, t)
    ensures Correct(s, env, u, pc, st, t, fuel, n)
    decreases fuel, s, 0
  {
    hide At, Steps, DecodeAt, Conf, Linked, Len;
    var a := GenStmt(s.s1, env).value;
    var b := GenStmt(s.s2, a.env).value;
    StmtGrows(s.s1, env);
    StmtGrows(s.s2, a.env);
    Split(u.code, pc, a.code, b.code, t);
    LinkedSame(u, a.env, b.env);
    n := SimStmt(s.s1, env, u, pc, st, t, fuel);
    var r := Exec(s.s1, env, u.calls, st, fuel);
    if r.Normal? {
      var m := SimStmt(s.s2, a.env, u, pc + Len(a.code), r.st, t, fuel);
      var r2 := Exec(s.s2, a.env, u.calls, r.st, fuel);
      Then(u, Conf(pc, st, []), n, Conf(pc + Len(a.code), r.st, []), r2, m,
           pc + Len(a.code) + Len(b.code), t, fuel, fuel);
      n := n + m;
    }
  }

  lemma LinkedSame(u: Unit, a: Env, b: Env)
    requires a.procs == b.procs
    ensures Linked(u, a) == Linked(u, b)
  {
  }

  lemma TestReady(body: Stmt, env: Env, inner: Env, st: Store, u: Unit, t: Targets)
    requires GenStmt(body, inner).Some? && Room(GenStmt(body, inner).value.env, st, u, t)
    requires env.locals == inner.locals && env.procs == inner.procs && env.iters == inner.iters
    ensures Ready(env, st, t) && Linked(u, env)
  {
    hide GenStmt;
    StmtGrows(body, inner);
  }

  /** A loop body and the jump back to where the loop goes on. */
  lemma SimBody(body: Stmt, inner: Env, u: Unit, pc: int, st: Store, t: Targets, back: int, fuel: nat) returns (n: nat)
    requires Placed(body, inner, u, pc, st, t)
    requires DecodeAt(u.code, pc + Len(GenStmt(body, inner).value.code)) == Some(Instr(W_JMP, back))
    requires pc + Len(GenStmt(body, inner).value.code) + back == t.cont
    ensures var r := Exec(body, inner, u.calls, st, fuel);
            && (if r.Normal? then Steps(u, Conf(pc, st, []), n) == Conf(t.cont, r.st, [])
                else Ends(r, u, Conf(pc, st, []), n, 0, t, fuel))
            && KeepsShape(r, st)
    decreases fuel, body, 6
  {
    hide At, Steps, DecodeAt, Conf, Len, Exec, GenStmt;
    n := SimStmt(body, inner, u, pc, st, t, fuel);
    var r := Exec(body, inner, u.calls, st, fuel);
    if r.Normal? {
      JumpAlways(u, back, pc + Len(GenStmt(body, inner).value.code), r.st, []);
      StepsAdd(u, Conf(pc, st, []), n, 1);
      n := n + 1;
    }
  }

  lemma WhileRound(c: Exp, body: Stmt, env: Env, calls: Calls, st: Store, fuel: nat)
    requires GenBool(c, env).Some? && GenStmt(body, InLoop(env)).Some?
    ensures var q := Test(c, env, calls, st);
            ExecWhile(c, body, env, calls, st, fuel) ==
              if q.Raises? then Failed
              else if !Passes(q.o) then Normal(q.st)
              else
                var r := Exec(body, InLoop(env), calls, q.st, fuel);
                if r.Normal? || r.Continued? then
                  if fuel == 0 then OutOfFuel else ExecWhile(c, body, env, calls, r.st, fuel - 1)
                else if r.Broke? then Normal(r.st)
                else r
  {
    hide Test, Exec, GenStmt, GenExp;
  }

  lemma SimWhile(c: Exp, body: Stmt, env: Env, u: Unit, pc: int, st: Store, t: Targets, fuel: nat) returns (n: nat)
    requires GenBool(c, env).Some? && FewMissing(c, env.procs) && GenStmt(body, InLoop(env)).Some? && Narrow(body, InLoop(env))
    requires Room(GenStmt(body, InLoop(env)).value.env, st, u, t)
    requires At(u.code, pc, WhileCode(GenBool(c, env).value, GenStmt(body, InLoop(env)).value.code), t)
    ensures var r := ExecWhile(c, body, env, u.calls, st, fuel);
            var end := pc + Len(WhileCode(GenBool(c, env).value, GenStmt(body, InLoop(env)).value.code));
            Ends(r, u, Conf(pc, st, []), n, end, t, fuel) && KeepsShape(r, st)
    decreases fuel, body, 7
  {
    hide At, Steps, DecodeAt, Conf, Len, Exec, GenStmt, GenExp, Test, Linked, WhileCode, Narrow, ExecWhile;
    WhileRound(c, body, env, u.calls, st, fuel);
    var inner := InLoop(env);
    var x, b := GenBool(c, env).value, GenStmt(body, inner).value.code;
    var start, end := pc + Len(x) + 5, pc + Len(x) + 5 + Len(b);
    var t1 := t.(brk := end + 5, cont := pc);
    WhileParts(u.code, pc, x, b, t);
    TestReady(body, env, inner, st, u, t);
    n := SimTest(c, Instr(W_JFC, Len(b) + 10), env, u, pc, st, t);
    var q := Test(c, env, u.calls, st);
    if q.Value? && Passes(q.o) {
      var m := SimBody(body, inner, u, start, q.st, t1, pc - end, fuel);
      var r := Exec(body, inner, u.calls, q.st, fuel);
      StepsAdd(u, Conf(pc, st, []), n, m);
      n := n + m;
      if (r.Normal? || r.Continued?) && fuel > 0 {
        var k := SimWhile(c, body, env, u, pc, r.st, t, fuel - 1);
        Then(u, Conf(pc, st, []), n, Conf(pc, r.st, []), ExecWhile(c, body, env, u.calls, r.st, fuel - 1), k,
             end + 5, t, fuel, fuel - 1);
        n := n + k;
      }
    }
  }

  /** What an UNTIL loop needs of the place its code stands at. */
  predicate UntilPlaced(body: Stmt, c: Exp, env: Env, u: Unit, pc: int, st: Store, t: Targets) {
    && GenStmt(body, InLoop(env)).Some? && Narrow(body, InLoop(env))
    && GenBool(c, GenStmt(body, InLoop(env)).value.env).Some? && FewMissing(c, GenStmt(body, InLoop(env)).value.env.procs)
    && Room(GenStmt(body, InLoop(env)).value.env, st, u, t)
    && At(u.code, pc, UntilCode(GenStmt(body, InLoop(env)).value.code,
                                GenBool(c, GenStmt(body, InLoop(env)).value.env).value), t)
  }

  function UntilEnd(body: Stmt, c: Exp, env: Env, pc: int): int
    requires GenStmt(body, InLoop(env)).Some? && GenBool(c, GenStmt(body, InLoop(env)).value.env).Some?
  {
    pc + Len(GenStmt(body, InLoop(env)).value.code) + Len(GenBool(c, GenStmt(body, InLoop(env)).value.env).value) + 5
  }

  /** The parts of a placed UNTIL loop, whatever the values in the store. */
  lemma UntilPlacedParts(body: Stmt, c: Exp, env: Env, u: Unit, pc: int, st: Store, st1: Store, t: Targets)
    requires UntilPlaced(body, c, env, u, pc, st, t) && SameShape(st, st1)
    ensures UntilPlaced(body, c, env, u, pc, st1, t) && GenStmt(body, InLoop(env)).Some?
    ensures var b := GenStmt(body, InLoop(env)).value;
            var x := GenExp(c, b.env);
            && x.Some? && GenBool(c, b.env) == Some(x.value.code)
            && Placed(body, InLoop(env), u, pc, st1, t.(brk := UntilEnd(body, c, env, pc), cont := pc + Len(b.code)))
            && Ready(b.env, st1, t) && Linked(u, b.env) && FewMissing(c, b.env.procs)
            && At(u.code, pc + Len(b.code), x.value.code, t)
            && DecodeAt(u.code, pc + Len(b.code) + Len(x.value.code)) == Some(Instr(W_JTC, -(Len(b.code) + Len(x.value.code))))
  {
    hide At, DecodeAt, Len, GenStmt, GenExp, Narrow, UntilCode;
    var b := GenStmt(body, InLoop(env)).value;
    UntilParts(u.code, pc, b.code, GenBool(c, b.env).value, t);
  }

  lemma UntilRound(body: Stmt, c: Exp, env: Env, calls: Calls, st: Store, fuel: nat)
    requires GenStmt(body, InLoop(env)).Some? && GenBool(c, GenStmt(body, InLoop(env)).value.env).Some?
    ensures var r := Exec(body, InLoop(env), calls, st, fuel);
            ExecUntil(body, c, env, calls, st, fuel) ==
              if r.Normal? || r.Continued? then UntilTest(body, c, env, calls, r.st, fuel)
              else if r.Broke? then Normal(r.st)
              else r
  {
    hide Exec, GenStmt, GenExp, UntilTest;
  }

  lemma SimUntil(body: Stmt, c: Exp, env: Env, u: Unit, pc: int, st: Store, t: Targets, fuel: nat) returns (n: nat)
    requires UntilPlaced(body, c, env, u, pc, st, t)
    ensures var r := ExecUntil(body, c, env, u.calls, st, fuel);
            Ends(r, u, Conf(pc, st, []), n, UntilEnd(body, c, env, pc), t, fuel) && KeepsShape(r, st)
    decreases fuel, body, 8
  {
    hide At, Steps, DecodeAt, Conf, Len, Exec, GenStmt, GenExp, GenBool, Linked, Placed, UntilPlaced, UntilEnd, UntilTest, Ready, ExecUntil;
    UntilPlacedParts(body, c, env, u, pc, st, st, t);
    UntilRound(body, c, env, u.calls, st, fuel);
    var b := GenStmt(body, InLoop(env)).value;
    var t1 := t.(brk := UntilEnd(body, c, env, pc), cont := pc + Len(b.code));
    n := SimStmt(body, InLoop(env), u, pc, st, t1, fuel);
    var r := Exec(body, InLoop(env), u.calls, st, fuel);
    if r.Normal? || r.Continued? {
      UntilPlacedParts(body, c, env, u, pc, st, r.st, t);
      var m := SimUntilTest(body, c, env, u, pc, r.st, t, fuel);
      Then(u, Conf(pc, st, []), n, Conf(pc + Len(b.code), r.st, []), UntilTest(body, c, env, u.calls, r.st, fuel), m,
           UntilEnd(body, c, env, pc), t, fuel, fuel);
      n := n + m;
    }
  }

  lemma SimUntilTest(body: Stmt, c: Exp, env: Env, u: Unit, pc: int, st: Store, t: Targets, fuel: nat) returns (n: nat)
    requires UntilPlaced(body, c, env, u, pc, st, t)
    ensures var r := UntilTest(body, c, env, u.calls, st, fuel);
            var b := GenStmt(body, InLoop(env)).value.code;
            Ends(r, u, Conf(pc + Len(b), st, []), n, UntilEnd(body, c, env, pc), t, fuel) && KeepsShape(r, st)
    decreases fuel, body, 7
  {
    hide At, Steps, DecodeAt, Conf, Len, Exec, GenStmt, GenExp, GenBool, Test, Linked, Placed, UntilPlaced, ExecUntil, Ready;
    UntilPlacedParts(body, c, env, u, pc, st, st, t);
    var b := GenStmt(body, InLoop(env)).value;
    var x := GenExp(c, b.env).value.code;
    var at := pc + Len(b.code);
    n := SimTest(c, Instr(W_JTC, -(Len(b.code) + Len(x))), b.env, u, at, st, t);
    var q := Test(c, b.env, u.calls, st);
    if q.Value? && q.o == V(Truth(true)) && fuel > 0 {
      UntilPlacedParts(body, c, env, u, pc, st, q.st, t);
      var k := SimUntil(body, c, env, u, pc, q.st, t, fuel - 1);
      Then(u, Conf(at, st, []), n, Conf(pc, q.st, []), ExecUntil(body, c, env, u.calls, q.st, fuel - 1), k,
           UntilEnd(body, c, env, pc), t, fuel, fuel - 1);
      n := n + k;
    }
  }

  /** Where the parts of a FOR loop stand: its step expression at cont, its
      test right after it. */
  predicate ForPlaced(c: Exp, step: Exp, body: Stmt, env: Env, u: Unit, cont: int, test: int, st: Store, t: Targets) {
    ForCoded(c, step, body, env, u, cont, test, t) && Room(GenStmt(body, InLoop(env)).value.env, st, u, t)
  }

  predicate ForCoded(c: Exp, step: Exp, body: Stmt, env: Env, u: Unit, cont: int, test: int, t: Targets) {
    && GenBool(c, env).Some? && GenExp(step, env).Some? && FewMissing(c, env.procs) && FewMissing(step, env.procs)
    && GenStmt(body, InLoop(env)).Some? && Narrow(body, InLoop(env))
    && var x, s := GenBool(c, env).value, GenExp(step, env).value.code;
       var b := GenStmt(body, InLoop(env)).value.code;
       var end := test + Len(x) + 5 + Len(b);
       && At(u.code, cont, s, t) && DecodeAt(u.code, cont + Len(s)) == Some(Instr(W_CTS, 1))
       && test == cont + Len(s) + 2
       && At(u.code, test, x, t) && DecodeAt(u.code, test + Len(x)) == Some(Instr(W_JFC, Len(b) + 10))
       && At(u.code, test + Len(x) + 5, b, t.(brk := end + 5, cont := cont))
       && DecodeAt(u.code, end) == Some(Instr(W_JMP, cont - end))
  }

  function ForEnd(c: Exp, body: Stmt, env: Env, test: int): int
    requires GenBool(c, env).Some? && GenStmt(body, InLoop(env)).Some?
  {
    test + Len(GenBool(c, env).value) + 5 + Len(GenStmt(body, InLoop(env)).value.code) + 5
  }

  /** The parts of a placed FOR loop, whatever the values in the store. */
  lemma ForPlacedParts(c: Exp, step: Exp, body: Stmt, env: Env, u: Unit, cont: int, test: int, st: Store, st1: Store,
                       t: Targets)
    requires ForPlaced(c, step, body, env, u, cont, test, st, t) && SameShape(st, st1)
    ensures ForPlaced(c, step, body, env, u, cont, test, st1, t) && GenStmt(body, InLoop(env)).Some?
    ensures Ready(env, st1, t) && Linked(u, env) && GenExp(c, env).Some? && GenExp(step, env).Some?
    ensures FewMissing(c, env.procs) && FewMissing(step, env.procs)
    ensures var x, s := GenExp(c, env).value.code, GenExp(step, env).value.code;
            var b := GenStmt(body, InLoop(env)).value.code;
            var end := test + Len(x) + 5 + Len(b);
            && GenBool(c, env) == Some(x) && test == cont + Len(s) + 2
            && At(u.code, cont, s, t) && DecodeAt(u.code, cont + Len(s)) == Some(Instr(W_CTS, 1))
            && At(u.code, test, x, t) && DecodeAt(u.code, test + Len(x)) == Some(Instr(W_JFC, Len(b) + 10))
            && Placed(body, InLoop(env), u, test + Len(x) + 5, st1, t.(brk := end + 5, cont := cont))
            && ForEnd(c, body, env, test) == end + 5
            && DecodeAt(u.code, end) == Some(Instr(W_JMP, cont - end))
  {
    hide At, DecodeAt, Len, GenStmt, GenExp, GenBool, Narrow, Linked, Room, Ready, ForCoded, FewMissing;
    ForCodedParts(c, step, body, env, u, cont, test, t);
    var b := GenStmt(body, InLoop(env)).value;
    RoomStays(b.env, st, st1, u, t);
    RoomInside(b.env, st1, u, t, ForEnd(c, body, env, test), cont);
    TestReady(body, env, InLoop(env), st1, u, t);
  }

  lemma ForCodedParts(c: Exp, step: Exp, body: Stmt, env: Env, u: Unit, cont: int, test: int, t: Targets)
    requires ForCoded(c, step, body, env, u, cont, test, t)
    ensures GenStmt(body, InLoop(env)).Some? && Narrow(body, InLoop(env))
    ensures GenExp(c, env).Some? && GenExp(step, env).Some? && FewMissing(c, env.procs) && FewMissing(step, env.procs)
    ensures var x, s := GenExp(c, env).value.code, GenExp(step, env).value.code;
            var b := GenStmt(body, InLoop(env)).value.code;
            var end := test + Len(x) + 5 + Len(b);
            && GenBool(c, env) == Some(x) && test == cont + Len(s) + 2
            && At(u.code, cont, s, t) && DecodeAt(u.code, cont + Len(s)) == Some(Instr(W_CTS, 1))
            && At(u.code, test, x, t) && DecodeAt(u.code, test + Len(x)) == Some(Instr(W_JFC, Len(b) + 10))
            && At(u.code, test + Len(x) + 5, b, t.(brk := end + 5, cont := cont))
            && ForEnd(c, body, env, test) == end + 5
            && DecodeAt(u.code, end) == Some(Instr(W_JMP, cont - end))
  {
    hide At, DecodeAt, Len, GenStmt, GenExp, Narrow, FewMissing;
  }

  /** The jump targets do not matter for the room. */
  lemma RoomInside(env: Env, st: Store, u: Unit, t: Targets, brk: int, cont: int)
    requires Room(env, st, u, t)
    ensures Room(env, st, u, t.(brk := brk, cont := cont))
  {
  }

  lemma ForRound(c: Exp, step: Exp, body: Stmt, env: Env, calls: Calls, st: Store, fuel: nat)
    requires GenBool(c, env).Some? && GenExp(step, env).Some? && GenStmt(body, InLoop(env)).Some?
    ensures var q := Test(c, env, calls, st);
            ExecFor(c, step, body, env, calls, st, fuel) ==
              if q.Raises? then Failed
              else if !Passes(q.o) then Normal(q.st)
              else
                var r := Exec(body, InLoop(env), calls, q.st, fuel);
                if r.Normal? || r.Continued? then ForStep(c, step, body, env, calls, r.st, fuel)
                else if r.Broke? then Normal(r.st)
                else r
  {
    hide Test, Exec, ForStep, GenStmt, GenExp;
  }

  lemma SimFor(c: Exp, step: Exp, body: Stmt, env: Env, u: Unit, cont: int, test: int, st: Store, t: Targets, fuel: nat)
    returns (n: nat)
    requires ForPlaced(c, step, body, env, u, cont, test, st, t)
    ensures var r := ExecFor(c, step, body, env, u.calls, st, fuel);
            Ends(r, u, Conf(test, st, []), n, ForEnd(c, body, env, test), t, fuel) && KeepsShape(r, st)
    decreases fuel, body, 8
  {
    hide At, Steps, DecodeAt, Conf, Len, Exec, GenStmt, GenExp, GenBool, Eval, Test, Linked, ForPlaced, Placed, ForEnd, ForStep, Ready,
      ExecFor;
    ForPlacedParts(c, step, body, env, u, cont, test, st, st, t);
    ForRound(c, step, body, env, u.calls, st, fuel);
    var inner, start := InLoop(env), test + Len(GenExp(c, env).value.code) + 5;
    var b := GenStmt(body, inner).value.code;
    n := SimTest(c, Instr(W_JFC, Len(b) + 10), env, u, test, st, t);
    var q := Test(c, env, u.calls, st);
    if q.Value? && Passes(q.o) {
      ForPlacedParts(c, step, body, env, u, cont, test, st, q.st, t);
      var end := start + Len(b);
      var m := SimBody(body, inner, u, start, q.st, t.(brk := end + 5, cont := cont), cont - end, fuel);
      var r := Exec(body, inner, u.calls, q.st, fuel);
      StepsAdd(u, Conf(test, st, []), n, m);
      n := n + m;
      if r.Normal? || r.Continued? {
        ForPlacedParts(c, step, body, env, u, cont, test, st, r.st, t);
        var k := SimForStep(c, step, body, env, u, cont, test, r.st, t, fuel);
        Then(u, Conf(test, st, []), n, Conf(cont, r.st, []), ForStep(c, step, body, env, u.calls, r.st, fuel), k,
             ForEnd(c, body, env, test), t, fuel, fuel);
        n := n + k;
      }
    }
  }

  lemma SimForStep(c: Exp, step: Exp, body: Stmt, env: Env, u: Unit, cont: int, test: int, st: Store, t: Targets,
                   fuel: nat) returns (n: nat)
    requires ForPlaced(c, step, body, env, u, cont, test, st, t)
    ensures var r := ForStep(c, step, body, env, u.calls, st, fuel);
            Ends(r, u, Conf(cont, st, []), n, ForEnd(c, body, env, test), t, fuel) && KeepsShape(r, st)
    decreases fuel, body, 7
  {
    hide At, Steps, DecodeAt, Conf, Len, Exec, GenStmt, GenExp, GenBool, Eval, Linked, ForPlaced, Placed, ForEnd, ExecFor, Ready;
    ForPlacedParts(c, step, body, env, u, cont, test, st, st, t);
    n := SimDrop(step, env, u, cont, st, t);
    var y := Eval(step, env, u.calls, st);
    if y.Value? && fuel > 0 {
      ForPlacedParts(c, step, body, env, u, cont, test, st, y.st, t);
      var k := SimFor(c, step, body, env, u, cont, test, y.st, t, fuel - 1);
      Then(u, Conf(cont, st, []), n, Conf(test, y.st, []), ExecFor(c, step, body, env, u.calls, y.st, fuel - 1), k,
           ForEnd(c, body, env, test), t, fuel, fuel - 1);
      n := n + k;
    }
  }

  // ----- FOREACH -----

  lemma LoopKinds()
    ensures KindOf(W_ITF) == StartsLoop && KindOf(W_ITL) == StartsLoop
    ensures KindOf(W_ITN) == NextInLoop && KindOf(W_ITP) == NextInLoop
    ensures OperandSize(W_ITF) == 0 && OperandSize(W_ITL) == 0 && OperandSize(W_ITN) == 0 && OperandSize(W_ITP) == 0
  {
  }

  lemma StartDispatch(u: Unit, reverse: bool, c: Config)
    requires DecodeAt(u.code, c.pc) == Some(Instr(if reverse then W_ITL else W_ITF, 0)) && |c.stack| >= 1
    ensures Steps(u, Running(c), 1) == Proceed(StartTop(reverse, c.stack, c.w), c.pc + 1)
  {
    hide StartTop, KindOf, OperandSize;
    OneStep(u, c, Instr(if reverse then W_ITL else W_ITF, 0));
    LoopKinds();
  }

  /** The state after the instruction that starts an iteration. */
  function AfterStart(s: Option<Started>, pc: int, st: Store, cell: Cell): State {
    if s.None? then State.Raised
    else if s.value.Empty? then Conf(pc, st, [cell] + [Imm(Truth(false))])
    else Conf(pc, WithIter(st, s.value.it), [Imm(Truth(true))])
  }

  lemma StartStep(reverse: bool, u: Unit, pc: int, st: Store, a: Operand)
    requires Fits(a, st)
    requires DecodeAt(u.code, pc) == Some(Instr(if reverse then W_ITL else W_ITF, 0))
    ensures var cell := Low(a, |st.locals|);
            Steps(u, Conf(pc, st, [cell]), 1) == AfterStart(StartIter(reverse, Raw(a, st), st.w), pc + 1, st, cell)
  {
    hide DecodeAt, StartIter, StartTop, Frame, Steps, Low;
    var cell := Low(a, |st.locals|);
    StartDispatch(u, reverse, Config(pc, Frame(st) + [cell], st.w));
    StartEffect(reverse, st, a);
  }

  /** The state at the first test of the loop. */
  function Entered(s: Option<Started>, pc: int, jfc: int, st: Store, cell: Cell): State {
    if s.None? then State.Raised
    else if s.value.Empty? then Conf(pc + 7 + jfc, st, [cell])
    else Conf(pc + 12, WithIter(st, s.value.it), [])
  }

  /** From the instruction after the container's code to the test of the flag. */
  lemma StartSteps(reverse: bool, u: Unit, pc: int, jfc: int, st: Store, a: Operand) returns (n: nat)
    requires Fits(a, st)
    requires DecodeAt(u.code, pc) == Some(Instr(if reverse then W_ITL else W_ITF, 0))
    requires DecodeAt(u.code, pc + 1) == Some(Instr(W_JMP, 6))
    requires DecodeAt(u.code, pc + 7) == Some(Instr(W_JFC, jfc))
    ensures var cell := Low(a, |st.locals|);
            Steps(u, Conf(pc, st, [cell]), n) == Entered(StartIter(reverse, Raw(a, st), st.w), pc, jfc, st, cell)
  {
    hide DecodeAt, StartIter, Conf, Steps, Low;
    var cell := Low(a, |st.locals|);
    StartStep(reverse, u, pc, st, a);
    var s := StartIter(reverse, Raw(a, st), st.w);
    n := 1;
    if s.Some? {
      var st1 := if s.value.Empty? then st else WithIter(st, s.value.it);
      var temps := if s.value.Empty? then [cell] else [];
      assert [] + [Imm(Truth(true))] == [Imm(Truth(true))];
      var m := StartTest(u, pc + 1, jfc, st1, temps, s.value.From?);
      StepsAdd(u, Conf(pc, st, [cell]), 1, m);
      n := 1 + m;
    }
  }

  lemma StartTest(u: Unit, pc: int, jfc: int, st: Store, temps: seq<Cell>, more: bool) returns (n: nat)
    requires DecodeAt(u.code, pc) == Some(Instr(W_JMP, 6))
    requires DecodeAt(u.code, pc + 6) == Some(Instr(W_JFC, jfc))
    ensures Steps(u, Conf(pc, st, temps + [Imm(Truth(more))]), n)
         == Conf(if more then pc + 11 else pc + 6 + jfc, st, temps)
  {
    hide DecodeAt, Conf, Steps;
    JumpAlways(u, 6, pc, st, temps + [Imm(Truth(more))]);
    JumpsOn(u, Instr(W_JFC, jfc), pc + 6, st, temps, V(Truth(more)));
    StepsAdd(u, Conf(pc, st, temps + [Imm(Truth(more))]), 1, 1);
    n := 2;
  }

  /** From the step instruction to the test of its flag. */
  lemma NextSteps(reverse: bool, u: Unit, pc: int, jfc: int, st: Store)
    requires |st.iters| > 0
    requires DecodeAt(u.code, pc) == Some(Instr(if reverse then W_ITP else W_ITN, 0))
    requires DecodeAt(u.code, pc + 1) == Some(Instr(W_JFC, jfc))
    ensures var k := |st.iters| - 1;
            match NextIter(reverse, st.iters[k], st.w)
            case None => Steps(u, Conf(pc, st, []), 1) == State.Raised
            case Some(Empty) => Steps(u, Conf(pc, st, []), 2) == Conf(pc + 1 + jfc, st, [])
            case Some(From(v)) => Steps(u, Conf(pc, st, []), 2) == Conf(pc + 6, st.(iters := st.iters[k := v]), [])
  {
    hide DecodeAt, NextIter, NextTop, Frame;
    assert Frame(st) + [] == Frame(st);
    OneStep(u, Config(pc, Frame(st) + [], st.w), Instr(if reverse then W_ITP else W_ITN, 0));
    NextEffect(reverse, st);
    var k := |st.iters| - 1;
    match NextIter(reverse, st.iters[k], st.w)
    case None =>
    case Some(Empty) => TestFlag(u, pc, jfc, st, st, false);
    case Some(From(v)) => TestFlag(u, pc, jfc, st, st.(iters := st.iters[k := v]), true);
  }

  lemma TestFlag(u: Unit, pc: int, jfc: int, st: Store, st1: Store, more: bool)
    requires DecodeAt(u.code, pc + 1) == Some(Instr(W_JFC, jfc))
    requires Steps(u, Conf(pc, st, []), 1) == Conf(pc + 1, st1, [Imm(Truth(more))])
    ensures Steps(u, Conf(pc, st, []), 2) == Conf(if more then pc + 6 else pc + 1 + jfc, st1, [])
  {
    hide DecodeAt, Conf, Steps;
    assert [] + [Imm(Truth(more))] == [Imm(Truth(more))];
    JumpsOn(u, Instr(W_JFC, jfc), pc + 1, st1, [], V(Truth(more)));
    StepsAdd(u, Conf(pc, st, []), 1, 1);
  }

  /** Where the parts of a FOREACH loop stand: its step instruction at cont. */
  predicate ForeachPlaced(reverse: bool, body: Stmt, inner: Env, u: Unit, cont: int, st: Store, t: Targets) {
    && |st.iters| > 0 && GenStmt(body, inner).Some? && Narrow(body, inner)
    && Room(GenStmt(body, inner).value.env, st, u, t)
    && var b := GenStmt(body, inner).value.code;
       var end := cont + 6 + Len(b);
       && DecodeAt(u.code, cont) == Some(Instr(if reverse then W_ITP else W_ITN, 0))
       && DecodeAt(u.code, cont + 1) == Some(Instr(W_JFC, Len(b) + 10))
       && At(u.code, cont + 6, b, t.(brk := end + 5, cont := cont))
       && DecodeAt(u.code, end) == Some(Instr(W_JMP, cont - end))
       && DecodeAt(u.code, end + 5) == Some(Instr(W_CTS, 1))
  }

  lemma ForeachPlacedStays(reverse: bool, body: Stmt, inner: Env, u: Unit, cont: int, st: Store, st1: Store, t: Targets)
    requires ForeachPlaced(reverse, body, inner, u, cont, st, t) && SameShape(st, st1)
    ensures ForeachPlaced(reverse, body, inner, u, cont, st1, t)
  {
    hide At, DecodeAt, Len, GenStmt, Narrow, Linked;
  }

  /** Leaving the loop drops its iterator. */
  lemma LeaveStep(u: Unit, pc: int, st: Store)
    requires DecodeAt(u.code, pc) == Some(Instr(W_CTS, 1)) && |st.iters| > 0
    ensures Steps(u, Conf(pc, st, []), 1) == Conf(pc + 2, DropIter(st), [])
  {
    hide DecodeAt, Steps;
    var v := st.iters[|st.iters| - 1];
    assert WithIter(DropIter(st), v) == st;
    FrameWithIter(DropIter(st), v, []);
    assert [Imm(v)] + [] == [] + [Imm(v)];
    DropStep(u, 1, pc, DropIter(st), [], [Imm(v)]);
  }

  /** What a FOREACH does to the shape of the store. */
  predicate DropsOne(r: Outcome, st: Store) {
    r.Normal? || r.Broke? || r.Continued? ==> |r.st.locals| == |st.locals| && |r.st.iters| == |st.iters| - 1
  }

  lemma SimForeach(reverse: bool, body: Stmt, inner: Env, u: Unit, cont: int, st: Store, t: Targets, fuel: nat)
    returns (n: nat)
    requires ForeachPlaced(reverse, body, inner, u, cont, st, t)
    ensures var r := ExecForeach(reverse, body, inner, u.calls, st, fuel);
            var end := cont + 6 + Len(GenStmt(body, inner).value.code);
            Ends(r, u, Conf(cont + 6, st, []), n, end + 7, t, fuel) && DropsOne(r, st)
    decreases fuel, body, 8
  {
    hide At, Steps, DecodeAt, Conf, Len, Exec, GenStmt, Linked, Narrow, ForeachNext;
    var b := GenStmt(body, inner).value.code;
    var end := cont + 6 + Len(b);
    n := SimBody(body, inner, u, cont + 6, st, t.(brk := end + 5, cont := cont), cont - end, fuel);
    var r := Exec(body, inner, u.calls, st, fuel);
    if r.Normal? || r.Continued? {
      ForeachPlacedStays(reverse, body, inner, u, cont, st, r.st, t);
      var k := SimForeachNext(reverse, body, inner, u, cont, r.st, t, fuel);
      Then(u, Conf(cont + 6, st, []), n, Conf(cont, r.st, []), ForeachNext(reverse, body, inner, u.calls, r.st, fuel), k,
           end + 7, t, fuel, fuel);
      n := n + k;
    } else if r.Broke? {
      LeaveStep(u, end + 5, r.st);
      StepsAdd(u, Conf(cont + 6, st, []), n, 1);
      n := n + 1;
    }
  }

  lemma SimForeachNext(reverse: bool, body: Stmt, inner: Env, u: Unit, cont: int, st: Store, t: Targets, fuel: nat)
    returns (n: nat)
    requires ForeachPlaced(reverse, body, inner, u, cont, st, t)
    ensures var r := ForeachNext(reverse, body, inner, u.calls, st, fuel);
            var end := cont + 6 + Len(GenStmt(body, inner).value.code);
            Ends(r, u, Conf(cont, st, []), n, end + 7, t, fuel) && DropsOne(r, st)
    decreases fuel, body, 7
  {
    hide At, Steps, DecodeAt, Conf, Len, GenStmt, Linked, Narrow, NextIter, ExecForeach, Room;
    var b := GenStmt(body, inner).value.code;
    var end := cont + 6 + Len(b);
    NextSteps(reverse, u, cont, Len(b) + 10, st);
    var k := |st.iters| - 1;
    match NextIter(reverse, st.iters[k], st.w)
    case None => n := 1;
    case Some(Empty) =>
      assert cont + 1 + (Len(b) + 10) == end + 5;
      LeaveStep(u, end + 5, st);
      StepsAdd(u, Conf(cont, st, []), 2, 1);
      n := 3;
    case Some(From(v)) =>
      n := 2;
      if fuel > 0 {
        var st1 := st.(iters := st.iters[k := v]);
        ForeachPlacedStays(reverse, body, inner, u, cont, st, st1, t);
        var m := SimForeach(reverse, body, inner, u, cont, st1, t, fuel - 1);
        Then(u, Conf(cont, st, []), 2, Conf(cont + 6, st1, []), ExecForeach(reverse, body, inner, u.calls, st1, fuel - 1), m,
             end + 7, t, fuel, fuel - 1);
        n := 2 + m;
      }
  }

  lemma ForeachUnfold(s: Stmt, env: Env, calls: Calls, st: Store, fuel: nat)
    requires s.Foreach? && GenStmt(s, env).Some?
    ensures GenExp(s.e, env).Some? && GenExp(s.e, env).value.ty.Array?
    ensures var inner := Enter(s.it, GenExp(s.e, env).value.ty, env);
            && GenStmt(s.body, inner).Some?
            && GenStmt(s, env).value.code == ForeachCode(GenExp(s.e, env).value.code, s.reverse, GenStmt(s.body, inner).value.code)
            && GenStmt(s, env).value.env == Leave(GenStmt(s.body, inner).value.env, env)
            && (Narrow(s, env) ==> FewMissing(s.e, env.procs) && Narrow(s.body, inner))
            && var x := Eval(s.e, env, calls, st);
               var q := if x.Raises? then None else StartIter(s.reverse, Raw(x.o, x.st), x.st.w);
               Exec(s, env, calls, st, fuel) ==
                 if q.None? then Failed
                 else if q.value.Empty? then Normal(x.st)
                 else ExecForeach(s.reverse, s.body, inner, calls, WithIter(x.st, q.value.it), fuel)
  {
    hide GenExp, Eval, ForeachCode, StartIter, Lookup, ExecForeach;
  }

  /** The body's environment fits the store the loop is entered with. */
  lemma ForeachRoom(s: Stmt, env: Env, inner: Env, u: Unit, st: Store, v: Val, t: Targets)
    requires GenStmt(s, inner).Some? && |inner.iters| == |env.iters| + 1
    requires inner.locals == env.locals && inner.procs == env.procs
    requires Room(Leave(GenStmt(s, inner).value.env, env), st, u, t)
    ensures Ready(env, st, t) && Linked(u, env)
    ensures Room(GenStmt(s, inner).value.env, WithIter(st, v), u, t)
  {
    hide GenStmt;
    StmtGrows(s, inner);
  }

  lemma SimForeachStmt(s: Stmt, env: Env, u: Unit, pc: int, st: Store, t: Targets, fuel: nat) returns (n: nat)
    requires s.Foreach? && Placed(s, env, u, pc, st, t)
    ensures Correct(s, env, u, pc, st, t, fuel, n)
    decreases fuel, s, 0
  {
    hide At, Steps, DecodeAt, Conf, Linked, Len, GenStmt, GenExp, Exec, Eval, Narrow, ForeachCode, StartIter, ExecForeach, Low, Room;
    ForeachUnfold(s, env, u.calls, st, fuel);
    var c := GenExp(s.e, env).value;
    var inner := Enter(s.it, c.ty, env);
    var b := GenStmt(s.body, inner).value.code;
    ForeachParts(u.code, pc, c.code, s.reverse, b, t);
    ForeachRoom(s.body, env, inner, u, st, Null, t);
    n := SimExp(s.e, env, u, pc, st, [], t);
    var x := Eval(s.e, env, u.calls, st);
    if x.Value? {
      var at, cell := pc + Len(c.code), Low(x.o, |st.locals|);
      assert [] + [cell] == [cell];
      var m := StartSteps(s.reverse, u, at, Len(b) + 10, x.st, x.o);
      StepsAdd(u, Conf(pc, st, []), n, m);
      n := n + m;
      var q := StartIter(s.reverse, Raw(x.o, x.st), x.st.w);
      if q.Some? && q.value.Empty? {
        DropStep(u, 1, at + 7 + Len(b) + 10, x.st, [], [cell]);
        StepsAdd(u, Conf(pc, st, []), n, 1);
        n := n + 1;
      } else if q.Some? {
        var st1 := WithIter(x.st, q.value.it);
        RoomStays(Leave(GenStmt(s.body, inner).value.env, env), st, x.st, u, t);
        ForeachRoom(s.body, env, inner, u, x.st, q.value.it, t);
        ForeachIsPlaced(s.reverse, s.body, inner, u, at + 6, st1, t);
        var k := SimForeach(s.reverse, s.body, inner, u, at + 6, st1, t, fuel);
        Then(u, Conf(pc, st, []), n, Conf(at + 12, st1, []), ExecForeach(s.reverse, s.body, inner, u.calls, st1, fuel), k,
             pc + Len(GenStmt(s, env).value.code), t, fuel, fuel);
        n := n + k;
      }
    }
  }

  lemma RoomStays(env: Env, st: Store, st1: Store, u: Unit, t: Targets)
    requires Room(env, st, u, t) && SameShape(st, st1)
    ensures Room(env, st1, u, t)
  {
  }

  lemma ForeachIsPlaced(reverse: bool, body: Stmt, inner: Env, u: Unit, cont: int, st: Store, t: Targets)
    requires |st.iters| > 0 && GenStmt(body, inner).Some? && Narrow(body, inner)
    requires Room(GenStmt(body, inner).value.env, st, u, t)
    requires var b := GenStmt(body, inner).value.code;
             var end := cont + 6 + Len(b);
             && DecodeAt(u.code, cont) == Some(Instr(if reverse then W_ITP else W_ITN, 0))
             && DecodeAt(u.code, cont + 1) == Some(Instr(W_JFC, Len(b) + 10))
             && At(u.code, cont + 6, b, t.(brk := end + 5, cont := cont))
             && DecodeAt(u.code, end) == Some(Instr(W_JMP, cont - end))
             && DecodeAt(u.code, end + 5) == Some(Instr(W_CTS, 1))
    ensures ForeachPlaced(reverse, body, inner, u, cont, st, t)
  {
  }

  // ----- IF -----

  lemma NarrowParts(c: Chain, env: Env)
    requires GenChain(c, env).Some? && NarrowChain(c, env)
    ensures GenStmt(c.body, env).Some? && Narrow(c.body, env) && FewMissing(c.c, env.procs)
    ensures var env1 := GenStmt(c.body, env).value.env;
            match c.tail
            case NoElse => true
            case Else(s) => GenStmt(s, env1).Some? && Narrow(s, env1)
            case ElseIf(next) => GenChain(next, env1).Some? && NarrowChain(next, env1)
  {
    hide GenStmt;
  }

  lemma SimChain(c: Chain, env: Env, u: Unit, pc: int, st: Store, t: Targets, fuel: nat) returns (n: nat)
    requires GenChain(c, env).Some? && Room(GenChain(c, env).value.env, st, u, t) && NarrowChain(c, env)
    requires At(u.code, pc, GenChain(c, env).value.code, t)
    ensures var r := ExecChain(c, env, u.calls, st, fuel);
            && Ends(r, u, Conf(pc, st, []), n, pc + Len(GenChain(c, env).value.code), t, fuel)
            && KeepsShape(r, st)
    decreases fuel, c, 4
  {
    hide At, Steps, DecodeAt, Conf, Linked, Len, GenStmt, GenChain, GenExp, GenBool, Exec, Test, Narrow, NarrowChain, IfCode, IfElseCode,
      Ready, Room;
    ChainParts(c, env);
    NarrowParts(c, env);
    var x, b := GenExp(c.c, env).value.code, GenStmt(c.body, env).value;
    var more := if c.tail.NoElse? then 5 else 10;
    if c.tail.NoElse? {
      IfParts(u.code, pc, x, b.code, t);
    } else {
      IfElseParts(u.code, pc, x, b.code, TailCode(c, env), t);
    }
    ChainRoom(c, env, st, u, t);
    n := SimTest(c.c, Instr(W_JFC, Len(b.code) + more), env, u, pc, st, t);
    var q := Test(c.c, env, u.calls, st);
    if q.Value? {
      RoomStays(GenChain(c, env).value.env, st, q.st, u, t);
      ChainRoom(c, env, q.st, u, t);
      if Passes(q.o) {
        var at := pc + Len(x) + 5;
        var m := SimStmt(c.body, env, u, at, q.st, t, fuel);
        var r := Exec(c.body, env, u.calls, q.st, fuel);
        if r.Normal? && !c.tail.NoElse? {
          JumpAlways(u, Len(TailCode(c, env)) + 5, at + Len(b.code), r.st, []);
          StepsAdd(u, Conf(at, q.st, []), m, 1);
          m := m + 1;
        }
        Then(u, Conf(pc, st, []), n, Conf(at, q.st, []), r, m, pc + Len(GenChain(c, env).value.code), t, fuel, fuel);
        n := n + m;
      } else if !c.tail.NoElse? {
        var at := pc + Len(x) + 10 + Len(b.code);
        var m := SimTail(c, env, u, at, q.st, t, fuel);
        Then(u, Conf(pc, st, []), n, Conf(at, q.st, []), ExecChain(c, env, u.calls, st, fuel), m,
             pc + Len(GenChain(c, env).value.code), t, fuel, fuel);
        n := n + m;
      }
    }
  }

  function TailCode(c: Chain, env: Env): seq<Item>
    requires GenChain(c, env).Some?
  {
    match c.tail
    case NoElse => []
    case Else(s) => GenStmt(s, GenStmt(c.body, env).value.env).value.code
    case ElseIf(next) => GenChain(next, GenStmt(c.body, env).value.env).value.code
  }

  function ExecTail(c: Chain, env: Env, calls: Calls, st: Store, fuel: nat): Outcome
    requires GenChain(c, env).Some? && !c.tail.NoElse?
  {
    match c.tail
    case Else(s) => Exec(s, GenStmt(c.body, env).value.env, calls, st, fuel)
    case ElseIf(next) => ExecChain(next, GenStmt(c.body, env).value.env, calls, st, fuel)
  }

  lemma ChainRoom(c: Chain, env: Env, st: Store, u: Unit, t: Targets)
    requires GenChain(c, env).Some? && Room(GenChain(c, env).value.env, st, u, t)
    ensures GenStmt(c.body, env).Some? && Room(GenStmt(c.body, env).value.env, st, u, t)
    ensures Ready(env, st, t) && Linked(u, env)
  {
    hide GenStmt, GenExp, IfCode, IfElseCode;
    ChainGrows(c, env);
    StmtGrows(c.body, env);
    var env1 := GenStmt(c.body, env).value.env;
    match c.tail
    case NoElse =>
    case Else(body) => StmtGrows(body, env1);
    case ElseIf(next) => ChainGrows(next, env1);
  }

  lemma SimTail(c: Chain, env: Env, u: Unit, pc: int, st: Store, t: Targets, fuel: nat) returns (n: nat)
    requires GenChain(c, env).Some? && !c.tail.NoElse? && Room(GenChain(c, env).value.env, st, u, t) && NarrowChain(c, env)
    requires At(u.code, pc, TailCode(c, env), t)
    ensures var r := ExecTail(c, env, u.calls, st, fuel);
            && Ends(r, u, Conf(pc, st, []), n, pc + Len(TailCode(c, env)), t, fuel)
            && KeepsShape(r, st)
    decreases fuel, c, 3
  {
    hide At, Steps, DecodeAt, Conf, Linked, Len, GenStmt, GenChain, GenExp, Exec, ExecChain, Narrow, NarrowChain, IfElseCode, Room;
    ChainParts(c, env);
    NarrowParts(c, env);
    var b := GenStmt(c.body, env).value;
    match c.tail
    case Else(s) => n := SimStmt(s, b.env, u, pc, st, t, fuel);
    case ElseIf(next) => n := SimChain(next, b.env, u, pc, st, t, fuel);
  }

  // ----- simple statements -----

  lemma SimExpStmt(s: Stmt, env: Env, u: Unit, pc: int, st: Store, t: Targets, fuel: nat) returns (n: nat)
    requires s.ExpStmt? && Placed(s, env, u, pc, st, t)
    ensures Correct(s, env, u, pc, st, t, fuel, n)
  {
    hide At, Steps, DecodeAt, Conf, Linked, Len, GenExp, Eval;
    var c := GenExp(s.e, env).value.code;
    SplitLast(u.code, pc, c, Drop(1), t);
    n := SimDrop(s.e, env, u, pc, st, t);
  }

  /** The first assignment to a name declares it: the slot it will have is
      already there and is stored to like any other. */
  lemma SimDeclare(s: Stmt, env: Env, u: Unit, pc: int, st: Store, t: Targets, fuel: nat) returns (n: nat)
    requires s.Assign? && Lookup(env.locals, s.name).None? && Placed(s, env, u, pc, st, t)
    ensures Correct(s, env, u, pc, st, t, fuel, n)
  {
    hide At, Steps, DecodeAt, Conf, Linked, Len, GenExp, Eval, StoreOpcode, Low, Assigned, Stored, Lookup;
    var c, k := GenExp(s.e, env).value, |env.locals|;
    var op := StoreOpcode(c.ty, c.ty);
    StoreOpcodeKind(c.ty, c.ty);
    SplitLast(u.code, pc, AutoCode(k, c), Drop(1), t);
    SplitLast(u.code, pc, [LoadLocal(k)] + c.code, Op(op), t);
    Split(u.code, pc, [LoadLocal(k)], c.code, t);
    assert [LoadLocal(k)] == [] + [LoadLocal(k)];
    SplitLast(u.code, pc, [], LoadLocal(k), t);
    LoadLocalOne(k);
    var at := pc + Len([LoadLocal(k)]);
    var cell := Low(L(k), |st.locals|);
    LocalStep(u, k, pc, st);
    LinkedSame(u, env, GenStmt(s, env).value.env);
    n := SimExp(s.e, env, u, at, st, [cell], t);
    StepsAdd(u, Conf(pc, st, []), 1, n);
    n := n + 1;
    var x := Eval(s.e, env, u.calls, st);
    if x.Value? {
      assert [] + [cell] == [cell];
      StoredIs(c.ty, c.ty, L(k), x.o, x.st);
      StoreStep(u, op, at + Len(c.code), x.st, [], L(k), x.o);
      StepsAdd(u, Conf(pc, st, []), n, 1);
      n := n + 1;
      var y := Assigned(op, L(k), x.o, x.st);
      if y.Value? {
        DropStep(u, 1, at + Len(c.code) + 1, y.st, [], [Low(y.o, |st.locals|)]);
        StepsAdd(u, Conf(pc, st, []), n, 1);
        n := n + 1;
      }
    }
  }

  lemma LoadLocalOne(k: nat)
    ensures Len([LoadLocal(k)]) == ItemSize(LoadLocal(k))
    ensures LoadLocal(k).I? && LoadLocal(k).i.arg == k && KindOf(LoadLocal(k).i.op) == LoadSlot
  {
    OneLen(LoadLocal(k));
  }

  lemma LocalStep(u: Unit, k: nat, pc: int, st: Store)
    requires LoadLocal(k).I? && DecodeAt(u.code, pc) == Some(LoadLocal(k).i) && k < |st.locals|
    ensures Steps(u, Conf(pc, st, []), 1) == Conf(pc + ItemSize(LoadLocal(k)), st, [Low(L(k), |st.locals|)])
  {
    hide Conf, Steps, DecodeAt;
    LoadLocalOne(k);
    PushStep(u, LoadLocal(k).i, pc, st, [], L(k));
    assert [] + [Low(L(k), |st.locals|)] == [Low(L(k), |st.locals|)];
  }

  lemma SimAssign(s: Stmt, env: Env, u: Unit, pc: int, st: Store, t: Targets, fuel: nat) returns (n: nat)
    requires s.Assign? && Placed(s, env, u, pc, st, t)
    ensures Correct(s, env, u, pc, st, t, fuel, n)
  {
    hide At, Steps, DecodeAt, Conf, Linked, Len, GenExp, Eval, Lookup, StoreOpcode, AutoCode, Stored;
    if Lookup(env.locals, s.name).Some? {
      var e := Exp.Store(Id(s.name), s.e);
      var c := GenExp(e, env).value.code;
      SplitLast(u.code, pc, c, Drop(1), t);
      n := SimDrop(e, env, u, pc, st, t);
    } else {
      n := SimDeclare(s, env, u, pc, st, t, fuel);
    }
  }

  lemma SimReturn(s: Stmt, env: Env, u: Unit, pc: int, st: Store, t: Targets, fuel: nat) returns (n: nat)
    requires s.Return? && Placed(s, env, u, pc, st, t)
    ensures Correct(s, env, u, pc, st, t, fuel, n)
  {
    hide At, Steps, DecodeAt, Conf, Linked, Len, GenExp, Eval, Returnable;
    var c := GenExp(s.e, env).value.code;
    SplitLast(u.code, pc, c, Op(W_RET), t);
    n := SimExp(s.e, env, u, pc, st, [], t);
    var x := Eval(s.e, env, u.calls, st);
    if x.Value? {
      ReturnStep(u, pc + Len(c), x.st, x.o);
      StepsAdd(u, Conf(pc, st, []), n, 1);
      n := n + 1;
    }
  }

  lemma ReturnStep(u: Unit, pc: int, st: Store, o: Operand)
    requires DecodeAt(u.code, pc) == Some(Instr(W_RET, 0)) && Fits(o, st)
    ensures Steps(u, Conf(pc, st, [] + [Low(o, |st.locals|)]), 1) == Done(Raw(o, st), st.w)
  {
    hide DecodeAt, Frame, Low, Raw, RawAt, KindOf;
    assert KindOf(W_RET) == Returns by { ReturnKind(); }
    var stack := Frame(st) + ([] + [Low(o, |st.locals|)]);
    OneStep(u, Config(pc, stack, st.w), Instr(W_RET, 0));
    UnaryEffect(W_NOT, true, st, [], o);
  }

  lemma ReturnKind()
    ensures KindOf(W_RET) == Returns
  {
  }

  lemma SimJump(s: Stmt, env: Env, u: Unit, pc: int, st: Store, t: Targets, fuel: nat)
    requires (s.Break? || s.Continue?) && Placed(s, env, u, pc, st, t)
    ensures Correct(s, env, u, pc, st, t, fuel, 1)
  {
    hide Steps, DecodeAt, Conf, Linked;
    JumpAlways(u, (if s.Break? then t.brk else t.cont) - pc, pc, st, []);
  }

  // ----- loops as statements -----

  lemma SimForStmt(s: Stmt, env: Env, u: Unit, pc: int, st: Store, t: Targets, fuel: nat) returns (n: nat)
    requires s.For? && Placed(s, env, u, pc, st, t)
    ensures Correct(s, env, u, pc, st, t, fuel, n)
    decreases fuel, s, 0
  {
    hide At, Steps, DecodeAt, Conf, Linked, Len, GenExp, Eval, Exec, ExecFor, GenStmt, ForCode, Narrow, Room;
    ForUnfold(s, env, u.calls, st, fuel);
    var i, x, a := GenExp(s.init, env).value.code, GenBool(s.c, env).value, GenExp(s.step, env).value.code;
    var b := GenStmt(s.body, InLoop(env)).value;
    ForParts(u.code, pc, i, a, x, b.code, t);
    LoopRoom(s.body, env, st, u, t);
    TestReady(s.body, env, InLoop(env), st, u, t);
    n := SimDrop(s.init, env, u, pc, st, t);
    var q := Eval(s.init, env, u.calls, st);
    if q.Value? {
      var cont, test := pc + Len(i) + 7, pc + Len(i) + 9 + Len(a);
      JumpAlways(u, Len(a) + 7, pc + Len(i) + 2, q.st, []);
      StepsAdd(u, Conf(pc, st, []), n, 1);
      n := n + 1;
      RoomStays(GenStmt(s.body, InLoop(env)).value.env, st, q.st, u, t);
      var m := SimFor(s.c, s.step, s.body, env, u, cont, test, q.st, t, fuel);
      Then(u, Conf(pc, st, []), n, Conf(test, q.st, []), ExecFor(s.c, s.step, s.body, env, u.calls, q.st, fuel), m,
           pc + Len(GenStmt(s, env).value.code), t, fuel, fuel);
      n := n + m;
    }
  }

  lemma ForUnfold(s: Stmt, env: Env, calls: Calls, st: Store, fuel: nat)
    requires s.For? && GenStmt(s, env).Some?
    ensures GenExp(s.init, env).Some? && GenBool(s.c, env).Some? && GenExp(s.step, env).Some?
    ensures GenStmt(s.body, InLoop(env)).Some? && (Narrow(s, env) ==> Narrow(s.body, InLoop(env)))
    ensures Narrow(s, env) ==> FewMissing(s.init, env.procs) && FewMissing(s.c, env.procs) && FewMissing(s.step, env.procs)
    ensures var b := GenStmt(s.body, InLoop(env)).value;
            GenStmt(s, env).value == StmtCode(ForCode(GenExp(s.init, env).value.code, GenExp(s.step, env).value.code,
                                                      GenBool(s.c, env).value, b.code), Leave(b.env, env))
    ensures var q := Eval(s.init, env, calls, st);
            Exec(s, env, calls, st, fuel)
              == if q.Raises? then Failed else ExecFor(s.c, s.step, s.body, env, calls, q.st, fuel)
  {
    hide GenExp, Eval, ForCode, ExecFor;
  }

  lemma LoopRoom(body: Stmt, env: Env, st: Store, u: Unit, t: Targets)
    requires GenStmt(body, InLoop(env)).Some?
    requires Room(Leave(GenStmt(body, InLoop(env)).value.env, env), st, u, t)
    ensures Room(GenStmt(body, InLoop(env)).value.env, st, u, t)
  {
    hide GenStmt;
    StmtGrows(body, InLoop(env));
  }

  lemma SimLoop(s: Stmt, env: Env, u: Unit, pc: int, st: Store, t: Targets, fuel: nat) returns (n: nat)
    requires (s.While? || s.Until?) && Placed(s, env, u, pc, st, t)
    ensures Correct(s, env, u, pc, st, t, fuel, n)
    decreases fuel, s, 0
  {
    hide At, Steps, DecodeAt, Conf, Linked, Len, GenExp, Eval, Exec, ExecWhile, ExecUntil, GenStmt, WhileCode, UntilCode, Narrow, Room;
    LoopUnfold(s, env, u.calls, st, fuel);
    LoopRoom(s.body, env, st, u, t);
    if s.While? {
      n := SimWhile(s.c, s.body, env, u, pc, st, t, fuel);
    } else {
      UntilParts(u.code, pc, GenStmt(s.body, InLoop(env)).value.code,
                 GenBool(s.c, GenStmt(s.body, InLoop(env)).value.env).value, t);
      n := SimUntil(s.body, s.c, env, u, pc, st, t, fuel);
    }
  }

  lemma LoopUnfold(s: Stmt, env: Env, calls: Calls, st: Store, fuel: nat)
    requires (s.While? || s.Until?) && GenStmt(s, env).Some?
    ensures GenStmt(s.body, InLoop(env)).Some? && (Narrow(s, env) ==> Narrow(s.body, InLoop(env)))
    ensures Narrow(s, env) ==> FewMissing(s.c, env.procs)
    ensures GenStmt(s.body, InLoop(env)).value.env.procs == env.procs
    ensures var b := GenStmt(s.body, InLoop(env)).value;
            var x := GenBool(s.c, if s.While? then env else b.env);
            && x.Some?
            && GenStmt(s, env).value
                 == StmtCode(if s.While? then WhileCode(x.value, b.code) else UntilCode(b.code, x.value), Leave(b.env, env))
            && Exec(s, env, calls, st, fuel)
                 == if s.While? then ExecWhile(s.c, s.body, env, calls, st, fuel)
                    else ExecUntil(s.body, s.c, env, calls, st, fuel)
  {
    hide GenBool, WhileCode, UntilCode, ExecWhile, ExecUntil;
    StmtGrows(s.body, InLoop(env));
  }

  // ----- row copies -----

  /** The field pairs a row copy statement moves. */
  function PairsOf(s: Stmt, env: Env): Option<seq<Pair>>
    requires s.RowCopy? || s.RowCopyFree?
  {
    var h := GenCopyHead(s.lt, s.li, s.rt, s.ri, env);
    if h.None? then None
    else if s.RowCopyFree? then Some(SharedPairs(h.value.left, h.value.right))
    else SelectPairs(h.value.left, s.lsel, h.value.right, s.rsel)
  }

  lemma RowCopyUnfold(s: Stmt, env: Env, calls: Calls, st: Store, fuel: nat)
    requires (s.RowCopy? || s.RowCopyFree?) && GenStmt(s, env).Some?
    ensures GenExp(s.lt, env).Some? && GenExp(s.li, env).Some? && GenExp(s.rt, env).Some? && GenExp(s.ri, env).Some?
    ensures PairsOf(s, env).Some?
    ensures GenCopy(HeadCode(s.lt, s.li, s.rt, s.ri, env), PairsOf(s, env).value, env) == GenStmt(s, env)
    ensures Narrow(s, env) ==> |PairsOf(s, env).value| <= 251 && FourFewMissing(s.lt, s.li, s.rt, s.ri, env.procs)
    ensures Exec(s, env, calls, st, fuel) == ExecCopy(s.lt, s.li, s.rt, s.ri, PairsOf(s, env).value, env, calls, st)
  {
    hide GenExp, GenCopy, SelectPairs, SharedPairs, ExecCopy;
  }

  lemma SimRowCopy(s: Stmt, env: Env, u: Unit, pc: int, st: Store, t: Targets, fuel: nat) returns (n: nat)
    requires (s.RowCopy? || s.RowCopyFree?) && Placed(s, env, u, pc, st, t)
    ensures Correct(s, env, u, pc, st, t, fuel, n)
  {
    hide At, Steps, DecodeAt, Conf, Len, GenExp, GenStmt, Exec, GenCopy, ExecCopy, HeadCode, PairsOf, Narrow, Linked;
    RowCopyUnfold(s, env, u.calls, st, fuel);
    StmtGrows(s, env);
    LinkedSame(u, env, GenStmt(s, env).value.env);
    var rest;
    n, rest := SimCopy(s.lt, s.li, s.rt, s.ri, PairsOf(s, env).value, env, u, pc, st, t);
  }

  /** Statements without code. */
  lemma SimNothing(s: Stmt, env: Env, u: Unit, pc: int, st: Store, t: Targets, fuel: nat)
    requires (s.Skip? || s.Decl?) && Placed(s, env, u, pc, st, t)
    ensures Correct(s, env, u, pc, st, t, fuel, 0)
  {
    hide At, DecodeAt, Conf, Linked;
  }

  lemma SimIf(s: Stmt, env: Env, u: Unit, pc: int, st: Store, t: Targets, fuel: nat) returns (n: nat)
    requires s.If? && Placed(s, env, u, pc, st, t)
    ensures Correct(s, env, u, pc, st, t, fuel, n)
    decreases fuel, s, 4
  {
    hide At, Steps, DecodeAt, Conf, Len, GenChain, ExecChain, NarrowChain, Linked, Room;
    n := SimChain(s.chain, env, u, pc, st, t, fuel);
  }

  lemma SimStmt(s: Stmt, env: Env, u: Unit, pc: int, st: Store, t: Targets, fuel: nat) returns (n: nat)
    requires Placed(s, env, u, pc, st, t)
    ensures Correct(s, env, u, pc, st, t, fuel, n)
    decreases fuel, s, 5
  {
    hide Placed, Correct;
    match s
    case Skip => SimNothing(s, env, u, pc, st, t, fuel); n := 0;
    case Seq(_, _) => n := SimSeq(s, env, u, pc, st, t, fuel);
    case ExpStmt(_) => n := SimExpStmt(s, env, u, pc, st, t, fuel);
    case Decl(_, _) => SimNothing(s, env, u, pc, st, t, fuel); n := 0;
    case Assign(_, _) => n := SimAssign(s, env, u, pc, st, t, fuel);
    case If(_) => n := SimIf(s, env, u, pc, st, t, fuel);
    case While(_, _) => n := SimLoop(s, env, u, pc, st, t, fuel);
    case Until(_, _) => n := SimLoop(s, env, u, pc, st, t, fuel);
    case For(_, _, _, _) => n := SimForStmt(s, env, u, pc, st, t, fuel);
    case Foreach(_, _, _, _) => n := SimForeachStmt(s, env, u, pc, st, t, fuel);
    case Break => SimJump(s, env, u, pc, st, t, fuel); n := 1;
    case Continue => SimJump(s, env, u, pc, st, t, fuel); n := 1;
    case Return(_) => n := SimReturn(s, env, u, pc, st, t, fuel);
    case RowCopy(_, _, _, _, _, _) => n := SimRowCopy(s, env, u, pc, st, t, fuel);
    case RowCopyFree(_, _, _, _) => n := SimRowCopy(s, env, u, pc, st, t, fuel);
  }
}
