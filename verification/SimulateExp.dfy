/** The machine code of an expression computes what the expression means. */
module SimulateExp {
  import opened Bytes
  import opened Wrappers
  import opened Syntax
  import opened Instructions
  import opened Operators
  import opened Code
  import opened Compiler
  import opened ByteCounts
  import opened Data
  import opened ValueOps
  import opened Machine
  import opened Semantics
  import opened StackLemmas
  import opened Meaning
  import opened OpcodeMeaning

  /** The store has room for every declared local and one iterator per loop. */
  predicate Ready(env: Env, st: Store, t: Targets) {
    |env.locals| <= |st.locals| && |env.iters| == |st.iters| && t.base == |st.locals|
  }

  /** The machine runs in the compiled unit. */
  predicate Linked(u: Unit, env: Env) {
    u.procs == env.procs
  }

  /** The state after code that computes an operand. */
  function After(r: Result, pc: int, temps: seq<Cell>, n: nat): State {
    match r
    case Raises => State.Raised
    case Value(o, st) => Conf(pc, st, temps + [Low(o, n)])
  }

  predicate Shaped(r: Result, st: Store) {
    r.Value? ==> SameShape(st, r.st) && Fits(r.o, r.st)
  }

  lemma OneStep(u: Unit, c: Config, i: Instr)
    requires DecodeAt(u.code, c.pc) == Some(i)
    ensures Steps(u, Running(c), 1) == Execute(u, i, c)
  {
    assert Steps(u, Running(c), 1) == Steps(u, Step(u, Running(c)), 0);
  }

  /** The parts of code that stands at a position. */
  lemma Split(code: seq<Byte>, pc: int, a: seq<Item>, b: seq<Item>, t: Targets)
    requires At(code, pc, a + b, t)
    ensures At(code, pc, a, t) && At(code, pc + Len(a), b, t)
    ensures Len(a + b) == Len(a) + Len(b)
  {
    AtCat(code, pc, a, b, t);
    LenCat(a, b);
  }

  lemma SplitLast(code: seq<Byte>, pc: int, a: seq<Item>, x: Item, t: Targets)
    requires At(code, pc, a + [x], t)
    ensures At(code, pc, a, t)
    ensures DecodeAt(code, pc + Len(a)) == Some(Concrete(x, pc + Len(a), t))
    ensures Len(a + [x]) == Len(a) + ItemSize(x)
  {
    Split(code, pc, a, [x], t);
    assert [x][1..] == [];
  }

  /** Conf with two more operands above the temporaries. */
  lemma TwoMore(st: Store, temps: seq<Cell>, a: Cell, b: Cell)
    ensures Frame(st) + (temps + [a] + [b]) == Frame(st) + (temps + [a, b])
  {
  }

  lemma KindSize(op: Byte)
    ensures KindOf(op) in {Binary, Indexing, Stores} ==> OperandSize(op) == 0
  {
  }

  lemma BinaryDispatch(u: Unit, op: Byte, c: Config)
    requires KindOf(op) in {Binary, Indexing, Stores} && DecodeAt(u.code, c.pc) == Some(Instr(op, 0)) && |c.stack| >= 2
    ensures Steps(u, Running(c), 1)
         == Proceed(if KindOf(op) == Binary then BinTop(op, c.stack, c.w)
                     else if KindOf(op) == Indexing then IndexTop(op, c.stack, c.w)
                     else StoreTop(op, c.stack, c.w), c.pc + 1)
  {
    hide BinTop, IndexTop, StoreTop, KindOf, OperandSize;
    OneStep(u, c, Instr(op, 0));
    KindSize(op);
  }

  lemma BinaryStep(u: Unit, op: Byte, pc: int, st: Store, temps: seq<Cell>, a: Operand, b: Operand)
    requires KindOf(op) == Binary && DecodeAt(u.code, pc) == Some(Instr(op, 0)) && Fits(a, st) && Fits(b, st)
    ensures var n := |st.locals|;
            Steps(u, Conf(pc, st, temps + [Low(a, n)] + [Low(b, n)]), 1) == After(Combine(op, a, b, st), pc + 1, temps, n)
  {
    hide BinTop, BinLoaded;
    var n := |st.locals|;
    TwoMore(st, temps, Low(a, n), Low(b, n));
    BinaryDispatch(u, op, Config(pc, Frame(st) + (temps + [Low(a, n)] + [Low(b, n)]), st.w));
    BinaryEffect(op, st, temps, a, b);
  }

  lemma IndexStep(u: Unit, op: Byte, pc: int, st: Store, temps: seq<Cell>, a: Operand, b: Operand)
    requires KindOf(op) == Indexing && DecodeAt(u.code, pc) == Some(Instr(op, 0)) && Fits(a, st) && Fits(b, st)
    ensures var n := |st.locals|;
            Steps(u, Conf(pc, st, temps + [Low(a, n)] + [Low(b, n)]), 1) == After(Element(op, a, b, st), pc + 1, temps, n)
  {
    hide IndexTop;
    var n := |st.locals|;
    TwoMore(st, temps, Low(a, n), Low(b, n));
    BinaryDispatch(u, op, Config(pc, Frame(st) + (temps + [Low(a, n)] + [Low(b, n)]), st.w));
    IndexEffect(op, st, temps, a, b);
  }

  lemma StoreStep(u: Unit, op: Byte, pc: int, st: Store, temps: seq<Cell>, a: Operand, b: Operand)
    requires KindOf(op) == Stores && DecodeAt(u.code, pc) == Some(Instr(op, 0)) && Fits(a, st) && Fits(b, st)
    ensures var n := |st.locals|;
            Steps(u, Conf(pc, st, temps + [Low(a, n)] + [Low(b, n)]), 1) == After(Assigned(op, a, b, st), pc + 1, temps, n)
    ensures Shaped(Assigned(op, a, b, st), st)
  {
    hide StoreTop, Assigned;
    var n := |st.locals|;
    TwoMore(st, temps, Low(a, n), Low(b, n));
    BinaryDispatch(u, op, Config(pc, Frame(st) + (temps + [Low(a, n)] + [Low(b, n)]), st.w));
    StoreEffect(op, st, temps, a, b);
  }

  // ----- one instruction at a time -----

  /** The instruction puts the operand on the stack. */
  predicate Pushes(i: Instr, o: Operand, st: Store) {
    i.arg >= 0 &&
    ((i == Instr(W_LDNULL, 1) && o == V(Null))
     || (KindOf(i.op) == LoadInt && o == V(Num(i.arg)))
     || (KindOf(i.op) == LoadTruth && o == V(Truth(i.op == W_LDBT)))
     || (KindOf(i.op) == LoadSlot && Low(o, |st.locals|) == Slot(i.arg) && Fits(o, st)))
  }

  lemma PushStep(u: Unit, i: Instr, pc: int, st: Store, temps: seq<Cell>, o: Operand)
    requires DecodeAt(u.code, pc) == Some(i) && Pushes(i, o, st)
    ensures Steps(u, Conf(pc, st, temps), 1) == After(Value(o, st), pc + Size(i), temps, |st.locals|)
  {
    var stack := Frame(st) + temps;
    OneStep(u, Config(pc, stack, st.w), i);
    assert Nulls(1) == [Imm(Null)];
    assert stack + [Low(o, |st.locals|)] == Frame(st) + (temps + [Low(o, |st.locals|)]);
  }

  /** The result of a one-operand operator. */
  function Single(op: Byte, a: Operand, st: Store): Result {
    var x := Read(a, st);
    var t := NullTest(Raw(a, st), st.w);
    Pure(if op == W_NOT || op == W_NOTB then if x.None? then None else NotVal(op, x.value)
         else if op == W_ITOFF then if Raw(a, st).ElemAt? then Some(Num(Raw(a, st).i)) else None
         else if t.None? then None else Some(Truth(t.value == (op == W_INULL))), st)
  }

  /** The effect of a one-operand instruction on the stack. */
  function UnaryTop(op: Byte, stack: seq<Cell>, w: World): Effect
    requires |stack| >= 1
  {
    if op == W_NOT || op == W_NOTB then NotTop(op, stack, w)
    else if op == W_ITOFF then OffsetTop(stack, w)
    else NullTop(op == W_INULL, stack, w)
  }

  lemma UnaryKind(op: Byte)
    requires op in {W_NOT, W_NOTB, W_INULL, W_NNULL, W_ITOFF}
    ensures OperandSize(op) == 0
    ensures KindOf(op) == if op == W_NOT || op == W_NOTB then Negation else if op == W_ITOFF then IterOffset else NullTests
  {
  }

  lemma UnaryDispatch(u: Unit, op: Byte, c: Config)
    requires op in {W_NOT, W_NOTB, W_INULL, W_NNULL, W_ITOFF} && DecodeAt(u.code, c.pc) == Some(Instr(op, 0)) && |c.stack| >= 1
    ensures Steps(u, Running(c), 1) == Proceed(UnaryTop(op, c.stack, c.w), c.pc + 1)
  {
    hide NotTop, NullTop, OffsetTop, KindOf, OperandSize, DecodeAt, Steps;
    OneStep(u, c, Instr(op, 0));
    UnaryKind(op);
  }

  lemma UnaryComputes(op: Byte, st: Store, temps: seq<Cell>, a: Operand)
    requires Fits(a, st)
    ensures var n := |st.locals|;
            UnaryTop(op, Frame(st) + (temps + [Low(a, n)]), st.w) == Computed(Single(op, a, st), temps, n)
  {
    hide NotTop, NullTop, OffsetTop, NotVal, NullTest, Read, Frame, Raw, RawAt, Low, Pure, Computed;
    UnaryEffect(op, op == W_INULL, st, temps, a);
  }

  lemma UnaryStep(u: Unit, op: Byte, pc: int, st: Store, temps: seq<Cell>, a: Operand)
    requires op in {W_NOT, W_NOTB, W_INULL, W_NNULL, W_ITOFF} && DecodeAt(u.code, pc) == Some(Instr(op, 0)) && Fits(a, st)
    ensures Steps(u, Conf(pc, st, temps + [Low(a, |st.locals|)]), 1)
         == After(Single(op, a, st), pc + 1, temps, |st.locals|)
  {
    hide UnaryTop, Single, Steps, Frame, Low, DecodeAt;
    UnaryDispatch(u, op, Config(pc, Frame(st) + (temps + [Low(a, |st.locals|)]), st.w));
    UnaryComputes(op, st, temps, a);
  }

  /** A conditional jump on an operand: where it goes, and whether the operand
      is still there. */
  lemma JumpsOn(u: Unit, i: Instr, pc: int, st: Store, temps: seq<Cell>, a: Operand)
    requires KindOf(i.op) == CondJump && DecodeAt(u.code, pc) == Some(i) && Fits(a, st)
    ensures var n := |st.locals|;
            var x := Condition(Raw(a, st), st.w);
            var taken := x == Some(Truth(i.op == W_JT || i.op == W_JTC));
            var rest := if i.op == W_JFC || i.op == W_JTC then temps else temps + [Low(a, n)];
            Steps(u, Conf(pc, st, temps + [Low(a, n)]), 1)
              == if x.None? then State.Raised else Conf(pc + if taken then i.arg else 5, st, rest)
  {
    hide Condition, DecodeAt, Frame, Low, RawAt, DataStep, NotVal, NullTest;
    var n := |st.locals|;
    OneStep(u, Config(pc, Frame(st) + (temps + [Low(a, n)]), st.w), i);
    UnaryEffect(W_NOT, true, st, temps, a);
  }

  lemma JumpAlways(u: Unit, off: int, pc: int, st: Store, temps: seq<Cell>)
    requires DecodeAt(u.code, pc) == Some(Instr(W_JMP, off))
    ensures Steps(u, Conf(pc, st, temps), 1) == Conf(pc + off, st, temps)
  {
    OneStep(u, Config(pc, Frame(st) + temps, st.w), Instr(W_JMP, off));
  }

  lemma DropStep(u: Unit, k: nat, pc: int, st: Store, temps: seq<Cell>, extra: seq<Cell>)
    requires DecodeAt(u.code, pc) == Some(Instr(W_CTS, k)) && |extra| == k
    ensures Steps(u, Conf(pc, st, temps + extra), 1) == Conf(pc + 2, st, temps)
  {
    var stack := Frame(st) + (temps + extra);
    OneStep(u, Config(pc, stack, st.w), Instr(W_CTS, k));
    assert stack[..|stack| - k] == Frame(st) + temps;
  }

  // ----- whole expressions -----

  /** n steps take the machine from the first byte of an expression's code to
      the byte after it, with the operand on top, or to the exception. */
  predicate Computes(e: Exp, env: Env, u: Unit, pc: int, st: Store, temps: seq<Cell>, n: nat)
    requires GenExp(e, env).Some?
  {
    var r := Eval(e, env, u.calls, st);
    && n > 0
    && Steps(u, Conf(pc, st, temps), n) == After(r, pc + Len(GenExp(e, env).value.code), temps, |st.locals|)
    && Shaped(r, st)
  }

  /** Two expressions one after the other. */
  datatype Both = NotBoth | Both(a: Operand, b: Operand, st: Store)

  function EvalBoth(l: Exp, r: Exp, env: Env, calls: Calls, st: Store): Both
    requires GenExp(l, env).Some? && GenExp(r, env).Some?
  {
    var x := Eval(l, env, calls, st);
    if x.Raises? then NotBoth
    else
      var y := Eval(r, env, calls, x.st);
      if y.Raises? then NotBoth else Both(x.o, y.o, y.st)
  }

  function AfterBoth(r: Both, pc: int, temps: seq<Cell>, n: nat): State {
    if r.NotBoth? then State.Raised else Conf(pc, r.st, temps + [Low(r.a, n)] + [Low(r.b, n)])
  }

  predicate BothShaped(r: Both, st: Store) {
    r.Both? ==> SameShape(st, r.st) && Fits(r.a, r.st) && Fits(r.b, r.st)
  }

  lemma SimPair(e: Exp, l: Exp, r: Exp, env: Env, u: Unit, pc: int, st: Store, temps: seq<Cell>, t: Targets)
    returns (n: nat)
    requires l < e && r < e && GenExp(l, env).Some? && GenExp(r, env).Some?
    requires FewMissing(l, env.procs) && FewMissing(r, env.procs) && Ready(env, st, t) && Linked(u, env)
    requires At(u.code, pc, GenExp(l, env).value.code, t)
    requires At(u.code, pc + Len(GenExp(l, env).value.code), GenExp(r, env).value.code, t)
    ensures var end := pc + Len(GenExp(l, env).value.code) + Len(GenExp(r, env).value.code);
            var both := EvalBoth(l, r, env, u.calls, st);
            Steps(u, Conf(pc, st, temps), n) == AfterBoth(both, end, temps, |st.locals|) && BothShaped(both, st)
    decreases e, 0
  {
    hide At, Len, Eval, GenExp, Steps, Conf, DecodeAt, Low, Linked;
    n := SimExp(l, env, u, pc, st, temps, t);
    var x := Eval(l, env, u.calls, st);
    if x.Value? {
      var m := SimExp(r, env, u, pc + Len(GenExp(l, env).value.code), x.st, temps + [Low(x.o, |st.locals|)], t);
      StepsAdd(u, Conf(pc, st, temps), n, m);
      n := n + m;
    }
  }

  lemma SimExp(e: Exp, env: Env, u: Unit, pc: int, st: Store, temps: seq<Cell>, t: Targets) returns (n: nat)
    requires GenExp(e, env).Some? && FewMissing(e, env.procs) && Ready(env, st, t) && Linked(u, env)
    requires At(u.code, pc, GenExp(e, env).value.code, t)
    ensures Computes(e, env, u, pc, st, temps, n)
    decreases e, 2
  {
    match e
    case NullC => n := SimLeaf(e, env, u, pc, st, temps, t);
    case BoolC(_) => n := SimLeaf(e, env, u, pc, st, temps, t);
    case IntC(_, _) => n := SimLeaf(e, env, u, pc, st, temps, t);
    case Id(_) => n := SimLeaf(e, env, u, pc, st, temps, t);
    case OffsetOf(_) => n := SimOffset(e, env, u, pc, st, temps, t);
    case Not(_) => n := SimUnary(e, env, u, pc, st, temps, t);
    case IsNull(_, _) => n := SimUnary(e, env, u, pc, st, temps, t);
    case Bin(op, l, r) =>
      if IsShort(e, env) {
        n := SimShort(e, env, u, pc, st, temps, t);
      } else {
        n := SimBinary(e, env, u, pc, st, temps, t);
      }
    case Store(_, _) => n := SimStore(e, env, u, pc, st, temps, t);
    case Index(_, _) => n := SimIndex(e, env, u, pc, st, temps, t);
    case Sel(_, _, _) => n := SimSel(e, env, u, pc, st, temps, t);
    case Call(_, _) => n := SimCall(e, env, u, pc, st, temps, t);
  }

  lemma LeafParts(e: Exp, env: Env, calls: Calls, pc: int, st: Store, t: Targets) returns (x: Item, o: Operand)
    requires GenExp(e, env).Some? && Ready(env, st, t) && (e.NullC? || e.BoolC? || e.IntC? || e.Id?)
    ensures GenExp(e, env).value.code == [] + [x] && Pushes(Concrete(x, pc, t), o, st)
    ensures Size(Concrete(x, pc, t)) == ItemSize(x)
    ensures Eval(e, env, calls, st) == Value(o, st) && Shaped(Value(o, st), st)
  {
    hide CommonType, StoreOpcode, BinCode, Passable;
    x, o := GenExp(e, env).value.code[0], Eval(e, env, calls, st).o;
  }

  lemma SimLeaf(e: Exp, env: Env, u: Unit, pc: int, st: Store, temps: seq<Cell>, t: Targets) returns (n: nat)
    requires GenExp(e, env).Some? && Ready(env, st, t) && At(u.code, pc, GenExp(e, env).value.code, t)
    requires e.NullC? || e.BoolC? || e.IntC? || e.Id?
    ensures Computes(e, env, u, pc, st, temps, n)
  {
    hide At, DecodeAt, Conf, Steps, GenExp, Eval, Pushes, ItemSize;
    n := 1;
    var x, o := LeafParts(e, env, u.calls, pc, st, t);
    SplitLast(u.code, pc, [], x, t);
    PushStep(u, Concrete(x, pc, t), pc, st, temps, o);
  }

  lemma IterThenOp(code: seq<Byte>, pc: int, k: nat, op: Byte, t: Targets)
    requires At(code, pc, [Iter(k)] + [Op(op)], t) && OperandSize(op) == 0
    ensures DecodeAt(code, pc) == Some(Instr(W_LDLO32, t.base + k)) && DecodeAt(code, pc + 5) == Some(Instr(op, 0))
    ensures Len([Iter(k)] + [Op(op)]) == 6
  {
    hide At, DecodeAt;
    SplitLast(code, pc, [Iter(k)], Op(op), t);
    assert [Iter(k)] == [] + [Iter(k)];
    SplitLast(code, pc, [], Iter(k), t);
  }

  lemma OffsetParts(e: Exp, env: Env, calls: Calls, st: Store)
    requires GenExp(e, env).Some? && |env.iters| == |st.iters| && e.OffsetOf?
    ensures var k := Lookup(env.iters, e.name);
            && k.Some? && GenExp(e, env).value.code == [Iter(k.value)] + [Op(W_ITOFF)]
            && Eval(e, env, calls, st) == Single(W_ITOFF, It(k.value), st) && Shaped(Eval(e, env, calls, st), st)
  {
  }

  lemma SimOffset(e: Exp, env: Env, u: Unit, pc: int, st: Store, temps: seq<Cell>, t: Targets) returns (n: nat)
    requires GenExp(e, env).Some? && Ready(env, st, t) && At(u.code, pc, GenExp(e, env).value.code, t) && e.OffsetOf?
    ensures Computes(e, env, u, pc, st, temps, n)
  {
    hide At, DecodeAt, Conf, Steps, GenExp, Eval, Frame, Single;
    OffsetParts(e, env, u.calls, st);
    n := 2;
    var k := Lookup(env.iters, e.name).value;
    IterThenOp(u.code, pc, k, W_ITOFF, t);
    PushStep(u, Instr(W_LDLO32, t.base + k), pc, st, temps, It(k));
    UnaryStep(u, W_ITOFF, pc + 5, st, temps, It(k));
    StepsAdd(u, Conf(pc, st, temps), 1, 1);
  }

  function UnaryOp(e: Exp, env: Env): Byte
    requires GenExp(e, env).Some? && (e.Not? || e.IsNull?)
  {
    if e.IsNull? then if e.positive then W_INULL else W_NNULL
    else if GenExp(e.e, env).value.ty == TBool then W_NOTB else W_NOT
  }

  lemma UnaryParts(e: Exp, env: Env, calls: Calls, st: Store)
    requires GenExp(e, env).Some? && (e.Not? || e.IsNull?)
    ensures GenExp(e.e, env).Some? && GenExp(e, env).value.code == GenExp(e.e, env).value.code + [Op(UnaryOp(e, env))]
    ensures var x := Eval(e.e, env, calls, st);
            Eval(e, env, calls, st) == if x.Raises? then Raises else Single(UnaryOp(e, env), x.o, x.st)
  {
    hide Lookup, CommonType, Passable, StoreOpcode, BinCode, NotVal, Inverted, NullTest, Read;
    var x := Eval(e.e, env, calls, st);
    if e.Not? && x.Value? && Read(x.o, x.st).Some? {
      ComplementMeaning(GenExp(e.e, env).value.ty, Read(x.o, x.st).value);
    }
  }

  lemma SimUnary(e: Exp, env: Env, u: Unit, pc: int, st: Store, temps: seq<Cell>, t: Targets) returns (n: nat)
    requires GenExp(e, env).Some? && FewMissing(e, env.procs) && Ready(env, st, t) && Linked(u, env)
    requires At(u.code, pc, GenExp(e, env).value.code, t) && (e.Not? || e.IsNull?)
    ensures Computes(e, env, u, pc, st, temps, n)
    decreases e, 1
  {
    hide At, Len, Steps, DecodeAt, Conf, Low, Linked, Eval, GenExp, NotVal, NullTest, Read;
    UnaryParts(e, env, u.calls, st);
    var c, op := GenExp(e.e, env).value.code, UnaryOp(e, env);
    SplitLast(u.code, pc, c, Op(op), t);
    n := SimExp(e.e, env, u, pc, st, temps, t);
    var x := Eval(e.e, env, u.calls, st);
    if x.Value? {
      UnaryStep(u, op, pc + Len(c), x.st, temps, x.o);
      StepsAdd(u, Conf(pc, st, temps), n, 1);
    } else {
      Stopped(u, Conf(pc, st, temps), n);
    }
    n := n + 1;
  }

  lemma SimBinary(e: Exp, env: Env, u: Unit, pc: int, st: Store, temps: seq<Cell>, t: Targets) returns (n: nat)
    requires GenExp(e, env).Some? && FewMissing(e, env.procs) && Ready(env, st, t) && Linked(u, env) && e.Bin?
    requires !(GenExp(e.l, env).value.ty == TBool && (e.op.And? || e.op.Or?))
    requires At(u.code, pc, GenExp(e, env).value.code, t)
    ensures Computes(e, env, u, pc, st, temps, n)
    decreases e, 1
  {
    hide At, Len, Steps, DecodeAt, Conf, Low, Linked, Eval, GenExp, Combine, BinOpcode;
    BinaryParts(e, env);
    var a, b := GenExp(e.l, env).value, GenExp(e.r, env).value;
    var op := BinOpcode(e.op, a.ty.base, b.ty.base);
    BinOpcodeKind(e.op, a.ty.base, b.ty.base);
    BinaryEval(e, env, u.calls, st);
    TwoThenOp(u.code, pc, a.code, b.code, op, t);
    n := SimPair(e, e.l, e.r, env, u, pc, st, temps, t);
    var both := EvalBoth(e.l, e.r, env, u.calls, st);
    if both.Both? {
      BinaryStep(u, op, pc + Len(a.code) + Len(b.code), both.st, temps, both.a, both.b);
      StepsAdd(u, Conf(pc, st, temps), n, 1);
      CombineShape(op, both.a, both.b, both.st);
    } else {
      Stopped(u, Conf(pc, st, temps), n);
    }
    n := n + 1;
  }

  /** The two-operand forms that evaluate both operands before the operator. */
  predicate InOrder(e: Exp, env: Env)
    requires GenExp(e, env).Some?
  {
    match e
    case Bin(op, l, r) => !(GenExp(l, env).value.ty == TBool && (op.And? || op.Or?))
    case Store(_, _) => true
    case Index(_, _) => true
    case _ => false
  }

  lemma BinaryParts(e: Exp, env: Env)
    requires GenExp(e, env).Some? && InOrder(e, env)
    ensures GenExp(e.l, env).Some? && GenExp(e.r, env).Some?
    ensures var a, b := GenExp(e.l, env).value, GenExp(e.r, env).value;
            var op := if e.Store? then StoreOpcode(a.ty, b.ty)
                      else if e.Index? then W_INDA else BinOpcode(e.op, a.ty.base, b.ty.base);
            && op != W_NA && (e.Bin? ==> a.ty.Scalar? && b.ty.Scalar?)
            && GenExp(e, env).value.code == a.code + b.code + [Op(op)]
  {
    hide StoreOpcode, BinOpcode, Lookup, CommonType, Passable;
  }

  lemma BinaryEval(e: Exp, env: Env, calls: Calls, st: Store)
    requires GenExp(e, env).Some? && InOrder(e, env)
    ensures var both := EvalBoth(e.l, e.r, env, calls, st);
            var a, b := GenExp(e.l, env).value.ty, GenExp(e.r, env).value.ty;
            Eval(e, env, calls, st) ==
              if both.NotBoth? then Raises
              else if e.Store? then Assigned(StoreOpcode(a, b), both.a, both.b, both.st)
              else if e.Index? then Element(W_INDA, both.a, both.b, both.st)
              else Combine(BinOpcode(e.op, a.base, b.base), both.a, both.b, both.st)
  {
    hide Combine, Assigned, Element, Applied, Stored, Selected, BinOpcode, StoreOpcode, Lookup, CommonType, Passable;
    BinaryParts(e, env);
    var both := EvalBoth(e.l, e.r, env, calls, st);
    var a, b := GenExp(e.l, env).value.ty, GenExp(e.r, env).value.ty;
    if both.Both? {
      match e
      case Bin(op, _, _) => AppliedIs(op, a.base, b.base, both.a, both.b, both.st);
      case Store(_, _) => StoredIs(a, b, both.a, both.b, both.st);
      case Index(_, _) => SelectedIs(both.a, both.b, both.st);
    }
  }

  /** Two pieces of code with an operator after them. */
  lemma TwoThenOp(code: seq<Byte>, pc: int, a: seq<Item>, b: seq<Item>, op: Byte, t: Targets)
    requires At(code, pc, a + b + [Op(op)], t) && OperandSize(op) == 0
    ensures At(code, pc, a, t) && At(code, pc + Len(a), b, t)
    ensures DecodeAt(code, pc + Len(a) + Len(b)) == Some(Instr(op, 0))
    ensures Len(a + b + [Op(op)]) == Len(a) + Len(b) + 1
  {
    hide At, Len, DecodeAt;
    SplitLast(code, pc, a + b, Op(op), t);
    Split(code, pc, a, b, t);
  }

  lemma BinOpcodeKind(op: BinOp, f: Base, s: Base)
    requires BinOpcode(op, f, s) != W_NA
    ensures KindOf(BinOpcode(op, f, s)) == Binary && OperandSize(BinOpcode(op, f, s)) == 0
  {
    hide MatrixCell, KindOf, OperandSize;
    if MatrixCell(op, f, s) != W_NA {
      CellKind(op, f, s);
    } else if s.Undet? {
      CellKind(op, f, f);
    } else {
      CellKind(op, s, s);
    }
  }

  lemma CellKind(op: BinOp, f: Base, s: Base)
    requires MatrixCell(op, f, s) != W_NA
    ensures KindOf(MatrixCell(op, f, s)) == Binary && OperandSize(MatrixCell(op, f, s)) == 0
  {
  }

  lemma CombineShape(op: Byte, a: Operand, b: Operand, st: Store)
    ensures var r := Combine(op, a, b, st); r.Value? ==> r.st == st && r.o.V?
    ensures var r := Element(op, a, b, st); r.Value? ==> r.st == st && r.o.V?
  {
  }

  /** One more step does not change a stopped machine. */
  lemma Stopped(u: Unit, s: State, n: nat)
    requires !Steps(u, s, n).Running?
    ensures Steps(u, s, n + 1) == Steps(u, s, n)
  {
    StepsAdd(u, s, n, 1);
    StepsStopped(u, Steps(u, s, n), 1);
  }
  predicate IsShort(e: Exp, env: Env)
    requires GenExp(e, env).Some?
  {
    e.Bin? && GenExp(e.l, env).value.ty == TBool && (e.op.And? || e.op.Or?)
  }

  function ShortJump(op: BinOp): Byte { if op.And? then W_JF else W_JT }

  lemma ShortGen(e: Exp, env: Env)
    requires GenExp(e, env).Some? && IsShort(e, env)
    ensures GenExp(e.l, env).Some? && GenExp(e.r, env).Some?
    ensures var a, b := GenExp(e.l, env).value, GenExp(e.r, env).value;
            && a.ty.Scalar? && b.ty.Scalar? && BinOpcode(e.op, a.ty.base, b.ty.base) != W_NA
            && GenExp(e, env).value.code
                 == ShortCode(a.code, ShortJump(e.op), b.code, BinOpcode(e.op, a.ty.base, b.ty.base))
  {
    hide Lookup, CommonType, Passable, StoreOpcode, BinOpcode, BinResult;
  }

  /** When the first operand decides, it is the result and the second is not
      evaluated. */
  lemma ShortEval(e: Exp, env: Env, calls: Calls, st: Store)
    requires GenExp(e, env).Some? && IsShort(e, env)
    ensures var x := Eval(e.l, env, calls, st);
            var v := if x.Raises? then None else Condition(Raw(x.o, x.st), x.st.w);
            Eval(e, env, calls, st) ==
              if v.None? then Raises
              else if v.value == Decider(e.op) then x
              else
                var y := Eval(e.r, env, calls, x.st);
                if y.Raises? then Raises
                else Combine(BinOpcode(e.op, GenExp(e.l, env).value.ty.base, GenExp(e.r, env).value.ty.base), x.o, y.o, y.st)
  {
    hide Lookup, Combine, Applied, BinOpcode, Condition;
    ShortGen(e, env);
    var x := Eval(e.l, env, calls, st);
    if x.Value? {
      var y := Eval(e.r, env, calls, x.st);
      if y.Value? {
        AppliedIs(e.op, GenExp(e.l, env).value.ty.base, GenExp(e.r, env).value.ty.base, x.o, y.o, y.st);
      }
    }
  }

  lemma SimShort(e: Exp, env: Env, u: Unit, pc: int, st: Store, temps: seq<Cell>, t: Targets) returns (n: nat)
    requires GenExp(e, env).Some? && FewMissing(e, env.procs) && Ready(env, st, t) && Linked(u, env) && IsShort(e, env)
    requires At(u.code, pc, GenExp(e, env).value.code, t)
    ensures Computes(e, env, u, pc, st, temps, n)
    decreases e, 1
  {
    hide At, Len, Steps, DecodeAt, Conf, Combine, Condition, Low, Linked, BinOpcode, Eval, GenExp;
    ShortGen(e, env);
    ShortEval(e, env, u.calls, st);
    var a, b := GenExp(e.l, env).value, GenExp(e.r, env).value;
    var op := BinOpcode(e.op, a.ty.base, b.ty.base);
    BinOpcodeKind(e.op, a.ty.base, b.ty.base);
    ShortParts(u.code, pc, a.code, ShortJump(e.op), b.code, op, t);
    var k := pc + Len(a.code);
    n := SimExp(e.l, env, u, pc, st, temps, t);
    var x := Eval(e.l, env, u.calls, st);
    if x.Value? {
      JumpsOn(u, Instr(ShortJump(e.op), Len(b.code) + 6), k, x.st, temps, x.o);
      StepsAdd(u, Conf(pc, st, temps), n, 1);
      n := n + 1;
      var v := Condition(Raw(x.o, x.st), x.st.w);
      if v.Some? && v.value != Decider(e.op) {
        var m := SimExp(e.r, env, u, k + 5, x.st, temps + [Low(x.o, |st.locals|)], t);
        StepsAdd(u, Conf(pc, st, temps), n, m);
        n := n + m;
        var y := Eval(e.r, env, u.calls, x.st);
        if y.Value? {
          BinaryStep(u, op, k + 5 + Len(b.code), y.st, temps, x.o, y.o);
          CombineShape(op, x.o, y.o, y.st);
          StepsAdd(u, Conf(pc, st, temps), n, 1);
          n := n + 1;
        }
      }
    }
  }

  lemma ShortParts(code: seq<Byte>, pc: int, a: seq<Item>, j: Byte, b: seq<Item>, op: Byte, t: Targets)
    requires At(code, pc, ShortCode(a, j, b, op), t) && OperandSize(j) == 4 && OperandSize(op) == 0
    ensures At(code, pc, a, t)
    ensures DecodeAt(code, pc + Len(a)) == Some(Instr(j, Len(b) + 6))
    ensures At(code, pc + Len(a) + 5, b, t)
    ensures DecodeAt(code, pc + Len(a) + 5 + Len(b)) == Some(Instr(op, 0))
    ensures Len(ShortCode(a, j, b, op)) == Len(a) + Len(b) + 6
  {
    hide At, Len, DecodeAt;
    var x := With(j, Len(b) + 6);
    SplitLast(code, pc, a + [x] + b, Op(op), t);
    Split(code, pc, a + [x], b, t);
    SplitLast(code, pc, a, x, t);
  }

  lemma SelParts(code: seq<Byte>, pc: int, c: seq<Item>, a: seq<Item>, b: seq<Item>, t: Targets)
    requires At(code, pc, SelCode(c, a, b), t)
    ensures At(code, pc, c, t)
    ensures DecodeAt(code, pc + Len(c)) == Some(Instr(W_JFC, Len(a) + 10))
    ensures At(code, pc + Len(c) + 5, a, t)
    ensures DecodeAt(code, pc + Len(c) + 5 + Len(a)) == Some(Instr(W_JMP, Len(b) + 5))
    ensures At(code, pc + Len(c) + 10 + Len(a), b, t)
    ensures Len(SelCode(c, a, b)) == Len(c) + Len(a) + Len(b) + 10
  {
    hide At, Len, DecodeAt;
    var x, y := With(W_JFC, Len(a) + 10), With(W_JMP, Len(b) + 5);
    Split(code, pc, c + [x] + a + [y], b, t);
    SplitLast(code, pc, c + [x] + a, y, t);
    Split(code, pc, c + [x], a, t);
    SplitLast(code, pc, c, x, t);
  }

  lemma SelGen(e: Exp, env: Env)
    requires GenExp(e, env).Some? && e.Sel?
    ensures GenExp(e.c, env).Some? && GenExp(e.l, env).Some? && GenExp(e.r, env).Some?
    ensures GenExp(e, env).value.code
         == SelCode(GenExp(e.c, env).value.code, GenExp(e.l, env).value.code, GenExp(e.r, env).value.code)
  {
    hide CommonType, SelCode;
  }

  lemma SelEval(e: Exp, env: Env, calls: Calls, st: Store)
    requires GenExp(e, env).Some? && e.Sel? && GenExp(e.c, env).Some? && GenExp(e.l, env).Some? && GenExp(e.r, env).Some?
    ensures var o := Eval(e.c, env, calls, st);
            var x := if o.Raises? then None else Condition(Raw(o.o, o.st), o.st.w);
            Eval(e, env, calls, st) ==
              if x.None? then Raises
              else if x.value == Truth(false) then Eval(e.r, env, calls, o.st)
              else Eval(e.l, env, calls, o.st)
  {
    hide Condition, CommonType, Raw;
  }

  lemma SimSel(e: Exp, env: Env, u: Unit, pc: int, st: Store, temps: seq<Cell>, t: Targets) returns (n: nat)
    requires GenExp(e, env).Some? && FewMissing(e, env.procs) && Ready(env, st, t) && Linked(u, env) && e.Sel?
    requires At(u.code, pc, GenExp(e, env).value.code, t)
    ensures Computes(e, env, u, pc, st, temps, n)
    decreases e, 1
  {
    hide At, Len, Steps, DecodeAt, Conf, Condition, Low, Linked, Eval, GenExp, SelCode;
    SelGen(e, env);
    SelEval(e, env, u.calls, st);
    var c, a, b := GenExp(e.c, env).value.code, GenExp(e.l, env).value.code, GenExp(e.r, env).value.code;
    SelParts(u.code, pc, c, a, b, t);
    n := SimExp(e.c, env, u, pc, st, temps, t);
    var y := Eval(e.c, env, u.calls, st);
    if y.Value? {
      JumpsOn(u, Instr(W_JFC, Len(a) + 10), pc + Len(c), y.st, temps, y.o);
      StepsAdd(u, Conf(pc, st, temps), n, 1);
      n := n + 1;
      var x := Condition(Raw(y.o, y.st), y.st.w);
      if x.Some? && x.value == Truth(false) {
        var m := SimExp(e.r, env, u, pc + Len(c) + 10 + Len(a), y.st, temps, t);
        StepsAdd(u, Conf(pc, st, temps), n, m);
        n := n + m;
      } else if x.Some? {
        var m := SimExp(e.l, env, u, pc + Len(c) + 5, y.st, temps, t);
        StepsAdd(u, Conf(pc, st, temps), n, m);
        n := n + m;
        var z := Eval(e.l, env, u.calls, y.st);
        if z.Value? {
          JumpAlways(u, Len(b) + 5, pc + Len(c) + 5 + Len(a), z.st, temps + [Low(z.o, |st.locals|)]);
          StepsAdd(u, Conf(pc, st, temps), n, 1);
          n := n + 1;
        }
      }
    }
  }

  lemma SimStore(e: Exp, env: Env, u: Unit, pc: int, st: Store, temps: seq<Cell>, t: Targets) returns (n: nat)
    requires GenExp(e, env).Some? && FewMissing(e, env.procs) && Ready(env, st, t) && Linked(u, env) && e.Store?
    requires At(u.code, pc, GenExp(e, env).value.code, t)
    ensures Computes(e, env, u, pc, st, temps, n)
    decreases e, 1
  {
    hide At, Len, Steps, DecodeAt, Conf, Low, Linked, Eval, GenExp, Assigned, StoreOpcode;
    BinaryParts(e, env);
    var a, b := GenExp(e.l, env).value, GenExp(e.r, env).value;
    var op := StoreOpcode(a.ty, b.ty);
    StoreOpcodeKind(a.ty, b.ty);
    BinaryEval(e, env, u.calls, st);
    TwoThenOp(u.code, pc, a.code, b.code, op, t);
    n := SimPair(e, e.l, e.r, env, u, pc, st, temps, t);
    var both := EvalBoth(e.l, e.r, env, u.calls, st);
    if both.Both? {
      StoreStep(u, op, pc + Len(a.code) + Len(b.code), both.st, temps, both.a, both.b);
      StepsAdd(u, Conf(pc, st, temps), n, 1);
    } else {
      Stopped(u, Conf(pc, st, temps), n);
    }
    n := n + 1;
  }

  lemma StoreOpcodeKind(d: Ty, s: Ty)
    requires StoreOpcode(d, s) != W_NA
    ensures KindOf(StoreOpcode(d, s)) == Stores && OperandSize(StoreOpcode(d, s)) == 0
  {
  }

  lemma SimIndex(e: Exp, env: Env, u: Unit, pc: int, st: Store, temps: seq<Cell>, t: Targets) returns (n: nat)
    requires GenExp(e, env).Some? && FewMissing(e, env.procs) && Ready(env, st, t) && Linked(u, env) && e.Index?
    requires At(u.code, pc, GenExp(e, env).value.code, t)
    ensures Computes(e, env, u, pc, st, temps, n)
    decreases e, 1
  {
    hide At, Len, Steps, DecodeAt, Conf, Low, Linked, Eval, GenExp, Element;
    BinaryParts(e, env);
    var a, b := GenExp(e.l, env).value, GenExp(e.r, env).value;
    BinaryEval(e, env, u.calls, st);
    TwoThenOp(u.code, pc, a.code, b.code, W_INDA, t);
    n := SimPair(e, e.l, e.r, env, u, pc, st, temps, t);
    var both := EvalBoth(e.l, e.r, env, u.calls, st);
    if both.Both? {
      IndexStep(u, W_INDA, pc + Len(a.code) + Len(b.code), both.st, temps, both.a, both.b);
      CombineShape(W_INDA, both.a, both.b, both.st);
      StepsAdd(u, Conf(pc, st, temps), n, 1);
    } else {
      Stopped(u, Conf(pc, st, temps), n);
    }
    n := n + 1;
  }

  // ----- calls -----

  predicate AllFit(os: seq<Operand>, st: Store) {
    forall o :: o in os ==> Fits(o, st)
  }

  function AfterArgs(r: Results, pc: int, temps: seq<Cell>, n: nat): State {
    if r.AnyRaises? then State.Raised else Conf(pc, r.st, temps + Cells(r.os, n))
  }

  predicate ArgsShaped(r: Results, st: Store) {
    r.Values? ==> SameShape(st, r.st) && AllFit(r.os, r.st)
  }

  lemma ArgParts(e: Exp, tail: Args, params: seq<Ty>, env: Env, calls: Calls, st: Store)
    requires GenArgs(Arg(e, tail), params, env).Some?
    ensures params != [] && GenExp(e, env).Some? && GenArgs(tail, params[1..], env).Some?
    ensures GenArgs(Arg(e, tail), params, env).value == GenExp(e, env).value.code + GenArgs(tail, params[1..], env).value
    ensures var x := Eval(e, env, calls, st);
            EvalArgs(Arg(e, tail), params, env, calls, st) ==
              if x.Raises? then AnyRaises
              else
                var y := EvalArgs(tail, params[1..], env, calls, x.st);
                if y.AnyRaises? then AnyRaises else Values([x.o] + y.os, y.st)
  {
    hide GenExp, Eval, Passable;
  }

  lemma MoreCells(temps: seq<Cell>, o: Operand, os: seq<Operand>, n: nat)
    ensures temps + [Low(o, n)] + Cells(os, n) == temps + Cells([o] + os, n)
    ensures temps + Cells([], n) == temps
  {
  }

  lemma ArgsShape(x: Result, y: Results, st: Store)
    requires x.Value? && Shaped(x, st) && y.Values? && ArgsShaped(y, x.st)
    ensures ArgsShaped(Values([x.o] + y.os, y.st), st)
  {
  }

  lemma SimArgs(args: Args, params: seq<Ty>, env: Env, u: Unit, pc: int, st: Store, temps: seq<Cell>, t: Targets)
    returns (n: nat)
    requires GenArgs(args, params, env).Some? && ArgsFewMissing(args, env.procs) && Ready(env, st, t) && Linked(u, env)
    requires At(u.code, pc, GenArgs(args, params, env).value, t)
    ensures var r := EvalArgs(args, params, env, u.calls, st);
            && Steps(u, Conf(pc, st, temps), n)
                 == AfterArgs(r, pc + Len(GenArgs(args, params, env).value), temps, |st.locals|)
            && ArgsShaped(r, st)
    decreases args, 2
  {
    hide At, Eval, GenExp, GenArgs, EvalArgs, DecodeAt, Conf, Low, Linked, Cells, Steps, Len, ArgsShaped;
    match args
    case NoArgs => n := NoArgsSteps(params, env, u, pc, st, temps);
    case Arg(e, tail) =>
      ArgParts(e, tail, params, env, u.calls, st);
      var a, b := GenExp(e, env).value.code, GenArgs(tail, params[1..], env).value;
      Split(u.code, pc, a, b, t);
      n := SimExp(e, env, u, pc, st, temps, t);
      var x := Eval(e, env, u.calls, st);
      if x.Value? {
        var m := SimArgs(tail, params[1..], env, u, pc + Len(a), x.st, temps + [Low(x.o, |st.locals|)], t);
        StepsAdd(u, Conf(pc, st, temps), n, m);
        n := n + m;
        var y := EvalArgs(tail, params[1..], env, u.calls, x.st);
        if y.Values? {
          MoreCells(temps, x.o, y.os, |st.locals|);
          ArgsShape(x, y, st);
        } else {
          ArgsRaise(st);
        }
      } else {
        ArgsRaise(st);
      }
  }

  lemma ArgsRaise(st: Store)
    ensures ArgsShaped(AnyRaises, st)
  {
  }

  lemma NoArgsSteps(params: seq<Ty>, env: Env, u: Unit, pc: int, st: Store, temps: seq<Cell>) returns (n: nat)
    ensures GenArgs(NoArgs, params, env) == Some([]) && EvalArgs(NoArgs, params, env, u.calls, st) == Values([], st)
    ensures Steps(u, Conf(pc, st, temps), n) == AfterArgs(Values([], st), pc + Len([]), temps, |st.locals|)
    ensures ArgsShaped(Values([], st), st)
  {
    hide Conf;
    n := 0;
    MoreCells(temps, V(Null), [], |st.locals|);
  }

  lemma NoSteps(u: Unit, s: State)
    ensures Steps(u, s, 0) == s
  {
  }

  lemma SimCall(e: Exp, env: Env, u: Unit, pc: int, st: Store, temps: seq<Cell>, t: Targets) returns (n: nat)
    requires GenExp(e, env).Some? && FewMissing(e, env.procs) && Ready(env, st, t) && Linked(u, env) && e.Call?
    requires At(u.code, pc, GenExp(e, env).value.code, t)
    ensures Computes(e, env, u, pc, st, temps, n)
    decreases e, 1
  {
    hide At, Len, Steps, DecodeAt, Conf, Invoke, Low, CommonType, StoreOpcode, BinCode, Lookup, Passable;
    var params := env.procs[e.proc].params;
    var missing := |params| - ArgCount(e.args);
    var a := GenArgs(e.args, params, env).value;
    var c := CallCode(e.proc, missing);
    Split(u.code, pc, a, c, t);
    n := SimArgs(e.args, params, env, u, pc, st, temps, t);
    if EvalArgs(e.args, params, env, u.calls, st).Values? {
      var os, st1 := EvalArgs(e.args, params, env, u.calls, st).os, EvalArgs(e.args, params, env, u.calls, st).st;
      var m := CallSteps(u, e.proc, os, missing, pc + Len(a), st1, temps, t);
      StepsAdd(u, Conf(pc, st, temps), n, m);
      n := n + m;
    } else {
      Stopped(u, Conf(pc, st, temps), n);
      n := n + 1;
    }
  }

  /** The missing arguments are pushed as NULLs and the call takes exactly the
      declared number of values. */
  lemma CallSteps(u: Unit, p: nat, os: seq<Operand>, missing: nat, pc: int, st: Store, temps: seq<Cell>, t: Targets)
    returns (n: nat)
    requires p < |u.procs| && |u.procs[p].params| == |os| + missing && missing <= 255 && AllFit(os, st)
    requires At(u.code, pc, CallCode(p, missing), t)
    ensures var r := Invoke(p, os, missing, u.calls, st);
            && n > 0
            && Steps(u, Conf(pc, st, temps + Cells(os, |st.locals|)), n)
                 == After(r, pc + Len(CallCode(p, missing)), temps, |st.locals|)
            && Shaped(r, st)
  {
    hide Invoke, Frame, Conf, Steps, DecodeAt;
    var cells := Cells(os, |st.locals|);
    if missing > 0 {
      var x, y := With(W_LDNULL, missing), With(W_CALL, p);
      assert CallCode(p, missing) == [x] + [y];
      SplitLast(u.code, pc, [x], y, t);
      assert [x] == [] + [x];
      SplitLast(u.code, pc, [], x, t);
      NullsStep(u, missing, pc, st, temps + cells);
      assert temps + cells + Nulls(missing) == temps + (cells + Nulls(missing));
      CallStep(u, p, os, missing, pc + 2, st, temps);
      StepsAdd(u, Conf(pc, st, temps + cells), 1, 1);
      n := 2;
    } else {
      assert CallCode(p, missing) == [] + [With(W_CALL, p)];
      SplitLast(u.code, pc, [], With(W_CALL, p), t);
      assert cells + Nulls(0) == cells;
      CallStep(u, p, os, 0, pc, st, temps);
      n := 1;
    }
  }

  /** The count of the missing arguments has one byte: W_CALL finds the declared
      number of values if and only if at most 255 are missing. */
  lemma MissingExact(u: Unit, missing: nat, given: seq<Operand>, pc: int, st: Store, temps: seq<Cell>)
    requires missing > 0 && DecodeAt(u.code, pc) == Some(Instr(W_LDNULL, missing % 256))
    ensures var above := Cells(given, |st.locals|) + Nulls(missing % 256);
            && Steps(u, Conf(pc, st, temps + Cells(given, |st.locals|)), 1) == Conf(pc + 2, st, temps + above)
            && (|above| == |given| + missing <==> missing <= 255)
  {
    hide Conf, Steps, DecodeAt;
    NullsStep(u, missing % 256, pc, st, temps + Cells(given, |st.locals|));
    assert temps + Cells(given, |st.locals|) + Nulls(missing % 256) == temps + (Cells(given, |st.locals|) + Nulls(missing % 256));
  }

  /** A procedure of 256 parameters called without arguments: no NULL is pushed,
      and the call does not find its values. */
  lemma TooManyMissing(u: Unit, p: nat, pc: int, st: Store, t: Targets)
    requires p < |u.procs| && |u.procs[p].params| == 256 && |st.locals| + |st.iters| < 256
    requires At(u.code, pc, CallCode(p, 256), t)
    ensures Steps(u, Conf(pc, st, []), 1) == Conf(pc + 2, st, []) && Steps(u, Conf(pc, st, []), 2) == Corrupt
  {
    hide Frame, Steps, DecodeAt;
    var x, y := With(W_LDNULL, 0), With(W_CALL, p);
    assert CallCode(p, 256) == [x] + [y];
    SplitLast(u.code, pc, [x], y, t);
    assert [x] == [] + [x];
    SplitLast(u.code, pc, [], x, t);
    NullsStep(u, 0, pc, st, []);
    assert [] + Nulls(0) == [];
    CallDispatch(u, p, Config(pc + 2, Frame(st) + [], st.w));
    StepsAdd(u, Conf(pc, st, []), 1, 1);
  }

  lemma NullsStep(u: Unit, k: nat, pc: int, st: Store, temps: seq<Cell>)
    requires DecodeAt(u.code, pc) == Some(Instr(W_LDNULL, k))
    ensures Steps(u, Conf(pc, st, temps), 1) == Conf(pc + 2, st, temps + Nulls(k))
  {
    OneStep(u, Config(pc, Frame(st) + temps, st.w), Instr(W_LDNULL, k));
    assert Frame(st) + temps + Nulls(k) == Frame(st) + (temps + Nulls(k));
  }

  lemma CallEffect(u: Unit, p: nat, os: seq<Operand>, missing: nat, st: Store, temps: seq<Cell>)
    requires p < |u.procs| && |u.procs[p].params| == |os| + missing && AllFit(os, st)
    ensures CallTop(u, p, Frame(st) + (temps + (Cells(os, |st.locals|) + Nulls(missing))), st.w)
         == Computed(Invoke(p, os, missing, u.calls, st), temps, |st.locals|)
  {
    hide Follow, RawAt, Load;
    var cells := Cells(os, |st.locals|) + Nulls(missing);
    var stack := Frame(st) + (temps + cells);
    var m := |stack| - |cells|;
    var vals := RawAll(os, st) + seq(missing, _ => Null);
    forall i | 0 <= i < |cells|
      ensures RawAt(stack, m + i) == vals[i]
    {
      if i < |os| {
        assert os[i] in os;
        RawOf(stack, m + i, os[i], st);
      } else {
        RawOf(stack, m + i, V(Null), st);
      }
    }
    assert seq(|stack| - m, i requires 0 <= i < |stack| - m => RawAt(stack, m + i)) == vals;
    assert stack[..m] == Frame(st) + temps;
    var r := Invoke(p, os, missing, u.calls, st);
    if r.Value? {
      assert Frame(r.st) == Frame(st);
      assert stack[..m] + [Imm(r.o.v)] == Frame(st) + (temps + [Imm(r.o.v)]);
    }
  }

  lemma CallStep(u: Unit, p: nat, os: seq<Operand>, missing: nat, pc: int, st: Store, temps: seq<Cell>)
    requires p < |u.procs| && |u.procs[p].params| == |os| + missing && AllFit(os, st)
    requires DecodeAt(u.code, pc) == Some(Instr(W_CALL, p))
    ensures var r := Invoke(p, os, missing, u.calls, st);
            && Steps(u, Conf(pc, st, temps + (Cells(os, |st.locals|) + Nulls(missing))), 1)
                 == After(r, pc + 5, temps, |st.locals|)
            && Shaped(r, st)
  {
    hide CallTop, Invoke, KindOf, OperandSize, DecodeAt, Frame, Cells;
    var stack := Frame(st) + (temps + (Cells(os, |st.locals|) + Nulls(missing)));
    CallDispatch(u, p, Config(pc, stack, st.w));
    CallEffect(u, p, os, missing, st, temps);
    InvokeShape(p, os, missing, u.calls, st);
  }

  lemma CallDispatch(u: Unit, p: nat, c: Config)
    requires DecodeAt(u.code, c.pc) == Some(Instr(W_CALL, p))
    ensures Steps(u, Running(c), 1) == Proceed(CallTop(u, p, c.stack, c.w), c.pc + 5)
  {
    hide CallTop, DecodeAt;
    OneStep(u, c, Instr(W_CALL, p));
  }

  lemma InvokeShape(p: nat, os: seq<Operand>, missing: nat, calls: Calls, st: Store)
    ensures Shaped(Invoke(p, os, missing, calls, st), st)
  {
  }
}
