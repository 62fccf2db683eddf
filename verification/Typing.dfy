/** The static type the compiler gives an expression and the values the
    expression can have. */
module Typing {
  import opened Bytes
  import opened Wrappers
  import opened Syntax
  import opened Instructions
  import opened Operators
  import opened Compiler
  import opened GeneratorLemmas
  import opened Data
  import opened ValueOps
  import opened Meaning
  import opened Ranges
  import opened Machine
  import opened Semantics
  import opened StackLemmas
  import opened SimulateExp

  /** The element type of every array object. */
  type Arrays = nat -> Base

  /** How closely a value follows its type: by its family only, where integers
      of every width are one and nothing but NULL is undetermined, or by the
      range of the type, where an undetermined value is any scalar. */
  datatype Mode = Families | Ranges

  predicate SameFamily(a: Base, b: Base) {
    (a.Bool? && b.Bool?) || (a.Int? && b.Int?)
  }

  predicate ScalarFits(v: Val, b: Base, m: Mode) {
    match m
    case Families => v.Null? || (v.Truth? && b.Bool?) || (v.Num? && b.Int?)
    case Ranges => InRange(v, b)
  }

  /** An array of undetermined element type holds elements of any type. */
  predicate ElemFits(v: Val, b: Base, m: Mode) {
    v.Null? || ((v.Truth? || v.Num?) && ((m.Families? && b.Undet?) || ScalarFits(v, b, m)))
  }

  /** Every value of the first type is one of the second. */
  predicate Covers(a: Base, b: Base, m: Mode) {
    match m
    case Families => SameFamily(a, b)
    case Ranges => a == b || b.Undet? || (a.Int? && b.Int? && Least(b) <= Least(a) && Greatest(a) <= Greatest(b))
  }

  /** May an expression of type t have this value? */
  predicate Typed(v: Val, t: Ty, g: Arrays, m: Mode) {
    match v
    case Null => true
    case Truth(_) => t.Scalar? && ScalarFits(v, t.base, m)
    case Num(_) => t.Scalar? && ScalarFits(v, t.base, m)
    case Elems(s) => t.Array? && forall x :: x in s ==> ElemFits(x, t.base, m)
    case Arr(id) => t.Array? && (t.base == g(id) || t.base.Undet?)
    case Tab(_) => t.Table?
    case FieldOf(_, _) => false
    case ElemAt(id, i) => t.Scalar? && Covers(g(id), t.base, m) && i < 0x1_0000_0000_0000_0000
    case CellAt(_, _, _) => false
  }

  /** A variable of array type refers to an array of exactly that type, and an
      element reference of a determined type to an element of that type. */
  predicate Exact(v: Val, t: Ty, g: Arrays) {
    (v.Arr? ==> t == Array(g(v.id))) && (v.ElemAt? ==> t == TUndet || t == Scalar(g(v.id)))
  }

  ghost predicate WorldTyped(w: World, g: Arrays, m: Mode) {
    forall id :: id in w.arrays ==> forall x :: x in w.arrays[id] ==> ElemFits(x, g(id), m)
  }

  /** Every declared variable and every iterator has a value of its type. */
  ghost predicate StoreTyped(env: Env, st: Store, g: Arrays, m: Mode) {
    && |env.locals| <= |st.locals| && |env.iters| == |st.iters| && WorldTyped(st.w, g, m)
    && (forall i :: 0 <= i < |env.locals| ==>
          Typed(st.locals[i], env.locals[i].ty, g, m) && Exact(st.locals[i], env.locals[i].ty, g))
    && (forall k :: 0 <= k < |env.iters| ==>
          Typed(st.iters[k], env.iters[k].ty, g, m) && Exact(st.iters[k], env.iters[k].ty, g))
  }

  /** Called procedures return a value of their result type and leave every
      array with elements of its type. */
  ghost predicate CallsTyped(env: Env, calls: Calls, g: Arrays, m: Mode) {
    forall p: nat, args: seq<Val>, w: World ::
      p < |env.procs| && WorldTyped(w, g, m) && calls(p, args, w).Some? ==>
        var r := calls(p, args, w).value;
        Typed(r.0, env.procs[p].result, g, m) && WorldTyped(r.1, g, m)
  }

  predicate Sub(a: Ty, b: Ty, m: Mode) {
    || a == b || (m.Families? && a == TUndet)
    || (a.Scalar? && b.Scalar? && Covers(a.base, b.base, m))
    || (a.Array? && b.Array? && b.base.Undet?)
    || (a.Table? && b.Table?)
  }

  /** The operand has the type, and keeps it whatever is assigned later. */
  predicate OperandTyped(o: Operand, c: ExpCode, env: Env, g: Arrays, m: Mode) {
    match o
    case V(v) => Typed(v, c.ty, g, m) && (c.lval ==> Exact(v, c.ty, g))
    case L(i) => i < |env.locals| && Sub(env.locals[i].ty, c.ty, m) && (c.lval ==> env.locals[i].ty == c.ty)
    case It(k) => k < |env.iters| && Sub(env.iters[k].ty, c.ty, m) && (c.lval ==> env.iters[k].ty == c.ty)
  }

  lemma SubTyped(v: Val, a: Ty, b: Ty, g: Arrays, m: Mode)
    requires Typed(v, a, g, m) && Sub(a, b, m)
    ensures Typed(v, b, g, m)
  {
  }

  /** What an operand of a type holds at any time. */
  lemma RawTyped(o: Operand, c: ExpCode, env: Env, st: Store, g: Arrays, m: Mode)
    requires OperandTyped(o, c, env, g, m) && StoreTyped(env, st, g, m)
    ensures Typed(Raw(o, st), c.ty, g, m) && (c.lval ==> Exact(Raw(o, st), c.ty, g))
    ensures WorldTyped(st.w, g, m)
  {
    hide Typed, WorldTyped, Sub;
    match o
    case V(_) =>
    case L(i) => SubTyped(st.locals[i], env.locals[i].ty, c.ty, g, m);
    case It(k) => SubTyped(st.iters[k], env.iters[k].ty, c.ty, g, m);
  }

  ghost predicate ResultTyped(e: Exp, env: Env, calls: Calls, st: Store, g: Arrays, m: Mode)
    requires GenExp(e, env).Some?
  {
    var r := Eval(e, env, calls, st);
    r.Value? ==> OperandTyped(r.o, GenExp(e, env).value, env, g, m) && StoreTyped(env, r.st, g, m)
  }

  /** Every use that occurs in the expression is allowed. A NULL literal is no
      use: its value is one of every type. */
  predicate Uses(e: Exp, env: Env, allowed: Use -> bool)
    requires GenExp(e, env).Some?
  {
    match e
    case IntC(n, signed) => allowed(Literal(n, signed))
    case Not(x) =>
      Uses(x, env, allowed) && (GenExp(x, env).value.ty == TBool || allowed(Negated(GenExp(x, env).value.ty.base)))
    case IsNull(x, _) => Uses(x, env, allowed)
    case Bin(op, l, r) =>
      && Uses(l, env, allowed) && Uses(r, env, allowed)
      && (l.NullC? || r.NullC? || allowed(Operated(op, GenExp(l, env).value.ty.base, GenExp(r, env).value.ty.base)))
    case Sel(c, l, r) =>
      && Uses(c, env, allowed) && Uses(l, env, allowed) && Uses(r, env, allowed)
      && ArmAllowed(l, GenExp(l, env).value.ty, GenExp(e, env).value.ty, allowed)
      && ArmAllowed(r, GenExp(r, env).value.ty, GenExp(e, env).value.ty, allowed)
    case Store(l, r) => Uses(l, env, allowed) && Uses(r, env, allowed)
    case Index(l, r) => Uses(l, env, allowed) && Uses(r, env, allowed)
    case Call(p, args) => ArgsUses(args, env.procs[p].params, env, allowed)
    case _ => true
  }

  predicate ArmAllowed(e: Exp, a: Ty, t: Ty, allowed: Use -> bool) {
    e.NullC? || a == t || allowed(Arm(a, t))
  }

  predicate ArgsUses(args: Args, params: seq<Ty>, env: Env, allowed: Use -> bool)
    requires GenArgs(args, params, env).Some?
  {
    args.NoArgs? || (Uses(args.head, env, allowed) && ArgsUses(args.tail, params[1..], env, allowed))
  }

  /** What following types by their range needs. */
  predicate Safe(e: Exp, env: Env, m: Mode)
    requires GenExp(e, env).Some?
  {
    m.Ranges? ==> Uses(e, env, Keeps)
  }

  // ----- the operators -----

  /** Reading a value gives one of the same type that is no reference. */
  lemma LoadTyped(v: Val, t: Ty, w: World, g: Arrays, m: Mode)
    requires Typed(v, t, g, m) && WorldTyped(w, g, m) && Load(v, w).Some?
    ensures var x := Load(v, w).value; Typed(x, t, g, m) && !x.Arr? && !x.ElemAt?
  {
    match v
    case ElemAt(id, i) => assert w.arrays[id][i] in w.arrays[id];
    case _ =>
  }

  predicate Divides(op: Byte) {
    op in {W_DIV, W_DIVU, W_MOD, W_MODU}
  }

  /** Divides by zero, or divides the least signed number by -1. */
  predicate Undivided(op: Byte, a: int, b: int) {
    Divides(op) && (U64(b) == 0 || (op in {W_DIV, W_MOD} && Traps(S64(a), S64(b))))
  }

  /** On operands of the types it was chosen for an instruction gives a value of
      the result type's family, and it fails if and only if it divides by zero
      or divides the least signed number by -1. */
  lemma BinTyped(op: BinOp, f: Base, s: Base, a: Val, b: Val)
    requires BinOpcode(op, f, s) != W_NA
    requires ScalarFits(a, f, Families) && ScalarFits(b, s, Families)
    ensures var o := BinOpcode(op, f, s);
            && (BinVal(o, a, b).None? <==> a.Num? && b.Num? && Undivided(o, a.n, b.n))
            && (BinVal(o, a, b).Some? ==>
                  BinResult(o, f, s).Scalar? && ScalarFits(BinVal(o, a, b).value, BinResult(o, f, s).base, Families))
  {
    hide BitOp, NumVal, U64, S64;
    if a.Num? && b.Num? && BinOpcode(op, f, s) !in {W_EQ, W_NE} {
      NumTyped(BinOpcode(op, f, s), a.n, b.n);
    }
  }

  lemma NumTyped(o: Byte, a: int, b: int)
    requires o in {W_ADD, W_SUB, W_MUL, W_MULU, W_LT, W_LE, W_GT, W_GE, W_LTU, W_LEU, W_GTU, W_GEU, W_AND, W_OR, W_XOR} || Divides(o)
    ensures NumVal(o, a, b).None? <==> Undivided(o, a, b)
    ensures NumVal(o, a, b).Some? ==>
              (NumVal(o, a, b).value.Num? <==> Divides(o) || o in {W_ADD, W_SUB, W_MUL, W_MULU, W_AND, W_OR, W_XOR})
              && (NumVal(o, a, b).value.Num? || NumVal(o, a, b).value.Truth?)
  {
    hide BitOp, TruncDiv, U64, S64;
    ZeroEither(b);
  }

  /** A number is zero as a signed word exactly when it is as an unsigned one. */
  lemma ZeroEither(n: int)
    ensures S64(n) == 0 <==> U64(n) == 0
  {
    assert Pow256(8) > 0;
    var u := n % Pow256(8);
    assert 0 <= u < Pow256(8);
  }

  // ----- expressions -----

  /** The value of an expression has the expression's type, and evaluating it
      keeps every variable and every array element well typed. */
  lemma {:induction false} EvalTyped(e: Exp, env: Env, calls: Calls, st: Store, g: Arrays, m: Mode)
    requires GenExp(e, env).Some? && StoreTyped(env, st, g, m) && CallsTyped(env, calls, g, m)
    requires Safe(e, env, m)
    ensures ResultTyped(e, env, calls, st, g, m)
    decreases e, 2
  {
    hide StoreTyped, CallsTyped, ResultTyped, GenExp;
    match e
    case Not(_) => UnaryTyped(e, env, calls, st, g, m);
    case IsNull(_, _) => UnaryTyped(e, env, calls, st, g, m);
    case Bin(_, _, _) =>
      if IsShort(e, env) {
        ShortTyped(e, env, calls, st, g, m);
      } else {
        OrderedTyped(e, env, calls, st, g, m);
      }
    case Store(_, _) => OrderedTyped(e, env, calls, st, g, m);
    case Index(_, _) => OrderedTyped(e, env, calls, st, g, m);
    case Sel(_, _, _) => SelTyped(e, env, calls, st, g, m);
    case Call(_, _) => CallTyped(e, env, calls, st, g, m);
    case _ => LeafTyped(e, env, calls, st, g, m);
  }

  lemma LeafTyped(e: Exp, env: Env, calls: Calls, st: Store, g: Arrays, m: Mode)
    requires GenExp(e, env).Some? && StoreTyped(env, st, g, m)
    requires Safe(e, env, m)
    requires e.NullC? || e.BoolC? || e.IntC? || e.Id? || e.OffsetOf?
    ensures ResultTyped(e, env, calls, st, g, m)
  {
    hide CommonType, StoreOpcode, BinCode, Passable, WorldTyped;
  }

  lemma UnaryTyped(e: Exp, env: Env, calls: Calls, st: Store, g: Arrays, m: Mode)
    requires GenExp(e, env).Some? && (e.Not? || e.IsNull?) && StoreTyped(env, st, g, m) && CallsTyped(env, calls, g, m)
    requires Safe(e, env, m)
    ensures ResultTyped(e, env, calls, st, g, m)
    decreases e, 1
  {
    hide StoreTyped, CallsTyped, GenExp, Eval, NullTest, Load, S64;
    UnaryParts(e, env, calls, st);
    UnaryEquation(e, env);
    EvalTyped(e.e, env, calls, st, g, m);
    var x := Eval(e.e, env, calls, st);
    if x.Value? && Load(Raw(x.o, x.st), x.st.w).Some? {
      var v := Load(Raw(x.o, x.st), x.st.w).value;
      RawTyped(x.o, GenExp(e.e, env).value, env, x.st, g, m);
      LoadTyped(Raw(x.o, x.st), GenExp(e.e, env).value.ty, x.st.w, g, m);
      if m.Ranges? && e.Not? && v.Num? {
        NotRangeExact(GenExp(e.e, env).value.ty.base, v.n);
      }
    }
  }

  /** Two operands one after the other. */
  lemma BothTyped(e: Exp, l: Exp, r: Exp, env: Env, calls: Calls, st: Store, g: Arrays, m: Mode)
    requires l < e && r < e && GenExp(l, env).Some? && GenExp(r, env).Some?
    requires Safe(l, env, m) && Safe(r, env, m)
    requires StoreTyped(env, st, g, m) && CallsTyped(env, calls, g, m)
    ensures var b := EvalBoth(l, r, env, calls, st);
            b.Both? ==> && OperandTyped(b.a, GenExp(l, env).value, env, g, m)
                        && OperandTyped(b.b, GenExp(r, env).value, env, g, m) && StoreTyped(env, b.st, g, m)
    decreases e, 0
  {
    hide CallsTyped, StoreTyped, GenExp, Eval, OperandTyped;
    EvalTyped(l, env, calls, st, g, m);
    var x := Eval(l, env, calls, st);
    if x.Value? {
      EvalTyped(r, env, calls, x.st, g, m);
    }
  }

  lemma CombineTyped(e: Exp, a: ExpCode, b: ExpCode, x: Operand, y: Operand, env: Env, st: Store, g: Arrays, m: Mode)
    requires e.Bin? && a.ty.Scalar? && b.ty.Scalar? && BinOpcode(e.op, a.ty.base, b.ty.base) != W_NA
    requires OperandTyped(x, a, env, g, m) && OperandTyped(y, b, env, g, m) && StoreTyped(env, st, g, m)
    requires m.Ranges? ==> TypesKeep(e.op, a.ty.base, b.ty.base) || x == V(Null) || y == V(Null)
    ensures var op := BinOpcode(e.op, a.ty.base, b.ty.base);
            var r := Combine(op, x, y, st);
            r.Value? ==> r.st == st && r.o.V? && Typed(r.o.v, BinResult(op, a.ty.base, b.ty.base), g, m)
  {
    hide OperandTyped, StoreTyped, BinOpcode, BinVal, Load, BinResult, TypesKeep, InRange;
    RawTyped(x, a, env, st, g, m);
    RawTyped(y, b, env, st, g, m);
    if Read(x, st).Some? {
      LoadTyped(Raw(x, st), a.ty, st.w, g, m);
    }
    if Read(x, st).Some? && Read(y, st).Some? {
      LoadTyped(Raw(y, st), b.ty, st.w, g, m);
      LoadedNull(x, st);
      LoadedNull(y, st);
      var v, w := Read(x, st).value, Read(y, st).value;
      if BinVal(BinOpcode(e.op, a.ty.base, b.ty.base), v, w).Some? {
        OperatorTyped(e.op, a.ty, b.ty, v, w, g, m);
      }
    }
  }

  lemma NullLiteral(e: Exp, env: Env, calls: Calls, st: Store)
    requires GenExp(e, env).Some?
    ensures e.NullC? ==> Eval(e, env, calls, st) == Value(V(Null), st)
  {
  }

  lemma LoadedNull(x: Operand, st: Store)
    ensures x == V(Null) ==> Read(x, st) == Some(Null)
  {
  }

  lemma OperatorTyped(op: BinOp, f: Ty, s: Ty, a: Val, b: Val, g: Arrays, m: Mode)
    requires f.Scalar? && s.Scalar? && BinOpcode(op, f.base, s.base) != W_NA
    requires Typed(a, f, g, m) && Typed(b, s, g, m) && !a.ElemAt? && !b.ElemAt?
    requires m.Ranges? ==> TypesKeep(op, f.base, s.base) || a.Null? || b.Null?
    requires BinVal(BinOpcode(op, f.base, s.base), a, b).Some?
    ensures var o := BinOpcode(op, f.base, s.base);
            Typed(BinVal(o, a, b).value, BinResult(o, f.base, s.base), g, m)
  {
    hide BinVal, BinOpcode, BinResult, TypesKeep;
    ScalarValue(a, f, g, m);
    ScalarValue(b, s, g, m);
    if m.Families? {
      BinTyped(op, f.base, s.base, a, b);
    } else {
      BinInRange(op, f.base, s.base, a, b);
    }
    PlainResult(BinOpcode(op, f.base, s.base), a, b);
  }

  lemma ScalarValue(v: Val, t: Ty, g: Arrays, m: Mode)
    requires t.Scalar? && Typed(v, t, g, m) && !v.ElemAt?
    ensures ScalarFits(v, t.base, m)
  {
  }

  lemma PlainResult(o: Byte, a: Val, b: Val)
    requires BinVal(o, a, b).Some?
    ensures var v := BinVal(o, a, b).value; v.Null? || v.Truth? || v.Num?
  {
    hide S64, U64, BitOp, TruncDiv;
  }

  lemma ElementTyped(a: ExpCode, b: ExpCode, x: Operand, y: Operand, env: Env, st: Store, g: Arrays, m: Mode)
    requires a.ty.Array? && !a.ty.base.Undet? && OperandTyped(x, a, env, g, m) && StoreTyped(env, st, g, m)
    ensures var r := Element(W_INDA, x, y, st);
            r.Value? ==> r.st == st && OperandTyped(r.o, ExpCode([], Scalar(a.ty.base), true), env, g, m)
  {
    hide StoreTyped, Read, Typed, OperandTyped, U64, Raw;
    RawTyped(x, a, env, st, g, m);
    if Element(W_INDA, x, y, st).Value? {
      Readings(Read(y, st).value.n);
      ArrayElementTyped(Raw(x, st), a.ty, U64(Read(y, st).value.n), env, g, m);
    }
  }

  lemma ArrayElementTyped(v: Val, t: Ty, i: nat, env: Env, g: Arrays, m: Mode)
    requires v.Arr? && Typed(v, t, g, m) && t.Array? && !t.base.Undet? && i < 0x1_0000_0000_0000_0000
    ensures OperandTyped(V(ElemAt(v.id, i)), ExpCode([], Scalar(t.base), true), env, g, m)
  {
  }

  /** A stored value has the type of the variable it is stored to. */
  lemma ConvertTyped(d: Ty, s: Ty, x: Val, g: Arrays, m: Mode)
    requires StoreOpcode(d, s) != W_NA && Typed(x, s, g, m) && Convert(StoreOpcode(d, s), x).Some?
    ensures Typed(Convert(StoreOpcode(d, s), x).value, d, g, m)
    ensures var y := Convert(StoreOpcode(d, s), x).value; y.Null? || y.Truth? || y.Num? || y.Elems?
    ensures d != TUndet
  {
    hide Wrap, ElemFits;
    if d.Scalar? && d.base.Int? && x.Num? {
      WrapInRange(d.base, x.n);
    }
    if x.Elems? {
      forall y | y in x.s
        ensures ElemFits(y, d.base, m)
      {
        ElemsWidened(y, s.base, d.base, m);
      }
    }
  }

  lemma ElemsWidened(x: Val, a: Base, b: Base, m: Mode)
    requires ElemFits(x, a, m) && (a == b || b.Undet?)
    ensures ElemFits(x, b, m)
  {
  }

  /** Writing a value of the right type keeps the arrays well typed. */
  lemma UpdateTyped(v: Val, y: Val, d: Ty, w: World, g: Arrays, m: Mode)
    requires Typed(v, d, g, m) && Exact(v, d, g) && Typed(y, d, g, m) && (y.Null? || y.Truth? || y.Num? || y.Elems?)
    requires WorldTyped(w, g, m) && Update(v, y, w).Some? && d != TUndet
    ensures var u := Update(v, y, w).value; Typed(u.0, d, g, m) && Exact(u.0, d, g) && WorldTyped(u.1, g, m)
  {
    var w' := Update(v, y, w).value.1;
    forall id | id in w'.arrays
      ensures forall x :: x in w'.arrays[id] ==> ElemFits(x, g(id), m)
    {
      if id in w.arrays {
        assert forall x :: x in w.arrays[id] ==> ElemFits(x, g(id), m);
      }
    }
  }

  lemma AssignedTyped(a: ExpCode, b: ExpCode, x: Operand, y: Operand, env: Env, st: Store, g: Arrays, m: Mode)
    requires a.lval && StoreOpcode(a.ty, b.ty) != W_NA
    requires OperandTyped(x, a, env, g, m) && OperandTyped(y, b, env, g, m) && StoreTyped(env, st, g, m)
    ensures var r := Assigned(StoreOpcode(a.ty, b.ty), x, y, st);
            r.Value? ==> OperandTyped(r.o, a, env, g, m) && StoreTyped(env, r.st, g, m)
  {
    hide OperandTyped, StoreTyped, StoreOpcode, Convert, Update, Load, Typed, Exact;
    RawTyped(x, a, env, st, g, m);
    RawTyped(y, b, env, st, g, m);
    var op := StoreOpcode(a.ty, b.ty);
    if Assigned(op, x, y, st).Value? {
      var v := Read(y, st).value;
      LoadTyped(Raw(y, st), b.ty, st.w, g, m);
      ConvertTyped(a.ty, b.ty, v, g, m);
      UpdateTyped(Raw(x, st), Convert(op, v).value, a.ty, st.w, g, m);
      PutTyped(x, a, Update(Raw(x, st), Convert(op, v).value, st.w).value, env, st, g, m);
    }
  }

  lemma PutTyped(x: Operand, a: ExpCode, u: (Val, World), env: Env, st: Store, g: Arrays, m: Mode)
    requires a.lval && OperandTyped(x, a, env, g, m) && StoreTyped(env, st, g, m)
    requires Typed(u.0, a.ty, g, m) && Exact(u.0, a.ty, g) && WorldTyped(u.1, g, m)
    ensures var r := Put(x, u.0, u.1, st); OperandTyped(r.0, a, env, g, m) && StoreTyped(env, r.1, g, m)
  {
    hide Typed, Exact, WorldTyped, Sub;
  }

  lemma OrderedTyped(e: Exp, env: Env, calls: Calls, st: Store, g: Arrays, m: Mode)
    requires GenExp(e, env).Some? && InOrder(e, env) && StoreTyped(env, st, g, m) && CallsTyped(env, calls, g, m)
    requires Safe(e, env, m)
    ensures ResultTyped(e, env, calls, st, g, m)
    decreases e, 1
  {
    hide StoreTyped, CallsTyped, GenExp, Eval, OperandTyped, BinOpcode, StoreOpcode, Combine, Assigned, Element, BinResult;
    BinaryParts(e, env);
    OperatorParts(e, env);
    BinaryEval(e, env, calls, st);
    BothTyped(e, e.l, e.r, env, calls, st, g, m);
    var a, b := GenExp(e.l, env).value, GenExp(e.r, env).value;
    var both := EvalBoth(e.l, e.r, env, calls, st);
    if both.Both? {
      NullLiteral(e.l, env, calls, st);
      NullLiteral(e.r, env, calls, Eval(e.l, env, calls, st).st);
      if e.Bin? {
        CombineTyped(e, a, b, both.a, both.b, env, both.st, g, m);
      } else if e.Store? {
        AssignedTyped(a, b, both.a, both.b, env, both.st, g, m);
      } else {
        ElementTyped(a, b, both.a, both.b, env, both.st, g, m);
      }
      SameTyped(env, g, m);
    }
  }

  lemma SameTyped(env: Env, g: Arrays, m: Mode)
    ensures forall o: Operand, c: ExpCode, d: ExpCode ::
              OperandTyped(o, c, env, g, m) && c.ty == d.ty && c.lval == d.lval ==> OperandTyped(o, d, env, g, m)
    ensures forall v: Val, c: ExpCode :: Typed(v, c.ty, g, m) && !c.lval ==> OperandTyped(V(v), c, env, g, m)
  {
  }

  /** The first operand of AND and OR may be the result itself. */
  lemma ShortTyped(e: Exp, env: Env, calls: Calls, st: Store, g: Arrays, m: Mode)
    requires GenExp(e, env).Some? && IsShort(e, env) && StoreTyped(env, st, g, m) && CallsTyped(env, calls, g, m)
    requires Safe(e, env, m)
    ensures ResultTyped(e, env, calls, st, g, m)
    decreases e, 1
  {
    hide StoreTyped, CallsTyped, GenExp, Eval, OperandTyped, BinOpcode, Combine, Condition, BinResult;
    ShortGen(e, env);
    ShortEval(e, env, calls, st);
    OperatorParts(e, env);
    var a, b := GenExp(e.l, env).value, GenExp(e.r, env).value;
    ShortResult(e.op, b.ty.base);
    EvalTyped(e.l, env, calls, st, g, m);
    var x := Eval(e.l, env, calls, st);
    SameTyped(env, g, m);
    WeakerTyped(env, g, m);
    if x.Value? {
      EvalTyped(e.r, env, calls, x.st, g, m);
      var y := Eval(e.r, env, calls, x.st);
      if y.Value? {
        NullLiteral(e.l, env, calls, st);
        NullLiteral(e.r, env, calls, x.st);
        CombineTyped(e, a, b, x.o, y.o, env, y.st, g, m);
      }
    }
  }

  lemma ShortResult(op: BinOp, s: Base)
    requires (op.And? || op.Or?) && BinOpcode(op, Bool, s) != W_NA
    ensures BinResult(BinOpcode(op, Bool, s), Bool, s) == TBool
  {
  }

  /** A variable read as a value. */
  lemma WeakerTyped(env: Env, g: Arrays, m: Mode)
    ensures forall o: Operand, c: ExpCode, d: ExpCode ::
              OperandTyped(o, c, env, g, m) && c.ty == d.ty && !d.lval ==> OperandTyped(o, d, env, g, m)
  {
  }

  /** Both arms of a selection have its type. */
  lemma CommonTyped(o: Operand, c: ExpCode, d: ExpCode, env: Env, g: Arrays, m: Mode)
    requires OperandTyped(o, c, env, g, m) && Sub(c.ty, d.ty, m) && !d.lval
    ensures OperandTyped(o, d, env, g, m)
  {
    match o
    case V(v) => SubTyped(v, c.ty, d.ty, g, m);
    case _ =>
  }

  /** An arm has the type of the selection. */
  lemma ArmTyped(l: Exp, o: Operand, c: ExpCode, d: ExpCode, env: Env, calls: Calls, st: Store, g: Arrays, m: Mode)
    requires GenExp(l, env) == Some(c) && OperandTyped(o, c, env, g, m) && !d.lval
    requires Eval(l, env, calls, st).Value? && Eval(l, env, calls, st).o == o
    requires m.Ranges? ==> ArmAllowed(l, c.ty, d.ty, Keeps)
    requires m.Families? || c.ty == d.ty || c.ty != TUndet ==> Sub(c.ty, d.ty, m)
    ensures OperandTyped(o, d, env, g, m)
  {
    if !l.NullC? || m.Families? {
      CommonTyped(o, c, d, env, g, m);
    }
  }

  /** The type of a selection covers an arm, except an undetermined one. */
  lemma CommonSub(a: Ty, b: Ty, m: Mode)
    requires CommonType(a, b).Some?
    ensures var t := CommonType(a, b).value;
            (m.Families? || a == t || a != TUndet ==> Sub(a, t, m)) && (m.Families? || b == t || b != TUndet ==> Sub(b, t, m))
  {
    hide FieldsIncluded;
  }

  lemma SelTyped(e: Exp, env: Env, calls: Calls, st: Store, g: Arrays, m: Mode)
    requires GenExp(e, env).Some? && e.Sel? && StoreTyped(env, st, g, m) && CallsTyped(env, calls, g, m)
    requires Safe(e, env, m)
    ensures ResultTyped(e, env, calls, st, g, m)
    decreases e, 1
  {
    hide StoreTyped, CallsTyped, GenExp, OperandTyped, Condition, CommonType, Sub;
    SelectParts(e, env);
    var a, b := GenExp(e.l, env).value, GenExp(e.r, env).value;
    CommonSub(a.ty, b.ty, m);
    EvalTyped(e.c, env, calls, st, g, m);
    var x := Eval(e.c, env, calls, st);
    if x.Value? {
      EvalTyped(e.l, env, calls, x.st, g, m);
      EvalTyped(e.r, env, calls, x.st, g, m);
      var y, z := Eval(e.l, env, calls, x.st), Eval(e.r, env, calls, x.st);
      if y.Value? { ArmTyped(e.l, y.o, a, GenExp(e, env).value, env, calls, x.st, g, m); }
      if z.Value? { ArmTyped(e.r, z.o, b, GenExp(e, env).value, env, calls, x.st, g, m); }
    }
  }

  lemma CallTyped(e: Exp, env: Env, calls: Calls, st: Store, g: Arrays, m: Mode)
    requires GenExp(e, env).Some? && e.Call? && StoreTyped(env, st, g, m) && CallsTyped(env, calls, g, m)
    requires Safe(e, env, m)
    ensures ResultTyped(e, env, calls, st, g, m)
    decreases e, 1
  {
    hide GenExp, GenArgs, WorldTyped, Typed;
    CallParts(e, env);
    ArgsTyped(e.args, env.procs[e.proc].params, env, calls, st, g, m);
  }

  lemma {:induction false} ArgsTyped(args: Args, params: seq<Ty>, env: Env, calls: Calls, st: Store, g: Arrays, m: Mode)
    requires GenArgs(args, params, env).Some? && StoreTyped(env, st, g, m) && CallsTyped(env, calls, g, m)
    requires m.Ranges? ==> ArgsUses(args, params, env, Keeps)
    ensures var r := EvalArgs(args, params, env, calls, st); r.Values? ==> StoreTyped(env, r.st, g, m)
    decreases args
  {
    hide GenExp, Eval, StoreTyped, CallsTyped, Passable;
    match args
    case NoArgs =>
    case Arg(e, tail) =>
      EvalTyped(e, env, calls, st, g, m);
      var x := Eval(e, env, calls, st);
      if x.Value? {
        ArgsTyped(tail, params[1..], env, calls, x.st, g, m);
      }
  }

  // ----- where the static type is wider than it looks -----

  /** The width of an integer type is not kept: the complement of an unsigned
      byte is typed as one and is a negative number. */
  lemma WidthLost(name: Label, env: Env, calls: Calls, st: Store)
    requires env.iters == [] && env.locals == [Var(name, Scalar(Int(false, B1)))] && st.locals == [Num(0)]
    ensures GenExp(Not(Id(name)), env).Some? && GenExp(Not(Id(name)), env).value.ty == Scalar(Int(false, B1))
    ensures Eval(Not(Id(name)), env, calls, st) == Value(V(Num(-1)), st)
  {
    assert S64(0) == 0;
  }

  /** A selection takes the type of its other arm when one arm is undetermined,
      so a value of another type gets through. */
  lemma UndeterminedArm(p: nat, env: Env, calls: Calls, st: Store)
    requires p < |env.procs| && env.procs[p] == Proc([], TUndet) && calls(p, [], st.w) == Some((Truth(true), st.w))
    ensures var e := Sel(BoolC(true), Call(p, NoArgs), IntC(1, true));
            && GenExp(e, env).Some? && GenExp(e, env).value.ty == TI64
            && Eval(e, env, calls, st) == Value(V(Truth(true)), st)
  {
    var c := Call(p, NoArgs);
    assert GenArgs(NoArgs, [], env) == Some([]) && EvalArgs(NoArgs, [], env, calls, st) == Values([], st);
    assert RawAll([], st) + seq(0, _ => Null) == [];
    assert st.(w := st.w) == st;
    assert GenExp(c, env).Some? && GenExp(c, env).value.ty == TUndet;
    assert Eval(c, env, calls, st) == Value(V(Truth(true)), st);
    assert GenExp(IntC(1, true), env).value.ty == TI64 && GenExp(BoolC(true), env).value.ty == TBool;
    assert CommonType(TUndet, TI64) == Some(TI64);
    assert Eval(BoolC(true), env, calls, st) == Value(V(Truth(true)), st);
  }
}
