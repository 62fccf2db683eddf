/** Exactly where the static type of an expression may be wrong. */
module TypeLimits {
  import opened Wrappers
  import opened Syntax
  import opened Instructions
  import opened Operators
  import opened Compiler
  import opened Data
  import opened ValueOps
  import opened Machine
  import opened Semantics
  import opened StackLemmas
  import opened Meaning
  import opened OpcodeMeaning
  import opened Ranges
  import opened Typing

  /** Can the use occur in an accepted expression? */
  predicate Legal(u: Use) {
    match u
    case Literal(_, _) => true
    case Negated(b) => b.Int?
    case Operated(op, f, s) => BinOpcode(op, f, s) != W_NA
    case Arm(a, t) => a != t && (CommonType(a, t) == Some(t) || CommonType(t, a) == Some(t))
  }

  /** Whatever the operands, the result is one of the static type. */
  ghost predicate Harmless(u: Use) {
    match u
    case Literal(n, signed) => InRange(Num(n), (if signed then TI64 else TU64).base)
    case Negated(b) => forall n: int :: InRange(Num(n), b) ==> InRange(Num(-S64(n) - 1), b)
    case Operated(op, f, s) => AlwaysInRange(op, f, s)
    case Arm(a, t) => forall v: Val, g: Arrays :: Typed(v, a, g, Ranges) ==> Typed(v, t, g, Ranges)
  }

  /** The types, or the literal, decide exactly which uses are harmless. */
  lemma KeepsExact(u: Use)
    requires Legal(u)
    ensures Keeps(u) <==> Harmless(u)
  {
    hide BinOpcode, TypesKeep, AlwaysInRange, S64, CommonType, FieldsIncluded;
    match u
    case Literal(n, signed) =>
    case Negated(b) => NegatedExact(b);
    case Operated(op, f, s) => TypesKeepExact(op, f, s);
    case Arm(a, t) => ArmExact(a, t);
  }

  lemma NegatedExact(b: Base)
    requires b.Int?
    ensures Keeps(Negated(b)) <==> Harmless(Negated(b))
  {
    hide S64;
    if b.signed {
      forall n: int | InRange(Num(n), b)
        ensures InRange(Num(-S64(n) - 1), b)
      {
        NotRangeExact(b, n);
      }
    } else {
      assert InRange(Num(0), b);
      NotRangeExact(b, 0);
    }
  }

  /** A value of the undetermined type that is none of another type. */
  function Stranger(t: Ty): Val {
    if t == TBool then Num(0) else Truth(true)
  }

  lemma StrangerTyped(t: Ty, g: Arrays)
    requires t != TUndet
    ensures Typed(Stranger(t), TUndet, g, Ranges) && !Typed(Stranger(t), t, g, Ranges)
  {
  }

  lemma ArmExact(a: Ty, t: Ty)
    requires Legal(Arm(a, t))
    ensures Keeps(Arm(a, t)) <==> Harmless(Arm(a, t))
  {
    if a == TUndet {
      var g: Arrays := _ => Bool;
      StrangerTyped(t, g);
    } else {
      if CommonType(a, t) == Some(t) {
        CommonSub(a, t, Ranges);
      } else {
        CommonSub(t, a, Ranges);
      }
      forall v: Val, g: Arrays | Typed(v, a, g, Ranges)
        ensures Typed(v, t, g, Ranges)
      {
        SubTyped(v, a, t, g, Ranges);
      }
    }
  }

  // ----- arguments and results -----

  /** Does every value handed over have the type it is declared with? */
  predicate Widens(p: Ty, s: Ty) {
    s != TUndet && (p.Scalar? && s.Scalar? ==> Covers(s.base, p.base, Ranges))
  }

  /** Arguments and results are handed over as they are. What the compiler lets
      through has the declared type, for every value, if and only if the declared
      type is at least as wide. */
  lemma HandedExact(p: Ty, s: Ty)
    requires p != TUndet && Passable(p, s)
    ensures Widens(p, s) <==> forall v: Val, g: Arrays :: Typed(v, s, g, Ranges) ==> Typed(v, p, g, Ranges)
  {
    hide TablesCompatible;
    if Widens(p, s) {
      assert Typing.Sub(s, p, Ranges);
      forall v: Val, g: Arrays | Typed(v, s, g, Ranges)
        ensures Typed(v, p, g, Ranges)
      {
        SubTyped(v, s, p, g, Ranges);
      }
    } else {
      var g: Arrays := _ => Bool;
      if s == TUndet {
        StrangerTyped(p, g);
      } else {
        var v := Num(if Least(s.base) < Least(p.base) then Least(s.base) else Greatest(s.base));
        assert Typed(v, s, g, Ranges) && !Typed(v, p, g, Ranges);
      }
    }
  }

  // ----- over whole expressions -----

  /** Every expression all of whose uses are allowed has only values of its
      static type, whatever the store and the called procedures. */
  ghost predicate Sound(allowed: Use -> bool) {
    forall e: Exp, env: Env, calls: Calls, st: Store, g: Arrays ::
      GenExp(e, env).Some? && Uses(e, env, allowed) && StoreTyped(env, st, g, Ranges) && CallsTyped(env, calls, g, Ranges) ==>
        HasType(e, env, calls, st, g)
  }

  /** If the expression has a value, it is one of the static type. */
  ghost predicate HasType(e: Exp, env: Env, calls: Calls, st: Store, g: Arrays)
    requires GenExp(e, env).Some?
  {
    var r := Eval(e, env, calls, st);
    r.Value? ==> Typed(Raw(r.o, r.st), GenExp(e, env).value.ty, g, Ranges)
  }

  /** Allowing more keeps every use allowed: only legal uses occur. */
  lemma {:induction false} UsesWeaken(e: Exp, env: Env, p: Use -> bool, q: Use -> bool)
    requires GenExp(e, env).Some? && Uses(e, env, p) && forall u :: Legal(u) && p(u) ==> q(u)
    ensures Uses(e, env, q)
    decreases e, 0
  {
    hide BinOpcode, CommonType, Legal, Lookup, StoreOpcode, Passable, BinResult;
    match e
    case IntC(n, signed) => LegalBasics();
    case Not(x) => UsesWeaken(x, env, p, q); LegalBasics();
    case IsNull(x, _) => UsesWeaken(x, env, p, q);
    case Bin(op, l, r) =>
      UsesWeaken(l, env, p, q);
      UsesWeaken(r, env, p, q);
      LegalBasics();
    case Sel(c, l, r) =>
      UsesWeaken(c, env, p, q);
      UsesWeaken(l, env, p, q);
      UsesWeaken(r, env, p, q);
      ArmsLegal(GenExp(l, env).value.ty, GenExp(r, env).value.ty);
    case Store(l, r) => UsesWeaken(l, env, p, q); UsesWeaken(r, env, p, q);
    case Index(l, r) => UsesWeaken(l, env, p, q); UsesWeaken(r, env, p, q);
    case Call(k, args) => ArgsWeaken(args, env.procs[k].params, env, p, q);
    case _ =>
  }

  lemma {:induction false} ArgsWeaken(args: Args, params: seq<Ty>, env: Env, p: Use -> bool, q: Use -> bool)
    requires GenArgs(args, params, env).Some? && ArgsUses(args, params, env, p) && forall u :: Legal(u) && p(u) ==> q(u)
    ensures ArgsUses(args, params, env, q)
    decreases args, 1
  {
    hide GenExp, Uses, Legal, Passable;
    if args.Arg? {
      UsesWeaken(args.head, env, p, q);
      ArgsWeaken(args.tail, params[1..], env, p, q);
    }
  }

  lemma LegalBasics()
    ensures forall n: UInt64, signed: bool :: Legal(Literal(n, signed))
    ensures forall b: Base :: b.Int? ==> Legal(Negated(b))
    ensures forall op: BinOp, f: Base, s: Base :: BinOpcode(op, f, s) != W_NA ==> Legal(Operated(op, f, s))
  {
  }

  lemma ArmsLegal(a: Ty, b: Ty)
    requires CommonType(a, b).Some?
    ensures var t := CommonType(a, b).value; (a == t || Legal(Arm(a, t))) && (b == t || Legal(Arm(b, t)))
  {
    hide FieldsIncluded;
  }

  lemma TypedValue(e: Exp, env: Env, calls: Calls, st: Store, g: Arrays)
    requires GenExp(e, env).Some? && ResultTyped(e, env, calls, st, g, Ranges)
    ensures HasType(e, env, calls, st, g)
  {
    hide GenExp, Eval, StoreTyped, OperandTyped, Typed;
    var r := Eval(e, env, calls, st);
    if r.Value? {
      RawTyped(r.o, GenExp(e, env).value, env, r.st, g, Ranges);
    }
  }

  // ----- an expression for every harmful use -----

  const X: Label := [120]
  const Y: Label := [121]

  function Two(f: Ty, s: Ty): Env {
    Env([Var(X, f), Var(Y, s)], [], [], [], TUndet, false)
  }

  function Holding(v: Val, w: Val): Semantics.Store {
    Semantics.Store([v, w], [], World(map[], map[]))
  }

  const NoCalls: Calls := (_, _, _) => None

  const NoArrays: Arrays := _ => Bool

  lemma TwoVariables(f: Ty, s: Ty, v: Val, w: Val)
    ensures GenExp(Id(X), Two(f, s)).Some? && GenExp(Id(X), Two(f, s)).value.ty == f
    ensures GenExp(Id(Y), Two(f, s)).Some? && GenExp(Id(Y), Two(f, s)).value.ty == s
    ensures Eval(Id(X), Two(f, s), NoCalls, Holding(v, w)) == Value(L(0), Holding(v, w))
    ensures Eval(Id(Y), Two(f, s), NoCalls, Holding(v, w)) == Value(L(1), Holding(v, w))
    ensures Raw(L(0), Holding(v, w)) == v && Raw(L(1), Holding(v, w)) == w
  {
    var env := Two(f, s);
    assert X[0] != Y[0];
    assert env.locals[..1] == [Var(X, f)] && env.locals[1..] == [Var(Y, s)];
    assert Lookup(env.locals, X) == Some(0) && Lookup(env.locals, Y) == Some(1);
  }

  lemma HoldingTyped(f: Ty, s: Ty, v: Val, w: Val)
    requires Typed(v, f, NoArrays, Ranges) && Typed(w, s, NoArrays, Ranges) && !v.Arr? && !v.ElemAt? && !w.Arr? && !w.ElemAt?
    ensures StoreTyped(Two(f, s), Holding(v, w), NoArrays, Ranges) && CallsTyped(Two(f, s), NoCalls, NoArrays, Ranges)
  {
    hide Typed;
  }

  /** The expression uses nothing else, and it has a value that is not one of
      its static type. */
  ghost predicate Escapes(u: Use, e: Exp, env: Env, st: Semantics.Store) {
    && GenExp(e, env).Some? && Uses(e, env, v => v == u)
    && StoreTyped(env, st, NoArrays, Ranges) && CallsTyped(env, NoCalls, NoArrays, Ranges)
    && !HasType(e, env, NoCalls, st, NoArrays)
  }

  lemma LiteralEscapes(n: UInt64)
    requires n >= HALF
    ensures Escapes(Literal(n, true), IntC(n, true), Two(TBool, TBool), Holding(Null, Null))
  {
    HoldingTyped(TBool, TBool, Null, Null);
  }

  lemma ComplementEscapes(b: Base)
    requires b.Int? && !b.signed
    ensures Escapes(Negated(b), Not(Id(X)), Two(Scalar(b), TBool), Holding(Num(0), Null))
  {
    hide S64, Fitted;
    var st := Holding(Num(0), Null);
    ComplementMeaning(Scalar(b), Num(0));
    HoldingTyped(Scalar(b), TBool, Num(0), Null);
    TwoVariables(Scalar(b), TBool, Num(0), Null);
    NotRangeExact(b, 0);
    var e, env := Not(Id(X)), Two(Scalar(b), TBool);
    assert Load(Num(0), st.w) == Some(Num(0));
    assert Eval(e, env, NoCalls, st) == Value(V(Num(-S64(0) - 1)), st);
    assert GenExp(e, env).Some? && GenExp(e, env).value.ty == Scalar(b);
    assert Uses(Id(X), env, v => v == Negated(b));
    assert Uses(e, env, v => v == Negated(b));
    assert !HasType(e, env, NoCalls, st, NoArrays);
  }

  lemma OperatorEscapes(op: BinOp, f: Base, s: Base) returns (st: Semantics.Store)
    requires BinOpcode(op, f, s) != W_NA && !TypesKeep(op, f, s)
    ensures Escapes(Operated(op, f, s), Bin(op, Id(X), Id(Y)), Two(Scalar(f), Scalar(s)), st)
  {
    hide BinOpcode, BinVal, TypesKeep, NumKeeps, BinResult, Applied;
    var a, b := Escape(op, f, s);
    var env, o := Two(Scalar(f), Scalar(s)), BinOpcode(op, f, s);
    st := Holding(Num(a), Num(b));
    HoldingTyped(Scalar(f), Scalar(s), Num(a), Num(b));
    TwoVariables(Scalar(f), Scalar(s), Num(a), Num(b));
    NumRangeExact(op, f, s, a, b);
    var e := Bin(op, Id(X), Id(Y));
    assert GenExp(e, env).Some? && GenExp(e, env).value.ty == BinResult(o, f, s);
    assert Load(Num(a), st.w) == Some(Num(a)) && Load(Num(b), st.w) == Some(Num(b));
    AppliedIs(op, f, s, L(0), L(1), st);
    assert Eval(e, env, NoCalls, st) == Value(V(BinVal(o, Num(a), Num(b)).value), st);
    PlainResult(o, Num(a), Num(b));
    assert Uses(Id(X), env, v => v == Operated(op, f, s)) && Uses(Id(Y), env, v => v == Operated(op, f, s));
    assert Uses(e, env, v => v == Operated(op, f, s));
    assert !HasType(e, env, NoCalls, st, NoArrays);
  }

  lemma ArmEscapes(t: Ty)
    requires t != TUndet
    ensures Escapes(Arm(TUndet, t), Sel(BoolC(true), Id(X), Id(Y)), Two(TUndet, t), Holding(Stranger(t), Null))
  {
    var v, env := Stranger(t), Two(TUndet, t);
    var st := Holding(v, Null);
    StrangerTyped(t, NoArrays);
    HoldingTyped(TUndet, t, v, Null);
    TwoVariables(TUndet, t, v, Null);
    var e := Sel(BoolC(true), Id(X), Id(Y));
    assert GenExp(BoolC(true), env).value.ty == TBool;
    assert GenExp(e, env).Some? && GenExp(e, env).value.ty == t;
    assert Eval(e, env, NoCalls, st) == Value(L(0), st);
  }

  /** A set of uses is sound if and only if none of them is harmful: when all
      are kept by their types every expression built from them has values of its
      static type only, and a single one that is not suffices for an expression,
      using nothing else, that has a value of another type. */
  lemma SoundExact(allowed: Use -> bool)
    ensures Sound(allowed) <==> forall u :: Legal(u) && allowed(u) ==> Keeps(u)
  {
    hide Legal, Keeps, Uses, GenExp, StoreTyped, CallsTyped, ResultTyped, HasType;
    if forall u :: Legal(u) && allowed(u) ==> Keeps(u) {
      forall e: Exp, env: Env, calls: Calls, st: Store, g: Arrays | GenExp(e, env).Some? && Uses(e, env, allowed) && StoreTyped(env, st, g, Ranges) && CallsTyped(env, calls, g, Ranges)
        ensures HasType(e, env, calls, st, g)
      {
        UsesWeaken(e, env, allowed, Keeps);
        EvalTyped(e, env, calls, st, g, Ranges);
        TypedValue(e, env, calls, st, g);
      }
    }
    if u :| Legal(u) && allowed(u) && !Keeps(u) {
      var e, env, st := HarmfulEscapes(u);
      UsesWeaken(e, env, v => v == u, allowed);
      assert !HasType(e, env, NoCalls, st, NoArrays);
    }
  }

  lemma HarmfulEscapes(u: Use) returns (e: Exp, env: Env, st: Semantics.Store)
    requires Legal(u) && !Keeps(u)
    ensures Escapes(u, e, env, st)
  {
    hide Escapes, TypesKeep, BinOpcode, CommonType;
    match u
    case Literal(n, _) =>
      e, env, st := IntC(n, true), Two(TBool, TBool), Holding(Null, Null);
      LiteralEscapes(n);
    case Negated(b) =>
      e, env, st := Not(Id(X)), Two(Scalar(b), TBool), Holding(Num(0), Null);
      ComplementEscapes(b);
    case Operated(op, f, s) =>
      st := OperatorEscapes(op, f, s);
      e, env := Bin(op, Id(X), Id(Y)), Two(Scalar(f), Scalar(s));
    case Arm(_, t) =>
      e, env, st := Sel(BoolC(true), Id(X), Id(Y)), Two(TUndet, t), Holding(Stranger(t), Null);
      ArmEscapes(t);
  }

  /** One harmful use does not spoil every expression it occurs in: the sum of a
      product of two bytes and a byte adds to a 64-bit number, and stays in its
      range all the same. */
  lemma HarmfulUnharmed(st: Semantics.Store, calls: Calls, g: Arrays)
    requires StoreTyped(Two(BYTE, BYTE), st, g, Ranges)
    ensures var e := Bin(Add, Bin(Mul, Id(X), Id(Y)), Id(X));
            && GenExp(e, Two(BYTE, BYTE)).Some? && !Uses(e, Two(BYTE, BYTE), Keeps)
            && HasType(e, Two(BYTE, BYTE), calls, st, g)
  {
    hide BinVal, Load, U64, S64, StoreTyped, BinLoaded, Applied;
    var env := Two(BYTE, BYTE);
    var x, y := Read(L(0), st), Read(L(1), st);
    ByteVariables(st, calls, g);
    var product := Bin(Mul, Id(X), Id(Y));
    assert GenExp(product, env).Some? && GenExp(product, env).value.ty == TU64;
    AppliedIs(Mul, BYTE.base, BYTE.base, L(0), L(1), st);
    assert Eval(product, env, calls, st) == Pure(BinLoaded(W_MULU, x, y), st);
    var e := Bin(Add, product, Id(X));
    assert GenExp(e, env).Some? && GenExp(e, env).value.ty == TU64;
    if Eval(product, env, calls, st).Value? {
      ByteProduct(x, y);
      var p := BinLoaded(W_MULU, x, y).value;
      assert Load(p, st.w) == Some(p) by { PlainLoad(p, st.w); }
      AppliedIs(Add, TU64.base, BYTE.base, V(p), L(0), st);
      assert Eval(e, env, calls, st) == Pure(BinLoaded(W_ADD, Some(p), x), st);
      ByteSum(p, x);
    }
  }

  const BYTE := Scalar(Int(false, B1))

  predicate ByteValue(v: Val) { v.Null? || (v.Num? && 0 <= v.n < 256) }

  lemma ByteVariables(st: Semantics.Store, calls: Calls, g: Arrays)
    requires StoreTyped(Two(BYTE, BYTE), st, g, Ranges)
    ensures var env := Two(BYTE, BYTE);
            && GenExp(Id(X), env).Some? && GenExp(Id(X), env).value.ty == BYTE && Eval(Id(X), env, calls, st) == Value(L(0), st)
            && GenExp(Id(Y), env).Some? && GenExp(Id(Y), env).value.ty == BYTE && Eval(Id(Y), env, calls, st) == Value(L(1), st)
    ensures forall i :: 0 <= i < 2 && Read(L(i), st).Some? ==> ByteValue(Read(L(i), st).value)
  {
    hide Load;
    TwoVariables(BYTE, BYTE, Null, Null);
    forall i | 0 <= i < 2 && Read(L(i), st).Some?
      ensures ByteValue(Read(L(i), st).value)
    {
      LoadTyped(st.locals[i], BYTE, st.w, g, Ranges);
    }
  }

  lemma PlainLoad(v: Val, w: World)
    requires v.Null? || v.Num?
    ensures Load(v, w) == Some(v)
  {
  }

  lemma ByteProduct(x: Option<Val>, y: Option<Val>)
    requires (x.Some? ==> ByteValue(x.value)) && (y.Some? ==> ByteValue(y.value)) && BinLoaded(W_MULU, x, y).Some?
    ensures var p := BinLoaded(W_MULU, x, y).value; p.Null? || (p.Num? && 0 <= p.n <= 65025)
  {
    hide U64;
    if x.value.Num? && y.Some? && y.value.Num? {
      Readings(x.value.n);
      Readings(y.value.n);
      Readings(x.value.n * y.value.n);
      MulBounds(x.value.n, y.value.n);
    }
  }

  lemma MulBounds(a: int, b: int)
    requires 0 <= a < 256 && 0 <= b < 256
    ensures 0 <= a * b <= 65025
  {
    assert a * b <= 255 * b;
  }

  lemma ByteSum(p: Val, x: Option<Val>)
    requires p.Null? || (p.Num? && 0 <= p.n <= 65025)
    requires x.Some? ==> ByteValue(x.value)
    ensures var r := BinLoaded(W_ADD, Some(p), x); r.Some? ==> InRange(r.value, Int(false, B8))
    ensures var r := BinLoaded(W_ADD, Some(p), x); r.Some? ==> r.value.Null? || r.value.Num?
  {
    hide S64;
    if p.Num? && x.Some? && x.value.Num? {
      Readings(p.n);
      Readings(x.value.n);
      Readings(p.n + x.value.n);
    }
  }
}
