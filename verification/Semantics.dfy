/** The meaning of expressions and statements, defined on the source and its
    static types. Of the compiler only the types it derives and the pairs of
    fields it copies are used, none of its instructions. */
module Semantics {
  import opened Wrappers
  import opened Syntax
  import opened Operators
  import opened Compiler
  import opened Data
  import opened Meaning

  /** The locals (parameters first), the iterators of the loops being run, and
      the arrays and tables. */
  datatype Store = Store(locals: seq<Val>, iters: seq<Val>, w: World)

  /** An expression yields a value or a reference to a variable. */
  datatype Operand = V(v: Val) | L(i: nat) | It(k: nat)

  function Raw(o: Operand, st: Store): Val {
    match o
    case V(v) => v
    case L(i) => if i < |st.locals| then st.locals[i] else Null
    case It(k) => if k < |st.iters| then st.iters[k] else Null
  }

  function Read(o: Operand, st: Store): Option<Val> {
    Load(Raw(o, st), st.w)
  }

  /** Replaces what the operand itself holds. */
  function Put(o: Operand, v: Val, w: World, st: Store): (Operand, Store) {
    match o
    case V(_) => (V(v), st.(w := w))
    case L(i) => (o, if i < |st.locals| then st.(locals := st.locals[i := v], w := w) else st)
    case It(k) => (o, if k < |st.iters| then st.(iters := st.iters[k := v], w := w) else st)
  }

  datatype Result = Value(o: Operand, st: Store) | Raises

  datatype Results = Values(os: seq<Operand>, st: Store) | AnyRaises

  function Pure(v: Option<Val>, st: Store): Result {
    if v.Some? then Value(V(v.value), st) else Raises
  }

  /** An operator on two operands with values of the static types f and s. */
  function Applied(op: BinOp, f: Base, s: Base, a: Operand, b: Operand, st: Store): Result {
    Pure(Operate(op, f, s, Read(a, st), Read(b, st)), st)
  }

  /** Storing s where d refers to, a place of static type t. */
  function Stored(t: Ty, d: Operand, s: Operand, st: Store): Result {
    var x := Read(s, st);
    if x.None? then Raises
    else
      var y := Converted(t, x.value);
      if y.None? then Raises
      else
        var u := Update(Raw(d, st), y.value, st.w);
        if u.None? then Raises
        else
          var (o, st') := Put(d, u.value.0, u.value.1, st);
          Value(o, st')
  }

  function Selected(a: Operand, b: Operand, st: Store): Result {
    var x := Read(b, st);
    Pure(if x.None? then None else ArrayElement(Raw(a, st), x.value), st)
  }

  /** The truth value that decides a Boolean AND or OR. */
  function Decider(op: BinOp): Val {
    Truth(op.Or?)
  }

  function Eval(e: Exp, env: Env, calls: Calls, st: Store): Result
    requires GenExp(e, env).Some?
  {
    match e
    case NullC => Value(V(Null), st)
    case BoolC(b) => Value(V(Truth(b)), st)
    case IntC(n, _) => Value(V(Num(n)), st)
    case Id(name) =>
      var k := Lookup(env.iters, name);
      if k.Some? then Value(It(k.value), st) else Value(L(Lookup(env.locals, name).value), st)
    case Not(e1) =>
      (match Eval(e1, env, calls, st)
       case Raises => Raises
       case Value(o, st1) =>
         var x := Read(o, st1);
         Pure(if x.None? then None else Inverted(GenExp(e1, env).value.ty, x.value), st1))
    case IsNull(e1, positive) =>
      (match Eval(e1, env, calls, st)
       case Raises => Raises
       case Value(o, st1) =>
         var t := NullTest(Raw(o, st1), st1.w);
         Pure(if t.None? then None else Some(Truth(t.value == positive)), st1))
    case Bin(op, l, r) =>
      var tl, tr := GenExp(l, env).value.ty, GenExp(r, env).value.ty;
      (match Eval(l, env, calls, st)
       case Raises => Raises
       case Value(a, st1) =>
         if tl == TBool && (op.And? || op.Or?) then
           var x := Condition(Raw(a, st1), st1.w);
           if x.None? then Raises
           else if x.value == Decider(op) then Value(a, st1)
           else
             match Eval(r, env, calls, st1)
             case Raises => Raises
             case Value(b, st2) => Applied(op, tl.base, tr.base, a, b, st2)
         else
           match Eval(r, env, calls, st1)
           case Raises => Raises
           case Value(b, st2) => Applied(op, tl.base, tr.base, a, b, st2))
    case Sel(c, l, r) =>
      (match Eval(c, env, calls, st)
       case Raises => Raises
       case Value(o, st1) =>
         var x := Condition(Raw(o, st1), st1.w);
         if x.None? then Raises
         else if x.value == Truth(false) then Eval(r, env, calls, st1)
         else Eval(l, env, calls, st1))
    case Store(l, r) =>
      (match Eval(l, env, calls, st)
       case Raises => Raises
       case Value(d, st1) =>
         match Eval(r, env, calls, st1)
         case Raises => Raises
         case Value(s, st2) => Stored(GenExp(l, env).value.ty, d, s, st2))
    case Index(l, r) =>
      (match Eval(l, env, calls, st)
       case Raises => Raises
       case Value(a, st1) =>
         match Eval(r, env, calls, st1)
         case Raises => Raises
         case Value(b, st2) => Selected(a, b, st2))
    case OffsetOf(name) =>
      var v := Raw(It(Lookup(env.iters, name).value), st);
      Pure(if v.ElemAt? then Some(Num(v.i)) else None, st)
    case Call(p, args) =>
      (match EvalArgs(args, env.procs[p].params, env, calls, st)
       case AnyRaises => Raises
       case Values(os, st1) => Invoke(p, os, |env.procs[p].params| - ArgCount(args), calls, st1))
  }

  /** The arguments left to right. */
  function EvalArgs(args: Args, params: seq<Ty>, env: Env, calls: Calls, st: Store): (r: Results)
    requires GenArgs(args, params, env).Some?
    ensures r.Values? ==> |r.os| == ArgCount(args)
  {
    match args
    case NoArgs => Values([], st)
    case Arg(e, tail) =>
      match Eval(e, env, calls, st)
      case Raises => AnyRaises
      case Value(o, st1) =>
        match EvalArgs(tail, params[1..], env, calls, st1)
        case AnyRaises => AnyRaises
        case Values(os, st2) => Values([o] + os, st2)
  }

  function RawAll(os: seq<Operand>, st: Store): (r: seq<Val>)
    ensures |r| == |os|
  {
    seq(|os|, i requires 0 <= i < |os| => Raw(os[i], st))
  }

  /** A call with NULL for every missing argument. */
  function Invoke(p: nat, os: seq<Operand>, missing: nat, calls: Calls, st: Store): Result {
    var r := calls(p, RawAll(os, st) + seq(missing, _ => Null), st.w);
    if r.None? then Raises else Value(V(r.value.0), st.(w := r.value.1))
  }

  // ----- statements -----

  /** How a statement ends. OutOfFuel: it needs more than the given number of
      loop iterations. */
  datatype Outcome =
    | Normal(st: Store)
    | Broke(st: Store)
    | Continued(st: Store)
    | Returned(v: Val, w: World)
    | Failed
    | OutOfFuel

  function Test(e: Exp, env: Env, calls: Calls, st: Store): Result
    requires GenExp(e, env).Some?
  {
    var q := Eval(e, env, calls, st);
    if q.Raises? then Raises else Pure(Condition(Raw(q.o, q.st), q.st.w), q.st)
  }

  /** A null condition counts as true where a false one is what is looked for. */
  predicate Passes(o: Operand) {
    o != V(Truth(false))
  }

  function Exec(s: Stmt, env: Env, calls: Calls, st: Store, fuel: nat): Outcome
    requires GenStmt(s, env).Some?
    decreases fuel, s, 0
  {
    match s
    case Skip => Normal(st)
    case Seq(s1, s2) =>
      var r := Exec(s1, env, calls, st, fuel);
      if r.Normal? then Exec(s2, GenStmt(s1, env).value.env, calls, r.st, fuel) else r
    case ExpStmt(e) =>
      (match Eval(e, env, calls, st)
       case Raises => Failed
       case Value(_, st1) => Normal(st1))
    case Decl(_, _) => Normal(st)
    case Assign(name, e) =>
      if Lookup(env.locals, name).Some? then
        match Eval(Exp.Store(Id(name), e), env, calls, st)
        case Raises => Failed
        case Value(_, st1) => Normal(st1)
      else
        var ty := GenExp(e, env).value.ty;
        (match Eval(e, env, calls, st)
         case Raises => Failed
         case Value(o, st1) =>
           match Stored(ty, L(|env.locals|), o, st1)
           case Raises => Failed
           case Value(_, st2) => Normal(st2))
    case If(chain) => ExecChain(chain, env, calls, st, fuel)
    case While(c, body) => ExecWhile(c, body, env, calls, st, fuel)
    case Until(body, c) => ExecUntil(body, c, env, calls, st, fuel)
    case For(init, c, step, body) =>
      var q := Eval(init, env, calls, st);
      if q.Raises? then Failed else ExecFor(c, step, body, env, calls, q.st, fuel)
    case Foreach(it, e, reverse, body) =>
      var inner := Enter(it, GenExp(e, env).value.ty, env);
      var x := Eval(e, env, calls, st);
      if x.Raises? then Failed
      else
        var q := StartIter(reverse, Raw(x.o, x.st), x.st.w);
        if q.None? then Failed
        else if q.value.Empty? then Normal(x.st)
        else ExecForeach(reverse, body, inner, calls, x.st.(iters := x.st.iters + [q.value.it]), fuel)
    case Break => Broke(st)
    case Continue => Continued(st)
    case Return(e) =>
      (match Eval(e, env, calls, st)
       case Raises => Failed
       case Value(o, st1) => Returned(Raw(o, st1), st1.w))
    case RowCopy(lt, lsel, li, rt, rsel, ri) =>
      var h := GenCopyHead(lt, li, rt, ri, env).value;
      ExecCopy(lt, li, rt, ri, SelectPairs(h.left, lsel, h.right, rsel).value, env, calls, st)
    case RowCopyFree(lt, li, rt, ri) =>
      var h := GenCopyHead(lt, li, rt, ri, env).value;
      ExecCopy(lt, li, rt, ri, SharedPairs(h.left, h.right), env, calls, st)
  }

  function ExecChain(chain: Chain, env: Env, calls: Calls, st: Store, fuel: nat): Outcome
    requires GenChain(chain, env).Some?
    decreases fuel, chain, 0
  {
    var q := Test(chain.c, env, calls, st);
    if q.Raises? then Failed
    else if Passes(q.o) then Exec(chain.body, env, calls, q.st, fuel)
    else
      match chain.tail
      case NoElse => Normal(q.st)
      case Else(body) => Exec(body, GenStmt(chain.body, env).value.env, calls, q.st, fuel)
      case ElseIf(next) => ExecChain(next, GenStmt(chain.body, env).value.env, calls, q.st, fuel)
  }

  function ExecWhile(c: Exp, body: Stmt, env: Env, calls: Calls, st: Store, fuel: nat): Outcome
    requires GenBool(c, env).Some? && GenStmt(body, InLoop(env)).Some?
    decreases fuel, body, 1
  {
    var q := Test(c, env, calls, st);
    if q.Raises? then Failed
    else if !Passes(q.o) then Normal(q.st)
    else
      var r := Exec(body, InLoop(env), calls, q.st, fuel);
      if r.Normal? || r.Continued? then
        if fuel == 0 then OutOfFuel else ExecWhile(c, body, env, calls, r.st, fuel - 1)
      else if r.Broke? then Normal(r.st)
      else r
  }

  /** The body runs once more as long as the condition is true. */
  function ExecUntil(body: Stmt, c: Exp, env: Env, calls: Calls, st: Store, fuel: nat): Outcome
    requires GenStmt(body, InLoop(env)).Some?
    requires GenBool(c, GenStmt(body, InLoop(env)).value.env).Some?
    decreases fuel, body, 1
  {
    var r := Exec(body, InLoop(env), calls, st, fuel);
    if r.Normal? || r.Continued? then UntilTest(body, c, env, calls, r.st, fuel)
    else if r.Broke? then Normal(r.st)
    else r
  }

  function UntilTest(body: Stmt, c: Exp, env: Env, calls: Calls, st: Store, fuel: nat): Outcome
    requires GenStmt(body, InLoop(env)).Some?
    requires GenBool(c, GenStmt(body, InLoop(env)).value.env).Some?
    decreases fuel, body, 0
  {
    var q := Test(c, GenStmt(body, InLoop(env)).value.env, calls, st);
    if q.Raises? then Failed
    else if q.o != V(Truth(true)) then Normal(q.st)
    else if fuel == 0 then OutOfFuel
    else ExecUntil(body, c, env, calls, q.st, fuel - 1)
  }

  function ExecFor(c: Exp, step: Exp, body: Stmt, env: Env, calls: Calls, st: Store, fuel: nat): Outcome
    requires GenBool(c, env).Some? && GenExp(step, env).Some? && GenStmt(body, InLoop(env)).Some?
    decreases fuel, body, 2
  {
    var q := Test(c, env, calls, st);
    if q.Raises? then Failed
    else if !Passes(q.o) then Normal(q.st)
    else
      var r := Exec(body, InLoop(env), calls, q.st, fuel);
      if r.Normal? || r.Continued? then ForStep(c, step, body, env, calls, r.st, fuel)
      else if r.Broke? then Normal(r.st)
      else r
  }

  function ForStep(c: Exp, step: Exp, body: Stmt, env: Env, calls: Calls, st: Store, fuel: nat): Outcome
    requires GenBool(c, env).Some? && GenExp(step, env).Some? && GenStmt(body, InLoop(env)).Some?
    decreases fuel, body, 1
  {
    var q := Eval(step, env, calls, st);
    if q.Raises? then Failed
    else if fuel == 0 then OutOfFuel
    else ExecFor(c, step, body, env, calls, q.st, fuel - 1)
  }

  function DropIter(st: Store): Store {
    if st.iters == [] then st else st.(iters := st.iters[..|st.iters| - 1])
  }

  /** The last of the iterators is this loop's. */
  function ExecForeach(reverse: bool, body: Stmt, inner: Env, calls: Calls, st: Store, fuel: nat): Outcome
    requires GenStmt(body, inner).Some?
    decreases fuel, body, 2
  {
    var r := Exec(body, inner, calls, st, fuel);
    if r.Normal? || r.Continued? then ForeachNext(reverse, body, inner, calls, r.st, fuel)
    else if r.Broke? then Normal(DropIter(r.st))
    else r
  }

  function ForeachNext(reverse: bool, body: Stmt, inner: Env, calls: Calls, st: Store, fuel: nat): Outcome
    requires GenStmt(body, inner).Some?
    decreases fuel, body, 1
  {
    var k := |st.iters| - 1;
    if k < 0 then Failed
    else
      var q := NextIter(reverse, st.iters[k], st.w);
      if q.None? then Failed
      else if q.value.Empty? then Normal(DropIter(st))
      else if fuel == 0 then OutOfFuel
      else ExecForeach(reverse, body, inner, calls, st.(iters := st.iters[k := q.value.it]), fuel - 1)
  }

  /** The four operands are evaluated once; then the fields are copied in order. */
  function ExecCopy(lt: Exp, li: Exp, rt: Exp, ri: Exp, pairs: seq<Pair>, env: Env, calls: Calls, st: Store): Outcome
    requires GenExp(lt, env).Some? && GenExp(li, env).Some? && GenExp(rt, env).Some? && GenExp(ri, env).Some?
  {
    match Eval(lt, env, calls, st)
    case Raises => Failed
    case Value(a, st1) =>
      match Eval(li, env, calls, st1)
      case Raises => Failed
      case Value(b, st2) =>
        match Eval(rt, env, calls, st2)
        case Raises => Failed
        case Value(c, st3) =>
          match Eval(ri, env, calls, st3)
          case Raises => Failed
          case Value(d, st4) =>
            var w := CopyFields(pairs, a, b, c, d, st4);
            if w.None? then Failed else Normal(st4.(w := w.value))
  }

  function FieldValue(table: Operand, name: Label, row: Operand, st: Store): Option<Val> {
    var f := TableField(Raw(table, st), name, st.w);
    var x := Read(row, st);
    if f.None? || x.None? then None else FieldRow(f.value, x.value)
  }

  /** The static type of a field's value. */
  function FieldTy(f: Field): Ty {
    if f.isArray then Array(f.base) else Scalar(f.base)
  }

  function CopyField(p: Pair, a: Operand, b: Operand, c: Operand, d: Operand, st: Store): Option<World> {
    var dst := FieldValue(a, p.l.name, b, st);
    var src := FieldValue(c, p.r.name, d, st);
    if dst.None? || src.None? then None
    else
      match Stored(FieldTy(p.l), V(dst.value), V(src.value), st)
      case Raises => None
      case Value(_, st1) => Some(st1.w)
  }

  function CopyFields(pairs: seq<Pair>, a: Operand, b: Operand, c: Operand, d: Operand, st: Store): Option<World> {
    if pairs == [] then Some(st.w)
    else
      var w := CopyField(pairs[0], a, b, c, d, st);
      if w.None? then None else CopyFields(pairs[1..], a, b, c, d, st.(w := w.value))
  }
}
