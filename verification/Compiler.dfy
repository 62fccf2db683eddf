/** The compiler as a recursive function: the code of an expression or a
    statement with every size and jump computed directly. */
module Compiler {
  import opened Bytes
  import opened Wrappers
  import opened Syntax
  import opened Instructions
  import opened Operators
  import opened Code
  import ConstantPool

  /** What the compiler knows at one point of a procedure: its parameters and
      the locals declared so far, the iterators of the enclosing FOREACH loops,
      the constant area, the known procedures, the procedure's return type and
      whether the point is inside a loop. */
  datatype Env = Env(locals: seq<Var>, iters: seq<Var>, pool: seq<Byte>, procs: seq<Proc>, ret: Ty, inLoop: bool)

  datatype ExpCode = ExpCode(code: seq<Item>, ty: Ty, lval: bool)

  datatype StmtCode = StmtCode(code: seq<Item>, env: Env)

  function Lookup(vars: seq<Var>, name: Label): (r: Option<nat>)
    ensures r.Some? ==> r.value < |vars| && vars[r.value].name == name
  {
    if vars == [] then None
    else if vars[0].name == name then Some(0)
    else
      var r := Lookup(vars[1..], name);
      if r.Some? then Some(r.value + 1) else None
  }

  function LoadLocal(i: nat): Item {
    With(if i <= 0xFF then W_LDLO8 else if i <= 0xFFFF then W_LDLO16 else W_LDLO32, i)
  }

  function LoadInt(n: UInt64): Item {
    With(if n <= 0xFF then W_LDI8 else if n <= 0xFFFF then W_LDI16 else if n <= 0xFFFF_FFFF then W_LDI32 else W_LDI64, n)
  }

  // ----- expressions -----

  function SelCode(c: seq<Item>, l: seq<Item>, r: seq<Item>): seq<Item> {
    c + [With(W_JFC, Len(l) + 10)] + l + [With(W_JMP, Len(r) + 5)] + r
  }

  function ShortCode(l: seq<Item>, jump: Byte, r: seq<Item>, op: Byte): seq<Item> {
    l + [With(jump, Len(r) + 6)] + r + [Op(op)]
  }

  function GenExp(e: Exp, env: Env): Option<ExpCode> {
    match e
    case NullC => Some(ExpCode([With(W_LDNULL, 1)], TUndet, false))
    case BoolC(b) => Some(ExpCode([Op(if b then W_LDBT else W_LDBF)], TBool, false))
    case IntC(n, signed) => Some(ExpCode([LoadInt(n)], if signed then TI64 else TU64, false))
    case Id(name) =>
      var k := Lookup(env.iters, name);
      if k.Some? then Some(ExpCode([Iter(k.value)], env.iters[k.value].ty, true))
      else
        var i := Lookup(env.locals, name);
        if i.Some? then Some(ExpCode([LoadLocal(i.value)], env.locals[i.value].ty, true)) else None
    case Not(e1) =>
      var c := GenExp(e1, env);
      if c.None? then None
      else if c.value.ty == TBool then Some(c.value.(code := c.value.code + [Op(W_NOTB)]))
      else if c.value.ty.Scalar? && c.value.ty.base.Int? then Some(c.value.(code := c.value.code + [Op(W_NOT)]))
      else None
    case IsNull(e1, positive) =>
      var c := GenExp(e1, env);
      if c.None? then None
      else Some(ExpCode(c.value.code + [Op(if positive then W_INULL else W_NNULL)], TBool, false))
    case Bin(op, l, r) =>
      var a := GenExp(l, env);
      var b := GenExp(r, env);
      if a.None? || b.None? then None else BinCode(op, a.value, b.value)
    case Sel(c, l, r) =>
      var x := GenExp(c, env);
      var a := GenExp(l, env);
      var b := GenExp(r, env);
      if x.None? || x.value.ty != TBool || a.None? || b.None? then None
      else
        var ty := CommonType(a.value.ty, b.value.ty);
        if ty.None? then None
        else Some(ExpCode(SelCode(x.value.code, a.value.code, b.value.code), ty.value, false))
    case Store(l, r) =>
      var a := GenExp(l, env);
      var b := GenExp(r, env);
      if a.None? || b.None? || !a.value.lval then None
      else
        var op := StoreOpcode(a.value.ty, b.value.ty);
        if op == W_NA then None else Some(a.value.(code := a.value.code + b.value.code + [Op(op)]))
    case Index(l, r) =>
      var a := GenExp(l, env);
      var b := GenExp(r, env);
      if a.None? || b.None? || !a.value.ty.Array? || a.value.ty.base.Undet? || !IsIndex(b.value.ty) then None
      else Some(ExpCode(a.value.code + b.value.code + [Op(W_INDA)], Scalar(a.value.ty.base), true))
    case OffsetOf(name) =>
      var k := Lookup(env.iters, name);
      if k.Some? then Some(ExpCode([Iter(k.value), Op(W_ITOFF)], TU64, false)) else None
    case Call(p, args) =>
      if p >= |env.procs| then None
      else
        var c := GenArgs(args, env.procs[p].params, env);
        if c.None? then None
        else Some(ExpCode(c.value + CallCode(p, |env.procs[p].params| - ArgCount(args)), env.procs[p].result, false))
  }

  function ArgCount(args: Args): nat {
    match args case NoArgs => 0 case Arg(_, tail) => 1 + ArgCount(tail)
  }

  /** The arguments in order; None when there are more of them than parameters
      or one does not fit its parameter. */
  function GenArgs(args: Args, params: seq<Ty>, env: Env): (r: Option<seq<Item>>)
    ensures r.Some? ==> ArgCount(args) <= |params|
  {
    match args
    case NoArgs => Some([])
    case Arg(e, tail) =>
      if params == [] then None
      else
        var c := GenExp(e, env);
        if c.None? || !Passable(params[0], c.value.ty) then None
        else
          var rest := GenArgs(tail, params[1..], env);
          if rest.None? then None else Some(c.value.code + rest.value)
  }

  /** The call itself, after a NULL for every missing argument. Their number is
      written in one byte. */
  function CallCode(p: nat, missing: nat): seq<Item> {
    (if missing > 0 then [With(W_LDNULL, missing % 256)] else []) + [With(W_CALL, p)]
  }

  predicate IsIndex(t: Ty) {
    t.Scalar? && !t.base.Bool?
  }

  /** A Boolean AND/OR jumps over its second operand when the first decides. */
  function BinCode(op: BinOp, a: ExpCode, b: ExpCode): Option<ExpCode> {
    if !a.ty.Scalar? || !b.ty.Scalar? then None
    else
      var opcode := BinOpcode(op, a.ty.base, b.ty.base);
      if opcode == W_NA then None
      else
        var code :=
          if a.ty == TBool && op.And? then ShortCode(a.code, W_JF, b.code, opcode)
          else if a.ty == TBool && op.Or? then ShortCode(a.code, W_JT, b.code, opcode)
          else a.code + b.code + [Op(opcode)];
        Some(ExpCode(code, BinResult(opcode, a.ty.base, b.ty.base), false))
  }

  /** An expression that must be Boolean. */
  function GenBool(e: Exp, env: Env): Option<seq<Item>> {
    var c := GenExp(e, env);
    if c.Some? && c.value.ty == TBool then Some(c.value.code) else None
  }

  // ----- statements -----

  function IfCode(c: seq<Item>, b: seq<Item>): seq<Item> {
    c + [With(W_JFC, Len(b) + 5)] + b
  }

  function IfElseCode(c: seq<Item>, b: seq<Item>, e: seq<Item>): seq<Item> {
    c + [With(W_JFC, Len(b) + 10)] + b + [With(W_JMP, Len(e) + 5)] + e
  }

  /** A head that leaves a condition, the exit, the body, and the jump back to
      position cont. */
  function LoopCode(head: seq<Item>, b: seq<Item>, cont: nat): seq<Item> {
    var start := Len(head) + 5;
    var end := start + Len(b);
    head + [With(W_JFC, Len(b) + 10)] + Resolve(b, start, end + 5, cont) + [With(W_JMP, cont - end)]
  }

  function WhileCode(c: seq<Item>, b: seq<Item>): seq<Item> {
    LoopCode(c, b, 0)
  }

  function UntilCode(b: seq<Item>, c: seq<Item>): seq<Item> {
    var end := Len(b) + Len(c);
    Resolve(b, 0, end + 5, Len(b)) + c + [With(W_JTC, -end)]
  }

  function Drop(n: nat): Item { With(W_CTS, n % 256) }

  /** Init, then a jump over the step expression to the condition. */
  function ForHead(i: seq<Item>, s: seq<Item>, c: seq<Item>): seq<Item> {
    i + [Drop(1), With(W_JMP, Len(s) + 7)] + s + [Drop(1)] + c
  }

  function ForCode(i: seq<Item>, s: seq<Item>, c: seq<Item>, b: seq<Item>): seq<Item> {
    LoopCode(ForHead(i, s, c), b, Len(i) + 7)
  }

  /** The first test is on the flag the start of the iteration leaves, so the
      step instruction is jumped over once. */
  function ForeachHead(e: seq<Item>, reverse: bool): seq<Item> {
    e + [Op(if reverse then W_ITL else W_ITF), With(W_JMP, 6), Op(if reverse then W_ITP else W_ITN)]
  }

  function ForeachCode(e: seq<Item>, reverse: bool, b: seq<Item>): seq<Item> {
    LoopCode(ForeachHead(e, reverse), b, Len(e) + 6) + [Drop(1)]
  }

  function GenStmt(s: Stmt, env: Env): Option<StmtCode> {
    match s
    case Skip => Some(StmtCode([], env))
    case Seq(s1, s2) =>
      var a := GenStmt(s1, env);
      if a.None? then None
      else
        var b := GenStmt(s2, a.value.env);
        if b.None? then None else Some(StmtCode(a.value.code + b.value.code, b.value.env))
    case ExpStmt(e) =>
      var c := GenExp(e, env);
      if c.None? then None else Some(StmtCode(c.value.code + [Drop(1)], env))
    case Decl(name, ty) =>
      if Lookup(env.locals, name).Some? then None
      else Some(StmtCode([], env.(locals := env.locals + [Var(name, ty)])))
    case Assign(name, e) =>
      if Lookup(env.locals, name).Some? then
        var c := GenExp(Store(Id(name), e), env);
        if c.None? then None else Some(StmtCode(c.value.code + [Drop(1)], env))
      else
        var c := GenExp(e, env);
        if c.None? || StoreOpcode(c.value.ty, c.value.ty) == W_NA then None
        else Some(StmtCode(AutoCode(|env.locals|, c.value) + [Drop(1)],
                           env.(locals := env.locals + [Var(name, c.value.ty)])))
    case If(chain) => GenChain(chain, env)
    case While(c, body) =>
      var x := GenBool(c, env);
      if x.None? then None
      else
        var b := GenStmt(body, InLoop(env));
        if b.None? then None
        else Some(StmtCode(WhileCode(x.value, b.value.code), Leave(b.value.env, env)))
    case Until(body, c) =>
      var b := GenStmt(body, InLoop(env));
      if b.None? then None
      else
        var x := GenBool(c, b.value.env);
        if x.None? then None
        else Some(StmtCode(UntilCode(b.value.code, x.value), Leave(b.value.env, env)))
    case For(init, c, step, body) =>
      var i := GenExp(init, env);
      var x := GenBool(c, env);
      var t := GenExp(step, env);
      if i.None? || x.None? || t.None? then None
      else
        var b := GenStmt(body, InLoop(env));
        if b.None? then None
        else Some(StmtCode(ForCode(i.value.code, t.value.code, x.value, b.value.code), Leave(b.value.env, env)))
    case Foreach(it, e, reverse, body) =>
      if Lookup(env.iters, it).Some? then None
      else
        var c := GenExp(e, env);
        if c.None? || !c.value.ty.Array? then None
        else
          var b := GenStmt(body, Enter(it, c.value.ty, env));
          if b.None? then None
          else Some(StmtCode(ForeachCode(c.value.code, reverse, b.value.code), Leave(b.value.env, env)))
    case Break => if env.inLoop then Some(StmtCode([Brk], env)) else None
    case Continue => if env.inLoop then Some(StmtCode([Cont], env)) else None
    case Return(e) =>
      var c := GenExp(e, env);
      if c.None? || !Returnable(env.ret, c.value.ty) then None
      else Some(StmtCode(c.value.code + [Op(W_RET)], env))
    case RowCopy(lt, lsel, li, rt, rsel, ri) =>
      var h := GenCopyHead(lt, li, rt, ri, env);
      if h.None? then None
      else
        var pairs := SelectPairs(h.value.left, lsel, h.value.right, rsel);
        if pairs.None? then None else GenCopy(h.value.code, pairs.value, env)
    case RowCopyFree(lt, li, rt, ri) =>
      var h := GenCopyHead(lt, li, rt, ri, env);
      if h.None? then None
      else GenCopy(h.value.code, SharedPairs(h.value.left, h.value.right), env)
  }

  function GenChain(chain: Chain, env: Env): Option<StmtCode> {
    var x := GenBool(chain.c, env);
    if x.None? then None
    else
      var b := GenStmt(chain.body, env);
      if b.None? then None
      else
        match chain.tail
        case NoElse => Some(StmtCode(IfCode(x.value, b.value.code), b.value.env))
        case Else(body) =>
          var e := GenStmt(body, b.value.env);
          if e.None? then None
          else Some(StmtCode(IfElseCode(x.value, b.value.code, e.value.code), e.value.env))
        case ElseIf(next) =>
          var e := GenChain(next, b.value.env);
          if e.None? then None
          else Some(StmtCode(IfElseCode(x.value, b.value.code, e.value.code), e.value.env))
  }

  function AutoCode(slot: nat, c: ExpCode): seq<Item> {
    [LoadLocal(slot)] + c.code + [Op(StoreOpcode(c.ty, c.ty))]
  }

  /** The environment of a loop body. */
  function InLoop(env: Env): Env { env.(inLoop := true) }

  /** The body of a FOREACH sees its iterator. */
  function Enter(it: Label, ty: Ty, env: Env): Env
    requires ty.Array?
  {
    env.(iters := env.iters + [Var(it, Scalar(ty.base))], inLoop := true)
  }

  /** After a loop its locals stay declared. */
  function Leave(inner: Env, outer: Env): Env {
    inner.(iters := outer.iters, inLoop := outer.inLoop)
  }

  // ----- row copies -----

  datatype CopyHead = CopyHead(code: seq<Item>, left: seq<Field>, right: seq<Field>)

  /** The two tables and the two row indexes stay on the stack. */
  function GenCopyHead(lt: Exp, li: Exp, rt: Exp, ri: Exp, env: Env): Option<CopyHead> {
    var a := GenExp(lt, env);
    var b := GenExp(li, env);
    var c := GenExp(rt, env);
    var d := GenExp(ri, env);
    if a.None? || b.None? || c.None? || d.None? then None
    else if !a.value.ty.Table? || !c.value.ty.Table? || !IsInteger(b.value.ty) || !IsInteger(d.value.ty) then None
    else Some(CopyHead(a.value.code + b.value.code + c.value.code + d.value.code, a.value.ty.fields, c.value.ty.fields))
  }

  predicate IsInteger(t: Ty) {
    t.Scalar? && t.base.Int?
  }

  function FieldsByName(fields: seq<Field>, names: seq<Label>): (r: Option<seq<Field>>)
    ensures r.Some? ==> |r.value| == |names|
  {
    if names == [] then Some([])
    else
      var f := FindField(fields, names[0]);
      if f.None? then None
      else
        var rest := FieldsByName(fields, names[1..]);
        if rest.None? then None else Some([f.value] + rest.value)
  }

  function FieldNames(fields: seq<Field>): (r: seq<Label>)
    ensures |r| == |fields|
  {
    if fields == [] then [] else [fields[0].name] + FieldNames(fields[1..])
  }

  datatype Pair = Pair(l: Field, r: Field)

  function Zip(fs: seq<Field>, gs: seq<Field>): (r: seq<Pair>)
    requires |fs| == |gs|
    ensures |r| == |fs|
  {
    if fs == [] then [] else [Pair(fs[0], gs[0])] + Zip(fs[1..], gs[1..])
  }

  function SelectPairs(left: seq<Field>, lsel: Selection, right: seq<Field>, rsel: Selection): Option<seq<Pair>> {
    var fs := if lsel.Names? then FieldsByName(left, lsel.names) else Some(left);
    if fs.None? then None
    else
      var gs := FieldsByName(right, if rsel.Names? then rsel.names else FieldNames(fs.value));
      if gs.None? || |fs.value| != |gs.value| then None else Some(Zip(fs.value, gs.value))
  }

  /** The fields of the left table that the right one has too. */
  function SharedPairs(left: seq<Field>, right: seq<Field>): seq<Pair> {
    if left == [] then []
    else
      var g := FindField(right, left[0].name);
      (if g.Some? then [Pair(left[0], g.value)] else []) + SharedPairs(left[1..], right)
  }

  function CopyOpcode(p: Pair): Byte {
    if p.l.isArray && p.r.isArray then if p.l.base == p.r.base then W_STA else W_NA
    else if p.l.isArray != p.r.isArray then W_NA
    else StoreCell(p.l.base, p.r.base)
  }

  /** One field: both field values are addressed through the table and index
      slots that start at slot k above the locals. */
  function FieldCode(k: nat, loff: nat, roff: nat, op: Byte): seq<Item> {
    [Iter(k), With(W_SELF, loff), Iter(k + 1), Op(W_INDF),
     Iter(k + 2), With(W_SELF, roff), Iter(k + 3), Op(W_INDF), Op(op)]
  }

  datatype CopyCode = CopyCode(code: seq<Item>, pool: seq<Byte>)

  function GenFields(pairs: seq<Pair>, k: nat, pool: seq<Byte>): Option<CopyCode> {
    if pairs == [] then Some(CopyCode([], pool))
    else
      var a := ConstantPool.Add(pool, pairs[0].l.name);
      var b := ConstantPool.Add(a.1, pairs[0].r.name);
      if CopyOpcode(pairs[0]) == W_NA then None
      else
        var rest := GenFields(pairs[1..], k, b.1);
        if rest.None? then None
        else Some(CopyCode(FieldCode(k, a.0, b.0, CopyOpcode(pairs[0])) + rest.value.code, rest.value.pool))
  }

  /** Everything the copy left on the stack is dropped by one instruction with
      a one-byte count. */
  function GenCopy(head: seq<Item>, pairs: seq<Pair>, env: Env): Option<StmtCode> {
    var c := GenFields(pairs, |env.iters|, env.pool);
    if c.None? then None
    else Some(StmtCode(head + c.value.code + [Drop(4 + |pairs|)], env.(pool := c.value.pool)))
  }
}
