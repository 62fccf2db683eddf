/** The operator tables: which instruction an operator compiles to for which
    operand types, and the static type of its result. W_NA marks a pair of
    types the operator does not accept. */
module Operators {
  import opened Bytes
  import opened Wrappers
  import opened Syntax
  import opened Instructions

  const TBool := Scalar(Bool)
  const TUndet := Scalar(Undet)
  const TI64 := Scalar(Int(true, B8))
  const TU64 := Scalar(Int(false, B8))

  predicate IsUnsigned(b: Base) { b.Int? && !b.signed }

  /** One cell of the operator's type matrix. */
  function MatrixCell(op: BinOp, f: Base, s: Base): Byte {
    if f.Bool? && s.Bool? then
      match op
      case Eq => W_EQB case Ne => W_NEB case And => W_ANDB case Or => W_ORB case Xor => W_XORB
      case _ => W_NA
    else if f.Int? && s.Int? then
      var u := !f.signed && !s.signed;
      match op
      case Add => W_ADD case Sub => W_SUB
      case Mul => if u then W_MULU else W_MUL
      case Div => if u then W_DIVU else W_DIV
      case Mod => if u then W_MODU else W_MOD
      case Lt => if u then W_LTU else W_LT
      case LtEq => if u then W_LEU else W_LE
      case Gt => if u then W_GTU else W_GT
      case GtEq => if u then W_GEU else W_GE
      case Eq => W_EQ case Ne => W_NE case And => W_AND case Or => W_OR case Xor => W_XOR
    else W_NA
  }

  /** A NULL right operand takes the left one's type; only the addition also
      accepts a NULL left operand. */
  function BinOpcode(op: BinOp, f: Base, s: Base): Byte {
    var c := MatrixCell(op, f, s);
    if c == W_NA && s.Undet? then MatrixCell(op, f, f)
    else if c == W_NA && f.Undet? && op.Add? then MatrixCell(op, s, s)
    else c
  }

  function BinResult(opcode: Byte, f: Base, s: Base): Ty {
    if opcode in {W_ADD, W_SUB} then if IsUnsigned(f) && IsUnsigned(s) then TU64 else TI64
    else if opcode in {W_MUL, W_DIV, W_MOD} then TI64
    else if opcode in {W_MULU, W_DIVU, W_MODU, W_AND, W_OR, W_XOR} then TU64
    else TBool
  }

  function StoreCell(d: Base, s: Base): Byte {
    if d.Bool? && s.Bool? then W_STB
    else if d.Int? && s.Int? then
      (if d.signed then W_STI8 else W_STUI8) + (match d.size case B1 => 0 case B2 => 1 case B4 => 2 case B8 => 3)
    else W_NA
  }

  /** The store instruction of an assignment. */
  function StoreOpcode(d: Ty, s: Ty): Byte {
    match d
    case Scalar(db) =>
      if s == TUndet then StoreCell(db, db) else if s.Scalar? then StoreCell(db, s.base) else W_NA
    case Array(db) =>
      if s == TUndet || (s.Array? && (db.Undet? || db == s.base)) then W_STA else W_NA
    case Table(_) => W_NA
  }

  function FindField(fields: seq<Field>, name: Label): Option<Field> {
    if fields == [] then None
    else if fields[0].name == name then Some(fields[0])
    else FindField(fields[1..], name)
  }

  predicate FieldsCompatible(f: Field, g: Field) {
    if f.isArray && g.isArray then f.base == g.base
    else if f.isArray != g.isArray then false
    else StoreCell(f.base, g.base) != W_NA
  }

  /** Every field of the first table is in the second with a storable type. */
  predicate TablesCompatible(fs: seq<Field>, gs: seq<Field>) {
    fs == [] ||
    (var g := FindField(gs, fs[0].name);
     g.Some? && FieldsCompatible(fs[0], g.value) && TablesCompatible(fs[1..], gs))
  }

  /** May a value of type s be passed for a parameter of type p? */
  predicate Passable(p: Ty, s: Ty) {
    s == TUndet ||
    match (p, s)
    case (Scalar(pb), Scalar(sb)) => pb.Undet? || StoreCell(pb, sb) != W_NA
    case (Array(pb), Array(sb)) => pb.Undet? || pb == sb
    case (Table(fs), Table(gs)) => TablesCompatible(fs, gs)
    case _ => false
  }

  predicate Returnable(ret: Ty, s: Ty) {
    ret == TUndet || Passable(ret, s)
  }

  /** Is every field of the first list in the second with the same name and
      type? One forward pass over two sorted lists. */
  predicate FieldsIncluded(fs: seq<Field>, gs: seq<Field>)
    decreases |fs| + |gs|
  {
    if fs == [] then true
    else if gs == [] then false
    else if fs[0].name != gs[0].name then FieldsIncluded(fs, gs[1..])
    else fs[0] == gs[0] && FieldsIncluded(fs[1..], gs)
  }

  /** The type both arms of a selection have, if any. */
  function CommonType(a: Ty, b: Ty): Option<Ty> {
    if a == TUndet then Some(b)
    else if b == TUndet then Some(a)
    else
      match (a, b)
      case (Table(fs), Table(gs)) =>
        if FieldsIncluded(fs, gs) then Some(a) else if FieldsIncluded(gs, fs) then Some(b) else None
      case (Array(x), Array(y)) =>
        if x == y || x.Undet? then Some(a) else if y.Undet? then Some(b) else None
      case (Scalar(x), Scalar(y)) =>
        if x == y then Some(a)
        else if x.Int? && y.Int? && x.signed == y.signed then
          Some(if Rank(x.size) >= Rank(y.size) then a else b)
        else None
      case _ => None
  }

  function Rank(s: IntSize): nat {
    match s case B1 => 0 case B2 => 1 case B4 => 2 case B8 => 3
  }
}
