/** Types, expressions and statements of the language, as the parser hands them
    to the semantic functions. */
module Syntax {
  import opened Bytes

  /** An identifier: non-empty and without a zero byte. */
  type Label = s: seq<Byte> | s != [] && 0 !in s witness [65]

  type UInt64 = n: int | 0 <= n < 0x1_0000_0000_0000_0000

  datatype IntSize = B1 | B2 | B4 | B8

  datatype Base = Bool | Int(signed: bool, size: IntSize) | Undet

  datatype Field = Field(name: Label, base: Base, isArray: bool)

  datatype Ty = Scalar(base: Base) | Array(base: Base) | Table(fields: seq<Field>)

  datatype Var = Var(name: Label, ty: Ty)

  datatype Proc = Proc(params: seq<Ty>, result: Ty)

  datatype BinOp = Add | Sub | Mul | Div | Mod | Lt | LtEq | Gt | GtEq | Eq | Ne | And | Or | Xor

  datatype Exp =
    | NullC
    | BoolC(b: bool)
    | IntC(n: UInt64, signed: bool)
    | Id(name: Label)
    | Not(e: Exp)
    | IsNull(e: Exp, positive: bool)
    | Bin(op: BinOp, l: Exp, r: Exp)
    | Sel(c: Exp, l: Exp, r: Exp)
    | Store(l: Exp, r: Exp)
    | Index(l: Exp, r: Exp)
    | OffsetOf(name: Label)
    | Call(proc: nat, args: Args)

  datatype Args = NoArgs | Arg(head: Exp, tail: Args)

  /** The fields a row copy names: an explicit list, all of them, or all that
      the other table has too. */
  datatype Selection = Names(names: seq<Label>) | AllFields

  datatype Stmt =
    | Skip
    | Seq(s1: Stmt, s2: Stmt)
    | ExpStmt(e: Exp)
    | Decl(name: Label, ty: Ty)
    | Assign(name: Label, e: Exp)
    | If(chain: Chain)
    | While(c: Exp, body: Stmt)
    | Until(body: Stmt, c: Exp)
    | For(init: Exp, c: Exp, step: Exp, body: Stmt)
    | Foreach(it: Label, e: Exp, reverse: bool, body: Stmt)
    | Break
    | Continue
    | Return(e: Exp)
    | RowCopy(lt: Exp, lsel: Selection, li: Exp, rt: Exp, rsel: Selection, ri: Exp)
    | RowCopyFree(lt: Exp, li: Exp, rt: Exp, ri: Exp)

  /** One arm of an IF with what follows it. */
  datatype Chain = Chain(c: Exp, body: Stmt, tail: Tail)

  datatype Tail = NoElse | Else(body: Stmt) | ElseIf(next: Chain)
}
