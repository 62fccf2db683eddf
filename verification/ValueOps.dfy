/** The effect of the data instructions on values. */
module ValueOps {
  import opened Bytes
  import opened Wrappers
  import opened Syntax
  import opened Instructions
  import opened Data

  /** Division that truncates toward zero. */
  function TruncDiv(a: int, b: int): int
    requires b != 0
  {
    var q := (if a < 0 then -a else a) / (if b < 0 then -b else b);
    if (a < 0) == (b < 0) then q else -q
  }

  function BitOp(op: Byte, a: nat, b: nat, bits: nat): nat {
    if bits == 0 then 0
    else
      var x, y := a % 2, b % 2;
      var z := if op == W_AND then x * y else if op == W_OR then x + y - x * y else (x + y) % 2;
      z + 2 * BitOp(op, a / 2, b / 2, bits - 1)
  }

  /** The signed division whose quotient has no 64-bit form: C++ leaves it
      undefined, and the usual processors trap. */
  predicate Traps(a: int, b: int) {
    a == -HALF && b == -1
  }

  /** Two-operand instructions on values already loaded; None is a failure. */
  function BinVal(op: Byte, a: Val, b: Val): Option<Val> {
    if op in {W_EQB, W_NEB} then
      if (a.Null? || a.Truth?) && (b.Null? || b.Truth?) then Some(Truth((a == b) == (op == W_EQB))) else None
    else if op in {W_EQ, W_NE} then
      if (a.Null? || a.Num?) && (b.Null? || b.Num?) then
        var same := (a.Null? && b.Null?) || (a.Num? && b.Num? && S64(a.n) == S64(b.n));
        Some(Truth(same == (op == W_EQ)))
      else None
    else if a.Null? then Some(Null)
    else if op in {W_ANDB, W_ORB, W_XORB} then
      if a.Truth? && b.Null? then Some(Null)
      else if !a.Truth? || !b.Truth? then None
      else if op == W_ANDB then Some(Truth(a.b && b.b))
      else if op == W_ORB then Some(Truth(a.b || b.b))
      else Some(Truth(a.b != b.b))
    else if a.Num? && b.Null? then Some(Null)
    else if a.Num? && b.Num? then NumVal(op, a.n, b.n)
    else None
  }

  predicate IsEquality(op: Byte) {
    op in {W_EQ, W_EQB, W_NE, W_NEB}
  }

  /** The first operand is read first; unless the test is one of equality the
      second is not read when the first is NULL. */
  function BinLoaded(op: Byte, x: Option<Val>, y: Option<Val>): Option<Val> {
    if x.None? then None
    else if x.value.Null? && !IsEquality(op) then Some(Null)
    else if y.None? then None
    else BinVal(op, x.value, y.value)
  }

  function NumVal(op: Byte, a: int, b: int): Option<Val> {
    if op == W_ADD then Some(Num(S64(S64(a) + S64(b))))
    else if op == W_SUB then Some(Num(S64(S64(a) - S64(b))))
    else if op == W_MUL then Some(Num(S64(S64(a) * S64(b))))
    else if op == W_MULU then Some(Num(U64(U64(a) * U64(b))))
    else if op in {W_DIV, W_MOD} then
      if S64(b) == 0 || Traps(S64(a), S64(b)) then None
      else
        var q := TruncDiv(S64(a), S64(b));
        Some(Num(S64(if op == W_DIV then q else S64(a) - S64(b) * q)))
    else if op in {W_DIVU, W_MODU} then
      if U64(b) == 0 then None
      else Some(Num(if op == W_DIVU then U64(a) / U64(b) else U64(a) % U64(b)))
    else if op == W_LT then Some(Truth(S64(a) < S64(b)))
    else if op == W_LE then Some(Truth(S64(a) <= S64(b)))
    else if op == W_GT then Some(Truth(S64(a) > S64(b)))
    else if op == W_GE then Some(Truth(S64(a) >= S64(b)))
    else if op == W_LTU then Some(Truth(U64(a) < U64(b)))
    else if op == W_LEU then Some(Truth(U64(a) <= U64(b)))
    else if op == W_GTU then Some(Truth(U64(a) > U64(b)))
    else if op == W_GEU then Some(Truth(U64(a) >= U64(b)))
    else if op in {W_AND, W_OR, W_XOR} then Some(Num(S64(BitOp(op, U64(a), U64(b), 64))))
    else None
  }

  function NotVal(op: Byte, a: Val): Option<Val> {
    if a.Null? then Some(Null)
    else if op == W_NOTB && a.Truth? then Some(Truth(!a.b))
    else if op == W_NOT && a.Num? then Some(Num(-S64(a.n) - 1))
    else None
  }

  /** The conversion a store instruction applies to the value it stores. */
  function Convert(op: Byte, x: Val): Option<Val> {
    if x.Null? then Some(Null)
    else if op == W_STB && x.Truth? then Some(x)
    else if W_STI8 <= op <= W_STI64 && x.Num? then Some(Num(Wrap(true, StoreWidth(op - W_STI8), x.n)))
    else if W_STUI8 <= op <= W_STUI64 && x.Num? then Some(Num(Wrap(false, StoreWidth(op - W_STUI8), x.n)))
    else if op == W_STA && x.Elems? then Some(x)
    else None
  }

  function StoreWidth(k: nat): nat {
    if k == 0 then 1 else if k == 1 then 2 else if k == 2 then 4 else 8
  }

  /** Array element or row of a field; x is the loaded index. */
  function ElementOf(op: Byte, v: Val, x: Val): Option<Val> {
    if op == W_INDA then ArrayElement(v, x) else if op == W_INDF then FieldRow(v, x) else None
  }
}
