/** The instruction the operator tables choose computes what the operator means:
    the tables and the machine against the arithmetic of Meaning. */
module OpcodeMeaning {
  import opened Bytes
  import opened Wrappers
  import opened Syntax
  import opened Instructions
  import opened Operators
  import opened Data
  import opened ValueOps
  import opened Meaning
  import opened Ranges

  // ----- types -----

  /** The tables have an instruction exactly for the types the operator accepts. */
  lemma OpcodeExact(op: BinOp, f: Base, s: Base)
    ensures BinOpcode(op, f, s) != W_NA <==> Accepts(op, f, s)
    ensures BinOpcode(op, f, s) != W_NA ==> BinResult(BinOpcode(op, f, s), f, s) == ResultType(op, f, s)
  {
  }

  // ----- words -----

  lemma WordFits(n: int)
    ensures S64(n) == Fitted(SIGNED, n) && U64(n) == Fitted(UNSIGNED, n)
  {
    Readings(n);
    var k: int :| n == U64(n) + k * WORD;
    var j := if U64(n) < HALF then k else k + 1;
    assert n - S64(n) == j * WORD;
    Multiple(j, WORD);
    Multiple(k, WORD);
    FittedExact(SIGNED, n, S64(n));
    FittedExact(UNSIGNED, n, U64(n));
  }

  /** Multiplying readings, signed or unsigned, is multiplying the numbers. */
  lemma ProductWord(a: int, b: int)
    ensures U64(U64(a) * U64(b)) == U64(a * b) && S64(S64(a) * S64(b)) == S64(a * b)
  {
    Readings(a);
    Readings(b);
    var i: int :| a == U64(a) + i * WORD;
    var j: int :| b == U64(b) + j * WORD;
    ProductOf(a, b, U64(a), U64(b), i, j);
    ProductOf(a, b, S64(a), S64(b), if U64(a) < HALF then i else i + 1, if U64(b) < HALF then j else j + 1);
  }

  lemma ProductOf(a: int, b: int, x: int, y: int, i: int, j: int)
    requires a == x + i * WORD && b == y + j * WORD
    ensures U64(x * y) == U64(a * b) && S64(x * y) == S64(a * b)
  {
    var k := x * j + i * y + i * j * WORD;
    hide U64, S64;
    assert a * b == x * y + x * (j * WORD) + (i * WORD) * y + (i * WORD) * (j * WORD);
    assert k * WORD == x * (j * WORD) + (i * WORD) * y + (i * WORD) * (j * WORD);
    SameWord(x * y, k);
  }

  // ----- division and bits -----

  lemma TruncQuotient(a: int, b: int)
    requires b != 0
    ensures TruncDiv(a, b) == Quotient(a, b) && a - b * TruncDiv(a, b) == Remainder(a, b)
  {
    hide TruncDiv, Quotient, Remainder, Divides;
    TruncDivides(a, b);
    DivisionExact(a, b, TruncDiv(a, b), a - b * TruncDiv(a, b));
  }

  lemma TruncDivides(a: int, b: int)
    requires b != 0
    ensures Divides(a, b, TruncDiv(a, b), a - b * TruncDiv(a, b))
  {
    var x, y := if a < 0 then -a else a, if b < 0 then -b else b;
    var q := x / y;
    var r := x - q * y;
    assert 0 <= r < y;
    assert b * q == if b < 0 then -(q * y) else q * y;
    assert b * (-q) == -(b * q);
    assert b * TruncDiv(a, b) == if a < 0 then -(q * y) else q * y;
  }

  lemma {:induction false} BitOpBits(op: BinOp, o: Byte, a: nat, b: nat, bits: nat)
    requires (op.And? && o == W_AND) || (op.Or? && o == W_OR) || (op.Xor? && o == W_XOR)
    ensures BitOp(o, a, b, bits) == Bitwise(op, a, b, bits)
    decreases bits
  {
    if bits > 0 {
      BitOpBits(op, o, a / 2, b / 2, bits - 1);
      assert a % 2 in {0, 1} && b % 2 in {0, 1};
    }
  }

  // ----- one operator on numbers -----

  /** The instruction of an operator on two integer types. */
  lemma IntCell(op: BinOp, f: Base, s: Base)
    requires f.Int? && s.Int?
    ensures var o := MatrixCell(op, f, s);
            var u := BothUnsigned(f, s);
            match op
            case Add => o == W_ADD case Sub => o == W_SUB
            case Mul => o == (if u then W_MULU else W_MUL)
            case Div => o == (if u then W_DIVU else W_DIV)
            case Mod => o == (if u then W_MODU else W_MOD)
            case Lt => o == (if u then W_LTU else W_LT)
            case LtEq => o == (if u then W_LEU else W_LE)
            case Gt => o == (if u then W_GTU else W_GT)
            case GtEq => o == (if u then W_GEU else W_GE)
            case Eq => o == W_EQ case Ne => o == W_NE
            case And => o == W_AND case Or => o == W_OR case Xor => o == W_XOR
  {
  }

  lemma NumMeaning(op: BinOp, f: Base, s: Base, a: int, b: int)
    requires f.Int? && s.Int? && !op.Eq? && !op.Ne?
    ensures NumVal(MatrixCell(op, f, s), a, b) == OnNumbers(op, if BothUnsigned(f, s) then UNSIGNED else SIGNED, a, b)
  {
    hide U64, S64, Fitted, BitOp, Bitwise, TruncDiv, Quotient, Remainder, MatrixCell;
    IntCell(op, f, s);
    WordFits(a);
    WordFits(b);
    match op
    case Add => SumMeaning(a, b);
    case Sub => SumMeaning(a, b);
    case Mul => ProductMeaning(a, b);
    case Div => QuotientMeaning(a, b);
    case Mod => QuotientMeaning(a, b);
    case And => BitsMeaning(op, W_AND, a, b);
    case Or => BitsMeaning(op, W_OR, a, b);
    case Xor => BitsMeaning(op, W_XOR, a, b);
    case _ =>
  }

  lemma SumMeaning(a: int, b: int)
    ensures S64(S64(a) + S64(b)) == Fitted(SIGNED, a + b) && S64(S64(a) - S64(b)) == Fitted(SIGNED, a - b)
  {
    hide Fitted, S64, U64;
    SumWord(a, b);
    Readings(S64(a) + S64(b));
    Readings(a + b);
    Readings(S64(a) - S64(b));
    Readings(a - b);
    WordFits(a + b);
    WordFits(a - b);
  }

  lemma ProductMeaning(a: int, b: int)
    ensures S64(S64(a) * S64(b)) == Fitted(SIGNED, a * b) && U64(U64(a) * U64(b)) == Fitted(UNSIGNED, a * b)
  {
    hide Fitted, S64, U64;
    ProductWord(a, b);
    WordFits(a * b);
  }

  /** A quotient has a 64-bit form unless the division overflows. */
  lemma QuotientMeaning(a: int, b: int)
    ensures var x, y := S64(a), S64(b);
            y != 0 && !Overflows(x, y) ==>
              S64(TruncDiv(x, y)) == Quotient(x, y) && S64(x - y * TruncDiv(x, y)) == Remainder(x, y)
    ensures var x, y := U64(a), U64(b);
            y != 0 ==> x / y == Quotient(x, y) && x % y == Remainder(x, y)
  {
    hide S64, U64, TruncDiv, Fitted;
    Readings(a);
    Readings(b);
    var x, y := S64(a), S64(b);
    if y != 0 && !Overflows(x, y) {
      TruncQuotient(x, y);
      QuotientFits(x, y);
      Readings(Quotient(x, y));
      Readings(Remainder(x, y));
    }
    if U64(b) != 0 {
      Divided(U64(a), U64(b));
    }
  }

  lemma QuotientFits(x: int, y: int)
    requires y != 0 && -HALF <= x < HALF && -HALF <= y < HALF && !Overflows(x, y)
    ensures -HALF <= Quotient(x, y) < HALF && -HALF <= Remainder(x, y) < HALF
  {
    var q, r := Quotient(x, y), Remainder(x, y);
    DivisionExact(x, y, q, r);
    hide Quotient, Remainder;
    if y == -1 {
      assert q == -x;
    } else if y == 1 {
      assert q == x;
    } else {
      QuotientShrinks(q, y);
    }
  }

  /** A quotient by more than one in size is smaller than the dividend. */
  lemma QuotientShrinks(q: int, y: int)
    requires y < -1 || y > 1
    ensures var p := q * y; if q == 0 then p == 0 else (p >= 2 * q && p >= -2 * q) || (p <= 2 * q && p <= -2 * q)
  {
    if y > 1 {
      TimesGrows(y - 2, if q > 0 then q else 1);
    }
  }

  lemma BitsMeaning(op: BinOp, o: Byte, a: int, b: int)
    requires (op.And? && o == W_AND) || (op.Or? && o == W_OR) || (op.Xor? && o == W_XOR)
    ensures S64(BitOp(o, U64(a), U64(b), 64))
         == Fitted(SIGNED, Bitwise(op, Fitted(UNSIGNED, a), Fitted(UNSIGNED, b), 64))
  {
    hide S64, U64, Fitted, BitOp, Bitwise;
    WordFits(a);
    WordFits(b);
    BitOpBits(op, o, U64(a), U64(b), 64);
    WordFits(BitOp(o, U64(a), U64(b), 64));
  }

  // ----- operators, complement and conversion -----

  /** The chosen instruction computes what the operator means, on every pair of
      operands, failures included. */
  lemma OperatorMeaning(op: BinOp, f: Base, s: Base, x: Option<Val>, y: Option<Val>)
    requires BinOpcode(op, f, s) != W_NA
    ensures BinLoaded(BinOpcode(op, f, s), x, y) == Operate(op, f, s, x, y)
  {
    hide BinVal, OnValues, BinOpcode, OperandTypes;
    OpcodeExact(op, f, s);
    OpcodeOf(op, f, s);
    CellEquality(op, OperandTypes(op, f, s).0, OperandTypes(op, f, s).1);
    if x.Some? && y.Some? && (IsEquality(BinOpcode(op, f, s)) || !x.value.Null?) {
      ValuesMeaning(op, f, s, x.value, y.value);
    }
  }

  lemma CellEquality(op: BinOp, f: Base, s: Base)
    requires MatrixCell(op, f, s) != W_NA
    ensures IsEquality(MatrixCell(op, f, s)) <==> op.Eq? || op.Ne?
  {
  }

  lemma ValuesMeaning(op: BinOp, f: Base, s: Base, a: Val, b: Val)
    requires BinOpcode(op, f, s) != W_NA && (op.Eq? || op.Ne? || !a.Null?)
    ensures BinVal(BinOpcode(op, f, s), a, b) == OnValues(op, f, s, a, b)
  {
    hide OnNumbers, NumVal, Fitted, S64, BinOpcode, MatrixCell, OperandTypes, BinVal, OnValues;
    var t := OperandTypes(op, f, s);
    OpcodeOf(op, f, s);
    OpcodeExact(op, f, s);
    if t.0.Bool? {
      BoolMeaning(op, f, s, a, b);
    } else {
      IntMeaning(op, f, s, a, b);
    }
  }

  lemma BoolMeaning(op: BinOp, f: Base, s: Base, a: Val, b: Val)
    requires BinOpcode(op, f, s) != W_NA && OperandTypes(op, f, s).0.Bool? && (op.Eq? || op.Ne? || !a.Null?)
    ensures BinVal(BinOpcode(op, f, s), a, b) == OnValues(op, f, s, a, b)
  {
    hide OnNumbers, NumVal, Fitted, S64, BinOpcode, OperandTypes;
    OpcodeOf(op, f, s);
    OpcodeExact(op, f, s);
  }

  lemma EqualityMeaning(op: BinOp, f: Base, s: Base, a: Val, b: Val)
    requires BinOpcode(op, f, s) != W_NA && OperandTypes(op, f, s).0.Int? && (op.Eq? || op.Ne?)
    ensures BinVal(BinOpcode(op, f, s), a, b) == OnValues(op, f, s, a, b)
  {
    hide OnNumbers, NumVal, Fitted, S64, BinOpcode, MatrixCell, OperandTypes;
    var t := OperandTypes(op, f, s);
    OpcodeOf(op, f, s);
    OpcodeExact(op, f, s);
    IntCell(op, t.0, t.1);
    if a.Num? && b.Num? {
      WordFits(a.n);
      WordFits(b.n);
    }
  }

  lemma IntMeaning(op: BinOp, f: Base, s: Base, a: Val, b: Val)
    requires BinOpcode(op, f, s) != W_NA && OperandTypes(op, f, s).0.Int? && (op.Eq? || op.Ne? || !a.Null?)
    ensures BinVal(BinOpcode(op, f, s), a, b) == OnValues(op, f, s, a, b)
  {
    hide OnNumbers, NumVal, Fitted, S64, BinOpcode, MatrixCell, OperandTypes;
    var t := OperandTypes(op, f, s);
    OpcodeOf(op, f, s);
    OpcodeExact(op, f, s);
    IntCell(op, t.0, t.1);
    if op.Eq? || op.Ne? {
      EqualityMeaning(op, f, s, a, b);
    } else if a.Num? && b.Num? {
      NumMeaning(op, t.0, t.1, a.n, b.n);
    }
  }

  lemma OpcodeOf(op: BinOp, f: Base, s: Base)
    requires BinOpcode(op, f, s) != W_NA
    ensures var t := OperandTypes(op, f, s); BinOpcode(op, f, s) == MatrixCell(op, t.0, t.1)
  {
  }

  lemma ComplementMeaning(t: Ty, x: Val)
    ensures NotVal(if t == TBool then W_NOTB else W_NOT, x) == Inverted(t, x)
  {
    hide Fitted, S64, U64;
    if x.Num? {
      var n := x.n;
      Readings(n);
      Readings(-1 - n);
      Readings(S64(n));
      Readings(-S64(n) - 1);
      SumWord(-1, n);
      Readings(-1);
      WordFits(-1 - n);
    }
  }

  /** A store instruction converts to the type of the place it stores to. */
  lemma StoreMeaning(d: Ty, s: Ty, x: Val)
    requires StoreOpcode(d, s) != W_NA
    ensures Convert(StoreOpcode(d, s), x) == Converted(d, x)
  {
    hide Fitted, Wrap;
    if d.Scalar? {
      StoreCellMeaning(d.base, if s == TUndet then d.base else s.base, x);
    }
  }

  lemma StoreCellMeaning(d: Base, s: Base, x: Val)
    requires StoreCell(d, s) != W_NA
    ensures Convert(StoreCell(d, s), x) == Converted(Scalar(d), x)
  {
    hide Fitted, Wrap;
    if d.Int? && x.Num? {
      WrapFits(d, x.n);
      StoreBytes(d, s);
    }
  }

  /** The width and the sign the store instruction of an integer type has. */
  lemma StoreBytes(d: Base, s: Base)
    requires d.Int? && s.Int?
    ensures var o := StoreCell(d, s);
            if d.signed then W_STI8 <= o <= W_STI64 && StoreWidth(o - W_STI8) == Width(d.size)
            else W_STUI8 <= o <= W_STUI64 && StoreWidth(o - W_STUI8) == Width(d.size)
  {
  }

  lemma WrapFits(b: Base, n: int)
    requires b.Int?
    ensures Wrap(b.signed, Width(b.size), n) == Fitted(b, n)
  {
    WrapInRange(b, n);
    SpanWidth(b);
    var m := Span(b);
    var r := Wrap(b.signed, Width(b.size), n);
    var k := if b.signed && 2 * (n % m) >= m then n / m + 1 else n / m;
    assert n == n / m * m + n % m;
    assert n - r == k * m;
    Multiple(k, m);
    FittedExact(b, n, r);
  }

  lemma SpanWidth(b: Base)
    requires b.Int?
    ensures Span(b) == Pow256(Width(b.size))
  {
    WordSize();
    assert Pow256(1) == 0x100 && Pow256(2) == 0x1_0000;
    assert Pow256(4) == 256 * (256 * Pow256(2));
  }
}
