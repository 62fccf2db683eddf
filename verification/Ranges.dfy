/** When the value an operator computes is one of its static type. */
module Ranges {
  import opened Bytes
  import opened Wrappers
  import opened Syntax
  import opened Instructions
  import opened Operators
  import opened Data
  import opened ValueOps
  import opened Meaning

  // ----- words -----

  lemma WordSize()
    ensures Pow256(8) == WORD
  {
    assert Pow256(2) == 0x1_0000;
    assert Pow256(4) == 256 * (256 * Pow256(2));
    assert Pow256(6) == 256 * (256 * Pow256(4));
    assert Pow256(8) == 256 * (256 * Pow256(6));
  }

  /** The signed reading of a number and its unsigned reading. */
  lemma Readings(n: int)
    ensures 0 <= U64(n) < WORD && -HALF <= S64(n) < HALF
    ensures S64(n) == (if U64(n) < HALF then U64(n) else U64(n) - WORD)
    ensures -HALF <= n < HALF ==> S64(n) == n
    ensures 0 <= n < WORD ==> U64(n) == n
    ensures exists k: int :: n == U64(n) + k * WORD
  {
    WordSize();
    assert n == n % WORD + (n / WORD) * WORD;
  }

  /** Numbers a multiple of 2^64 apart have the same readings. */
  lemma SameWord(n: int, k: int)
    ensures U64(n + k * WORD) == U64(n) && S64(n + k * WORD) == S64(n)
  {
    WordSize();
    assert (n + k * WORD) % WORD == n % WORD;
  }

  /** Adding signed readings is adding the numbers. */
  lemma SumWord(a: int, b: int)
    ensures U64(S64(a) + S64(b)) == U64(a + b) && U64(S64(a) - S64(b)) == U64(a - b)
  {
    Readings(a);
    Readings(b);
    var i: int :| a == U64(a) + i * WORD;
    var j: int :| b == U64(b) + j * WORD;
    var i' := if U64(a) < HALF then i else i + 1;
    var j' := if U64(b) < HALF then j else j + 1;
    assert a == S64(a) + i' * WORD && b == S64(b) + j' * WORD;
    assert a + b == S64(a) + S64(b) + (i' + j') * WORD;
    assert a - b == S64(a) - S64(b) + (i' - j') * WORD;
    SameWord(S64(a) + S64(b), i' + j');
    SameWord(S64(a) - S64(b), i' - j');
  }

  /** A converted number is one of the type it is converted to. */
  lemma WrapInRange(b: Base, n: int)
    requires b.Int?
    ensures InRange(Num(Wrap(b.signed, Width(b.size), n)), b)
  {
    WordSize();
    assert Pow256(1) == 0x100 && Pow256(2) == 0x1_0000;
    assert Pow256(4) == 256 * (256 * Pow256(2));
    var u := n % Pow256(Width(b.size));
    assert 0 <= u < Pow256(Width(b.size));
  }

  // ----- bits -----

  predicate BitBit(op: Byte, a: bool, b: bool) {
    if op == W_AND then a && b else if op == W_OR then a || b else a != b
  }

  /** The top bit of a bitwise operation comes from the top bits. */
  lemma {:induction false} TopBit(op: Byte, a: nat, b: nat, k: nat)
    requires a < 2 * Pow2(k) && b < 2 * Pow2(k)
    ensures BitOp(op, a, b, k + 1) < 2 * Pow2(k)
    ensures BitOp(op, a, b, k + 1) >= Pow2(k) <==> BitBit(op, a >= Pow2(k), b >= Pow2(k))
    decreases k
  {
    hide BitOp;
    var z := LowBit(op, a, b, k);
    if k > 0 {
      TopBit(op, a / 2, b / 2, k - 1);
    }
  }

  lemma LowBit(op: Byte, a: nat, b: nat, k: nat) returns (z: nat)
    ensures z <= 1 && (z == 1 <==> BitBit(op, a % 2 == 1, b % 2 == 1))
    ensures BitOp(op, a, b, k + 1) == z + if k == 0 then 0 else 2 * BitOp(op, a / 2, b / 2, k)
  {
    var x, y := a % 2, b % 2;
    z := if op == W_AND then x * y else if op == W_OR then x + y - x * y else (x + y) % 2;
    assert x in {0, 1} && y in {0, 1};
    if k == 0 {
      assert BitOp(op, a / 2, b / 2, 0) == 0;
    }
  }

  // ----- one operator on numbers -----

  /** When the number an instruction computes is one of its result type: the
      exact condition on its operands. */
  predicate NumKeeps(o: Byte, f: Base, s: Base, a: int, b: int) {
    if o == W_ADD then IsUnsigned(f) && IsUnsigned(s) ==> U64(a + b) < HALF
    else if o == W_SUB then IsUnsigned(f) && IsUnsigned(s) ==> U64(a - b) < HALF
    else if o in {W_AND, W_OR, W_XOR} then !BitBit(o, U64(a) >= HALF, U64(b) >= HALF)
    else true
  }

  /** What an instruction computes from numbers, signed or unsigned. */
  lemma NumRange(o: Byte, a: int, b: int)
    requires NumVal(o, a, b).Some?
    ensures var v := NumVal(o, a, b).value;
            if o in {W_MULU, W_DIVU, W_MODU} then v.Num? && 0 <= v.n < WORD
            else if o in {W_ADD, W_SUB, W_MUL, W_DIV, W_MOD, W_AND, W_OR, W_XOR} then v.Num? && -HALF <= v.n < HALF
            else v.Truth?
  {
    hide S64, U64, TruncDiv, BitOp;
    Readings(a);
    Readings(b);
    if o == W_MULU {
      Readings(U64(a) * U64(b));
    } else if o in {W_DIVU, W_MODU} {
      QuotientSmaller(U64(a), U64(b));
    } else if NumVal(o, a, b).value.Num? {
      SignedResult(o, a, b);
    }
  }

  lemma SignedResult(o: Byte, a: int, b: int)
    requires NumVal(o, a, b).Some? && NumVal(o, a, b).value.Num? && o !in {W_MULU, W_DIVU, W_MODU}
    ensures -HALF <= NumVal(o, a, b).value.n < HALF
  {
    hide S64, U64, TruncDiv, BitOp;
    forall n: int
      ensures -HALF <= S64(n) < HALF
    {
      Readings(n);
    }
  }

  lemma NumRangeExact(op: BinOp, f: Base, s: Base, a: int, b: int)
    requires BinOpcode(op, f, s) != W_NA && BinVal(BinOpcode(op, f, s), Num(a), Num(b)).Some?
    requires InRange(Num(a), f) && InRange(Num(b), s)
    ensures var o := BinOpcode(op, f, s);
            && BinResult(o, f, s).Scalar?
            && (InRange(BinVal(o, Num(a), Num(b)).value, BinResult(o, f, s).base) <==> NumKeeps(o, f, s, a, b))
  {
    hide U64, S64, BitOp, NumVal;
    var o := BinOpcode(op, f, s);
    if o in {W_EQ, W_NE} {
    } else {
      NumRange(o, a, b);
      if o in {W_AND, W_OR, W_XOR, W_ADD, W_SUB} {
        Wrapped(o, a, b);
      }
    }
  }

  /** The operations whose result may be read with the wrong sign. */
  lemma Wrapped(o: Byte, a: int, b: int)
    requires o in {W_AND, W_OR, W_XOR, W_ADD, W_SUB}
    ensures NumVal(o, a, b).Some? && NumVal(o, a, b).value.Num?
    ensures NumVal(o, a, b).value.n >= 0 <==>
              if o == W_ADD then U64(a + b) < HALF
              else if o == W_SUB then U64(a - b) < HALF
              else !BitBit(o, U64(a) >= HALF, U64(b) >= HALF)
  {
    hide U64, S64, BitOp, TruncDiv, BitBit;
    if o == W_ADD || o == W_SUB {
      SumSign(a, b);
    } else {
      BitSign(o, a, b);
    }
  }

  lemma SumSign(a: int, b: int)
    ensures S64(S64(a) + S64(b)) >= 0 <==> U64(a + b) < HALF
    ensures S64(S64(a) - S64(b)) >= 0 <==> U64(a - b) < HALF
  {
    hide U64, S64;
    SumWord(a, b);
    Readings(S64(a) + S64(b));
    Readings(S64(a) - S64(b));
  }

  lemma BitSign(o: Byte, a: int, b: int)
    requires o in {W_AND, W_OR, W_XOR}
    ensures S64(BitOp(o, U64(a), U64(b), 64)) >= 0 <==> !BitBit(o, U64(a) >= HALF, U64(b) >= HALF)
  {
    hide U64, S64, BitOp, BitBit;
    Readings(a);
    Readings(b);
    HalfWord();
    TopBit(o, U64(a), U64(b), 63);
    Readings(BitOp(o, U64(a), U64(b), 64));
  }

  lemma QuotientSmaller(a: nat, b: nat)
    requires b > 0
    ensures 0 <= a / b <= a && 0 <= a % b <= a
  {
    var q, r := a / b, a % b;
    Divided(a, b);
    if q > 0 {
      TimesGrows(b, q);
    }
  }

  lemma Divided(a: nat, b: nat)
    requires b > 0
    ensures a == (a / b) * b + a % b && 0 <= a % b < b
  {
  }

  /** The complement of a number is one of the operand's type exactly for a
      signed type, and for the upper half of the unsigned 64-bit type. */
  lemma NotRangeExact(b: Base, n: int)
    requires b.Int? && InRange(Num(n), b)
    ensures NotVal(W_NOT, Num(n)) == Some(Num(-S64(n) - 1))
    ensures InRange(Num(-S64(n) - 1), b) <==> b.signed || n >= HALF
  {
    hide S64, U64;
    Readings(n);
  }

  // ----- what can be told from the types -----

  /** A place where a static type may be wrong: a literal, a complement of a
      type, an operator on two types, an arm of type a in a selection of type t. */
  datatype Use = Literal(n: UInt64, signed: bool) | Negated(b: Base) | Operated(op: BinOp, f: Base, s: Base) | Arm(a: Ty, t: Ty)

  /** An unsigned type of less than 64 bits. */
  predicate Small(b: Base) { IsUnsigned(b) && b.size != B8 }

  /** Do the types guarantee that the result is one of its static type? */
  predicate TypesKeep(op: BinOp, f: Base, s: Base) {
    var o := BinOpcode(op, f, s);
    if o == W_ADD then IsUnsigned(f) && IsUnsigned(s) ==> Small(f) && Small(s)
    else if o == W_SUB then !(IsUnsigned(f) && IsUnsigned(s))
    else if o == W_AND then Small(f) || Small(s)
    else if o in {W_OR, W_XOR} then Small(f) && Small(s)
    else true
  }

  /** Do the types, or the literal, guarantee the static type? */
  predicate Keeps(u: Use) {
    match u
    case Literal(n, signed) => !signed || n < HALF
    case Negated(b) => b.Int? && b.signed
    case Operated(op, f, s) => TypesKeep(op, f, s)
    case Arm(a, t) => a != TUndet
  }

  ghost predicate AlwaysInRange(op: BinOp, f: Base, s: Base) {
    var o := BinOpcode(op, f, s);
    BinResult(o, f, s).Scalar? &&
    forall a: Val, b: Val :: InRange(a, f) && InRange(b, s) && BinVal(o, a, b).Some? ==>
      InRange(BinVal(o, a, b).value, BinResult(o, f, s).base)
  }

  lemma NumTypesKeep(op: BinOp, f: Base, s: Base, a: int, b: int)
    requires BinOpcode(op, f, s) != W_NA && InRange(Num(a), f) && InRange(Num(b), s) && TypesKeep(op, f, s)
    ensures NumKeeps(BinOpcode(op, f, s), f, s, a, b)
  {
    hide U64;
    Readings(a);
    Readings(b);
    Readings(a + b);
  }

  /** The result for operands that are not both numbers. */
  lemma OtherValues(op: BinOp, f: Base, s: Base, a: Val, b: Val)
    requires BinOpcode(op, f, s) != W_NA && InRange(a, f) && InRange(b, s) && !(a.Num? && b.Num?)
    requires BinVal(BinOpcode(op, f, s), a, b).Some?
    ensures var o := BinOpcode(op, f, s);
            BinResult(o, f, s).Scalar? && InRange(BinVal(o, a, b).value, BinResult(o, f, s).base)
  {
  }

  lemma ScalarResult(op: BinOp, f: Base, s: Base)
    ensures BinResult(BinOpcode(op, f, s), f, s).Scalar?
  {
  }

  lemma BinInRange(op: BinOp, f: Base, s: Base, a: Val, b: Val)
    requires BinOpcode(op, f, s) != W_NA && InRange(a, f) && InRange(b, s) && (TypesKeep(op, f, s) || a.Null? || b.Null?)
    requires BinVal(BinOpcode(op, f, s), a, b).Some?
    ensures var o := BinOpcode(op, f, s);
            BinResult(o, f, s).Scalar? && InRange(BinVal(o, a, b).value, BinResult(o, f, s).base)
  {
    hide BinVal, BinOpcode, BinResult, InRange, TypesKeep, NumKeeps;
    if a.Num? && b.Num? {
      NumTypesKeep(op, f, s, a.n, b.n);
      NumRangeExact(op, f, s, a.n, b.n);
    } else {
      OtherValues(op, f, s, a, b);
    }
  }

  /** Operands of the types whose result is not one of its static type. */
  lemma Escape(op: BinOp, f: Base, s: Base) returns (a: int, b: int)
    requires BinOpcode(op, f, s) != W_NA && !TypesKeep(op, f, s)
    ensures InRange(Num(a), f) && InRange(Num(b), s) && !NumKeeps(BinOpcode(op, f, s), f, s, a, b)
    ensures BinVal(BinOpcode(op, f, s), Num(a), Num(b)).Some?
    ensures f.Int?
  {
    hide BitOp, S64, TruncDiv, Pow256, Top;
    WordSize();
    match op
    case Add => a, b := if Small(f) then 0 else HALF, if Small(f) then HALF else 0;
    case Sub => a, b := 0, 1;
    case And => a, b := Top(f), Top(s);
    case _ => a, b := if Small(f) then 0 else Top(f), if Small(f) then Top(s) else 0;
  }

  /** A number of the type with the top bit of the word set. */
  function Top(b: Base): (n: int)
    ensures !Small(b) && !b.Bool? ==> InRange(Num(n), b) && U64(n) >= HALF
  {
    WordSize();
    if IsUnsigned(b) then WORD - 1 else -1
  }

  /** The types decide exactly whether an operator can leave its static type. */
  lemma TypesKeepExact(op: BinOp, f: Base, s: Base)
    requires BinOpcode(op, f, s) != W_NA
    ensures TypesKeep(op, f, s) <==> AlwaysInRange(op, f, s)
  {
    hide BinVal, BinOpcode, BinResult, InRange, TypesKeep, NumKeeps;
    if TypesKeep(op, f, s) {
      ScalarResult(op, f, s);
      forall a: Val, b: Val | InRange(a, f) && InRange(b, s) && BinVal(BinOpcode(op, f, s), a, b).Some?
        ensures InRange(BinVal(BinOpcode(op, f, s), a, b).value, BinResult(BinOpcode(op, f, s), f, s).base)
      {
        BinInRange(op, f, s, a, b);
      }
    } else {
      var a, b := Escape(op, f, s);
      NumRangeExact(op, f, s, a, b);
    }
  }
}
