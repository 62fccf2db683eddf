/** What the operators, the complement and the conversions mean, as arithmetic on
    integers, bit by bit, and by static types. No instruction occurs here. */
module Meaning {
  import opened Wrappers
  import opened Syntax
  import opened Data

  // ----- the integer types -----

  function Least(b: Base): int
    requires b.Int?
  {
    if !b.signed then 0
    else match b.size case B1 => -0x80 case B2 => -0x8000 case B4 => -0x8000_0000 case B8 => -HALF
  }

  function Greatest(b: Base): int
    requires b.Int?
  {
    Least(b) + match b.size case B1 => 0xFF case B2 => 0xFFFF case B4 => 0xFFFF_FFFF case B8 => WORD - 1
  }

  /** Is the value one of the type? An undetermined value is any scalar. */
  predicate InRange(v: Val, b: Base) {
    match v
    case Null => true
    case Truth(_) => !b.Int?
    case Num(n) => if b.Int? then Least(b) <= n <= Greatest(b) else b.Undet? && -HALF <= n < WORD
    case _ => false
  }

  function Width(s: IntSize): nat {
    match s case B1 => 1 case B2 => 2 case B4 => 4 case B8 => 8
  }

  const SIGNED := Int(true, B8)
  const UNSIGNED := Int(false, B8)

  /** How many numbers an integer type has. */
  function Span(b: Base): (r: nat)
    requires b.Int?
    ensures r > 0
  {
    Greatest(b) - Least(b) + 1
  }

  /** The number of the type that differs from n by a multiple of its size. */
  function Fitted(b: Base, n: int): int
    requires b.Int?
  {
    Least(b) + (n - Least(b)) % Span(b)
  }

  lemma FittedExact(b: Base, n: int, r: int)
    requires b.Int?
    ensures r == Fitted(b, n) <==> InRange(Num(r), b) && (n - r) % Span(b) == 0
  {
    var m, d, k := Span(b), n - Least(b), r - Least(b);
    assert d == (d / m) * m + d % m && 0 <= d % m < m;
    if r == Fitted(b, n) {
      assert n - r == (d / m) * m;
      Multiple(d / m, m);
    } else if InRange(Num(r), b) && (n - r) % m == 0 {
      var j := (n - r) / m;
      assert (d / m - j) * m == k - d % m by {
        assert n - r == j * m;
        assert (d / m - j) * m == (d / m) * m - j * m;
      }
      OnlyZero(d / m - j, m);
      assert false;
    }
  }

  lemma Multiple(k: int, m: int)
    requires m > 0
    ensures (k * m) % m == 0
  {
    var q, r := (k * m) / m, (k * m) % m;
    assert (k - q) * m == r;
    OnlyZero(k - q, m);
  }

  /** A multiple of b smaller than b is zero. */
  lemma OnlyZero(k: int, b: int)
    requires b != 0 && (if b > 0 then -b < k * b < b else b < k * b < -b)
    ensures k == 0
  {
    if b > 0 {
      TimesGrows(k, b);
    } else {
      TimesGrows(k, -b);
    }
  }

  lemma {:induction false} TimesGrows(k: int, b: int)
    requires b > 0
    ensures if k > 0 then k * b >= b else if k < 0 then k * b <= -b else k * b == 0
    decreases if k < 0 then -k else k
  {
    if k > 0 {
      TimesGrows(k - 1, b);
      assert k * b == (k - 1) * b + b;
    } else if k < 0 {
      TimesGrows(k + 1, b);
      assert k * b == (k + 1) * b - b;
    }
  }

  // ----- division -----

  /** The quotient, rounded toward zero. */
  function Quotient(a: int, b: int): int
    requires b != 0
  {
    if a >= 0 then a / b else -((-a) / b)
  }

  function Remainder(a: int, b: int): int
    requires b != 0
  {
    a - Quotient(a, b) * b
  }

  /** The remainder is smaller than the divisor and has the dividend's sign. */
  predicate Divides(a: int, b: int, q: int, r: int) {
    && a == q * b + r
    && (if b > 0 then -b < r < b else b < r < -b)
    && (if a >= 0 then r >= 0 else r <= 0)
  }

  /** This determines the quotient and the remainder. */
  lemma DivisionExact(a: int, b: int, q: int, r: int)
    requires b != 0
    ensures q == Quotient(a, b) && r == Remainder(a, b) <==> Divides(a, b, q, r)
  {
    hide Divides, Quotient, Remainder;
    DivisionIs(a, b);
    if Divides(a, b, q, r) {
      DivisionUnique(a, b, q, r, Quotient(a, b), Remainder(a, b));
    }
  }

  lemma DivisionIs(a: int, b: int)
    requires b != 0
    ensures Divides(a, b, Quotient(a, b), Remainder(a, b))
  {
    hide Quotient;
    var p := Rounded(a, b);
    assert Remainder(a, b) == a - p;
  }

  /** The multiple of b that a division leaves the remainder from. */
  lemma Rounded(a: int, b: int) returns (p: int)
    requires b != 0
    ensures p == Quotient(a, b) * b
    ensures -(if b > 0 then b else -b) < a - p < (if b > 0 then b else -b) && (if a >= 0 then p <= a else p >= a)
  {
    var c := if a >= 0 then a else -a;
    Euclid(c, b);
    Opposite(c / b, b);
    p := Quotient(a, b) * b;
  }

  lemma Euclid(c: int, b: int)
    requires b != 0
    ensures (c / b) * b <= c < (c / b) * b + if b > 0 then b else -b
  {
  }

  lemma Opposite(q: int, b: int)
    ensures (-q) * b == -(q * b)
  {
  }

  lemma DivisionUnique(a: int, b: int, q: int, r: int, p: int, s: int)
    requires b != 0 && Divides(a, b, q, r) && Divides(a, b, p, s)
    ensures q == p && r == s
  {
    assert (q - p) * b == q * b - p * b;
    OnlyZero(q - p, b);
  }

  // ----- bits -----

  function Pow2(k: nat): (r: nat)
    ensures r > 0
  {
    if k == 0 then 1 else 2 * Pow2(k - 1)
  }

  predicate Bit(n: nat, k: nat) {
    if k == 0 then n % 2 == 1 else Bit(n / 2, k - 1)
  }

  predicate BitRule(op: BinOp, x: bool, y: bool) {
    match op case And => x && y case Or => x || y case _ => x != y
  }

  /** The number whose lowest bits are those the operator makes of two others. */
  function Bitwise(op: BinOp, a: nat, b: nat, bits: nat): nat {
    if bits == 0 then 0
    else (if BitRule(op, Bit(a, 0), Bit(b, 0)) then 1 else 0) + 2 * Bitwise(op, a / 2, b / 2, bits - 1)
  }

  /** Each of the lowest bits of r is the one the operator makes. */
  predicate BitsMade(op: BinOp, a: nat, b: nat, bits: nat, r: nat) {
    forall k: nat :: k < bits ==> Bit(r, k) == BitRule(op, Bit(a, k), Bit(b, k))
  }

  lemma {:induction false} BitwiseExact(op: BinOp, a: nat, b: nat, bits: nat, r: nat)
    ensures r == Bitwise(op, a, b, bits) <==> r < Pow2(bits) && BitsMade(op, a, b, bits, r)
    decreases bits
  {
    hide BitRule, BitsMade;
    NoBits(op, a, b, r);
    if bits > 0 {
      BitwiseExact(op, a / 2, b / 2, bits - 1, r / 2);
      Shifted(op, a, b, bits, r);
    }
  }

  lemma NoBits(op: BinOp, a: nat, b: nat, r: nat)
    ensures BitsMade(op, a, b, 0, r)
  {
  }

  lemma Shifted(op: BinOp, a: nat, b: nat, bits: nat, r: nat)
    requires bits > 0
    ensures BitsMade(op, a, b, bits, r) <==>
              Bit(r, 0) == BitRule(op, Bit(a, 0), Bit(b, 0)) && BitsMade(op, a / 2, b / 2, bits - 1, r / 2)
  {
    hide BitRule, Bit, BitsMade;
    if BitsMade(op, a, b, bits, r) {
      OneBit(op, a, b, bits, r, 0);
      forall k: nat | k < bits - 1
        ensures Bit(r / 2, k) == BitRule(op, Bit(a / 2, k), Bit(b / 2, k))
      {
        OneBit(op, a, b, bits, r, k + 1);
        NextBits(a, b, r, k + 1);
      }
      AllBits(op, a / 2, b / 2, bits - 1, r / 2);
    } else if Bit(r, 0) == BitRule(op, Bit(a, 0), Bit(b, 0)) && BitsMade(op, a / 2, b / 2, bits - 1, r / 2) {
      forall k: nat | k < bits
        ensures Bit(r, k) == BitRule(op, Bit(a, k), Bit(b, k))
      {
        if k > 0 {
          OneBit(op, a / 2, b / 2, bits - 1, r / 2, k - 1);
          NextBits(a, b, r, k);
        }
      }
      AllBits(op, a, b, bits, r);
    }
  }

  lemma OneBit(op: BinOp, a: nat, b: nat, bits: nat, r: nat, k: nat)
    requires BitsMade(op, a, b, bits, r) && k < bits
    ensures Bit(r, k) == BitRule(op, Bit(a, k), Bit(b, k))
  {
  }

  lemma AllBits(op: BinOp, a: nat, b: nat, bits: nat, r: nat)
    requires forall k: nat :: k < bits ==> Bit(r, k) == BitRule(op, Bit(a, k), Bit(b, k))
    ensures BitsMade(op, a, b, bits, r)
  {
  }

  lemma NextBit(n: nat, k: nat)
    requires k > 0
    ensures Bit(n, k) == Bit(n / 2, k - 1)
  {
  }

  lemma NextBits(a: nat, b: nat, r: nat, k: nat)
    requires k > 0
    ensures Bit(a, k) == Bit(a / 2, k - 1) && Bit(b, k) == Bit(b / 2, k - 1) && Bit(r, k) == Bit(r / 2, k - 1)
  {
  }

  /** Taking a number from 2^n - 1 flips each of its n bits. */
  lemma {:induction false} FlippedBits(x: nat, n: nat, k: nat)
    requires x < Pow2(n) && k < n
    ensures Pow2(n) - 1 - x >= 0 && Bit(Pow2(n) - 1 - x, k) == !Bit(x, k)
    decreases n
  {
    hide Bit, Pow2;
    var p := HalfPower(n);
    Halved(p, x);
    if k > 0 {
      FlippedBits(x / 2, n - 1, k - 1);
      NextBit(x, k);
      NextBit(2 * p - 1 - x, k);
    } else {
      LastBit(x);
      LastBit(2 * p - 1 - x);
    }
  }

  lemma HalfPower(n: nat) returns (p: nat)
    requires n > 0
    ensures p == Pow2(n - 1) && Pow2(n) == 2 * p
  {
    p := Pow2(n - 1);
  }

  lemma Halved(p: nat, x: nat)
    requires x < 2 * p
    ensures (2 * p - 1 - x) / 2 == p - 1 - x / 2 && (2 * p - 1 - x) % 2 == 1 - x % 2
  {
  }

  lemma LastBit(n: nat)
    ensures Bit(n, 0) == (n % 2 == 1)
  {
  }

  lemma HalfWord()
    ensures Pow2(63) == HALF && Pow2(64) == WORD
  {
    assert Pow2(9) == 512;
    assert Pow2(18) == 512 * Pow2(9);
    assert Pow2(27) == 512 * Pow2(18);
    assert Pow2(36) == 512 * Pow2(27);
    assert Pow2(45) == 512 * Pow2(36);
    assert Pow2(54) == 512 * Pow2(45);
    assert Pow2(63) == 512 * Pow2(54);
  }

  // ----- operators -----

  /** The types an operator takes its operands at: an undetermined right operand
      is one of the left one's type, and in an addition also the other way. */
  function OperandTypes(op: BinOp, f: Base, s: Base): (Base, Base) {
    if s.Undet? then (f, f) else if f.Undet? && op.Add? then (s, s) else (f, s)
  }

  predicate IsComparison(op: BinOp) {
    op.Lt? || op.LtEq? || op.Gt? || op.GtEq? || op.Eq? || op.Ne?
  }

  predicate Accepts(op: BinOp, f: Base, s: Base) {
    var t := OperandTypes(op, f, s);
    (t.0.Int? && t.1.Int?) || (t.0.Bool? && t.1.Bool? && (op.Eq? || op.Ne? || op.And? || op.Or? || op.Xor?))
  }

  predicate BothUnsigned(f: Base, s: Base) {
    f.Int? && s.Int? && !f.signed && !s.signed
  }

  /** Two unsigned operands are read as unsigned numbers, all others as signed. */
  function ReadAs(op: BinOp, f: Base, s: Base): (r: Base)
    ensures r.Int?
  {
    var t := OperandTypes(op, f, s);
    if BothUnsigned(t.0, t.1) then UNSIGNED else SIGNED
  }

  /** The static type of the result. */
  function ResultType(op: BinOp, f: Base, s: Base): Ty {
    if IsComparison(op) || OperandTypes(op, f, s).0.Bool? then Scalar(Bool)
    else if op.Add? || op.Sub? then Scalar(if BothUnsigned(f, s) then UNSIGNED else SIGNED)
    else if op.And? || op.Or? || op.Xor? then Scalar(UNSIGNED)
    else Scalar(ReadAs(op, f, s))
  }

  /** The division whose quotient has no 64-bit form: C++ leaves it undefined,
      and the usual processors trap. */
  predicate Overflows(x: int, y: int) {
    x == -HALF && y == -1
  }

  /** The order or equality of two integers. */
  predicate Compares(op: BinOp, x: int, y: int) {
    match op
    case Lt => x < y
    case LtEq => x <= y
    case Gt => x > y
    case GtEq => x >= y
    case Eq => x == y
    case _ => x != y
  }

  /** An operator on two numbers read as type t; None is a failure. Sums,
      differences and the results of bit operations are signed numbers. */
  function OnNumbers(op: BinOp, t: Base, a: int, b: int): Option<Val>
    requires t.Int?
  {
    var x, y := Fitted(t, a), Fitted(t, b);
    match op
    case Add => Some(Num(Fitted(SIGNED, a + b)))
    case Sub => Some(Num(Fitted(SIGNED, a - b)))
    case Mul => Some(Num(Fitted(t, a * b)))
    case Div => if y == 0 || Overflows(x, y) then None else Some(Num(Quotient(x, y)))
    case Mod => if y == 0 || Overflows(x, y) then None else Some(Num(Remainder(x, y)))
    case And => Some(Num(Fitted(SIGNED, Bitwise(op, Fitted(UNSIGNED, a), Fitted(UNSIGNED, b), 64))))
    case Or => Some(Num(Fitted(SIGNED, Bitwise(op, Fitted(UNSIGNED, a), Fitted(UNSIGNED, b), 64))))
    case Xor => Some(Num(Fitted(SIGNED, Bitwise(op, Fitted(UNSIGNED, a), Fitted(UNSIGNED, b), 64))))
    case _ => Some(Truth(Compares(op, x, y)))
  }

  /** Is the value NULL or of the kind the type's values are of? */
  predicate Plain(v: Val, b: Base) {
    v.Null? || if b.Bool? then v.Truth? else v.Num?
  }

  /** Two NULLs are equal. */
  predicate Same(a: Val, b: Val) {
    (a.Null? && b.Null?)
    || (a.Truth? && b.Truth? && a.b == b.b)
    || (a.Num? && b.Num? && Fitted(SIGNED, a.n) == Fitted(SIGNED, b.n))
  }

  function OnValues(op: BinOp, f: Base, s: Base, a: Val, b: Val): Option<Val> {
    var t := OperandTypes(op, f, s);
    if !Accepts(op, f, s) || !Plain(a, t.0) || !Plain(b, t.1) then None
    else if op.Eq? || op.Ne? then Some(Truth(Same(a, b) == op.Eq?))
    else if a.Null? || b.Null? then Some(Null)
    else if a.Truth? then Some(Truth(BitRule(op, a.b, b.b)))
    else OnNumbers(op, ReadAs(op, f, s), a.n, b.n)
  }

  /** An operator on two operands as they are read; None is a failed read. A
      NULL first operand decides before the second is read, equality apart. */
  function Operate(op: BinOp, f: Base, s: Base, x: Option<Val>, y: Option<Val>): Option<Val> {
    if x.None? then None
    else if x.value.Null? && !op.Eq? && !op.Ne? then Some(Null)
    else if y.None? then None
    else OnValues(op, f, s, x.value, y.value)
  }

  // ----- complement and conversion -----

  function Complement(n: int): int {
    Fitted(SIGNED, -1 - n)
  }

  /** Each of the 64 bits is the opposite one. */
  lemma ComplementBits(n: int, k: nat)
    requires k < 64
    ensures Fitted(UNSIGNED, n) >= 0 && Fitted(UNSIGNED, Complement(n)) >= 0
    ensures Bit(Fitted(UNSIGNED, Complement(n)), k) == !Bit(Fitted(UNSIGNED, n), k)
  {
    hide Fitted, Complement, Bit, Pow2;
    HalfWord();
    ComplementWord(n);
    FlippedBits(Fitted(UNSIGNED, n), 64, k);
  }

  lemma ComplementWord(n: int)
    ensures 0 <= Fitted(UNSIGNED, n) < WORD
    ensures Fitted(UNSIGNED, Complement(n)) == WORD - 1 - Fitted(UNSIGNED, n)
  {
    var i, j := n / WORD, (-1 - n + HALF) / WORD;
    assert n == n % WORD + i * WORD;
    assert Complement(n) == (WORD - 1 - n % WORD) + (-i - 1 - j) * WORD;
    SameRest(WORD - 1 - n % WORD, -i - 1 - j);
  }

  lemma SameRest(n: int, k: int)
    ensures (n + k * WORD) % WORD == n % WORD
  {
  }

  /** NOT, by the operand's type. */
  function Inverted(t: Ty, x: Val): Option<Val> {
    if x.Null? then Some(Null)
    else if t == Scalar(Bool) then if x.Truth? then Some(Truth(!x.b)) else None
    else if x.Num? then Some(Num(Complement(x.n))) else None
  }

  /** What a variable of type t holds once x is assigned to it. */
  function Converted(t: Ty, x: Val): Option<Val> {
    if x.Null? then Some(Null)
    else
      match t
      case Scalar(b) =>
        if b.Bool? && x.Truth? then Some(x)
        else if b.Int? && x.Num? then Some(Num(Fitted(b, x.n)))
        else None
      case Array(_) => if x.Elems? then Some(x) else None
      case Table(_) => None
  }

  // ----- comparisons and the integer order -----

  /** When a comparison of a number of type f with one of type s is the
      comparison of the integers. With one unsigned and one signed operand an
      unsigned number of at least 2^63 is taken for a negative one. */
  predicate Faithful(op: BinOp, f: Base, s: Base, a: int, b: int)
    requires f.Int? && s.Int?
  {
    if f.signed == s.signed then true
    else if s.signed then
      a < HALF ||
      if op.Lt? || op.GtEq? then b <= a - WORD else if op.LtEq? || op.Gt? then b < a - WORD else b != a - WORD
    else
      b < HALF ||
      if op.Lt? || op.GtEq? then a < b - WORD else if op.LtEq? || op.Gt? then a <= b - WORD else a != b - WORD
  }

  lemma CompareExact(op: BinOp, f: Base, s: Base, a: int, b: int)
    requires IsComparison(op) && f.Int? && s.Int? && InRange(Num(a), f) && InRange(Num(b), s)
    ensures OnValues(op, f, s, Num(a), Num(b)) == Some(Truth(Compares(op, a, b))) <==> Faithful(op, f, s, a, b)
  {
    hide Fitted, Compares;
    ReadBack(f, a);
    ReadBack(s, b);
    Compared(op, f, s, a, b);
    CompareSigned(op, f, s, a, b);
  }

  /** An unsigned number of at least 2^63 is read as a negative one. */
  lemma ReadBack(f: Base, a: int)
    requires f.Int? && InRange(Num(a), f)
    ensures Fitted(SIGNED, a) == if a < HALF then a else a - WORD
    ensures !f.signed ==> Fitted(UNSIGNED, a) == a
  {
    assert -HALF <= a < WORD;
  }

  lemma Compared(op: BinOp, f: Base, s: Base, a: int, b: int)
    requires IsComparison(op) && f.Int? && s.Int? && InRange(Num(a), f) && InRange(Num(b), s)
    ensures OnValues(op, f, s, Num(a), Num(b))
         == Some(Truth(if BothUnsigned(f, s) then Compares(op, a, b) else Compares(op, Fitted(SIGNED, a), Fitted(SIGNED, b))))
  {
    hide Fitted;
    ReadBack(f, a);
    ReadBack(s, b);
  }

  lemma CompareSigned(op: BinOp, f: Base, s: Base, a: int, b: int)
    requires IsComparison(op) && f.Int? && s.Int? && InRange(Num(a), f) && InRange(Num(b), s)
    ensures var x, y := if a < HALF then a else a - WORD, if b < HALF then b else b - WORD;
            if BothUnsigned(f, s) then Faithful(op, f, s, a, b)
            else Compares(op, x, y) == Compares(op, a, b) <==> Faithful(op, f, s, a, b)
  {
  }

  /** Do the types guarantee the integer order? */
  predicate SafelyCompared(f: Base, s: Base)
    requires f.Int? && s.Int?
  {
    f.signed == s.signed || (if s.signed then f.size != B8 else s.size != B8)
  }

  lemma ComparesTypesExact(op: BinOp, f: Base, s: Base)
    requires IsComparison(op) && f.Int? && s.Int?
    ensures SafelyCompared(f, s) <==>
              forall a: int, b: int :: InRange(Num(a), f) && InRange(Num(b), s) ==>
                OnValues(op, f, s, Num(a), Num(b)) == Some(Truth(Compares(op, a, b)))
  {
    hide OnValues, Compares;
    if SafelyCompared(f, s) {
      forall a: int, b: int | InRange(Num(a), f) && InRange(Num(b), s)
        ensures OnValues(op, f, s, Num(a), Num(b)) == Some(Truth(Compares(op, a, b)))
      {
        CompareExact(op, f, s, a, b);
      }
    } else {
      var small := if op.Eq? || op.Ne? then -1 else 0;
      var a, b := if s.signed then WORD - 1 else small, if s.signed then small else WORD - 1;
      CompareExact(op, f, s, a, b);
    }
  }

  /** The greatest unsigned number equals the signed -1. */
  lemma GreatestIsMinusOne()
    ensures OnValues(Eq, UNSIGNED, SIGNED, Num(WORD - 1), Num(-1)) == Some(Truth(true))
    ensures OnValues(Lt, UNSIGNED, SIGNED, Num(WORD - 1), Num(0)) == Some(Truth(true))
  {
    hide Fitted;
    ReadBack(UNSIGNED, WORD - 1);
    ReadBack(SIGNED, -1);
    ReadBack(SIGNED, 0);
  }
}
