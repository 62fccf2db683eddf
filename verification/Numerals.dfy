/** Numbers as text: what the lexer reads and what the disassembler prints. */
module Numerals {
  import opened Bytes
  import opened Wrappers
  import opened Syntax

  const TWO64 := 0x1_0000_0000_0000_0000
  const TWO63 := 0x8000_0000_0000_0000

  const ZERO: Byte := 48
  const MINUS: Byte := 45
  const POINT: Byte := 46

  predicate IsDigit(c: Byte) { 48 <= c <= 57 }

  predicate AllDigits(t: seq<Byte>) {
    forall i :: 0 <= i < |t| ==> IsDigit(t[i])
  }

  /** The decimal digits of a number. */
  function Digits(n: nat): (t: seq<Byte>)
    ensures t != [] && AllDigits(t) && (n > 0 ==> t[0] != ZERO) && (n == 0 ==> t == [ZERO])
  {
    if n < 10 then [48 + n] else Digits(n / 10) + [48 + n % 10]
  }

  /** The number a digit text denotes. */
  function Number(t: seq<Byte>): nat
    requires AllDigits(t)
  {
    if t == [] then 0 else 10 * Number(t[..|t| - 1]) + (t[|t| - 1] - 48)
  }

  lemma {:induction false} NumberOfDigits(n: nat)
    ensures Number(Digits(n)) == n
  {
    if n >= 10 {
      NumberOfDigits(n / 10);
      assert Digits(n)[..|Digits(n)| - 1] == Digits(n / 10);
    }
  }

  /** 10 to the k. */
  function Pow10(k: nat): (r: nat)
    ensures r > 0
  {
    if k == 0 then 1 else 10 * Pow10(k - 1)
  }

  lemma {:induction false} DigitsLength(n: nat, k: nat)
    requires k > 0 && n < Pow10(k)
    ensures |Digits(n)| <= k
    decreases k
  {
    assert Pow10(0) == 1 && Pow10(k) == 10 * Pow10(k - 1);
    if n >= 10 {
      DigitsLength(n / 10, k - 1);
    }
  }

  // ----- integers -----

  /** The text of a 64-bit word read as an unsigned or a signed number. */
  function IntegerText(value: UInt64, isUnsigned: bool): seq<Byte> {
    if !isUnsigned && value >= TWO63 then [MINUS] + Digits(TWO64 - value) else Digits(value)
  }

  lemma Pow20()
    ensures Pow10(20) == 100000000000000000000
  {
    assert Pow10(5) == 100000;
    assert Pow10(10) == 10000000000 by {
      assert Pow10(7) == 100 * Pow10(5) && Pow10(9) == 100 * Pow10(7);
    }
    assert Pow10(12) == 100 * Pow10(10) && Pow10(14) == 100 * Pow10(12);
    assert Pow10(16) == 100 * Pow10(14) && Pow10(18) == 100 * Pow10(16);
    assert Pow10(20) == 100 * Pow10(18);
  }

  lemma LastDigit(n: nat)
    ensures Digits(n) == (if n < 10 then [] else Digits(n / 10)) + [48 + n % 10]
  {
  }

  /** Fills the buffer from its end; the text runs from the returned index to
      the terminating zero. */
  method IntoAscii(value: UInt64, dest: array<Byte>, isUnsigned: bool) returns (index: nat)
    requires dest.Length == 25
    modifies dest
    ensures index < 24 && dest[index..24] == IntegerText(value, isUnsigned) && dest[24] == 0
  {
    hide Digits, Pow10;
    var negative := !isUnsigned && value >= TWO63;
    var v: nat := if negative then TWO64 - value else value;
    ghost var whole := v;
    Pow20();
    DigitsLength(v, 20);
    index := 24;
    dest[index] := 0;
    index := index - 1;
    while true
      invariant index <= 23 && dest[24] == 0
      invariant Digits(whole) == Digits(v) + dest[index + 1..24]
      decreases v
    {
      assert |Digits(whole)| == |Digits(v)| + (23 - index);
      LastDigit(v);
      dest[index] := 48 + v % 10;
      assert dest[index..24] == [48 + v % 10] + dest[index + 1..24];
      if v < 10 {
        break;
      }
      assert Digits(v) + dest[index + 1..24] == Digits(v / 10) + dest[index..24];
      index := index - 1;
      v := v / 10;
    }
    assert Digits(whole) == dest[index..24];
    if negative {
      index := index - 1;
      dest[index] := MINUS;
      assert dest[index..24] == [MINUS] + dest[index + 1..24];
    }
  }

  /** The value of a digit of the given base. */
  function DigitOf(c: Byte, base: nat): Option<nat> {
    if IsDigit(c) then Some(c - 48)
    else if base == 16 && 97 <= c <= 102 then Some(c - 97 + 10)
    else if base == 16 && 65 <= c <= 70 then Some(c - 65 + 10)
    else None
  }

  datatype Scan = Scan(value: nat, at: nat)

  /** Reads digits from position i up to len, modulo 2^64. */
  function ScanDigits(b: seq<Byte>, i: nat, len: nat, base: nat, acc: nat): (r: Scan)
    requires i <= len <= |b|
    ensures i <= r.at <= len
    decreases len - i
  {
    if i == len || DigitOf(b[i], base).None? then Scan(acc, i)
    else ScanDigits(b, i + 1, len, base, (acc * base + DigitOf(b[i], base).value) % TWO64)
  }

  datatype Parsed = Parsed(length: nat, value: nat, signed: bool)

  /** What the lexer makes of a buffer of len characters; the character after
      them is looked at as well. */
  function ParseInteger(b: seq<Byte>, len: nat, checkForUnsigned: bool): Parsed
    requires 0 < len < |b|
  {
    var negative := b[0] == MINUS && len > 1 && IsDigit(b[1]);
    var i := if negative then 1 else 0;
    var hex := b[i] == ZERO && len - i > 1 && (b[i + 1] == 120 || b[i + 1] == 88);
    var start := if hex then i + 2 else if b[i] == ZERO then i + 1 else i;
    var s := ScanDigits(b, start, len, if hex then 16 else 10, 0);
    var value := if negative then (0 - s.value) % TWO64 else s.value;
    if checkForUnsigned && (b[s.at] == 117 || b[s.at] == 85) then Parsed(s.at + 1, value, false)
    else if checkForUnsigned && (b[s.at] == 115 || b[s.at] == 83) then Parsed(s.at + 1, value, true)
    else Parsed(s.at, value, negative)
  }

  /** The lexer's loop. */
  method ReadInteger(buffer: seq<Byte>, bufferLen: nat, checkForUnsigned: bool) returns (r: Parsed)
    requires 0 < bufferLen < |buffer|
    ensures r == ParseInteger(buffer, bufferLen, checkForUnsigned)
  {
    hide IsDigit;
    var at, base, negative := 0, 10, false;
    if buffer[0] == MINUS && bufferLen > 1 && IsDigit(buffer[1]) {
      negative, at := true, 1;
    }
    if buffer[at] == ZERO && bufferLen - at > 1 && (buffer[at + 1] == 120 || buffer[at + 1] == 88) {
      base, at := 16, at + 2;
    } else if buffer[at] == ZERO {
      at := at + 1;
    }
    var outValue := 0;
    ghost var all := ScanDigits(buffer, at, bufferLen, base, 0);
    while at < bufferLen && DigitOf(buffer[at], base).Some?
      invariant at <= bufferLen && outValue >= 0
      invariant all == ScanDigits(buffer, at, bufferLen, base, outValue)
    {
      outValue := (outValue * base + DigitOf(buffer[at], base).value) % TWO64;
      at := at + 1;
    }
    if negative {
      outValue := (0 - outValue) % TWO64;
    }
    if checkForUnsigned && (buffer[at] == 117 || buffer[at] == 85) {
      r := Parsed(at + 1, outValue, false);
    } else if checkForUnsigned && (buffer[at] == 115 || buffer[at] == 83) {
      r := Parsed(at + 1, outValue, true);
    } else {
      r := Parsed(at, outValue, negative);
    }
  }

  /** Scanning a digit text gives the number it denotes. */
  lemma {:induction false} ScanNumber(pre: seq<Byte>, t: seq<Byte>, post: seq<Byte>, done: seq<Byte>)
    requires AllDigits(done) && AllDigits(t) && Number(done + t) < TWO64
    ensures ScanDigits(pre + t + post, |pre|, |pre| + |t|, 10, Number(done)) == Scan(Number(done + t), |pre| + |t|)
    decreases |t|
  {
    hide Number, ScanDigits;
    var b := pre + t + post;
    ScanStep(b, |pre|, |pre| + |t|, Number(done));
    if t == [] {
      assert done + t == done;
    } else {
      var next := done + [t[0]];
      assert done + t == next + t[1..];
      NumberGrows(next, t[1..]);
      NumberNext(done, t[0]);
      assert b[|pre|] == t[0];
      assert b == (pre + [t[0]]) + t[1..] + post;
      ScanNumber(pre + [t[0]], t[1..], post, next);
    }
  }

  lemma ScanStep(b: seq<Byte>, i: nat, len: nat, acc: nat)
    requires i <= len <= |b|
    ensures ScanDigits(b, i, len, 10, acc)
         == if i == len || !IsDigit(b[i]) then Scan(acc, i)
            else ScanDigits(b, i + 1, len, 10, (acc * 10 + (b[i] - 48)) % TWO64)
  {
  }

  lemma {:induction false} NumberGrows(a: seq<Byte>, b: seq<Byte>)
    requires AllDigits(a) && AllDigits(b)
    ensures Number(a) <= Number(a + b)
    decreases |b|
  {
    if b == [] {
      assert a + b == a;
    } else {
      assert (a + b)[..|a + b| - 1] == a + b[..|b| - 1];
      NumberGrows(a, b[..|b| - 1]);
    }
  }

  /** A sign and digits that scan to n, up to a zero byte. */
  lemma ParsedText(pre: seq<Byte>, d: seq<Byte>, n: nat)
    requires pre == [] || pre == [MINUS]
    requires d != [] && AllDigits(d) && if n == 0 then d == [ZERO] else d[0] != ZERO
    requires n > 0 ==> ScanDigits(pre + d + [0], |pre|, |pre| + |d|, 10, 0) == Scan(n, |pre| + |d|)
    ensures ParseInteger(pre + d + [0], |pre| + |d|, true)
         == Parsed(|pre| + |d|, if pre == [] then n else (0 - n) % TWO64, pre != [])
  {
    hide ScanDigits, Number, DigitOf;
    var b := pre + d + [0];
    assert b[|pre|] == d[0] && IsDigit(d[0]) && b[|pre| + |d|] == 0;
    if n == 0 {
      NothingScanned(b, |pre| + 1);
    }
  }

  /** Reading a printed integer gives back the 64-bit word, for every word, as
      an unsigned and as a signed number, -2^63 included. */
  lemma IntegerRoundTrip(value: UInt64, isUnsigned: bool)
    ensures var t := IntegerText(value, isUnsigned);
            ParseInteger(t + [0], |t|, true) == Parsed(|t|, value, !isUnsigned && value >= TWO63)
  {
    hide Digits, ScanDigits, Number, DigitOf, ParseInteger;
    var t := IntegerText(value, isUnsigned);
    var negative := !isUnsigned && value >= TWO63;
    var n := if negative then TWO64 - value else value;
    var d := Digits(n);
    var pre: seq<Byte> := if negative then [MINUS] else [];
    assert t == pre + d;
    NumberOfDigits(n);
    if n > 0 {
      assert [] + d == d;
      EmptyNumber();
      ScanNumber(pre, d, [0], []);
    }
    ParsedText(pre, d, n);
  }

  // ----- every written form of an integer -----

  const LOWER: seq<Byte> := [48, 49, 50, 51, 52, 53, 54, 55, 56, 57, 97, 98, 99, 100, 101, 102]
  const UPPER: seq<Byte> := [48, 49, 50, 51, 52, 53, 54, 55, 56, 57, 65, 66, 67, 68, 69, 70]

  /** The digits of a number in base ten or sixteen, by division. */
  function DigitsIn(n: nat, base: nat, upper: bool): (t: seq<Byte>)
    requires base == 10 || base == 16
    ensures t != []
  {
    var d := (if upper then UPPER else LOWER)[n % base];
    if n < base then [d] else DigitsIn(n / base, base, upper) + [d]
  }

  /** A sign, the mark of a hexadecimal number, the digits. */
  function WrittenInteger(n: UInt64, negative: bool, hex: bool, capital: bool, upper: bool): seq<Byte> {
    (if negative then [MINUS] else [])
    + (if hex then [ZERO, if capital then 88 else 120] else [])
    + DigitsIn(n, if hex then 16 else 10, upper)
  }

  /** Can the character go on with a number? */
  predicate GoesOn(c: Byte, hex: bool) {
    c in LOWER[..10] || if hex then c in LOWER || c in UPPER else c == 120 || c == 88
  }

  lemma DigitRead(d: nat, base: nat, upper: bool)
    requires (base == 10 || base == 16) && d < base
    ensures DigitOf((if upper then UPPER else LOWER)[d], base) == Some(d)
  {
  }

  lemma NoDigit(c: Byte, base: nat)
    requires (base == 10 || base == 16) && !GoesOn(c, base == 16)
    ensures DigitOf(c, base).None?
  {
    InTables(c);
  }

  lemma InTables(c: Byte)
    ensures IsDigit(c) ==> c in LOWER[..10]
    ensures 97 <= c <= 102 ==> c in LOWER
    ensures 65 <= c <= 70 ==> c in UPPER
  {
    assert IsDigit(c) ==> LOWER[..10][c - 48] == c;
    assert 97 <= c <= 102 ==> LOWER[c - 87] == c;
    assert 65 <= c <= 70 ==> UPPER[c - 55] == c;
  }

  lemma DigitsSplit(n: nat, base: nat, upper: bool)
    requires base == 10 || base == 16
    ensures var d := (if upper then UPPER else LOWER)[n % base];
            DigitsIn(n, base, upper) == if n < base then [d] else DigitsIn(n / base, base, upper) + [d]
    ensures (n / base) * base + n % base == n && (n >= base ==> n / base < n) && (n < base ==> n % base == n)
  {
    if base == 10 {
      assert (n / 10) * 10 + n % 10 == n;
    } else {
      assert (n / 16) * 16 + n % 16 == n;
    }
  }

  /** Scanning over the digits of a number gives the number. */
  lemma {:induction false} ScanIn(pre: seq<Byte>, n: nat, base: nat, upper: bool, post: seq<Byte>, len: nat)
    requires (base == 10 || base == 16) && n < TWO64
    requires var t := DigitsIn(n, base, upper); |pre| + |t| <= len <= |pre + t + post|
    ensures var t := DigitsIn(n, base, upper);
            var b := pre + t + post;
            ScanDigits(b, |pre|, len, base, 0) == ScanDigits(b, |pre| + |t|, len, base, n)
    decreases n
  {
    hide DigitOf, DigitsIn, ScanDigits;
    DigitsSplit(n, base, upper);
    var r := n % base;
    var d := (if upper then UPPER else LOWER)[r];
    var t := DigitsIn(n, base, upper);
    var b := pre + t + post;
    DigitRead(r, base, upper);
    assert b[|pre| + |t| - 1] == d;
    if n >= base {
      var q := n / base;
      var init := DigitsIn(q, base, upper);
      assert b == pre + init + ([d] + post);
      ScanIn(pre, q, base, upper, [d] + post, len);
      NextDigit(b, |pre| + |init|, len, base, q, r);
    } else {
      NextDigit(b, |pre|, len, base, 0, n);
    }
  }

  lemma NextDigit(b: seq<Byte>, i: nat, len: nat, base: nat, acc: nat, d: nat)
    requires i < len <= |b| && DigitOf(b[i], base) == Some(d) && acc * base + d < TWO64
    ensures ScanDigits(b, i, len, base, acc) == ScanDigits(b, i + 1, len, base, acc * base + d)
  {
    hide DigitOf;
  }

  lemma ScanEnds(b: seq<Byte>, i: nat, len: nat, base: nat, acc: nat)
    requires i <= len <= |b| && (i == len || DigitOf(b[i], base).None?)
    ensures ScanDigits(b, i, len, base, acc) == Scan(acc, i)
  {
  }

  lemma FirstDigit(n: nat, base: nat, upper: bool)
    requires base == 10 || base == 16
    ensures var t := DigitsIn(n, base, upper);
            && t[0] != MINUS && (base == 10 ==> IsDigit(t[0]) && (t[0] == ZERO <==> n == 0) && (n == 0 ==> |t| == 1))
  {
    if n >= base {
      FirstDigit(n / base, base, upper);
      assert DigitsIn(n, base, upper)[0] == DigitsIn(n / base, base, upper)[0];
    }
  }

  /** Every 64-bit word, written in base ten or, after 0x or 0X, in base sixteen
      with small or capital letters, with or without a minus sign, is read as
      that word or its negative. The suffix u or U makes it unsigned, s or S
      signed; either is one more character and leaves the value as it is. */
  lemma WrittenIntegerRead(n: UInt64, negative: bool, hex: bool, capital: bool, upper: bool, post: seq<Byte>, len: nat, check: bool)
    requires post != []
    requires var t := WrittenInteger(n, negative, hex, capital, upper);
             |t| <= len < |t + post| && (len == |t| || !GoesOn(post[0], hex))
    ensures var t := WrittenInteger(n, negative, hex, capital, upper);
            var suffix := check && post[0] in {117, 85, 115, 83};
            ParseInteger(t + post, len, check)
              == Parsed(if suffix then |t| + 1 else |t|, if negative then (0 - n) % TWO64 else n,
                        if suffix then post[0] == 115 || post[0] == 83 else negative)
  {
    hide DigitsIn, ScanDigits, DigitOf, GoesOn;
    var base := if hex then 16 else 10;
    var d := DigitsIn(n, base, upper);
    var sign: seq<Byte> := if negative then [MINUS] else [];
    var mark: seq<Byte> := if hex then [ZERO, if capital then 88 else 120] else [];
    var t := WrittenInteger(n, negative, hex, capital, upper);
    var b := t + post;
    FirstDigit(n, base, upper);
    assert b == (sign + mark) + d + post && b[|sign|] == (mark + d)[0] && b[|t|] == post[0];
    if len > |t| {
      NoDigit(post[0], base);
      if !hex {
        NoMark(post[0], hex);
      }
    }
    if hex || n > 0 {
      ScanIn(sign + mark, n, base, upper, post, len);
    }
    ScanEnds(b, |t|, len, base, n);
    assert hex ==> b[|sign| + 1] == mark[1];
    assert !hex && n == 0 && len > |t| ==> b[|sign| + 1] == post[0];
  }

  lemma NoMark(c: Byte, hex: bool)
    requires !GoesOn(c, hex) && !hex
    ensures c != 120 && c != 88
  {
  }

  lemma NothingScanned(b: seq<Byte>, i: nat)
    requires i <= |b|
    ensures ScanDigits(b, i, i, 10, 0) == Scan(0, i)
  {
  }

  lemma EmptyNumber()
    ensures Number([]) == 0
  {
  }

  // ----- reals -----

  /** The precision of a W_LDRR operand: its fraction counts 10^-18. */
  const PRECISION := 1000000000000000000

  datatype Real = Real(integer: int, fraction: int)

  /** Where the lexer stands in a real literal; precision is 10 to the number
      of fraction digits read, counting the one that was too many. */
  datatype RealScan = RealScan(whole: nat, part: nat, precision: nat, at: nat)

  /** Reads digits and one point; None when there is a second point. */
  function ScanReal(b: seq<Byte>, i: nat, len: nat, found: bool, acc: RealScan): (r: Option<RealScan>)
    requires i <= len <= |b|
    ensures r.Some? ==> r.value.at <= len && r.value.precision >= acc.precision
    decreases len - i
  {
    if i == len then Some(acc.(at := i))
    else if IsDigit(b[i]) then
      var d := b[i] - 48;
      if !found then ScanReal(b, i + 1, len, found, acc.(whole := acc.whole * 10 + d))
      else if PRECISION <= acc.precision * 10 then Some(acc.(precision := acc.precision * 10, at := i))
      else ScanReal(b, i + 1, len, found, acc.(part := acc.part * 10 + d, precision := acc.precision * 10))
    else if b[i] == POINT then
      if found then None else ScanReal(b, i + 1, len, true, acc)
    else Some(acc.(at := i))
  }

  /** The fraction brought to the precision. */
  function Scaled(part: nat, precision: nat): nat
    requires precision > 0
    decreases PRECISION - precision
  {
    if precision >= PRECISION then part else Scaled(part * 10, precision * 10)
  }

  datatype ParsedReal = ParsedReal(value: Real, length: nat)

  function ParseReal(b: seq<Byte>, len: nat): Option<ParsedReal>
    requires 0 < len <= |b|
  {
    var negative := b[0] == MINUS && len > 1 && IsDigit(b[1]);
    var sign := if negative then -1 else 1;
    var s := ScanReal(b, if negative then 1 else 0, len, false, RealScan(0, 0, 1, 0));
    if s.None? then None
    else Some(ParsedReal(Real(sign * s.value.whole, sign * Scaled(s.value.part, s.value.precision)), s.value.at))
  }

  /** The lexer's loops. */
  method ReadReal(buffer: seq<Byte>, bufferLen: nat) returns (r: Option<ParsedReal>)
    requires 0 < bufferLen <= |buffer|
    ensures r == ParseReal(buffer, bufferLen)
  {
    var at, negative, foundDecimalPoint := 0, false, false;
    if buffer[0] == MINUS && bufferLen > 1 && IsDigit(buffer[1]) {
      negative, at := true, 1;
    }
    var whole: nat, part: nat, precision: nat := 0, 0, 1;
    ghost var all := ScanReal(buffer, at, bufferLen, false, RealScan(0, 0, 1, 0));
    while at < bufferLen
      invariant at <= bufferLen && precision > 0
      invariant all == ScanReal(buffer, at, bufferLen, foundDecimalPoint, RealScan(whole, part, precision, 0))
    {
      if IsDigit(buffer[at]) {
        var digit: nat := buffer[at] - 48;
        if !foundDecimalPoint {
          whole := whole * 10 + digit;
        } else {
          precision := precision * 10;
          if PRECISION <= precision {
            break;
          }
          part := part * 10 + digit;
        }
      } else if buffer[at] == POINT {
        if foundDecimalPoint {
          return None;
        }
        foundDecimalPoint := true;
      } else {
        break;
      }
      at := at + 1;
    }
    assert all == Some(RealScan(whole, part, precision, at));
    ghost var result := Scaled(part, precision);
    while precision < PRECISION
      invariant precision > 0 && result == Scaled(part, precision)
      decreases PRECISION - precision
    {
      part, precision := part * 10, precision * 10;
    }
    r := Some(ParsedReal(if negative then Real(0 - whole, 0 - part) else Real(whole, part), at));
  }

  /** The text of a real literal. */
  function Literal(negative: bool, integer: seq<Byte>, frac: seq<Byte>): seq<Byte> {
    (if negative then [MINUS] else []) + integer + [POINT] + frac
  }

  /** The fraction digits the lexer takes: the eighteenth ends the number. */
  function Taken(frac: seq<Byte>): seq<Byte> {
    if |frac| <= 17 then frac else frac[..17]
  }

  /** What is stored of the fraction: up to 17 digits are scaled to the
      precision, of more the first 17 are not scaled at all. */
  function StoredFraction(frac: seq<Byte>): nat
    requires AllDigits(frac)
  {
    if |frac| <= 17 then Number(frac) * Pow10(18 - |frac|) else Number(frac[..17])
  }

  lemma {:induction false} ScanWhole(pre: seq<Byte>, t: seq<Byte>, post: seq<Byte>, done: seq<Byte>, len: nat)
    requires AllDigits(done) && AllDigits(t) && |pre| + |t| <= len <= |pre + t + post|
    ensures ScanReal(pre + t + post, |pre|, len, false, RealScan(Number(done), 0, 1, 0))
         == ScanReal(pre + t + post, |pre| + |t|, len, false, RealScan(Number(done + t), 0, 1, 0))
    decreases |t|
  {
    if t == [] {
      assert done + t == done;
    } else {
      var next := done + [t[0]];
      assert next[..|done|] == done && done + t == next + t[1..];
      assert (pre + t + post)[|pre|] == t[0];
      assert pre + t + post == (pre + [t[0]]) + t[1..] + post;
      ScanWhole(pre + [t[0]], t[1..], post, next, len);
    }
  }

  lemma {:induction false} ScanFraction(pre: seq<Byte>, t: seq<Byte>, post: seq<Byte>, done: seq<Byte>, whole: nat)
    requires AllDigits(done) && AllDigits(t) && |done| <= 17 && (post == [] || !(IsDigit(post[0]) || post[0] == POINT))
    ensures var len := |pre + t + post|;
            var all := done + t;
            var k := if |all| <= 17 then |all| else 17;
            ScanReal(pre + t + post, |pre|, len, true, RealScan(whole, Number(done), Pow10(|done|), 0))
              == Some(RealScan(whole, Number(all[..k]), Pow10(if |all| <= 17 then |all| else 18), |pre| + k - |done|))
    decreases |t|
  {
    hide Number, Pow10;
    var b := pre + t + post;
    Precise();
    if t == [] {
      assert (done + t)[..|done|] == done;
      assert |pre| < |b| ==> b[|pre|] == post[0];
    } else {
      assert b[|pre|] == t[0];
      PowStep(|done|);
      if |done| < 17 {
        var next := done + [t[0]];
        NumberNext(done, t[0]);
        assert done + t == next + t[1..];
        assert b == (pre + [t[0]]) + t[1..] + post;
        PowMonotone(|done| + 1, 17);
        ScanFraction(pre + [t[0]], t[1..], post, next, whole);
      } else {
        assert (done + t)[..17] == done;
      }
    }
  }

  lemma NumberNext(done: seq<Byte>, c: Byte)
    requires AllDigits(done) && IsDigit(c)
    ensures Number(done + [c]) == 10 * Number(done) + (c - 48)
  {
    assert (done + [c])[..|done|] == done;
  }

  lemma ScaledStep(part: nat, precision: nat)
    requires precision > 0
    ensures Scaled(part, precision) == if precision >= PRECISION then part else Scaled(part * 10, precision * 10)
  {
  }

  lemma {:induction false} ScaledPower(part: nat, k: nat)
    requires k <= 18
    ensures Scaled(part, Pow10(k)) == part * Pow10(18 - k)
    decreases 18 - k
  {
    hide Scaled, Pow10;
    Precise();
    ScaledStep(part, Pow10(k));
    if k < 18 {
      PowMonotone(k, 17);
      ScaledPower(part * 10, k + 1);
      PowStep(k);
      PowStep(17 - k);
      MulSwap(part, 10, Pow10(17 - k));
    }
  }

  lemma PowStep(k: nat)
    ensures Pow10(k + 1) == 10 * Pow10(k)
  {
  }

  /** Scanning a literal from its first digit on. */
  lemma ScanLiteral(pre: seq<Byte>, integer: seq<Byte>, frac: seq<Byte>, post: seq<Byte>)
    requires AllDigits(integer) && AllDigits(frac) && (post == [] || !(IsDigit(post[0]) || post[0] == POINT))
    ensures var b := pre + integer + [POINT] + frac + post;
            var k := if |frac| <= 17 then |frac| else 17;
            ScanReal(b, |pre|, |b|, false, RealScan(0, 0, 1, 0))
              == Some(RealScan(Number(integer), Number(frac[..k]), Pow10(if |frac| <= 17 then |frac| else 18),
                               |pre| + |integer| + 1 + k))
  {
    hide Number, ScanReal, Pow10;
    var b := pre + integer + [POINT] + frac + post;
    var at := |pre| + |integer|;
    EmptyNumber();
    PowZero();
    assert [] + integer == integer && [] + frac == frac;
    assert b == pre + integer + ([POINT] + frac + post);
    ScanWhole(pre, integer, [POINT] + frac + post, [], |b|);
    PointStep(b, at, |b|, Number(integer));
    var head := pre + integer + [POINT];
    ScanFraction(head, frac, post, [], Number(integer));
  }

  /** What a literal is read as, whatever character follows it. */
  lemma ParsedLiteral(negative: bool, integer: seq<Byte>, frac: seq<Byte>, post: seq<Byte>)
    requires AllDigits(integer) && integer != [] && AllDigits(frac) && (post == [] || !(IsDigit(post[0]) || post[0] == POINT))
    ensures var sign := if negative then -1 else 1;
            var b := Literal(negative, integer, frac) + post;
            ParseReal(b, |b|)
              == Some(ParsedReal(Real(sign * Number(integer), sign * StoredFraction(frac)), |Literal(negative, integer, Taken(frac))|))
  {
    hide Number, ScanReal, Scaled, Pow10;
    var b := Literal(negative, integer, frac) + post;
    var pre: seq<Byte> := if negative then [MINUS] else [];
    assert b == pre + integer + [POINT] + frac + post;
    assert b[|pre|] == integer[0];
    ScanLiteral(pre, integer, frac, post);
    var k := if |frac| <= 17 then |frac| else 17;
    assert k == |frac| ==> frac[..k] == frac;
    ScaledPower(Number(frac[..k]), if |frac| <= 17 then |frac| else 18);
    PowZero();
  }

  lemma PointStep(b: seq<Byte>, at: nat, len: nat, whole: nat)
    requires at < len <= |b| && b[at] == POINT
    ensures ScanReal(b, at, len, false, RealScan(whole, 0, 1, 0)) == ScanReal(b, at + 1, len, true, RealScan(whole, 0, 1, 0))
  {
  }

  lemma PowZero()
    ensures Pow10(0) == 1
  {
  }

  // ----- printing a real -----

  /** The eighteen digits of a fraction. */
  function Padded(value: nat, k: nat): (t: seq<Byte>)
    ensures |t| == k && AllDigits(t)
    decreases k
  {
    if k == 0 then [] else Padded(value / 10, k - 1) + [48 + value % 10]
  }

  /** Fills the buffer from its end with as many digits as the precision has. */
  method FracIntToAscii(value: nat, dest: array<Byte>) returns (index: nat)
    requires dest.Length == 25
    modifies dest
    ensures index == 6 && dest[index..24] == Padded(value, 18) && dest[24] == 0
  {
    var v := value;
    var p, k := 1, 0;
    index := 24;
    dest[index] := 0;
    index := index - 1;
    Precise();
    while p < PRECISION
      invariant k <= 18 && index == 23 - k && p == Pow10(k) && dest[24] == 0
      invariant Padded(value, 18) == Padded(v, 18 - k) + dest[index + 1..24]
      decreases 18 - k
    {
      NotYet(k);
      dest[index] := 48 + v % 10;
      assert dest[index..24] == [48 + v % 10] + dest[index + 1..24];
      assert Padded(v, 18 - k) + dest[index + 1..24] == Padded(v / 10, 17 - k) + dest[index..24];
      v, index, p, k := v / 10, index - 1, p * 10, k + 1;
    }
    Reached(k);
    index := index + 1;
  }

  lemma NotYet(k: nat)
    requires k <= 18 && Pow10(k) < PRECISION
    ensures k < 18
  {
    Precise();
  }

  lemma Reached(k: nat)
    requires k <= 18 && Pow10(k) >= PRECISION
    ensures k == 18
  {
    Precise();
    if k < 18 {
      PowMonotone(k, 17);
    }
  }

  /** The text the disassembler prints for a W_LDRR operand. */
  function RealText(r: Real): seq<Byte> {
    var negative := r.integer < 0 || r.fraction < 0;
    var i, f := if r.integer < 0 then -r.integer else r.integer, if r.fraction < 0 then -r.fraction else r.fraction;
    Literal(negative, Digits(i), Padded(f, 18))
  }

  lemma {:induction false} NumberOfPadded(value: nat, k: nat)
    requires value < Pow10(k)
    ensures Number(Padded(value, k)) == value
    decreases k
  {
    if k > 0 {
      assert Pow10(k) == 10 * Pow10(k - 1);
      NumberOfPadded(value / 10, k - 1);
      assert Padded(value, k)[..k - 1] == Padded(value / 10, k - 1);
    }
  }

  lemma {:induction false} NumberBound(t: seq<Byte>)
    requires AllDigits(t)
    ensures Number(t) < Pow10(|t|)
    decreases |t|
  {
    if t != [] {
      NumberBound(t[..|t| - 1]);
    }
  }

  /** Two fractions are equal when their digits stand for the same part of one. */
  predicate SameFraction(a: seq<Byte>, b: seq<Byte>)
    requires AllDigits(a) && AllDigits(b)
  {
    Number(a) * Pow10(|b|) == Number(b) * Pow10(|a|)
  }

  /** The stored fraction fits the precision. */
  lemma StoredFits(frac: seq<Byte>)
    requires AllDigits(frac)
    ensures StoredFraction(frac) < Pow10(18)
  {
    var t := Taken(frac);
    NumberBound(t);
    PowMonotone(17, 18);
    if |frac| <= 17 {
      PowSum(|frac|, 18 - |frac|);
      MulLess(Number(frac), Pow10(|frac|), Pow10(18 - |frac|));
    }
  }

  lemma MulLess(a: nat, b: nat, c: nat)
    requires a < b && c > 0
    ensures a * c < b * c
  {
  }

  lemma {:induction false} PowSum(i: nat, j: nat)
    ensures Pow10(i) * Pow10(j) == Pow10(i + j)
    decreases i
  {
    if i > 0 {
      PowSum(i - 1, j);
      assert Pow10(i) == 10 * Pow10(i - 1) && Pow10(i + j) == 10 * Pow10(i + j - 1);
      assert 10 * Pow10(i - 1) * Pow10(j) == 10 * (Pow10(i - 1) * Pow10(j));
    }
  }

  /** The printed text has the sign and the whole part of the literal, and its
      fraction is the literal's if and only if the literal has at most 17
      fraction digits or all of them are zero. */
  lemma RealExact(negative: bool, integer: seq<Byte>, frac: seq<Byte>)
    requires AllDigits(integer) && AllDigits(frac)
    ensures var sign := if negative then -1 else 1;
            var r := Real(sign * Number(integer), sign * StoredFraction(frac));
            && RealText(r) == Literal(r.integer < 0 || r.fraction < 0, Digits(Number(integer)), Padded(StoredFraction(frac), 18))
            && (SameFraction(Padded(StoredFraction(frac), 18), frac) <==> |frac| <= 17 || Number(frac) == 0)
  {
    hide Number, Digits, Padded, StoredFraction, Literal, SameFraction;
    RealPrinted(negative, Number(integer), StoredFraction(frac));
    FractionExact(frac);
  }

  lemma RealPrinted(negative: bool, whole: nat, fraction: nat)
    ensures var sign := if negative then -1 else 1;
            var r := Real(sign * whole, sign * fraction);
            RealText(r) == Literal(r.integer < 0 || r.fraction < 0, Digits(whole), Padded(fraction, 18))
  {
    hide Digits, Padded, Literal;
  }

  lemma FractionExact(frac: seq<Byte>)
    requires AllDigits(frac)
    ensures SameFraction(Padded(StoredFraction(frac), 18), frac) <==> |frac| <= 17 || Number(frac) == 0
  {
    hide Number, Padded, Pow10;
    StoredFits(frac);
    NumberOfPadded(StoredFraction(frac), 18);
    if |frac| <= 17 {
      PowSum(18 - |frac|, |frac|);
      MulSwap(Number(frac), Pow10(18 - |frac|), Pow10(|frac|));
    } else {
      LongFraction(frac);
    }
  }

  /** Unscaled digits stand for the literal's fraction only when it is zero. */
  lemma LongFraction(frac: seq<Byte>)
    requires AllDigits(frac) && |frac| >= 18
    ensures Number(frac[..17]) * Pow10(|frac|) == Number(frac) * Pow10(18) <==> Number(frac) == 0
  {
    hide Number, Pow10;
    var s, n := Number(frac[..17]), Number(frac);
    LeadingDigits(frac, 17);
    PowSum(|frac| - 17, 18);
    PowStep(|frac|);
    Precise();
    assert s * Pow10(|frac| - 17) * Pow10(18) == s * (10 * Pow10(|frac|)) by {
      MulSwap(s, Pow10(|frac| - 17), Pow10(18));
    }
    MulAtMost(s * Pow10(|frac| - 17), n, Pow10(18));
    MulTen(s, Pow10(|frac|));
    if n > 0 {
      MulLess(0, n, Pow10(18));
      MulMoreThanTen(s, Pow10(|frac|));
    } else {
      ZeroFactor(s, Pow10(|frac| - 17));
    }
  }

  /** A number is at least what its leading digits stand for. */
  lemma {:induction false} LeadingDigits(t: seq<Byte>, k: nat)
    requires AllDigits(t) && k <= |t|
    ensures Number(t[..k]) * Pow10(|t| - k) <= Number(t)
    decreases |t|
  {
    if k == |t| {
      assert t[..k] == t;
    } else {
      var init := t[..|t| - 1];
      assert init[..k] == t[..k];
      LeadingDigits(init, k);
      MulSwap(10, Number(t[..k]), Pow10(|t| - 1 - k));
      assert Number(t[..k]) * Pow10(|t| - k) == 10 * (Number(t[..k]) * Pow10(|t| - 1 - k)) by {
        PowStep(|t| - 1 - k);
        MulSwap(Number(t[..k]), 10, Pow10(|t| - 1 - k));
      }
    }
  }

  lemma MulAtMost(a: nat, b: nat, c: nat)
    requires a <= b
    ensures a * c <= b * c
  {
  }

  lemma ZeroFactor(a: nat, b: nat)
    requires a * b <= 0 && b > 0
    ensures a == 0
  {
    assert a > 0 ==> a * b > 0;
  }

  lemma MulMoreThanTen(a: nat, p: nat)
    ensures a * p <= a * (10 * p)
  {
    assert a * (10 * p) == 10 * (a * p);
  }

  lemma MulSwap(a: nat, b: nat, c: nat)
    ensures a * b * c == a * (b * c)
  {
  }

  lemma MulTen(a: nat, p: nat)
    requires p > 0
    ensures a * p == a * (10 * p) <==> a == 0
  {
    assert a * (10 * p) == 10 * (a * p);
    if a > 0 {
      assert a * p > 0;
    }
  }

  // ----- what a literal denotes -----

  function BeforePoint(t: seq<Byte>): (k: nat)
    ensures k <= |t|
  {
    if t == [] || t[0] == POINT then 0 else 1 + BeforePoint(t[1..])
  }

  function Unsigned(t: seq<Byte>): seq<Byte> {
    if t != [] && t[0] == MINUS then t[1..] else t
  }

  /** Digits, a point and digits, after a sign or none. */
  predicate IsLiteral(t: seq<Byte>) {
    var u := Unsigned(t);
    var k := BeforePoint(u);
    k < |u| && AllDigits(u[..k]) && AllDigits(u[k + 1..])
  }

  /** The part of one that fraction digits stand for. */
  function Part(frac: seq<Byte>): real
    requires AllDigits(frac)
  {
    Number(frac) as real / Pow10(|frac|) as real
  }

  /** The rational number the text denotes. */
  function TextValue(t: seq<Byte>): real
    requires IsLiteral(t)
  {
    var u := Unsigned(t);
    var k := BeforePoint(u);
    var v := Number(u[..k]) as real + Part(u[k + 1..]);
    if u == t then v else -v
  }

  lemma {:induction false} PointFound(integer: seq<Byte>, frac: seq<Byte>)
    requires AllDigits(integer)
    ensures BeforePoint(integer + [POINT] + frac) == |integer|
    decreases |integer|
  {
    var t := integer + [POINT] + frac;
    if integer != [] {
      assert t[0] == integer[0] && IsDigit(integer[0]);
      assert t[1..] == integer[1..] + [POINT] + frac;
      PointFound(integer[1..], frac);
    }
  }

  lemma LiteralValue(negative: bool, integer: seq<Byte>, frac: seq<Byte>)
    requires AllDigits(integer) && AllDigits(frac)
    ensures IsLiteral(Literal(negative, integer, frac))
    ensures var v := Number(integer) as real + Part(frac);
            TextValue(Literal(negative, integer, frac)) == if negative then -v else v
  {
    hide Number, Part, BeforePoint, Literal, Unsigned;
    SignTaken(negative, integer, frac);
    PointFound(integer, frac);
    PointSplits(integer, frac);
  }

  lemma SignTaken(negative: bool, integer: seq<Byte>, frac: seq<Byte>)
    requires AllDigits(integer)
    ensures var t, u := Literal(negative, integer, frac), integer + [POINT] + frac;
            Unsigned(t) == u && (u == t <==> !negative)
  {
    var t, u := Literal(negative, integer, frac), integer + [POINT] + frac;
    assert u[0] == if integer == [] then POINT else integer[0];
    if negative {
      assert t == [MINUS] + u;
    } else {
      assert t == u;
    }
  }

  lemma PointSplits(integer: seq<Byte>, frac: seq<Byte>)
    ensures var u := integer + [POINT] + frac;
            |integer| < |u| && u[..|integer|] == integer && u[|integer| + 1..] == frac
  {
  }

  lemma PartExact(a: seq<Byte>, b: seq<Byte>)
    requires AllDigits(a) && AllDigits(b)
    ensures Part(a) == Part(b) <==> SameFraction(a, b)
  {
    hide Number, Pow10;
    RealProduct(Number(a), Pow10(|b|));
    RealProduct(Number(b), Pow10(|a|));
    Crosswise(Number(a) as real, Pow10(|a|) as real, Number(b) as real, Pow10(|b|) as real);
  }

  lemma {:induction false} RealProduct(a: nat, b: nat)
    ensures (a * b) as real == a as real * b as real
    decreases b
  {
    if b > 0 {
      RealProduct(a, b - 1);
      assert a * b == a * (b - 1) + a;
      assert a as real * b as real == a as real * (b - 1) as real + a as real;
    }
  }

  lemma Crosswise(a: real, b: real, c: real, d: real)
    requires b > 0.0 && d > 0.0
    ensures a / b == c / d <==> a * d == c * b
  {
    var x, y := a / b, c / d;
    assert a == x * b && c == y * d;
    assert a * d - c * b == (x - y) * (b * d);
    assert b * d > 0.0;
  }

  /** A zero part is the part of no digit but zero. */
  lemma PartZero(frac: seq<Byte>)
    requires AllDigits(frac)
    ensures Part(frac) >= 0.0 && (Part(frac) == 0.0 <==> Number(frac) == 0)
  {
    hide Number, Pow10;
    var n, p := Number(frac) as real, Pow10(|frac|) as real;
    assert n == (n / p) * p;
  }

  /** Reading a real literal and printing what was read gives a text of the same
      number, sign included, if and only if the literal has at most 17 fraction
      digits or all of them are zero. */
  lemma PrintedExact(negative: bool, integer: seq<Byte>, frac: seq<Byte>, post: seq<Byte>)
    requires AllDigits(integer) && integer != [] && AllDigits(frac) && (post == [] || !(IsDigit(post[0]) || post[0] == POINT))
    ensures var t := Literal(negative, integer, frac);
            var p := ParseReal(t + post, |t + post|);
            && p.Some? && IsLiteral(t) && IsLiteral(RealText(p.value.value))
            && (TextValue(RealText(p.value.value)) == TextValue(t) <==> |frac| <= 17 || Number(frac) == 0)
  {
    hide Number, Digits, Padded, StoredFraction, Literal, SameFraction, IsLiteral, TextValue, Part, ParseReal, RealText;
    ParsedLiteral(negative, integer, frac, post);
    RealExact(negative, integer, frac);
    var n, f := Number(integer), StoredFraction(frac);
    NumberOfDigits(n);
    StoredFits(frac);
    NumberOfPadded(f, 18);
    var printed := negative && (n > 0 || f > 0);
    LiteralValue(negative, integer, frac);
    LiteralValue(printed, Digits(n), Padded(f, 18));
    PartExact(Padded(f, 18), frac);
    PartZero(frac);
    PartZero(Padded(f, 18));
  }

  lemma Precise()
    ensures Pow10(18) == PRECISION && Pow10(17) < PRECISION && Pow10(0) == 1
  {
    assert Pow10(5) == 100000;
    assert Pow10(10) == 10000000000 by {
      assert Pow10(7) == 100 * Pow10(5) && Pow10(9) == 100 * Pow10(7);
    }
    assert Pow10(12) == 100 * Pow10(10) && Pow10(14) == 100 * Pow10(12);
    assert Pow10(16) == 100 * Pow10(14) && Pow10(17) == 10 * Pow10(16) && Pow10(18) == 10 * Pow10(17);
  }

  lemma {:induction false} PowMonotone(i: nat, j: nat)
    requires i <= j
    ensures Pow10(i) <= Pow10(j)
    decreases j - i
  {
    if i < j {
      PowMonotone(i, j - 1);
    }
  }
}
