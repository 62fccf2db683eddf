/** Little-endian integers in byte streams, as the code stream stores them. */
module Bytes {

  type Byte = x: int | 0 <= x < 256

  function Pow256(k: nat): (r: nat)
    ensures r > 0
  {
    if k == 0 then 1 else 256 * Pow256(k - 1)
  }

  /** The k low-order bytes of v, least significant first; a negative v is
      written in two's complement. */
  function Le(v: int, k: nat): (r: seq<Byte>)
    ensures |r| == k
    decreases k
  {
    if k == 0 then [] else [v % 256] + Le(v / 256, k - 1)
  }

  function FromLe(b: seq<Byte>): nat {
    if b == [] then 0 else b[0] + 256 * FromLe(b[1..])
  }

  /** The byte at each place counts 256 times as much as the one before. */
  lemma {:induction false} FromLeDigits(b: seq<Byte>, i: nat)
    requires i < |b|
    ensures (FromLe(b) / Pow256(i)) % 256 == b[i]
    decreases i
  {
    if i > 0 {
      FromLeDigits(b[1..], i - 1);
      HighBytes(FromLe(b), b[0], FromLe(b[1..]), Pow256(i - 1));
    }
  }

  lemma HighBytes(n: nat, low: Byte, high: nat, p: nat)
    requires n == low + 256 * high && p > 0
    ensures n / (256 * p) == high / p
  {
    var q, r := high / p, high % p;
    assert high == q * p + r;
    assert n == q * (256 * p) + (256 * r + low);
    assert 256 * r + low < 256 * p;
    QuotientOf(n, 256 * p, q, 256 * r + low);
  }

  lemma QuotientOf(n: nat, d: nat, q: nat, r: nat)
    requires n == q * d + r && r < d
    ensures n / d == q
  {
    var k := n / d;
    assert n == k * d + n % d;
    if k < q {
      ProductGrows(k + 1, q, d);
    } else if k > q {
      ProductGrows(q + 1, k, d);
    }
  }

  lemma ProductGrows(a: nat, b: nat, d: nat)
    requires a <= b
    ensures a * d <= b * d
  {
  }

  /** A 32-bit word read back as a signed number. */
  function Signed32(v: nat): int {
    if v < 0x8000_0000 then v else v - 0x1_0000_0000
  }

  lemma {:induction false} LeRoundTrip(v: int, k: nat)
    requires 0 - Pow256(k) <= v < Pow256(k)
    ensures FromLe(Le(v, k)) == if v < 0 then v + Pow256(k) else v
    decreases k
  {
    if k > 0 {
      assert Le(v, k)[1..] == Le(v / 256, k - 1);
      LeRoundTrip(v / 256, k - 1);
    }
  }

  lemma Signed32RoundTrip(v: int)
    requires -0x8000_0000 <= v < 0x8000_0000
    ensures Signed32(FromLe(Le(v, 4))) == v
  {
    assert Pow256(4) == 0x1_0000_0000 by {
      assert Pow256(2) == 0x1_0000;
    }
    LeRoundTrip(v, 4);
  }

  lemma {:induction false} FromLeBound(b: seq<Byte>)
    ensures FromLe(b) < Pow256(|b|)
  {
    if b != [] {
      FromLeBound(b[1..]);
    }
  }

  /** Overwrites the four bytes at pos. */
  function StoreLe32(code: seq<Byte>, pos: nat, v: int): (r: seq<Byte>)
    requires pos + 4 <= |code|
    ensures |r| == |code|
  {
    code[..pos] + Le(v, 4) + code[pos + 4..]
  }

  function LoadLe32(code: seq<Byte>, pos: nat): nat
    requires pos + 4 <= |code|
  {
    FromLe(code[pos..pos + 4])
  }
}
