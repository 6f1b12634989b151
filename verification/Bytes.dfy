/** Bytes, little-endian numbers and Java's fixed-width and truncating arithmetic. */
module Bytes {

  type Byte = x: int | 0 <= x < 256

  /** The n low-order bytes of v, least significant first: what memcpy of an integer yields. */
  function LittleEndian(v: nat, n: nat): (s: seq<Byte>)
    ensures |s| == n
  {
    if n == 0 then [] else [v % 256] + LittleEndian(v / 256, n - 1)
  }

  /** The unsigned number whose little-endian bytes are s. */
  function Value(s: seq<Byte>): nat {
    if s == [] then 0 else s[0] + 256 * Value(s[1..])
  }

  function Pow256(n: nat): (p: nat)
    ensures p > 0
  {
    if n == 0 then 1 else 256 * Pow256(n - 1)
  }

  lemma Pow256Values()
    ensures Pow256(2) == 0x1_0000 && Pow256(4) == 0x1_0000_0000
  {
    assert Pow256(0) == 1 && Pow256(1) == 256 && Pow256(2) == 256 * 256;
    assert Pow256(3) == 256 * Pow256(2);
  }

  /** A 32-bit pattern read as Java's int. */
  function Int32(v: nat): (r: int)
    ensures -0x8000_0000 <= r < 0x8000_0000
  {
    var m := v % 0x1_0000_0000;
    if m < 0x8000_0000 then m else m - 0x1_0000_0000
  }

  /** The one 32-bit signed value congruent to v modulo 2^32. */
  lemma Int32IsCongruent(v: nat, r: int)
    requires -0x8000_0000 <= r < 0x8000_0000
    ensures r == Int32(v) <==> (v - r) % 0x1_0000_0000 == 0
  {
  }

  /** Java's integer division, which rounds toward zero. */
  function TruncDiv(a: int, n: nat): int
    requires n > 0
  {
    if a >= 0 then a / n else -((-a) / n)
  }

  /** The remainder is smaller than the divisor and has the sign of the dividend. */
  lemma TruncDivRemainder(a: int, n: nat)
    requires n > 0
    ensures a >= 0 ==> 0 <= a - n * TruncDiv(a, n) <= n - 1
    ensures a <= 0 ==> -(n - 1) <= a - n * TruncDiv(a, n) <= 0
  {
  }

  lemma DivModStep(v: nat, p: nat)
    requires p > 0
    ensures v % (256 * p) == v % 256 + 256 * (v / 256 % p)
  {
    var q := v / 256 / p;
    var r := v % 256 + 256 * (v / 256 % p);
    assert v / 256 == q * p + v / 256 % p;
    assert v == q * (256 * p) + r;
    assert 0 <= r < 256 * p;
    ModUnique(v, 256 * p, q, r);
  }

  lemma AtLeastOnce(d: nat, m: nat)
    ensures d >= 1 ==> d * m >= m
  {
    if d >= 1 {
      assert d * m == (d - 1) * m + m;
    }
  }

  lemma ModUnique(v: nat, m: nat, q: nat, r: nat)
    requires 0 <= r < m
    requires v == q * m + r
    ensures v % m == r
  {
    var q' := v / m;
    var d := q - q';
    assert d * m == v % m - r;
    AtLeastOnce(if d >= 0 then d else -d, m);
  }

  /** Writing n bytes and reading them back keeps v modulo 256^n. */
  lemma {:induction false} ValueOfLittleEndian(v: nat, n: nat)
    ensures Value(LittleEndian(v, n)) == v % Pow256(n)
  {
    if n > 0 {
      ValueOfLittleEndian(v / 256, n - 1);
      DivModStep(v, Pow256(n - 1));
      assert LittleEndian(v, n)[1..] == LittleEndian(v / 256, n - 1);
    }
  }

  /** Keeping only the first k bytes is writing v with k bytes. */
  lemma {:induction false} LittleEndianPrefix(v: nat, n: nat, k: nat)
    requires k <= n
    ensures LittleEndian(v, n)[..k] == LittleEndian(v, k)
  {
    if k > 0 {
      LittleEndianPrefix(v / 256, n - 1, k - 1);
      assert LittleEndian(v, n)[..k] == [v % 256] + LittleEndian(v / 256, n - 1)[..k - 1];
    }
  }
}
