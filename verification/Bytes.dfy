/** Bytes and little-endian integers. */
module Bytes {

  newtype byte = b: int | 0 <= b < 256

  type bytes = seq<byte>

  /** byte(n) */
  function Low(n: int): byte {
    (n % 256) as byte
  }

  function Pow256(k: nat): (p: int)
    ensures p > 0
  {
    if k == 0 then 1 else 256 * Pow256(k - 1)
  }

  /** The low `k` bytes of `n`, least significant first. */
  function LittleEndian(n: int, k: nat): (b: bytes)
    ensures |b| == k
    decreases k
  {
    if k == 0 then [] else [Low(n)] + LittleEndian(n / 256, k - 1)
  }

  function FromLittleEndian(b: bytes): (n: int)
    ensures 0 <= n < Pow256(|b|)
  {
    if b == [] then 0 else b[0] as int + 256 * FromLittleEndian(b[1..])
  }

  lemma ModSplit(n: int, p: int)
    requires p > 0
    ensures n % (256 * p) == n % 256 + 256 * ((n / 256) % p)
  {
    var q, r := n / 256, n % 256;
    var s, t := q / p, q % p;
    assert n == 256 * q + r && q == p * s + t;
    assert n == (256 * p) * s + (256 * t + r) by {
      assert 256 * (p * s) == (256 * p) * s;
    }
    assert 0 <= 256 * t + r < 256 * p;
    ModUnique(n, 256 * p, s, 256 * t + r);
  }

  lemma ModUnique(n: int, m: int, q: int, r: int)
    requires m > 0 && 0 <= r < m && n == m * q + r
    ensures n % m == r
  {
    var d := q - n / m;
    assert m * d == n % m - r by {
      assert n == m * (n / m) + n % m;
      Distribute(m, q, n / m);
    }
    Bounded(m, d);
  }

  lemma Distribute(m: int, a: int, b: int)
    ensures m * (a - b) == m * a - m * b
  {
  }

  lemma Bounded(m: int, d: int)
    requires m > 0 && -m < m * d < m
    ensures d == 0
  {
    assert d >= 1 ==> m * d >= m;
    assert d <= -1 ==> m * d <= -m;
  }

  /** Reading back `k` little-endian bytes gives the number modulo 256^k. */
  lemma {:induction false} LittleEndianRoundTrip(n: int, k: nat)
    ensures FromLittleEndian(LittleEndian(n, k)) == n % Pow256(k)
    decreases k
  {
    if k > 0 {
      LittleEndianRoundTrip(n / 256, k - 1);
      assert LittleEndian(n, k)[1..] == LittleEndian(n / 256, k - 1);
      ModSplit(n, Pow256(k - 1));
    }
  }

  /** Two's complement: the signed reading of an unsigned value of `k` bytes. */
  function Signed(u: int, k: nat): int {
    if 2 * u < Pow256(k) then u else u - Pow256(k)
  }

  lemma SignedRoundTrip(v: int, k: nat)
    requires -Pow256(k) <= 2 * v < Pow256(k)
    ensures Signed(v % Pow256(k), k) == v
  {
    var p := Pow256(k);
    if v < 0 {
      ModUnique(v, p, -1, v + p);
    } else {
      ModUnique(v, p, 0, v);
    }
  }

  /** Byte `i` is the `i`-th from the right in base 256. */
  lemma {:induction false} LittleEndianAt(n: int, k: nat, i: nat)
    requires i < k
    ensures LittleEndian(n, k)[i] as int == (n / Pow256(i)) % 256
    decreases k
  {
    if i > 0 {
      LittleEndianAt(n / 256, k - 1, i - 1);
      DivideTwice(n, Pow256(i - 1));
    }
  }

  lemma DivideTwice(n: int, p: int)
    requires p > 0
    ensures (n / 256) / p == n / (256 * p)
  {
    var q, r := n / 256, n % 256;
    var s, t := q / p, q % p;
    assert n == 256 * q + r && q == p * s + t;
    assert n == (256 * p) * s + (256 * t + r) by {
      assert 256 * (p * s) == (256 * p) * s;
    }
    QuotientUnique(n, 256 * p, s, 256 * t + r);
  }

  lemma QuotientUnique(n: int, m: int, q: int, r: int)
    requires m > 0 && 0 <= r < m && n == m * q + r
    ensures n / m == q
  {
    ModUnique(n, m, q, r);
    assert n == m * (n / m) + r;
    Distribute(m, q, n / m);
    Bounded(m, q - n / m);
  }

}
