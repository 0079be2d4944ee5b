// Bytes and fixed-width integers over them. A shift by a whole number of bytes is
// written as division by a power of 256.
module Bytes {

  type Byte = x: int | 0 <= x < 256

  const U16_LIMIT: nat := 0x1_0000
  const U32_LIMIT: nat := 0x1_0000_0000
  const U64_LIMIT: nat := 0x1_0000_0000_0000_0000

  function Pow256(n: nat): (p: nat)
    ensures p > 0
  {
    if n == 0 then 1 else 256 * Pow256(n - 1)
  }

  lemma Widths()
    ensures Pow256(2) == U16_LIMIT && Pow256(4) == U32_LIMIT && Pow256(8) == U64_LIMIT
  {
    assert Pow256(2) == 256 * Pow256(1);
    assert Pow256(4) == 256 * Pow256(3);
    assert Pow256(6) == 256 * Pow256(5);
    assert Pow256(8) == 256 * Pow256(7);
  }

  /** The base-256 digits of a value, least significant first. */
  function Le(value: nat, width: nat): (bytes: seq<Byte>)
    ensures |bytes| == width
  {
    if width == 0 then [] else [value % 256] + Le(value / 256, width - 1)
  }

  function FromLe(bytes: seq<Byte>): nat {
    if bytes == [] then 0 else bytes[0] + 256 * FromLe(bytes[1..])
  }

  lemma {:induction false} FromLeBound(bytes: seq<Byte>)
    ensures FromLe(bytes) < Pow256(|bytes|)
  {
    if bytes != [] {
      FromLeBound(bytes[1..]);
    }
  }

  lemma {:induction false} LeRoundTrip(value: nat, width: nat)
    requires value < Pow256(width)
    ensures FromLe(Le(value, width)) == value
  {
    if width > 0 {
      LeRoundTrip(value / 256, width - 1);
      assert Le(value, width)[1..] == Le(value / 256, width - 1);
    }
  }

  /** Every byte string is the encoding of the value it decodes to. */
  lemma {:induction false} LeIsOnto(bytes: seq<Byte>)
    ensures Le(FromLe(bytes), |bytes|) == bytes
  {
    if bytes != [] {
      LeIsOnto(bytes[1..]);
    }
  }

  // ---- division -------------------------------------------------------------

  lemma Distribute(d: nat, x: nat, y: nat)
    ensures d * (x + y) == d * x + d * y
  {
  }

  lemma Commute(a: nat, b: nat)
    ensures a * b == b * a
  {
  }

  lemma Associate(a: nat, b: nat, c: nat)
    ensures a * (b * c) == (a * b) * c
  {
  }

  lemma AtLeast(d: nat, k: nat)
    ensures k > 0 ==> d * k >= d
  {
  }

  lemma Divided(value: nat, d: nat)
    requires d > 0
    ensures value == d * (value / d) + value % d
  {
  }

  /** Quotient and remainder are unique. */
  lemma QuotientIs(value: nat, d: nat, q: nat, r: nat)
    requires d > 0 && value == d * q + r && r < d
    ensures value / d == q && value % d == r
  {
    var q' := value / d;
    Divided(value, d);
    if q' > q {
      Distribute(d, q, q' - q);
      AtLeast(d, q' - q);
    } else if q > q' {
      Distribute(d, q', q - q');
      AtLeast(d, q - q');
    }
  }

  lemma DivideTwice(value: nat, a: nat, b: nat)
    requires a > 0 && b > 0
    ensures a * b > 0 && value / a / b == value / (a * b)
  {
    var q, r := value / a, value % a;
    var q', r' := q / b, q % b;
    Divided(value, a);
    Divided(q, b);
    Distribute(a, b * q', r');
    Associate(a, b, q');
    AtLeast(a, b);
    Distribute(a, r', b - r');
    AtLeast(a, b - r');
    QuotientIs(value, a * b, q', a * r' + r);
  }

  lemma RemainderOfSum(n: nat, k: nat, d: nat)
    requires d > 0
    ensures (n % d + k) % d == (n + k) % d
  {
    var q, r := n / d, n % d;
    var q', r' := (r + k) / d, (r + k) % d;
    Divided(n, d);
    Divided(r + k, d);
    Distribute(d, q, q');
    QuotientIs(n + k, d, q + q', r');
  }

  lemma ScaledParts(k: nat, d: nat, q: nat, r: nat)
    ensures k * (d * q + r) == d * (q * k) + r * k
  {
    Distribute(k, d * q, r);
    Commute(k, d * q);
    Associate(d, q, k);
    Commute(k, r);
  }

  lemma RemainderOfScaled(n: nat, k: nat, d: nat)
    requires d > 0
    ensures n % d * k % d == k * n % d
  {
    var q, r := n / d, n % d;
    var scaled := r * k;
    Divided(n, d);
    ScaledParts(k, d, q, r);
    SameRemainder(scaled, d, q * k);
  }

  lemma SameRemainder(n: nat, d: nat, q: nat)
    requires d > 0
    ensures n % d == (d * q + n) % d
  {
    Divided(n, d);
    Distribute(d, q, n / d);
    QuotientIs(d * q + n, d, q + n / d, n % d);
  }

  /** The `k`-th digit is what a shift by `k` bytes and a mask leave. */
  lemma {:induction false} LeDigit(value: nat, width: nat, k: nat)
    requires k < width
    ensures Le(value, width)[k] == value / Pow256(k) % 256
  {
    if k > 0 {
      LeDigit(value / 256, width - 1, k - 1);
      DivideTwice(value, 256, Pow256(k - 1));
    }
  }

  lemma ScaleUp(low: nat, p: nat, high: nat)
    ensures 256 * (low + p * high) == 256 * low + (256 * p) * high
  {
  }

  lemma {:induction false} FromLeSplit(bytes: seq<Byte>, k: nat)
    requires k <= |bytes|
    ensures FromLe(bytes) == FromLe(bytes[..k]) + Pow256(k) * FromLe(bytes[k..])
  {
    if k > 0 {
      FromLeSplit(bytes[1..], k - 1);
      assert bytes[..k][1..] == bytes[1..][..k - 1] && bytes[k..] == bytes[1..][k - 1..];
      ScaleUp(FromLe(bytes[..k][1..]), Pow256(k - 1), FromLe(bytes[k..]));
    } else {
      assert bytes[k..] == bytes;
    }
  }

  // ---- src/codec.cpp: stores and loads at a position ------------------------

  /** store_u32_le and store_u64_le, with the width as an argument. */
  method StoreLe(out: array<Byte>, at: nat, value: nat, width: nat)
    requires at + width <= out.Length
    modifies out
    ensures out[..] == old(out[..at]) + Le(value, width) + old(out[at + width..])
  {
    for i := 0 to width
      invariant forall k | 0 <= k < i :: out[at + k] == Le(value, width)[k]
      invariant forall k | 0 <= k < at || at + i <= k < out.Length :: out[k] == old(out[k])
    {
      LeDigit(value, width, i);
      out[at + i] := value / Pow256(i) % 256;
    }
  }

  /** load_u32_le and load_u64_le. */
  method LoadLe(data: seq<Byte>, at: nat, width: nat) returns (value: nat)
    requires at + width <= |data|
    ensures value == FromLe(data[at..at + width]) < Pow256(width)
  {
    value := 0;
    var field := data[at..at + width];
    for i := 0 to width
      invariant value == FromLe(field[..i])
    {
      FromLeSplit(field[..i + 1], i);
      assert field[..i + 1][..i] == field[..i] && field[..i + 1][i..] == [field[i]];
      value := value + data[at + i] * Pow256(i);
    }
    assert field[..width] == field;
    FromLeBound(field);
  }
}
