/** Big-endian two's-complement words, the byte layer under the ABI codec. */
module Words {
  import opened Types

  /** 256 to the `n`-th: how many values `n` bytes can hold. */
  function Span(n: nat): (r: int)
    ensures r > 0
  {
    if n == 0 then 1 else 256 * Span(n - 1)
  }

  /** The `k`-th byte of `v`, counting from the least significant one. */
  function Digit(v: int, k: nat): byte
    decreases k
  {
    if k == 0 then v % 256 else Digit(v / 256, k - 1)
  }

  /** The low `n` bytes of `v`, most significant first. */
  function Bytes(v: int, n: nat): (r: seq<byte>)
    ensures |r| == n
  {
    seq(n, i requires 0 <= i < n => Digit(v, n - 1 - i))
  }

  lemma BytesSnoc(v: int, n: nat)
    requires n > 0
    ensures Bytes(v, n) == Bytes(v / 256, n - 1) + [v % 256]
  {
    var w := Bytes(v / 256, n - 1);
    forall i | 0 <= i < n
      ensures Bytes(v, n)[i] == (w + [v % 256])[i]
    {
      assert Bytes(v, n)[i] == Digit(v, n - 1 - i);
      if i < n - 1 {
        assert w[i] == Digit(v / 256, n - 1 - 1 - i);
      } else {
        assert Digit(v, 0) == v % 256;
      }
    }
  }

  /** The unsigned reading of a big-endian byte string. */
  function Unsigned(s: seq<byte>): nat {
    if s == [] then 0 else 256 * Unsigned(s[..|s| - 1]) + s[|s| - 1] as nat
  }

  /** The two's-complement reading of a big-endian byte string. */
  function Signed(s: seq<byte>): int {
    var u := Unsigned(s);
    if 2 * u < Span(|s|) then u else u - Span(|s|)
  }

  function Zeros(n: nat): (r: seq<byte>)
    ensures |r| == n
  {
    seq(n, _ => 0 as byte)
  }

  /** `s` with zeros put in front of it up to `n` bytes; longer strings are left alone. */
  function LeftPad(s: seq<byte>, n: nat): seq<byte> {
    if n <= |s| then s else Zeros(n - |s|) + s
  }

  /** `s` with zeros put behind it up to `n` bytes; longer strings are left alone. */
  function RightPad(s: seq<byte>, n: nat): seq<byte> {
    if n <= |s| then s else s + Zeros(n - |s|)
  }

  lemma SplitMod(v: int, p: int)
    requires p > 0
    ensures v % (256 * p) == 256 * ((v / 256) % p) + v % 256
  {
    var q, r := v / 256, v % 256;
    var a, b := q / p, q % p;
    assert v == (256 * p) * a + (256 * b + r) by {
      assert q == p * a + b;
      assert v == 256 * (p * a + b) + r;
      assert 256 * (p * a) == (256 * p) * a;
    }
    assert 256 * b + r < 256 * p;
    UniqueMod(v, 256 * p, a, 256 * b + r);
  }

  lemma SameQuotient(m: int, d: int, e: int)
    requires m > 0 && m * d == e && -m < e < m
    ensures d == 0
  {
    assert d >= 1 ==> m * d >= m;
    assert d <= -1 ==> m * d <= -m;
  }

  lemma UniqueMod(v: int, m: int, a: int, b: int)
    requires m > 0 && v == m * a + b && 0 <= b < m
    ensures v % m == b
  {
    var q, r := v / m, v % m;
    assert v == m * q + r;
    SameQuotient(m, q - a, b - r) by {
      assert m * (q - a) == m * q - m * a;
    }
  }

  /** Reading back what was written gives the value modulo the word's span. */
  lemma {:induction false} UnsignedBytes(v: int, n: nat)
    ensures Unsigned(Bytes(v, n)) == v % Span(n)
    decreases n
  {
    if n > 0 {
      UnsignedBytes(v / 256, n - 1);
      BytesSnoc(v, n);
      assert Bytes(v, n)[..n - 1] == Bytes(v / 256, n - 1);
      SplitMod(v, Span(n - 1));
    }
  }

  /** The last `k` bytes of a word are the word of the low `k` bytes. */
  lemma LowBytes(v: int, n: nat, k: nat)
    requires k <= n
    ensures Bytes(v, n)[n - k..] == Bytes(v, k)
  {
  }

  lemma UnsignedRoundTrip(v: int, n: nat)
    requires 0 <= v < Span(n)
    ensures Unsigned(Bytes(v, n)) == v
  {
    UnsignedBytes(v, n);
    UniqueMod(v, Span(n), 0, v);
  }

  lemma SignedRoundTrip(v: int, n: nat)
    requires -Span(n) <= 2 * v < Span(n)
    ensures Signed(Bytes(v, n)) == v
  {
    UnsignedBytes(v, n);
    if v >= 0 {
      UniqueMod(v, Span(n), 0, v);
    } else {
      UniqueMod(v, Span(n), -1, v + Span(n));
    }
  }

  lemma {:induction false} SpanMonotone(m: nat, n: nat)
    requires m <= n
    ensures Span(m) <= Span(n)
  {
    if m < n {
      SpanMonotone(m, n - 1);
    }
  }

  lemma {:induction false} UnsignedBound(s: seq<byte>)
    ensures Unsigned(s) < Span(|s|)
  {
    if s != [] {
      UnsignedBound(s[..|s| - 1]);
    }
  }

  /** A byte string reads as zero exactly when it is all zeros. */
  lemma {:induction false} UnsignedZero(s: seq<byte>)
    ensures Unsigned(s) == 0 <==> s == Zeros(|s|)
  {
    if s != [] {
      var front := s[..|s| - 1];
      UnsignedZero(front);
      assert s == front + [s[|s| - 1]];
      assert Zeros(|s|)[..|s| - 1] == Zeros(|s| - 1);
      if s == Zeros(|s|) {
        assert front == Zeros(|s|)[..|s| - 1];
        assert s[|s| - 1] == Zeros(|s|)[|s| - 1];
      }
    }
  }
}
