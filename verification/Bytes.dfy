/** Fixed-width big-endian integers, as `to_be_bytes` and `from_be_bytes`. */
module Bytes {
  import opened Base

  function Pow256(width: nat): (p: nat)
    ensures p > 0
  {
    if width == 0 then 1 else 256 * Pow256(width - 1)
  }

  function BigEndian(n: nat, width: nat): (b: seq<Byte>)
    ensures |b| == width
  {
    if width == 0 then [] else BigEndian(n / 256, width - 1) + [n % 256]
  }

  function FromBigEndian(b: seq<Byte>): nat {
    if |b| == 0 then 0 else 256 * FromBigEndian(b[..|b| - 1]) + b[|b| - 1]
  }

  lemma {:induction false} DecodesEncoded(n: nat, width: nat)
    requires n < Pow256(width)
    ensures FromBigEndian(BigEndian(n, width)) == n
  {
    if width > 0 {
      DecodesEncoded(n / 256, width - 1);
      assert BigEndian(n, width)[..width - 1] == BigEndian(n / 256, width - 1);
    }
  }

  lemma {:induction false} EncodesDecoded(b: seq<Byte>)
    ensures FromBigEndian(b) < Pow256(|b|)
    ensures BigEndian(FromBigEndian(b), |b|) == b
  {
    if |b| > 0 {
      EncodesDecoded(b[..|b| - 1]);
      assert b == b[..|b| - 1] + [b[|b| - 1]];
    }
  }

  /** The first byte is the most significant: byte i counts units of 256 to the power of the bytes after it. */
  lemma {:induction false} ByteAt(n: nat, width: nat, i: nat)
    requires i < width
    ensures BigEndian(n, width)[i] == (n / Pow256(width - 1 - i)) % 256
  {
    if i < width - 1 {
      ByteAt(n / 256, width - 1, i);
      DivideTwice(n, 256, Pow256(width - 2 - i));
    }
  }

  lemma DivideTwice(n: nat, a: nat, b: nat)
    requires a > 0 && b > 0
    ensures n / a / b == n / (a * b)
  {
    var q, r := n / a, n % a;
    var s, t := q / b, q % b;
    assert n == a * (b * s + t) + r;
    DivisionUnique(n, a, b, s, t, r);
  }

  lemma DivisionUnique(n: nat, a: nat, b: nat, s: nat, t: nat, r: nat)
    requires 0 <= t < b && 0 <= r < a && n == a * (b * s + t) + r
    ensures a * b > 0 && n / (a * b) == s
  {
    assert a * (b * s + t) == (a * b) * s + a * t by { Expand(a, b, s, t); }
    assert a * t + r < a * b by {
      assert a * t <= a * (b - 1);
      assert a * (b - 1) == a * b - a;
    }
    QuotientIs(n, a * b, s, a * t + r);
  }

  lemma Expand(a: nat, b: nat, s: nat, t: nat)
    ensures a * (b * s + t) == (a * b) * s + a * t
  {
  }

  lemma QuotientIs(n: nat, d: nat, q: nat, r: nat)
    requires d > 0 && n == d * q + r && r < d
    ensures n / d == q
  {
    var p, m := n / d, n % d;
    assert n == d * p + m;
    assert d * (q - p) == m - r;
    OnlyZero(d, q - p, m - r);
  }

  lemma OnlyZero(d: int, k: int, x: int)
    requires d > 0 && x == d * k && -d < x < d
    ensures k == 0
  {
    Apart(d, k);
  }

  lemma Apart(d: int, k: int)
    requires d > 0
    ensures k >= 1 ==> d * k >= d
    ensures k <= -1 ==> d * k <= -d
  {
  }

  /** Reading: the first byte carries the greatest weight. */
  lemma {:induction false} FirstByteWeighs(b: Byte, rest: seq<Byte>)
    ensures FromBigEndian([b] + rest) == b * Pow256(|rest|) + FromBigEndian(rest)
  {
    var all := [b] + rest;
    if |rest| > 0 {
      var init := rest[..|rest| - 1];
      FirstByteWeighs(b, init);
      assert all[..|all| - 1] == [b] + init && all[|all| - 1] == rest[|rest| - 1];
      Times256(b, Pow256(|init|));
      hide Pow256;
    } else {
      assert all[..0] == [];
    }
  }

  lemma Times256(b: int, p: int)
    ensures b * (256 * p) == 256 * (b * p)
  {
  }

  lemma PowWidths()
    ensures Pow256(1) == 256
    ensures Pow256(4) == 0x1_0000_0000
    ensures Pow256(8) == 0x1_0000_0000_0000_0000
  {
    assert Pow256(2) == 0x1_0000;
    assert Pow256(3) == 0x100_0000;
    assert Pow256(4) == 0x1_0000_0000;
    assert Pow256(5) == 0x100_0000_0000;
    assert Pow256(6) == 0x1_0000_0000_0000;
    assert Pow256(7) == 0x100_0000_0000_0000;
  }

  /** The five pieces of a concatenation, cut out again. */
  lemma Pieces<T>(a: seq<T>, b: seq<T>, c: seq<T>, d: seq<T>, e: seq<T>)
    ensures var s := a + b + c + d + e;
      var (i, j, k, l) := (|a|, |a| + |b|, |a| + |b| + |c|, |a| + |b| + |c| + |d|);
      s[..i] == a && s[i..j] == b && s[j..k] == c && s[k..l] == d && s[l..] == e
  {
  }
}
