/** Bytes as bounded integers, big-endian numbers, and "this text stands at this offset". */
module Bytes {
  import opened Arithmetic

  type byte = n: int | 0 <= n < 256

  type bytes = seq<byte>

  /** `s` stands in `d` at offset `at`. */
  ghost predicate At(d: bytes, at: nat, s: bytes) {
    at + |s| <= |d| && forall k :: 0 <= k < |s| ==> d[at + k] == s[k]
  }

  lemma AtSplit(d: bytes, at: nat, s: bytes, t: bytes)
    requires At(d, at, s + t)
    ensures At(d, at, s) && At(d, at + |s|, t)
  {
    forall k | 0 <= k < |s| ensures d[at + k] == s[k] {
      assert (s + t)[k] == s[k];
    }
    forall k | 0 <= k < |t| ensures d[at + |s| + k] == t[k] {
      assert (s + t)[|s| + k] == t[k];
    }
  }

  lemma AtIndex(d: bytes, at: nat, s: bytes, k: nat)
    requires At(d, at, s) && k < |s|
    ensures d[at + k] == s[k]
  {
  }

  lemma AtWithin(d: bytes, at: nat, s: bytes, k: nat, t: bytes)
    requires At(d, at, s) && At(s, k, t)
    ensures At(d, at + k, t)
  {
    forall i | 0 <= i < |t| ensures d[at + k + i] == t[i] {
      assert d[at + (k + i)] == s[k + i];
    }
  }

  lemma AtFirst3(d: bytes, at: nat, s: bytes)
    requires At(d, at, s) && s != []
    ensures d[at] == s[0]
    ensures |s| > 1 ==> d[at + 1] == s[1]
    ensures |s| > 2 ==> d[at + 2] == s[2]
  {
    assert d[at + 0] == s[0];
  }

  lemma AtSlice(d: bytes, at: nat, s: bytes)
    ensures at + |s| <= |d| ==> (At(d, at, s) <==> d[at..at + |s|] == s)
  {
    if at + |s| <= |d| && d[at..at + |s|] == s {
      forall k | 0 <= k < |s| ensures d[at + k] == s[k] {
        assert d[at..at + |s|][k] == s[k];
      }
    }
  }

  predicate AllZero(s: bytes) {
    forall k :: 0 <= k < |s| ==> s[k] == 0
  }

  function Zeros(n: nat): (z: bytes)
    ensures |z| == n && AllZero(z)
  {
    seq(n, _ => 0)
  }

  function Pow256(n: nat): (p: nat)
    ensures p >= 1
  {
    if n == 0 then 1 else 256 * Pow256(n - 1)
  }

  /** The number a big-endian byte string denotes. */
  function BigEndian(s: bytes): nat {
    if s == [] then 0 else BigEndian(s[..|s| - 1]) * 256 + s[|s| - 1]
  }

  /** The `n` low-order bytes of `v`, most significant first. */
  function ToBigEndian(v: nat, n: nat): (s: bytes)
    ensures |s| == n
  {
    if n == 0 then [] else ToBigEndian(v / 256, n - 1) + [v % 256]
  }

  lemma {:induction false} BigEndianBound(s: bytes)
    ensures BigEndian(s) < Pow256(|s|)
  {
    if s != [] {
      BigEndianBound(s[..|s| - 1]);
    }
  }

  /** Writing and reading back keeps the value exactly when it fits, and truncates otherwise. */
  /** The first byte counts most. */
  lemma {:induction false} BigEndianFirst(s: bytes)
    requires s != []
    ensures BigEndian(s) == s[0] * Pow256(|s| - 1) + BigEndian(s[1..])
  {
    var n := |s| - 1;
    if n == 0 {
      assert BigEndian(s[..n]) == 0 && BigEndian(s[1..]) == 0;
    } else {
      BigEndianFirst(s[..n]);
      assert s[..n][1..] == s[1..][..n - 1] && s[1..][n - 1] == s[n];
      assert Pow256(n) == 256 * Pow256(n - 1);
      assert s[0] * Pow256(n) == (s[0] * Pow256(n - 1)) * 256;
    }
  }

  lemma {:induction false} BigEndianRoundTrip(v: nat, n: nat)
    ensures BigEndian(ToBigEndian(v, n)) == v % Pow256(n)
  {
    if n > 0 {
      BigEndianRoundTrip(v / 256, n - 1);
      var s := ToBigEndian(v, n);
      assert s[..|s| - 1] == ToBigEndian(v / 256, n - 1);
      TruncateStep(v, Pow256(n - 1));
    }
  }

  lemma TruncateStep(v: nat, p: nat)
    requires p >= 1
    ensures (v / 256) % p * 256 + v % 256 == v % (256 * p)
  {
    var q, r := v / 256, v % 256;
    var a, b := q / p, q % p;
    assert v == (a * p + b) * 256 + r == a * (256 * p) + (b * 256 + r);
    assert 0 <= b * 256 + r < 256 * p;
    ModUnique(v, 256 * p, a, b * 256 + r);
  }

  /** A byte string is recovered from its value and its length. */
  lemma {:induction false} ToBigEndianRoundTrip(s: bytes)
    ensures ToBigEndian(BigEndian(s), |s|) == s
  {
    if s != [] {
      ToBigEndianRoundTrip(s[..|s| - 1]);
      assert s == s[..|s| - 1] + [s[|s| - 1]];
    }
  }
}
