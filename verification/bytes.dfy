/** Little-endian numbers and slices of byte sequences. */
module Bytes {
  import opened Common
  import opened Division

  function Pow256(k: nat): (r: nat)
    ensures r > 0
  {
    if k == 0 then 1 else 256 * Pow256(k - 1)
  }

  /** The k low bytes of n, lowest first. */
  function ToLE(n: nat, k: nat): (s: seq<byte>)
    ensures |s| == k
    decreases k
  {
    if k == 0 then [] else [n % 256] + ToLE(n / 256, k - 1)
  }

  function FromLE(s: seq<byte>): nat {
    if s == [] then 0 else s[0] + 256 * FromLE(s[1..])
  }

  lemma {:induction false} FromLEBound(s: seq<byte>)
    ensures FromLE(s) < Pow256(|s|)
  {
    if s != [] {
      FromLEBound(s[1..]);
    }
  }

  /** Reading back what was written gives the number, when it fits. */
  lemma {:induction false} LERoundTrip(n: nat, k: nat)
    requires n < Pow256(k)
    ensures FromLE(ToLE(n, k)) == n
  {
    if k > 0 {
      LERoundTrip(n / 256, k - 1);
      assert ToLE(n, k)[1..] == ToLE(n / 256, k - 1);
    }
  }

  /** Writing back what was read gives the bytes. */
  lemma {:induction false} LEBytes(s: seq<byte>)
    ensures ToLE(FromLE(s), |s|) == s
  {
    if s != [] {
      LEBytes(s[1..]);
      assert FromLE(s) / 256 == FromLE(s[1..]);
    }
  }

  /** Byte i counts 256^i. */
  lemma {:induction false} LEByteAt(n: nat, k: nat, i: nat)
    requires i < k
    ensures ToLE(n, k)[i] == n / Pow256(i) % 256
  {
    if i > 0 {
      LEByteAt(n / 256, k - 1, i - 1);
      DivideBy256And(n, Pow256(i - 1));
    }
  }

  lemma DivideBy256And(n: nat, d: nat)
    requires 0 < d
    ensures n / 256 / d == n / (256 * d)
  {
    var q := n / 256 / d;
    var r := n / 256 - q * d;
    assert n == q * (256 * d) + (256 * r + n % 256);
    RemainderIs(q, 256 * r + n % 256, 256 * d);
  }

  lemma PowU32()
    ensures Pow256(4) == 0x1_0000_0000
  {
  }

  lemma PowU64()
    ensures Pow256(8) == 0x1_0000_0000_0000_0000
  {
  }

  function Zeros(n: nat): (z: seq<byte>)
    ensures |z| == n && forall i :: 0 <= i < n ==> z[i] == 0
  {
    seq(n, _ => 0)
  }

  /** Bytes a..b of s, as many as there are. */
  function Slice(s: seq<byte>, a: nat, b: nat): (r: seq<byte>)
    requires a <= b
    ensures |r| <= b - a
    ensures b <= |s| ==> r == s[a..b]
  {
    s[Min(a, |s|)..Min(b, |s|)]
  }
}
