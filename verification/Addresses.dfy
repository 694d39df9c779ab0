/** IP addresses as Go holds them. */
module Addresses {
  type byte = x: int | 0 <= x < 256

  /** 4 or 16 bytes; no bytes for text that is no address. */
  type IP = seq<byte>

  /** The big-endian number written by `s`. */
  function BigEndian(s: seq<byte>): nat {
    if s == [] then 0 else 256 * BigEndian(s[..|s| - 1]) + s[|s| - 1]
  }

  lemma {:induction false} BigEndianInjective(a: seq<byte>, b: seq<byte>)
    requires |a| == |b| && BigEndian(a) == BigEndian(b)
    ensures a == b
    decreases |a|
  {
    if a != [] {
      var n := |a| - 1;
      assert a[n] == b[n] && BigEndian(a[..n]) == BigEndian(b[..n]);
      BigEndianInjective(a[..n], b[..n]);
      assert a == a[..n] + [a[n]] && b == b[..n] + [b[n]];
    }
  }

  function Zeros(n: nat): seq<byte> {
    seq(n, _ => 0)
  }

  lemma {:induction false} LeadingZeros(n: nat, s: seq<byte>)
    ensures BigEndian(Zeros(n) + s) == BigEndian(s)
    decreases |s|, n
  {
    var t := Zeros(n) + s;
    if s != [] {
      LeadingZeros(n, s[..|s| - 1]);
      assert t[..|t| - 1] == Zeros(n) + s[..|s| - 1];
    } else if n > 0 {
      LeadingZeros(n - 1, []);
      assert t[..n - 1] == Zeros(n - 1) + [];
    }
  }
}
