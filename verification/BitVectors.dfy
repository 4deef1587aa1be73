// Byte strings as the checksum loops see them: eight-bit vectors.

module BitVectors {
  import opened Bytes

  function Octets(s: seq<byte>): (r: seq<bv8>)
    ensures |r| == |s|
  {
    seq(|s|, k requires 0 <= k < |s| => s[k] as bv8)
  }

  lemma OctetsConcat(a: seq<byte>, b: seq<byte>)
    ensures Octets(a + b) == Octets(a) + Octets(b)
  {}

  lemma OctetRoundTrip(a: byte)
    ensures (a as bv8) as int == a
  {}

  lemma OctetsInjective(u: seq<byte>, v: seq<byte>)
    requires |u| == |v| && Octets(u) == Octets(v)
    ensures u == v
  {
    forall k | 0 <= k < |u| ensures u[k] == v[k] {
      assert Octets(u)[k] == Octets(v)[k];
      OctetRoundTrip(u[k]);
      OctetRoundTrip(v[k]);
    }
  }
}
