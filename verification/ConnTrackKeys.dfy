/** The key under which the UDP proxy tracks a client. */
module ConnTrackKeys {
  import opened Addresses

  datatype UDPAddr = UDPAddr(ip: IP, port: int, zone: string)

  /** Addresses of received datagrams: IPv4 or IPv6. */
  predicate IsWire(a: UDPAddr) {
    |a.ip| == 4 || |a.ip| == 16
  }

  datatype ConnTrackKey = ConnTrackKey(ipHigh: nat, ipLow: nat, port: int)

  /** An address of any other length makes the original panic or read past it. */
  function NewConnTrackKey(a: UDPAddr): ConnTrackKey
    requires IsWire(a)
  {
    if |a.ip| == 4 then ConnTrackKey(0, BigEndian(a.ip), a.port)
    else ConnTrackKey(BigEndian(a.ip[..8]), BigEndian(a.ip[8..]), a.port)
  }

  /** The IPv4-compatible form of a 4-byte address (section 2.5.5.1 of RFC 4291). */
  function Compatible(ip4: IP): IP {
    Zeros(12) + ip4
  }

  lemma CompatibleKey(ip4: IP, port: int, zone: string)
    requires |ip4| == 4
    ensures NewConnTrackKey(UDPAddr(Compatible(ip4), port, zone)) == ConnTrackKey(0, BigEndian(ip4), port)
  {
    assert Compatible(ip4)[..8] == Zeros(8) + [];
    assert Compatible(ip4)[8..] == Zeros(4) + ip4;
    LeadingZeros(8, []);
    LeadingZeros(4, ip4);
  }

  lemma LongKeyInjective(a: UDPAddr, b: UDPAddr)
    requires |a.ip| == 16 && |b.ip| == 16
    ensures NewConnTrackKey(a) == NewConnTrackKey(b) <==> a.port == b.port && a.ip == b.ip
  {
    if NewConnTrackKey(a) == NewConnTrackKey(b) {
      BigEndianInjective(a.ip[..8], b.ip[..8]);
      BigEndianInjective(a.ip[8..], b.ip[8..]);
      assert a.ip == a.ip[..8] + a.ip[8..] && b.ip == b.ip[..8] + b.ip[8..];
    }
  }

  lemma MixedKeys(a: UDPAddr, b: UDPAddr)
    requires |a.ip| == 4 && |b.ip| == 16
    ensures NewConnTrackKey(a) == NewConnTrackKey(b) <==> a.port == b.port && b.ip == Compatible(a.ip)
  {
    CompatibleKey(a.ip, a.port, "");
    LongKeyInjective(UDPAddr(Compatible(a.ip), a.port, ""), b);
  }

  /** Which senders share a key: those with the same port and the same address, where an IPv4
      address and its IPv4-compatible IPv6 form count as the same. The zone plays no part. */
  lemma SameKey(a: UDPAddr, b: UDPAddr)
    requires IsWire(a) && IsWire(b)
    ensures NewConnTrackKey(a) == NewConnTrackKey(b) <==>
            a.port == b.port &&
            (a.ip == b.ip || (|a.ip| == 4 && b.ip == Compatible(a.ip)) || (|b.ip| == 4 && a.ip == Compatible(b.ip)))
  {
    if |a.ip| == 16 && |b.ip| == 16 {
      LongKeyInjective(a, b);
    } else if |a.ip| == 4 && |b.ip| == 16 {
      MixedKeys(a, b);
    } else if |a.ip| == 16 && |b.ip| == 4 {
      MixedKeys(b, a);
    } else if NewConnTrackKey(a) == NewConnTrackKey(b) {
      BigEndianInjective(a.ip, b.ip);
    }
  }
}
