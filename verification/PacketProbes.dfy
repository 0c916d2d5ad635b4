// Which packets are turned to the portal, told by the fields a sender fills in: the headers of
// section 3.1 of RFC 791, section 3.1 of RFC 793 and RFC 768.

module PacketProbes {
  import opened Basics
  import opened Words
  import opened Checksum
  import opened ClientAcl
  import opened PacketHook

  function Bytes16(v: nat): (b: seq<Byte>)
    requires v <= 65535
    ensures |b| == 2 && Word(b[0], b[1]) == v
  {
    [v / 256, v % 256]
  }

  type Port = n: nat | n <= 65535

  // A TCP segment: ports, then sequence and acknowledgment numbers, offset, flags and window,
  // then the checksum, then the urgent pointer, options and data.
  datatype Tcp = Tcp(source: Port, destination: Port, middle: seq<Byte>, checksum: Port, rest: seq<Byte>)

  function TcpBytes(s: Tcp): seq<Byte> {
    Bytes16(s.source) + Bytes16(s.destination) + s.middle + Bytes16(s.checksum) + s.rest
  }

  predicate WholeTcp(s: Tcp) { |s.middle| == 12 && |s.rest| >= 2 }

  // A UDP datagram: ports, length, checksum and data.
  datatype Udp = Udp(source: Port, destination: Port, length: Port, checksum: Port, data: seq<Byte>)

  function UdpBytes(d: Udp): seq<Byte> {
    Bytes16(d.source) + Bytes16(d.destination) + Bytes16(d.length) + Bytes16(d.checksum) + d.data
  }

  // An IP header: the low half of its first byte counts its 32-bit words.
  predicate IsHeader(h: seq<Byte>) { |h| >= 20 && |h| == h[0] % 16 * 4 }

  // The fragment at offset 0, whatever the three flags before the offset are.
  predicate FirstFragment(h: seq<Byte>)
    requires |h| >= 20
  {
    h[6] % 32 == 0 && h[7] == 0
  }

  // --- Any packet ---

  // A TCP segment to port 80 or a UDP datagram to port 53, the first fragment of it, with its
  // transport header in the buffer.
  predicate IsProbe(p: Packet)
    requires |p| >= 20
  {
    var hl := p[0] % 16 * 4;
    && 20 <= hl && p[6] % 32 == 0 && p[7] == 0
    && if p[9] == 6 then hl + 20 <= |p| && p[hl + 2] == 0 && p[hl + 3] == 80
       else p[9] == 17 && hl + 8 <= |p| && p[hl + 2] == 0 && p[hl + 3] == 53
  }

  lemma IsSmallWord(hi: Byte, lo: Byte, v: nat)
    requires v < 256
    ensures Word(hi, lo) == v <==> hi == 0 && lo == v
  {
  }

  // Its checksum is the two bytes at offset 16 of a TCP header, at offset 6 of a UDP header.
  lemma {:induction false} ProbeIff(p: Packet)
    requires |p| >= 20
    ensures ProbeChecksumAt(p).Some? <==> IsProbe(p)
    ensures IsProbe(p) ==> ProbeChecksumAt(p) == Some(p[0] % 16 * 4 + if p[9] == 6 then 16 else 6)
  {
    var hl := HeaderLength(p);
    if hl >= 20 && hl + 4 <= |p| {
      IsSmallWord(p[hl + 2], p[hl + 3], 80);
      IsSmallWord(p[hl + 2], p[hl + 3], 53);
    }
  }

  // A packet on the client side that does not stay local, has a source and comes from a client
  // that is not admitted is handed on if and only if it is such a probe.
  lemma {:induction false} OnlyProbesPass(p: Packet, portal: Address, localCast: bool, acl: Table)
    requires |p| >= 20 && Destination(p) != portal && !localCast
    requires IpOf(Source(p)) != 0 && !Admits(acl, IpOf(Source(p)))
    ensures Filtered(p, true, portal, localCast, acl).Some? <==> IsProbe(p)
  {
    ProbeIff(p);
    HookConfines(p, portal, localCast, acl);
  }

  // What comes in elsewhere, or is shorter than a header, is none of the hook's business.
  lemma {:induction false} OthersPass(p: Packet, onPortalNet: bool, portal: Address, localCast: bool, acl: Table)
    requires |p| < 20 || !onPortalNet
    ensures Filtered(p, onPortalNet, portal, localCast, acl) == Some(p)
  {
  }

  // --- Packets as their senders assemble them ---

  // The header with another destination, and its checksum adjusted for that.
  function TurnedHeader(h: seq<Byte>, portal: Address): (r: seq<Byte>)
    requires |h| >= 20
    ensures |r| == |h|
  {
    WithDestination(AdjustAt(h, 10, Destination(h), portal), portal)
  }

  lemma {:induction false} RedirectedParts(h: seq<Byte>, t: seq<Byte>, at: nat, portal: Address)
    requires |h| >= 20 && at + 2 <= |t|
    ensures var carries := h[9] == 6 || WordAt(t, at) != 0;
      Redirected(h + t, |h| + at, portal) ==
        TurnedHeader(h, portal) + if carries then AdjustAt(t, at, Destination(h), portal) else t
  {
    var p := h + t;
    var r := Redirected(p, |h| + at, portal);
    var q := TurnedHeader(h, portal) + if h[9] == 6 || WordAt(t, at) != 0 then AdjustAt(t, at, Destination(h), portal) else t;
    forall i | 0 <= i < |p| ensures r[i] == q[i] {
      if i < |h| {
        HeaderTurns(h, t, at, portal, i);
      } else {
        SegmentTurns(h, t, at, portal, i - |h|);
      }
    }
  }

  lemma {:induction false} SameParts(h: seq<Byte>, t: seq<Byte>, at: nat)
    requires |h| >= 20 && at + 2 <= |t|
    ensures var p := h + t;
      && Destination(p) == Destination(h) && WordAt(p, 10) == WordAt(h, 10) && WordAt(p, |h| + at) == WordAt(t, at)
      && (CarriesChecksum(p, |h| + at) <==> h[9] == 6 || WordAt(t, at) != 0)
  {
  }

  lemma {:induction false} HeaderTurns(h: seq<Byte>, t: seq<Byte>, at: nat, portal: Address, i: nat)
    requires |h| >= 20 && at + 2 <= |t| && i < |h|
    ensures Redirected(h + t, |h| + at, portal)[i] == TurnedHeader(h, portal)[i]
  {
    SameParts(h, t, at);
  }

  lemma {:induction false} SegmentTurns(h: seq<Byte>, t: seq<Byte>, at: nat, portal: Address, i: nat)
    requires |h| >= 20 && at + 2 <= |t| && i < |t|
    ensures Redirected(h + t, |h| + at, portal)[|h| + i] ==
      if h[9] == 6 || WordAt(t, at) != 0 then AdjustAt(t, at, Destination(h), portal)[i] else t[i]
  {
    SameParts(h, t, at);
  }

  lemma {:induction false} TcpFields(s: Tcp)
    requires WholeTcp(s)
    ensures var t := TcpBytes(s);
      |t| >= 20 && WordAt(t, 0) == s.source && WordAt(t, 2) == s.destination && WordAt(t, 16) == s.checksum
  {
  }

  lemma {:induction false} TcpAdjusted(s: Tcp, before: Address, after: Address)
    requires WholeTcp(s)
    ensures AdjustAt(TcpBytes(s), 16, before, after) == TcpBytes(s.(checksum := Adjusted(s.checksum, before, after)))
  {
    TcpFields(s);
    var c := Adjusted(s.checksum, before, after);
    var t, u := AdjustAt(TcpBytes(s), 16, before, after), TcpBytes(s.(checksum := c));
    forall i | 0 <= i < |t| ensures t[i] == u[i] {
    }
  }

  lemma {:induction false} UdpFields(d: Udp)
    ensures var t := UdpBytes(d);
      |t| >= 8 && WordAt(t, 0) == d.source && WordAt(t, 2) == d.destination && WordAt(t, 6) == d.checksum
  {
  }

  lemma {:induction false} UdpAdjusted(d: Udp, before: Address, after: Address)
    ensures AdjustAt(UdpBytes(d), 6, before, after) == UdpBytes(d.(checksum := Adjusted(d.checksum, before, after)))
  {
    UdpFields(d);
    var c := Adjusted(d.checksum, before, after);
    var t, u := AdjustAt(UdpBytes(d), 6, before, after), UdpBytes(d.(checksum := c));
    forall i | 0 <= i < |t| ensures t[i] == u[i] {
    }
  }

  // Not local, with a source, and from a client that is not admitted.
  predicate Foreign(h: seq<Byte>, portal: Address, localCast: bool, acl: Table)
    requires |h| >= 20
  {
    Destination(h) != portal && !localCast && IpOf(Source(h)) != 0 && !Admits(acl, IpOf(Source(h)))
  }

  // A segment to port 80 arrives at the portal with two checksums adjusted and nothing else
  // changed but the destination; one to any other port, or of a later fragment, does not arrive.
  lemma {:induction false} TcpArrives(h: seq<Byte>, s: Tcp, portal: Address, localCast: bool, acl: Table)
    requires IsHeader(h) && h[9] == 6 && WholeTcp(s) && Foreign(h, portal, localCast, acl)
    ensures Filtered(h + TcpBytes(s), true, portal, localCast, acl) ==
      if FirstFragment(h) && s.destination == 80
      then Some(TurnedHeader(h, portal) + TcpBytes(s.(checksum := Adjusted(s.checksum, Destination(h), portal))))
      else None
  {
    var t := TcpBytes(s);
    var p := h + t;
    TcpFields(s);
    HeaderOf(h, t);
    IsSmallWord(t[2], t[3], 80);
    ProbeIff(p);
    if IsProbe(p) {
      RedirectedParts(h, t, 16, portal);
      TcpAdjusted(s, Destination(h), portal);
    }
  }

  // The same for a datagram to port 53; one without a checksum stays without.
  lemma {:induction false} UdpArrives(h: seq<Byte>, d: Udp, portal: Address, localCast: bool, acl: Table)
    requires IsHeader(h) && h[9] == 17 && Foreign(h, portal, localCast, acl)
    ensures Filtered(h + UdpBytes(d), true, portal, localCast, acl) ==
      if FirstFragment(h) && d.destination == 53
      then Some(TurnedHeader(h, portal) + UdpBytes(
             if d.checksum == 0 then d else d.(checksum := Adjusted(d.checksum, Destination(h), portal))))
      else None
  {
    var t := UdpBytes(d);
    var p := h + t;
    UdpFields(d);
    HeaderOf(h, t);
    IsSmallWord(t[2], t[3], 53);
    ProbeIff(p);
    if IsProbe(p) {
      RedirectedParts(h, t, 6, portal);
      UdpAdjusted(d, Destination(h), portal);
    }
  }

  lemma {:induction false} HeaderOf(h: seq<Byte>, t: seq<Byte>)
    requires |h| >= 20
    ensures var p := h + t;
      && Destination(p) == Destination(h) && Source(p) == Source(h) && p[0] == h[0] && p[6] == h[6] && p[7] == h[7] && p[9] == h[9]
      && forall i :: 0 <= i < |t| ==> p[|h| + i] == t[i]
  {
  }

  // --- Addresses ---

  // The firmware's number for an address gives the address back.
  function Octets(ip: nat): (a: Address) { [ip % 256, ip / 256 % 256, ip / 256 / 256 % 256, ip / 256 / 256 / 256 % 256] }

  lemma LowOctet(a: Byte, rest: nat)
    ensures (a as int + 256 * rest) % 256 == a && (a as int + 256 * rest) / 256 == rest
  {
  }

  lemma AddressRoundTrip(a: Address)
    ensures Octets(IpOf(a)) == a
  {
    var c := a[2] as int + 256 * a[3] as int;
    var b := a[1] as int + 256 * c;
    LowOctet(a[0], b);
    LowOctet(a[1], c);
    LowOctet(a[2], a[3]);
    assert IpOf(a) == a[0] as int + 256 * b;
  }
}
