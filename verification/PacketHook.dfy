// The IPv4 input hook of main/lwip_hooks.c: traffic of clients that are not admitted is
// dropped, except that web and name-service probes are redirected to the portal.

module PacketHook {
  import opened Basics
  import opened Words
  import opened Checksum
  import opened ClientAcl

  const IP_HEADER := 20
  const TCP_HEADER := 20
  const UDP_HEADER := 8
  const TCP: Byte := 6
  const UDP: Byte := 17
  const HTTP_PORT := 80
  const DNS_PORT := 53

  // The firmware's 32-bit addresses are little-endian readings of the bytes on the wire.
  function IpOf(a: Address): Ip {
    (a[0] as int) + 0x100 * (a[1] as int) + 0x1_0000 * (a[2] as int) + 0x100_0000 * (a[3] as int)
  }

  type Packet = seq<Byte>

  function HeaderLength(p: Packet): nat
    requires |p| >= IP_HEADER
  {
    (p[0] % 16) as int * 4
  }

  function FragmentOffset(p: Packet): nat
    requires |p| >= IP_HEADER
  {
    (p[6] % 32) as int * 0x100 + p[7]
  }

  // The code masks the flags off the 16-bit word.
  lemma OffsetBits(a: Byte, b: Byte)
    ensures Word(a, b) % 0x2000 == (a % 32) as int * 0x100 + b
  {
    assert Word(a, b) == (a / 32) as int * 0x2000 + ((a % 32) as int * 0x100 + b);
    BelowModulus(a / 32, (a % 32) as int * 0x100 + b);
  }

  lemma BelowModulus(q: nat, r: nat)
    requires r < 0x2000
    ensures (q * 0x2000 + r) % 0x2000 == r
  {
  }

  // Where the transport checksum of a redirectable probe is: a TCP segment to port 80 or a
  // UDP datagram to port 53, not a later fragment, with its transport header in the buffer.
  function ProbeChecksumAt(p: Packet): (r: Option<nat>)
    requires |p| >= IP_HEADER
    ensures r.Some? ==> IP_HEADER <= HeaderLength(p) && r.value + 2 <= |p|
    ensures r.Some? ==> r.value == HeaderLength(p) + 6 || r.value == HeaderLength(p) + 16
  {
    var hl := HeaderLength(p);
    if hl < IP_HEADER || |p| < hl || FragmentOffset(p) != 0 then None
    else if p[9] == TCP then
      if |p| < hl + TCP_HEADER || WordAt(p, hl + 2) != HTTP_PORT then None else Some(hl + 16)
    else if p[9] == UDP then
      if |p| < hl + UDP_HEADER || WordAt(p, hl + 2) != DNS_PORT then None else Some(hl + 6)
    else None
  }

  function Destination(p: Packet): Address
    requires |p| >= IP_HEADER
  {
    p[16..20]
  }

  function Source(p: Packet): Address
    requires |p| >= IP_HEADER
  {
    p[12..16]
  }

  function AdjustAt(p: Packet, at: nat, before: Address, after: Address): (r: Packet)
    requires at + 2 <= |p|
    ensures |r| == |p|
  {
    WithWord(p, at, Adjusted(WordAt(p, at), before, after))
  }

  function WithDestination(p: Packet, a: Address): (r: Packet)
    requires |p| >= IP_HEADER
    ensures |r| == |p| && Destination(r) == a
    ensures forall i :: 0 <= i < |p| && !(16 <= i < 20) ==> r[i] == p[i]
  {
    p[..16] + a + p[20..]
  }

  // A UDP checksum of zero means there is none, and is left alone.
  predicate CarriesChecksum(p: Packet, at: nat)
    requires |p| >= IP_HEADER && at + 2 <= |p|
  {
    p[9] == TCP || WordAt(p, at) != 0
  }

  function Redirected(p: Packet, at: nat, portal: Address): (r: Packet)
    requires |p| >= IP_HEADER && at + 2 <= |p|
    ensures |r| == |p|
  {
    var p1 := if CarriesChecksum(p, at) then AdjustAt(p, at, Destination(p), portal) else p;
    WithDestination(AdjustAt(p1, 10, Destination(p), portal), portal)
  }

  // --- What a redirection changes ---

  lemma {:induction false} RedirectFrame(p: Packet, at: nat, portal: Address, i: nat)
    requires |p| >= IP_HEADER && IP_HEADER <= at && at + 2 <= |p|
    requires i < |p| && i !in {10, 11, 16, 17, 18, 19, at, at + 1}
    ensures Redirected(p, at, portal)[i] == p[i]
  {
  }

  // A word sum splits at any even place.
  lemma {:induction false} SplitAt(p: Packet, k: nat)
    requires k <= |p| && k % 2 == 0
    ensures WordSum(p) == WordSum(p[..k]) + WordSum(p[k..])
  {
    assert p == p[..k] + p[k..];
    WordSumAppend(p[..k], p[k..]);
  }

  // Changing a stretch of even length at an even place changes the sum by that stretch.
  lemma {:induction false} SumAfter(p: Packet, q: Packet, k: nat, n: nat)
    requires |p| == |q| && k % 2 == 0 && n % 2 == 0 && k + n <= |p|
    requires forall i :: 0 <= i < |p| && !(k <= i < k + n) ==> p[i] == q[i]
    ensures WordSum(q) - WordSum(q[k..k + n]) == WordSum(p) - WordSum(p[k..k + n]) >= 0
  {
    SplitAt(p, k + n);
    SplitAt(q, k + n);
    SplitAt(p[..k + n], k);
    SplitAt(q[..k + n], k);
    assert p[k + n..] == q[k + n..] && p[..k + n][..k] == q[..k + n][..k];
    assert p[..k + n][k..] == p[k..k + n] && q[..k + n][k..] == q[k..k + n];
  }

  lemma {:induction false} WordAtSum(p: Packet, at: nat)
    requires at + 2 <= |p|
    ensures WordSum(p[at..at + 2]) == WordAt(p, at)
  {
    assert p[at..at + 2] == [p[at], p[at + 1]];
    assert p[at..at + 2][2..] == [];
  }

  lemma {:induction false} AdjustSum(p: Packet, at: nat, before: Address, after: Address) returns (k: int)
    requires at + 2 <= |p| && at % 2 == 0
    ensures WordSum(AdjustAt(p, at, before, after)) + WordSum(after) == WordSum(p) + WordSum(before) + k * RING
  {
    var q := AdjustAt(p, at, before, after);
    SumAfter(p, q, at, 2);
    WordAtSum(p, at);
    WordAtSum(q, at);
    k := AdjustConserves(WordAt(p, at), before, after);
  }

  // The sum over the IP header, its checksum included.
  function HeaderSum(p: Packet): nat
    requires |p| >= IP_HEADER && HeaderLength(p) <= |p|
  {
    WordSum(p[..HeaderLength(p)])
  }

  // The sum over pseudo-header and segment, section 3.1 of RFC 793 and RFC 768: both addresses,
  // protocol, length, the bytes in this buffer and whatever follows in chained ones.
  function TransportSum(p: Packet, length: nat, chained: nat): nat
    requires |p| >= IP_HEADER && HeaderLength(p) <= |p|
  {
    WordSum(Source(p)) + WordSum(Destination(p)) + p[9] as int + length + WordSum(p[HeaderLength(p)..]) + chained
  }

  lemma {:induction false} HeaderSumKept(p: Packet, at: nat, portal: Address) returns (k: int)
    requires |p| >= IP_HEADER && ProbeChecksumAt(p) == Some(at)
    ensures HeaderLength(Redirected(p, at, portal)) == HeaderLength(p)
    ensures HeaderSum(Redirected(p, at, portal)) == HeaderSum(p) + k * RING
  {
    var hl := HeaderLength(p);
    RedirectFrame(p, at, portal, 0);
    assert HeaderLength(Redirected(p, at, portal)) == hl;
    HeaderTurned(p, at, portal, hl);
    k := AdjustSum(p[..hl], 10, Destination(p), portal);
  }

  // From the header with its checksum adjusted to the redirected one only the destination changes.
  lemma {:induction false} HeaderTurned(p: Packet, at: nat, portal: Address, hl: nat)
    requires IP_HEADER <= hl <= at && at + 2 <= |p|
    ensures WordSum(Redirected(p, at, portal)[..hl]) - WordSum(portal) ==
      WordSum(AdjustAt(p[..hl], 10, Destination(p), portal)) - WordSum(Destination(p))
  {
    var h, r := AdjustAt(p[..hl], 10, Destination(p), portal), Redirected(p, at, portal)[..hl];
    forall i | 0 <= i < hl && !(16 <= i < 20) ensures r[i] == h[i] {
      HeaderByte(p, at, portal, hl, i);
    }
    SumAfter(h, r, 16, 4);
    assert h[16..20] == Destination(p) && r[16..20] == portal;
  }

  lemma {:induction false} HeaderByte(p: Packet, at: nat, portal: Address, hl: nat, i: nat)
    requires IP_HEADER <= hl <= at && at + 2 <= |p| && i < hl && !(16 <= i < 20)
    ensures Redirected(p, at, portal)[..hl][i] == AdjustAt(p[..hl], 10, Destination(p), portal)[i]
  {
  }

  // What a redirection leaves of the IP header, and of the segment.
  lemma {:induction false} HeaderKept(p: Packet, at: nat, portal: Address)
    requires |p| >= IP_HEADER && ProbeChecksumAt(p) == Some(at)
    ensures var r := Redirected(p, at, portal);
      HeaderLength(r) == HeaderLength(p) && r[9] == p[9] && Source(r) == Source(p) && Destination(r) == portal
  {
    RedirectFrame(p, at, portal, 0);
    RedirectFrame(p, at, portal, 9);
    forall i | 12 <= i < 16 ensures Redirected(p, at, portal)[i] == p[i] {
      RedirectFrame(p, at, portal, i);
    }
  }

  lemma {:induction false} SegmentKept(p: Packet, at: nat, portal: Address)
    requires |p| >= IP_HEADER && ProbeChecksumAt(p) == Some(at) && CarriesChecksum(p, at)
    ensures var hl := HeaderLength(p);
      Redirected(p, at, portal)[hl..] == AdjustAt(p[hl..], at - hl, Destination(p), portal)
  {
  }

  lemma {:induction false} TransportSumKept(p: Packet, at: nat, portal: Address, length: nat, chained: nat) returns (k: int)
    requires |p| >= IP_HEADER && ProbeChecksumAt(p) == Some(at) && CarriesChecksum(p, at)
    ensures HeaderLength(Redirected(p, at, portal)) == HeaderLength(p)
    ensures TransportSum(Redirected(p, at, portal), length, chained) == TransportSum(p, length, chained) + k * RING
  {
    var hl := HeaderLength(p);
    HeaderKept(p, at, portal);
    SegmentKept(p, at, portal);
    k := AdjustSum(p[hl..], at - hl, Destination(p), portal);
  }

  // Redirecting a probe rewrites the destination, and each checksum is right afterwards,
  // modulo 65535, exactly if it was right before.
  lemma {:induction false} RedirectKeepsChecksums(p: Packet, at: nat, portal: Address, length: nat, chained: nat)
    requires |p| >= IP_HEADER && ProbeChecksumAt(p) == Some(at)
    ensures var r := Redirected(p, at, portal);
      && HeaderLength(r) == HeaderLength(p)
      && Destination(r) == portal && Source(r) == Source(p)
      && (HeaderSum(r) % RING == 0 <==> HeaderSum(p) % RING == 0)
      && (CarriesChecksum(p, at) ==>
            (TransportSum(r, length, chained) % RING == 0 <==> TransportSum(p, length, chained) % RING == 0))
      && (!CarriesChecksum(p, at) ==> WordAt(r, at) == 0)
  {
    var k := HeaderSumKept(p, at, portal);
    HeaderKept(p, at, portal);
    SameMultiple(HeaderSum(p), HeaderSum(Redirected(p, at, portal)), k);
    if CarriesChecksum(p, at) {
      var l := TransportSumKept(p, at, portal, length, chained);
      SameMultiple(TransportSum(p, length, chained), TransportSum(Redirected(p, at, portal), length, chained), l);
    }
  }

  lemma SameMultiple(a: int, b: int, k: int)
    requires b == a + k * RING
    ensures a % RING == 0 <==> b % RING == 0
  {
  }

  // What a checksum covers when its sender computes it, itself being zero then: the words of
  // the header, and of pseudo-header and segment; all but the destination apart.
  function HeaderRest(p: Packet, hl: nat): nat
    requires IP_HEADER <= hl <= |p|
  {
    WordSum(p[..10]) + WordSum(p[12..16]) + WordSum(p[20..hl])
  }

  function SegmentRest(p: Packet, at: nat, length: nat, chained: nat, hl: nat): nat
    requires IP_HEADER <= hl <= at && at + 2 <= |p|
  {
    WordSum(Source(p)) + p[9] as int + length + WordSum(p[hl..at]) + WordSum(p[at + 2..]) + chained
  }

  function HeaderChecksum(p: Packet, hl: nat): (c: nat)
    requires IP_HEADER <= hl <= |p|
    ensures c <= RING
  {
    ChecksumOver(HeaderRest(p, hl), Destination(p))
  }

  function TransportChecksum(p: Packet, at: nat, length: nat, chained: nat, hl: nat): (c: nat)
    requires IP_HEADER <= hl <= at && at + 2 <= |p|
    ensures c <= RING
  {
    ChecksumOver(SegmentRest(p, at, length, chained, hl), Destination(p))
  }

  // The two forms agree: the header as it is sums up to its rest, its destination and its checksum.
  lemma {:induction false} HeaderSumParts(p: Packet)
    requires |p| >= IP_HEADER && IP_HEADER <= HeaderLength(p) <= |p|
    ensures HeaderSum(p) == HeaderRest(p, HeaderLength(p)) + WordSum(Destination(p)) + WordAt(p, 10)
  {
    HeaderParts(p[..HeaderLength(p)]);
    WordAtSum(p, 10);
    SamePart(p, HeaderLength(p), 0, 10);
    SamePart(p, HeaderLength(p), 10, 12);
    SamePart(p, HeaderLength(p), 12, 16);
    SamePart(p, HeaderLength(p), 16, 20);
    SamePart(p, HeaderLength(p), 20, HeaderLength(p));
  }

  lemma {:induction false} SamePart(p: Packet, n: nat, from: nat, to: nat)
    requires from <= to <= n <= |p|
    ensures p[..n][from..to] == p[from..to]
  {
  }

  lemma {:induction false} HeaderParts(h: Packet)
    requires |h| >= IP_HEADER
    ensures WordSum(h) == WordSum(h[0..10]) + WordSum(h[10..12]) + WordSum(h[12..16]) + WordSum(h[16..20]) + WordSum(h[20..|h|])
  {
    SplitAt(h, 10);
    PartSplits(h, 10, 12);
    PartSplits(h, 12, 16);
    PartSplits(h, 16, 20);
    assert h[..10] == h[0..10] && h[20..] == h[20..|h|];
  }

  lemma {:induction false} PartSplits(h: Packet, from: nat, to: nat)
    requires from <= to <= |h| && (to - from) % 2 == 0
    ensures WordSum(h[from..]) == WordSum(h[from..to]) + WordSum(h[to..])
  {
    SplitAt(h[from..], to - from);
    assert h[from..][..to - from] == h[from..to] && h[from..][to - from..] == h[to..];
  }

  lemma {:induction false} RedirectedWords(p: Packet, at: nat, portal: Address)
    requires |p| >= IP_HEADER && IP_HEADER <= at && at + 2 <= |p|
    ensures WordAt(Redirected(p, at, portal), 10) == Adjusted(WordAt(p, 10), Destination(p), portal)
    ensures WordAt(Redirected(p, at, portal), at) ==
      if CarriesChecksum(p, at) then Adjusted(WordAt(p, at), Destination(p), portal) else 0
  {
  }

  lemma {:induction false} SameSlice(p: Packet, q: Packet, from: nat, to: nat)
    requires from <= to <= |p| && to <= |q|
    requires forall i :: from <= i < to ==> p[i] == q[i]
    ensures p[from..to] == q[from..to]
  {
  }

  // A redirection leaves what does not hold a checksum or the destination.
  lemma {:induction false} SliceKept(p: Packet, at: nat, portal: Address, from: nat, to: nat)
    requires |p| >= IP_HEADER && IP_HEADER <= at && at + 2 <= |p| && from <= to <= |p|
    requires to <= 10 || 12 <= from
    requires to <= 16 || 20 <= from
    requires to <= at || at + 2 <= from
    ensures Redirected(p, at, portal)[from..to] == p[from..to]
  {
    forall i | from <= i < to ensures Redirected(p, at, portal)[i] == p[i] {
      RedirectFrame(p, at, portal, i);
    }
    SameSlice(Redirected(p, at, portal), p, from, to);
  }

  lemma {:induction false} HeaderRestKept(p: Packet, at: nat, portal: Address, hl: nat)
    requires IP_HEADER <= hl <= at && at + 2 <= |p|
    ensures HeaderRest(Redirected(p, at, portal), hl) == HeaderRest(p, hl)
  {
    var r := Redirected(p, at, portal);
    SliceKept(p, at, portal, 0, 10);
    assert r[..10] == r[0..10] && p[..10] == p[0..10];
    SliceKept(p, at, portal, 12, 16);
    SliceKept(p, at, portal, 20, hl);
  }

  lemma {:induction false} SegmentRestKept(p: Packet, at: nat, portal: Address, length: nat, chained: nat, hl: nat)
    requires IP_HEADER <= hl <= at && at + 2 <= |p|
    ensures SegmentRest(Redirected(p, at, portal), at, length, chained, hl) == SegmentRest(p, at, length, chained, hl)
  {
    var r := Redirected(p, at, portal);
    RedirectFrame(p, at, portal, 9);
    SliceKept(p, at, portal, 12, 16);
    SliceKept(p, at, portal, hl, at);
    SliceKept(p, at, portal, at + 2, |p|);
    assert r[at + 2..|p|] == r[at + 2..] && p[at + 2..|p|] == p[at + 2..];
  }

  lemma {:induction false} SomethingSums(data: seq<Byte>)
    requires |data| >= 2 && data[0] > 0
    ensures WordSum(data) > 0
  {
  }

  // A packet r whose checksum was adjusted for the new destination, over the same rest.
  lemma {:induction false} HeaderRight(p: Packet, r: Packet, hl: nat)
    requires |p| == |r| && IP_HEADER <= hl <= |p| && HeaderRest(r, hl) == HeaderRest(p, hl) > 0
    requires WordAt(r, 10) == Adjusted(WordAt(p, 10), Destination(p), Destination(r))
    requires WordAt(p, 10) < RING || WordSum(Destination(r)) > 0
    ensures WordAt(r, 10) == HeaderChecksum(r, hl) <==> Plain(WordAt(p, 10)) == HeaderChecksum(p, hl)
  {
    AdjustedIffRight(WordAt(p, 10), HeaderRest(p, hl), Destination(p), Destination(r));
  }

  lemma {:induction false} SegmentRight(p: Packet, r: Packet, at: nat, length: nat, chained: nat, hl: nat)
    requires |p| == |r| && IP_HEADER <= hl <= at && at + 2 <= |p|
    requires SegmentRest(r, at, length, chained, hl) == SegmentRest(p, at, length, chained, hl) > 0
    requires WordAt(r, at) == Adjusted(WordAt(p, at), Destination(p), Destination(r))
    requires WordAt(p, at) < RING || WordSum(Destination(r)) > 0
    ensures WordAt(r, at) == TransportChecksum(r, at, length, chained, hl)
      <==> Plain(WordAt(p, at)) == TransportChecksum(p, at, length, chained, hl)
  {
    AdjustedIffRight(WordAt(p, at), SegmentRest(p, at, length, chained, hl), Destination(p), Destination(r));
  }

  lemma {:induction false} HeaderSums(p: Packet, hl: nat)
    requires IP_HEADER <= hl <= |p| && p[0] > 0
    ensures HeaderRest(p, hl) > 0
  {
    SomethingSums(p[..10]);
  }

  lemma {:induction false} HeaderUpdated(p: Packet, at: nat, portal: Address, hl: nat)
    requires IP_HEADER <= hl <= at && at + 2 <= |p| && p[0] > 0 && (WordAt(p, 10) < RING || WordSum(portal) > 0)
    ensures WordAt(Redirected(p, at, portal), 10) == HeaderChecksum(Redirected(p, at, portal), hl)
      <==> Plain(WordAt(p, 10)) == HeaderChecksum(p, hl)
  {
    HeaderSums(p, hl);
    HeaderRestKept(p, at, portal, hl);
    RedirectedWords(p, at, portal);
    HeaderRight(p, Redirected(p, at, portal), hl);
  }

  lemma {:induction false} SegmentUpdated(p: Packet, at: nat, portal: Address, length: nat, chained: nat, hl: nat)
    requires IP_HEADER <= hl <= at && at + 2 <= |p| && p[9] > 0 && (WordAt(p, at) < RING || WordSum(portal) > 0)
    requires CarriesChecksum(p, at)
    ensures WordAt(Redirected(p, at, portal), at) == TransportChecksum(Redirected(p, at, portal), at, length, chained, hl)
      <==> Plain(WordAt(p, at)) == TransportChecksum(p, at, length, chained, hl)
  {
    SegmentRestKept(p, at, portal, length, chained, hl);
    RedirectedWords(p, at, portal);
    SegmentRight(p, Redirected(p, at, portal), at, length, chained, hl);
  }

  // A header has a length, and a probe a protocol.
  lemma ProbeParts(p: Packet, at: nat)
    requires |p| >= IP_HEADER && ProbeChecksumAt(p) == Some(at)
    ensures IP_HEADER <= HeaderLength(p) <= at && p[0] > 0 && p[9] > 0
  {
  }

  // Bit for bit: the checksums of a redirected probe are what a sender would have computed for
  // the portal, exactly if they were right before. A checksum of 65535 is the other zero; no
  // portal is at 0.0.0.0, whose words would add nothing to it.
  lemma {:induction false} RedirectRecomputes(p: Packet, at: nat, portal: Address, length: nat, chained: nat)
    requires |p| >= IP_HEADER && ProbeChecksumAt(p) == Some(at)
    ensures var hl, r := HeaderLength(p), Redirected(p, at, portal);
      && HeaderLength(r) == hl
      && (WordAt(p, 10) < RING || WordSum(portal) > 0 ==>
            (WordAt(r, 10) == HeaderChecksum(r, hl) <==> Plain(WordAt(p, 10)) == HeaderChecksum(p, hl)))
      && (CarriesChecksum(p, at) && (WordAt(p, at) < RING || WordSum(portal) > 0) ==>
            (WordAt(r, at) == TransportChecksum(r, at, length, chained, hl) <==>
             Plain(WordAt(p, at)) == TransportChecksum(p, at, length, chained, hl)))
  {
    ProbeParts(p, at);
    RedirectFrame(p, at, portal, 0);
    if WordAt(p, 10) < RING || WordSum(portal) > 0 {
      HeaderUpdated(p, at, portal, HeaderLength(p));
    }
    if CarriesChecksum(p, at) && (WordAt(p, at) < RING || WordSum(portal) > 0) {
      SegmentUpdated(p, at, portal, length, chained, HeaderLength(p));
    }
  }

  // --- The decision ---

  // What becomes of a packet: its bytes as handed on, or nothing. `localCast` is lwIP's verdict
  // that the destination is a broadcast or multicast address.
  function Filtered(p: Packet, onPortalNet: bool, portal: Address, localCast: bool, acl: Table): Option<Packet> {
    if |p| < IP_HEADER || !onPortalNet then Some(p)
    else if Destination(p) == portal || localCast then Some(p)
    else if IpOf(Source(p)) == 0 || Admits(acl, IpOf(Source(p))) then Some(p)
    else match ProbeChecksumAt(p)
      case Some(at) => Some(Redirected(p, at, portal))
      case None => None
  }

  // Nothing gets past the hook on the client side unless it comes from an admitted client or
  // stays local: what is handed on came from nobody or from an admitted source, or ends at the
  // portal or at a local group. And nothing else is dropped: a packet is handed on if and only
  // if it is one of these or a redirectable probe.
  lemma {:induction false} HookConfines(p: Packet, portal: Address, localCast: bool, acl: Table)
    requires |p| >= IP_HEADER
    ensures var free := Destination(p) == portal || localCast || IpOf(Source(p)) == 0 || Admits(acl, IpOf(Source(p)));
      var r := Filtered(p, true, portal, localCast, acl);
      && (r.Some? <==> free || ProbeChecksumAt(p).Some?)
      && (free ==> r == Some(p))
      && (r.Some? && !free ==> Destination(r.value) == portal && Source(r.value) == Source(p))
  {
    if ProbeChecksumAt(p).Some? {
      RedirectKeepsChecksums(p, ProbeChecksumAt(p).value, portal, 0, 0);
    }
  }

  // --- The code, in place ---

  method RewriteProbe(p: array<Byte>, portal: Address) returns (rewritten: bool)
    requires p.Length >= IP_HEADER
    modifies p
    ensures rewritten == ProbeChecksumAt(old(p[..])).Some?
    ensures p[..] == if rewritten then Redirected(old(p[..]), ProbeChecksumAt(old(p[..])).value, portal) else old(p[..])
  {
    var before := p[16..20];
    var hl := (p[0] % 16) as int * 4;
    if hl < IP_HEADER || p.Length < hl { return false; }
    OffsetBits(p[6], p[7]);
    if Word(p[6], p[7]) % 0x2000 != 0 { return false; }
    var at;
    if p[9] == TCP {
      if p.Length < hl + TCP_HEADER { return false; }
      if Word(p[hl + 2], p[hl + 3]) != HTTP_PORT { return false; }
      at := hl + 16;
    } else if p[9] == UDP {
      if p.Length < hl + UDP_HEADER { return false; }
      if Word(p[hl + 2], p[hl + 3]) != DNS_PORT { return false; }
      at := hl + 6;
    } else {
      return false;
    }
    assert ProbeChecksumAt(p[..]) == Some(at);
    Redirect(p, at, before, portal);
    rewritten := true;
  }

  method Redirect(p: array<Byte>, at: nat, before: Address, portal: Address)
    requires p.Length >= IP_HEADER && at + 2 <= p.Length && before == p[16..20]
    modifies p
    ensures p[..] == Redirected(old(p[..]), at, portal)
  {
    if p[9] == TCP || Word(p[at], p[at + 1]) != 0 {
      ChecksumAdjust(p, at, before, portal);
    }
    ChecksumAdjust(p, 10, before, portal);
    ghost var q := p[..];
    p[16], p[17], p[18], p[19] := portal[0], portal[1], portal[2], portal[3];
    assert p[..] == WithDestination(q, portal);
  }

  method HookInput(p: array<Byte>, onPortalNet: bool, portal: Address, localCast: bool, acl: AclTable) returns (handedOn: bool)
    requires acl.Valid()
    modifies p
    ensures handedOn == Filtered(old(p[..]), onPortalNet, portal, localCast, old(acl.View())).Some?
    ensures handedOn ==> Filtered(old(p[..]), onPortalNet, portal, localCast, old(acl.View())) == Some(p[..])
    ensures !handedOn ==> p[..] == old(p[..])
  {
    if p.Length < IP_HEADER || !onPortalNet { return true; }
    var src, dst := p[12..16], p[16..20];
    if dst == portal || localCast { return true; }
    var admitted := acl.IsAdmitted(IpOf(src));
    if IpOf(src) == 0 || admitted { return true; }
    handedOn := RewriteProbe(p, portal);
  }
}
