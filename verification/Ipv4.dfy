/** The IPv4 header as the receiver reads it (section 3.1 of RFC 791). */
module Ipv4 {
  import opened Wrappers
  import opened Octets

  const HEADER_LEN := 20
  const MAX_PACKET_SIZE := 0xFFFF
  const PROTOCOL_TCP: Byte := 6
  const PROTOCOL_UDP: Byte := 17

  type Packet = seq<Byte>

  datatype InvalidPacket = InvalidPacket

  datatype Frame = Frame(size: nat, protocol: Byte)

  /** `ipv4_total_len`: what 20 header bytes say about the packet they start. */
  function Ipv4TotalLen(header: seq<Byte>): (r: Result<Frame, InvalidPacket>)
    requires |header| == HEADER_LEN
    ensures r.Success? ==> HEADER_LEN <= r.value.size <= MAX_PACKET_SIZE
  {
    var headerLen := 4 * (header[0] % 16);
    var packetLen := U16(header[2], header[3]);
    if header[0] / 16 != 4 then Failure(InvalidPacket)
    else if headerLen < HEADER_LEN then Failure(InvalidPacket)
    else if packetLen < headerLen || MAX_PACKET_SIZE < packetLen then Failure(InvalidPacket)
    else Success(Frame(packetLen, header[9]))
  }

  /** A packet whose header is valid and whose total length is its own length. */
  predicate WellFormed(p: Packet) {
    && HEADER_LEN <= |p|
    && Ipv4TotalLen(p[..HEADER_LEN]).Success?
    && Ipv4TotalLen(p[..HEADER_LEN]).value.size == |p|
  }

  // Well-formed packets are those with the layout of section 3.1 of RFC 791

  datatype Header = Header(
    service: Byte,
    identification: nat,
    fragment: nat,
    ttl: Byte,
    protocol: Byte,
    checksum: nat,
    source: seq<Byte>,
    destination: seq<Byte>)

  predicate IsHeader(h: Header) {
    && h.identification < 0x1_0000 && h.fragment < 0x1_0000 && h.checksum < 0x1_0000
    && |h.source| == 4 && |h.destination| == 4
  }

  /** The 20 bytes before the options; the length of the header is told in words. */
  function EncodeFixed(h: Header, words: nat, total: nat): (bytes: seq<Byte>)
    requires IsHeader(h) && 5 <= words <= 15 && total <= MAX_PACKET_SIZE
    ensures |bytes| == HEADER_LEN
    ensures bytes[0] == 64 + words && U16(bytes[2], bytes[3]) == total && bytes[9] == h.protocol
    ensures bytes[12..16] == h.source && bytes[16..20] == h.destination
  {
    [64 + words, h.service] + BigEndian(total) + BigEndian(h.identification) + BigEndian(h.fragment)
    + [h.ttl, h.protocol] + BigEndian(h.checksum) + h.source + h.destination
  }

  predicate Fits(h: Header, options: seq<Byte>, payload: seq<Byte>) {
    && IsHeader(h)
    && |options| % 4 == 0 && |options| <= 40
    && HEADER_LEN + |options| + |payload| <= MAX_PACKET_SIZE
  }

  function Encode(h: Header, options: seq<Byte>, payload: seq<Byte>): (p: Packet)
    requires Fits(h, options, payload)
    ensures |p| == HEADER_LEN + |options| + |payload|
  {
    EncodeFixed(h, 5 + |options| / 4, HEADER_LEN + |options| + |payload|) + options + payload
  }

  lemma EncodingIsWellFormed(h: Header, options: seq<Byte>, payload: seq<Byte>)
    requires Fits(h, options, payload)
    ensures
      var p := Encode(h, options, payload);
      && WellFormed(p) && ProtocolOf(p) == h.protocol
      && 4 * (p[0] % 16) == HEADER_LEN + |options|
      && p[HEADER_LEN + |options|..] == payload
      && p[12..16] == h.source && p[16..20] == h.destination
  {
    var words := 5 + |options| / 4;
    var fixed := EncodeFixed(h, words, HEADER_LEN + |options| + |payload|);
    var p := Encode(h, options, payload);
    assert p[..HEADER_LEN] == fixed;
    assert p[0] == fixed[0] && (64 + words) % 16 == words && (64 + words) / 16 == 4;
    assert p[12..16] == fixed[12..16] && p[16..20] == fixed[16..20] && p[9] == fixed[9];
  }

  /** The header of a packet. */
  function HeaderOf(p: Packet): Header
    requires |p| >= HEADER_LEN
  {
    Header(p[1], U16(p[4], p[5]), U16(p[6], p[7]), p[8], p[9], U16(p[10], p[11]), p[12..16], p[16..20])
  }

  lemma FixedOfHeader(p: Packet, words: nat)
    requires |p| == HEADER_LEN && 5 <= words <= 15 && p[0] == 64 + words
    ensures EncodeFixed(HeaderOf(p), words, U16(p[2], p[3])) == p
  {
    BigEndianOfU16(p[2], p[3]);
    BigEndianOfU16(p[4], p[5]);
    BigEndianOfU16(p[6], p[7]);
    BigEndianOfU16(p[10], p[11]);
    assert p == [p[0], p[1], p[2], p[3], p[4], p[5], p[6], p[7], p[8], p[9], p[10], p[11]] + p[12..16] + p[16..20];
  }

  ghost predicate IsEncoding(p: Packet) {
    exists h, options, payload :: Fits(h, options, payload) && p == Encode(h, options, payload)
  }

  lemma WellFormedFields(p: Packet)
    requires WellFormed(p)
    ensures
      var words := p[0] % 16;
      && p[0] == 64 + words && 5 <= words <= 15
      && U16(p[2], p[3]) == |p| <= MAX_PACKET_SIZE && 4 * words <= |p|
  {
    var fixed := p[..HEADER_LEN];
    assert fixed[0] == p[0] && fixed[2] == p[2] && fixed[3] == p[3];
  }

  lemma WellFormedIsEncoding(p: Packet)
    requires WellFormed(p)
    ensures IsEncoding(p)
  {
    WellFormedFields(p);
    var words := p[0] % 16;
    var fixed, options, payload := p[..HEADER_LEN], p[HEADER_LEN..4 * words], p[4 * words..];
    assert fixed[0] == p[0] && fixed[2] == p[2] && fixed[3] == p[3];
    FixedOfHeader(fixed, words);
    assert p == fixed + options + payload;
    assert |options| == 4 * (words - 5);
    assert Fits(HeaderOf(fixed), options, payload);
    assert p == Encode(HeaderOf(fixed), options, payload);
  }

  /** What the receiver takes for packets are the encodings of packets, and nothing else. */
  lemma WellFormedExactly(p: Packet)
    ensures WellFormed(p) <==> IsEncoding(p)
  {
    if IsEncoding(p) {
      var h, options, payload :| Fits(h, options, payload) && p == Encode(h, options, payload);
      EncodingIsWellFormed(h, options, payload);
    }
    if WellFormed(p) {
      WellFormedIsEncoding(p);
    }
  }

  predicate AllWellFormed(ps: seq<Packet>) {
    forall i :: 0 <= i < |ps| ==> WellFormed(ps[i])
  }

  function ProtocolOf(p: Packet): Byte
    requires |p| >= HEADER_LEN
  {
    p[9]
  }

  predicate Forwardable(p: Packet)
    requires |p| >= HEADER_LEN
  {
    ProtocolOf(p) == PROTOCOL_TCP || ProtocolOf(p) == PROTOCOL_UDP
  }

  /** The packets of a protocol that has a sink, in order. */
  function Supported(ps: seq<Packet>): (kept: seq<Packet>)
    requires AllWellFormed(ps)
  {
    if ps == [] then []
    else
      var last := ps[|ps| - 1];
      Supported(ps[..|ps| - 1]) + (if Forwardable(last) then [last] else [])
  }

  /** What a reader holding `buf` from a packet boundary knows about the packet. */
  datatype Progress =
    | Short(need: nat)      // that many bytes are still missing
    | Whole(protocol: Byte) // `buf` is one packet
    | Invalid               // the 20 header bytes are not acceptable

  function Inspect(buf: seq<Byte>): (p: Progress)
    ensures p.Short? ==> p.need > 0
  {
    if |buf| < HEADER_LEN then Short(HEADER_LEN - |buf|)
    else
      match Ipv4TotalLen(buf[..HEADER_LEN])
      case Failure(_) => Invalid
      case Success(frame) =>
        if |buf| < frame.size then Short(frame.size - |buf|) else Whole(frame.protocol)
  }

  /** The length of the packet that starts `buf`. */
  function PacketSize(buf: seq<Byte>): (n: nat)
    requires Inspect(buf).Whole?
    ensures HEADER_LEN <= n <= |buf|
    ensures WellFormed(buf[..n])
    ensures Inspect(buf).protocol == ProtocolOf(buf[..n])
  {
    var n := Ipv4TotalLen(buf[..HEADER_LEN]).value.size;
    assert buf[..n][..HEADER_LEN] == buf[..HEADER_LEN];
    n
  }

  lemma InspectStart(p: Packet, more: seq<Byte>)
    requires WellFormed(p)
    ensures Inspect(p + more) == Whole(ProtocolOf(p))
    ensures PacketSize(p + more) == |p|
  {
    assert (p + more)[..HEADER_LEN] == p[..HEADER_LEN];
  }

  /** Cuts a byte stream at packet boundaries: the whole packets and what is left. */
  datatype Cut = Cut(packets: seq<Packet>, rest: seq<Byte>)

  function Deframe(bytes: seq<Byte>): Cut
    decreases |bytes|
  {
    if Inspect(bytes).Whole? then
      var size := PacketSize(bytes);
      var tail := Deframe(bytes[size..]);
      Cut([bytes[..size]] + tail.packets, tail.rest)
    else
      Cut([], bytes)
  }

  /** The cut has all bytes, whole packets, and stops where there is no whole packet left. */
  predicate Partitions(bytes: seq<Byte>, cut: Cut) {
    && Flatten(cut.packets) + cut.rest == bytes
    && AllWellFormed(cut.packets)
    && !Inspect(cut.rest).Whole?
  }

  lemma PartitionsMore(p: Packet, bytes: seq<Byte>, cut: Cut)
    requires WellFormed(p) && Partitions(bytes, cut)
    ensures Partitions(p + bytes, Cut([p] + cut.packets, cut.rest))
  {
    FlattenCons(p, cut.packets);
    Associative(p, Flatten(cut.packets), cut.rest);
  }

  lemma PartitionsNone(bytes: seq<Byte>)
    requires !Inspect(bytes).Whole?
    ensures Partitions(bytes, Cut([], bytes))
  {
    assert Flatten<Byte>([]) + bytes == bytes;
  }

  /** Cutting loses no byte, yields packets only, and stops only for want of one. */
  lemma {:induction false} DeframePartitions(bytes: seq<Byte>)
    ensures Partitions(bytes, Deframe(bytes))
    decreases |bytes|
  {
    if Inspect(bytes).Whole? {
      var p, rest := bytes[..PacketSize(bytes)], bytes[PacketSize(bytes)..];
      DeframePartitions(rest);
      PartitionsMore(p, rest, Deframe(rest));
      assert p + rest == bytes;
    } else {
      PartitionsNone(bytes);
    }
  }

  /** A stream that starts with a well-formed packet is cut after that packet. */
  lemma DeframeStep(p: Packet, more: seq<Byte>)
    requires WellFormed(p)
    ensures Deframe(p + more) == Cut([p] + Deframe(more).packets, Deframe(more).rest)
  {
    InspectStart(p, more);
    assert (p + more)[..|p|] == p;
    assert (p + more)[|p|..] == more;
  }

  /** Cutting inverts concatenation: IPv4 packets delimit themselves. */
  lemma {:induction false} DeframeFlatten(ps: seq<Packet>, more: seq<Byte>)
    requires AllWellFormed(ps)
    ensures Deframe(Flatten(ps) + more) == Cut(ps + Deframe(more).packets, Deframe(more).rest)
  {
    if ps == [] {
      assert Flatten(ps) + more == more;
    } else {
      DeframeFlatten(ps[1..], more);
      DeframeStep(ps[0], Flatten(ps[1..]) + more);
      Associative(ps[0], Flatten(ps[1..]), more);
      Associative([ps[0]], ps[1..], Deframe(more).packets);
      assert [ps[0]] + ps[1..] == ps;
    }
  }
}
