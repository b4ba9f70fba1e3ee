/** `write_tcp` of tcp.c: the bytes of the packets sent to the app, and how a receiver checks and reads
    them. */
module TcpPacket {
  import opened Serial
  import opened Bytes
  import opened Checksum

  const IPDEFTTL: u8 := 64
  const IPPROTO_TCP: u8 := 6

  type Bytes4 = b: seq<u8> | |b| == 4 witness [0, 0, 0, 0]
  type Bytes16 = b: seq<u8> | |b| == 16 witness seq(16, _ => 0)

  datatype Addresses = V4(saddr: Bytes4, daddr: Bytes4) | V6(saddr6: Bytes16, daddr6: Bytes16)

  /** What `write_tcp` takes from the session and its arguments; source and destination are the app's. */
  datatype Outgoing = Outgoing(
    addresses: Addresses, source: u16, dest: u16, localSeq: u32, remoteSeq: u32,
    recvWindow: u32, recvScale: u8, syn: bool, ack: bool, fin: bool, rst: bool, data: seq<u8>)

  lemma Host16Sum(x: u16)
    ensures HostSum(Host16(x)) == x
  {
    assert Host16(x)[2..] == [];
  }

  // ---------------------------------------------------------------- headers

  function OptionLength(o: Outgoing): nat {
    if o.syn then 8 else 0
  }

  /** `recv_window >> recv_scale` in 16 bits. */
  function Window(o: Outgoing): u16 {
    o.recvWindow / Pow2(o.recvScale) % 0x1_0000
  }

  /** `get_default_mss`: the MTU less the headers. */
  function DefaultMss(o: Outgoing): u16 {
    if o.addresses.V4? then 10000 - 20 - 20 else 10000 - 40 - 20
  }

  predicate Fits(o: Outgoing) {
    40 + OptionLength(o) + |o.data| <= 65535
  }

  function SegmentLength(o: Outgoing): u16
    requires Fits(o)
  {
    20 + OptionLength(o) + |o.data|
  }

  function Ip4Header(saddr: Bytes4, daddr: Bytes4, segment: u16, check: u16): (b: seq<u8>)
    requires segment <= 65515
    ensures |b| == 20
  {
    [0x45, 0] + Net16(20 + segment) + [0, 0, 0, 0, IPDEFTTL, IPPROTO_TCP] + Host16(check) + daddr + saddr
  }

  function Ip6Header(saddr: Bytes16, daddr: Bytes16, segment: u16): (b: seq<u8>)
    ensures |b| == 40
  {
    [0x60, 0, 0, 0] + Net16(segment) + [IPPROTO_TCP, IPDEFTTL] + daddr + saddr
  }

  function Flags(o: Outgoing): u8 {
    (if o.fin then 1 else 0) + (if o.syn then 2 else 0) + (if o.rst then 4 else 0) + (if o.ack then 16 else 0)
  }

  /** The TCP header up to its checksum. */
  function HeaderStart(o: Outgoing): (b: seq<u8>)
    ensures |b| == 16 && b[12] == (20 + OptionLength(o)) / 4 * 16
  {
    Net16(o.dest) + Net16(o.source) + Net32(o.localSeq) + Net32(if o.ack then o.remoteSeq else 0)
    + [(20 + OptionLength(o)) / 4 * 16, Flags(o)] + Net16(Window(o))
  }

  function TcpHeader(o: Outgoing, check: u16): (b: seq<u8>)
    ensures |b| == 20
  {
    HeaderStart(o) + Host16(check) + [0, 0]
  }

  /** The MSS goes out in host byte order. */
  function Options(o: Outgoing): (b: seq<u8>)
    ensures |b| == OptionLength(o)
  {
    if o.syn then [2, 4] + Host16(DefaultMss(o)) + [3, 3, o.recvScale, 0] else []
  }

  /** The pseudo header the code sums.  For version 6 source and destination are exchanged, and the
      16-bit length lands in the upper half of the 32-bit field. */
  function CodePseudo(o: Outgoing): (b: seq<u8>)
    requires Fits(o)
    ensures |b| % 2 == 0
  {
    match o.addresses
    case V4(saddr, daddr) => daddr + saddr + [0, IPPROTO_TCP] + Net16(SegmentLength(o))
    case V6(saddr, daddr) => saddr + daddr + Net16(SegmentLength(o)) + [0, 0, 0, 0, 0, IPPROTO_TCP]
  }

  function Complement(x: u16): u16 {
    65535 - x
  }

  function TcpCheck(o: Outgoing): u16
    requires Fits(o)
  {
    Complement(Norm(HostSum(CodePseudo(o)) + HostSum(TcpHeader(o, 0)) + HostSum(Options(o)) + HostSum(o.data)))
  }

  function Segment(o: Outgoing): seq<u8>
    requires Fits(o)
  {
    TcpHeader(o, TcpCheck(o)) + Options(o) + o.data
  }

  /** All bytes of the packet. */
  function Packet(o: Outgoing): seq<u8>
    requires Fits(o)
  {
    var header :=
      match o.addresses
      case V4(saddr, daddr) =>
        var check := Complement(Norm(HostSum(Ip4Header(saddr, daddr, SegmentLength(o), 0))));
        Ip4Header(saddr, daddr, SegmentLength(o), check)
      case V6(saddr, daddr) => Ip6Header(saddr, daddr, SegmentLength(o));
    header + Segment(o)
  }

  /** `write_tcp` up to the system call; the checksum is continued from piece to piece. */
  method WriteTcp(o: Outgoing) returns (packet: seq<u8>)
    requires Fits(o)
    ensures packet == Packet(o)
  {
    hide HostSum, Norm, Ip4Header, Ip6Header, TcpHeader, Options, CodePseudo;
    var header: seq<u8>;
    match o.addresses {
      case V4(saddr, daddr) =>
        var ipSum := CalcChecksum(0, Ip4Header(saddr, daddr, SegmentLength(o), 0));
        header := Ip4Header(saddr, daddr, SegmentLength(o), Complement(ipSum));
      case V6(saddr, daddr) =>
        header := Ip6Header(saddr, daddr, SegmentLength(o));
    }
    PseudoShort(o);
    var csum := CalcChecksum(0, CodePseudo(o));
    NormChains(HostSum(CodePseudo(o)), HostSum(TcpHeader(o, 0)));
    csum := CalcChecksum(csum, TcpHeader(o, 0));
    NormChains(HostSum(CodePseudo(o)) + HostSum(TcpHeader(o, 0)), HostSum(Options(o)));
    csum := CalcChecksum(csum, Options(o));
    NormChains(HostSum(CodePseudo(o)) + HostSum(TcpHeader(o, 0)) + HostSum(Options(o)), HostSum(o.data));
    csum := CalcChecksum(csum, o.data);
    packet := header + (TcpHeader(o, Complement(csum)) + Options(o) + o.data);
  }

  lemma PseudoShort(o: Outgoing)
    requires Fits(o)
    ensures |CodePseudo(o)| <= 40
  {
  }

  // ---------------------------------------------------------------- the receiver

  /** All words of `b` add up to 0xFFFF in one's complement, section 1 of RFC 1071. */
  ghost predicate Verifies(b: seq<u8>) {
    Norm(NetSum(b)) == 0xFFFF
  }

  /** The pseudo header a receiver makes of an IP header: section 3.1 of RFC 9293 and section 8.1 of
      RFC 8200. */
  function StandardPseudo(packet: seq<u8>, six: bool): seq<u8>
    requires |packet| >= if six then 40 else 20
  {
    if six then packet[8..24] + packet[24..40] + [0, 0] + packet[4..6] + [0, 0, 0] + [packet[6]]
    else packet[12..16] + packet[16..20] + [0] + [packet[9]]
         + Net16((Read16(packet[2..4]) as int - 20) % 0x1_0000)
  }

  /** Inserting the complement of a sum at an even place makes the whole verify. */
  lemma SealedVerifies(a: seq<u8>, x: seq<u8>, c: seq<u8>)
    requires |a| % 2 == 0 && |x| == 2 && NetSum(a + x + c) > 0
    requires HostSum(x) == Complement(Norm(HostSum(a) + HostSum(c)))
    ensures Verifies(a + x + c)
  {
    hide HostSum, NetSum, Norm;
    HostSumConcat(a + x, c);
    HostSumConcat(a, x);
    Sealed(HostSum(a) + HostSum(c));
    VerifiesInNetworkOrder(a + x + c);
  }

  /** A zero word adds nothing. */
  lemma ZeroWord(a: seq<u8>, c: seq<u8>)
    requires |a| % 2 == 0
    ensures HostSum(a + [0, 0] + c) == HostSum(a) + HostSum(c)
  {
    HostSumConcat(a + [0, 0], c);
    HostSumConcat(a, [0, 0]);
    assert [0, 0][2..] == [];
  }

  lemma {:induction false} SomeByte(b: seq<u8>, i: nat)
    requires i < |b| && b[i] != 0
    ensures NetSum(b) > 0
  {
    if i >= 2 { SomeByte(b[2..], i - 2); }
  }

  /** The IPv4 header verifies. */
  lemma Ip4HeaderVerifies(saddr: Bytes4, daddr: Bytes4, segment: u16)
    requires segment <= 65515
    ensures var check := Complement(Norm(HostSum(Ip4Header(saddr, daddr, segment, 0))));
            Verifies(Ip4Header(saddr, daddr, segment, check))
  {
    hide HostSum, NetSum, Norm, Net16, Host16;
    var a := [0x45, 0] + Net16(20 + segment) + [0, 0, 0, 0, IPDEFTTL, IPPROTO_TCP];
    var c := daddr + saddr;
    var check := Complement(Norm(HostSum(Ip4Header(saddr, daddr, segment, 0))));
    assert Host16(0) == [0, 0] by { Host16Zero(); }
    assert Ip4Header(saddr, daddr, segment, 0) == a + [0, 0] + c;
    assert Ip4Header(saddr, daddr, segment, check) == a + Host16(check) + c;
    ZeroWord(a, c);
    Host16Sum(check);
    SomeByte(a + Host16(check) + c, 0);
    SealedVerifies(a, Host16(check), c);
  }

  lemma Host16Zero()
    ensures Host16(0) == [0, 0]
  {
  }

  /** A segment verifies behind every pseudo header that adds up to what the code summed. */
  lemma SegmentVerifies(o: Outgoing, pseudo: seq<u8>)
    requires Fits(o) && |pseudo| % 2 == 0 && HostSum(pseudo) == HostSum(CodePseudo(o))
    ensures Verifies(pseudo + Segment(o))
  {
    hide HostSum, NetSum, Norm, HeaderStart, Options, CodePseudo, Net16, Host16;
    var h, check := HeaderStart(o), TcpCheck(o);
    var tail := [0, 0] + (Options(o) + o.data);
    var whole := pseudo + h + Host16(check) + tail;
    assert pseudo + Segment(o) == whole;
    SumParts(pseudo, h, Options(o), o.data);
    Host16Zero();
    ZeroTail(h);
    assert whole[|pseudo| + 12] == h[12];
    SomeByte(whole, |pseudo| + 12);
    Host16Sum(check);
    SealedVerifies(pseudo + h, Host16(check), tail);
  }

  lemma SumParts(pseudo: seq<u8>, start: seq<u8>, options: seq<u8>, data: seq<u8>)
    requires |pseudo| % 2 == 0 && |start| % 2 == 0 && |options| % 2 == 0
    ensures HostSum(pseudo + start) + HostSum([0, 0] + (options + data))
            == HostSum(pseudo) + HostSum(start) + HostSum(options) + HostSum(data)
  {
    hide HostSum;
    HostSumConcat(pseudo, start);
    ZeroWord([], options + data);
    HostSumEmpty();
    assert [] + [0, 0] + (options + data) == [0, 0] + (options + data);
    HostSumConcat(options, data);
  }

  lemma ZeroTail(a: seq<u8>)
    requires |a| % 2 == 0
    ensures HostSum(a + [0, 0] + [0, 0]) == HostSum(a)
  {
    hide HostSum;
    ZeroWord(a, [0, 0]);
    ZeroWord([], []);
    HostSumEmpty();
    assert [] + [0, 0] + [] == [0, 0];
  }

  lemma Ip4Fields(saddr: Bytes4, daddr: Bytes4, segment: u16, check: u16)
    requires segment <= 65515
    ensures var h := Ip4Header(saddr, daddr, segment, check);
            h[2..4] == Net16(20 + segment) && h[9] == IPPROTO_TCP && h[12..16] == daddr && h[16..20] == saddr
  {
    hide Net16, Host16;
  }

  lemma Standard4(o: Outgoing)
    requires Fits(o) && o.addresses.V4?
    ensures StandardPseudo(Packet(o), false) == CodePseudo(o)
  {
    hide HostSum, Norm, Segment, Net16, Ip4Header, Read16;
    var p, s, d, n := Packet(o), o.addresses.saddr, o.addresses.daddr, SegmentLength(o);
    var check := Complement(Norm(HostSum(Ip4Header(s, d, n, 0))));
    var h := Ip4Header(s, d, n, check);
    Ip4Fields(s, d, n, check);
    assert p == h + Segment(o);
    assert p[2..4] == h[2..4] && p[12..16] == h[12..16] && p[16..20] == h[16..20] && p[9] == h[9];
    Net16Reads(20 + n);
    assert (Read16(p[2..4]) as int - 20) % 0x1_0000 == n;
  }

  lemma Standard6(o: Outgoing)
    requires Fits(o) && o.addresses.V6?
    ensures HostSum(StandardPseudo(Packet(o), true)) == HostSum(CodePseudo(o))
    ensures |StandardPseudo(Packet(o), true)| == 40
  {
    hide HostSum, Segment, Net16;
    var p := Packet(o);
    var d: seq<u8>, s: seq<u8>, n := o.addresses.daddr6, o.addresses.saddr6, Net16(SegmentLength(o));
    var z := [0, IPPROTO_TCP];
    assert p[8..24] == d && p[24..40] == s && p[4..6] == n && p[6] == IPPROTO_TCP;
    assert StandardPseudo(p, true) == (d + s) + [0, 0] + (n + [0, 0] + z);
    assert CodePseudo(o) == (s + d) + ((n + [0, 0]) + [0, 0] + z);
    ZeroWord(d + s, n + [0, 0] + z);
    HostSumConcat(s + d, (n + [0, 0]) + [0, 0] + z);
    ZeroWord(n + [0, 0], z);
    HostSumConcat(n + [0, 0], z);
    HostSumConcat(d, s);
    HostSumConcat(s, d);
  }

  /** Every packet `write_tcp` builds passes the checks of its receiver: the IPv4 header and, behind the
      standard pseudo header, the TCP segment. */
  lemma PacketVerifies(o: Outgoing)
    requires Fits(o)
    ensures o.addresses.V4? ==>
              Verifies(Packet(o)[..20]) && Verifies(StandardPseudo(Packet(o), false) + Packet(o)[20..])
    ensures o.addresses.V6? ==> Verifies(StandardPseudo(Packet(o), true) + Packet(o)[40..])
  {
    hide HostSum, Norm, Segment, Ip4Header, Ip6Header, StandardPseudo, CodePseudo, Verifies;
    match o.addresses {
      case V4(saddr, daddr) =>
        Ip4HeaderVerifies(saddr, daddr, SegmentLength(o));
        Standard4(o);
        SegmentVerifies(o, CodePseudo(o));
        assert Packet(o)[20..] == Segment(o);
      case V6(saddr, daddr) =>
        Standard6(o);
        SegmentVerifies(o, StandardPseudo(Packet(o), true));
        assert Packet(o)[40..] == Segment(o);
    }
  }

  // ---------------------------------------------------------------- reading a segment

  datatype Fields = Fields(
    source: u16, dest: u16, seqNo: u32, ackNo: u32, syn: bool, ack: bool, fin: bool, rst: bool,
    window: u16, data: seq<u8>)

  /** The header of section 3.1 of RFC 9293. */
  function ReadSegment(t: seq<u8>): Fields
    requires |t| >= 20 && 20 <= t[12] / 16 * 4 <= |t|
  {
    Fields(Read16(t[0..2]), Read16(t[2..4]), Read32(t[4..8]), Read32(t[8..12]), t[13] / 2 % 2 == 1, t[13] / 16 % 2 == 1,
           t[13] % 2 == 1, t[13] / 4 % 2 == 1, Read16(t[14..16]), t[t[12] / 16 * 4..])
  }

  function Meant(o: Outgoing): Fields {
    Fields(o.dest, o.source, o.localSeq, if o.ack then o.remoteSeq else 0,
           o.syn, o.ack, o.fin, o.rst, Window(o), o.data)
  }

  /** The app reads what was meant, with the ends of the connection exchanged. */
  lemma SegmentReads(o: Outgoing)
    requires Fits(o)
    ensures var t := Segment(o);
            && |t| >= 20 && 20 <= t[12] / 16 * 4 <= |t|
            && ReadSegment(t) == Meant(o)
  {
    hide Net16, Net32, Host16, Read16, Read32, TcpCheck, Window;
    Net16Reads(o.dest);
    Net16Reads(o.source);
    Net16Reads(Window(o));
    Net32Reads(o.localSeq);
    Net32Reads(if o.ack then o.remoteSeq else 0);
    var t := Segment(o);
    assert t[0..2] == Net16(o.dest) && t[2..4] == Net16(o.source);
    assert t[4..8] == Net32(o.localSeq) && t[8..12] == Net32(if o.ack then o.remoteSeq else 0);
    assert t[14..16] == Net16(Window(o));
    assert t[12] == (20 + OptionLength(o)) / 4 * 16 && t[13] == Flags(o);
    assert t[20 + OptionLength(o)..] == o.data;
  }

  // ---------------------------------------------------------------- the packet as it is received

  /** What becomes of a packet: the addresses it came from and went to, how far it may go, and its
      segment. */
  datatype Reading = Dropped | Accepted(from: seq<u8>, to: seq<u8>, hops: u8, fields: Fields, options: seq<u8>)

  /** Version, lengths, fragmentation and checksum of section 3.1 of RFC 791; the segment is cut by the total
      length. */
  ghost function Receive4(p: seq<u8>): Reading
    requires |p| >= 20
  {
    var header, total := p[0] % 16 * 4, Read16(p[2..4]);
    if header < 20 || total < header || |p| < total || p[6] % 64 > 0 || p[7] > 0 || !Verifies(p[..header])
       || p[9] != 6
    then Dropped
    else Open(p[12..16], p[16..20], p[8], p[12..16] + p[16..20] + [0, p[9]] + Net16(total - header), p[header..total])
  }

  /** The header of section 3 of RFC 8200. */
  ghost function Receive6(p: seq<u8>): Reading
    requires |p| >= 40
  {
    var payload := Read16(p[4..6]);
    if |p| < 40 + payload || p[6] != 6 then Dropped
    else Open(p[8..24], p[24..40], p[7], p[8..24] + p[24..40] + Net32(payload) + [0, 0, 0, p[6]], p[40..40 + payload])
  }

  ghost function Open(from: seq<u8>, to: seq<u8>, hops: u8, pseudo: seq<u8>, t: seq<u8>): Reading {
    if Verifies(pseudo + t) && |t| >= 20 && 20 <= t[12] / 16 * 4 <= |t|
    then Accepted(from, to, hops, ReadSegment(t), t[20..t[12] / 16 * 4])
    else Dropped
  }

  ghost function Receive(p: seq<u8>): Reading {
    if |p| >= 20 && p[0] / 16 == 4 then Receive4(p)
    else if |p| >= 40 && p[0] / 16 == 6 then Receive6(p)
    else Dropped
  }

  /** The length fields hold the size of the packet. */
  lemma LengthFields(o: Outgoing)
    requires Fits(o)
    ensures var p := Packet(o);
            if o.addresses.V4? then |p| >= 20 && Read16(p[2..4]) == |p| else |p| >= 40 && Read16(p[4..6]) == |p| - 40
  {
    hide Ip4Header, HostSum, Norm, Net16, Read16, Segment;
    var p, n := Packet(o), SegmentLength(o);
    SegmentSize(o);
    match o.addresses {
      case V4(s, d) =>
        var check := Complement(Norm(HostSum(Ip4Header(s, d, n, 0))));
        Ip4Fields(s, d, n, check);
        assert p[2..4] == Ip4Header(s, d, n, check)[2..4];
        Net16Reads(20 + n);
      case V6(s, d) =>
        assert p[4..6] == Net16(n);
        Net16Reads(n);
    }
  }

  /** The headers have no options, extensions, traffic class or flow label, and the packet is no fragment. */
  lemma PlainHeaders(o: Outgoing)
    requires Fits(o)
    ensures var p := Packet(o);
            |p| >= 20 && if o.addresses.V4? then p[..2] == [0x45, 0] && p[4..8] == [0, 0, 0, 0]
                         else p[..4] == [0x60, 0, 0, 0] && p[6] == 6
  {
    hide HostSum, Norm, Net16, Segment, Host16;
  }

  lemma SegmentSize(o: Outgoing)
    requires Fits(o)
    ensures |Segment(o)| == SegmentLength(o)
  {
    hide TcpHeader, Options;
  }

  lemma Ip4Start(saddr: Bytes4, daddr: Bytes4, segment: u16, check: u16)
    requires segment <= 65515
    ensures var h := Ip4Header(saddr, daddr, segment, check);
            h[0] == 0x45 && h[6] == 0 && h[7] == 0 && h[8] == 64 && h[9] == 6
  {
    hide Net16, Host16;
  }

  /** Every packet written is accepted by its receiver, which cuts it by its length field, and read as it was
      meant: from the server's address to the app's, whole, with the fields and options of the segment. */
  lemma PacketReceived(o: Outgoing)
    requires Fits(o)
    ensures match o.addresses
            case V4(app, server) => Receive(Packet(o)) == Accepted(server, app, 64, Meant(o), Options(o))
            case V6(app, server) => Receive(Packet(o)) == Accepted(server, app, 64, Meant(o), Options(o))
  {
    hide Packet, Segment, Meant, Options, Receive4, Receive6;
    match o.addresses {
      case V4(_, _) => PacketReceived4(o); assert Packet(o)[0] / 16 == 4;
      case V6(_, _) => PacketReceived6(o); assert Packet(o)[0] / 16 == 6;
    }
  }

  lemma PacketReceived4(o: Outgoing)
    requires Fits(o) && o.addresses.V4?
    ensures |Packet(o)| >= 20 && Packet(o)[0] / 16 == 4
    ensures Receive4(Packet(o)) == Accepted(o.addresses.daddr, o.addresses.saddr, 64, Meant(o), Options(o))
  {
    hide Segment, Ip4Header, Net16, Read16, HostSum, Norm, Verifies, ReadSegment, Options, Window;
    var p, t := Packet(o), Segment(o);
    PacketVerifies(o);
    LengthFields(o);
    SegmentSize(o);
    SegmentReads(o);
    OptionsPlace(o);
    var h := p[..20];
    var check := Complement(Norm(HostSum(Ip4Header(o.addresses.saddr, o.addresses.daddr, SegmentLength(o), 0))));
    assert h == Ip4Header(o.addresses.saddr, o.addresses.daddr, SegmentLength(o), check);
    Ip4Start(o.addresses.saddr, o.addresses.daddr, SegmentLength(o), check);
    Ip4Fields(o.addresses.saddr, o.addresses.daddr, SegmentLength(o), check);
    assert p[0] == h[0] && p[6] == h[6] && p[7] == h[7] && p[8] == h[8] && p[9] == h[9];
    assert p[12..16] == h[12..16] && p[16..20] == h[16..20];
    assert p[20..] == t && p[20..|p|] == t;
    assert p[12..16] + p[16..20] + [0, p[9]] + Net16(|p| - 20) == StandardPseudo(p, false);
  }

  lemma PacketReceived6(o: Outgoing)
    requires Fits(o) && o.addresses.V6?
    ensures |Packet(o)| >= 40 && Packet(o)[0] / 16 == 6
    ensures Receive6(Packet(o)) == Accepted(o.addresses.daddr6, o.addresses.saddr6, 64, Meant(o), Options(o))
  {
    hide Segment, Net16, Net32, Read16, HostSum, Norm, Verifies, ReadSegment, Options, Window;
    var p, t := Packet(o), Segment(o);
    PacketVerifies(o);
    LengthFields(o);
    SegmentSize(o);
    SegmentReads(o);
    OptionsPlace(o);
    assert p[40..] == t && p[40..|p|] == t;
    assert p[8..24] == o.addresses.daddr6 && p[24..40] == o.addresses.saddr6 && p[6] == 6 && p[7] == 64 && p[0] == 0x60;
    Net32Small(|p| - 40);
    Net16Reads(|p| - 40);
    assert p[4..6] == Net16(|p| - 40);
    assert p[8..24] + p[24..40] + Net32(|p| - 40) + [0, 0, 0, p[6]] == StandardPseudo(p, true);
  }

  lemma Net32Small(n: nat)
    requires n < 0x1_0000
    ensures Net32(n) == [0, 0] + Net16(n)
  {
  }

  lemma OptionsPlace(o: Outgoing)
    requires Fits(o)
    ensures var t := Segment(o); |t| >= 20 && 20 <= t[12] / 16 * 4 <= |t| && t[20..t[12] / 16 * 4] == Options(o)
  {
    hide HeaderStart, Host16, TcpCheck, Options;
    var t := Segment(o);
    assert t[12] == HeaderStart(o)[12];
  }

  // ---------------------------------------------------------------- the options of the SYN-ACK

  /** Section 3.1 of RFC 9293 and section 2.2 of RFC 7323: the maximum segment size and the window scale. */
  datatype TcpOptions = TcpOptions(mss: seq<u16>, scale: seq<u8>)

  function ReadOptions(b: seq<u8>): TcpOptions {
    if b == [] || b[0] == 0 then TcpOptions([], [])
    else if b[0] == 1 then ReadOptions(b[1..])
    else if |b| < 2 || b[1] < 2 || b[1] > |b| then TcpOptions([], [])
    else
      var rest := ReadOptions(b[b[1]..]);
      if b[0] == 2 && b[1] == 4 then rest.(mss := [Read16(b[2..4])] + rest.mss)
      else if b[0] == 3 && b[1] == 3 then rest.(scale := [b[2]] + rest.scale)
      else rest
  }

  function Swapped(x: u16): u16 {
    x % 256 * 256 + x / 256
  }

  /** The app reads the window scale that was meant, and the maximum segment size with its bytes exchanged: instead of
      9960 or 9940 bytes it reads 59430 or 54310.  The other packets carry no options. */
  lemma OptionsRead(o: Outgoing)
    ensures ReadOptions(Options(o))
            == if o.syn then TcpOptions([Swapped(DefaultMss(o))], [o.recvScale]) else TcpOptions([], [])
    ensures DefaultMss(o) == (if o.addresses.V4? then 9960 else 9940)
    ensures Swapped(DefaultMss(o)) == (if o.addresses.V4? then 59430 else 54310)
  {
    if o.syn {
      var b := Options(o);
      var c := b[4..];
      assert c == [3, 3, o.recvScale, 0] && c[3..] == [0] && b[2..4] == Host16(DefaultMss(o));
      assert ReadOptions([0]) == TcpOptions([], []);
      assert ReadOptions(c) == TcpOptions([], [o.recvScale]);
    }
  }

  /** The app never reads a wider window than there is, and loses less than one unit of the scale. */
  lemma WindowRead(o: Outgoing)
    requires o.recvWindow <= 0xFFFF * Pow2(o.recvScale)
    ensures Window(o) * Pow2(o.recvScale) <= o.recvWindow < (Window(o) + 1) * Pow2(o.recvScale)
  {
    hide Pow2, Window;
    Divided(o.recvWindow, Pow2(o.recvScale));
    WindowIs(o);
  }

  lemma WindowIs(o: Outgoing)
    requires o.recvWindow / Pow2(o.recvScale) <= 0xFFFF
    ensures Window(o) == o.recvWindow / Pow2(o.recvScale)
  {
    hide Pow2;
  }

  lemma Divided(x: nat, p: nat)
    requires p > 0 && x <= 0xFFFF * p
    ensures x / p * p <= x < (x / p + 1) * p && x / p <= 0xFFFF
  {
    var q := x / p;
    Quotient(x, p);
    if q > 0xFFFF { Grows(q, 0x1_0000, p); }
  }

  lemma Quotient(x: nat, p: nat)
    requires p > 0
    ensures x / p * p <= x < (x / p + 1) * p
  {
  }

  lemma Grows(q: nat, r: nat, p: nat)
    requires q >= r && p > 0
    ensures q * p >= r * p
  {
  }
}
