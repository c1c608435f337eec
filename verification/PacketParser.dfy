/** Bounded Ethernet/VLAN/IPv4/TCP/UDP header parsing. */
module PacketParser {
  import opened Common
  import opened Cursors

  const ETH_LEN := 14
  const VLAN_LEN := 4
  const IPV4_MIN := 20
  const TCP_MIN := 20
  const UDP_LEN := 8

  const ETHERTYPE_IPV4 := 0x0800
  const ETHERTYPE_8021Q := 0x8100
  const ETHERTYPE_8021AD := 0x88A8
  const PROTO_TCP := 6
  const PROTO_UDP := 17
  const IP_FAMILY_V4 := 4

  const PARSE_FLAG_IP_OPTIONS := 2
  const PARSE_FLAG_IP_FRAGMENTED := 4

  /** `srcAddr` and `dstAddr` are the IPv4 words that the 16-byte storage zero-extends. */
  datatype ParsedFlow = ParsedFlow(
    srcAddr: u32, dstAddr: u32, srcPortBe: u16, dstPortBe: u16, protocol: byte,
    ipFamily: byte, tcpFlags: u16, parseFlags: u16, payloadOffset: nat, payloadEnd: nat)

  datatype ParseResult = Flow(flow: ParsedFlow) | Skipped | Truncated | Invalid {
    predicate IsFailure() { Truncated? || Invalid? }
  }

  function Parse(c: Cursor): ParseResult {
    match ReadU16(c, 12)
    case None => Truncated
    case Some(outer) =>
      if outer == ETHERTYPE_8021Q || outer == ETHERTYPE_8021AD then
        match ReadU16(c, ETH_LEN + 2)
        case None => Truncated
        case Some(inner) => if inner != ETHERTYPE_IPV4 then Skipped else ParseIpv4(c, ETH_LEN + VLAN_LEN)
      else if outer != ETHERTYPE_IPV4 then Skipped
      else ParseIpv4(c, ETH_LEN)
  }

  function ParseIpv4(c: Cursor, l3: nat): ParseResult {
    match ReadIpHeader(c, l3)
    case Stop(result) => result
    case Header(ihl, total, fragment, protocol, src, dst) =>
      ParseTransport(c, l3 + ihl * 4, l3 + total, src, dst, protocol, ParseFlags(ihl, fragment))
  }

  datatype IpHeader =
    | Header(ihl: nat, total: u16, fragment: u16, protocol: byte, src: u32, dst: u32)
    | Stop(result: ParseResult)

  function ParseFlags(ihl: nat, fragment: u16): u16 {
    (if ihl > IPV4_MIN / 4 then PARSE_FLAG_IP_OPTIONS else 0)
    + (if fragment / 0x2000 % 2 != 0 then PARSE_FLAG_IP_FRAGMENTED else 0)
  }

  function ReadIpHeader(c: Cursor, l3: nat): IpHeader {
    match ReadU8(c, l3) case None => Stop(Truncated) case Some(vihl) =>
    if vihl / 16 != 4 then Stop(Invalid) else
    var ihl := vihl % 16;
    if ihl < IPV4_MIN / 4 then Stop(Invalid) else
    match ReadU16(c, l3 + 2) case None => Stop(Truncated) case Some(total) =>
    if total < ihl * 4 then Stop(Invalid) else
    match ReadU16(c, l3 + 6) case None => Stop(Truncated) case Some(fragment) =>
    if fragment % 0x2000 != 0 then Stop(Skipped) else
    match ReadU8(c, l3 + 9) case None => Stop(Truncated) case Some(protocol) =>
    match ReadU32(c, l3 + 12) case None => Stop(Truncated) case Some(src) =>
    match ReadU32(c, l3 + 16) case None => Stop(Truncated) case Some(dst) =>
    Header(ihl, total, fragment, protocol, src, dst)
  }

  function ParseTransport(c: Cursor, l4: nat, end: nat, src: u32, dst: u32, protocol: byte, flags: u16): ParseResult {
    if protocol != PROTO_TCP && protocol != PROTO_UDP then Skipped else
    var minimum := if protocol == PROTO_TCP then TCP_MIN else UDP_LEN;
    if l4 + minimum > end || !Has(c, l4, minimum) then Truncated else
    match ReadU16(c, l4) case None => Truncated case Some(srcPort) =>
    match ReadU16(c, l4 + 2) case None => Truncated case Some(dstPort) =>
    match if protocol == PROTO_TCP then ReadTcpTail(c, l4, end) else Tail(0, UDP_LEN)
    case TailStop(result) => result
    case Tail(tcpFlags, length) =>
      Flow(ParsedFlow(src, dst, ToBe(srcPort), ToBe(dstPort), protocol,
        IP_FAMILY_V4, tcpFlags, flags, l4 + length, end))
  }

  datatype TransportTail = Tail(tcpFlags: u16, length: nat) | TailStop(result: ParseResult)

  function ReadTcpTail(c: Cursor, l4: nat, end: nat): TransportTail {
    match ReadU16(c, l4 + 12) case None => TailStop(Truncated) case Some(offsetFlags) =>
    var words := offsetFlags / 0x1000;
    if words < TCP_MIN / 4 then TailStop(Invalid)
    else if l4 + words * 4 > end || !Has(c, l4, words * 4) then TailStop(Truncated)
    else Tail(offsetFlags % 0x200, words * 4)
  }

  // ------------------------------------------------------- printed headers

  datatype Tag = Untagged | Tagged(tpid: u16, tci: u16)

  datatype Transport =
    | Tcp(srcPort: u16, dstPort: u16, seqAck: seq<byte>, words: nat, flags: u16, tail: seq<byte>)
    | Udp(srcPort: u16, dstPort: u16, tail: seq<byte>)
  {
    ghost predicate Valid() {
      match this
      case Tcp(_, _, seqAck, words, flags, tail) =>
        5 <= words <= 15 && |seqAck| == 8 && flags < 0x1000 && |tail| == words * 4 - 14
      case Udp(_, _, tail) => |tail| == 4
    }

    ghost function Protocol(): byte { if Tcp? then PROTO_TCP else PROTO_UDP }

    ghost function Print(): (p: seq<byte>)
      requires Valid()
      ensures |p| == if Tcp? then words * 4 else UDP_LEN
    {
      match this
      case Tcp(srcPort, dstPort, seqAck, words, flags, tail) =>
        Be16(srcPort) + Be16(dstPort) + seqAck + Be16(words * 0x1000 + flags) + tail
      case Udp(srcPort, dstPort, tail) => Be16(srcPort) + Be16(dstPort) + tail
    }
  }

  /** Every header field up to the L4 payload; fields the parser ignores are arbitrary. */
  datatype Headers = Headers(
    macs: seq<byte>, tag: Tag, tos: byte, total: u16, ident: seq<byte>, fragment: u16, ttl: byte,
    checksum: seq<byte>, src: u32, dst: u32, options: seq<byte>, transport: Transport)
  {
    ghost predicate Valid() {
      && |macs| == 12 && |ident| == 2 && |checksum| == 2
      && (tag.Tagged? ==> tag.tpid == ETHERTYPE_8021Q || tag.tpid == ETHERTYPE_8021AD)
      && |options| % 4 == 0 && |options| <= 40
      && fragment % 0x2000 == 0
      && transport.Valid()
      && total >= IPV4_MIN + |options| + |transport.Print()|
    }

    ghost function Ihl(): nat { 5 + |options| / 4 }

    ghost function L3(): nat { if tag.Tagged? then 18 else 14 }

    ghost function PrintEth(): seq<byte> {
      if tag.Tagged? then macs + Be16(tag.tpid) + Be16(tag.tci) + Be16(ETHERTYPE_IPV4)
      else macs + Be16(ETHERTYPE_IPV4)
    }

    ghost function IpFront(): (p: seq<byte>)
      requires Valid()
      ensures |p| == 8
    {
      [64 + Ihl(), tos] + Be16(total) + ident + Be16(fragment)
    }

    ghost function IpBack(): (p: seq<byte>)
      requires Valid()
      ensures |p| == 12 + |options|
    {
      [ttl, transport.Protocol()] + checksum + Be32(src) + Be32(dst) + options
    }

    ghost function PrintIp(): (p: seq<byte>)
      requires Valid()
      ensures |p| == Ihl() * 4
    {
      IpFront() + IpBack()
    }

    ghost function Print(): seq<byte>
      requires Valid()
    {
      PrintEth() + PrintIp() + transport.Print()
    }

    /** What a parser must report for these headers. */
    ghost function Meaning(): ParsedFlow
      requires Valid()
    {
      var flags := (if options != [] then PARSE_FLAG_IP_OPTIONS else 0)
                 + (if fragment / 0x2000 % 2 != 0 then PARSE_FLAG_IP_FRAGMENTED else 0);
      ParsedFlow(src, dst, ToBe(transport.srcPort), ToBe(transport.dstPort),
                 transport.Protocol(), IP_FAMILY_V4, if transport.Tcp? then transport.flags % 0x200 else 0, flags,
                 L3() + IPV4_MIN + |options| + |transport.Print()|, L3() + total)
    }
  }

  // ------------------------------------------------------- round trip

  ghost predicate ShowsEth(c: Cursor, tag: Tag) {
    if tag.Tagged? then ReadU16(c, 12) == Some(tag.tpid) && ReadU16(c, 16) == Some(ETHERTYPE_IPV4)
    else ReadU16(c, 12) == Some(ETHERTYPE_IPV4)
  }

  /** The reads of an IPv4 header at `l3` that is a first fragment. */
  ghost predicate ShowsIp(c: Cursor, l3: nat, ihl: nat, total: u16, fragment: u16, protocol: byte) {
    && 5 <= ihl <= 15 && ReadU8(c, l3) == Some(64 + ihl)
    && ReadU16(c, l3 + 2) == Some(total) && total >= ihl * 4
    && ReadU16(c, l3 + 6) == Some(fragment) && fragment % 0x2000 == 0
    && ReadU8(c, l3 + 9) == Some(protocol)
    && ReadU32(c, l3 + 12).Some? && ReadU32(c, l3 + 16).Some?
  }

  /** The reads of a complete transport header of `length` bytes at `l4`. */
  ghost predicate ShowsTransport(c: Cursor, l4: nat, end: nat, protocol: byte, length: nat) {
    && length > 0 && l4 + length <= end && l4 + length <= c.Limit()
    && ReadU16(c, l4).Some? && ReadU16(c, l4 + 2).Some?
    && if protocol == PROTO_UDP then length == UDP_LEN
       else protocol == PROTO_TCP && length >= TCP_MIN && ReadU16(c, l4 + 12).Some?
            && length == ReadU16(c, l4 + 12).value / 0x1000 * 4
  }

  ghost function TransportFlow(c: Cursor, l4: nat, end: nat, src: u32, dst: u32, protocol: byte, flags: u16,
                               length: nat): ParsedFlow
    requires ShowsTransport(c, l4, end, protocol, length)
  {
    ParsedFlow(src, dst, ToBe(ReadU16(c, l4).value), ToBe(ReadU16(c, l4 + 2).value), protocol, IP_FAMILY_V4,
               if protocol == PROTO_TCP then ReadU16(c, l4 + 12).value % 0x200 else 0, flags, l4 + length, end)
  }

  lemma TransportParses(c: Cursor, l4: nat, end: nat, src: u32, dst: u32, protocol: byte, flags: u16, length: nat)
    requires ShowsTransport(c, l4, end, protocol, length)
    ensures ParseTransport(c, l4, end, src, dst, protocol, flags)
         == Flow(TransportFlow(c, l4, end, src, dst, protocol, flags, length))
  {
  }

  lemma IpParses(c: Cursor, l3: nat, ihl: nat, total: u16, fragment: u16, protocol: byte)
    requires ShowsIp(c, l3, ihl, total, fragment, protocol)
    ensures ReadIpHeader(c, l3)
            == Header(ihl, total, fragment, protocol, ReadU32(c, l3 + 12).value, ReadU32(c, l3 + 16).value)
  {
    assert (64 + ihl) / 16 == 4 && (64 + ihl) % 16 == ihl;
  }

  lemma EthParses(c: Cursor, tag: Tag)
    requires ShowsEth(c, tag) && (tag.Tagged? ==> tag.tpid == ETHERTYPE_8021Q || tag.tpid == ETHERTYPE_8021AD)
    ensures Parse(c) == ParseIpv4(c, if tag.Tagged? then 18 else 14)
  {
  }

  /** `c` shows every field of `h` that the parser reports. */
  ghost predicate Shows(c: Cursor, h: Headers)
    requires h.Valid()
  {
    var l4 := h.L3() + h.Ihl() * 4;
    && ShowsEth(c, h.tag)
    && ShowsIp(c, h.L3(), h.Ihl(), h.total, h.fragment, h.transport.Protocol())
    && ReadU32(c, h.L3() + 12) == Some(h.src) && ReadU32(c, h.L3() + 16) == Some(h.dst)
    && ShowsTransport(c, l4, h.L3() + h.total, h.transport.Protocol(), |h.transport.Print()|)
    && ReadU16(c, l4) == Some(h.transport.srcPort) && ReadU16(c, l4 + 2) == Some(h.transport.dstPort)
    && (h.transport.Tcp? ==> ReadU16(c, l4 + 12).value % 0x200 == h.transport.flags % 0x200)
  }

  lemma ShownParses(c: Cursor, h: Headers)
    requires h.Valid() && Shows(c, h)
    ensures Parse(c) == Flow(h.Meaning())
  {
    hide Parse, ReadIpHeader, ParseTransport, ReadU8, ReadU16, ReadU32, ToBe, Transport.Print;
    EthParses(c, h.tag);
    IpParses(c, h.L3(), h.Ihl(), h.total, h.fragment, h.transport.Protocol());
    TransportParses(c, h.L3() + h.Ihl() * 4, h.L3() + h.total, h.src, h.dst,
                    h.transport.Protocol(), ParseFlags(h.Ihl(), h.fragment), |h.transport.Print()|);
  }

  lemma EthShown(h: Headers, rest: seq<byte>)
    requires h.Valid()
    ensures ShowsEth(Memory(h.PrintEth() + rest), h.tag)
    ensures |h.PrintEth()| == h.L3()
  {
    var d := h.PrintEth() + rest;
    if h.tag.Tagged? {
      assert d[12..14] == Be16(h.tag.tpid);
      assert d[16..18] == Be16(ETHERTYPE_IPV4);
      At16(d, 12, h.tag.tpid);
      At16(d, 16, ETHERTYPE_IPV4);
    } else {
      assert d[12..14] == Be16(ETHERTYPE_IPV4);
      At16(d, 12, ETHERTYPE_IPV4);
    }
  }

  lemma Slice(d: seq<byte>, n: nat, p: seq<byte>, i: nat, j: nat)
    requires n + |p| <= |d| && d[n..n + |p|] == p && i <= j <= |p|
    ensures d[n + i..n + j] == p[i..j]
  {
    forall k | 0 <= k < j - i
      ensures d[n + i..n + j][k] == p[i..j][k]
    {
      assert d[n..n + |p|][i + k] == d[n + i + k];
    }
  }

  lemma IpFrontShown(h: Headers, d: seq<byte>, n: nat)
    requires h.Valid() && n + 8 <= |d| && d[n..n + 8] == h.IpFront()
    ensures ReadU8(Memory(d), n) == Some(64 + h.Ihl())
    ensures ReadU16(Memory(d), n + 2) == Some(h.total) && ReadU16(Memory(d), n + 6) == Some(h.fragment)
  {
    var p := h.IpFront();
    assert d[n] == d[n..n + 8][0];
    assert p[2..4] == Be16(h.total) && p[6..8] == Be16(h.fragment);
    Slice(d, n, p, 2, 4);
    Slice(d, n, p, 6, 8);
    At16(d, n + 2, h.total);
    At16(d, n + 6, h.fragment);
  }

  lemma IpBackShown(h: Headers, d: seq<byte>, n: nat)
    requires h.Valid() && n + |h.IpBack()| <= |d| && d[n..n + |h.IpBack()|] == h.IpBack()
    ensures ReadU8(Memory(d), n + 1) == Some(h.transport.Protocol())
    ensures ReadU32(Memory(d), n + 4) == Some(h.src) && ReadU32(Memory(d), n + 8) == Some(h.dst)
  {
    var p := h.IpBack();
    assert d[n + 1] == d[n..n + |p|][1];
    assert p[4..8] == Be32(h.src) && p[8..12] == Be32(h.dst);
    Slice(d, n, p, 4, 8);
    Slice(d, n, p, 8, 12);
    At32(d, n + 4, h.src);
    At32(d, n + 8, h.dst);
  }

  lemma IpShown(h: Headers, eth: seq<byte>, rest: seq<byte>)
    requires h.Valid()
    ensures var c := Memory(eth + h.PrintIp() + rest);
      && ShowsIp(c, |eth|, h.Ihl(), h.total, h.fragment, h.transport.Protocol())
      && ReadU32(c, |eth| + 12) == Some(h.src) && ReadU32(c, |eth| + 16) == Some(h.dst)
  {
    hide Be16, Be32, Headers.IpFront, Headers.IpBack;
    var d, n := eth + h.PrintIp() + rest, |eth|;
    assert d[n..n + 8] == h.IpFront();
    assert d[n + 8..n + 8 + |h.IpBack()|] == h.IpBack();
    IpFrontShown(h, d, n);
    IpBackShown(h, d, n + 8);
  }

  lemma TransportAt(t: Transport, d: seq<byte>, n: nat)
    requires t.Valid() && n + |t.Print()| <= |d| && d[n..n + |t.Print()|] == t.Print()
    ensures ReadU16(Memory(d), n) == Some(t.srcPort) && ReadU16(Memory(d), n + 2) == Some(t.dstPort)
    ensures t.Tcp? ==> ReadU16(Memory(d), n + 12) == Some(t.words * 0x1000 + t.flags)
  {
    hide Be16;
    var p := t.Print();
    assert p[0..2] == Be16(t.srcPort) && p[2..4] == Be16(t.dstPort);
    Slice(d, n, p, 0, 2);
    Slice(d, n, p, 2, 4);
    At16(d, n, t.srcPort);
    At16(d, n + 2, t.dstPort);
    if t.Tcp? {
      assert p[12..14] == Be16(t.words * 0x1000 + t.flags);
      Slice(d, n, p, 12, 14);
      At16(d, n + 12, t.words * 0x1000 + t.flags);
    }
  }

  lemma TransportShown(t: Transport, before: seq<byte>, rest: seq<byte>, end: nat)
    requires t.Valid() && end >= |before| + |t.Print()|
    ensures var c, l4 := Memory(before + t.Print() + rest), |before|;
      && ShowsTransport(c, l4, end, t.Protocol(), |t.Print()|)
      && ReadU16(c, l4) == Some(t.srcPort) && ReadU16(c, l4 + 2) == Some(t.dstPort)
      && (t.Tcp? ==> ReadU16(c, l4 + 12).value % 0x200 == t.flags % 0x200)
  {
    hide Be16, Transport.Print, ReadU16;
    var d := before + t.Print() + rest;
    assert d[|before|..|before| + |t.Print()|] == t.Print();
    TransportAt(t, d, |before|);
  }

  lemma PrintShownEth(h: Headers, rest: seq<byte>)
    requires h.Valid()
    ensures ShowsEth(Memory(h.Print() + rest), h.tag)
  {
    hide Headers.PrintEth, Headers.PrintIp, Transport.Print, ShowsEth;
    assert h.Print() + rest == h.PrintEth() + (h.PrintIp() + h.transport.Print() + rest);
    EthShown(h, h.PrintIp() + h.transport.Print() + rest);
  }

  lemma PrintShownIp(h: Headers, rest: seq<byte>)
    requires h.Valid()
    ensures var c := Memory(h.Print() + rest);
      && ShowsIp(c, h.L3(), h.Ihl(), h.total, h.fragment, h.transport.Protocol())
      && ReadU32(c, h.L3() + 12) == Some(h.src) && ReadU32(c, h.L3() + 16) == Some(h.dst)
  {
    hide Headers.PrintEth, Headers.PrintIp, Transport.Print, ShowsIp, ShowsEth, ReadU32;
    assert h.Print() + rest == h.PrintEth() + h.PrintIp() + (h.transport.Print() + rest);
    IpShown(h, h.PrintEth(), h.transport.Print() + rest);
    EthShown(h, []);
  }

  lemma PrintShownTransport(h: Headers, rest: seq<byte>)
    requires h.Valid()
    ensures var c, l4 := Memory(h.Print() + rest), h.L3() + h.Ihl() * 4;
      && ShowsTransport(c, l4, h.L3() + h.total, h.transport.Protocol(), |h.transport.Print()|)
      && ReadU16(c, l4) == Some(h.transport.srcPort) && ReadU16(c, l4 + 2) == Some(h.transport.dstPort)
      && (h.transport.Tcp? ==> ReadU16(c, l4 + 12).value % 0x200 == h.transport.flags % 0x200)
  {
    hide Headers.PrintEth, Headers.PrintIp, Transport.Print, ShowsIp, ShowsEth, ShowsTransport, ReadU16;
    assert h.Print() + rest == (h.PrintEth() + h.PrintIp()) + h.transport.Print() + rest;
    EthShown(h, []);
    IpShown(h, [], []);
    TransportShown(h.transport, h.PrintEth() + h.PrintIp(), rest, h.L3() + h.total);
  }

  lemma PrintShown(h: Headers, rest: seq<byte>)
    requires h.Valid()
    ensures Shows(Memory(h.Print() + rest), h)
  {
    PrintShownEth(h, rest);
    PrintShownIp(h, rest);
    PrintShownTransport(h, rest);
  }

  /** Parsing inverts printing for every tag, IP header length and TCP data offset. */
  lemma ParseInvertsPrint(h: Headers, rest: seq<byte>)
    requires h.Valid()
    ensures Parse(Memory(h.Print() + rest)) == Flow(h.Meaning())
  {
    PrintShown(h, rest);
    ShownParses(Memory(h.Print() + rest), h);
  }

  // --------------------------------------------------- only printed headers

  ghost function Read16(b: seq<byte>): u16
    requires |b| == 2
  {
    b[0] as int * 0x100 + b[1]
  }

  ghost function Read32(b: seq<byte>): u32
    requires |b| == 4
  {
    b[0] as int * 0x100_0000 + b[1] as int * 0x1_0000 + b[2] as int * 0x100 + b[3]
  }

  lemma Reprint16(b: seq<byte>)
    requires |b| == 2
    ensures Be16(Read16(b)) == b
  {
  }

  lemma Reprint32(b: seq<byte>)
    requires |b| == 4
    ensures Be32(Read32(b)) == b
  {
    hide Be32;
    var p := Be32(Read32(b));
    assert p[0] == b[0] && p[1] == b[1] && p[2] == b[2] && p[3] == b[3];
  }

  lemma TransportOf(p: seq<byte>, protocol: byte) returns (t: Transport)
    requires ShowsTransport(Memory(p), 0, |p|, protocol, |p|)
    ensures t.Valid() && t.Protocol() == protocol && t.Print() == p
  {
    Reprint16(p[..2]);
    Reprint16(p[2..4]);
    if protocol == PROTO_UDP {
      t := Udp(Read16(p[..2]), Read16(p[2..4]), p[4..]);
      assert p == p[..2] + p[2..4] + p[4..];
    } else {
      t := TcpOf(p);
    }
  }

  lemma TcpOf(p: seq<byte>) returns (t: Transport)
    requires |p| >= TCP_MIN && |p| == Read16(p[12..14]) / 0x1000 * 4
    ensures t.Valid() && t.Tcp? && t.Print() == p
  {
    var offsetFlags := Read16(p[12..14]);
    Reprint16(p[..2]);
    Reprint16(p[2..4]);
    Reprint16(p[12..14]);
    t := Tcp(Read16(p[..2]), Read16(p[2..4]), p[4..12], offsetFlags / 0x1000, offsetFlags % 0x1000, p[14..]);
    assert p == p[..2] + p[2..4] + p[4..12] + p[12..14] + p[14..];
  }

  lemma IpHeadersOf(p: seq<byte>, macs: seq<byte>, tag: Tag, transport: Transport) returns (h: Headers)
    requires 20 <= |p| <= 60 && |p| % 4 == 0 && p[0] == 64 + |p| / 4
    requires transport.Valid() && p[9] == transport.Protocol()
    requires Read16(p[2..4]) >= |p| + |transport.Print()| && Read16(p[6..8]) % 0x2000 == 0
    requires |macs| == 12 && (tag.Tagged? ==> tag.tpid == ETHERTYPE_8021Q || tag.tpid == ETHERTYPE_8021AD)
    ensures h.Valid() && h.macs == macs && h.tag == tag && h.transport == transport
    ensures h.PrintIp() == p
  {
    hide Be16, Be32, Word, DoubleWord, Read16, Read32, Transport.Print, Headers.IpFront, Headers.IpBack;
    h := Headers(macs, tag, p[1], Read16(p[2..4]), p[4..6], Read16(p[6..8]), p[8], p[10..12],
                 Read32(p[12..16]), Read32(p[16..20]), p[20..], transport);
    var f, b := p[..8], p[8..];
    assert f[2..4] == p[2..4] && f[4..6] == p[4..6] && f[6..8] == p[6..8];
    Reprint16(f[2..4]);
    Reprint16(f[6..8]);
    FrontOf(h, f);
    assert b[2..4] == p[10..12] && b[4..8] == p[12..16] && b[8..12] == p[16..20] && b[12..] == p[20..];
    Reprint32(b[4..8]);
    Reprint32(b[8..12]);
    BackOf(h, b);
    assert p == f + b;
  }

  lemma FrontOf(h: Headers, f: seq<byte>)
    requires h.Valid() && |f| == 8 && f[0] == 64 + h.Ihl() && f[1] == h.tos && f[4..6] == h.ident
    requires Be16(h.total) == f[2..4] && Be16(h.fragment) == f[6..8]
    ensures h.IpFront() == f
  {
    hide Be16;
    assert f == [f[0], f[1]] + f[2..4] + f[4..6] + f[6..8];
  }

  lemma BackOf(h: Headers, b: seq<byte>)
    requires h.Valid() && |b| >= 12 && b[0] == h.ttl && b[1] == h.transport.Protocol() && b[2..4] == h.checksum
    requires Be32(h.src) == b[4..8] && Be32(h.dst) == b[8..12] && b[12..] == h.options
    ensures h.IpBack() == b
  {
    hide Be32;
    assert b == [b[0], b[1]] + b[2..4] + b[4..8] + b[8..12] + b[12..];
  }

  lemma EthPrint(d: seq<byte>, h: Headers)
    requires |d| >= h.L3() && h.macs == d[..12]
    requires h.tag.Tagged? ==> d[12..14] == Be16(h.tag.tpid) && d[14..16] == Be16(h.tag.tci)
    requires d[h.L3() - 2..h.L3()] == Be16(ETHERTYPE_IPV4)
    ensures h.PrintEth() == d[..h.L3()]
  {
    if h.tag.Tagged? {
      assert d[..18] == d[..12] + d[12..14] + d[14..16] + d[16..18];
    } else {
      assert d[..14] == d[..12] + d[12..14];
    }
  }

  lemma EthOfFlow(d: seq<byte>) returns (tag: Tag)
    requires Parse(Memory(d)).Flow?
    ensures ShowsEth(Memory(d), tag) && (tag.Tagged? ==> tag.tpid == ETHERTYPE_8021Q || tag.tpid == ETHERTYPE_8021AD)
    ensures tag.Tagged? ==> |d| >= 18 && d[14..16] == Be16(tag.tci)
    ensures Parse(Memory(d)) == ParseIpv4(Memory(d), if tag.Tagged? then 18 else 14)
  {
    var outer := ReadU16(Memory(d), 12).value;
    if outer == ETHERTYPE_IPV4 {
      tag := Untagged;
    } else {
      Reprint16(d[14..16]);
      tag := Tagged(outer, Read16(d[14..16]));
    }
  }

  lemma IpOfFlow(c: Cursor, l3: nat) returns (ihl: nat, total: u16, fragment: u16, protocol: byte)
    requires ParseIpv4(c, l3).Flow?
    ensures ShowsIp(c, l3, ihl, total, fragment, protocol)
    ensures ReadIpHeader(c, l3)
            == Header(ihl, total, fragment, protocol, ReadU32(c, l3 + 12).value, ReadU32(c, l3 + 16).value)
  {
    var vihl := ReadU8(c, l3).value;
    ihl, total, fragment, protocol :=
      vihl % 16, ReadU16(c, l3 + 2).value, ReadU16(c, l3 + 6).value, ReadU8(c, l3 + 9).value;
    assert vihl == 64 + ihl;
  }

  lemma TransportOfFlow(c: Cursor, l4: nat, end: nat, src: u32, dst: u32, protocol: byte, flags: u16)
      returns (length: nat)
    requires ParseTransport(c, l4, end, src, dst, protocol, flags).Flow?
    ensures ShowsTransport(c, l4, end, protocol, length)
  {
    length := if protocol == PROTO_UDP then UDP_LEN else ReadU16(c, l4 + 12).value / 0x1000 * 4;
  }

  lemma HeadersOf(d: seq<byte>) returns (h: Headers)
    requires Parse(Memory(d)).Flow?
    ensures h.Valid() && h.Print() <= d
  {
    hide Parse, ReadU8, ReadU16, ReadU32, ReadIpHeader, ParseTransport, Headers.Valid,
      Headers.Print, ShowsIp, ShowsEth, ShowsTransport;
    var c := Memory(d);
    var tag := EthOfFlow(d);
    var l3 := if tag.Tagged? then 18 else 14;
    var ihl, total, fragment, protocol := IpOfFlow(c, l3);
    var l4 := l3 + ihl * 4;
    var length := TransportOfFlow(c, l4, l3 + total, ReadU32(c, l3 + 12).value,
                                  ReadU32(c, l3 + 16).value, protocol, ParseFlags(ihl, fragment));
    h := Reassemble(d, tag, ihl, total, fragment, protocol, length);
  }

  lemma TransportSlice(d: seq<byte>, l4: nat, end: nat, protocol: byte, length: nat)
    requires ShowsTransport(Memory(d), l4, end, protocol, length)
    ensures ShowsTransport(Memory(d[l4..l4 + length]), 0, length, protocol, length)
  {
    var q := d[l4..l4 + length];
    assert forall i {:trigger q[i]} :: 0 <= i < length ==> q[i] == d[l4 + i];
  }

  lemma IpSlice(d: seq<byte>, l3: nat, ihl: nat, total: u16, fragment: u16, protocol: byte) returns (p: seq<byte>)
    requires ShowsIp(Memory(d), l3, ihl, total, fragment, protocol) && l3 + ihl * 4 <= |d|
    ensures p == d[l3..l3 + ihl * 4] && p[0] == 64 + ihl && p[9] == protocol
    ensures Read16(p[2..4]) == total && Read16(p[6..8]) == fragment
  {
    p := d[l3..l3 + ihl * 4];
  }

  lemma Reassemble(d: seq<byte>, tag: Tag, ihl: nat, total: u16, fragment: u16, protocol: byte, length: nat)
      returns (h: Headers)
    requires ShowsEth(Memory(d), tag) && (tag.Tagged? ==> tag.tpid == ETHERTYPE_8021Q || tag.tpid == ETHERTYPE_8021AD)
    requires tag.Tagged? ==> |d| >= 18 && d[14..16] == Be16(tag.tci)
    requires var l3 := if tag.Tagged? then 18 else 14;
      && ShowsIp(Memory(d), l3, ihl, total, fragment, protocol)
      && ShowsTransport(Memory(d), l3 + ihl * 4, l3 + total, protocol, length)
    ensures h.Valid() && h.Print() <= d
  {
    var l3 := if tag.Tagged? then 18 else 14;
    var l4 := l3 + ihl * 4;
    hide ReadU8, ReadU16, ReadU32, Word, Headers.PrintIp, Headers.PrintEth, Headers.Print, Headers.Valid;
    hide Transport.Print, Transport.Valid;
    var transport := TransportIn(d, l4, l3 + total, protocol, length);
    var ip := IpSlice(d, l3, ihl, total, fragment, protocol);
    h := IpHeadersOf(ip, d[..12], tag, transport);
    EthSlice(d, tag);
    EthPrint(d, h);
    Concatenate(d, h, l4, l4 + length);
  }

  lemma TransportIn(d: seq<byte>, l4: nat, end: nat, protocol: byte, length: nat) returns (t: Transport)
    requires ShowsTransport(Memory(d), l4, end, protocol, length)
    ensures t.Valid() && t.Protocol() == protocol && t.Print() == d[l4..l4 + length]
  {
    TransportSlice(d, l4, end, protocol, length);
    t := TransportOf(d[l4..l4 + length], protocol);
  }

  lemma Concatenate(d: seq<byte>, h: Headers, l4: nat, end: nat)
    requires h.Valid() && h.L3() <= l4 <= end <= |d|
    requires h.PrintEth() == d[..h.L3()] && h.PrintIp() == d[h.L3()..l4] && h.transport.Print() == d[l4..end]
    ensures h.Print() <= d
  {
    hide Headers.PrintIp, Headers.PrintEth, Transport.Print, Headers.Valid;
    PrefixOfParts(d, h.L3(), l4, end);
  }

  lemma EthSlice(d: seq<byte>, tag: Tag)
    requires ShowsEth(Memory(d), tag)
    ensures tag.Tagged? ==> d[12..14] == Be16(tag.tpid) && d[16..18] == Be16(ETHERTYPE_IPV4)
    ensures tag.Untagged? ==> d[12..14] == Be16(ETHERTYPE_IPV4)
  {
    Reprint16(d[12..14]);
    if tag.Tagged? {
      Reprint16(d[16..18]);
    }
  }

  lemma PrefixOfParts(d: seq<byte>, i: nat, j: nat, k: nat)
    requires i <= j <= k <= |d|
    ensures d[..i] + d[i..j] + d[j..k] == d[..k]
  {
  }

  /**
   * A capture parses to a flow exactly when it starts with printed headers, and
   * the flow is what those headers mean.
   */
  lemma FlowIffPrinted(d: seq<byte>, f: ParsedFlow)
    ensures Parse(Memory(d)) == Flow(f) <==> exists h: Headers :: h.Valid() && h.Print() <= d && h.Meaning() == f
  {
    if Parse(Memory(d)) == Flow(f) {
      var h := HeadersOf(d);
      PrefixParses(d, h);
    }
    forall h: Headers | h.Valid() && h.Print() <= d
      ensures Parse(Memory(d)) == Flow(h.Meaning())
    {
      PrefixParses(d, h);
    }
  }

  lemma PrefixParses(d: seq<byte>, h: Headers)
    requires h.Valid() && h.Print() <= d
    ensures Parse(Memory(d)) == Flow(h.Meaning())
  {
    hide Parse, Headers.Valid, Headers.Print, Headers.Meaning;
    ParseInvertsPrint(h, d[|h.Print()|..]);
    assert d == h.Print() + d[|h.Print()|..];
  }

  // ------------------------------------------------- every result, byte by byte

  /** The 16-bit field at `i`. */
  function Field(d: seq<byte>, i: nat): int
    requires i + 2 <= |d|
  {
    d[i] as int * 0x100 + d[i + 1]
  }

  /** Where the IPv4 header of a frame starts, once its type is captured. */
  function Ipv4At(d: seq<byte>): Option<nat> {
    if |d| >= 14 && Field(d, 12) == 0x0800 then Some(14)
    else if |d| >= 18 && (Field(d, 12) == 0x8100 || Field(d, 12) == 0x88A8) && Field(d, 16) == 0x0800 then Some(18)
    else None
  }

  predicate OtherEtherType(d: seq<byte>) {
    || (|d| >= 14 && Field(d, 12) != 0x0800 && Field(d, 12) != 0x8100 && Field(d, 12) != 0x88A8)
    || (|d| >= 18 && (Field(d, 12) == 0x8100 || Field(d, 12) == 0x88A8) && Field(d, 16) != 0x0800)
  }

  predicate GoodVersion(d: seq<byte>, l3: nat) {
    |d| >= l3 + 1 && d[l3] / 16 == 4 && d[l3] % 16 >= 5
  }

  predicate GoodTotal(d: seq<byte>, l3: nat) {
    |d| >= l3 + 4 && GoodVersion(d, l3) && Field(d, l3 + 2) >= d[l3] % 16 * 4
  }

  predicate FirstFragment(d: seq<byte>, l3: nat) {
    |d| >= l3 + 8 && GoodTotal(d, l3) && Field(d, l3 + 6) % 0x2000 == 0
  }

  predicate CompleteIp(d: seq<byte>, l3: nat) {
    |d| >= l3 + 20 && FirstFragment(d, l3)
  }

  /** `n` bytes of the segment are captured, and the packet declares them. */
  predicate Reaches(d: seq<byte>, l3: nat, n: nat)
    requires CompleteIp(d, l3)
  {
    d[l3] % 16 * 4 + n <= Field(d, l3 + 2) && |d| >= l3 + d[l3] % 16 * 4 + n
  }

  predicate IsUdp(d: seq<byte>, l3: nat) {
    CompleteIp(d, l3) && d[l3 + 9] == 17 && Reaches(d, l3, 8)
  }

  predicate IsTcp(d: seq<byte>, l3: nat) {
    CompleteIp(d, l3) && d[l3 + 9] == 6 && Reaches(d, l3, 20)
  }

  /** Length that the data offset of a TCP header declares. */
  function TcpLength(d: seq<byte>, l3: nat): int
    requires IsTcp(d, l3)
  {
    d[l3 + d[l3] % 16 * 4 + 12] / 16 * 4
  }

  predicate SkippedAt(d: seq<byte>, l3: nat) {
    || (|d| >= l3 + 8 && GoodTotal(d, l3) && Field(d, l3 + 6) % 0x2000 != 0)
    || (CompleteIp(d, l3) && d[l3 + 9] != 6 && d[l3 + 9] != 17)
  }

  predicate InvalidAt(d: seq<byte>, l3: nat) {
    || (|d| >= l3 + 1 && (d[l3] / 16 != 4 || d[l3] % 16 < 5))
    || (|d| >= l3 + 4 && GoodVersion(d, l3) && Field(d, l3 + 2) < d[l3] % 16 * 4)
    || (IsTcp(d, l3) && TcpLength(d, l3) < 20)
  }

  predicate FlowAt(d: seq<byte>, l3: nat) {
    IsUdp(d, l3) || (IsTcp(d, l3) && TcpLength(d, l3) >= 20 && Reaches(d, l3, TcpLength(d, l3)))
  }

  lemma IpHeaderRead(d: seq<byte>, l3: nat)
    ensures var r := ReadIpHeader(Memory(d), l3);
      && (r == Stop(Skipped) <==> |d| >= l3 + 8 && GoodTotal(d, l3) && Field(d, l3 + 6) % 0x2000 != 0)
      && (r == Stop(Invalid) <==>
            || (|d| >= l3 + 1 && (d[l3] / 16 != 4 || d[l3] % 16 < 5))
            || (|d| >= l3 + 4 && GoodVersion(d, l3) && Field(d, l3 + 2) < d[l3] % 16 * 4))
      && (r.Header? <==> CompleteIp(d, l3))
      && (r.Stop? ==> !r.result.Flow?)
      && (r.Header? ==>
            && r.ihl == d[l3] % 16 && r.total == Field(d, l3 + 2)
            && r.fragment == Field(d, l3 + 6) && r.protocol == d[l3 + 9])
  {
    hide ReadU8, ReadU16, ReadU32;
    ReadsAreSums(d, l3);
    ReadsAreSums(d, l3 + 2);
    ReadsAreSums(d, l3 + 6);
    ReadsAreSums(d, l3 + 9);
    ReadsAreSums(d, l3 + 12);
    ReadsAreSums(d, l3 + 16);
  }

  lemma UdpSegmentRead(d: seq<byte>, l4: nat, end: nat, src: u32, dst: u32, flags: u16)
    ensures var r := ParseTransport(Memory(d), l4, end, src, dst, PROTO_UDP, flags);
      if l4 + 8 <= end && l4 + 8 <= |d| then r.Flow? else r == Truncated
  {
    hide ToBe;
  }

  lemma TcpSegmentRead(d: seq<byte>, l4: nat, end: nat, src: u32, dst: u32, flags: u16)
    ensures var r := ParseTransport(Memory(d), l4, end, src, dst, PROTO_TCP, flags);
      if !(l4 + 20 <= end && l4 + 20 <= |d|) then r == Truncated
      else
        var length := d[l4 + 12] / 16 * 4;
        if length < 20 then r == Invalid
        else if l4 + length <= end && l4 + length <= |d| then r.Flow?
        else r == Truncated
  {
    hide ToBe;
    if l4 + 20 <= end && l4 + 20 <= |d| {
      ReadsAreSums(d, l4 + 12);
      assert Field(d, l4 + 12) / 0x1000 == d[l4 + 12] / 16;
    }
  }

  lemma Ipv4Result(d: seq<byte>, l3: nat)
    ensures var r := ParseIpv4(Memory(d), l3);
      && (r == Skipped <==> SkippedAt(d, l3))
      && (r == Invalid <==> InvalidAt(d, l3))
      && (r.Flow? <==> FlowAt(d, l3))
  {
    hide ReadIpHeader, ParseTransport, ReadU8, ReadU16, ReadU32;
    IpHeaderRead(d, l3);
    if CompleteIp(d, l3) {
      var h := ReadIpHeader(Memory(d), l3);
      var l4, end := l3 + h.ihl * 4, l3 + h.total;
      if h.protocol == 17 {
        UdpSegmentRead(d, l4, end, h.src, h.dst, ParseFlags(h.ihl, h.fragment));
      } else if h.protocol == 6 {
        TcpSegmentRead(d, l4, end, h.src, h.dst, ParseFlags(h.ihl, h.fragment));
      } else {
        OtherProtocolSkipped(d, l4, end, h.src, h.dst, h.protocol, ParseFlags(h.ihl, h.fragment));
      }
    }
  }

  lemma OtherProtocolSkipped(d: seq<byte>, l4: nat, end: nat, src: u32, dst: u32, protocol: byte, flags: u16)
    requires protocol != 6 && protocol != 17
    ensures ParseTransport(Memory(d), l4, end, src, dst, protocol, flags) == Skipped
  {
  }

  /**
   * Every result, told from the captured bytes: what is not IPv4, not a first
   * fragment or neither TCP nor UDP is skipped; a wrong version, header length,
   * total length or data offset is invalid; complete headers are a flow; and
   * everything else is cut short.
   */
  lemma ResultIff(d: seq<byte>)
    ensures var r, l3 := Parse(Memory(d)), Ipv4At(d);
      && (r == Skipped <==> OtherEtherType(d) || (l3.Some? && SkippedAt(d, l3.value)))
      && (r == Invalid <==> l3.Some? && InvalidAt(d, l3.value))
      && (r.Flow? <==> l3.Some? && FlowAt(d, l3.value))
  {
    hide ReadU16, ParseIpv4, SkippedAt, InvalidAt, FlowAt;
    ReadsAreSums(d, 12);
    ReadsAreSums(d, 16);
    Ipv4Result(d, 14);
    Ipv4Result(d, 18);
  }

  /** The 32-bit field at `i`. */
  function LongField(d: seq<byte>, i: nat): int
    requires i + 4 <= |d|
  {
    d[i] as int * 0x100_0000 + d[i + 1] as int * 0x1_0000 + d[i + 2] as int * 0x100 + d[i + 3]
  }

  /** The bytes of the 16-bit field at `i` as memory holds them: least significant first. */
  function Stored(d: seq<byte>, i: nat): int
    requires i + 2 <= |d|
  {
    d[i + 1] as int * 0x100 + d[i]
  }

  lemma StoredIs(d: seq<byte>, i: nat)
    requires i + 2 <= |d|
    ensures ToBe(Field(d, i)) == Stored(d, i)
  {
  }

  lemma FieldsRead(d: seq<byte>, l3: nat)
    requires FlowAt(d, l3)
    ensures var l4 := l3 + d[l3] % 16 * 4;
      && l4 + 8 <= |d| && l3 + 20 <= |d|
      && (d[l3 + 9] == 6 ==> l4 + 20 <= |d|)
  {
  }

  /** Every field of a flow is read off its place in the capture. */
  lemma FlowFields(d: seq<byte>)
    requires Parse(Memory(d)).Flow?
    ensures Ipv4At(d).Some? && FlowAt(d, Ipv4At(d).value)
    ensures var l3, f := Ipv4At(d).value, Parse(Memory(d)).flow;
      var l4 := l3 + d[l3] % 16 * 4;
      && l4 + 8 <= |d| && (d[l3 + 9] == 6 ==> l4 + 20 <= |d|)
      && f.srcAddr == LongField(d, l3 + 12) && f.dstAddr == LongField(d, l3 + 16)
      && f.srcPortBe == Stored(d, l4) && f.dstPortBe == Stored(d, l4 + 2)
      && f.protocol == d[l3 + 9] && f.ipFamily == 4
      && f.tcpFlags == (if d[l3 + 9] == 6 then Field(d, l4 + 12) % 0x200 else 0)
      && f.parseFlags == (if d[l3] % 16 > 5 then 2 else 0) + (if Field(d, l3 + 6) / 0x2000 % 2 == 1 then 4 else 0)
      && f.payloadOffset == l4 + (if d[l3 + 9] == 6 then TcpLength(d, l3) else 8)
      && f.payloadEnd == l3 + Field(d, l3 + 2)
  {
    hide ReadU16, ParseIpv4, SkippedAt, InvalidAt, FlowAt, Stored, TcpLength;
    ResultIff(d);
    var l3 := Ipv4At(d).value;
    ReadsAreSums(d, 12);
    ReadsAreSums(d, 16);
    assert Parse(Memory(d)) == ParseIpv4(Memory(d), l3);
    FieldsRead(d, l3);
    Ipv4Fields(d, l3);
  }

  lemma Ipv4Fields(d: seq<byte>, l3: nat)
    requires FlowAt(d, l3) && ParseIpv4(Memory(d), l3).Flow?
    ensures var f := ParseIpv4(Memory(d), l3).flow;
      var l4 := l3 + d[l3] % 16 * 4;
      && l4 + 8 <= |d| && (d[l3 + 9] == 6 ==> l4 + 20 <= |d|)
      && f.srcAddr == LongField(d, l3 + 12) && f.dstAddr == LongField(d, l3 + 16)
      && f.srcPortBe == Stored(d, l4) && f.dstPortBe == Stored(d, l4 + 2)
      && f.protocol == d[l3 + 9] && f.ipFamily == 4
      && f.tcpFlags == (if d[l3 + 9] == 6 then Field(d, l4 + 12) % 0x200 else 0)
      && f.parseFlags == (if d[l3] % 16 > 5 then 2 else 0) + (if Field(d, l3 + 6) / 0x2000 % 2 == 1 then 4 else 0)
      && f.payloadOffset == l4 + (if d[l3 + 9] == 6 then TcpLength(d, l3) else 8)
      && f.payloadEnd == l3 + Field(d, l3 + 2)
  {
    hide ParseTransport, ReadU8, ReadU16, ReadU32, Stored, TcpLength;
    IpHeaderRead(d, l3);
    FieldsRead(d, l3);
    var h, l4 := ReadIpHeader(Memory(d), l3), l3 + d[l3] % 16 * 4;
    assert h.src == LongField(d, l3 + 12) && h.dst == LongField(d, l3 + 16) by {
      HeaderAddresses(d, l3);
    }
    StoredIs(d, l4);
    StoredIs(d, l4 + 2);
    SegmentFields(d, l4, l3 + h.total, h.src, h.dst, h.protocol, ParseFlags(h.ihl, h.fragment));
    if d[l3 + 9] == 6 {
      LengthIs(d, l3);
    }
  }

  lemma LengthIs(d: seq<byte>, l3: nat)
    requires IsTcp(d, l3)
    ensures TcpLength(d, l3) == d[l3 + d[l3] % 16 * 4 + 12] / 16 * 4
  {
  }

  lemma HeaderAddresses(d: seq<byte>, l3: nat)
    requires CompleteIp(d, l3)
    ensures var h := ReadIpHeader(Memory(d), l3);
      h.Header? && h.src == LongField(d, l3 + 12) && h.dst == LongField(d, l3 + 16)
  {
    hide ReadU8, ReadU16, ReadU32;
    IpHeaderRead(d, l3);
    ReadsAreSums(d, l3);
    ReadsAreSums(d, l3 + 2);
    ReadsAreSums(d, l3 + 6);
    ReadsAreSums(d, l3 + 9);
    ReadsAreSums(d, l3 + 12);
    ReadsAreSums(d, l3 + 16);
  }

  lemma SegmentFields(d: seq<byte>, l4: nat, end: nat, src: u32, dst: u32, protocol: byte, flags: u16)
    requires ParseTransport(Memory(d), l4, end, src, dst, protocol, flags).Flow?
    requires l4 + 8 <= |d| && (protocol == 6 ==> l4 + 20 <= |d|)
    ensures var f := ParseTransport(Memory(d), l4, end, src, dst, protocol, flags).flow;
      && f.srcAddr == src && f.dstAddr == dst && f.protocol == protocol && f.ipFamily == 4
      && f.srcPortBe == ToBe(Field(d, l4)) && f.dstPortBe == ToBe(Field(d, l4 + 2))
      && f.tcpFlags == (if protocol == 6 then Field(d, l4 + 12) % 0x200 else 0) && f.parseFlags == flags
      && f.payloadOffset == l4 + (if protocol == 6 then d[l4 + 12] / 16 * 4 else 8) && f.payloadEnd == end
  {
    hide ToBe, ReadU16, ReadU32;
    ReadsAreSums(d, l4);
    ReadsAreSums(d, l4 + 2);
    if protocol == 6 {
      ReadsAreSums(d, l4 + 12);
      assert Field(d, l4 + 12) / 0x1000 == d[l4 + 12] / 16;
    }
  }

  // ------------------------------------------------------ longer captures

  /** `e` shows at least what `c` shows. */
  ghost predicate Extends(c: Cursor, e: Cursor) {
    c.Limit() <= e.Limit() && forall i :: 0 <= i < c.Limit() ==> e.data[i] == c.data[i]
  }

  lemma TransportDecided(c: Cursor, e: Cursor, l4: nat, end: nat, src: u32, dst: u32, protocol: byte, flags: u16)
    requires Extends(c, e) && ParseTransport(c, l4, end, src, dst, protocol, flags) != Truncated
    ensures ParseTransport(e, l4, end, src, dst, protocol, flags)
            == ParseTransport(c, l4, end, src, dst, protocol, flags)
  {
    hide ReadTcpTail;
    if ReadTcpTail(c, l4, end) != TailStop(Truncated) { TailDecided(c, e, l4, end); }
  }

  lemma TailDecided(c: Cursor, e: Cursor, l4: nat, end: nat)
    requires Extends(c, e) && ReadTcpTail(c, l4, end) != TailStop(Truncated)
    ensures ReadTcpTail(e, l4, end) == ReadTcpTail(c, l4, end)
  {
  }

  lemma Ipv4Decided(c: Cursor, e: Cursor, l3: nat)
    requires Extends(c, e) && ParseIpv4(c, l3) != Truncated
    ensures ParseIpv4(e, l3) == ParseIpv4(c, l3)
  {
    hide ParseTransport;
    IpHeaderDecided(c, e, l3);
    match ReadIpHeader(c, l3)
    case Stop(_) =>
    case Header(ihl, total, fragment, protocol, src, dst) =>
      TransportDecided(c, e, l3 + ihl * 4, l3 + total, src, dst, protocol, ParseFlags(ihl, fragment));
  }

  lemma IpHeaderDecided(c: Cursor, e: Cursor, l3: nat)
    ensures Extends(c, e) && ReadIpHeader(c, l3) != Stop(Truncated) ==> ReadIpHeader(e, l3) == ReadIpHeader(c, l3)
  {
  }

  lemma Decided(c: Cursor, e: Cursor)
    requires Extends(c, e) && Parse(c) != Truncated
    ensures Parse(e) == Parse(c)
  {
    hide ReadIpHeader, ParseTransport, ParseIpv4;
    if ParseIpv4(c, 14) != Truncated { Ipv4Decided(c, e, 14); }
    if ParseIpv4(c, 18) != Truncated { Ipv4Decided(c, e, 18); }
  }

  /** A decided result does not depend on bytes captured later. */
  lemma DecidedByPrefix(d: seq<byte>, more: seq<byte>)
    requires Parse(Memory(d)) != Truncated
    ensures Parse(Memory(d + more)) == Parse(Memory(d))
  {
    Decided(Memory(d), Memory(d + more));
  }

  /** Bytes past the longest header the parser can touch. */
  const HEADERS_MAX := ETH_LEN + VLAN_LEN + 60 + 60

  /** Both cursors show the same header bytes, or both stop at the same byte. */
  ghost predicate SameHeaders(c: Cursor, e: Cursor) {
    && (c.Limit() == e.Limit() || (c.Limit() >= HEADERS_MAX && e.Limit() >= HEADERS_MAX))
    && forall i :: 0 <= i < HEADERS_MAX && i < c.Limit() ==> e.data[i] == c.data[i]
  }

  lemma SameTransport(c: Cursor, e: Cursor, l4: nat, end: nat, src: u32, dst: u32, protocol: byte, flags: u16)
    requires SameHeaders(c, e) && l4 <= 78
    ensures ParseTransport(c, l4, end, src, dst, protocol, flags)
            == ParseTransport(e, l4, end, src, dst, protocol, flags)
  {
    hide ReadTcpTail, ToBe;
    SameTail(c, e, l4, end);
  }

  lemma SameTail(c: Cursor, e: Cursor, l4: nat, end: nat)
    requires SameHeaders(c, e) && l4 <= 78
    ensures ReadTcpTail(c, l4, end) == ReadTcpTail(e, l4, end)
  {
  }

  lemma SameIpHeader(c: Cursor, e: Cursor, l3: nat)
    requires SameHeaders(c, e) && l3 <= 18
    ensures ReadIpHeader(c, l3) == ReadIpHeader(e, l3)
    ensures ReadIpHeader(c, l3).Header? ==> ReadIpHeader(c, l3).ihl <= 15
  {
  }

  /** The pointer cursor of the packet path, offset limit included, parses every packet like the slice cursor. */
  lemma PointerCursorAgrees(base: u64, d: seq<byte>)
    requires Pointers(base, d).Valid()
    ensures Parse(Pointers(base, d)) == Parse(Memory(d))
  {
    hide ParseTransport, ReadIpHeader;
    var c, e := Pointers(base, d), Memory(d);
    forall l3 | l3 == 14 || l3 == 18
      ensures ParseIpv4(c, l3) == ParseIpv4(e, l3)
    {
      SameIpHeader(c, e, l3);
      match ReadIpHeader(c, l3)
      case Stop(_) =>
      case Header(ihl, total, fragment, protocol, src, dst) =>
        SameTransport(c, e, l3 + ihl * 4, l3 + total, src, dst, protocol, ParseFlags(ihl, fragment));
    }
  }

  lemma PayloadOrdered(c: Cursor)
    requires Parse(c).Flow?
    ensures Parse(c).flow.payloadOffset <= Parse(c).flow.payloadEnd
    ensures Parse(c).flow.payloadOffset <= c.Limit()
  {
    hide ReadU8, ReadU16, ReadIpHeader, ParseTransport;
    var l3 := if ReadU16(c, 12) == Some(ETHERTYPE_IPV4) then ETH_LEN else ETH_LEN + VLAN_LEN;
    match ReadIpHeader(c, l3)
    case Header(ihl, total, fragment, protocol, src, dst) =>
      TransportPayload(c, l3 + ihl * 4, l3 + total, src, dst, protocol, ParseFlags(ihl, fragment));
    case Stop(_) => StoppedIsNoFlow(c, l3);
  }

  lemma TransportPayload(c: Cursor, l4: nat, end: nat, src: u32, dst: u32, protocol: byte, flags: u16)
    ensures var r := ParseTransport(c, l4, end, src, dst, protocol, flags);
      r.Flow? ==> r.flow.payloadOffset <= r.flow.payloadEnd && r.flow.payloadOffset <= c.Limit()
  {
    hide ReadU16, ReadU32;
  }

  lemma StoppedIsNoFlow(c: Cursor, l3: nat)
    requires ReadIpHeader(c, l3).Stop?
    ensures !ReadIpHeader(c, l3).result.Flow?
  {
    hide ReadU8, ReadU16, ReadU32;
  }

  // ------------------------------------- the packet builder of the unit tests

  function Repeat(b: byte, n: nat): (s: seq<byte>)
    ensures |s| == n
  {
    if n == 0 then [] else [b] + Repeat(b, n - 1)
  }

  /** Tags the builder makes: either tag type, always VLAN 100. */
  predicate BuildsTag(tag: Tag) {
    tag.Tagged? ==> tag.tci == 0x64 && (tag.tpid == ETHERTYPE_8021Q || tag.tpid == ETHERTYPE_8021AD)
  }

  ghost function BuildEth(tag: Tag): (eth: seq<byte>)
    ensures |eth| == if tag.Tagged? then 18 else 14
  {
    var macs := Repeat(0xAA, 6) + Repeat(0xBB, 6);
    if tag.Tagged? then macs + Be16(tag.tpid) + [0x00, 0x64] + Be16(ETHERTYPE_IPV4) else macs + Be16(ETHERTYPE_IPV4)
  }

  ghost function BuildIp(ihl: nat, total: u16, fragment: u16, protocol: byte, src: u32, dst: u32): (ip: seq<byte>)
    requires 5 <= ihl <= 15
    ensures |ip| == 20
  {
    [64 + ihl, 0] + Be16(total) + [0x12, 0x34] + Be16(fragment) + [64, protocol] + [0, 0] + Be32(src) + Be32(dst)
  }

  ghost function SegmentHead(srcPort: u16, dstPort: u16, words: nat, flags: u16): (s: seq<byte>)
    requires 5 <= words <= 15
    ensures |s| == 16
  {
    Be16(srcPort) + Be16(dstPort) + [0, 0, 0, 1, 0, 0, 0, 2] + [words * 16, flags % 256] + Be16(1024)
  }

  ghost function TcpSegment(srcPort: u16, dstPort: u16, words: nat, flags: u16): (s: seq<byte>)
    requires 5 <= words <= 15
    ensures |s| == words * 4 && s[16] == 0 && s[17] == 0
  {
    SegmentHead(srcPort, dstPort, words, flags) + [0, 0, 0, 0] + Repeat(0x11, words * 4 - 20)
  }

  ghost function UdpSegment(srcPort: u16, dstPort: u16, payload: seq<byte>): (s: seq<byte>)
    requires UDP_LEN + |payload| < 0x1_0000
    ensures |s| == UDP_LEN + |payload|
  {
    Be16(srcPort) + Be16(dstPort) + Be16(UDP_LEN + |payload|) + [0, 0] + payload
  }

  /**
   * A built frame: optional tag, IPv4 header padded with 0xEE, then a segment.
   * The padding stops at a length counted from an untagged Ethernet header.
   */
  ghost function Build(
      tag: Tag, ihl: nat, fragment: u16, protocol: byte, src: u32, dst: u32, segment: seq<byte>): seq<byte>
    requires 5 <= ihl <= 15 && ihl * 4 + |segment| < 0x1_0000
  {
    var ip := BuildIp(ihl, ihl * 4 + |segment|, fragment, protocol, src, dst);
    BuildEth(tag) + ip + Repeat(0xEE, Max(0, ETH_LEN + ihl * 4 - |BuildEth(tag)| - |ip|)) + segment
  }

  /** The headers a built frame is meant to have. */
  ghost function BuiltHeaders(tag: Tag, ihl: nat, total: u16, fragment: u16, src: u32, dst: u32, t: Transport): Headers
    requires 5 <= ihl <= 15
  {
    Headers(Repeat(0xAA, 6) + Repeat(0xBB, 6), tag,
            0, total, [0x12, 0x34], fragment, 64, [0, 0], src, dst, Repeat(0xEE, ihl * 4 - 20), t)
  }

  /** Headers with the builder's constants and any options. */
  ghost predicate BuiltAs(h: Headers) {
    && h.Valid() && BuildsTag(h.tag) && h.macs == Repeat(0xAA, 6) + Repeat(0xBB, 6)
    && h.tos == 0 && h.ident == [0x12, 0x34] && h.ttl == 64 && h.checksum == [0, 0]
  }

  /** Options as the builder means them. */
  ghost predicate Padded(h: Headers) {
    h.options == Repeat(0xEE, h.Ihl() * 4 - 20)
  }

  /** The builder leaves no room for these headers: a tagged frame with IP options comes out four bytes short. */
  ghost predicate Short(h: Headers) {
    h.tag.Tagged? && h.Ihl() > 5
  }

  lemma BuiltHeadersFit(tag: Tag, ihl: nat, total: u16, fragment: u16, src: u32, dst: u32, t: Transport)
    requires BuildsTag(tag) && 5 <= ihl <= 15 && fragment % 0x2000 == 0 && t.Valid() && total >= ihl * 4 + |t.Print()|
    ensures var h := BuiltHeaders(tag, ihl, total, fragment, src, dst, t);
      BuiltAs(h) && Padded(h) && h.Ihl() == ihl
  {
    hide Transport.Print, Transport.Valid;
  }

  ghost function BuiltTcp(srcPort: u16, dstPort: u16, words: nat, flags: u16): (t: Transport)
    requires 5 <= words <= 15
    ensures t.Valid() && t.Tcp? && t.words == words
  {
    Tcp(srcPort, dstPort, [0, 0, 0, 1, 0, 0, 0, 2], words, flags % 256,
        Be16(1024) + [0, 0, 0, 0] + Repeat(0x11, words * 4 - 20))
  }

  ghost function BuiltUdp(srcPort: u16, dstPort: u16, n: nat): (t: Transport)
    requires UDP_LEN + n < 0x1_0000
    ensures t.Valid() && t.Udp? && t.srcPort == srcPort && t.dstPort == dstPort
  {
    Udp(srcPort, dstPort, Be16(UDP_LEN + n) + [0, 0])
  }

  lemma SegmentPrinted(srcPort: u16, dstPort: u16, words: nat, flags: u16)
    requires 5 <= words <= 15
    ensures BuiltTcp(srcPort, dstPort, words, flags).Print() == TcpSegment(srcPort, dstPort, words, flags)
  {
    hide Be32;
    var low := flags % 256;
    assert words * 0x1000 + low == (words * 16) * 256 + low;
    assert Be16(words * 0x1000 + low) == [words * 16, low];
  }

  lemma UdpPrinted(srcPort: u16, dstPort: u16, payload: seq<byte>)
    requires UDP_LEN + |payload| < 0x1_0000
    ensures UdpSegment(srcPort, dstPort, payload) == BuiltUdp(srcPort, dstPort, |payload|).Print() + payload
  {
    hide Be16;
  }

  lemma EthBuilt(h: Headers)
    requires h.macs == Repeat(0xAA, 6) + Repeat(0xBB, 6) && BuildsTag(h.tag)
    ensures h.PrintEth() == BuildEth(h.tag)
  {
    assert Be16(0x64) == [0x00, 0x64];
  }

  lemma IpBuilt(h: Headers)
    requires BuiltAs(h)
    ensures h.PrintIp() == BuildIp(h.Ihl(), h.total, h.fragment, h.transport.Protocol(), h.src, h.dst) + h.options
  {
    hide Be16, Be32, Repeat;
  }

  /** The frame of these headers and this segment. */
  ghost function FrameOf(h: Headers, segment: seq<byte>): seq<byte>
    requires h.Valid() && h.Ihl() * 4 + |segment| < 0x1_0000
  {
    Build(h.tag, h.Ihl(), h.fragment, h.transport.Protocol(), h.src, h.dst, segment)
  }

  lemma FrameIs(h: Headers, segment: seq<byte>)
    requires BuiltAs(h) && h.total == h.Ihl() * 4 + |segment|
    ensures FrameOf(h, segment) ==
      BuildEth(h.tag) + BuildIp(h.Ihl(), h.total, h.fragment, h.transport.Protocol(), h.src, h.dst)
      + Repeat(0xEE, Max(0, h.Ihl() * 4 - (if h.tag.Tagged? then 24 else 20))) + segment
  {
    hide BuildIp, BuildEth, Repeat;
  }

  lemma CompleteFrame(h: Headers, segment: seq<byte>, payload: seq<byte>)
    requires BuiltAs(h) && Padded(h) && !Short(h) && segment == h.transport.Print() + payload
    requires h.total == h.Ihl() * 4 + |segment|
    ensures FrameOf(h, segment) == h.Print() + payload
    ensures Parse(Memory(FrameOf(h, segment))) == Flow(h.Meaning())
  {
    hide Parse, Headers.Meaning, BuildIp, BuildEth, Headers.PrintEth, Headers.PrintIp, Transport.Print, Repeat, FrameOf;
    EthBuilt(h);
    IpBuilt(h);
    FrameIs(h, segment);
    ParseInvertsPrint(h, payload);
  }

  /** Four padding bytes short, the first bytes of the segment take the place of the last options. */
  ghost function Shortened(h: Headers, segment: seq<byte>): Headers
    requires h.Ihl() > 5 && |segment| >= 4
  {
    h.(options := Repeat(0xEE, h.Ihl() * 4 - 24) + segment[..4])
  }

  lemma ShortFrame(h: Headers, segment: seq<byte>)
    requires BuiltAs(h) && Short(h) && |segment| >= 4 && h.total == h.Ihl() * 4 + |segment|
    ensures var short := Shortened(h, segment);
      && BuiltAs(short) && short.Ihl() == h.Ihl()
      && FrameOf(h, segment) == short.PrintEth() + short.PrintIp() + segment[4..]
  {
    hide BuildIp, BuildEth, Headers.PrintEth, Headers.PrintIp, Transport.Print, Transport.Valid, Repeat, FrameOf;
    var short := Shortened(h, segment);
    FrameIs(h, segment);
    EthBuilt(short);
    IpBuilt(short);
    assert segment == segment[..4] + segment[4..];
  }

  /** What follows the header of a short frame is where the segment's fifth byte is. */
  lemma ShortFrameShows(h: Headers, segment: seq<byte>)
    requires BuiltAs(h) && Short(h) && |segment| >= 4 && h.total == h.Ihl() * 4 + |segment|
    ensures var d, l4 := FrameOf(h, segment), 18 + h.Ihl() * 4;
      && |d| == l4 + |segment| - 4 && d[l4..] == segment[4..]
      && Parse(Memory(d)) == ParseTransport(Memory(d), l4, 18 + h.total, h.src, h.dst, h.transport.Protocol(),
                                            ParseFlags(h.Ihl(), h.fragment))
  {
    hide Headers.PrintEth, Headers.PrintIp, Transport.Print, FrameOf, Shortened, ParseTransport, Parse, BuiltAs;
    ShortFrame(h, segment);
    ShortenedFields(h, segment);
    BuiltIsValid(Shortened(h, segment));
    HeadersParse(Shortened(h, segment), segment[4..]);
  }

  /** Behind printed headers, whatever follows is parsed as their transport. */
  lemma HeadersParse(h: Headers, rest: seq<byte>)
    requires h.Valid() && h.tag.Tagged?
    ensures var d, l4 := h.PrintEth() + h.PrintIp() + rest, 18 + h.Ihl() * 4;
      && |d| == l4 + |rest| && d[l4..] == rest
      && Parse(Memory(d)) == ParseTransport(Memory(d), l4, 18 + h.total, h.src, h.dst, h.transport.Protocol(),
                                            ParseFlags(h.Ihl(), h.fragment))
  {
    hide Headers.PrintEth, Headers.PrintIp, ReadIpHeader, Transport.Print, ParseTransport, Be16, Be32;
    var d := h.PrintEth() + h.PrintIp() + rest;
    EthShown(h, h.PrintIp() + rest);
    assert d == h.PrintEth() + (h.PrintIp() + rest);
    EthParses(Memory(d), h.tag);
    IpShown(h, h.PrintEth(), rest);
    IpParses(Memory(d), 18, h.Ihl(), h.total, h.fragment, h.transport.Protocol());
  }

  lemma ShortenedFields(h: Headers, segment: seq<byte>)
    requires h.Ihl() > 5 && |segment| >= 4
    ensures var short := Shortened(h, segment); short == h.(options := short.options)
  {
  }

  lemma ShortTcpFails(h: Headers, segment: seq<byte>)
    requires BuiltAs(h) && Short(h) && h.transport.Tcp? && h.total == h.Ihl() * 4 + |segment|
    requires |segment| >= 20 && segment[16] == segment[17] == 0
    ensures !Parse(Memory(FrameOf(h, segment))).Flow?
  {
    hide FrameOf, Parse;
    ShortFrameShows(h, segment);
    var d, l4 := FrameOf(h, segment), 18 + h.Ihl() * 4;
    assert d[l4..][12] == segment[4..][12] && d[l4..][13] == segment[4..][13];
  }

  /**
   * Parsing inverts the builder of TCP frames for every data offset, both tag
   * types and every header length, except a tagged frame with IP options, which
   * the builder leaves four bytes short.
   */
  lemma BuilderRoundTripsIff(
      tag: Tag, ihl: nat, fragment: u16, src: u32, dst: u32, srcPort: u16, dstPort: u16, words: nat, flags: u16)
    requires BuildsTag(tag) && 5 <= ihl <= 15 && 5 <= words <= 15 && fragment % 0x2000 == 0
    ensures var segment := TcpSegment(srcPort, dstPort, words, flags);
      var t := BuiltTcp(srcPort, dstPort, words, flags);
      var h := BuiltHeaders(tag, ihl, ihl * 4 + |segment|, fragment, src, dst, t);
      && h.Valid()
      && (Parse(Memory(Build(tag, ihl, fragment, PROTO_TCP, src, dst, segment))) == Flow(h.Meaning())
          <==> !(tag.Tagged? && ihl > 5))
  {
    hide Parse, Headers.Meaning, TcpSegment, Transport.Print, Build, BuiltTcp;
    var segment, t := TcpSegment(srcPort, dstPort, words, flags), BuiltTcp(srcPort, dstPort, words, flags);
    var h := BuiltHeaders(tag, ihl, ihl * 4 + |segment|, fragment, src, dst, t);
    SegmentPrinted(srcPort, dstPort, words, flags);
    BuiltHeadersFit(tag, ihl, ihl * 4 + |segment|, fragment, src, dst, t);
    assert FrameOf(h, segment) == Build(tag, ihl, fragment, PROTO_TCP, src, dst, segment);
    if Short(h) {
      ShortTcpFails(h, segment);
    } else {
      CompleteFrame(h, segment, []);
    }
  }

  lemma UdpSegmentBytes(srcPort: u16, dstPort: u16, payload: seq<byte>)
    requires UDP_LEN + |payload| < 0x1_0000
    ensures var s := UdpSegment(srcPort, dstPort, payload); s[4..6] == Be16(UDP_LEN + |payload|) && s[6] == s[7] == 0
  {
    hide Be16;
  }

  lemma TailBytes(d: seq<byte>, at: nat, s: seq<byte>)
    requires at <= |d| && |s| >= 8 && d[at..] == s[4..]
    ensures |d| == at + |s| - 4 && d[at..at + 2] == s[4..6] && d[at + 2] == s[6] && d[at + 3] == s[7]
  {
    var r := s[4..];
    assert d[at..][0] == r[0] && d[at..][1] == r[1] && d[at..][2] == r[2] && d[at..][3] == r[3];
  }

  /** Length and checksum of a segment, read as ports. */
  lemma ShiftedPorts(d: seq<byte>, l4: nat, srcPort: u16, dstPort: u16, payload: seq<byte>)
    requires UDP_LEN + |payload| < 0x1_0000 && |payload| >= 4
    requires l4 <= |d| && d[l4..] == UdpSegment(srcPort, dstPort, payload)[4..]
    ensures ReadU16(Memory(d), l4) == Some(UDP_LEN + |payload|) && ReadU16(Memory(d), l4 + 2) == Some(0)
    ensures l4 + UDP_LEN <= |d|
  {
    hide Be16, UdpSegment, ReadU16;
    var s := UdpSegment(srcPort, dstPort, payload);
    UdpSegmentBytes(srcPort, dstPort, payload);
    TailBytes(d, l4, s);
    ZeroField(d, l4 + 2);
    At16(d, l4, UDP_LEN + |payload|);
  }

  lemma UdpParses(d: seq<byte>, l4: nat, end: nat, src: u32, dst: u32, flags: u16, srcPort: u16, dstPort: u16)
    requires l4 + UDP_LEN <= end && l4 + UDP_LEN <= |d|
    requires ReadU16(Memory(d), l4) == Some(srcPort) && ReadU16(Memory(d), l4 + 2) == Some(dstPort)
    ensures ParseTransport(Memory(d), l4, end, src, dst, PROTO_UDP, flags) ==
      Flow(ParsedFlow(src, dst, ToBe(srcPort), ToBe(dstPort), PROTO_UDP, IP_FAMILY_V4, 0, flags, l4 + UDP_LEN, end))
  {
    hide ReadU16, ToBe;
  }

  lemma UdpCut(d: seq<byte>, l4: nat, end: nat, src: u32, dst: u32, flags: u16)
    requires |d| < l4 + UDP_LEN
    ensures ParseTransport(Memory(d), l4, end, src, dst, PROTO_UDP, flags) == Truncated
  {
  }

  lemma UdpMeans(h: Headers)
    requires h.Valid() && h.transport.Udp? && h.tag.Tagged?
    ensures h.Meaning() == ParsedFlow(h.src, h.dst, ToBe(h.transport.srcPort), ToBe(h.transport.dstPort), PROTO_UDP,
      IP_FAMILY_V4, 0, ParseFlags(h.Ihl(), h.fragment), 18 + h.Ihl() * 4 + UDP_LEN, 18 + h.total)
  {
    hide ToBe;
  }

  lemma ShortUdpReads(h: Headers, payload: seq<byte>)
    requires BuiltAs(h) && Short(h) && h.transport.Udp? && h.Ihl() * 4 + UDP_LEN + |payload| < 0x1_0000
    requires h.total == h.Ihl() * 4 + UDP_LEN + |payload|
    ensures var d := FrameOf(h, UdpSegment(h.transport.srcPort, h.transport.dstPort, payload));
      Parse(Memory(d)) ==
        if |payload| < 4 then Truncated
        else Flow(h.Meaning().(srcPortBe := ToBe(UDP_LEN + |payload|), dstPortBe := ToBe(0)))
  {
    hide FrameOf, Parse, ToBe, ReadU16, UdpSegment, ParseTransport, Headers.Meaning, ParseFlags, BuiltAs;
    BuiltIsValid(h);
    var s := UdpSegment(h.transport.srcPort, h.transport.dstPort, payload);
    ShortFrameShows(h, s);
    var d, l4 := FrameOf(h, s), 18 + h.Ihl() * 4;
    var flags := ParseFlags(h.Ihl(), h.fragment);
    if |payload| < 4 {
      UdpCut(d, l4, 18 + h.total, h.src, h.dst, flags);
    } else {
      ShiftedPorts(d, l4, h.transport.srcPort, h.transport.dstPort, payload);
      UdpParses(d, l4, 18 + h.total, h.src, h.dst, flags, UDP_LEN + |payload|, 0);
      UdpMeans(h);
    }
  }

  lemma BuiltIsValid(h: Headers)
    requires BuiltAs(h)
    ensures h.Valid()
  {
  }

  lemma ZeroField(d: seq<byte>, at: nat)
    requires at + 2 <= |d| && d[at] == d[at + 1] == 0
    ensures ReadU16(Memory(d), at) == Some(0)
  {
  }

  /**
   * Parsing inverts the builder of UDP frames except for a tagged frame with IP
   * options: there the parser takes length and checksum of the segment for its
   * ports, which are the ports only by coincidence.
   */
  lemma UdpBuilderRoundTripsIff(
      tag: Tag, ihl: nat, fragment: u16, src: u32, dst: u32, srcPort: u16, dstPort: u16, payload: seq<byte>)
    requires BuildsTag(tag) && 5 <= ihl <= 15 && fragment % 0x2000 == 0 && ihl * 4 + UDP_LEN + |payload| < 0x1_0000
    ensures var segment := UdpSegment(srcPort, dstPort, payload);
      var h := BuiltHeaders(tag, ihl, ihl * 4 + |segment|, fragment, src, dst, BuiltUdp(srcPort, dstPort, |payload|));
      && h.Valid()
      && (Parse(Memory(Build(tag, ihl, fragment, PROTO_UDP, src, dst, segment))) == Flow(h.Meaning())
          <==> !(tag.Tagged? && ihl > 5) || (|payload| >= 4 && srcPort == UDP_LEN + |payload| && dstPort == 0))
  {
    hide Parse, UdpSegment, Transport.Print, Transport.Valid, Build, BuiltUdp, BuiltAs, Padded, Headers.Meaning;
    var segment, t := UdpSegment(srcPort, dstPort, payload), BuiltUdp(srcPort, dstPort, |payload|);
    var h := BuiltHeaders(tag, ihl, ihl * 4 + |segment|, fragment, src, dst, t);
    UdpPrinted(srcPort, dstPort, payload);
    BuiltHeadersFit(tag, ihl, ihl * 4 + |segment|, fragment, src, dst, t);
    BuiltIsValid(h);
    assert FrameOf(h, segment) == Build(tag, ihl, fragment, PROTO_UDP, src, dst, segment);
    UdpFrameRoundTripsIff(h, payload, segment);
  }

  lemma UdpFrameRoundTripsIff(h: Headers, payload: seq<byte>, segment: seq<byte>)
    requires BuiltAs(h) && Padded(h) && h.transport.Udp? && h.Ihl() * 4 + UDP_LEN + |payload| < 0x1_0000
    requires segment == UdpSegment(h.transport.srcPort, h.transport.dstPort, payload)
    requires segment == h.transport.Print() + payload && h.total == h.Ihl() * 4 + |segment|
    ensures Parse(Memory(FrameOf(h, segment))) == Flow(h.Meaning())
      <==> !Short(h) || (|payload| >= 4 && h.transport.srcPort == UDP_LEN + |payload| && h.transport.dstPort == 0)
  {
    hide Parse, UdpSegment, Transport.Print, FrameOf, BuiltAs, Padded, Headers.Meaning, ToBe;
    BuiltIsValid(h);
    if Short(h) {
      ShortUdpReads(h, payload);
      SameToBe(h.transport.srcPort, UDP_LEN + |payload|);
      SameToBe(h.transport.dstPort, 0);
      UdpMeans(h);
    } else {
      CompleteFrame(h, segment, payload);
    }
  }

  lemma SameToBe(x: u16, y: u16)
    ensures ToBe(x) == ToBe(y) <==> x == y
  {
  }
}
