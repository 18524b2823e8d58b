/** Captured Ethernet frames: stripping VLAN tags, and the IPv4 packets inside with their TCP or UDP payload. */
module Ethernet {
  import opened Bytes
  import opened Values
  import opened FieldCodec

  /** One captured packet, down to its transport payload. */
  datatype CapPacket = CapPacket(srcIp: string, srcPort: nat, dstIp: string, dstPort: nat,
                                 tcp: bool, payload: seq<byte>, flowKey: string)

  function U16(d: seq<byte>, at: nat): (v: nat)
    requires at + 2 <= |d|
    ensures v < 65536
  {
    d[at] as int * 256 + d[at + 1]
  }

  function IpText(d: seq<byte>, at: nat): string
    requires at + 4 <= |d|
  {
    Decimal(d[at]) + "." + Decimal(d[at + 1]) + "." + Decimal(d[at + 2]) + "." + Decimal(d[at + 3])
  }

  predicate IsTag(et: nat) {
    et == 0x8100 || et == 0x88A8
  }

  /** Behind the VLAN tags: where the payload starts and its EtherType. */
  function StripTags(d: seq<byte>, off: nat, et: nat): (r: Option<(nat, nat)>)
    requires off <= |d|
    ensures r.Some? ==> off <= r.value.0 <= |d| && !IsTag(r.value.1)
    decreases |d| - off
  {
    if !IsTag(et) then Some((off, et))
    else if |d| < off + 4 then None
    else StripTags(d, off + 4, U16(d, off + 2))
  }

  function Packet(ip: seq<byte>, srcPort: nat, dstPort: nat, tcp: bool, payload: seq<byte>): CapPacket
    requires |ip| >= 20
  {
    var src, dst := IpText(ip, 12), IpText(ip, 16);
    CapPacket(src, srcPort, dst, dstPort, tcp, payload,
              src + ":" + Decimal(srcPort) + ">" + dst + ":" + Decimal(dstPort))
  }

  /** t is what the IPv4 packet carries. */
  function ParseTransport(ip: seq<byte>, t: seq<byte>): Option<CapPacket>
    requires |ip| >= 20
  {
    if ip[9] == 6 then
      if |t| < 20 then None
      else
        var doff := t[12] / 16 * 4;
        if doff < 20 || |t| < doff then None
        else Some(Packet(ip, U16(t, 0), U16(t, 2), true, t[doff..]))
    else if ip[9] == 17 then
      if |t| < 8 || U16(t, 4) < 8 then None
      else
        var len := if U16(t, 4) < |t| then U16(t, 4) else |t|;
        Some(Packet(ip, U16(t, 0), U16(t, 2), false, t[8..len]))
    else None
  }

  function ParseIp(ip: seq<byte>): Option<CapPacket> {
    if |ip| < 20 || ip[0] / 16 != 4 then None
    else
      var ihl, total := ip[0] % 16 * 4, U16(ip, 2);
      if ihl < 20 || |ip| < ihl || total < ihl || |ip| < total then None
      else ParseTransport(ip, ip[ihl..total])
  }

  function Parse(d: seq<byte>): Option<CapPacket> {
    if |d| < 14 then None
    else
      var r := StripTags(d, 14, U16(d, 12));
      if r.None? || r.value.1 != 0x0800 then None else ParseIp(d[r.value.0..])
  }

  /** The parser as written, on offsets into the frame. */
  method ParseEthernetFrame(d: seq<byte>) returns (r: Option<CapPacket>)
    ensures r == Parse(d)
  {
    if |d| < 14 {
      return None;
    }
    var et, off := U16(d, 12), 14;
    while IsTag(et)
      invariant 14 <= off <= |d|
      invariant StripTags(d, 14, U16(d, 12)) == StripTags(d, off, et)
      decreases |d| - off
    {
      if |d| < off + 4 {
        return None;
      }
      et, off := U16(d, off + 2), off + 4;
    }
    if et != 0x0800 {
      return None;
    }
    r := ParseIpAt(d, off);
  }

  method ParseIpAt(d: seq<byte>, off: nat) returns (r: Option<CapPacket>)
    requires off <= |d|
    ensures r == ParseIp(d[off..])
  {
    hide ParseTransport;
    var avail := |d| - off;
    if avail < 20 || d[off] / 16 != 4 {
      return None;
    }
    var ihl := d[off] % 16 * 4;
    if ihl < 20 || avail < ihl {
      return None;
    }
    var total := U16(d, off + 2);
    if total < ihl || avail < total {
      return None;
    }
    assert d[off..][ihl..total] == d[off + ihl..off + total];
    r := ParseTransportAt(d, off, off + ihl, total - ihl);
  }

  method ParseTransportAt(d: seq<byte>, ip: nat, at: nat, tLen: nat) returns (r: Option<CapPacket>)
    requires ip + 20 <= at <= at + tLen <= |d|
    ensures r == ParseTransport(d[ip..], d[at..at + tLen])
  {
    hide Packet, U16;
    if d[ip + 9] == 6 {
      if tLen < 20 {
        return None;
      }
      var doff := d[at + 12] / 16 * 4;
      if doff < 20 || tLen < doff {
        return None;
      }
      Subslice(d, at, tLen, doff, tLen);
      U16Slice(d, at, tLen, 0);
      U16Slice(d, at, tLen, 2);
      r := Some(PacketAt(d, ip, U16(d, at), U16(d, at + 2), true, d[at + doff..at + tLen]));
    } else if d[ip + 9] == 17 {
      if tLen < 8 {
        return None;
      }
      var ulen := U16(d, at + 4);
      U16Slice(d, at, tLen, 4);
      if ulen < 8 {
        return None;
      }
      var len := if ulen < tLen then ulen else tLen;
      Subslice(d, at, tLen, 8, len);
      U16Slice(d, at, tLen, 0);
      U16Slice(d, at, tLen, 2);
      r := Some(PacketAt(d, ip, U16(d, at), U16(d, at + 2), false, d[at + 8..at + len]));
    } else {
      return None;
    }
  }

  lemma {:induction false} Subslice(d: seq<byte>, at: nat, n: nat, lo: nat, hi: nat)
    requires at + n <= |d| && lo <= hi <= n
    ensures d[at..at + n][lo..hi] == d[at + lo..at + hi]
    ensures hi == n ==> d[at..at + n][lo..] == d[at + lo..at + hi]
  {
    var s := d[at..at + n];
    forall i | 0 <= i < hi - lo
      ensures s[lo..hi][i] == d[at + lo..at + hi][i]
    {
      assert s[lo + i] == d[at + (lo + i)];
    }
    assert hi == n ==> s[lo..] == s[lo..hi];
  }

  lemma {:induction false} U16Slice(d: seq<byte>, at: nat, n: nat, k: nat)
    requires at + n <= |d| && k + 2 <= n
    ensures U16(d[at..at + n], k) == U16(d, at + k)
  {
  }

  function PacketAt(d: seq<byte>, off: nat, srcPort: nat, dstPort: nat, tcp: bool, payload: seq<byte>): (p: CapPacket)
    requires off + 20 <= |d|
    ensures p == Packet(d[off..], srcPort, dstPort, tcp, payload)
  {
    var src, dst := IpText(d, off + 12), IpText(d, off + 16);
    CapPacket(src, srcPort, dst, dstPort, tcp, payload,
              src + ":" + Decimal(srcPort) + ">" + dst + ":" + Decimal(dstPort))
  }

  // ---- VLAN tags and padding make no difference ----

  /** Any number of tags: each an EtherType that announces a tag and two bytes of tag control. */
  predicate TagStack(tags: seq<byte>) {
    && |tags| % 4 == 0
    && forall i :: 0 <= i < |tags| && i % 4 == 0 ==>
         (tags[i] == 0x81 && tags[i + 1] == 0x00) || (tags[i] == 0x88 && tags[i + 1] == 0xA8)
  }

  function Tagged(d: seq<byte>, tags: seq<byte>): seq<byte>
    requires |d| >= 12
  {
    d[..12] + tags + d[12..]
  }

  /** The tags that are left when k bytes of them have been stripped lead to what d has behind its own. */
  lemma {:induction false} StripTagStack(d: seq<byte>, tags: seq<byte>, k: nat)
    requires |d| >= 14 && TagStack(tags) && k <= |tags| && k % 4 == 0
    ensures var e := Tagged(d, tags);
            var r := StripTags(d, 14, U16(d, 12));
            StripTags(e, 14 + k, U16(e, 12 + k)) == if r.Some? then Some((r.value.0 + |tags|, r.value.1)) else None
    decreases |tags| - k
  {
    var e := Tagged(d, tags);
    if k == |tags| {
      assert U16(e, 12 + k) == U16(d, 12);
      ShiftedStrip(d, e, |tags|, 14, U16(d, 12));
    } else {
      assert U16(e, 12 + k) == U16(tags, k);
      StripTagStack(d, tags, k + 4);
    }
  }

  lemma {:induction false} ShiftedStrip(d: seq<byte>, e: seq<byte>, shift: nat, off: nat, et: nat)
    requires |e| == |d| + shift && 14 <= off <= |d| && e[12 + shift..] == d[12..]
    ensures var r := StripTags(d, off, et);
            StripTags(e, off + shift, et) == if r.Some? then Some((r.value.0 + shift, r.value.1)) else None
    decreases |d| - off
  {
    if IsTag(et) && |d| >= off + 4 {
      assert e[12 + shift..][off - 10] == d[12..][off - 10] && e[12 + shift..][off - 9] == d[12..][off - 9];
      ShiftedStrip(d, e, shift, off + 4, U16(d, off + 2));
    }
  }

  /** Inserting any stack of VLAN tags behind the MAC addresses changes nothing of what is parsed. */
  lemma {:induction false} TagsAreTransparent(d: seq<byte>, tags: seq<byte>)
    requires |d| >= 14 && TagStack(tags)
    ensures Parse(Tagged(d, tags)) == Parse(d)
  {
    hide ParseIp;
    var e := Tagged(d, tags);
    StripTagStack(d, tags, 0);
    var r := StripTags(d, 14, U16(d, 12));
    if r.Some? {
      assert e[r.value.0 + |tags|..] == d[r.value.0..];
    }
  }

  lemma {:induction false} PaddedStrip(d: seq<byte>, pad: seq<byte>, off: nat, et: nat)
    requires off <= |d| && StripTags(d, off, et).Some?
    ensures StripTags(d + pad, off, et) == StripTags(d, off, et)
    decreases |d| - off
  {
    if IsTag(et) {
      PaddedStrip(d, pad, off + 4, U16(d, off + 2));
    }
  }

  lemma {:induction false} PaddedIp(ip: seq<byte>, pad: seq<byte>)
    requires ParseIp(ip).Some?
    ensures ParseIp(ip + pad) == ParseIp(ip)
  {
    hide ParseTransport;
    var ihl, total := ip[0] % 16 * 4, U16(ip, 2);
    assert (ip + pad)[ihl..total] == ip[ihl..total];
    PaddedTransport(ip, pad, ip[ihl..total]);
  }

  lemma {:induction false} PaddedTransport(ip: seq<byte>, pad: seq<byte>, t: seq<byte>)
    requires |ip| >= 20
    ensures ParseTransport(ip + pad, t) == ParseTransport(ip, t)
  {
    hide U16;
  }

  /** Whatever follows the IPv4 packet in the frame is ignored. */
  lemma {:induction false} PaddingIsIgnored(d: seq<byte>, pad: seq<byte>)
    requires Parse(d).Some?
    ensures Parse(d + pad) == Parse(d)
  {
    hide ParseIp;
    PaddedStrip(d, pad, 14, U16(d, 12));
    var off := StripTags(d, 14, U16(d, 12)).value.0;
    assert (d + pad)[off..] == d[off..] + pad;
    PaddedIp(d[off..], pad);
  }

  // ---- The wire format ----

  /** A TCP segment or UDP datagram in an IPv4 packet. The fillers stand for the header fields the
      parser does not look at. */
  datatype Datagram = Datagram(
    tcp: bool, src: seq<byte>, dst: seq<byte>, srcPort: nat, dstPort: nat, payload: seq<byte>,
    ipOptions: seq<byte>, tcpOptions: seq<byte>,
    tos: byte, idFragTtl: seq<byte>, ipChecksum: seq<byte>, seqAck: seq<byte>, reserved: nat, flagsToUrgent: seq<byte>,
    udpChecksum: seq<byte>)
  {
    predicate WellFormed() {
      && |src| == 4 && |dst| == 4 && srcPort < 65536 && dstPort < 65536
      && |ipOptions| % 4 == 0 && |ipOptions| <= 40 && |tcpOptions| % 4 == 0 && |tcpOptions| <= 40
      && |idFragTtl| == 5 && |ipChecksum| == 2 && |seqAck| == 8 && reserved < 16 && |flagsToUrgent| == 7
      && |udpChecksum| == 2
      && 20 + |ipOptions| + |Transport()| < 65536
    }

    /** The TCP header and data, or the UDP header and data. */
    function Transport(): (t: seq<byte>)
      requires srcPort < 65536 && dstPort < 65536 && |tcpOptions| % 4 == 0 && |tcpOptions| <= 40 && reserved < 16
    {
      if tcp then
        Digits(srcPort, 2, true) + Digits(dstPort, 2, true) + seqAck
        + [(20 + |tcpOptions|) / 4 * 16 + reserved] + flagsToUrgent + tcpOptions + payload
      else
        Digits(srcPort, 2, true) + Digits(dstPort, 2, true) + Digits(8 + |payload|, 2, true) + udpChecksum + payload
    }

    function IpHeader(): (h: seq<byte>)
      requires WellFormed()
    {
      [0x40 + (20 + |ipOptions|) / 4, tos] + Digits(20 + |ipOptions| + |Transport()|, 2, true)
      + idFragTtl + [if tcp then 6 else 17] + ipChecksum + src + dst + ipOptions
    }
  }

  lemma {:induction false} TwoDigits(v: nat)
    requires v < 65536
    ensures Digits(v, 2, true) == [v / 256, v % 256]
  {
    assert Digits(v / 256, 1, true) == Digits(v / 256 / 256, 0, true) + [v / 256 % 256];
  }

  /** Where the parts of a TCP segment are; w stands for data offset and reserved bits. */
  lemma {:induction false} TcpLayout(src: seq<byte>, dst: seq<byte>, seqAck: seq<byte>, w: byte, flags: seq<byte>,
                                     options: seq<byte>, payload: seq<byte>)
    requires |src| == 2 && |dst| == 2 && |seqAck| == 8 && |flags| == 7
    ensures var t := src + dst + seqAck + [w] + flags + options + payload;
            && |t| == 20 + |options| + |payload|
            && t[0..2] == src && t[2..4] == dst && t[12] == w && t[20 + |options|..] == payload
  {
  }

  lemma {:induction false} UdpLayout(src: seq<byte>, dst: seq<byte>, len: seq<byte>, sum: seq<byte>, payload: seq<byte>)
    requires |src| == 2 && |dst| == 2 && |len| == 2 && |sum| == 2
    ensures var t := src + dst + len + sum + payload;
            && |t| == 8 + |payload|
            && t[0..2] == src && t[2..4] == dst && t[4..6] == len && t[8..|t|] == payload
  {
  }

  /** Two bytes written by the encoder are read back. */
  lemma {:induction false} U16OfDigits(t: seq<byte>, at: nat, v: nat)
    requires v < 65536 && at + 2 <= |t| && t[at..at + 2] == Digits(v, 2, true)
    ensures U16(t, at) == v
  {
    TwoDigits(v);
    assert t[at] == t[at..at + 2][0] && t[at + 1] == t[at..at + 2][1];
  }

  lemma {:induction false} TcpParts(g: Datagram)
    requires g.WellFormed() && g.tcp
    ensures var t := g.Transport();
            && |t| == 20 + |g.tcpOptions| + |g.payload|
            && U16(t, 0) == g.srcPort && U16(t, 2) == g.dstPort
            && t[12] / 16 * 4 == 20 + |g.tcpOptions|
            && t[20 + |g.tcpOptions|..] == g.payload
  {
    hide Digits, U16;
    TcpLayout(Digits(g.srcPort, 2, true), Digits(g.dstPort, 2, true), g.seqAck,
              (20 + |g.tcpOptions|) / 4 * 16 + g.reserved, g.flagsToUrgent, g.tcpOptions, g.payload);
    U16OfDigits(g.Transport(), 0, g.srcPort);
    U16OfDigits(g.Transport(), 2, g.dstPort);
  }

  lemma {:induction false} UdpParts(g: Datagram)
    requires g.WellFormed() && !g.tcp
    ensures var t := g.Transport();
            && |t| == 8 + |g.payload|
            && U16(t, 0) == g.srcPort && U16(t, 2) == g.dstPort && U16(t, 4) == |t|
            && t[8..|t|] == g.payload
  {
    hide Digits, U16;
    UdpLayout(Digits(g.srcPort, 2, true), Digits(g.dstPort, 2, true), Digits(8 + |g.payload|, 2, true),
              g.udpChecksum, g.payload);
    U16OfDigits(g.Transport(), 0, g.srcPort);
    U16OfDigits(g.Transport(), 2, g.dstPort);
    U16OfDigits(g.Transport(), 4, 8 + |g.payload|);
  }

  lemma {:induction false} TransportParses(g: Datagram, ip: seq<byte>)
    requires g.WellFormed() && |ip| >= 20 && ip[9] == if g.tcp then 6 else 17
    ensures ParseTransport(ip, g.Transport()) == Some(Packet(ip, g.srcPort, g.dstPort, g.tcp, g.payload))
  {
    hide Packet, U16;
    if g.tcp {
      TcpParts(g);
    } else {
      UdpParts(g);
    }
  }

  lemma {:induction false} HeaderParts(g: Datagram)
    requires g.WellFormed()
    ensures var h := g.IpHeader();
            && |h| == 20 + |g.ipOptions|
            && h[0] == 0x40 + (20 + |g.ipOptions|) / 4
            && U16(h, 2) == |h| + |g.Transport()|
            && h[9] == (if g.tcp then 6 else 17)
            && h[12..16] == g.src && h[16..20] == g.dst
  {
    TwoDigits(20 + |g.ipOptions| + |g.Transport()|);
  }

  /** Every TCP segment and UDP datagram put on the wire, with any options, behind any VLAN tags and
      before any padding, is parsed back: addresses, ports and exactly its payload. */
  lemma {:induction false} WireRoundTrip(g: Datagram, macs: seq<byte>, tags: seq<byte>, pad: seq<byte>)
    requires g.WellFormed() && |macs| == 12 && TagStack(tags)
    ensures Parse(macs + tags + [0x08, 0x00] + g.IpHeader() + g.Transport() + pad)
         == Some(CapPacket(IpText(g.src, 0), g.srcPort, IpText(g.dst, 0), g.dstPort, g.tcp, g.payload,
                           FlowKey(g.src, g.srcPort, g.dst, g.dstPort)))
  {
    var h, t := g.IpHeader(), g.Transport();
    PacketParts(g);
    IpParses(g);
    hide *;
    assert macs + tags + [0x08, 0x00] + h + t + pad == macs + tags + [0x08, 0x00] + (h + t) + pad;
    AnywhereInFrame(macs, tags, h + t, pad);
  }

  /** VLAN tags in front of an IPv4 packet and padding behind it make no difference. */
  lemma {:induction false} AnywhereInFrame(macs: seq<byte>, tags: seq<byte>, ip: seq<byte>, pad: seq<byte>)
    requires |macs| == 12 && TagStack(tags) && ParseIp(ip).Some?
    ensures Parse(macs + tags + [0x08, 0x00] + ip + pad) == ParseIp(ip)
  {
    hide *;
    var plain := macs + [0x08, 0x00] + ip;
    PlainParses(macs, ip);
    TagsAreTransparent(plain, tags);
    assert plain == macs + ([0x08, 0x00] + ip);
    TaggedIs(macs, tags, [0x08, 0x00] + ip);
    PaddingIsIgnored(Tagged(plain, tags), pad);
    assert macs + tags + ([0x08, 0x00] + ip) + pad == macs + tags + [0x08, 0x00] + ip + pad;
  }

  lemma {:induction false} SameText(h: seq<byte>, addr: seq<byte>, at: nat)
    requires at + 4 <= |h| && |addr| == 4 && h[at..at + 4] == addr
    ensures IpText(h, at) == IpText(addr, 0)
  {
    var part := h[at..at + 4];
    assert h[at] == part[0] && h[at + 1] == part[1] && h[at + 2] == part[2] && h[at + 3] == part[3];
  }

  lemma {:induction false} TaggedIs(macs: seq<byte>, tags: seq<byte>, rest: seq<byte>)
    requires |macs| == 12
    ensures Tagged(macs + rest, tags) == macs + tags + rest
  {
  }

  lemma {:induction false} PlainParses(macs: seq<byte>, ip: seq<byte>)
    requires |macs| == 12
    ensures Parse(macs + [0x08, 0x00] + ip) == ParseIp(ip)
  {
    var d := macs + [0x08, 0x00] + ip;
    assert U16(d, 12) == 0x0800;
    assert d[14..] == ip;
  }

  lemma {:induction false} IpParses(g: Datagram)
    requires g.WellFormed()
    ensures |g.IpHeader()| >= 20
    ensures ParseIp(g.IpHeader() + g.Transport()) == Some(Packet(g.IpHeader(), g.srcPort, g.dstPort, g.tcp, g.payload))
  {
    hide Packet, ParseTransport, IpText;
    var h, t := g.IpHeader(), g.Transport();
    var ip := h + t;
    HeaderParts(g);
    assert U16(ip, 2) == U16(h, 2);
    assert ip[|h|..|ip|] == t;
    TransportParses(g, ip);
    SamePacket(h, t, g.srcPort, g.dstPort, g.tcp, g.payload);
  }

  lemma {:induction false} SamePacket(h: seq<byte>, t: seq<byte>, srcPort: nat, dstPort: nat, tcp: bool,
                                      payload: seq<byte>)
    requires |h| >= 20
    ensures Packet(h + t, srcPort, dstPort, tcp, payload) == Packet(h, srcPort, dstPort, tcp, payload)
  {
  }

  /** The payload of a TCP segment reaches from behind both headers to the total length, that of a UDP datagram
      from behind both headers as far as its own length field says, but not beyond the total length. */
  lemma {:induction false} PayloadInsidePacket(ip: seq<byte>)
    requires ParseIp(ip).Some?
    ensures var p, ihl, total := ParseIp(ip).value, ip[0] % 16 * 4, ip[2] as int * 256 + ip[3];
            && 20 <= ihl <= total <= |ip|
            && (p.tcp ==>
                  var lo := ihl + ip[ihl + 12] / 16 * 4;
                  ihl + 20 <= lo <= total && p.payload == ip[lo..total])
            && (!p.tcp ==>
                  var len := ip[ihl + 4] as int * 256 + ip[ihl + 5];
                  var hi := if ihl + len < total then ihl + len else total;
                  ihl + 8 <= hi && p.payload == ip[ihl + 8..hi])
  {
    hide IpText, Decimal;
    var ihl, total := ip[0] % 16 * 4, U16(ip, 2);
    var t := ip[ihl..total];
    if ip[9] == 6 {
      var doff := t[12] / 16 * 4;
      assert t[doff..] == ip[ihl + doff..total];
    } else {
      var len := if U16(t, 4) < |t| then U16(t, 4) else |t|;
      assert t[8..len] == ip[ihl + 8..ihl + len];
    }
  }

  // ---- Flow keys ----

  ghost predicate Without(s: string, c: char) {
    forall i :: 0 <= i < |s| ==> s[i] != c
  }

  /** Text up to the first separator is determined. */
  lemma {:induction false} SameUpTo(a: string, b: string, c: string, d: string, sep: char)
    requires a + [sep] + b == c + [sep] + d && Without(a, sep) && Without(c, sep)
    ensures a == c && b == d
  {
    var s := a + [sep] + b;
    assert s[|a|] == sep && s[|c|] == sep;
    assert a == s[..|a|] && c == s[..|c|];
    assert b == s[|a| + 1..] && d == s[|c| + 1..];
  }

  lemma {:induction false} DecimalsSame(u: nat, v: nat, x: string, y: string, sep: char)
    requires Decimal(u) + [sep] + x == Decimal(v) + [sep] + y && !IsDigit(sep)
    ensures u == v && x == y
  {
    DecimalText(u);
    DecimalText(v);
    SameUpTo(Decimal(u), x, Decimal(v), y, sep);
  }

  lemma {:induction false} Regroup(a: string, b: string, c: string, d: string, sep: char, x: string)
    ensures a + "." + b + "." + c + "." + d + [sep] + x == a + ['.'] + (b + ['.'] + (c + ['.'] + (d + [sep] + x)))
  {
    assert c + "." + d + [sep] + x == c + ['.'] + (d + [sep] + x);
    assert b + "." + c + "." + d + [sep] + x == b + ['.'] + (c + "." + d + [sep] + x);
  }

  lemma {:induction false} IpTextSame(s: seq<byte>, t: seq<byte>, x: string, y: string, sep: char)
    requires |s| == 4 && |t| == 4 && !IsDigit(sep)
    requires IpText(s, 0) + [sep] + x == IpText(t, 0) + [sep] + y
    ensures s == t && x == y
  {
    hide Decimal;
    var a, b := Decimal(s[3]) + [sep] + x, Decimal(t[3]) + [sep] + y;
    var a2, b2 := Decimal(s[2]) + ['.'] + a, Decimal(t[2]) + ['.'] + b;
    var a1, b1 := Decimal(s[1]) + ['.'] + a2, Decimal(t[1]) + ['.'] + b2;
    Regroup(Decimal(s[0]), Decimal(s[1]), Decimal(s[2]), Decimal(s[3]), sep, x);
    Regroup(Decimal(t[0]), Decimal(t[1]), Decimal(t[2]), Decimal(t[3]), sep, y);
    DecimalsSame(s[0], t[0], a1, b1, '.');
    DecimalsSame(s[1], t[1], a2, b2, '.');
    DecimalsSame(s[2], t[2], a, b, '.');
    DecimalsSame(s[3], t[3], x, y, sep);
  }

  function FlowKey(src: seq<byte>, srcPort: nat, dst: seq<byte>, dstPort: nat): string
    requires |src| == 4 && |dst| == 4
  {
    IpText(src, 0) + ":" + Decimal(srcPort) + ">" + IpText(dst, 0) + ":" + Decimal(dstPort)
  }

  /** Two packets belong to one flow exactly when addresses, ports and direction agree. */
  lemma {:induction false} FlowKeysAreExact(src: seq<byte>, sp: nat, dst: seq<byte>, dp: nat, src': seq<byte>,
                                            sp': nat, dst': seq<byte>, dp': nat)
    requires |src| == 4 && |dst| == 4 && |src'| == 4 && |dst'| == 4
    ensures FlowKey(src, sp, dst, dp) == FlowKey(src', sp', dst', dp')
       <==> src == src' && sp == sp' && dst == dst' && dp == dp'
  {
    hide IpText, Decimal;
    if FlowKey(src, sp, dst, dp) == FlowKey(src', sp', dst', dp') {
      var c, c' := Decimal(dp), Decimal(dp');
      var b, b' := IpText(dst, 0) + [':'] + c, IpText(dst', 0) + [':'] + c';
      var a, a' := Decimal(sp) + ['>'] + b, Decimal(sp') + ['>'] + b';
      assert FlowKey(src, sp, dst, dp) == IpText(src, 0) + [':'] + a;
      assert FlowKey(src', sp', dst', dp') == IpText(src', 0) + [':'] + a';
      IpTextSame(src, src', a, a', ':');
      DecimalsSame(sp, sp', b, b', '>');
      IpTextSame(dst, dst', c, c', ':');
      DecimalText(dp);
      DecimalText(dp');
    }
  }

  lemma {:induction false} PacketParts(g: Datagram)
    requires g.WellFormed()
    ensures Packet(g.IpHeader(), g.srcPort, g.dstPort, g.tcp, g.payload)
         == CapPacket(IpText(g.src, 0), g.srcPort, IpText(g.dst, 0), g.dstPort, g.tcp, g.payload,
                      FlowKey(g.src, g.srcPort, g.dst, g.dstPort))
  {
    hide Decimal, IpText;
    HeaderParts(g);
    SameText(g.IpHeader(), g.src, 12);
    SameText(g.IpHeader(), g.dst, 16);
  }
}
