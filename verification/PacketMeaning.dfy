/** Which captured frames are parsed, and what each part of the result is, byte by byte. */
module PacketMeaning {
  import opened Bytes
  import opened Values
  import opened FieldCodec
  import opened FieldMeaning
  import opened Ethernet

  /** Four decimal numbers with dots in between. */
  ghost predicate IsDotted(t: string, addr: seq<byte>)
    requires |addr| == 4
  {
    exists a, b, c, d ::
      && IsDecimalOf(a, addr[0]) && IsDecimalOf(b, addr[1]) && IsDecimalOf(c, addr[2]) && IsDecimalOf(d, addr[3])
      && t == a + "." + b + "." + c + "." + d
  }

  /** Sender and receiver, each as address:port. */
  ghost predicate IsFlow(t: string, src: string, srcPort: nat, dst: string, dstPort: nat) {
    exists a, b :: IsDecimalOf(a, srcPort) && IsDecimalOf(b, dstPort) && t == src + ":" + a + ">" + dst + ":" + b
  }

  predicate IsWordAt(v: nat, d: seq<byte>, at: int) {
    0 <= at && at + 2 <= |d| && v == d[at] as int * 256 + d[at + 1]
  }

  /** The bytes of an IPv4 packet with a TCP segment or a UDP datagram, and what is made of them. The header
      length and the total length bound everything; bytes behind the total length are ignored. */
  ghost predicate Carries(ip: seq<byte>, p: CapPacket) {
    && |ip| >= 20 && ip[0] / 16 == 4
    && var ihl, total := ip[0] % 16 * 4, ip[2] as int * 256 + ip[3];
       && 20 <= ihl <= total <= |ip|
       && IsDotted(p.srcIp, ip[12..16]) && IsDotted(p.dstIp, ip[16..20])
       && IsFlow(p.flowKey, p.srcIp, p.srcPort, p.dstIp, p.dstPort)
       && IsWordAt(p.srcPort, ip[..total], ihl) && IsWordAt(p.dstPort, ip[..total], ihl + 2)
       && if p.tcp then ip[9] == 6 && CarriesTcp(ip[ihl..total], p.payload)
          else ip[9] == 17 && CarriesUdp(ip[ihl..total], p.payload)
  }

  /** The data of a segment stands behind its header, options included. */
  predicate CarriesTcp(t: seq<byte>, payload: seq<byte>) {
    |t| >= 20 && var head := t[12] / 16 * 4; 20 <= head <= |t| && payload == t[head..]
  }

  /** The data of a datagram reaches as far as its length says, or to the end of the packet if that comes first. */
  predicate CarriesUdp(t: seq<byte>, payload: seq<byte>) {
    |t| >= 8 && var len := t[4] as int * 256 + t[5]; 8 <= len && payload == if len < |t| then t[8..len] else t[8..]
  }

  lemma {:induction false} IpTextIs(d: seq<byte>, at: nat)
    requires at + 4 <= |d|
    ensures IsDotted(IpText(d, at), d[at..at + 4])
  {
    hide Decimal, IsDecimalOf;
    DecimalIs(d[at]);
    DecimalIs(d[at + 1]);
    DecimalIs(d[at + 2]);
    DecimalIs(d[at + 3]);
  }

  /** A number is spelled in one way. */
  lemma {:induction false} DecimalUnique(t: string, u: nat)
    requires IsDecimalOf(t, u)
    ensures t == Decimal(u)
    decreases |t|
  {
    hide Decimal, Tens;
    DecimalUnfolds(u);
    if |t| == 1 {
      TensUnfolds(t);
      assert t[..0] == "";
      TensUnfolds("");
      OneDigit(t, u);
    } else {
      var front, last := t[..|t| - 1], t[|t| - 1..];
      assert front[0] == t[0] && t == front + last;
      TensUnfolds(t);
      LeadingDigit(front);
      assert u / 10 == Tens(front) && u % 10 == last[0] as int - 48;
      DecimalUnique(front, u / 10);
      OneDigit(last, u % 10);
    }
  }

  lemma {:induction false} DecimalUnfolds(u: nat)
    ensures Decimal(u) == if u < 10 then [HEX_DIGITS[u]] else Decimal(u / 10) + [HEX_DIGITS[u % 10]]
  {
  }

  lemma {:induction false} TensUnfolds(t: string)
    ensures Tens(t) == if t == "" then 0 else Tens(t[..|t| - 1]) * 10 + (t[|t| - 1] as int - 48)
  {
  }

  lemma {:induction false} OneDigit(t: string, u: nat)
    requires |t| == 1 && '0' <= t[0] <= '9' && t[0] as int - 48 == u
    ensures u < 10 && t == [HEX_DIGITS[u]]
  {
    assert forall d: nat :: d < 10 ==> HEX_DIGITS[d] as int == 48 + d;
  }

  lemma {:induction false} LeadingDigit(t: string)
    requires t != "" && t[0] != '0' && forall i :: 0 <= i < |t| ==> '0' <= t[i] <= '9'
    ensures Tens(t) > 0
    decreases |t|
  {
    if |t| == 1 {
      assert t[..0] == "";
    } else {
      LeadingDigit(t[..|t| - 1]);
    }
  }

  lemma {:induction false} DottedUnique(t: string, d: seq<byte>, at: nat)
    requires at + 4 <= |d| && IsDotted(t, d[at..at + 4])
    ensures t == IpText(d, at)
  {
    hide Decimal, IsDecimalOf;
    var addr := d[at..at + 4];
    var a, b, c, e :|
      && IsDecimalOf(a, addr[0]) && IsDecimalOf(b, addr[1]) && IsDecimalOf(c, addr[2]) && IsDecimalOf(e, addr[3])
      && t == a + "." + b + "." + c + "." + e;
    DecimalUnique(a, d[at]);
    DecimalUnique(b, d[at + 1]);
    DecimalUnique(c, d[at + 2]);
    DecimalUnique(e, d[at + 3]);
  }

  lemma {:induction false} FlowIs(t: string, src: string, srcPort: nat, dst: string, dstPort: nat)
    ensures IsFlow(t, src, srcPort, dst, dstPort) <==>
            t == src + ":" + Decimal(srcPort) + ">" + dst + ":" + Decimal(dstPort)
  {
    hide Decimal, IsDecimalOf;
    DecimalIs(srcPort);
    DecimalIs(dstPort);
    if a, b :| IsDecimalOf(a, srcPort) && IsDecimalOf(b, dstPort) && t == src + ":" + a + ">" + dst + ":" + b {
      DecimalUnique(a, srcPort);
      DecimalUnique(b, dstPort);
    }
  }

  /** A packet is parsed exactly if it carries a segment or datagram, and the result is what it carries. */
  lemma {:induction false} IpParsesIff(ip: seq<byte>, p: CapPacket)
    ensures ParseIp(ip) == Some(p) <==> Carries(ip, p)
  {
    hide IpText, Decimal, IsDotted, IsFlow, CarriesTcp, CarriesUdp, IsWordAt, ParseTransport;
    if |ip| >= 20 {
      FlowIs(p.flowKey, p.srcIp, p.srcPort, p.dstIp, p.dstPort);
      IpTextIs(ip, 12);
      IpTextIs(ip, 16);
      if IsDotted(p.srcIp, ip[12..16]) {
        DottedUnique(p.srcIp, ip, 12);
      }
      if IsDotted(p.dstIp, ip[16..20]) {
        DottedUnique(p.dstIp, ip, 16);
      }
      TransportParsesIff(ip, p);
    }
  }

  lemma {:induction false} TransportParsesIff(ip: seq<byte>, p: CapPacket)
    requires |ip| >= 20
    ensures ParseIp(ip) == Some(p) <==>
            && ip[0] / 16 == 4
            && var ihl, total := ip[0] % 16 * 4, ip[2] as int * 256 + ip[3];
               && 20 <= ihl <= total <= |ip|
               && p.srcIp == IpText(ip, 12) && p.dstIp == IpText(ip, 16)
               && p.flowKey == p.srcIp + ":" + Decimal(p.srcPort) + ">" + p.dstIp + ":" + Decimal(p.dstPort)
               && IsWordAt(p.srcPort, ip[..total], ihl) && IsWordAt(p.dstPort, ip[..total], ihl + 2)
               && if p.tcp then ip[9] == 6 && CarriesTcp(ip[ihl..total], p.payload)
                  else ip[9] == 17 && CarriesUdp(ip[ihl..total], p.payload)
  {
    hide ParseTransport, IpText, Decimal, CarriesTcp, CarriesUdp, IsWordAt;
    var ihl, total := ip[0] % 16 * 4, ip[2] as int * 256 + ip[3] as int;
    if ip[0] / 16 == 4 && 20 <= ihl <= total <= |ip| {
      TransportIs(ip, ip[ihl..total], p);
      WordBehind(p.srcPort, ip[..total], ihl, 0);
      WordBehind(p.dstPort, ip[..total], ihl, 2);
      assert ip[..total][ihl..] == ip[ihl..total];
    }
  }

  lemma {:induction false} WordBehind(v: nat, d: seq<byte>, from: nat, at: nat)
    requires from <= |d|
    ensures IsWordAt(v, d[from..], at) <==> IsWordAt(v, d, from + at)
  {
  }

  lemma {:induction false} TransportIs(ip: seq<byte>, t: seq<byte>, p: CapPacket)
    requires |ip| >= 20
    ensures ParseTransport(ip, t) == Some(p) <==>
            && p.srcIp == IpText(ip, 12) && p.dstIp == IpText(ip, 16)
            && p.flowKey == p.srcIp + ":" + Decimal(p.srcPort) + ">" + p.dstIp + ":" + Decimal(p.dstPort)
            && IsWordAt(p.srcPort, t, 0) && IsWordAt(p.dstPort, t, 2)
            && if p.tcp then ip[9] == 6 && CarriesTcp(t, p.payload) else ip[9] == 17 && CarriesUdp(t, p.payload)
  {
    hide IpText, Decimal;
    assert |t| >= 8 ==> t[8..|t|] == t[8..];
  }

  /** The EtherType field behind n tags announces a VLAN tag. */
  predicate TagAt(d: seq<byte>, n: int) {
    && 0 <= n && 12 + 4 * n + 2 <= |d|
    && ((d[12 + 4 * n] == 0x81 && d[13 + 4 * n] == 0x00) || (d[12 + 4 * n] == 0x88 && d[13 + 4 * n] == 0xA8))
  }

  /** Behind the MAC addresses stand n VLAN tags and then an IPv4 packet that carries p. */
  ghost predicate Captures(d: seq<byte>, n: nat, p: CapPacket) {
    && |d| >= 14 + 4 * n
    && (forall i :: 0 <= i < n ==> TagAt(d, i))
    && d[12 + 4 * n] == 0x08 && d[13 + 4 * n] == 0x00
    && Carries(d[14 + 4 * n..], p)
  }

  lemma {:induction false} StripIs(d: seq<byte>, m: nat)
    requires 14 + 4 * m <= |d|
    ensures var r := StripTags(d, 14 + 4 * m, U16(d, 12 + 4 * m));
            && (r.None? ==> forall n :: m <= n && 14 + 4 * n <= |d| ==> TagAt(d, n))
            && (r.Some? ==>
                  exists n :: m <= n && r.value.0 == 14 + 4 * n <= |d| && r.value.1 == U16(d, 12 + 4 * n)
                              && !TagAt(d, n) && forall i :: m <= i < n ==> TagAt(d, i))
    decreases |d| - m
  {
    if TagAt(d, m) && |d| >= 14 + 4 * (m + 1) {
      StripIs(d, m + 1);
    }
  }

  /** A frame is parsed exactly if, behind any number of VLAN tags of both kinds, it holds an IPv4 packet that
      carries a segment or datagram, and the result is what that carries. */
  lemma {:induction false} FrameParsesIff(d: seq<byte>, p: CapPacket)
    ensures Parse(d) == Some(p) <==> exists n :: Captures(d, n, p)
  {
    hide ParseIp, Carries, StripTags;
    if |d| >= 14 {
      StripIs(d, 0);
      var r := StripTags(d, 14, U16(d, 12));
      if r.Some? {
        var n: nat :| && r.value.0 == 14 + 4 * n <= |d| && r.value.1 == U16(d, 12 + 4 * n)
                      && !TagAt(d, n) && forall i :: 0 <= i < n ==> TagAt(d, i);
        IpParsesIff(d[14 + 4 * n..], p);
        forall m: nat | Captures(d, m, p)
          ensures m == n
        {
          assert !TagAt(d, m);
        }
        assert Parse(d) == Some(p) <==> Captures(d, n, p);
      } else {
        forall m: nat
          ensures !Captures(d, m, p)
        {
          assert 14 + 4 * m <= |d| ==> TagAt(d, m);
        }
      }
    }
  }
}
