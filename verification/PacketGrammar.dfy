/** The packets the checksum forwarding engine supports (app/test-pmd/csumonly.c, the
    grammar documented at `pkt_burst_checksum_forward`), as an encoder, and the proof
    that the dissector inverts it. */
module PacketGrammar {
  import opened Basics
  import opened Dissector

  datatype Vlan = Untagged | Tagged(tci: seq<byte>)

  datatype Link = Link(addresses: seq<byte>, vlan: Vlan)

  /** IP headers, with every byte the dissector does not interpret left open. */
  datatype Ip =
    | V4(ihl: nat, a: seq<byte>, b: seq<byte>)
    | V6(class4: nat, a: seq<byte>, b: seq<byte>)

  datatype Transport =
    | Tcp(a: seq<byte>, dataOff: nat, flags4: nat, b: seq<byte>)
    | Udp(sport: seq<byte>, dport: nat, rest: seq<byte>)
    | OtherL4(proto: byte, payload: seq<byte>)

  datatype Inner = InnerIp(ip: Ip, l4: Transport) | InnerFrame(link: Link, ip: Ip, l4: Transport)

  datatype Tunnel =
    | VxlanHeader(sport: seq<byte>, dport: nat, rest: seq<byte>, vx: seq<byte>)
    | GpeHeader(sport: seq<byte>, rest: seq<byte>, flags: seq<byte>, implicitIpv4: bool, vni: seq<byte>)
    | GreHeader(low: nat, second: byte, csum: bool, key: bool, seqNo: bool, ext: seq<byte>)
    | IpIpHeader

  datatype Packet =
    | Plain(link: Link, ip: Ip, l4: Transport)
    | Tunnelled(link: Link, ip: Ip, tunnel: Tunnel, inner: Inner)

  // ---------------------------------------------------------------- validity

  predicate ValidLink(l: Link) {
    |l.addresses| == 12 && (l.vlan.Tagged? ==> |l.vlan.tci| == 2)
  }

  predicate ValidIp(ip: Ip) {
    match ip
    case V4(ihl, a, b) => 5 <= ihl <= 15 && |a| == 8 && |b| == 4 * ihl - 10
    case V6(class4, a, b) => class4 < 16 && |a| == 5 && |b| == 33
  }

  predicate ValidL4(t: Transport) {
    match t
    case Tcp(a, off, flags4, b) => |a| == 12 && 5 <= off <= 15 && flags4 < 16 && |b| == 4 * off - 13
    case Udp(sport, dport, rest) => |sport| == 2 && dport < 0x1_0000 && |rest| == 4
    case OtherL4(proto, _) => proto != IPPROTO_TCP && proto != IPPROTO_UDP
  }

  predicate ValidInner(i: Inner) {
    ValidIp(i.ip) && ValidL4(i.l4) && (i.InnerFrame? ==> ValidLink(i.link))
  }

  function Flag(b: bool): nat {
    if b then 1 else 0
  }

  predicate ValidTunnel(t: Tunnel, i: Inner, cfg: Config, tunnelType: bool) {
    match t
    case VxlanHeader(sport, dport, rest, vx) =>
      && i.InnerFrame? && |sport| == 2 && |rest| == 4 && |vx| == 8
      && dport < 0x1_0000 && dport != cfg.vxlanGpePort && (dport == VXLAN_PORT || tunnelType)
    case GpeHeader(sport, rest, flags, implicitIpv4, vni) =>
      && |sport| == 2 && |rest| == 4 && |flags| == 3 && |vni| == 4 && cfg.vxlanGpePort < 0x1_0000
      && (implicitIpv4 ==> i.InnerIp? && i.ip.V4?)
    case GreHeader(low, _, csum, key, seqNo, ext) =>
      low < 16 && |ext| == 4 * (Flag(csum) + Flag(key) + Flag(seqNo))
    case IpIpHeader => i.InnerIp?
  }

  /** A packet of the grammar under a given configuration: a plain UDP packet must not
      look like one of the tunnels. */
  predicate ValidPacket(p: Packet, cfg: Config, tunnelType: bool) {
    && ValidLink(p.link) && ValidIp(p.ip)
    && match p
       case Plain(_, _, l4) =>
         && ValidL4(l4)
         && (l4.Udp? ==> l4.dport != VXLAN_PORT && l4.dport != cfg.vxlanGpePort && !tunnelType)
         && (l4.OtherL4? ==> l4.proto != IPPROTO_GRE && l4.proto != IPPROTO_IPIP)
       case Tunnelled(_, _, tunnel, inner) => ValidInner(inner) && ValidTunnel(tunnel, inner, cfg, tunnelType)
  }

  // ----------------------------------------------------------------- encoder

  function Word(x: nat): seq<byte>
    requires x < 0x1_0000
  {
    [(x / 0x100) as byte, (x % 0x100) as byte]
  }

  function LinkLen(l: Link): nat {
    if l.vlan.Tagged? then 18 else 14
  }

  function EncodeLink(l: Link, ethertype: nat): seq<byte>
    requires ethertype < 0x1_0000
  {
    l.addresses + (if l.vlan.Tagged? then Word(ETHER_TYPE_VLAN) + l.vlan.tci else []) + Word(ethertype)
  }

  function IpType(ip: Ip): nat {
    if ip.V4? then ETHER_TYPE_IPV4 else ETHER_TYPE_IPV6
  }

  function IpLen(ip: Ip): nat {
    if ip.V4? then 4 * ip.ihl else 40
  }

  function EncodeIp(ip: Ip, proto: byte): (r: seq<byte>)
    requires ValidIp(ip)
    ensures |r| == IpLen(ip)
  {
    match ip
    case V4(ihl, a, b) => [(0x40 + ihl) as byte] + a + [proto] + b
    case V6(class4, a, b) => [(0x60 + class4) as byte] + a + [proto] + b
  }

  function Proto(t: Transport): byte {
    match t
    case Tcp(_, _, _, _) => IPPROTO_TCP
    case Udp(_, _, _) => IPPROTO_UDP
    case OtherL4(p, _) => p
  }

  function EncodeL4(t: Transport): seq<byte>
    requires ValidL4(t)
  {
    match t
    case Tcp(a, off, flags4, b) => a + [(16 * off + flags4) as byte] + b
    case Udp(sport, dport, rest) => sport + Word(dport) + rest
    case OtherL4(_, payload) => payload
  }

  /** Header length of TCP and UDP, the two transports the dissector measures. */
  function HeaderLen(t: Transport): nat {
    match t
    case Tcp(_, off, _, _) => 4 * off
    case Udp(_, _, _) => 8
    case OtherL4(_, _) => 0
  }

  /** The L3 packet itself: the part of a packet its checksums are about. */
  function EncodeL3(ip: Ip, l4: Transport): seq<byte>
    requires ValidIp(ip) && ValidL4(l4)
  {
    EncodeIp(ip, Proto(l4)) + EncodeL4(l4)
  }

  function InnerLinkLen(i: Inner): nat {
    if i.InnerFrame? then LinkLen(i.link) else 0
  }

  function EncodeInner(i: Inner): seq<byte>
    requires ValidInner(i)
  {
    (if i.InnerFrame? then EncodeLink(i.link, IpType(i.ip)) else []) + EncodeL3(i.ip, i.l4)
  }

  function OuterProto(t: Tunnel): byte {
    match t
    case VxlanHeader(_, _, _, _) => IPPROTO_UDP
    case GpeHeader(_, _, _, _, _) => IPPROTO_UDP
    case GreHeader(_, _, _, _, _, _) => IPPROTO_GRE
    case IpIpHeader => IPPROTO_IPIP
  }

  /** Next-protocol field of VXLAN-GPE; older senders leave it 0 for IPv4. */
  function GpeProto(i: Inner, implicitIpv4: bool): byte {
    if i.InnerFrame? then 3 else if i.ip.V6? then 2 else if implicitIpv4 then 0 else 1
  }

  function GreProto(i: Inner): nat {
    if i.InnerFrame? then ETHER_TYPE_TEB else IpType(i.ip)
  }

  function EncodeTunnel(t: Tunnel, i: Inner, cfg: Config, tunnelType: bool): seq<byte>
    requires ValidTunnel(t, i, cfg, tunnelType)
  {
    match t
    case VxlanHeader(sport, dport, rest, vx) => sport + Word(dport) + rest + vx
    case GpeHeader(sport, rest, flags, implicitIpv4, vni) =>
      sport + Word(cfg.vxlanGpePort) + rest + flags + [GpeProto(i, implicitIpv4)] + vni
    case GreHeader(low, second, csum, key, seqNo, ext) =>
      [(0x80 * Flag(csum) + 0x20 * Flag(key) + 0x10 * Flag(seqNo) + low) as byte, second]
      + Word(GreProto(i)) + ext
    case IpIpHeader => []
  }

  function Encode(p: Packet, cfg: Config, tunnelType: bool): seq<byte>
    requires ValidPacket(p, cfg, tunnelType)
  {
    match p
    case Plain(link, ip, l4) => EncodeLink(link, IpType(ip)) + EncodeL3(ip, l4)
    case Tunnelled(link, ip, t, i) =>
      EncodeLink(link, IpType(ip))
      + (EncodeIp(ip, OuterProto(t)) + (EncodeTunnel(t, i, cfg, tunnelType) + EncodeInner(i)))
  }

  // ------------------------------------------------------- memory and layers

  /** The bytes `s` lie in memory from `at` on; what follows them is arbitrary. */
  ghost predicate LiesAt(mem: Memory, at: nat, s: seq<byte>) {
    forall k :: 0 <= k < |s| ==> mem(at + k) == s[k]
  }

  lemma LiesAtConcat(mem: Memory, at: nat, a: seq<byte>, b: seq<byte>)
    requires LiesAt(mem, at, a + b)
    ensures LiesAt(mem, at, a) && LiesAt(mem, at + |a|, b)
  {
    forall k | 0 <= k < |a|
      ensures mem(at + k) == a[k]
    {
      assert (a + b)[k] == a[k];
    }
    forall k | 0 <= k < |b|
      ensures mem(at + |a| + k) == b[k]
    {
      assert (a + b)[|a| + k] == b[k];
      assert mem(at + (|a| + k)) == (a + b)[|a| + k];
    }
  }

  lemma WordLies(mem: Memory, at: nat, x: nat)
    requires x < 0x1_0000 && LiesAt(mem, at, Word(x))
    ensures Be16(mem, at) == x
  {
    assert mem(at + 0) == Word(x)[0] && mem(at + 1) == Word(x)[1];
  }

  lemma LinkParses(mem: Memory, at: nat, l: Link, ethertype: nat, info: Info)
    requires ValidLink(l) && ethertype < 0x1_0000 && ethertype != ETHER_TYPE_VLAN
    requires LiesAt(mem, at, EncodeLink(l, ethertype))
    ensures |EncodeLink(l, ethertype)| == LinkLen(l)
    ensures Ethernet(info, mem, at) ==
              Layer3(info.(l2Len := LinkLen(l), ethertype := ethertype), mem, at + LinkLen(l), ethertype)
  {
    if l.vlan.Tagged? {
      var head, tail := l.addresses + (Word(ETHER_TYPE_VLAN) + l.vlan.tci), Word(ethertype);
      LiesAtConcat(mem, at, head, tail);
      LiesAtConcat(mem, at, l.addresses, Word(ETHER_TYPE_VLAN) + l.vlan.tci);
      LiesAtConcat(mem, at + 12, Word(ETHER_TYPE_VLAN), l.vlan.tci);
      WordLies(mem, at + 12, ETHER_TYPE_VLAN);
      WordLies(mem, at + 16, ethertype);
    } else {
      assert l.addresses + [] == l.addresses;
      LiesAtConcat(mem, at, l.addresses, Word(ethertype));
      WordLies(mem, at + 12, ethertype);
    }
  }

  /** Parsing an IP header that carries `proto`, whatever follows. */
  lemma IpParses(mem: Memory, at: nat, ip: Ip, proto: byte, info: Info)
    requires ValidIp(ip) && LiesAt(mem, at, EncodeIp(ip, proto))
    ensures Layer3(info, mem, at, IpType(ip)) ==
              info.(l3Len := IpLen(ip), l4Proto := proto, l4Len := L4Len(mem, proto, at + IpLen(ip)))
    ensures mem(at) / 16 == if ip.V4? then 4 else 6
  {
    var enc := EncodeIp(ip, proto);
    assert mem(at + 0) == enc[0];
    if ip.V4? {
      assert mem(at + 9) == enc[9] == proto;
    } else {
      assert mem(at + 6) == enc[6] == proto;
    }
  }

  /** Parsing a whole L3 packet. */
  lemma L3Parses(mem: Memory, at: nat, ip: Ip, l4: Transport, info: Info)
    requires ValidIp(ip) && ValidL4(l4) && LiesAt(mem, at, EncodeL3(ip, l4))
    ensures Layer3(info, mem, at, IpType(ip)) ==
              info.(l3Len := IpLen(ip), l4Proto := Proto(l4), l4Len := HeaderLen(l4))
    ensures mem(at) / 16 == if ip.V4? then 4 else 6
  {
    LiesAtConcat(mem, at, EncodeIp(ip, Proto(l4)), EncodeL4(l4));
    IpParses(mem, at, ip, Proto(l4), info);
    if l4.Tcp? {
      assert EncodeL4(l4)[12] == (16 * l4.dataOff + l4.flags4) as byte;
      assert mem(at + IpLen(ip) + 12) == EncodeL4(l4)[12];
    }
  }

  // -------------------------------------------------------------- round trip

  /** The record after entering a tunnel of `hlen` header bytes around `i`. */
  function Entered(info: Info, i: Inner, hlen: nat): Info {
    Outer(info).(l2Len := InnerLinkLen(i) + hlen, ethertype := IpType(i.ip),
                 l3Len := IpLen(i.ip), l4Proto := Proto(i.l4), l4Len := HeaderLen(i.l4))
  }

  lemma InnerParses(mem: Memory, at: nat, i: Inner, info: Info, hlen: nat)
    requires ValidInner(i) && LiesAt(mem, at, EncodeInner(i))
    ensures i.InnerFrame? ==> TunnelledEthernet(info, mem, at, hlen) == Entered(info, i, hlen)
    ensures i.InnerIp? ==> TunnelledIp(info, mem, at, IpType(i.ip), hlen) == Entered(info, i, hlen)
    ensures i.InnerIp? ==> mem(at) / 16 == if i.ip.V4? then 4 else 6
  {
    hide Layer3, Ethernet, EncodeL3, L4Len;
    if i.InnerFrame? {
      var link := EncodeLink(i.link, IpType(i.ip));
      LiesAtConcat(mem, at, link, EncodeL3(i.ip, i.l4));
      LinkParses(mem, at, i.link, IpType(i.ip), Outer(info));
      L3Parses(mem, at + |link|, i.ip, i.l4, Outer(info).(l2Len := LinkLen(i.link), ethertype := IpType(i.ip)));
    } else {
      assert [] + EncodeL3(i.ip, i.l4) == EncodeL3(i.ip, i.l4);
      L3Parses(mem, at, i.ip, i.l4, Outer(info));
    }
  }

  lemma VxlanParses(mem: Memory, at: nat, t: Tunnel, i: Inner, cfg: Config, tunnelType: bool, info: Info)
    requires t.VxlanHeader? && ValidInner(i) && ValidTunnel(t, i, cfg, tunnelType) && !info.isTunnel
    requires LiesAt(mem, at, EncodeTunnel(t, i, cfg, tunnelType) + EncodeInner(i))
    ensures VxlanGpe(info, mem, at, cfg.vxlanGpePort) == info
    ensures Vxlan(info, mem, at, tunnelType) == Entered(info, i, 16)
    ensures |EncodeTunnel(t, i, cfg, tunnelType)| == 16
  {
    hide TunnelledEthernet, TunnelledIp, Entered, EncodeInner;
    var h := EncodeTunnel(t, i, cfg, tunnelType);
    LiesAtConcat(mem, at, h, EncodeInner(i));
    UdpPortLies(mem, at, t.sport, t.dport, t.rest + t.vx);
    assert h == t.sport + Word(t.dport) + (t.rest + t.vx);
    InnerParses(mem, at + 16, i, info, 16);
  }

  lemma UdpPortLies(mem: Memory, at: nat, sport: seq<byte>, dport: nat, rest: seq<byte>)
    requires |sport| == 2 && dport < 0x1_0000
    ensures LiesAt(mem, at, sport + Word(dport) + rest) ==> Be16(mem, at + 2) == dport
  {
    if LiesAt(mem, at, sport + Word(dport) + rest) {
      LiesAtConcat(mem, at, sport + Word(dport), rest);
      LiesAtConcat(mem, at, sport, Word(dport));
      WordLies(mem, at + 2, dport);
    }
  }

  lemma GpeParses(mem: Memory, at: nat, t: Tunnel, i: Inner, cfg: Config, tunnelType: bool, info: Info)
    requires t.GpeHeader? && ValidInner(i) && ValidTunnel(t, i, cfg, tunnelType)
    requires LiesAt(mem, at, EncodeTunnel(t, i, cfg, tunnelType) + EncodeInner(i))
    ensures VxlanGpe(info, mem, at, cfg.vxlanGpePort) == Entered(info, i, 16)
    ensures |EncodeTunnel(t, i, cfg, tunnelType)| == 16
  {
    hide TunnelledEthernet, TunnelledIp, Entered, EncodeInner;
    var h := EncodeTunnel(t, i, cfg, tunnelType);
    LiesAtConcat(mem, at, h, EncodeInner(i));
    var proto := GpeProto(i, t.implicitIpv4);
    UdpPortLies(mem, at, t.sport, cfg.vxlanGpePort, t.rest + t.flags + [proto] + t.vni);
    assert h == t.sport + Word(cfg.vxlanGpePort) + (t.rest + t.flags + [proto] + t.vni);
    assert mem(at + 11) == h[11] == proto;
    InnerParses(mem, at + 16, i, info, 16);
  }

  lemma GreParses(mem: Memory, at: nat, t: Tunnel, i: Inner, cfg: Config, tunnelType: bool, info: Info)
    requires t.GreHeader? && ValidInner(i) && ValidTunnel(t, i, cfg, tunnelType)
    requires LiesAt(mem, at, EncodeTunnel(t, i, cfg, tunnelType) + EncodeInner(i))
    ensures Gre(info, mem, at) == Entered(info, i, |EncodeTunnel(t, i, cfg, tunnelType)|)
  {
    hide TunnelledEthernet, TunnelledIp, Entered, EncodeInner;
    var h := EncodeTunnel(t, i, cfg, tunnelType);
    LiesAtConcat(mem, at, h, EncodeInner(i));
    GreHeaderLies(mem, at, t, GreProto(i));
    InnerParses(mem, at + |h|, i, info, |h|);
  }

  lemma GreHeaderLies(mem: Memory, at: nat, t: Tunnel, proto: nat)
    requires t.GreHeader? && t.low < 16 && |t.ext| == 4 * (Flag(t.csum) + Flag(t.key) + Flag(t.seqNo))
    requires proto < 0x1_0000
    requires LiesAt(mem, at,
               [(0x80 * Flag(t.csum) + 0x20 * Flag(t.key) + 0x10 * Flag(t.seqNo) + t.low) as byte, t.second]
               + Word(proto) + t.ext)
    ensures Be16(mem, at + 2) == proto && GreLen(mem, at) == 4 + |t.ext|
  {
    var first := [(0x80 * Flag(t.csum) + 0x20 * Flag(t.key) + 0x10 * Flag(t.seqNo) + t.low) as byte, t.second];
    LiesAtConcat(mem, at, first + Word(proto), t.ext);
    LiesAtConcat(mem, at, first, Word(proto));
    WordLies(mem, at + 2, proto);
    assert mem(at + 0) == first[0];
    GreBits(first[0], t.csum, t.key, t.seqNo, t.low);
  }

  lemma GreBits(b: byte, csum: bool, key: bool, seqNo: bool, low: nat)
    requires low < 16 && b as int == 0x80 * Flag(csum) + 0x20 * Flag(key) + 0x10 * Flag(seqNo) + low
    ensures Bit(b, 0x80) == Flag(csum) && Bit(b, 0x20) == Flag(key) && Bit(b, 0x10) == Flag(seqNo)
  {
  }

  lemma IpIpParses(mem: Memory, at: nat, i: Inner, info: Info)
    requires ValidInner(i) && i.InnerIp? && LiesAt(mem, at, EncodeInner(i))
    ensures EncapIp(info, mem, at) == Entered(info, i, 0).(outerL4Proto := info.outerL4Proto)
  {
    hide TunnelledIp, EncodeInner, Entered;
    InnerParses(mem, at, i, info, 0);
  }

  /** Length of the tunnel header as encoded. */
  function TunnelLen(t: Tunnel): nat {
    match t
    case VxlanHeader(_, _, _, _) => 16
    case GpeHeader(_, _, _, _, _) => 16
    case GreHeader(_, _, _, _, _, ext) => 4 + |ext|
    case IpIpHeader => 0
  }

  /** What the dissector must find out about a packet, on top of a record `stale` left
      by an earlier one. */
  function Expected(p: Packet, stale: Info): Info {
    var outer := stale.(isTunnel := false, ethertype := IpType(p.ip), l2Len := LinkLen(p.link), l3Len := IpLen(p.ip));
    match p
    case Plain(_, _, l4) => outer.(l4Proto := Proto(l4), l4Len := HeaderLen(l4))
    case Tunnelled(_, _, t, i) =>
      var r := Entered(outer.(l4Proto := OuterProto(t)), i, TunnelLen(t));
      if t.IpIpHeader? then r.(outerL4Proto := stale.outerL4Proto) else r
  }

  /** The L3 packet that the checksums of `p` are about. */
  function InnermostL3(p: Packet, cfg: Config, tunnelType: bool): seq<byte>
    requires ValidPacket(p, cfg, tunnelType)
  {
    match p
    case Plain(_, ip, l4) => EncodeL3(ip, l4)
    case Tunnelled(_, _, _, i) => EncodeL3(i.ip, i.l4)
  }

  lemma TunnelledParses(p: Packet, cfg: Config, tunnelType: bool, mem: Memory, stale: Info)
    requires p.Tunnelled? && ValidPacket(p, cfg, tunnelType) && cfg.parseTunnel
    requires LiesAt(mem, 0, Encode(p, cfg, tunnelType))
    ensures Dissect(stale, mem, cfg, tunnelType) == Expected(p, stale)
  {
    hide Layer3, Ethernet, VxlanGpe, Vxlan, Gre, EncapIp, L4Len, EncodeIp, EncodeTunnel, EncodeInner, EncodeLink;
    var t, i := p.tunnel, p.inner;
    var link, ip := EncodeLink(p.link, IpType(p.ip)), EncodeIp(p.ip, OuterProto(t));
    var tail := EncodeTunnel(t, i, cfg, tunnelType) + EncodeInner(i);
    LiesAtConcat(mem, 0, link, ip + tail);
    var start := stale.(isTunnel := false);
    LinkParses(mem, 0, p.link, IpType(p.ip), start);
    LiesAtConcat(mem, |link|, ip, tail);
    var l2 := start.(l2Len := LinkLen(p.link), ethertype := IpType(p.ip));
    IpParses(mem, |link|, p.ip, OuterProto(t), l2);
    var eth := Ethernet(start, mem, 0);
    var at := |link| + |ip|;
    TunnelParses(mem, at, t, i, cfg, tunnelType, eth);
  }

  /** The tunnel branch taken for each outer protocol. */
  lemma TunnelParses(mem: Memory, at: nat, t: Tunnel, i: Inner, cfg: Config, tunnelType: bool, eth: Info)
    requires ValidInner(i) && ValidTunnel(t, i, cfg, tunnelType) && !eth.isTunnel
    requires LiesAt(mem, at, EncodeTunnel(t, i, cfg, tunnelType) + EncodeInner(i))
    ensures t.VxlanHeader? ==> VxlanGpe(eth, mem, at, cfg.vxlanGpePort) == eth
                               && Vxlan(eth, mem, at, tunnelType) == Entered(eth, i, TunnelLen(t))
    ensures t.GpeHeader? ==> VxlanGpe(eth, mem, at, cfg.vxlanGpePort) == Entered(eth, i, TunnelLen(t))
    ensures t.GreHeader? ==> Gre(eth, mem, at) == Entered(eth, i, TunnelLen(t))
    ensures t.IpIpHeader? ==> EncapIp(eth, mem, at) == Entered(eth, i, 0).(outerL4Proto := eth.outerL4Proto)
  {
    hide VxlanGpe, Vxlan, Gre, EncapIp, EncodeInner, Entered;
    match t
    case VxlanHeader(_, _, _, _) => VxlanParses(mem, at, t, i, cfg, tunnelType, eth);
    case GpeHeader(_, _, _, _, _) => GpeParses(mem, at, t, i, cfg, tunnelType, eth);
    case GreHeader(_, _, _, _, _, _) => GreParses(mem, at, t, i, cfg, tunnelType, eth);
    case IpIpHeader =>
      assert [] + EncodeInner(i) == EncodeInner(i);
      IpIpParses(mem, at, i, eth);
  }

  lemma PlainParses(p: Packet, cfg: Config, tunnelType: bool, mem: Memory, stale: Info)
    requires p.Plain? && ValidPacket(p, cfg, tunnelType)
    requires LiesAt(mem, 0, Encode(p, cfg, tunnelType))
    ensures Dissect(stale, mem, cfg, tunnelType) == Expected(p, stale)
  {
    hide Layer3, Ethernet, Gre, EncapIp, L4Len, EncodeLink;
    var link := EncodeLink(p.link, IpType(p.ip));
    LiesAtConcat(mem, 0, link, EncodeL3(p.ip, p.l4));
    var start := stale.(isTunnel := false);
    LinkParses(mem, 0, p.link, IpType(p.ip), start);
    L3Parses(mem, |link|, p.ip, p.l4, start.(l2Len := LinkLen(p.link), ethertype := IpType(p.ip)));
    if p.l4.Udp? {
      LiesAtConcat(mem, |link|, EncodeIp(p.ip, Proto(p.l4)), EncodeL4(p.l4));
      UdpPortLies(mem, |link| + IpLen(p.ip), p.l4.sport, p.l4.dport, p.l4.rest);
    }
  }

  /** The dissector inverts the encoder, whatever bytes follow the packet and whatever
      an earlier packet left in the record: all EtherTypes, protocols and lengths are
      those the packet was built from, and the L3 offset is where the innermost IP
      packet really starts. */
  lemma DissectInvertsEncode(p: Packet, cfg: Config, tunnelType: bool, mem: Memory, stale: Info)
    requires ValidPacket(p, cfg, tunnelType) && cfg.parseTunnel
    requires LiesAt(mem, 0, Encode(p, cfg, tunnelType))
    ensures Dissect(stale, mem, cfg, tunnelType) == Expected(p, stale)
    ensures var at := L3Offset(Expected(p, stale));
            at <= |Encode(p, cfg, tunnelType)| && Encode(p, cfg, tunnelType)[at..] == InnermostL3(p, cfg, tunnelType)
  {
    if p.Plain? {
      PlainParses(p, cfg, tunnelType, mem, stale);
    } else {
      TunnelledParses(p, cfg, tunnelType, mem, stale);
    }
    InnermostOffset(p, cfg, tunnelType, stale);
  }

  lemma InnermostOffset(p: Packet, cfg: Config, tunnelType: bool, stale: Info)
    requires ValidPacket(p, cfg, tunnelType)
    ensures var at := L3Offset(Expected(p, stale));
            at <= |Encode(p, cfg, tunnelType)| && Encode(p, cfg, tunnelType)[at..] == InnermostL3(p, cfg, tunnelType)
  {
    hide EncodeL3, EncodeIp, EncodeLink, EncodeTunnel, Word, Expected, L3Offset, ValidTunnel, IpLen, LinkLen, TunnelLen;
    ExpectedOffset(p, stale);
    LinkSize(p.link, IpType(p.ip));
    var link := EncodeLink(p.link, IpType(p.ip));
    if p.Plain? {
      DropNested(link, [], [], [], EncodeL3(p.ip, p.l4));
    } else {
      var t, i := p.tunnel, p.inner;
      TunnelSize(t, i, cfg, tunnelType);
      if i.InnerFrame? {
        LinkSize(i.link, IpType(i.ip));
      }
      var frame := if i.InnerFrame? then EncodeLink(i.link, IpType(i.ip)) else [];
      DropNested(link, EncodeIp(p.ip, OuterProto(t)), EncodeTunnel(t, i, cfg, tunnelType), frame, EncodeL3(i.ip, i.l4));
    }
  }

  lemma ExpectedOffset(p: Packet, stale: Info)
    ensures L3Offset(Expected(p, stale)) ==
              LinkLen(p.link) + if p.Plain? then 0 else IpLen(p.ip) + TunnelLen(p.tunnel) + InnerLinkLen(p.inner)
  {
  }

  lemma DropNested(a: seq<byte>, b: seq<byte>, c: seq<byte>, d: seq<byte>, e: seq<byte>)
    ensures (a + (b + (c + (d + e))))[|a| + |b| + |c| + |d|..] == e
    ensures b == [] && c == [] && d == [] ==> (a + e)[|a|..] == e
  {
  }

  lemma LinkSize(l: Link, ethertype: nat)
    requires ValidLink(l) && ethertype < 0x1_0000
    ensures |EncodeLink(l, ethertype)| == LinkLen(l)
  {
  }

  lemma TunnelSize(t: Tunnel, i: Inner, cfg: Config, tunnelType: bool)
    requires ValidTunnel(t, i, cfg, tunnelType)
    ensures |EncodeTunnel(t, i, cfg, tunnelType)| == TunnelLen(t)
  {
  }

  // ------------------------------------------------- what is not a tunnel

  /** With tunnel parsing off, a tunnelled packet is dissected up to its outer L4 protocol and no
      further: nothing of the tunnel or of the packet inside it is recorded. */
  lemma TunnelsLeftAlone(p: Packet, cfg: Config, tunnelType: bool, mem: Memory, stale: Info)
    requires p.Tunnelled? && ValidPacket(p, cfg, tunnelType) && !cfg.parseTunnel
    requires LiesAt(mem, 0, Encode(p, cfg, tunnelType))
    ensures var r := Dissect(stale, mem, cfg, tunnelType);
            && !r.isTunnel && L3Offset(r) == LinkLen(p.link)
            && r == stale.(isTunnel := false, l2Len := LinkLen(p.link), ethertype := IpType(p.ip),
                           l3Len := IpLen(p.ip), l4Proto := OuterProto(p.tunnel),
                           l4Len := if OuterProto(p.tunnel) == IPPROTO_UDP then 8 else 0)
  {
    hide Layer3, Ethernet, EncodeIp, EncodeTunnel, EncodeInner, EncodeLink;
    var t, i := p.tunnel, p.inner;
    var link, ip := EncodeLink(p.link, IpType(p.ip)), EncodeIp(p.ip, OuterProto(t));
    var tail := EncodeTunnel(t, i, cfg, tunnelType) + EncodeInner(i);
    LiesAtConcat(mem, 0, link, ip + tail);
    var start := stale.(isTunnel := false);
    LinkParses(mem, 0, p.link, IpType(p.ip), start);
    LiesAtConcat(mem, |link|, ip, tail);
    IpParses(mem, |link|, p.ip, OuterProto(t), start.(l2Len := LinkLen(p.link), ethertype := IpType(p.ip)));
  }

  /** A frame that carries no IP, tagged or not: no layer above the link is recorded, whatever
      an earlier packet left and whatever the configuration. */
  lemma OtherFrameParses(l: Link, ethertype: nat, cfg: Config, tunnelType: bool, mem: Memory, stale: Info)
    requires ValidLink(l) && ethertype < 0x1_0000
    requires ethertype != ETHER_TYPE_VLAN && ethertype != ETHER_TYPE_IPV4 && ethertype != ETHER_TYPE_IPV6
    requires LiesAt(mem, 0, EncodeLink(l, ethertype))
    ensures Dissect(stale, mem, cfg, tunnelType) ==
              stale.(isTunnel := false, l2Len := LinkLen(l), ethertype := ethertype,
                     l3Len := 0, l4Proto := 0, l4Len := 0)
  {
    hide Ethernet, EncodeLink, VxlanGpe, Vxlan, Gre, EncapIp;
    LinkParses(mem, 0, l, ethertype, stale.(isTunnel := false));
  }

  /** The same for such a frame inside a tunnel. */
  lemma InnerOtherFrame(l: Link, ethertype: nat, mem: Memory, at: nat, info: Info, hlen: nat)
    requires ValidLink(l) && ethertype < 0x1_0000
    requires ethertype != ETHER_TYPE_VLAN && ethertype != ETHER_TYPE_IPV4 && ethertype != ETHER_TYPE_IPV6
    requires LiesAt(mem, at, EncodeLink(l, ethertype))
    ensures TunnelledEthernet(info, mem, at, hlen) ==
              Outer(info).(l2Len := LinkLen(l) + hlen, ethertype := ethertype, l3Len := 0, l4Proto := 0, l4Len := 0)
  {
    hide Ethernet, EncodeLink;
    LinkParses(mem, at, l, ethertype, Outer(info));
  }

  /** A UDP packet is taken for a tunnel, if and only if tunnel parsing is on and it goes to the
      VXLAN-GPE port with a known next protocol, goes to the VXLAN port, or the driver has
      marked it as a tunnel. */
  lemma UdpTunnelExactly(l: Link, ip: Ip, udp: Transport, cfg: Config, tunnelType: bool, mem: Memory, stale: Info)
    requires ValidLink(l) && ValidIp(ip) && udp.Udp? && ValidL4(udp)
    requires LiesAt(mem, 0, EncodeLink(l, IpType(ip)) + EncodeL3(ip, udp))
    ensures Dissect(stale, mem, cfg, tunnelType).isTunnel <==>
              cfg.parseTunnel &&
              ((udp.dport == cfg.vxlanGpePort && mem(LinkLen(l) + IpLen(ip) + 11) <= 3) ||
               udp.dport == VXLAN_PORT || tunnelType)
  {
    hide Layer3, Ethernet, Gre, EncapIp, L4Len, EncodeLink;
    var link := EncodeLink(l, IpType(ip));
    LiesAtConcat(mem, 0, link, EncodeL3(ip, udp));
    var start := stale.(isTunnel := false);
    LinkParses(mem, 0, l, IpType(ip), start);
    L3Parses(mem, |link|, ip, udp, start.(l2Len := LinkLen(l), ethertype := IpType(ip)));
    LiesAtConcat(mem, |link|, EncodeIp(ip, Proto(udp)), EncodeL4(udp));
    UdpPortLies(mem, |link| + IpLen(ip), udp.sport, udp.dport, udp.rest);
    TunnelFlags(Ethernet(start, mem, 0), mem, |link| + IpLen(ip) + 16, ETHER_TYPE_IPV4, 16);
    TunnelFlags(Ethernet(start, mem, 0), mem, |link| + IpLen(ip) + 16, ETHER_TYPE_IPV6, 16);
  }

  /** Entering a tunnel is recorded. */
  lemma TunnelFlags(info: Info, mem: Memory, at: nat, ethertype: nat, hlen: nat)
    ensures TunnelledEthernet(info, mem, at, hlen).isTunnel && TunnelledIp(info, mem, at, ethertype, hlen).isTunnel
  {
  }

  /** A packet with any other protocol is taken for a tunnel, if and only if tunnel parsing is on
      and it is GRE around IP or Ethernet, or IP in IP with a known version. */
  lemma OtherTunnelExactly(l: Link, ip: Ip, proto: byte, cfg: Config, tunnelType: bool, mem: Memory, stale: Info)
    requires ValidLink(l) && ValidIp(ip) && proto != IPPROTO_UDP
    requires LiesAt(mem, 0, EncodeLink(l, IpType(ip)) + EncodeIp(ip, proto))
    ensures var at := LinkLen(l) + IpLen(ip);
            Dissect(stale, mem, cfg, tunnelType).isTunnel <==>
              cfg.parseTunnel &&
              ((proto == IPPROTO_GRE && Be16(mem, at + 2) in {ETHER_TYPE_IPV4, ETHER_TYPE_IPV6, ETHER_TYPE_TEB}) ||
               (proto == IPPROTO_IPIP && mem(at) / 16 in {4, 6}))
  {
    hide Layer3, Ethernet, Vxlan, VxlanGpe, L4Len, EncodeLink, EncodeIp, GreLen, TunnelledIp, TunnelledEthernet;
    var link := EncodeLink(l, IpType(ip));
    LiesAtConcat(mem, 0, link, EncodeIp(ip, proto));
    var start := stale.(isTunnel := false);
    LinkParses(mem, 0, l, IpType(ip), start);
    IpParses(mem, |link|, ip, proto, start.(l2Len := LinkLen(l), ethertype := IpType(ip)));
    var eth, at := Ethernet(start, mem, 0), |link| + IpLen(ip);
    var len := GreLen(mem, at);
    TunnelFlags(eth, mem, at + len, Be16(mem, at + 2), len);
    TunnelFlags(eth, mem, at, ETHER_TYPE_IPV4, 0);
    TunnelFlags(eth, mem, at, ETHER_TYPE_IPV6, 0);
  }

  // ------------------------------------------------------------- IP in IP

  /** A link header, an outer IP header carrying `proto`, and an IP packet inside it. */
  function EncodeIpInIp(l: Link, ip: Ip, proto: byte, i: Inner): seq<byte>
    requires ValidIp(ip) && ValidInner(i)
  {
    EncodeLink(l, IpType(ip)) + (EncodeIp(ip, proto) + EncodeInner(i))
  }

  /** An IP packet inside another is recognised as a tunnel, and the offset of its own header
      found, if and only if the outer header announces it with protocol number 4; any other
      number but those of UDP and GRE leaves the outer header as the innermost one. */
  lemma IpInIpExactly(l: Link, ip: Ip, proto: byte, i: Inner, cfg: Config, tunnelType: bool, mem: Memory, stale: Info)
    requires ValidLink(l) && ValidIp(ip) && ValidInner(i) && i.InnerIp? && cfg.parseTunnel
    requires proto != IPPROTO_UDP && proto != IPPROTO_GRE
    requires LiesAt(mem, 0, EncodeIpInIp(l, ip, proto, i))
    ensures var r := Dissect(stale, mem, cfg, tunnelType);
            && (r.isTunnel <==> proto == IPPROTO_IPIP)
            && (proto == IPPROTO_IPIP ==> r == Expected(Tunnelled(l, ip, IpIpHeader, i), stale))
            && (L3Offset(r) == LinkLen(l) + IpLen(ip) <==> proto == IPPROTO_IPIP)
            && (proto != IPPROTO_IPIP ==> L3Offset(r) == LinkLen(l) && r.ethertype == IpType(ip) && r.l4Proto == proto)
  {
    hide Layer3, Ethernet, VxlanGpe, Vxlan, Gre, EncapIp, L4Len, EncodeIp, EncodeInner, EncodeLink;
    var link, outer, inner := EncodeLink(l, IpType(ip)), EncodeIp(ip, proto), EncodeInner(i);
    LiesAtConcat(mem, 0, link, outer + inner);
    var start := stale.(isTunnel := false);
    LinkParses(mem, 0, l, IpType(ip), start);
    LiesAtConcat(mem, |link|, outer, inner);
    var l2 := start.(l2Len := LinkLen(l), ethertype := IpType(ip));
    IpParses(mem, |link|, ip, proto, l2);
    IpIpParses(mem, |link| + |outer|, i, Ethernet(start, mem, 0));
  }

  /** The number assigned to IPv6 inside IP. */
  const IPPROTO_IPV6: byte := 41

  /** So the documented IPv6-in-IP packet, as standard senders build it, is not recognised. */
  lemma Ipv6InIpMissed(l: Link, ip: Ip, i: Inner, cfg: Config, tunnelType: bool, mem: Memory, stale: Info)
    requires ValidLink(l) && ValidIp(ip) && ValidInner(i) && i.InnerIp? && i.ip.V6? && cfg.parseTunnel
    requires LiesAt(mem, 0, EncodeIpInIp(l, ip, IPPROTO_IPV6, i))
    ensures var r := Dissect(stale, mem, cfg, tunnelType); !r.isTunnel && L3Offset(r) != LinkLen(l) + IpLen(ip)
  {
    IpInIpExactly(l, ip, IPPROTO_IPV6, i, cfg, tunnelType, mem, stale);
  }

  /** Such a packet: an untagged frame, IPv4 without options around IPv6 without payload. */
  const SAMPLE_LINK: Link := Link(seq(12, _ => 0), Untagged)
  const SAMPLE_OUTER: Ip := V4(5, seq(8, _ => 0), seq(10, _ => 0))
  const SAMPLE_INNER: Inner := InnerIp(V6(0, seq(5, _ => 0), seq(33, _ => 0)), OtherL4(59, []))

  lemma SampleMissed(mem: Memory, cfg: Config, tunnelType: bool, stale: Info)
    requires cfg.parseTunnel && LiesAt(mem, 0, EncodeIpInIp(SAMPLE_LINK, SAMPLE_OUTER, IPPROTO_IPV6, SAMPLE_INNER))
    ensures !Dissect(stale, mem, cfg, tunnelType).isTunnel
  {
    hide EncodeIpInIp, Dissect;
    Ipv6InIpMissed(SAMPLE_LINK, SAMPLE_OUTER, SAMPLE_INNER, cfg, tunnelType, mem, stale);
  }
}
