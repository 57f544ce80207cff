/** The packet dissector of the checksum forwarding engine (app/test-pmd/csumonly.c):
    Ethernet with an optional VLAN tag, IPv4/IPv6, and the VXLAN, VXLAN-GPE, GRE and
    IP-in-IP tunnels.

    The parsers read memory from the packet's first byte on and do not look at its
    length, so the packet is modelled as a total map from offsets to bytes. */
module Dissector {
  import opened Basics
  type Memory = nat -> byte

  const ETHER_TYPE_IPV4: nat := 0x0800
  const ETHER_TYPE_IPV6: nat := 0x86DD
  const ETHER_TYPE_VLAN: nat := 0x8100
  const ETHER_TYPE_TEB: nat := 0x6558
  const IPPROTO_IPIP: byte := 4
  const IPPROTO_TCP: byte := 6
  const IPPROTO_UDP: byte := 17
  const IPPROTO_GRE: byte := 47
  const VXLAN_PORT: nat := 4789

  /** `struct testpmd_offload_info`, the fields the dissector sets. */
  datatype Info = Info(ethertype: nat, l2Len: nat, l3Len: nat, l4Len: nat, l4Proto: nat,
                       isTunnel: bool, outerEthertype: nat, outerL2Len: nat, outerL3Len: nat, outerL4Proto: nat)

  datatype Config = Config(parseTunnel: bool, vxlanGpePort: nat)

  function Be16(mem: Memory, at: nat): nat {
    mem(at) as int * 0x100 + mem(at + 1) as int
  }

  // ------------------------------------------------- what the parsers compute

  /** `l4_len` for the transport header at `at`. */
  function L4Len(mem: Memory, proto: nat, at: nat): nat {
    if proto == IPPROTO_TCP then mem(at + 12) / 16 * 4
    else if proto == IPPROTO_UDP then 8
    else 0
  }

  function WithL3(info: Info, mem: Memory, at: nat, l3Len: nat, proto: nat): Info {
    info.(l3Len := l3Len, l4Proto := proto, l4Len := L4Len(mem, proto, at + l3Len))
  }

  function Ipv4(info: Info, mem: Memory, at: nat): Info {
    WithL3(info, mem, at, mem(at) % 16 * 4, mem(at + 9))
  }

  function Ipv6(info: Info, mem: Memory, at: nat): Info {
    WithL3(info, mem, at, 40, mem(at + 6))
  }

  /** L3 parsing by EtherType. */
  function Layer3(info: Info, mem: Memory, at: nat, ethertype: nat): Info {
    if ethertype == ETHER_TYPE_IPV4 then Ipv4(info, mem, at)
    else if ethertype == ETHER_TYPE_IPV6 then Ipv6(info, mem, at)
    else info.(l3Len := 0, l4Len := 0, l4Proto := 0)
  }

  function Ethernet(info: Info, mem: Memory, at: nat): Info {
    var tagged := Be16(mem, at + 12) == ETHER_TYPE_VLAN;
    var l2Len := if tagged then 18 else 14;
    var ethertype := if tagged then Be16(mem, at + 16) else Be16(mem, at + 12);
    Layer3(info.(l2Len := l2Len, ethertype := ethertype), mem, at + l2Len, ethertype)
  }

  /** The headers seen so far become the outer ones. */
  function Outer(info: Info): Info {
    info.(isTunnel := true, outerEthertype := info.ethertype, outerL2Len := info.l2Len,
          outerL3Len := info.l3Len, outerL4Proto := info.l4Proto)
  }

  /** An IP packet directly inside a tunnel header of `hlen` bytes ending at `at`. */
  function TunnelledIp(info: Info, mem: Memory, at: nat, ethertype: nat, hlen: nat): Info {
    Layer3(Outer(info), mem, at, ethertype).(ethertype := ethertype, l2Len := hlen)
  }

  /** An Ethernet frame inside a tunnel header of `hlen` bytes ending at `at`. */
  function TunnelledEthernet(info: Info, mem: Memory, at: nat, hlen: nat): Info {
    var inner := Ethernet(Outer(info), mem, at);
    inner.(l2Len := inner.l2Len + hlen)
  }

  function Vxlan(info: Info, mem: Memory, udp: nat, tunnelType: bool): Info {
    if Be16(mem, udp + 2) != VXLAN_PORT && !tunnelType then info
    else TunnelledEthernet(info, mem, udp + 16, 16)
  }

  function VxlanGpe(info: Info, mem: Memory, udp: nat, port: nat): Info {
    var proto := mem(udp + 11);
    if Be16(mem, udp + 2) != port then info
    else if proto == 0 || proto == 1 then TunnelledIp(info, mem, udp + 16, ETHER_TYPE_IPV4, 16)
    else if proto == 2 then TunnelledIp(info, mem, udp + 16, ETHER_TYPE_IPV6, 16)
    else if proto == 3 then TunnelledEthernet(info, mem, udp + 16, 16)
    else info
  }

  function Bit(b: byte, weight: nat): nat
    requires weight > 0
  {
    b / weight % 2
  }

  /** Checksum, key and sequence number each extend the GRE header by 4 bytes. */
  function GreLen(mem: Memory, at: nat): nat {
    4 + 4 * Bit(mem(at), 0x80) + 4 * Bit(mem(at), 0x20) + 4 * Bit(mem(at), 0x10)
  }

  function Gre(info: Info, mem: Memory, at: nat): Info {
    var len, proto := GreLen(mem, at), Be16(mem, at + 2);
    if proto == ETHER_TYPE_IPV4 || proto == ETHER_TYPE_IPV6 then TunnelledIp(info, mem, at + len, proto, len)
    else if proto == ETHER_TYPE_TEB then TunnelledEthernet(info, mem, at + len, len)
    else info
  }

  /** IP in IP: the version nibble decides, and the outer L4 protocol is not recorded. */
  function EncapIp(info: Info, mem: Memory, at: nat): Info {
    var version := mem(at) / 16;
    if version != 4 && version != 6 then info
    else
      TunnelledIp(info, mem, at, if version == 4 then ETHER_TYPE_IPV4 else ETHER_TYPE_IPV6, 0)
        .(outerL4Proto := info.outerL4Proto)
  }

  /** The whole dissection, starting from whatever the previous packet left behind. */
  function Dissect(info: Info, mem: Memory, cfg: Config, tunnelType: bool): Info {
    var eth := Ethernet(info.(isTunnel := false), mem, 0);
    var l4 := eth.l2Len + eth.l3Len;
    if !cfg.parseTunnel then eth
    else if eth.l4Proto == IPPROTO_UDP then
      var gpe := VxlanGpe(eth, mem, l4, cfg.vxlanGpePort);
      if gpe.isTunnel then gpe else Vxlan(gpe, mem, l4, tunnelType)
    else if eth.l4Proto == IPPROTO_GRE then Gre(eth, mem, l4)
    else if eth.l4Proto == IPPROTO_IPIP then EncapIp(eth, mem, l4)
    else eth
  }

  /** Offset of the (inner) L3 header the checksums are computed for. */
  function L3Offset(info: Info): nat {
    if info.isTunnel then info.outerL2Len + info.outerL3Len + info.l2Len else info.l2Len
  }

  lemma EthernetKeepsTunnel(info: Info, mem: Memory, at: nat)
    ensures Ethernet(info, mem, at).isTunnel == info.isTunnel
  {
  }

  /** Each tunnel parser either leaves the record alone or makes the link-layer header
      seen so far the outer one. */
  lemma OuterL2(info: Info, mem: Memory, at: nat, port: nat, tunnelType: bool)
    requires !info.isTunnel
    ensures var r := VxlanGpe(info, mem, at, port); r == info || (r.isTunnel && r.outerL2Len == info.l2Len)
    ensures var r := Vxlan(info, mem, at, tunnelType); r == info || (r.isTunnel && r.outerL2Len == info.l2Len)
    ensures var r := Gre(info, mem, at); r == info || (r.isTunnel && r.outerL2Len == info.l2Len)
    ensures var r := EncapIp(info, mem, at); r == info || (r.isTunnel && r.outerL2Len == info.l2Len)
  {
    hide GreLen, L4Len;
  }

  // ----------------------------------------------------------- the parsers

  class OffloadInfo {
    var v: Info

    constructor (v: Info)
      ensures this.v == v
    {
      this.v := v;
    }

    method ParseIpv4(mem: Memory, at: nat)
      modifies this
      ensures v == Ipv4(old(v), mem, at)
    {
      v := v.(l3Len := mem(at) % 16 * 4);
      v := v.(l4Proto := mem(at + 9));
      if v.l4Proto == IPPROTO_TCP {
        v := v.(l4Len := mem(at + v.l3Len + 12) / 16 * 4);
      } else if v.l4Proto == IPPROTO_UDP {
        v := v.(l4Len := 8);
      } else {
        v := v.(l4Len := 0);
      }
    }

    method ParseIpv6(mem: Memory, at: nat)
      modifies this
      ensures v == Ipv6(old(v), mem, at)
    {
      v := v.(l3Len := 40);
      v := v.(l4Proto := mem(at + 6));
      if v.l4Proto == IPPROTO_TCP {
        v := v.(l4Len := mem(at + v.l3Len + 12) / 16 * 4);
      } else if v.l4Proto == IPPROTO_UDP {
        v := v.(l4Len := 8);
      } else {
        v := v.(l4Len := 0);
      }
    }

    method ParseEthernet(mem: Memory, at: nat)
      modifies this
      ensures v == Ethernet(old(v), mem, at)
    {
      v := v.(l2Len := 14);
      v := v.(ethertype := Be16(mem, at + 12));
      if v.ethertype == ETHER_TYPE_VLAN {
        v := v.(l2Len := v.l2Len + 4);
        v := v.(ethertype := Be16(mem, at + 16));
      }
      if v.ethertype == ETHER_TYPE_IPV4 {
        ParseIpv4(mem, at + v.l2Len);
      } else if v.ethertype == ETHER_TYPE_IPV6 {
        ParseIpv6(mem, at + v.l2Len);
      } else {
        v := v.(l4Len := 0, l3Len := 0, l4Proto := 0);
      }
    }

    method EnterTunnel()
      modifies this
      ensures v == Outer(old(v))
    {
      v := v.(isTunnel := true);
      v := v.(outerEthertype := v.ethertype);
      v := v.(outerL2Len := v.l2Len);
      v := v.(outerL3Len := v.l3Len);
      v := v.(outerL4Proto := v.l4Proto);
    }

    method ParseVxlan(mem: Memory, udp: nat, tunnelType: bool)
      modifies this
      ensures v == Vxlan(old(v), mem, udp, tunnelType)
    {
      if Be16(mem, udp + 2) != VXLAN_PORT && !tunnelType {
        return;
      }
      EnterTunnel();
      ParseEthernet(mem, udp + 8 + 8);
      v := v.(l2Len := v.l2Len + 16);
    }

    method ParseVxlanGpe(mem: Memory, udp: nat, port: nat)
      modifies this
      ensures v == VxlanGpe(old(v), mem, udp, port)
    {
      if Be16(mem, udp + 2) != port {
        return;
      }
      var gpe := udp + 8;
      if mem(gpe + 3) == 0 || mem(gpe + 3) == 1 {
        EnterTunnel();
        ParseIpv4(mem, gpe + 8);
        v := v.(ethertype := ETHER_TYPE_IPV4);
        v := v.(l2Len := 0);
      } else if mem(gpe + 3) == 2 {
        EnterTunnel();
        v := v.(ethertype := ETHER_TYPE_IPV6);
        ParseIpv6(mem, gpe + 8);
        v := v.(l2Len := 0);
      } else if mem(gpe + 3) == 3 {
        EnterTunnel();
        ParseEthernet(mem, gpe + 8);
      } else {
        return;
      }
      v := v.(l2Len := v.l2Len + 16);
    }

    static method GreHeaderLen(mem: Memory, at: nat) returns (greLen: nat)
      ensures greLen == GreLen(mem, at)
    {
      greLen := 4;
      if Bit(mem(at), 0x20) == 1 {
        greLen := greLen + 4;
      }
      if Bit(mem(at), 0x10) == 1 {
        greLen := greLen + 4;
      }
      if Bit(mem(at), 0x80) == 1 {
        greLen := greLen + 4;
      }
    }

    method ParseGre(mem: Memory, at: nat)
      modifies this
      ensures v == Gre(old(v), mem, at)
    {
      hide GreLen, Ethernet, L4Len;
      var greLen := GreHeaderLen(mem, at);
      var proto := Be16(mem, at + 2);
      if proto == ETHER_TYPE_IPV4 {
        EnterTunnel();
        ParseIpv4(mem, at + greLen);
        v := v.(ethertype := ETHER_TYPE_IPV4);
        v := v.(l2Len := 0);
      } else if proto == ETHER_TYPE_IPV6 {
        EnterTunnel();
        v := v.(ethertype := ETHER_TYPE_IPV6);
        ParseIpv6(mem, at + greLen);
        v := v.(l2Len := 0);
      } else if proto == ETHER_TYPE_TEB {
        EnterTunnel();
        ParseEthernet(mem, at + greLen);
      } else {
        return;
      }
      v := v.(l2Len := v.l2Len + greLen);
    }

    method ParseEncapIp(mem: Memory, at: nat)
      modifies this
      ensures v == EncapIp(old(v), mem, at)
    {
      var version := mem(at) / 16;
      if version != 4 && version != 6 {
        return;
      }
      v := v.(isTunnel := true);
      v := v.(outerEthertype := v.ethertype);
      v := v.(outerL2Len := v.l2Len);
      v := v.(outerL3Len := v.l3Len);
      if version == 4 {
        ParseIpv4(mem, at);
        v := v.(ethertype := ETHER_TYPE_IPV4);
      } else {
        ParseIpv6(mem, at);
        v := v.(ethertype := ETHER_TYPE_IPV6);
      }
      v := v.(l2Len := 0);
    }

    /** The dissection step of `pkt_burst_checksum_forward`; `l3` is where the L3 header
        to checksum lies. */
    method DissectPacket(mem: Memory, cfg: Config, tunnelType: bool) returns (l3: nat)
      modifies this
      ensures v == Dissect(old(v), mem, cfg, tunnelType) && l3 == L3Offset(v)
    {
      hide Ethernet, VxlanGpe, Vxlan, Gre, EncapIp;
      v := v.(isTunnel := false);
      EthernetKeepsTunnel(v, mem, 0);
      ParseEthernet(mem, 0);
      l3 := v.l2Len;
      OuterL2(v, mem, l3 + v.l3Len, cfg.vxlanGpePort, tunnelType);
      if cfg.parseTunnel {
        if v.l4Proto == IPPROTO_UDP {
          var udp := l3 + v.l3Len;
          ParseVxlanGpe(mem, udp, cfg.vxlanGpePort);
          if !v.isTunnel {
            ParseVxlan(mem, udp, tunnelType);
          }
        } else if v.l4Proto == IPPROTO_GRE {
          ParseGre(mem, l3 + v.l3Len);
        } else if v.l4Proto == IPPROTO_IPIP {
          ParseEncapIp(mem, l3 + v.l3Len);
        }
      }
      if v.isTunnel {
        l3 := l3 + v.outerL3Len + v.l2Len;
      }
    }
  }
}
