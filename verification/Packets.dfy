/** src/net/IPList.cpp, src/net/Packet.cpp and src/net/PacketHash.cpp. */
module Packets {
  import opened Basics

  // ----- the local addresses

  /** The order in which the addresses are kept: large ones go to the front as they come. */
  function FillOrder(addrs: seq<Word32>): (ips: seq<Word32>)
    ensures |ips| == |addrs|
  {
    if addrs == [] then []
    else
      var before, ip := FillOrder(addrs[..|addrs| - 1]), addrs[|addrs| - 1];
      if ip >= 43200 then [ip] + before else before + [ip]
  }

  /** Membership as the list decides it: an empty list still answers for address 0. */
  predicate IsLocal(ips: seq<Word32>, ip: Word32) {
    ip in ips || (ips == [] && ip == 0)
  }

  function Large(addrs: seq<Word32>): seq<Word32> {
    if addrs == [] then []
    else if addrs[0] >= 43200 then [addrs[0]] + Large(addrs[1..]) else Large(addrs[1..])
  }

  function Others(addrs: seq<Word32>): seq<Word32> {
    if addrs == [] then []
    else if addrs[0] >= 43200 then Others(addrs[1..]) else [addrs[0]] + Others(addrs[1..])
  }

  function Backwards(s: seq<Word32>): seq<Word32> {
    if s == [] then [] else Backwards(s[1..]) + [s[0]]
  }

  /** The list is the large addresses, the last to come first, and then the others as they came. */
  lemma {:induction false} FillOrderIs(addrs: seq<Word32>)
    ensures FillOrder(addrs) == Backwards(Large(addrs)) + Others(addrs)
  {
    if addrs != [] {
      var init, ip := addrs[..|addrs| - 1], addrs[|addrs| - 1];
      FillOrderIs(init);
      assert addrs == init + [ip];
      OneMoreAddress(init, ip);
      BackwardsOneMore(Large(init), ip);
      hide Large, Others, Backwards;
      assert Large(init) + [] == Large(init) && Others(init) + [] == Others(init);
    }
  }

  lemma {:induction false} OneMoreAddress(addrs: seq<Word32>, ip: Word32)
    ensures Large(addrs + [ip]) == Large(addrs) + if ip >= 43200 then [ip] else []
    ensures Others(addrs + [ip]) == Others(addrs) + if ip >= 43200 then [] else [ip]
  {
    if addrs != [] {
      OneMoreAddress(addrs[1..], ip);
      assert (addrs + [ip])[1..] == addrs[1..] + [ip];
    }
  }

  lemma {:induction false} BackwardsOneMore(s: seq<Word32>, ip: Word32)
    ensures Backwards(s + [ip]) == [ip] + Backwards(s)
  {
    if s != [] {
      BackwardsOneMore(s[1..], ip);
      assert (s + [ip])[1..] == s[1..] + [ip];
    }
  }

  /** For at least one address, in any order, the answer is exact membership. */
  lemma {:induction false} LocalIsMembership(addrs: seq<Word32>, ip: Word32)
    ensures IsLocal(FillOrder(addrs), ip) <==> if addrs == [] then ip == 0 else ip in addrs
  {
    if addrs != [] {
      var before := addrs[..|addrs| - 1];
      LocalIsMembership(before, ip);
      assert addrs == before + [addrs[|addrs| - 1]];
    }
  }

  class IPList {
    const mIPs: array<Word32>
    var mSize: nat

    ghost predicate Valid()
      reads this, mIPs
    {
      mIPs.Length == 64 && mSize <= 64 && (mSize == 0 ==> mIPs[0] == 0)
    }

    /** The addresses held. */
    function Local(): seq<Word32>
      requires Valid()
      reads this, mIPs
    {
      mIPs[..mSize]
    }

    constructor ()
      ensures Valid() && mSize == 0 && fresh(mIPs)
    {
      mIPs := new Word32[64](_ => 0);
      mSize := 0;
    }

    /** The array holds 64 addresses; with a longer list the source writes past it. */
    method Init(addrs: seq<Word32>) returns (fits: bool)
      requires Valid() && mSize == 0
      modifies this, mIPs
      ensures fits <==> |addrs| <= 64
      ensures fits ==> Valid() && Local() == FillOrder(addrs)
    {
      var tmp: seq<Word32> := [];
      for i := 0 to |addrs|
        invariant tmp == FillOrder(addrs[..i])
      {
        assert addrs[..i + 1][..i] == addrs[..i];
        if addrs[i] >= 43200 {
          tmp := [addrs[i]] + tmp;
        } else {
          tmp := tmp + [addrs[i]];
        }
      }
      assert addrs[..|addrs|] == addrs;
      if |tmp| > 64 {
        return false;
      }
      for i := 0 to |tmp|
        invariant mSize == i && mIPs[..i] == tmp[..i]
        invariant i == 0 ==> mIPs[0] == 0
      {
        mIPs[i] := tmp[i];
        mSize := mSize + 1;
      }
      return true;
    }

    method Contains(ip: Word32) returns (b: bool)
      requires Valid()
      ensures b <==> IsLocal(Local(), ip)
    {
      if mIPs[0] == ip {
        return true;
      }
      var i := 1;
      while i < mSize
        invariant 1 <= i <= 64 && (mSize > 0 ==> i <= mSize)
        invariant ip !in mIPs[..i]
      {
        if mIPs[i] == ip {
          return true;
        }
        i := i + 1;
      }
      return false;
    }
  }

  // ----- packets

  const ETHERTYPE_IP := 0x0800
  const IPPROTO_ICMP := 1
  const IPPROTO_TCP := 6
  const IPPROTO_UDP := 17

  datatype Direction = UnknownDirection | Incoming | Outgoing

  datatype PacketType = UnknownType | TCP | UDP | ICMP | DNS | SSDP | NTP

  /** The header fields of a captured frame, in host order where the source converts them. */
  datatype Frame = Frame(etherType: Word16, length: Word32, seconds: int,
                         saddr: Word32, daddr: Word32, protocol: nat, sport: Word16, dport: Word16)

  datatype Packet = Packet(kind: PacketType, protocol: nat, sip: Word32, dip: Word32, sport: Word16, dport: Word16,
                           len: int, direction: Direction, timestamp: int, discard: bool)

  const FRESH_PACKET: Packet := Packet(UnknownType, 0, 0, 0, 0, 0, 0, UnknownDirection, 0, false)

  predicate IsDns(f: Frame) {
    f.sport == 53 || f.dport == 53 || (f.sport == 5353 && f.dport == 5353)
  }

  predicate IsSsdp(f: Frame) {
    f.sport == 1900 || f.dport == 1900
  }

  predicate IsNtp(f: Frame) {
    f.sport == 123 && f.dport == 123
  }

  /** A frame is kept when it is IPv4, has a local end, and is TCP, ICMP or ordinary UDP. */
  predicate Keeps(f: Frame, ips: seq<Word32>) {
    && f.etherType == ETHERTYPE_IP
    && (IsLocal(ips, f.saddr) || IsLocal(ips, f.daddr))
    && (f.protocol == IPPROTO_TCP || f.protocol == IPPROTO_ICMP
        || (f.protocol == IPPROTO_UDP && !IsDns(f) && !IsSsdp(f) && !IsNtp(f)))
  }

  function KindOf(f: Frame): PacketType {
    if f.protocol == IPPROTO_TCP then TCP
    else if f.protocol == IPPROTO_ICMP then ICMP
    else if f.protocol != IPPROTO_UDP then UnknownType
    else if IsNtp(f) then NTP
    else if IsSsdp(f) then SSDP
    else if IsDns(f) then DNS
    else UDP
  }

  function DirectionOf(f: Frame, ips: seq<Word32>): Direction {
    if IsLocal(ips, f.saddr) then Outgoing
    else if IsLocal(ips, f.daddr) then Incoming
    else UnknownDirection
  }

  /** The packet read from a frame. */
  function Classified(f: Frame, ips: seq<Word32>): Packet {
    if f.etherType != ETHERTYPE_IP then FRESH_PACKET.(discard := true)
    else
      var d := DirectionOf(f, ips);
      var ported := d != UnknownDirection && (f.protocol == IPPROTO_TCP || f.protocol == IPPROTO_UDP);
      Packet(if d == UnknownDirection then UnknownType else KindOf(f), f.protocol, f.saddr, f.daddr,
             if ported then f.sport else 0, if ported then f.dport else 0,
             Int32(f.length), d, f.seconds, !Keeps(f, ips))
  }

  /** The packet constructor, branch by branch. */
  method ParsePacket(f: Frame, iplist: IPList) returns (p: Packet)
    requires iplist.Valid()
    ensures p == Classified(f, iplist.Local())
  {
    p := FRESH_PACKET;
    if f.etherType != ETHERTYPE_IP {
      p := p.(discard := true);
      return;
    }
    p := p.(len := Int32(f.length), timestamp := f.seconds, sip := f.saddr, dip := f.daddr, protocol := f.protocol);

    var fromHere := iplist.Contains(p.sip);
    if fromHere {
      p := p.(direction := Outgoing);
    } else {
      var toHere := iplist.Contains(p.dip);
      if toHere {
        p := p.(direction := Incoming);
      } else {
        p := p.(direction := UnknownDirection, discard := true);
        return;
      }
    }

    if p.protocol == IPPROTO_TCP {
      p := p.(kind := TCP, sport := f.sport, dport := f.dport);
    } else if p.protocol == IPPROTO_UDP {
      p := p.(kind := UDP, sport := f.sport, dport := f.dport);
      if (p.sport == 53 || p.dport == 53) || (p.sport == 5353 && p.dport == 5353) {
        p := p.(kind := DNS, discard := true);
      }
      if p.sport == 1900 || p.dport == 1900 {
        p := p.(kind := SSDP, discard := true);
      }
      if p.sport == 123 && p.dport == 123 {
        p := p.(kind := NTP, discard := true);
      }
    } else if p.protocol == IPPROTO_ICMP {
      p := p.(kind := ICMP, sport := 0, dport := 0);
    } else {
      p := p.(discard := true);
      return;
    }
  }

  /** An address of this machine: one the device reports, or with none reported only 0. */
  predicate IsOurs(addrs: seq<Word32>, ip: Word32) {
    if addrs == [] then ip == 0 else ip in addrs
  }

  /** The frames that are monitored: IPv4 with an end here, and TCP, ICMP, or UDP that is neither DNS
      nor multicast DNS nor SSDP nor NTP. */
  predicate Monitored(f: Frame, addrs: seq<Word32>) {
    && f.etherType == 0x0800
    && (IsOurs(addrs, f.saddr) || IsOurs(addrs, f.daddr))
    && (f.protocol == 1 || f.protocol == 6
        || (f.protocol == 17 && {f.sport, f.dport} !! {53, 1900} && {f.sport, f.dport} !in {{5353}, {123}}))
  }

  /** The captured length, negative from 2^31 on. */
  function CapturedLength(f: Frame): int {
    if f.length < 0x8000_0000 then f.length else f.length - 0x1_0000_0000
  }

  /** What becomes of any frame, by its header fields and the addresses the device reports. */
  lemma FrameDecides(f: Frame, addrs: seq<Word32>)
    ensures var p := Classified(f, FillOrder(addrs));
            && (p.discard <==> !Monitored(f, addrs))
            && (!p.discard ==>
                  && p.protocol == f.protocol && p.sip == f.saddr && p.dip == f.daddr
                  && p.len == CapturedLength(f) && p.timestamp == f.seconds
                  && p.direction == (if IsOurs(addrs, f.saddr) then Outgoing else Incoming)
                  && p.kind == (if f.protocol == 6 then TCP else if f.protocol == 17 then UDP else ICMP)
                  && (p.sport, p.dport) == (if f.protocol == 1 then (0, 0) else (f.sport, f.dport)))
  {
    LocalIsMembership(addrs, f.saddr);
    LocalIsMembership(addrs, f.daddr);
    PortSets(f.sport, f.dport);
    CapturedIsInt32(f);
    hide Int32;
  }

  lemma CapturedIsInt32(f: Frame)
    ensures Int32(f.length) == CapturedLength(f)
  {
  }

  lemma PortSets(s: Word16, d: Word16)
    ensures {s, d} !! {53, 1900} <==> s != 53 && d != 53 && s != 1900 && d != 1900
    ensures {s, d} == {5353} <==> s == 5353 && d == 5353
    ensures {s, d} == {123} <==> s == 123 && d == 123
  {
    assert s in {s, d} && d in {s, d};
  }

  /** A kept packet has a direction and one of the three ordinary kinds. */
  lemma KeptShape(f: Frame, ips: seq<Word32>)
    ensures var p := Classified(f, ips);
            !p.discard ==> p.direction != UnknownDirection && p.kind in {TCP, UDP, ICMP}
  {
  }

  // ----- socket keys

  datatype PacketHash = PacketHash(ip1: Word32, port1: Word16, ip2: Word32, port2: Word16)

  /** Key of a socket-table row with both ends. */
  function SocketKey(localIP: Word32, localPort: Word16, remoteIP: Word32, remotePort: Word16): PacketHash {
    PacketHash(localIP, localPort, remoteIP, remotePort)
  }

  /** Key of a UDP socket: its local port alone. */
  function UdpKey(localPort: Word16): PacketHash {
    PacketHash(0, localPort, 0, 0)
  }

  /** The key of a packet: its ends as local and remote, and for UDP the local port alone. */
  function KeyOf(p: Packet): PacketHash {
    var out := p.direction == Outgoing;
    var local := if out then (p.sip, p.sport) else (p.dip, p.dport);
    var remote := if out then (p.dip, p.dport) else (p.sip, p.sport);
    if p.kind == UDP then UdpKey(local.1) else SocketKey(local.0, local.1, remote.0, remote.1)
  }

  method HashPacket(pkt: Packet) returns (h: PacketHash)
    ensures h == KeyOf(pkt)
  {
    h := PacketHash(0, 0, 0, 0);
    if pkt.direction == Outgoing {
      h := h.(port1 := pkt.sport);
      if pkt.kind == UDP {
        return;
      }
      h := h.(ip1 := pkt.sip);
      h := h.(ip2 := pkt.dip);
      h := h.(port2 := pkt.dport);
    } else {
      h := h.(port1 := pkt.dport);
      if pkt.kind == UDP {
        return;
      }
      h := h.(ip1 := pkt.dip);
      h := h.(ip2 := pkt.sip);
      h := h.(port2 := pkt.sport);
    }
  }

  /** The key of a kept frame, read off its headers: the local end first, where with two local ends
      the source counts as local; ports only for TCP, the local port alone for UDP. */
  lemma KeyFromFrame(f: Frame, ips: seq<Word32>)
    requires !Classified(f, ips).discard
    ensures var k := KeyOf(Classified(f, ips));
            var (lip, lport, rip, rport) := if IsLocal(ips, f.saddr) then (f.saddr, f.sport, f.daddr, f.dport)
                                            else (f.daddr, f.dport, f.saddr, f.sport);
            && IsLocal(ips, lip)
            && (f.protocol == IPPROTO_TCP ==> k == PacketHash(lip, lport, rip, rport))
            && (f.protocol == IPPROTO_ICMP ==> k == PacketHash(lip, 0, rip, 0))
            && (f.protocol == IPPROTO_UDP ==> k == PacketHash(0, lport, 0, 0))
  {
  }

  // ----- both directions of a conversation

  /** The same frame travelling the other way. */
  function Reverse(f: Frame): Frame {
    f.(saddr := f.daddr, daddr := f.saddr, sport := f.dport, dport := f.sport)
  }

  /** Keeping does not depend on the direction of travel, for any frame. */
  lemma KeptTogether(f: Frame, ips: seq<Word32>)
    ensures Classified(f, ips).discard == Classified(Reverse(f), ips).discard
  {
  }

  predicate OneLocalEnd(f: Frame, ips: seq<Word32>) {
    IsLocal(ips, f.saddr) != IsLocal(ips, f.daddr)
  }

  /** The two ends carry the same key material: the ports for UDP, else addresses and TCP ports. */
  predicate SameEnds(f: Frame) {
    if f.protocol == IPPROTO_UDP then f.sport == f.dport
    else f.saddr == f.daddr && (f.protocol == IPPROTO_TCP ==> f.sport == f.dport)
  }

  /** A kept frame and its reversal have equal keys iff exactly one end is local or the ends coincide. */
  lemma ConversationKey(f: Frame, ips: seq<Word32>)
    requires !Classified(f, ips).discard
    ensures KeyOf(Classified(f, ips)) == KeyOf(Classified(Reverse(f), ips)) <==> OneLocalEnd(f, ips) || SameEnds(f)
  {
    KeptShape(f, ips);
    KeptShape(Reverse(f), ips);
  }

  /** With exactly one local end the two directions are opposite. */
  lemma ConversationDirections(f: Frame, ips: seq<Word32>)
    requires f.etherType == ETHERTYPE_IP && OneLocalEnd(f, ips)
    ensures {Classified(f, ips).direction, Classified(Reverse(f), ips).direction} == {Incoming, Outgoing}
  {
  }

  /** The whole symmetry over the addresses a device reports. */
  lemma ConversationSymmetry(f: Frame, addrs: seq<Word32>)
    requires addrs != [] && (f.saddr in addrs) != (f.daddr in addrs)
    requires f.etherType == ETHERTYPE_IP
    ensures var p, q := Classified(f, FillOrder(addrs)), Classified(Reverse(f), FillOrder(addrs));
            && p.discard == q.discard
            && p.direction == (if f.saddr in addrs then Outgoing else Incoming)
            && q.direction == (if f.saddr in addrs then Incoming else Outgoing)
            && (!p.discard ==> KeyOf(p) == KeyOf(q))
  {
    LocalIsMembership(addrs, f.saddr);
    LocalIsMembership(addrs, f.daddr);
    KeptTogether(f, FillOrder(addrs));
    if !Classified(f, FillOrder(addrs)).discard {
      ConversationKey(f, FillOrder(addrs));
    }
  }
}
