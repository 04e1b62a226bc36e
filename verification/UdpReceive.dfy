/** Receiving what UdpSplit sends: nip_rcv and nip_udp_input, up to the socket lookup. */
module UdpReceive {
  import opened Segments
  import opened NipAddr
  import opened NipHeader
  import opened UdpSplit
  import Checksum

  const IPPROTO_TCP: byte := 6
  const IPPROTO_UDP: byte := 17
  const IPPROTO_NIP_ICMP: byte := 0xB1

  const ZERO: Addr := Addr(0, [0, 0, 0, 0, 0, 0, 0, 0])

  /** The header fields before anything is read. */
  const NOTHING: Niph :=
    Niph(ZERO, ZERO, 0, 0, 0, 0, 0, false, false, false, false, false, false, false)

  /** What becomes of a packet. `Beyond`: a UDP length of less than its header, or fields
      past the memory at hand; the code reads them all the same. */
  datatype Rcvd = Dropped | Other(nexthdr: byte) | Beyond
                | Taken(saddr: Addr, daddr: Addr, sport: nat, dport: nat, payload: seq<byte>)

  predicate Small(n: Niph) {
    Sound(n) && n.saddr.bitlen <= 64 && n.daddr.bitlen <= 64
  }

  function PseudoIn(n: Niph, ulen: nat): (p: Checksum.Pseudo)
    requires Small(n) && ulen <= 0xFFFF
    ensures Checksum.Proper(p)
  {
    Checksum.Pseudo(n.saddr, n.daddr, ulen, n.nexthdr)
  }

  /** nip_udp_input: the checksum, the ports, and as many bytes as the UDP length says. */
  function UdpInput(mem: seq<byte>, off: nat, n: Niph): Rcvd
    requires Small(n)
  {
    if off + UDP_HDR_LEN > |mem| then Beyond
    else
      var ulen := Checksum.Word(mem, off + 4);
      if ulen < UDP_HDR_LEN || off + ulen > |mem| then Beyond
      else
        var d := mem[off..off + ulen];
        if Checksum.Norm(Checksum.Total(d, PseudoIn(n, ulen))) != 0xFFFF then Dropped
        else Taken(n.saddr, n.daddr, Checksum.Word(d, 0), Checksum.Word(d, 2), d[UDP_HDR_LEN..])
  }

  lemma Bitmap0Small(mem: seq<byte>, pos: nat, bm: byte, n: Niph)
    requires pos + 20 <= |mem| && Small(n)
    ensures Bitmap0(mem, pos, bm, n).len >= 0 ==> Small(Bitmap0(mem, pos, bm, n).n)
  {
  }

  lemma RoundSmall(i: nat, mem: seq<byte>, pos: nat, bm: byte, n: Niph, bufLen: nat)
    requires pos + Room(i) <= |mem| && Small(n)
    ensures var (stop, g) := Round(i, mem, pos, bm, n, bufLen); g.len >= 0 ==> Small(g.n)
  {
    hide Bitmap0, Bit;
    if i == 0 { Bitmap0Small(mem, pos, bm, n); }
  }

  lemma {:induction false} ParsedSmall(mem: seq<byte>, bufLen: nat, num: nat, i: nat, pos: nat, n: Niph)
    requires num <= BITMAP_MAX && Small(n) && |mem| >= 29
    requires pos <= num + (if i == 0 then 0 else if i == 1 then 20 else 21)
    ensures var g := ParseFrom(mem, bufLen, num, i, pos, n); g.len >= 0 ==> Small(g.n)
    decreases num - i
  {
    hide Bitmap0, Bitmap1, Bit, Check, Round, Factory;
    if i < num && i < FACTORY_NUM_MAX {
      RoundSmall(i, mem, pos, mem[i], n, bufLen);
      var (stop, g) := Round(i, mem, pos, mem[i], n, bufLen);
      if !stop { ParsedSmall(mem, bufLen, num, i + 1, pos + g.len, g.n); }
    }
  }

  lemma ParseSmall(mem: seq<byte>, bufLen: nat)
    requires |mem| >= 29
    ensures var g := ParseHdr(mem, bufLen, NOTHING); g.len > 0 ==> Small(g.n)
  {
    var num := BitmapNum(mem, 0);
    if num > 0 { ParsedSmall(mem, bufLen, num, 0, num, NOTHING.(realLen := num)); }
  }

  /** nip_rcv, up to the transport layer: `len` bytes of a packet, in memory that is
      readable further on. */
  function Rcv(mem: seq<byte>, len: nat): Rcvd
    requires |mem| >= 29
  {
    var g := ParseHdr(mem, len, NOTHING);
    if g.len <= 0 then Dropped
    else if g.n.nexthdr !in {IPPROTO_UDP, IPPROTO_TCP, IPPROTO_NIP_ICMP} then Dropped
    else if g.n.hasTotalLen && g.n.totalLen > len then Dropped
    else if g.n.nexthdr != IPPROTO_UDP then Other(g.n.nexthdr)
    else
      ParseSmall(mem, len);
      UdpInput(mem, g.len, g.n)
  }

  /** The same with the parser's loop and the checksum's. */
  method NipRcv(mem: seq<byte>, len: nat) returns (r: Rcvd)
    requires |mem| >= 29
    ensures r == Rcv(mem, len)
  {
    hide ParseHdr;
    ParseSmall(mem, len);
    var offset, n := NipHdrParse(mem, len, NOTHING);
    if offset <= 0 || n.nexthdr !in {IPPROTO_UDP, IPPROTO_TCP, IPPROTO_NIP_ICMP} {
      return Dropped;
    }
    if n.hasTotalLen && n.totalLen > len {
      return Dropped;
    }
    if n.nexthdr != IPPROTO_UDP {
      return Other(n.nexthdr);
    }
    if offset + UDP_HDR_LEN > |mem| {
      return Beyond;
    }
    var ulen := (mem[offset + 4] as int) * 256 + mem[offset + 5];
    if ulen < UDP_HDR_LEN || offset + ulen > |mem| {
      return Beyond;
    }
    var d := mem[offset..offset + ulen];
    var sum := Checksum.Parse(d, PseudoIn(n, ulen));
    if sum != 0xFFFF {
      return Dropped;
    }
    r := Taken(n.saddr, n.daddr, (d[0] as int) * 256 + d[1], (d[2] as int) * 256 + d[3], d[UDP_HDR_LEN..]);
  }

  // ---- What was sent is received ----

  /** The layout of the UDP header: four 16-bit fields, high byte first. */
  lemma UdpHdrReads(sport: nat, dport: nat, len: nat, check: nat, payload: seq<byte>)
    requires sport <= 0xFFFF && dport <= 0xFFFF && len <= 0xFFFF && check <= 0xFFFF
    ensures var d := UdpHdr(sport, dport, len, check) + payload;
            && d[0] == sport / 256 && d[1] == sport % 256 && d[2] == dport / 256 && d[3] == dport % 256
            && d[4] == len / 256 && d[5] == len % 256 && d[6] == check / 256 && d[7] == check % 256
            && Checksum.Word(d, 0) == sport && Checksum.Word(d, 2) == dport && Checksum.Word(d, 4) == len
            && d[UDP_HDR_LEN..] == payload
  {
  }

  lemma InMemory(h: seq<byte>, d: seq<byte>, tail: seq<byte>)
    requires |d| >= UDP_HDR_LEN
    ensures var mem := (h + d) + tail;
            && |mem| == |h| + |d| + |tail| && mem[|h|..|h| + |d|] == d
            && Checksum.Word(mem, |h| + 4) == Checksum.Word(d, 4)
  {
    var mem := (h + d) + tail;
    assert mem[|h|..|h| + |d|] == d;
    assert mem[|h| + 4] == d[4] && mem[|h| + 5] == d[5];
  }

  /** A datagram whose length fits 16 bits arrives as it was sent: both addresses, both
      ports, and the payload, whatever lies behind it in memory. */
  lemma DatagramArrives(f: Fields, sport: nat, dport: nat, payload: seq<byte>, tail: seq<byte>)
    requires Writable(f) && !f.comm && f.nexthdr == IPPROTO_UDP && sport <= 0xFFFF && dport <= 0xFFFF
    requires |payload| + UDP_HDR_LEN <= 0xFFFF && |tail| >= 29
    ensures var pkt := Packet(f, sport, dport, payload);
            Rcv(pkt + tail, |pkt|) == Taken(f.saddr, f.daddr, sport, dport, payload)
  {
    var pkt, d := Packet(f, sport, dport, payload), Datagram(f, sport, dport, payload);
    ExpectedOfUdp(f);
    hide Header, ParseHdr, Writable, Datagram, Expected, UdpInput, Checksum.Word, Small;
    PacketParses(f, sport, dport, payload, tail, NOTHING);
    ParseSmall(pkt + tail, |pkt|);
    InMemory(Header(f), d, tail);
    InputTakes(pkt + tail, |Header(f)|, Expected(f, NOTHING), f, sport, dport, payload);
  }

  lemma ExpectedOfUdp(f: Fields)
    requires Writable(f) && !f.comm
    ensures Expected(f, NOTHING).nexthdr == f.nexthdr && !Expected(f, NOTHING).hasTotalLen
    ensures |Header(f)| > 0
  {
  }

  /** nip_udp_input on a datagram in memory. */
  lemma InputTakes(mem: seq<byte>, off: nat, n: Niph, f: Fields, sport: nat, dport: nat, payload: seq<byte>)
    requires Writable(f) && f.nexthdr == IPPROTO_UDP && sport <= 0xFFFF && dport <= 0xFFFF
    requires |payload| + UDP_HDR_LEN <= 0xFFFF && Small(n) && n == Expected(f, NOTHING)
    requires var d := Datagram(f, sport, dport, payload);
             off + |d| <= |mem| && mem[off..off + |d|] == d && Checksum.Word(mem, off + 4) == Checksum.Word(d, 4)
    ensures UdpInput(mem, off, n) == Taken(f.saddr, f.daddr, sport, dport, payload)
  {
    UdpHdrReads(sport, dport, UDP_HDR_LEN + |payload|, CheckOf(f, sport, dport, payload), payload);
    DatagramChecks(f, sport, dport, payload);
    SamePseudo(n, f, UDP_HDR_LEN + |payload|);
    hide Writable, UdpHdr, CheckOf, Checksum.Norm, Checksum.Total, Checksum.Word, Small, PseudoIn, PseudoOf;
  }

  lemma SamePseudo(n: Niph, f: Fields, len: nat)
    requires Writable(f) && f.nexthdr == IPPROTO_UDP && Small(n) && n == Expected(f, NOTHING) && len <= 0xFFFF
    ensures PseudoIn(n, len) == PseudoOf(f, len)
  {
  }

  lemma ExpectedOfComm(f: Fields)
    requires Writable(f) && f.comm
    ensures var n := Expected(f, NOTHING); n.nexthdr == f.nexthdr && n.hasTotalLen && n.totalLen == f.totalLen
    ensures |Header(f)| > 0
  {
  }

  /** A packet with a common header goes to the protocol it names, unless that is none of
      the three or the packet says it is longer than what has arrived. */
  lemma CommonArrives(f: Fields, data: seq<byte>, tail: seq<byte>)
    requires Writable(f) && f.comm && f.nexthdr != IPPROTO_UDP && data != [] && |tail| >= 29
    ensures var len := |Header(f)| + |data|;
            Rcv((Header(f) + data) + tail, len) ==
              if f.nexthdr in {IPPROTO_TCP, IPPROTO_NIP_ICMP} && f.totalLen <= len then Other(f.nexthdr) else Dropped
  {
    hide Header, ParseHdr, Expected, Writable, UdpInput, Holds, Small, ZeroFrom, Shaped;
    var h := Header(f);
    ExpectedOfComm(f);
    NothingIsCleared();
    HeaderInFront(h, data, tail);
    RoundTrip((h + data) + tail, |h| + |data|, f, NOTHING);
  }

  lemma NothingIsCleared()
    ensures Cleared(NOTHING)
  {
  }

  lemma {:induction false} PacketAt(f: Fields, sport: nat, dport: nat, c: seq<seq<byte>>, i: nat)
    requires Writable(f) && i < |c|
    ensures |Packets(f, sport, dport, c)| == |c|
    ensures Packets(f, sport, dport, c)[i] == Packet(f, sport, dport, c[i])
  {
    if i > 0 {
      PacketAt(f, sport, dport, c[1..], i - 1);
    } else if |c| > 1 {
      PacketAt(f, sport, dport, c[1..], 0);
    }
  }

  /** End to end: of every message, over every MTU, the receiver makes as many datagrams
      as there are pieces; each comes from the sender's address and port, and their
      payloads, in order, are the message. */
  lemma MessageArrives(f: Fields, sport: nat, dport: nat, data: seq<byte>, mtu: nat, i: nat, tail: seq<byte>)
    requires Writable(f) && !f.comm && f.nexthdr == IPPROTO_UDP && sport <= 0xFFFF && dport <= 0xFFFF
    requires GetHdrLen(false, f.saddr, f.daddr) + 16 <= mtu <= 0xFFFF && |tail| >= 29
    ensures var c := Chunks(data, MidLen(mtu, GetHdrLen(false, f.saddr, f.daddr)));
            var pkts := Packets(f, sport, dport, c);
            && |pkts| == |c| && Concat(c) == data
            && (i < |c| ==> |pkts[i]| <= mtu
                            && Rcv(pkts[i] + tail, |pkts[i]|) == Taken(f.saddr, f.daddr, sport, dport, c[i]))
  {
    var mid := MidLen(mtu, GetHdrLen(false, f.saddr, f.daddr));
    hide Rcv, Packet, Writable;
    var c := Chunks(data, mid);
    ChunksJoin(data, mid);
    PacketAt(f, sport, dport, c, 0);
    if i < |c| {
      ChunkLengths(data, mid, i);
      PacketAt(f, sport, dport, c, i);
      PacketFits(f, sport, dport, c[i], mtu);
      DatagramArrives(f, sport, dport, c[i], tail);
    }
  }
}
