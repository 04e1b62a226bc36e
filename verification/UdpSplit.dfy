/** Sending a UDP message: nip_calc_pkt_frag_num and the loop of _nip_udp_output. */
module UdpSplit {
  import opened Segments
  import opened NipAddr
  import opened NipHeader
  import Checksum
  import Window

  const UDP_HDR_LEN: nat := 8

  /** struct nip_pkt_seg_info: how many middle packets, their length, the last one's. */
  datatype SegInfo = SegInfo(midNum: nat, midLen: nat, lastLen: nat)

  /** What fits one packet, rounded down to a multiple of eight. */
  function MidLen(mtu: nat, hdrLen: nat): nat
    requires mtu >= hdrLen + 16
  {
    (mtu - hdrLen - UDP_HDR_LEN) / 8 * 8
  }

  /** nip_calc_pkt_frag_num. */
  function CalcFragNum(mtu: nat, hdrLen: nat, len: nat): SegInfo
    requires mtu >= hdrLen + 16
  {
    var mid := MidLen(mtu, hdrLen);
    if len == 0 then SegInfo(0, mid, 0)
    else if len % mid == 0 then SegInfo(len / mid - 1, mid, mid)
    else SegInfo(len / mid, mid, len % mid)
  }

  /** The reference: cut off whole middle pieces while more than one piece is left. */
  function Chunks(data: seq<byte>, mid: nat): (c: seq<seq<byte>>)
    requires mid > 0
    ensures c != []
    decreases |data|
  {
    if |data| <= mid then [data] else [data[..mid]] + Chunks(data[mid..], mid)
  }

  function Concat(ss: seq<seq<byte>>): seq<byte> {
    if ss == [] then [] else ss[0] + Concat(ss[1..])
  }

  lemma {:induction false} ChunksJoin(data: seq<byte>, mid: nat)
    requires mid > 0
    ensures Concat(Chunks(data, mid)) == data
    decreases |data|
  {
    if |data| <= mid {
      assert Concat([data]) == data + Concat([]);
    } else {
      ChunksJoin(data[mid..], mid);
      assert Chunks(data, mid)[1..] == Chunks(data[mid..], mid);
    }
  }

  /** All pieces but the last are `mid` long; the last is no longer, and empty only for
      an empty message. */
  lemma {:induction false} ChunkLengths(data: seq<byte>, mid: nat, i: nat)
    requires mid > 0 && i < |Chunks(data, mid)|
    ensures var c := Chunks(data, mid);
            && (i < |c| - 1 ==> |c[i]| == mid)
            && |c[i]| <= mid && (c[i] == [] ==> data == [] && |c| == 1)
    decreases |data|
  {
    if |data| > mid && i > 0 {
      ChunkLengths(data[mid..], mid, i - 1);
    }
  }

  /** nip_calc_pkt_frag_num counts the pieces of the reference cutting. */
  lemma {:induction false} FragNumIsChunks(mtu: nat, hdrLen: nat, data: seq<byte>)
    requires mtu >= hdrLen + 16
    ensures var s := CalcFragNum(mtu, hdrLen, |data|); var c := Chunks(data, s.midLen);
            && 8 <= s.midLen <= mtu - hdrLen - UDP_HDR_LEN < s.midLen + 8 && s.midLen % 8 == 0
            && |c| == s.midNum + 1 && |c[|c| - 1]| == s.lastLen
    decreases |data|
  {
    var mid := MidLen(mtu, hdrLen);
    if |data| > mid {
      FragNumIsChunks(mtu, hdrLen, data[mid..]);
      LessOne(|data|, mid);
    } else if data != [] {
      AtMostOne(|data|, mid);
    }
  }

  lemma LessOne(len: nat, mid: nat)
    requires 0 < mid < len
    ensures (len - mid) / mid == len / mid - 1 && (len - mid) % mid == len % mid
  {
    var q := len / mid;
    assert len == q * mid + len % mid;
    assert len - mid == (q - 1) * mid + len % mid;
    QuotientIs(len - mid, mid, q - 1, len % mid);
  }

  lemma AtMostOne(len: nat, mid: nat)
    requires 0 < len <= mid
    ensures if len == mid then len / mid == 1 && len % mid == 0 else len / mid == 0 && len % mid == len
  {
    if len == mid { QuotientIs(len, mid, 1, 0); } else { QuotientIs(len, mid, 0, len); }
  }

  lemma QuotientIs(x: int, d: nat, q: int, r: nat)
    requires d > 0 && x == q * d + r && r < d
    ensures x / d == q && x % d == r
  {
    assert x == (x / d) * d + x % d;
    Window.Dichotomy(x / d, q, d);
    Window.Dichotomy(q, x / d, d);
    assert (q + 1) * d == q * d + d && (x / d + 1) * d == x / d * d + d;
  }

  // ---- Packets ----

  function Ushort(x: nat): seq<byte> {
    [x / 256 % 256, x % 256]
  }

  /** nip_build_udp_hdr. */
  function UdpHdr(sport: nat, dport: nat, len: nat, check: nat): (h: seq<byte>)
    ensures |h| == UDP_HDR_LEN
  {
    Ushort(sport) + Ushort(dport) + Ushort(len) + Ushort(check)
  }

  /** The pseudo-header of nip_get_output_checksum. */
  function PseudoOf(f: Fields, len: nat): (p: Checksum.Pseudo)
    requires Writable(f) && len <= 0xFFFF
    ensures Checksum.Proper(p)
  {
    Checksum.Pseudo(f.saddr, f.daddr, len, 17)
  }

  /** The length as the 16-bit fields hold it. */
  function Len16(payload: nat): nat {
    (UDP_HDR_LEN + payload) % 0x1_0000
  }

  /** The checksum over as much of the datagram as the 16-bit length covers. */
  function CheckOf(f: Fields, sport: nat, dport: nat, payload: seq<byte>): (c: nat)
    requires Writable(f)
    ensures c <= 65535
  {
    var len := Len16(|payload|);
    var blank := UdpHdr(sport, dport, len, 0) + payload;
    65535 - Checksum.Norm(Checksum.Total(blank[..len], PseudoOf(f, len)))
  }

  /** UDP header and payload. */
  function Datagram(f: Fields, sport: nat, dport: nat, payload: seq<byte>): (d: seq<byte>)
    requires Writable(f)
    ensures |d| == UDP_HDR_LEN + |payload|
  {
    UdpHdr(sport, dport, Len16(|payload|), CheckOf(f, sport, dport, payload)) + payload
  }

  function Packet(f: Fields, sport: nat, dport: nat, payload: seq<byte>): (p: seq<byte>)
    requires Writable(f)
    ensures |p| == |Header(f)| + UDP_HDR_LEN + |payload|
  {
    Header(f) + Datagram(f, sport, dport, payload)
  }

  /** _nip_udp_single_output: the packet, and what is left of the message. */
  method SingleOutput(f: Fields, sport: nat, dport: nat, rest: seq<byte>, usrLen: nat)
    returns (pkt: seq<byte>, rest': seq<byte>)
    requires Writable(f) && !f.comm && usrLen <= |rest|
    ensures pkt == Packet(f, sport, dport, rest[..usrLen]) && rest' == rest[usrLen..]
  {
    var buf := new byte[NIP_HDR_MAX](i => 0);
    var head := new HdrEncap(f, buf);
    head.UdpEncap();
    var len := Len16(usrLen);
    var blank := UdpHdr(sport, dport, len, 0) + rest[..usrLen];
    var check := Checksum.Build(blank[..len], PseudoOf(f, len));
    pkt := buf[..head.pos] + (UdpHdr(sport, dport, len, check) + rest[..usrLen]);
    rest' := rest[usrLen..];
  }

  /** The packets of the pieces, in order. */
  function Packets(f: Fields, sport: nat, dport: nat, c: seq<seq<byte>>): seq<seq<byte>>
    requires Writable(f)
  {
    if c == [] then [] else [Packet(f, sport, dport, c[0])] + Packets(f, sport, dport, c[1..])
  }

  lemma ChunkStep(data: seq<byte>, mid: nat)
    requires mid > 0
    ensures var c := Chunks(data, mid);
            if |c| > 1 then |data| > mid && c[0] == data[..mid] && c[1..] == Chunks(data[mid..], mid)
            else c == [data]
  {
  }

  /** The send loop of _nip_udp_output, when every packet is taken. */
  method SendLoop(f: Fields, sport: nat, dport: nat, data: seq<byte>, info: SegInfo) returns (packets: seq<seq<byte>>)
    requires Writable(f) && !f.comm && info.midLen > 0
    requires var c := Chunks(data, info.midLen); |c| == info.midNum + 1 && |c[|c| - 1]| == info.lastLen
    ensures packets == Packets(f, sport, dport, Chunks(data, info.midLen))
  {
    hide Packet, Header, Writable, Chunks;
    packets := [];
    var rest, i := data, 0;
    while i < info.midNum
      invariant 0 <= i <= info.midNum && |Chunks(rest, info.midLen)| == info.midNum - i + 1
      invariant |Chunks(rest, info.midLen)[info.midNum - i]| == info.lastLen
      invariant packets + Packets(f, sport, dport, Chunks(rest, info.midLen)) ==
                Packets(f, sport, dport, Chunks(data, info.midLen))
    {
      ChunkStep(rest, info.midLen);
      var pkt;
      pkt, rest := SingleOutput(f, sport, dport, rest, info.midLen);
      packets := packets + [pkt];
      i := i + 1;
    }
    ChunkStep(rest, info.midLen);
    var pkt, _ := SingleOutput(f, sport, dport, rest, info.lastLen);
    assert rest[..info.lastLen] == rest;
    packets := packets + [pkt];
  }

  /** _nip_udp_output: exactly the packets of the reference cutting. */
  method UdpOutput(f: Fields, sport: nat, dport: nat, data: seq<byte>, mtu: nat) returns (packets: seq<seq<byte>>)
    requires Writable(f) && !f.comm && mtu >= GetHdrLen(false, f.saddr, f.daddr) + 16
    ensures packets == Packets(f, sport, dport, Chunks(data, MidLen(mtu, GetHdrLen(false, f.saddr, f.daddr))))
  {
    var hdrLen := GetHdrLen(false, f.saddr, f.daddr);
    FragNumIsChunks(mtu, hdrLen, data);
    packets := SendLoop(f, sport, dport, data, CalcFragNum(mtu, hdrLen, |data|));
  }

  /** Every packet fits the MTU with its actual header. */
  lemma PacketFits(f: Fields, sport: nat, dport: nat, payload: seq<byte>, mtu: nat)
    requires Writable(f) && !f.comm && mtu >= GetHdrLen(false, f.saddr, f.daddr) + 16
    requires |payload| <= MidLen(mtu, GetHdrLen(false, f.saddr, f.daddr))
    ensures |Packet(f, sport, dport, payload)| <= mtu
  {
    HeaderLength(f);
  }

  lemma HeaderInFront(h: seq<byte>, d: seq<byte>, tail: seq<byte>)
    ensures Holds((h + d) + tail, 0, h) && (h + d)[|h|..] == d
  {
    assert ((h + d) + tail)[0..0 + |h|] == h;
  }

  /** The parser finds the header and its fields in front of every packet. */
  lemma PacketParses(f: Fields, sport: nat, dport: nat, payload: seq<byte>, tail: seq<byte>, n: Niph)
    requires Writable(f) && Cleared(n) && |tail| >= 29
    ensures var pkt := Packet(f, sport, dport, payload);
            ParseHdr(pkt + tail, |pkt|, n) == Got(|Header(f)|, Expected(f, n))
  {
    hide Header, ParseHdr, Datagram, Writable, Holds;
    var pkt := Packet(f, sport, dport, payload);
    HeaderInFront(Header(f), Datagram(f, sport, dport, payload), tail);
    RoundTrip(pkt + tail, |pkt|, f, n);
  }

  /** Every datagram whose length fits 16 bits passes the receiver's checksum. */
  lemma DatagramChecks(f: Fields, sport: nat, dport: nat, payload: seq<byte>)
    requires Writable(f) && |payload| + UDP_HDR_LEN <= 0xFFFF
    ensures Checksum.Norm(Checksum.Total(Datagram(f, sport, dport, payload), PseudoOf(f, UDP_HDR_LEN + |payload|))) == 65535
  {
    var len, check := UDP_HDR_LEN + |payload|, CheckOf(f, sport, dport, payload);
    var blank := UdpHdr(sport, dport, len, 0) + payload;
    assert blank[..len] == blank;
    Checksum.BuildThenParse(blank, 6, PseudoOf(f, len));
    Stamp(sport, dport, len, check, payload);
  }

  lemma Stamp(sport: nat, dport: nat, len: nat, check: nat, payload: seq<byte>)
    requires check <= 65535
    ensures var blank := UdpHdr(sport, dport, len, 0) + payload;
            Checksum.Stamped(blank, 6, check) == UdpHdr(sport, dport, len, check) + payload
  {
  }
}
