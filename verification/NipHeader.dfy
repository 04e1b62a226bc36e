/** The NewIP header: a bitmap that says which fields follow, and the fields. Written by
    nip_hdr_udp_encap and nip_hdr_comm_encap, read by nip_hdr_parse. */
module NipHeader {
  import opened Segments
  import opened NipAddr

  /** Is the bit with this weight set? */
  predicate Bit(b: byte, weight: nat)
    requires weight > 0
  {
    b / weight % 2 == 1
  }

  const MORE: nat := 0x01
  const SADDR: nat := 0x02
  const DADDR: nat := 0x04
  const NEXT_HDR: nat := 0x10
  const TOTAL_LEN: nat := 0x20
  const TTL: nat := 0x40
  const INVALID_SET: nat := 0x80
  const HDR_LEN: nat := 0x80

  const UDP_BITMAP_1: byte := 0x56
  const UDP_BITMAP_1_INC_2: byte := 0x57
  const NORMAL_BITMAP_1: byte := 0x76
  const NORMAL_BITMAP_1_INC_2: byte := 0x77
  const NODATA_BITMAP_2: byte := 0x00

  const NIP_HDR_MAX: nat := 24
  const BITMAP_MAX: nat := 8
  const FACTORY_NUM_MAX: nat := 3

  // ---- Writing ----

  /** The fields a header carries; `comm` headers carry a total length, UDP ones do not. */
  datatype Fields = Fields(comm: bool, ttl: byte, totalLen: nat, nexthdr: byte, daddr: Addr, saddr: Addr)

  predicate Writable(f: Fields) {
    && Shaped(f.daddr) && Shaped(f.saddr) && ValidAddr(f.daddr) && ValidAddr(f.saddr)
    && f.daddr.bitlen % 8 == 0 && f.saddr.bitlen % 8 == 0
    && f.totalLen <= 0xFFFF
  }

  /** The second bitmap byte keeps the header length even. */
  function Bitmap(f: Fields): seq<byte> {
    if (f.daddr.bitlen / 8 + f.saddr.bitlen / 8) % 2 != 0
    then [if f.comm then NORMAL_BITMAP_1 else UDP_BITMAP_1]
    else [if f.comm then NORMAL_BITMAP_1_INC_2 else UDP_BITMAP_1_INC_2, NODATA_BITMAP_2]
  }

  function TotalLenBytes(f: Fields): seq<byte>
    requires f.totalLen <= 0xFFFF
  {
    if f.comm then [f.totalLen / 256, f.totalLen % 256] else []
  }

  function Header(f: Fields): seq<byte>
    requires Writable(f)
  {
    Bitmap(f) + [f.ttl] + TotalLenBytes(f) + [f.nexthdr] + Used(f.daddr) + Used(f.saddr)
  }

  /** get_nip_hdr_len, for both addresses given. */
  function GetHdrLen(comm: bool, saddr: Addr, daddr: Addr): nat
    requires Shaped(saddr) && Shaped(daddr)
  {
    if Len(saddr.field[0]) == 0 || Len(daddr.field[0]) == 0 then 0
    else (if comm then 6 else 4) + Len(saddr.field[0]) + Len(daddr.field[0])
  }

  lemma UsedLen(a: Addr)
    requires Shaped(a) && ValidAddr(a)
    ensures |Used(a)| == a.bitlen / 8 == Len(a.field[0]) && 1 <= |Used(a)| <= 8
    ensures a.field[..Len(a.field[0])] == Used(a)
  {
    assert Used(a)[0] == a.field[0];
  }

  /** The header length is even, at most the estimate, which is at most NIP_HDR_MAX. */
  lemma HeaderLength(f: Fields)
    requires Writable(f)
    ensures |Header(f)| % 2 == 0
    ensures |Header(f)| <= GetHdrLen(f.comm, f.saddr, f.daddr) <= |Header(f)| + 1
    ensures GetHdrLen(f.comm, f.saddr, f.daddr) <= NIP_HDR_MAX
  {
    UsedLen(f.daddr);
    UsedLen(f.saddr);
  }

  lemma GapFilled(f: Fields, gap: seq<byte>, w: seq<byte>)
    requires Writable(f) && f.comm && |gap| == 2
    requires w == Bitmap(f) + [f.ttl] + gap + [f.nexthdr] + Used(f.daddr) + Used(f.saddr)
    ensures |w| == |Header(f)| && Patched(w, |Bitmap(f)| + 1, f.totalLen) == Header(f)
  {
    var front, back := Bitmap(f) + [f.ttl], [f.nexthdr] + Used(f.daddr) + Used(f.saddr);
    assert w == front + gap + back;
    assert Header(f) == front + TotalLenBytes(f) + back;
  }

  /** struct nip_hdr_encap: the fields, the buffer, and the writing position. */
  class HdrEncap {
    const f: Fields
    const buf: array<byte>
    var pos: nat
    var totalLenPos: nat

    constructor (f: Fields, buf: array<byte>)
      ensures this.f == f && this.buf == buf && pos == 0
    {
      this.f, this.buf := f, buf;
      pos, totalLenPos := 0, 0;
    }

    /** What has been written so far. */
    function Written(): seq<byte>
      requires pos <= buf.Length
      reads this, buf
    {
      buf[..pos]
    }

    method PutByte(b: byte)
      requires pos < buf.Length
      modifies this`pos, buf
      ensures pos == old(pos) + 1 <= buf.Length && Written() == old(Written()) + [b]
    {
      buf[pos] := b;
      pos := pos + 1;
    }

    /** build_nip_addr at the writing position, which moves on by bitlen / 8. */
    method PutAddr(a: Addr)
      requires Shaped(a) && ValidAddr(a) && pos + 8 <= buf.Length
      modifies this`pos, buf
      ensures pos == old(pos) + |Used(a)| <= buf.Length && Written() == old(Written()) + Used(a)
    {
      UsedLen(a);
      var _, p := BuildNipAddr(a, buf, pos);
      assert buf[..p] == (old(buf[..pos]) + a.field[..Len(a.field[0])] + old(buf[p..]))[..p];
      pos := pos + a.bitlen / 8;
    }

    /** _nip_hdr_encap_udp_bitmap and _nip_hdr_encap_comm_bitmap. */
    method PutBitmap()
      requires buf.Length >= NIP_HDR_MAX
      modifies this`pos, buf
      ensures pos == |Bitmap(f)| && Written() == Bitmap(f)
    {
      if (f.daddr.bitlen / 8 + f.saddr.bitlen / 8) % 2 != 0 {
        buf[0] := if f.comm then NORMAL_BITMAP_1 else UDP_BITMAP_1;
        pos := 1;
      } else {
        buf[0] := if f.comm then NORMAL_BITMAP_1_INC_2 else UDP_BITMAP_1_INC_2;
        buf[1] := NODATA_BITMAP_2;
        pos := 2;
      }
    }

    /** nip_hdr_udp_encap. */
    method UdpEncap()
      requires Writable(f) && !f.comm && buf.Length >= NIP_HDR_MAX
      modifies this`pos, buf
      ensures pos == |Header(f)| <= buf.Length && Written() == Header(f)
    {
      PutBitmap();
      PutByte(f.ttl);
      PutByte(f.nexthdr);
      PutAddr(f.daddr);
      PutAddr(f.saddr);
    }

    /** _nip_hdr_total_len_encap: two bytes are passed over and remembered. */
    method SkipTotalLen() returns (ghost gap: seq<byte>)
      requires pos + 2 <= buf.Length
      modifies this`pos, this`totalLenPos
      ensures pos == old(pos) + 2 <= buf.Length && totalLenPos == old(pos)
      ensures |gap| == 2 && Written() == old(Written()) + gap
    {
      totalLenPos := pos;
      gap := [buf[pos], buf[pos + 1]];
      pos := pos + 2;
    }

    /** nip_hdr_comm_encap leaves the total length open; nip_update_total_len fills it
        in later. */
    method CommEncap()
      requires Writable(f) && f.comm && buf.Length >= NIP_HDR_MAX
      modifies this, buf
      ensures pos == |Header(f)| <= buf.Length && totalLenPos == |Bitmap(f)| + 1
      ensures Patched(Written(), totalLenPos, f.totalLen) == Header(f)
    {
      PutBitmap();
      PutByte(f.ttl);
      ghost var gap := SkipTotalLen();
      PutByte(f.nexthdr);
      PutAddr(f.daddr);
      PutAddr(f.saddr);
      GapFilled(f, gap, Written());
    }

    /** nip_update_total_len. */
    method UpdateTotalLen(len: nat)
      requires len <= 0xFFFF && totalLenPos + 1 < pos <= buf.Length
      modifies buf
      ensures Written() == Patched(old(Written()), totalLenPos, len)
    {
      buf[totalLenPos] := len / 256;
      buf[totalLenPos + 1] := len % 256;
    }
  }

  /** Two bytes overwritten with a big-endian 16-bit number. */
  function Patched(s: seq<byte>, at: nat, len: nat): seq<byte>
    requires at + 1 < |s| && len <= 0xFFFF
  {
    s[at := len / 256][at + 1 := len % 256]
  }

  // ---- Reading ----

  /** struct nip_hdr_decap. */
  datatype Niph = Niph(saddr: Addr, daddr: Addr, ttl: byte, nexthdr: byte, hdrLen: byte, realLen: nat,
                       totalLen: nat, unknown: bool, hasSaddr: bool, hasDaddr: bool, hasTtl: bool,
                       hasNexthdr: bool, hasHdrLen: bool, hasTotalLen: bool)

  /** How far a parser got, or a negative error; and the fields so far. */
  datatype Got = Got(len: int, n: Niph)

  predicate Sound(n: Niph) {
    Shaped(n.saddr) && Shaped(n.daddr)
  }

  /** Reading other fields leaves the header length alone. */
  predicate SameHdrLen(n: Niph, n': Niph) {
    n'.hdrLen == n.hdrLen && n'.hasHdrLen == n.hasHdrLen
  }

  /** A header length that was read, and a total length, bound each other. */
  predicate HdrLenFits(n: Niph, bufLen: nat) {
    (!n.hasHdrLen ==> n.hdrLen == 0) && (n.hasTotalLen && n.hasHdrLen ==> n.hdrLen < bufLen)
  }

  /** decode_nip_addr at `pos`. */
  function DecodeAt(mem: seq<byte>, pos: nat, target: Addr): (r: (bool, Addr))
    requires Shaped(target) && pos + 8 <= |mem|
    ensures Shaped(r.1) && (r.0 ==> r.1.bitlen <= 64)
  {
    var n := Len(mem[pos]);
    if n == 0 then (false, Addr(target.bitlen, target.field[0 := mem[pos]]))
    else
      var a := Filled(mem[pos..pos + n], target.field);
      (ValidAddr(a), a)
  }

  function GetTtl(mem: seq<byte>, pos: nat, bm: byte, n: Niph): Got
    requires pos < |mem|
  {
    if !Bit(bm, TTL) then Got(-3, n) else Got(1, n.(ttl := mem[pos], hasTtl := true))
  }

  function GetTotalLen(mem: seq<byte>, pos: nat, bm: byte, n: Niph): Got
    requires pos + 1 < |mem|
  {
    if !Bit(bm, TOTAL_LEN) then Got(0, n)
    else Got(2, n.(totalLen := (mem[pos] as int) * 256 + mem[pos + 1], hasTotalLen := true))
  }

  function GetNexthdr(mem: seq<byte>, pos: nat, bm: byte, n: Niph): Got
    requires pos < |mem|
  {
    if !Bit(bm, NEXT_HDR) then Got(-4, n) else Got(1, n.(nexthdr := mem[pos], hasNexthdr := true))
  }

  function GetDaddr(mem: seq<byte>, pos: nat, bm: byte, n: Niph): (g: Got)
    requires pos + 8 <= |mem| && Sound(n)
    ensures Sound(g.n) && SameHdrLen(n, g.n) && g.len <= 8
  {
    if !Bit(bm, DADDR) then Got(-5, n)
    else
      var (ok, a) := DecodeAt(mem, pos, n.daddr);
      if !ok then Got(-6, n.(daddr := a)) else Got(a.bitlen / 8, n.(daddr := a, hasDaddr := true))
  }

  function GetSaddr(mem: seq<byte>, pos: nat, bm: byte, n: Niph): (g: Got)
    requires pos + 8 <= |mem| && Sound(n)
    ensures Sound(g.n) && SameHdrLen(n, g.n) && g.len <= 8
  {
    if !Bit(bm, SADDR) then Got(0, n)
    else
      var (ok, a) := DecodeAt(mem, pos, n.saddr);
      if !ok then Got(-8, n.(saddr := a)) else Got(a.bitlen / 8, n.(saddr := a, hasSaddr := true))
  }

  /** _nip_hdr_bitmap0_parse. */
  function Bitmap0(mem: seq<byte>, pos: nat, bm: byte, n: Niph): (g: Got)
    requires pos + 20 <= |mem| && Sound(n)
    ensures Sound(g.n) && SameHdrLen(n, g.n) && g.len <= 20
  {
    var t := GetTtl(mem, pos, bm, n);
    if t.len < 0 then t
    else
      var l := GetTotalLen(mem, pos + t.len, bm, t.n);
      var x := GetNexthdr(mem, pos + t.len + l.len, bm, l.n);
      if x.len < 0 then x
      else
        var at := t.len + l.len + x.len;
        var d := GetDaddr(mem, pos + at, bm, x.n);
        if d.len < 0 then d
        else
          var s := GetSaddr(mem, pos + at + d.len, bm, d.n);
          if s.len < 0 then s else Got(at + d.len + s.len, s.n)
  }

  /** _nip_hdr_bitmap1_parse, with _get_nip_hdr_len. */
  function Bitmap1(mem: seq<byte>, pos: nat, bm: byte, n: Niph, bufLen: nat): (g: Got)
    requires pos < |mem| && Sound(n)
    ensures Sound(g.n) && g.len <= 1
    ensures g.len >= 0 && !n.hasHdrLen && n.hdrLen == 0 ==> HdrLenFits(g.n, bufLen)
  {
    var n1 := if bm % 128 != 0 then n.(unknown := true) else n;
    if !Bit(bm, HDR_LEN) then Got(0, n1)
    else
      var n2 := n1.(hdrLen := mem[pos], hasHdrLen := true);
      if n2.hasTotalLen && n2.hdrLen >= bufLen then Got(-13, n2) else Got(1, n2)
  }

  /** How many bytes parser i may read. */
  function Room(i: nat): nat {
    if i == 0 then 20 else if i == 1 then 1 else 0
  }

  /** One entry of the table of parsers. */
  function Factory(i: nat, mem: seq<byte>, pos: nat, bm: byte, n: Niph, bufLen: nat): (g: Got)
    requires pos + Room(i) <= |mem| && Sound(n)
    ensures Sound(g.n) && g.len <= Room(i)
    ensures i == 0 ==> SameHdrLen(n, g.n)
    ensures i == 1 && g.len >= 0 && !n.hasHdrLen && n.hdrLen == 0 ==> HdrLenFits(g.n, bufLen)
    ensures i > 1 ==> SameHdrLen(n, g.n) && g.n.hasTotalLen == n.hasTotalLen
  {
    match i
    case 0 => Bitmap0(mem, pos, bm, n)
    case 1 => Bitmap1(mem, pos, bm, n, bufLen)
    case _ => Got(0, n.(unknown := true))
  }

  /** nip_hdr_check, and the offset nip_hdr_parse returns. */
  function Check(n: Niph): int {
    if n.unknown && !n.hasHdrLen then -11
    else if n.hasHdrLen && (n.hdrLen == 0 || n.hdrLen < n.realLen) then -12
    else if n.hdrLen > n.realLen then n.hdrLen else n.realLen
  }

  /** How many bitmap bytes there are from i on, or none within eight. */
  function BitmapNum(mem: seq<byte>, i: nat): (r: int)
    requires BITMAP_MAX <= |mem|
    ensures r == -2 || i < r <= BITMAP_MAX
    decreases BITMAP_MAX - i
  {
    if i >= BITMAP_MAX then -2
    else if Bit(mem[i], MORE) then BitmapNum(mem, i + 1)
    else i + 1
  }

  /** One round of the loop of nip_hdr_parse, and whether it ends there. */
  function Round(i: nat, mem: seq<byte>, pos: nat, bm: byte, n: Niph, bufLen: nat): (r: (bool, Got))
    requires pos + Room(i) <= |mem| && Sound(n)
    ensures Sound(r.1.n) && (!r.0 ==> 0 <= r.1.len <= Room(i))
  {
    var g := Factory(i, mem, pos, bm, n, bufLen);
    if g.len < 0 then (true, g)
    else
      var n1 := g.n.(realLen := g.n.realLen + g.len);
      if n1.realLen >= bufLen then (true, Got(-10, n1)) else (false, Got(g.len, n1))
  }

  /** The loop of nip_hdr_parse from parser i on. */
  function ParseFrom(mem: seq<byte>, bufLen: nat, num: nat, i: nat, pos: nat, n: Niph): (g: Got)
    requires num <= BITMAP_MAX && Sound(n) && |mem| >= 29
    requires pos <= num + (if i == 0 then 0 else if i == 1 then 20 else 21)
    decreases num - i
  {
    if i >= num || i >= FACTORY_NUM_MAX then Got(Check(n), n)
    else
      var (stop, g) := Round(i, mem, pos, mem[i], n, bufLen);
      if stop then g else ParseFrom(mem, bufLen, num, i + 1, pos + g.len, g.n)
  }

  /** nip_hdr_parse. The memory behind rcv_buf is readable for 29 bytes whatever
      buf_len says: fields are read before the length is checked. */
  function ParseHdr(mem: seq<byte>, bufLen: nat, n: Niph): Got
    requires |mem| >= 29 && Sound(n)
  {
    if Bit(mem[0], INVALID_SET) then Got(-1, n)
    else
      var num := BitmapNum(mem, 0);
      if num <= 0 then Got(num, n) else ParseFrom(mem, bufLen, num, 0, num, n.(realLen := num))
  }

  /** The bitmap reader's loop. */
  method GetBitmap(mem: seq<byte>) returns (num: int)
    requires |mem| >= 29
    ensures num == if Bit(mem[0], INVALID_SET) then -1 else BitmapNum(mem, 0)
  {
    if Bit(mem[0], INVALID_SET) {
      return -1;
    }
    num := 0;
    while true
      invariant 0 <= num <= BITMAP_MAX && BitmapNum(mem, num) == BitmapNum(mem, 0)
      decreases BITMAP_MAX - num
    {
      if num >= BITMAP_MAX {
        return -2;
      }
      num := num + 1;
      if !Bit(mem[num - 1], MORE) {
        return;
      }
    }
  }

  /** nip_hdr_parse, field by field in a loop over the bitmaps. */
  method NipHdrParse(mem: seq<byte>, bufLen: nat, niph: Niph) returns (ret: int, n: Niph)
    requires |mem| >= 29 && Sound(niph)
    ensures Got(ret, n) == ParseHdr(mem, bufLen, niph)
  {
    hide Factory, Bit, BitmapNum, Check;
    var num := GetBitmap(mem);
    n := niph;
    if num <= 0 {
      return num, n;
    }
    n := n.(realLen := num);
    var i, pos := 0, num;
    while i < num && i < FACTORY_NUM_MAX
      invariant 0 <= i <= num && 0 <= pos <= num + (if i == 0 then 0 else if i == 1 then 20 else 21) && Sound(n)
      invariant ParseFrom(mem, bufLen, num, i, pos, n) == ParseHdr(mem, bufLen, niph)
    {
      var (stop, g) := Round(i, mem, pos, mem[i], n, bufLen);
      n := g.n;
      if stop {
        return g.len, n;
      }
      i, pos := i + 1, pos + g.len;
    }
    ret := Check(n);
  }

  // ---- What a parse tells ----

  lemma {:induction false} ParseFromWithin(mem: seq<byte>, bufLen: nat, num: nat, i: nat, pos: nat, n: Niph)
    requires num <= BITMAP_MAX && Sound(n) && |mem| >= 29
    requires pos <= num + (if i == 0 then 0 else if i == 1 then 20 else 21)
    requires i > 0 ==> n.realLen < bufLen
    requires if i <= 1 then !n.hasHdrLen && n.hdrLen == 0 else HdrLenFits(n, bufLen)
    requires i < num
    ensures var g := ParseFrom(mem, bufLen, num, i, pos, n);
            g.len >= 0 ==> g.n.realLen < bufLen && (g.n.hasTotalLen ==> g.len < bufLen)
    decreases num - i
  {
    hide Factory;
    if i < FACTORY_NUM_MAX {
      var (stop, g) := Round(i, mem, pos, mem[i], n, bufLen);
      if !stop && i + 1 < num {
        ParseFromWithin(mem, bufLen, num, i + 1, pos + g.len, g.n);
      }
    }
  }

  /** Nothing but the header length and its bookkeeping differs. */
  predicate SameFields(n: Niph, n': Niph) {
    n' == n.(hdrLen := n'.hdrLen, hasHdrLen := n'.hasHdrLen, unknown := n'.unknown, realLen := n'.realLen)
  }

  /** The parsers behind the first leave its fields alone, and fail in their own ways. */
  lemma {:induction false} LaterRounds(mem: seq<byte>, bufLen: nat, num: nat, i: nat, pos: nat, n: Niph)
    requires num <= BITMAP_MAX && Sound(n) && |mem| >= 29 && i >= 1
    requires pos <= num + if i == 1 then 20 else 21
    ensures var g := ParseFrom(mem, bufLen, num, i, pos, n);
            SameFields(n, g.n) && (g.len < 0 ==> -13 <= g.len <= -10)
    decreases num - i
  {
    hide Bitmap0, Bitmap1, Bit, Round, Factory;
    if i < num && i < FACTORY_NUM_MAX {
      LaterRound(i, mem, pos, mem[i], n, bufLen);
      var (stop, g) := Round(i, mem, pos, mem[i], n, bufLen);
      if !stop { LaterRounds(mem, bufLen, num, i + 1, pos + g.len, g.n); }
    }
  }

  lemma LaterRound(i: nat, mem: seq<byte>, pos: nat, bm: byte, n: Niph, bufLen: nat)
    requires pos + Room(i) <= |mem| && Sound(n) && i >= 1
    ensures var (stop, g) := Round(i, mem, pos, bm, n, bufLen);
            SameFields(n, g.n) && (stop ==> -13 <= g.len <= -10)
  {
    hide Bitmap0, Bitmap1;
    if i == 1 { SecondParser(mem, pos, bm, n, bufLen); }
  }

  lemma SecondParser(mem: seq<byte>, pos: nat, bm: byte, n: Niph, bufLen: nat)
    requires pos < |mem| && Sound(n)
    ensures var g := Bitmap1(mem, pos, bm, n, bufLen);
            SameFields(n, g.n) && g.n.realLen == n.realLen && (g.len < 0 ==> g.len == -13)
  {
    hide Bit;
  }

  lemma {:induction false} NoLastBitmap(mem: seq<byte>, i: nat)
    requires |mem| >= BITMAP_MAX
    ensures BitmapNum(mem, i) == -2 <==> forall k :: i <= k < BITMAP_MAX ==> Bit(mem[k], MORE)
    decreases BITMAP_MAX - i
  {
    hide Bit;
    if i < BITMAP_MAX && Bit(mem[i], MORE) { NoLastBitmap(mem, i + 1); }
  }

  /** The parse behind the bitmaps, up to the end of the first parser. */
  lemma ParseSteps(mem: seq<byte>, bufLen: nat, n: Niph)
    requires |mem| >= 29 && Sound(n) && !Bit(mem[0], INVALID_SET) && BitmapNum(mem, 0) > 0
    ensures var num := BitmapNum(mem, 0);
            var g, r := Bitmap0(mem, num, mem[0], n.(realLen := num)), ParseHdr(mem, bufLen, n);
            if g.len < 0 then r == g else SameFields(g.n, r.n) && (r.len < 0 ==> -13 <= r.len <= -10)
  {
    hide Bitmap0, Bitmap1, Bit, BitmapNum, Check;
    var num := BitmapNum(mem, 0);
    var n1 := n.(realLen := num);
    assert Factory(0, mem, num, mem[0], n1, bufLen) == Bitmap0(mem, num, mem[0], n1);
    var (stop, g) := Round(0, mem, num, mem[0], n1, bufLen);
    if !stop { LaterRounds(mem, bufLen, num, 1, num + g.len, g.n); }
  }

  lemma Bitmap0Codes(mem: seq<byte>, pos: nat, bm: byte, n: Niph)
    requires pos + 20 <= |mem| && Sound(n)
    ensures var r := Bitmap0(mem, pos, bm, n).len;
            && -8 <= r && r != -1 && r != -2
            && (r == -3 <==> !Bit(bm, TTL))
            && (r == -4 <==> Bit(bm, TTL) && !Bit(bm, NEXT_HDR))
            && (r == -5 <==> Bit(bm, TTL) && Bit(bm, NEXT_HDR) && !Bit(bm, DADDR))
  {
    hide DecodeAt;
  }

  /** Which packets are turned away for their bitmaps, and with which code: bit 7 of the
      first byte; more than eight bitmaps (bit 0 says that another follows); no TTL (bit 6),
      no protocol (bit 4) or no destination (bit 2). */
  lemma BitmapCodes(mem: seq<byte>, bufLen: nat, n: Niph)
    requires |mem| >= 29 && Sound(n)
    ensures var r, b := ParseHdr(mem, bufLen, n).len, mem[0];
            var fine := !Bit(b, 0x80) && exists k :: 0 <= k < BITMAP_MAX && !Bit(mem[k], 0x01);
            && (r == -1 <==> Bit(b, 0x80))
            && (r == -2 <==> !Bit(b, 0x80) && !fine)
            && (r == -3 <==> fine && !Bit(b, 0x40))
            && (r == -4 <==> fine && Bit(b, 0x40) && !Bit(b, 0x10))
            && (r == -5 <==> fine && Bit(b, 0x40) && Bit(b, 0x10) && !Bit(b, 0x04))
  {
    hide Bitmap0, Bit, BitmapNum, ParseHdr;
    NoLastBitmap(mem, 0);
    InvalidSet(mem, bufLen, n);
    if !Bit(mem[0], INVALID_SET) && BitmapNum(mem, 0) > 0 {
      ParseSteps(mem, bufLen, n);
      var num := BitmapNum(mem, 0);
      Bitmap0Codes(mem, num, mem[0], n.(realLen := num));
    }
  }

  lemma InvalidSet(mem: seq<byte>, bufLen: nat, n: Niph)
    requires |mem| >= 29 && Sound(n)
    ensures Bit(mem[0], INVALID_SET) ==> ParseHdr(mem, bufLen, n).len == -1
    ensures !Bit(mem[0], INVALID_SET) && BitmapNum(mem, 0) <= 0 ==> ParseHdr(mem, bufLen, n).len == -2
  {
    hide ParseFrom, Bit;
  }

  /** What a successful parse has read, and where: behind the bitmaps the TTL, the total
      length if the packet has one, the protocol, the destination and the source if it
      has one, whose codes are valid. */
  lemma ParseReads(mem: seq<byte>, bufLen: nat, n: Niph)
    requires |mem| >= 29 && Cleared(n) && ParseHdr(mem, bufLen, n).len > 0
    ensures !Bit(mem[0], INVALID_SET) && BitmapNum(mem, 0) > 0
    ensures var m, num := ParseHdr(mem, bufLen, n).n, BitmapNum(mem, 0);
            var t := if Bit(mem[0], TOTAL_LEN) then 2 else 0;
            && m.ttl == mem[num] && m.nexthdr == mem[num + 1 + t]
            && (m.hasTotalLen <==> t == 2) && (t == 2 ==> m.totalLen == (mem[num + 1] as int) * 256 + mem[num + 2])
            && DecodeAt(mem, num + 2 + t, n.daddr) == (true, m.daddr)
            && (if Bit(mem[0], SADDR) then DecodeAt(mem, num + 2 + t + m.daddr.bitlen / 8, n.saddr) == (true, m.saddr)
                else m.saddr == n.saddr)
  {
    hide Bitmap0, DecodeAt, ZeroFrom, Bit, BitmapNum, ParseHdr;
    InvalidSet(mem, bufLen, n);
    ParseSteps(mem, bufLen, n);
    var num := BitmapNum(mem, 0);
    Bitmap0Reads(mem, num, mem[0], n.(realLen := num));
  }

  /** Without a header length none is taken for one. */
  predicate NoHdrLen(n: Niph) {
    !n.hasHdrLen ==> n.hdrLen == 0
  }

  lemma {:induction false} ReturnsCheck(mem: seq<byte>, bufLen: nat, num: nat, i: nat, pos: nat, n: Niph)
    requires num <= BITMAP_MAX && Sound(n) && |mem| >= 29 && NoHdrLen(n)
    requires pos <= num + (if i == 0 then 0 else if i == 1 then 20 else 21)
    ensures var g := ParseFrom(mem, bufLen, num, i, pos, n); g.len >= 0 ==> g.len == Check(g.n) && NoHdrLen(g.n)
    decreases num - i
  {
    hide Bitmap0, Bitmap1, Bit, Round, Check;
    if i < num && i < FACTORY_NUM_MAX {
      RoundKeepsNone(i, mem, pos, mem[i], n, bufLen);
      var (stop, g) := Round(i, mem, pos, mem[i], n, bufLen);
      if !stop { ReturnsCheck(mem, bufLen, num, i + 1, pos + g.len, g.n); }
    }
  }

  lemma RoundKeepsNone(i: nat, mem: seq<byte>, pos: nat, bm: byte, n: Niph, bufLen: nat)
    requires pos + Room(i) <= |mem| && Sound(n) && NoHdrLen(n)
    ensures var (stop, g) := Round(i, mem, pos, bm, n, bufLen); if stop then g.len < 0 else NoHdrLen(g.n)
  {
    hide Bitmap0, Bit;
  }

  /** What a successful parse returns: the header length, if the packet has one, which then
      covers all that was read; otherwise how much was read, and only if no bit was unknown. */
  lemma ParseReturns(mem: seq<byte>, bufLen: nat, n: Niph)
    requires |mem| >= 29 && Cleared(n) && ParseHdr(mem, bufLen, n).len > 0
    ensures var g := ParseHdr(mem, bufLen, n);
            if g.n.hasHdrLen then g.len == g.n.hdrLen >= g.n.realLen else g.len == g.n.realLen && !g.n.unknown
  {
    hide Bitmap0, Bit, BitmapNum;
    var num := BitmapNum(mem, 0);
    if !Bit(mem[0], INVALID_SET) && num > 0 {
      ReturnsCheck(mem, bufLen, num, 0, num, n.(realLen := num));
    }
  }

  lemma Bitmap0Reads(mem: seq<byte>, pos: nat, bm: byte, n: Niph)
    requires pos + 20 <= |mem| && Cleared(n) && Bitmap0(mem, pos, bm, n).len >= 0
    ensures var m := Bitmap0(mem, pos, bm, n).n; var t := if Bit(bm, TOTAL_LEN) then 2 else 0;
            && m.ttl == mem[pos] && m.nexthdr == mem[pos + 1 + t]
            && (m.hasTotalLen <==> t == 2) && (t == 2 ==> m.totalLen == (mem[pos + 1] as int) * 256 + mem[pos + 2])
            && DecodeAt(mem, pos + 2 + t, n.daddr) == (true, m.daddr)
            && (if Bit(bm, SADDR) then DecodeAt(mem, pos + 2 + t + m.daddr.bitlen / 8, n.saddr) == (true, m.saddr)
                else m.saddr == n.saddr)
  {
    hide Bit, DecodeAt, ZeroFrom;
  }

  /** A successful parse has read less than the buffer holds, and when the packet names
      its total length the returned offset lies inside the buffer. */
  lemma OffsetInBuffer(mem: seq<byte>, bufLen: nat, n: Niph)
    requires |mem| >= 29 && Sound(n) && !n.hasHdrLen && n.hdrLen == 0
    ensures var g := ParseHdr(mem, bufLen, n);
            g.len > 0 ==> g.n.realLen < bufLen && (g.n.hasTotalLen ==> g.len < bufLen)
  {
    var num := BitmapNum(mem, 0);
    if !Bit(mem[0], INVALID_SET) && num > 0 {
      ParseFromWithin(mem, bufLen, num, 0, num, n.(realLen := num));
    }
  }

  /** Where the header length of a two-byte bitmap lies: behind the first one's fields. */
  function HdrLenAt(mem: seq<byte>, n: Niph): (at: nat)
    requires |mem| >= 29 && Sound(n) && !Bit(mem[0], INVALID_SET) && BitmapNum(mem, 0) > 1
    ensures at < |mem|
  {
    var num := BitmapNum(mem, 0);
    var g := Bitmap0(mem, num, mem[0], n.(realLen := num));
    num + if g.len < 0 then 0 else g.len
  }

  /** The packet names no total length, but a header length that is none of its own. */
  predicate NamesTooMuch(mem: seq<byte>, bufLen: nat, n: Niph)
    requires |mem| >= 29 && Sound(n) && !Bit(mem[0], INVALID_SET)
  {
    && !Bit(mem[0], TOTAL_LEN) && BitmapNum(mem, 0) > 1 && Bit(mem[1], HDR_LEN)
    && mem[HdrLenAt(mem, n)] >= bufLen
  }

  lemma TotalLenRead(mem: seq<byte>, pos: nat, bm: byte, n: Niph)
    requires pos + 20 <= |mem| && Sound(n) && !n.hasTotalLen && Bitmap0(mem, pos, bm, n).len >= 0
    ensures Bitmap0(mem, pos, bm, n).n.hasTotalLen <==> Bit(bm, TOTAL_LEN)
    ensures Bitmap0(mem, pos, bm, n).n.realLen == n.realLen
  {
    hide DecodeAt;
  }

  /** The bitmaps behind the second change neither length. */
  lemma TailKeepsLengths(mem: seq<byte>, bufLen: nat, num: nat, i: nat, pos: nat, n: Niph)
    requires num <= BITMAP_MAX && Sound(n) && |mem| >= 29 && i >= 2 && pos <= num + 21
    ensures var g := ParseFrom(mem, bufLen, num, i, pos, n);
            g.len >= 0 ==> g.len == if n.hdrLen > n.realLen then n.hdrLen else n.realLen
    decreases num - i
  {
    hide Bitmap0, Bitmap1;
    if i < num && i < FACTORY_NUM_MAX {
      var (stop, g) := Round(i, mem, pos, mem[i], n, bufLen);
      if !stop { TailKeepsLengths(mem, bufLen, num, i + 1, pos + g.len, g.n); }
    }
  }

  lemma FirstRound(mem: seq<byte>, bufLen: nat, num: nat, n: Niph)
    requires |mem| >= 29 && 0 < num <= BITMAP_MAX && Cleared(n) && n.realLen == num
    requires ParseFrom(mem, bufLen, num, 0, num, n).len > 0
    ensures var g := Bitmap0(mem, num, mem[0], n);
            && g.len >= 0 && num + g.len < bufLen
            && (ParseFrom(mem, bufLen, num, 0, num, n).len >= bufLen <==>
                !Bit(mem[0], TOTAL_LEN) && num > 1 && Bit(mem[1], HDR_LEN) && mem[num + g.len] >= bufLen)
  {
    hide Bitmap0, Bit;
    var (stop, g) := Round(0, mem, num, mem[0], n, bufLen);
    assert Factory(0, mem, num, mem[0], n, bufLen) == Bitmap0(mem, num, mem[0], n);
    TotalLenRead(mem, num, mem[0], n);
    if num > 1 {
      SecondRound(mem, bufLen, num, num + g.len, g.n);
    }
  }

  lemma SecondRound(mem: seq<byte>, bufLen: nat, num: nat, pos: nat, n: Niph)
    requires |mem| >= 29 && 1 < num <= BITMAP_MAX && Sound(n) && pos <= num + 20 && n.realLen < bufLen
    requires !n.hasHdrLen && n.hdrLen == 0 && ParseFrom(mem, bufLen, num, 1, pos, n).len > 0
    ensures ParseFrom(mem, bufLen, num, 1, pos, n).len >= bufLen <==>
            !n.hasTotalLen && Bit(mem[1], HDR_LEN) && mem[pos] >= bufLen
  {
    hide Bitmap0, Bit;
    var (stop, g) := Round(1, mem, pos, mem[1], n, bufLen);
    if !stop { TailKeepsLengths(mem, bufLen, num, 2, pos + g.len, g.n); }
  }

  /** The exact condition: the offset of a successful parse lies beyond the buffer if and
      only if the packet names no total length and a header length of at least the
      buffer's: it is then taken as it is. */
  lemma OffsetBeyondIff(mem: seq<byte>, bufLen: nat, n: Niph)
    requires |mem| >= 29 && Cleared(n) && ParseHdr(mem, bufLen, n).len > 0
    ensures !Bit(mem[0], INVALID_SET)
    ensures ParseHdr(mem, bufLen, n).len >= bufLen <==> NamesTooMuch(mem, bufLen, n)
  {
    hide Bitmap0;
    var num := BitmapNum(mem, 0);
    FirstRound(mem, bufLen, num, n.(realLen := num));
  }

  /** Such a packet: two bitmap bytes, TTL, protocol, the address 5 and a header length
      of 200 in a buffer of 8 bytes. The parser answers 200. */
  lemma OffsetCanExceedBuffer(n: Niph)
    requires Cleared(n)
    ensures var mem := TOO_MUCH; |mem| == 29 && ParseHdr(mem, 8, n).len == 200
  {
    hide Bitmap0, Bit, BitmapNum;
    var mem, n1 := TOO_MUCH, n.(realLen := 2);
    TooMuchBits(mem);
    TooMuchFields(mem, n1);
    var n2 := Bitmap0(mem, 2, mem[0], n1).n;
    var n3 := n2.(realLen := 5);
    assert Round(0, mem, 2, mem[0], n1, 8) == (false, Got(3, n3));
    var n4 := n3.(hdrLen := 200, hasHdrLen := true, realLen := 6);
    assert Round(1, mem, 5, mem[1], n3, 8) == (false, Got(1, n4));
    assert ParseFrom(mem, 8, 2, 2, 6, n4) == Got(Check(n4), n4);
    assert ParseFrom(mem, 8, 2, 1, 5, n3) == ParseFrom(mem, 8, 2, 2, 6, n4);
  }

  const TOO_MUCH: seq<byte> := [0x55, 0x80, 64, 17, 5, 200, 0, 0, 0, 0, 0, 0, 0, 0, 0, 0, 0, 0, 0, 0, 0, 0, 0, 0, 0, 0, 0, 0, 0]

  lemma TooMuchBits(mem: seq<byte>)
    requires |mem| >= 29 && mem[0] == 0x55 && mem[1] == 0x80
    ensures !Bit(mem[0], INVALID_SET) && BitmapNum(mem, 0) == 2 && Bit(mem[1], HDR_LEN)
    ensures Bit(mem[0], TTL) && !Bit(mem[0], TOTAL_LEN) && Bit(mem[0], NEXT_HDR) && Bit(mem[0], DADDR) && !Bit(mem[0], SADDR)
  {
    assert BitmapNum(mem, 1) == 2;
  }

  lemma TooMuchFields(mem: seq<byte>, n: Niph)
    requires |mem| >= 29 && mem[0] == 0x55 && mem[1] == 0x80 && mem[4] == 5 && Sound(n) && ZeroFrom(n.daddr.field, 0)
    requires !n.hasTotalLen
    ensures var g := Bitmap0(mem, 2, mem[0], n);
            && g.len == 3 && g.n.realLen == n.realLen && g.n.unknown == n.unknown && !g.n.hasTotalLen
  {
    hide Bit;
    TooMuchBits(mem);
    var a := Filled(mem[4..5], n.daddr.field);
    assert Used(a) == [5];
    assert ValidAddr(a);
    assert DecodeAt(mem, 4, n.daddr) == (true, a);
  }

  // ---- Round trip ----

  /** A niph that has been cleared. */
  predicate Cleared(n: Niph) {
    && Sound(n) && ZeroFrom(n.saddr.field, 0) && ZeroFrom(n.daddr.field, 0)
    && n.hdrLen == 0 && !n.unknown && !n.hasHdrLen && !n.hasTotalLen
  }

  /** What the parser should find. */
  function Expected(f: Fields, n: Niph): Niph
    requires Writable(f)
  {
    var m := n.(saddr := f.saddr, daddr := f.daddr, ttl := f.ttl, nexthdr := f.nexthdr, realLen := |Header(f)|,
                hasSaddr := true, hasDaddr := true, hasTtl := true, hasNexthdr := true);
    if f.comm then m.(totalLen := f.totalLen, hasTotalLen := true) else m
  }

  lemma BitmapBits(b: byte)
    requires b == 0x56 || b == 0x57 || b == 0x76 || b == 0x77
    ensures !Bit(b, INVALID_SET) && Bit(b, TTL) && Bit(b, NEXT_HDR) && Bit(b, DADDR) && Bit(b, SADDR)
    ensures Bit(b, TOTAL_LEN) <==> b >= 0x76
    ensures Bit(b, MORE) <==> b == 0x57 || b == 0x77
  {
  }

  /** An address in memory decodes into a cleared target as itself. */
  lemma AddrReads(mem: seq<byte>, pos: nat, a: Addr, zero: Addr)
    requires Shaped(a) && ValidAddr(a) && a.bitlen % 8 == 0 && Shaped(zero) && ZeroFrom(zero.field, 0)
    requires pos + 8 <= |mem| && mem[pos..pos + |Used(a)|] == Used(a)
    ensures DecodeAt(mem, pos, zero) == (true, a)
  {
    UsedLen(a);
    DecodeOfBuild(a, zero.field);
    assert mem[pos] == mem[pos..pos + |Used(a)|][0] == Used(a)[0];
  }

  /** mem holds t from pos on. */
  predicate Holds(mem: seq<byte>, pos: nat, t: seq<byte>) {
    pos + |t| <= |mem| && mem[pos..pos + |t|] == t
  }

  lemma HoldsParts(mem: seq<byte>, pos: nat, s: seq<byte>, t: seq<byte>)
    requires Holds(mem, pos, s + t)
    ensures Holds(mem, pos, s) && Holds(mem, pos + |s|, t)
  {
    var w := mem[pos..pos + |s + t|];
    assert mem[pos..pos + |s|] == w[..|s|];
    assert mem[pos + |s|..pos + |s| + |t|] == w[|s|..];
  }

  /** Where the fields of the header lie. */
  lemma HeaderParts(mem: seq<byte>, f: Fields)
    requires Writable(f) && Holds(mem, 0, Header(f))
    ensures var b := |Bitmap(f)|; var l := |TotalLenBytes(f)|; var d := |Used(f.daddr)|;
            && Holds(mem, 0, Bitmap(f)) && Holds(mem, b, [f.ttl]) && Holds(mem, b + 1, TotalLenBytes(f))
            && Holds(mem, b + 1 + l, [f.nexthdr])
            && Holds(mem, b + 2 + l, Used(f.daddr)) && Holds(mem, b + 2 + l + d, Used(f.saddr))
            && b < |Header(f)| <= 22
  {
    var h1 := Bitmap(f) + [f.ttl];
    var h2 := h1 + TotalLenBytes(f);
    var h3 := h2 + [f.nexthdr];
    HoldsParts(mem, 0, h3 + Used(f.daddr), Used(f.saddr));
    HoldsParts(mem, 0, h3, Used(f.daddr));
    HoldsParts(mem, 0, h2, [f.nexthdr]);
    HoldsParts(mem, 0, h1, TotalLenBytes(f));
    HoldsParts(mem, 0, Bitmap(f), [f.ttl]);
    HeaderLength(f);
    UsedLen(f.daddr);
    UsedLen(f.saddr);
  }

  lemma BitmapCount(mem: seq<byte>, f: Fields)
    requires Writable(f) && |mem| >= 29 && Holds(mem, 0, Bitmap(f))
    ensures BitmapNum(mem, 0) == |Bitmap(f)| && mem[0] == Bitmap(f)[0]
    ensures |Bitmap(f)| == 2 ==> mem[1] == 0
  {
    var b := Bitmap(f);
    assert mem[0] == mem[0..|b|][0];
    BitmapBits(b[0]);
    if |b| == 2 { assert mem[1] == mem[0..|b|][1]; }
  }

  lemma ScalarsRead(mem: seq<byte>, f: Fields)
    requires Writable(f) && Holds(mem, 0, Header(f))
    ensures var b, l := |Bitmap(f)|, |TotalLenBytes(f)|;
            && b + 2 + l <= |mem| && mem[b] == f.ttl && mem[b + 1 + l] == f.nexthdr
            && (f.comm ==> l == 2 && mem[b + 1] == f.totalLen / 256 && mem[b + 2] == f.totalLen % 256)
  {
    HeaderParts(mem, f);
    var b, l := |Bitmap(f)|, |TotalLenBytes(f)|;
    assert mem[b] == mem[b..b + 1][0] == f.ttl;
    assert mem[b + 1 + l] == mem[b + 1 + l..b + 2 + l][0] == f.nexthdr;
    if f.comm {
      var t := mem[b + 1..b + 3];
      assert mem[b + 1] == t[0] && mem[b + 2] == t[1];
    }
  }

  lemma AddrsRead(mem: seq<byte>, f: Fields, n: Niph)
    requires Writable(f) && |mem| >= 29 && Holds(mem, 0, Header(f)) && Cleared(n)
    ensures var at, d := |Bitmap(f)| + 2 + |TotalLenBytes(f)|, f.daddr.bitlen / 8;
            && 1 <= d <= 8
            && DecodeAt(mem, at, n.daddr) == (true, f.daddr)
            && DecodeAt(mem, at + d, n.saddr) == (true, f.saddr)
            && at + d + f.saddr.bitlen / 8 == |Header(f)|
  {
    HeaderParts(mem, f);
    UsedLen(f.daddr);
    UsedLen(f.saddr);
    var at := |Bitmap(f)| + 2 + |TotalLenBytes(f)|;
    AddrReads(mem, at, f.daddr, n.daddr);
    AddrReads(mem, at + |Used(f.daddr)|, f.saddr, n.saddr);
  }

  /** The first parser reads every field back. */
  lemma FieldsRead(mem: seq<byte>, f: Fields, n: Niph)
    requires Writable(f) && |mem| >= 29 && Holds(mem, 0, Header(f)) && Cleared(n)
    ensures var b := |Bitmap(f)|;
            var g := Bitmap0(mem, b, Bitmap(f)[0], n);
            g == Got(|Header(f)| - b, Expected(f, n).(realLen := n.realLen))
  {
    hide Holds, DecodeAt, Header, ValidAddr, Bit;
    BitmapBits(Bitmap(f)[0]);
    ScalarsRead(mem, f);
    AddrsRead(mem, f, n);
  }

  /** What was written is read back: from a header followed by at least one byte, in a
      buffer with room to read, the parser returns the header's length and every field. */
  lemma RoundTrip(mem: seq<byte>, bufLen: nat, f: Fields, n: Niph)
    requires Writable(f) && |mem| >= 29 && Holds(mem, 0, Header(f)) && Cleared(n)
    requires |Header(f)| < bufLen
    ensures ParseHdr(mem, bufLen, n) == Got(|Header(f)|, Expected(f, n))
  {
    hide Bitmap0, Bitmap1, Bit, BitmapNum, Header, Holds;
    HeaderParts(mem, f);
    BitmapCount(mem, f);
    BitmapBits(mem[0]);
    var num := |Bitmap(f)|;
    FieldsRead(mem, f, n.(realLen := num));
    SecondBitmap(mem, bufLen, Expected(f, n), |Header(f)|);
  }

  lemma SecondBitmap(mem: seq<byte>, bufLen: nat, n: Niph, pos: nat)
    requires |mem| >= 29 && Sound(n) && pos <= 22 && n.realLen < bufLen
    ensures mem[1] == 0 ==> Round(1, mem, pos, mem[1], n, bufLen) == (false, Got(0, n))
  {
  }
}
