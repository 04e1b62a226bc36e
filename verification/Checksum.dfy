/** The Internet checksum over a pseudo-header (sections 1 and 2 of RFC 1071): 32-bit
    accumulation of 16-bit words with the carries folded in at the end. */
module Checksum {
  import opened Segments
  import opened NipAddr

  const TWO16: int := 0x1_0000
  const TWO32: int := 0x1_0000_0000

  /** The 16-bit word at k; a byte without a partner is the high half of its word. */
  function Word(s: seq<byte>, k: nat): nat
    requires k < |s|
  {
    (s[k] as int) * 256 + (if k + 1 < |s| then s[k + 1] else 0)
  }

  /** The sum of the words from k on. */
  function SumFrom(s: seq<byte>, k: nat): nat
    decreases |s| - k
  {
    if k >= |s| then 0 else Word(s, k) + SumFrom(s, k + 2)
  }

  /** Deferred carries fit: at most 65535 for each word. */
  lemma {:induction false} SumBound(s: seq<byte>, k: nat)
    ensures k < |s| ==> SumFrom(s, k) <= 65535 * ((|s| - k + 1) / 2)
    decreases |s| - k
  {
    if k < |s| { SumBound(s, k + 2); }
  }

  /** _nip_check_sum: never overflows 32 bits for a 16-bit length. */
  method CheckSum(data: seq<byte>) returns (sum: nat)
    requires |data| <= 0xFFFF
    ensures sum == SumFrom(data, 0) && sum <= 65535 * 32768
  {
    var i := 0;
    sum := 0;
    SumBound(data, 0);
    while i + 1 < |data|
      invariant 0 <= i <= |data| && i % 2 == 0 && sum + SumFrom(data, i) == SumFrom(data, 0)
      invariant sum <= SumFrom(data, 0)
    {
      sum := (sum + (data[i] as int) * 256 + data[i + 1]) % TWO32;
      i := i + 2;
    }
    if i < |data| {
      sum := (sum + (data[i] as int) * 256) % TWO32;
    }
  }

  // ---- The pseudo-header ----

  datatype Pseudo = Pseudo(saddr: Addr, daddr: Addr, checkLen: nat, nexthdr: byte)

  /** Addresses as the headers carry them, and a 16-bit length. */
  predicate Proper(p: Pseudo) {
    Shaped(p.saddr) && Shaped(p.daddr) && p.saddr.bitlen <= 64 && p.daddr.bitlen <= 64 && p.checkLen <= 0xFFFF
  }

  /** Both addresses, the length in network order, the protocol. */
  function PseudoBytes(p: Pseudo): (s: seq<byte>)
    requires Proper(p)
    ensures |s| <= 19
  {
    Used(p.saddr) + Used(p.daddr) + [p.checkLen / 256, p.checkLen % 256, p.nexthdr]
  }

  /** The layout: byte i of the source, then of the destination, then the length with its
      high byte first, then the protocol. */
  lemma PseudoLayout(p: Pseudo, i: nat)
    requires Proper(p)
    ensures var s := PseudoBytes(p); var a, b := |Used(p.saddr)|, |Used(p.daddr)|;
            && |s| == a + b + 3
            && (i < a ==> s[i] == p.saddr.field[i]) && (i < b ==> s[a + i] == p.daddr.field[i])
            && (s[a + b] as int) * 256 + s[a + b + 1] == p.checkLen && s[a + b + 2] == p.nexthdr
  {
  }

  const NIP_HDR_MAX: nat := 24

  /** Copies an address into the pseudo-header. */
  method PutAddr(hdr: array<byte>, at: nat, a: Addr) returns (next: nat)
    requires Shaped(a) && a.bitlen <= 64 && at + 8 <= hdr.Length
    modifies hdr
    ensures next == at + |Used(a)| <= hdr.Length
    ensures hdr[..next] == old(hdr[..at]) + Used(a)
  {
    var len := a.bitlen / 8;
    next := at;
    for i := 0 to len
      invariant next == at + i
      invariant hdr[..at] == old(hdr[..at]) && hdr[at..at + i] == a.field[..i]
    {
      hdr[next] := a.field[i];
      next := next + 1;
    }
    assert hdr[..next] == hdr[..at] + hdr[at..next];
  }

  lemma UsedFits(a: Addr)
    requires Shaped(a) && a.bitlen <= 64
    ensures |Used(a)| <= 8
  {
  }

  /** The pseudo-header, filled in byte by byte. */
  method FillPseudo(p: Pseudo) returns (s: seq<byte>)
    requires Proper(p)
    ensures s == PseudoBytes(p)
  {
    hide Used;
    UsedFits(p.saddr);
    UsedFits(p.daddr);
    var hdr := new byte[NIP_HDR_MAX](i => 0);
    var len := PutAddr(hdr, 0, p.saddr);
    assert hdr[..0] == [];
    len := PutAddr(hdr, len, p.daddr);
    ghost var addrs := hdr[..len];
    hdr[len], hdr[len + 1], hdr[len + 2] := p.checkLen / 256, p.checkLen % 256, p.nexthdr;
    assert hdr[..len] == addrs;
    s := hdr[..len + 3];
  }

  /** _nip_header_chksum. */
  method HeaderChksum(p: Pseudo) returns (sum: nat)
    requires Proper(p)
    ensures sum == SumFrom(PseudoBytes(p), 0) && sum <= 65535 * 10
  {
    var hdr := FillPseudo(p);
    sum := CheckSum(hdr);
    SumBound(PseudoBytes(p), 0);
  }

  // ---- Folding ----

  /** The value in 1..65535 congruent to x modulo 65535, or 0 for 0. */
  function Norm(x: nat): (r: nat)
    ensures r <= 65535 && (r == 0 <==> x == 0)
  {
    if x == 0 then 0 else (x - 1) % 65535 + 1
  }

  lemma ModShift(k: int, a: int)
    ensures (65535 * k + a) % 65535 == a % 65535
  {
    assert 65535 * k + a == 65535 * (k + a / 65535) + a % 65535;
  }

  /** The fold loop: terminates and leaves the normal form. */
  method Fold(x: nat) returns (sum: nat)
    requires x < TWO32
    ensures sum == Norm(x)
  {
    sum := x;
    while sum / TWO16 != 0
      invariant 0 <= sum < TWO32 && Norm(sum) == Norm(x)
      decreases sum
    {
      sum := sum / TWO16 + sum % TWO16;
    }
  }

  /** Addition with end-around carry. */
  function OnesAdd(a: nat, b: nat): nat {
    if a + b > 65535 then a + b - 65535 else a + b
  }

  /** The reference: word by word, the carry brought around at once. */
  function OnesSum(s: seq<byte>, k: nat): nat
    decreases |s| - k
  {
    if k >= |s| then 0 else OnesAdd(Word(s, k), OnesSum(s, k + 2))
  }

  /** Deferring the carries changes nothing: the folded sum is the end-around-carry sum. */
  lemma {:induction false} FoldIsOnesSum(s: seq<byte>, k: nat)
    ensures Norm(SumFrom(s, k)) == OnesSum(s, k)
    decreases |s| - k
  {
    if k < |s| {
      FoldIsOnesSum(s, k + 2);
    }
  }

  // ---- Build and parse ----

  function Total(data: seq<byte>, p: Pseudo): nat
    requires Proper(p)
  {
    SumFrom(data, 0) + SumFrom(PseudoBytes(p), 0)
  }

  /** nip_check_sum_parse. */
  method Parse(data: seq<byte>, p: Pseudo) returns (r: nat)
    requires |data| <= 0xFFFF && Proper(p)
    ensures r == Norm(Total(data, p))
  {
    var sum := CheckSum(data);
    var hdr := HeaderChksum(p);
    r := Fold((sum + hdr) % TWO32);
  }

  /** nip_check_sum_build. */
  method Build(data: seq<byte>, p: Pseudo) returns (r: nat)
    requires |data| <= 0xFFFF && Proper(p)
    ensures r == 65535 - Norm(Total(data, p))
  {
    var sum := CheckSum(data);
    var hdr := HeaderChksum(p);
    sum := Fold((sum + hdr) % TWO32);
    r := 0xFFFF - sum;
  }

  /** The two strings agree outside the word at the even offset k. */
  ghost predicate DifferAt(s: seq<byte>, t: seq<byte>, k: nat) {
    && |s| == |t| && k % 2 == 0 && k < |s|
    && forall i :: 0 <= i < |s| && i != k && i != k + 1 ==> s[i] == t[i]
  }

  lemma {:induction false} SumAgrees(s: seq<byte>, t: seq<byte>, k: nat, j: nat)
    requires DifferAt(s, t, k) && k < j
    ensures SumFrom(s, j + j % 2) == SumFrom(t, j + j % 2)
    decreases |s| - j
  {
    if j + j % 2 < |s| { SumAgrees(s, t, k, j + j % 2 + 2); }
  }

  lemma {:induction false} SumDiffers(s: seq<byte>, t: seq<byte>, k: nat, j: nat)
    requires DifferAt(s, t, k) && j <= k && j % 2 == 0
    ensures SumFrom(t, j) == SumFrom(s, j) - Word(s, k) + Word(t, k)
    decreases k - j
  {
    if j < k {
      SumDiffers(s, t, k, j + 2);
    } else {
      SumAgrees(s, t, k, k + 2);
    }
  }

  /** The bytes of the checksum written big-endian at offset o. */
  function Stamped(data: seq<byte>, o: nat, check: nat): seq<byte>
    requires o + 1 < |data| && check <= 65535
  {
    data[o := check / 256][o + 1 := check % 256]
  }

  lemma NormOfMultiple(x: nat)
    requires x > 0
    ensures Norm(x) == 65535 <==> x % 65535 == 0
  {
    var q, r := x / 65535, x % 65535;
    if r == 0 {
      ModShift(q - 1, 65534);
      assert x - 1 == 65535 * (q - 1) + 65534;
    } else {
      ModShift(q, r - 1);
      assert x - 1 == 65535 * q + (r - 1);
    }
  }

  /** What was built parses to 0xffff, for every even zeroed offset and both parities
      of the length. */
  lemma BuildThenParse(data: seq<byte>, o: nat, p: Pseudo)
    requires Proper(p) && o % 2 == 0 && o + 1 < |data| && data[o] == 0 && data[o + 1] == 0
    ensures Norm(Total(Stamped(data, o, 65535 - Norm(Total(data, p))), p)) == 65535
  {
    var t := Total(data, p);
    var check := 65535 - Norm(t);
    var d := Stamped(data, o, check);
    SumDiffers(data, d, o, 0);
    assert Word(d, o) == check;
    NormOfMultiple(t + check);
  }

  /** Changing one aligned word of a good packet is noticed, except for the swap of
      0x0000 and 0xffff (which is noticed too when nothing else is left). */
  lemma OneWordIsNoticed(s: seq<byte>, t: seq<byte>, k: nat, p: Pseudo)
    requires Proper(p) && DifferAt(s, t, k) && s != t
    requires Norm(Total(s, p)) == 65535
    ensures Norm(Total(t, p)) == 65535 <==>
            Total(t, p) > 0 && ((Word(s, k) == 0 && Word(t, k) == 65535) || (Word(s, k) == 65535 && Word(t, k) == 0))
  {
    SumDiffers(s, t, k, 0);
    SameWordSameBytes(s, t, k);
    NormOfMultiple(Total(s, p));
    if Total(t, p) > 0 {
      NormOfMultiple(Total(t, p));
      Congruent(Total(s, p), Word(t, k) - Word(s, k));
    }
  }

  lemma SameWordSameBytes(s: seq<byte>, t: seq<byte>, k: nat)
    requires DifferAt(s, t, k)
    ensures Word(s, k) == Word(t, k) ==> s == t
  {
    if Word(s, k) == Word(t, k) {
      assert s[k] == t[k];
    }
  }

  lemma Congruent(x: nat, d: int)
    requires x % 65535 == 0 && -65535 <= d <= 65535 && d != 0
    ensures (x + d) % 65535 == 0 <==> d == 65535 || d == -65535
  {
    ModShift(x / 65535, d);
  }
}
