/** The variable-length NewIP address: its checks, and the encoding to and from bytes. */
module NipAddr {
  import opened Segments

  /** struct nip_addr: the length in bits and eight bytes, the used ones first. */
  datatype Addr = Addr(bitlen: byte, field: seq<byte>)

  predicate Shaped(a: Addr) {
    |a.field| == 8
  }

  /** get_nip_addr_len: the first byte tells the length; 0 for F4..FD. */
  function Len(first: byte): nat {
    if first <= 0xDC then 1
    else if first <= 0xF0 || first == 0xFF then 2
    else if first == 0xF1 then 3
    else if first == 0xF2 then 5
    else if first == 0xF3 then 7
    else if first == 0xFE then 8
    else 0
  }

  // ---- Validity ----

  const NOT_CURRENT: int := -1
  const VALID: int := 0
  const BITLEN_INVALID: int := 5
  const UNKNOWN: int := 6

  /** The table of checks, one per address class, in order. */
  function CheckFun(k: nat, first: byte, second: byte, third: byte, len: nat): int {
    match k
    case 0 => if first <= 0xDC && len == 1 then VALID else NOT_CURRENT
    case 1 =>
      if 0xDC < first <= 0xF0 && len == 2 then (if first > 0xDD || second >= 0xDD then VALID else 1) else NOT_CURRENT
    case 2 => if first == 0xF1 && len == 3 then (if second >= 0x14 then VALID else 2) else NOT_CURRENT
    case 3 => if first == 0xF2 && len == 5 then (if second > 0 || third >= 1 then VALID else 3) else NOT_CURRENT
    case 4 => if first == 0xF3 && len == 7 then (if second > 0 || third >= 1 then VALID else 4) else NOT_CURRENT
    case 5 => if first == 0xFE && len == 8 then VALID else NOT_CURRENT
    case 6 => if first == 0xFF && len == 2 then VALID else NOT_CURRENT
    case _ => UNKNOWN
  }

  const CHECK_FUN_MAX: nat := 8

  /** The bytes of an encoded address: the length its first byte announces, and no
      shorter code exists for the same value. */
  predicate Code(b: seq<byte>) {
    && b != [] && Len(b[0]) == |b|
    && (b[0] == 0xDD ==> b[1] >= 0xDD)
    && (b[0] == 0xF1 ==> b[1] >= 0x14)
    && (b[0] == 0xF2 || b[0] == 0xF3 ==> b[1] > 0 || b[2] >= 1)
  }

  /** The bytes an address uses. */
  function Used(a: Addr): seq<byte>
    requires Shaped(a)
  {
    a.field[..if a.bitlen / 8 < 8 then a.bitlen / 8 else 8]
  }

  predicate ZeroFrom(s: seq<byte>, i: nat) {
    forall k :: i <= k < |s| ==> s[k] == 0
  }

  /** nip_addr_invalid answers 0 exactly for a code, announced by bitlen, with nothing
      but zeros behind it. */
  predicate ValidAddr(a: Addr)
    requires Shaped(a)
  {
    a.bitlen / 8 <= 8 && Code(Used(a)) && ZeroFrom(a.field, a.bitlen / 8)
  }

  /** nip_addr_invalid. */
  method NipAddrInvalid(a: Addr) returns (ret: int)
    requires Shaped(a)
    ensures ret == 0 <==> ValidAddr(a)
  {
    var first, second, third := a.field[0], a.field[1], a.field[2];
    var len := a.bitlen / 8;
    var i := len;
    while i < 8
      invariant len <= i && forall k :: len <= k < i && k < 8 ==> a.field[k] == 0
    {
      if a.field[i] > 0 {
        return BITLEN_INVALID;
      }
      i := i + 1;
    }
    i := 0;
    ret := UNKNOWN;
    while i < CHECK_FUN_MAX
      invariant 0 <= i < CHECK_FUN_MAX
      invariant forall k :: 0 <= k < i ==> CheckFun(k, first, second, third, len) == NOT_CURRENT
    {
      ret := CheckFun(i, first, second, third, len);
      if ret == VALID {
        FirstCheck(i, a);
        return;
      } else if ret == NOT_CURRENT {
        i := i + 1;
        continue;
      } else {
        FirstCheck(i, a);
        return;
      }
    }
  }

  /** The first check that does not pass the address on decides as ValidAddr does. */
  lemma FirstCheck(i: nat, a: Addr)
    requires Shaped(a) && i < CHECK_FUN_MAX && ZeroFrom(a.field, a.bitlen / 8)
    requires forall k :: 0 <= k < i ==> CheckFun(k, a.field[0], a.field[1], a.field[2], a.bitlen / 8) == NOT_CURRENT
    requires CheckFun(i, a.field[0], a.field[1], a.field[2], a.bitlen / 8) != NOT_CURRENT
    ensures CheckFun(i, a.field[0], a.field[1], a.field[2], a.bitlen / 8) == VALID <==> ValidAddr(a)
  {
    var f, s, t, n := a.field[0], a.field[1], a.field[2], a.bitlen / 8;
    assert i > 0 ==> CheckFun(0, f, s, t, n) == NOT_CURRENT;
    assert i > 1 ==> CheckFun(1, f, s, t, n) == NOT_CURRENT;
    assert i > 2 ==> CheckFun(2, f, s, t, n) == NOT_CURRENT;
    assert i > 3 ==> CheckFun(3, f, s, t, n) == NOT_CURRENT;
    assert i > 4 ==> CheckFun(4, f, s, t, n) == NOT_CURRENT;
    assert i > 5 ==> CheckFun(5, f, s, t, n) == NOT_CURRENT;
    assert i > 6 ==> CheckFun(6, f, s, t, n) == NOT_CURRENT;
  }

  // ---- The integers behind the short addresses ----

  /** Big-endian value. */
  function BigEndian(s: seq<byte>): nat {
    if s == [] then 0 else BigEndian(s[..|s| - 1]) * 256 + s[|s| - 1]
  }

  /** The n lowest bytes of v, big-endian. */
  function Digits(v: nat, n: nat): (s: seq<byte>)
    ensures |s| == n
  {
    if n == 0 then [] else Digits(v / 256, n - 1) + [v % 256]
  }

  function Pow256(n: nat): nat {
    if n == 0 then 1 else 256 * Pow256(n - 1)
  }

  lemma {:induction false} DigitsOfValue(s: seq<byte>)
    ensures Digits(BigEndian(s), |s|) == s && BigEndian(s) < Pow256(|s|)
  {
    if s != [] {
      var t := s[..|s| - 1];
      DigitsOfValue(t);
      assert BigEndian(s) / 256 == BigEndian(t) && BigEndian(s) % 256 == s[|s| - 1];
      assert s == t + [s[|s| - 1]];
    }
  }

  lemma {:induction false} ValueOfDigits(v: nat, n: nat)
    requires v < Pow256(n)
    ensures BigEndian(Digits(v, n)) == v
  {
    if n > 0 {
      ValueOfDigits(v / 256, n - 1);
      var s := Digits(v, n);
      assert s[..|s| - 1] == Digits(v / 256, n - 1);
    }
  }

  /** A code of one of the five classes that count; FE and FF do not. */
  predicate Short(b: seq<byte>) {
    Code(b) && b[0] < 0xFE
  }

  /** The integer a short code stands for. */
  function Value(b: seq<byte>): nat
    requires Short(b)
  {
    if |b| == 1 then b[0]
    else if |b| == 2 then (b[0] - 0xDD) * 256 + b[1]
    else BigEndian(b[1..])
  }

  const VALUES: nat := 0x1_0000_0000_0000

  /** The code of an integer. */
  function Encode(v: nat): seq<byte>
    requires v < VALUES
  {
    if v <= 220 then [v]
    else if v <= 5119 then [0xDD + v / 256, v % 256]
    else if v <= 0xFFFF then [0xF1] + Digits(v, 2)
    else if v <= 0xFFFF_FFFF then [0xF2] + Digits(v, 4)
    else [0xF3] + Digits(v, 6)
  }

  lemma Powers()
    ensures Pow256(1) == 0x100 && Pow256(2) == 0x1_0000 && Pow256(4) == 0x1_0000_0000
    ensures Pow256(6) == 0x1_0000_0000_0000
  {
    assert Pow256(3) == 0x100_0000 && Pow256(5) == 0x100_0000_0000;
  }

  /** The value of a tail in terms of its leading bytes. */
  lemma {:induction false} Leading(s: seq<byte>)
    requires s != []
    ensures BigEndian(s) == s[0] * Pow256(|s| - 1) + BigEndian(s[1..])
  {
    if |s| == 1 {
      assert s[..0] == [] && s[1..] == [];
      assert Pow256(0) == 1;
    } else {
      var t := s[..|s| - 1];
      Leading(t);
      assert t[1..] == s[1..][..|s| - 2];
      assert BigEndian(s) == BigEndian(t) * 256 + s[|s| - 1];
      assert BigEndian(s[1..]) == BigEndian(t[1..]) * 256 + s[|s| - 1];
      Shift(s[0], Pow256(|s| - 2));
    }
  }

  lemma Shift(a: nat, p: nat)
    ensures a * (256 * p) == (a * p) * 256
  {
  }

  lemma ScaledRange(a: nat, p: nat)
    ensures a > 0 ==> a * p >= p
    ensures a == 0 ==> a * p == 0
  {
    if a > 0 { assert (a - 1) * p >= 0; }
  }

  /** Which integers each class of short codes holds. */
  lemma ValueRange(b: seq<byte>)
    requires Short(b)
    ensures |b| == 1 ==> 0 <= Value(b) <= 220
    ensures |b| == 2 ==> 221 <= Value(b) <= 5119
    ensures |b| == 3 ==> 5120 <= Value(b) <= 0xFFFF
    ensures |b| == 5 ==> 0x1_0000 <= Value(b) <= 0xFFFF_FFFF
    ensures |b| == 7 ==> 0x1_0000_0000 <= Value(b) < VALUES
  {
    Powers();
    if |b| >= 3 {
      var t := b[1..];
      DigitsOfValue(t);
      Leading(t);
      DigitsOfValue(t[1..]);
      if |b| >= 5 {
        Leading(t[1..]);
        FirstTwo(b);
      }
    }
  }

  lemma FirstTwo(b: seq<byte>)
    requires Short(b) && (|b| == 5 || |b| == 7)
    ensures BigEndian(b[1..]) >= Pow256(|b| - 3)
  {
    var t := b[1..];
    Leading(t);
    Leading(t[1..]);
    assert t[0] == b[1] && t[1..][0] == b[2];
    ScaledRange(t[0], Pow256(|t| - 1));
    ScaledRange(t[1..][0], Pow256(|t| - 2));
    assert Pow256(|t| - 1) == 256 * Pow256(|t| - 2);
  }

  /** One integer per code. */
  lemma EncodeOfValue(b: seq<byte>)
    requires Short(b)
    ensures Value(b) < VALUES && Encode(Value(b)) == b
  {
    ValueRange(b);
    if |b| >= 3 {
      DigitsOfValue(b[1..]);
      assert b == [b[0]] + b[1..];
    }
  }

  /** One code per integer. */
  lemma ValueOfEncode(v: nat)
    requires v < VALUES
    ensures Short(Encode(v)) && Value(Encode(v)) == v
  {
    Powers();
    var b := Encode(v);
    if v > 5119 {
      var n := |b| - 1;
      ValueOfDigits(v, n);
      assert b[1..] == Digits(v, n);
      LeadingDigits(v, n);
    }
  }

  /** The leading digits show whether a value needs its length. */
  lemma LeadingDigits(v: nat, n: nat)
    requires 5119 < v < Pow256(n) && (n == 2 || n == 4 || n == 6)
    requires n == 4 ==> v > 0xFFFF
    requires n == 6 ==> v > 0xFFFF_FFFF
    ensures n == 2 ==> Digits(v, n)[0] >= 0x14
    ensures n > 2 ==> Digits(v, n)[0] > 0 || Digits(v, n)[1] >= 1
  {
    Powers();
    var t := Digits(v, n);
    ValueOfDigits(v, n);
    Leading(t);
    DigitsOfValue(t[1..]);
    if n > 2 {
      Leading(t[1..]);
      DigitsOfValue(t[1..][1..]);
      assert t[1..][0] == t[1];
      assert Pow256(n - 1) == 256 * Pow256(n - 2);
      ScaledRange(t[0], Pow256(n - 1));
      ScaledRange(t[1], Pow256(n - 2));
    }
  }

  // ---- Order ----

  /** Lexicographic order of byte strings. */
  predicate Lex(a: seq<byte>, b: seq<byte>) {
    if b == [] then false
    else if a == [] then true
    else a[0] < b[0] || (a[0] == b[0] && Lex(a[1..], b[1..]))
  }

  lemma {:induction false} LexIsNumeric(a: seq<byte>, b: seq<byte>)
    requires |a| == |b|
    ensures Lex(a, b) <==> BigEndian(a) < BigEndian(b)
    decreases |a|
  {
    if a != [] {
      Leading(a);
      Leading(b);
      DigitsOfValue(a[1..]);
      DigitsOfValue(b[1..]);
      LexIsNumeric(a[1..], b[1..]);
      Compared(a[0], b[0], Pow256(|a| - 1), BigEndian(a[1..]), BigEndian(b[1..]));
    }
  }

  lemma OneMore(x: nat, y: nat, p: nat)
    requires x < y
    ensures x * p + p <= y * p
  {
    assert y * p == x * p + p + (y - x - 1) * p;
  }

  lemma Compared(x: nat, y: nat, p: nat, r: nat, s: nat)
    requires r < p && s < p
    ensures x * p + r < y * p + s <==> x < y || (x == y && r < s)
  {
    if x < y {
      OneMore(x, y, p);
    } else if y < x {
      OneMore(y, x, p);
    }
  }

  /** The byte order of codes is the order of their integers. */
  lemma OrderPreserved(a: seq<byte>, b: seq<byte>)
    requires Short(a) && Short(b)
    ensures Lex(a, b) <==> Value(a) < Value(b)
  {
    ValueRange(a);
    ValueRange(b);
    if a[0] == b[0] {
      LexIsNumeric(a[1..], b[1..]);
      if |a| == 2 { OneByte(a[1..]); OneByte(b[1..]); }
      if |a| == 1 { assert a[1..] == [] && b[1..] == []; }
    }
  }

  lemma OneByte(s: seq<byte>)
    requires |s| == 1
    ensures BigEndian(s) == s[0]
  {
    assert s[..0] == [];
    assert BigEndian(s[..0]) == 0;
  }

  /** No code is a proper prefix of another, in any class. */
  lemma PrefixFree(a: seq<byte>, b: seq<byte>)
    requires Code(a) && Code(b) && a <= b
    ensures a == b
  {
    assert a[0] == b[0];
    assert a == b[..|a|];
  }

  // ---- To and from memory ----

  /** build_nip_addr: copies the bytes of the address to buf; the position behind them,
      or nothing for an address without a length. */
  method BuildNipAddr(a: Addr, buf: array<byte>, at: nat) returns (ok: bool, p: nat)
    requires Shaped(a) && at + Len(a.field[0]) <= buf.Length
    modifies buf
    ensures ok <==> Len(a.field[0]) > 0
    ensures p == at + Len(a.field[0])
    ensures buf[..] == old(buf[..at]) + a.field[..Len(a.field[0])] + old(buf[p..])
  {
    var len := Len(a.field[0]);
    p := at;
    if len == 0 {
      assert buf[..] == buf[..at] + [] + buf[at..];
      return false, p;
    }
    for i := 0 to len
      invariant p == at + i
      invariant buf[..at] == old(buf[..at]) && buf[at + len..] == old(buf[at + len..])
      invariant buf[at..at + i] == a.field[..i]
    {
      buf[p] := a.field[i];
      p := p + 1;
    }
    ok := true;
    assert buf[..] == buf[..at] + buf[at..at + len] + buf[at + len..];
  }

  /** What decode_nip_addr leaves in its target: the code's bytes over what was there. */
  function Filled(code: seq<byte>, field: seq<byte>): Addr
    requires |code| <= |field| == 8
  {
    Addr(|code| * 8, code + field[|code|..])
  }

  /** The nip_addr a decoder fills in. */
  class AddrBuf {
    var bitlen: byte
    const field: array<byte>

    function View(): Addr
      reads this, field
    {
      Addr(bitlen, field[..])
    }

    constructor ()
      ensures fresh(field) && View() == Addr(0, [0, 0, 0, 0, 0, 0, 0, 0])
    {
      bitlen := 0;
      var f := new byte[8](i => 0);
      field := f;
      new;
      assert field[..] == [0, 0, 0, 0, 0, 0, 0, 0];
    }

    /** decode_nip_addr. The buffer must hold the bytes the first one announces. */
    method Decode(mem: seq<byte>, at: nat) returns (ok: bool, p: nat)
      requires field.Length == 8 && at < |mem| && at + Len(mem[at]) <= |mem|
      modifies this, field
      ensures p == at + Len(mem[at])
      ensures var n := Len(mem[at]);
              && (n > 0 ==> View() == Filled(mem[at..at + n], old(field[..])))
              && (ok <==> n > 0 && ValidAddr(View()))
    {
      field[0] := mem[at];
      var len := Len(field[0]);
      p := at;
      if len == 0 {
        return false, p;
      }
      for i := 0 to len
        invariant p == at + i
        invariant field[..i] == mem[at..at + i]
        invariant field[len..] == old(field[len..])
      {
        field[i] := mem[p];
        p := p + 1;
      }
      bitlen := len * 8;
      assert field[..] == field[..len] + field[len..];
      var ret := NipAddrInvalid(Addr(bitlen, field[..]));
      ok := ret == 0;
    }
  }

  /** A decode succeeds exactly when the bytes are a code and the part of the target it
      does not overwrite was zero. */
  lemma DecodeSucceeds(code: seq<byte>, field: seq<byte>)
    requires |field| == 8 && code != [] && Len(code[0]) == |code|
    ensures ValidAddr(Filled(code, field)) <==> Code(code) && ZeroFrom(field, |code|)
  {
    var a, n := Filled(code, field), |code|;
    assert Used(a) == code;
    assert forall k :: n <= k < 8 ==> a.field[k] == field[k];
  }

  /** Decoding what was built from a valid address of whole bytes into a zeroed target
      gives the address back. */
  lemma DecodeOfBuild(a: Addr, zero: seq<byte>)
    requires Shaped(a) && ValidAddr(a) && a.bitlen % 8 == 0 && |zero| == 8 && ZeroFrom(zero, 0)
    ensures Len(a.field[0]) == |Used(a)| > 0
    ensures Filled(a.field[..Len(a.field[0])], zero) == a
  {
    var n := |Used(a)|;
    assert Used(a)[0] == a.field[0];
    var b := Filled(a.field[..n], zero);
    forall k | 0 <= k < 8 ensures b.field[k] == a.field[k] {
    }
  }

  /** Building what was decoded writes the bytes that were read. */
  lemma BuildOfDecode(code: seq<byte>, field: seq<byte>)
    requires |field| == 8 && code != [] && Len(code[0]) == |code|
    ensures var a := Filled(code, field); a.field[..Len(a.field[0])] == code
  {
  }

  /** The exact condition: of the valid addresses exactly those of whole bytes come back. */
  lemma WholeBytesIff(a: Addr, zero: seq<byte>)
    requires Shaped(a) && ValidAddr(a) && |zero| == 8 && ZeroFrom(zero, 0)
    ensures Len(a.field[0]) == |Used(a)| > 0
    ensures Filled(a.field[..Len(a.field[0])], zero) == a <==> a.bitlen % 8 == 0
  {
    assert Used(a)[0] == a.field[0];
    if a.bitlen % 8 == 0 { DecodeOfBuild(a, zero); }
  }

  /** A valid address that comes back with another bitlen. */
  lemma OddBitlenIsLost()
    ensures var zero: seq<byte> := [0, 0, 0, 0, 0, 0, 0, 0]; var a := Addr(9, zero);
            ValidAddr(a) && Filled(a.field[..Len(a.field[0])], zero) == Addr(8, zero)
  {
    var zero: seq<byte> := [0, 0, 0, 0, 0, 0, 0, 0];
    var a := Addr(9, zero);
    assert Used(a) == [0];
    assert [0] + zero[1..] == zero;
  }
}
