/** The routing tables: sixteen hash buckets of routes, lookup with a default route, and
    the rule that asks LOCAL before MAIN. */
module Fib {
  import opened Segments
  import opened NipAddr

  // ---- Address equality and hash ----

  /** An address as it is stored in routes and looked up. */
  type Key = a: Addr | |a.field| == 8 witness Addr(0, [0, 0, 0, 0, 0, 0, 0, 0])

  const ANY: Key := Addr(16, [0xFF, 0x09, 0, 0, 0, 0, 0, 0])

  /** nip_addr_eq: same bitlen, at most 64, same whole bytes. */
  predicate AddrEq(a: Key, b: Key) {
    a.bitlen == b.bitlen && a.bitlen <= 64 && Used(a) == Used(b)
  }

  /** A byte of the scratch array the hash fills, zero beyond the address. */
  function ByteAt(s: seq<byte>, i: nat): nat {
    if i < |s| then s[i] else 0
  }

  /** A 32-bit little-endian word of that array. */
  function Word(s: seq<byte>, k: nat): nat {
    ByteAt(s, k) + 0x100 * ByteAt(s, k + 1) + 0x1_0000 * ByteAt(s, k + 2) + 0x100_0000 * ByteAt(s, k + 3)
  }

  /** Exclusive or of the n low bits. */
  function Xor(a: nat, b: nat, n: nat): nat {
    if n == 0 then 0 else 2 * Xor(a / 2, b / 2, n - 1) + (a + b) % 2
  }

  function Xor32(a: nat, b: nat): nat {
    Xor(a, b, 32)
  }

  const NIN_ROUTE_HSIZE: nat := 16

  /** hash_32 with four bits: the top of a product with the golden ratio. */
  function HashTop(v: nat): (h: nat)
    ensures h < NIN_ROUTE_HSIZE
  {
    v * 0x61C8_8647 % 0x1_0000_0000 / 0x1000_0000
  }

  /** nip_addr_hash, then hash_32. */
  function Hash(a: Key): (h: nat)
    ensures h < NIN_ROUTE_HSIZE
  {
    var b := Used(a);
    HashTop(Xor32(Xor32(Xor32(Word(b, 0), Word(b, 4)), Word(b, 8)), Word(b, 12)))
  }

  /** The i-th bit from the low end. */
  function BitOf(x: nat, i: nat): nat {
    if i == 0 then x % 2 else BitOf(x / 2, i - 1)
  }

  /** Bit by bit the result differs from a exactly where b has a one. */
  lemma {:induction false} XorBits(a: nat, b: nat, n: nat, i: nat)
    requires i < n
    ensures BitOf(Xor(a, b, n), i) == if BitOf(b, i) == 1 then 1 - BitOf(a, i) else BitOf(a, i)
    decreases n
  {
    if i == 0 {
      LowBit(a, b, Xor(a / 2, b / 2, n - 1));
    } else {
      XorBits(a / 2, b / 2, n - 1, i - 1);
      assert Xor(a, b, n) / 2 == Xor(a / 2, b / 2, n - 1);
    }
  }

  lemma LowBit(a: nat, b: nat, rest: nat)
    ensures (2 * rest + (a + b) % 2) % 2 == if b % 2 == 1 then 1 - a % 2 else a % 2
  {
  }

  lemma {:induction false} XorZero(a: nat, n: nat, top: nat)
    requires top == Power(n) && a < top
    ensures Xor(a, 0, n) == a
  {
    if n > 0 { XorZero(a / 2, n - 1, top / 2); }
  }

  function Power(n: nat): (p: nat)
    ensures p > 0
  {
    if n == 0 then 1 else 2 * Power(n - 1)
  }

  /** An address of at most four bytes goes to the bucket its low word names. */
  lemma ShortHash(a: Key)
    requires a.bitlen <= 32
    ensures Hash(a) == HashTop(Word(Used(a), 0))
  {
    hide HashTop;
    assert Power(8) == 0x100 && Power(16) == 0x100 * Power(8) && Power(24) == 0x100 * Power(16);
    assert Power(32) == 0x100 * Power(24);
    XorZero(Word(Used(a), 0), 32, 0x1_0000_0000);
  }

  /** The one-byte address 5 goes to bucket 14. */
  lemma HashOfFive(a: Key)
    requires a.bitlen == 8 && a.field[0] == 5
    ensures Hash(a) == 14
  {
    hide Hash, HashTop, Xor;
    ShortHash(a);
    OneByteWord(a);
    TopOfFive(5);
  }

  lemma OneByteWord(a: Key)
    requires a.bitlen == 8
    ensures Word(Used(a), 0) == a.field[0] as nat
  {
    assert Used(a) == [a.field[0]];
  }

  lemma TopOfFive(v: nat)
    requires v == 5
    ensures HashTop(v) == 14
  {
  }

  /** Equal addresses land in the same bucket; equality is symmetric and transitive. */
  lemma EqualAddrs(a: Key, b: Key)
    requires AddrEq(a, b)
    ensures Hash(a) == Hash(b) && AddrEq(b, a)
    ensures forall c: Key :: AddrEq(a, c) <==> AddrEq(b, c)
  {
  }

  /** Valid addresses are equal exactly when they are the same; longer ones than 64 bits are
      not even equal to themselves. */
  lemma ValidEqual(a: Key, b: Key)
    ensures ValidAddr(a) && ValidAddr(b) ==> (AddrEq(a, b) <==> a == b && a.bitlen <= 64)
    ensures AddrEq(a, a) <==> a.bitlen <= 64
  {
    if ValidAddr(a) && ValidAddr(b) && AddrEq(a, b) {
      forall k | 0 <= k < 8 ensures a.field[k] == b.field[k] {
        if k < |Used(a)| { assert Used(a)[k] == Used(b)[k]; }
      }
      assert a.field == b.field;
    }
  }

  // ---- Tables ----

  /** A route: its destination, the index of its device, and the order of its creation. */
  datatype Route = Route(dst: Key, dev: int, serial: nat)

  type Buckets = h: seq<seq<Route>> | |h| == 16 witness [[], [], [], [], [], [], [], [], [], [], [], [], [], [], [], []]

  predicate Rising(b: seq<Route>) {
    forall j, k :: 0 <= j < k < |b| ==> b[j].serial < b[k].serial
  }

  predicate AllHash(b: seq<Route>, i: nat) {
    forall j :: 0 <= j < |b| ==> Hash(b[j].dst) == i
  }

  /** Every route is in the bucket its destination hashes to, in order of creation. */
  predicate Placed(h: Buckets) {
    forall i :: 0 <= i < |h| ==> AllHash(h[i], i) && Rising(h[i])
  }

  /** The table holds r. */
  predicate Holds(h: Buckets, r: Route)
  {
    r in h[Hash(r.dst)]
  }

  /** A route that is anywhere in the table is in the bucket of its destination. */
  lemma AnyBucket(h: Buckets, i: nat, r: Route)
    requires Placed(h) && i < |h| && r in h[i]
    ensures i == Hash(r.dst) && Holds(h, r)
  {
    assert AllHash(h[i], i);
  }

  /** r is an entry for the address itself. */
  predicate Exact(h: Buckets, r: Route, a: Key)
  {
    Holds(h, r) && AddrEq(r.dst, a)
  }

  ghost predicate NoExact(h: Buckets, a: Key)
  {
    forall r :: Holds(h, r) ==> !AddrEq(r.dst, a)
  }

  /** MAIN holds at most one route per destination, LOCAL one per destination and device. */
  ghost predicate Distinct(main: bool, h: Buckets)
  {
    forall r, s :: Holds(h, r) && Holds(h, s) && Duplicate(main, r, s) ==> r == s
  }

  datatype Option<T> = None | Some(value: T)

  /** The first route for the address in a bucket. */
  function First(b: seq<Route>, a: Key): (r: Option<Route>)
    ensures r.None? ==> forall i :: 0 <= i < |b| ==> !AddrEq(b[i].dst, a)
    ensures r.Some? ==> r.value in b && AddrEq(r.value.dst, a)
  {
    if b == [] then None
    else if AddrEq(b[0].dst, a) then Some(b[0])
    else First(b[1..], a)
  }

  /** nip_fib_locate: the entry of the address, else the default route. */
  function Locate(h: Buckets, a: Key): Option<Route>
  {
    var r := First(h[Hash(a)], a);
    if r.Some? then r else First(h[Hash(ANY)], ANY)
  }

  lemma {:induction false} FirstIsOldest(b: seq<Route>, a: Key)
    requires Rising(b)
    ensures First(b, a).Some? ==>
            forall i :: 0 <= i < |b| && AddrEq(b[i].dst, a) ==> First(b, a).value.serial <= b[i].serial
    ensures forall i :: 0 <= i < |b| && AddrEq(b[i].dst, a) ==> First(b, a).Some?
  {
    hide AddrEq;
    if b != [] && !AddrEq(b[0].dst, a) {
      FirstIsOldest(b[1..], a);
      forall i | 0 <= i < |b| && AddrEq(b[i].dst, a) ensures First(b, a).Some? && First(b, a).value.serial <= b[i].serial {
        assert b[1..][i - 1] == b[i];
      }
    }
  }

  /** Lookup in one bucket is lookup in the whole table. */
  lemma FirstIsExact(h: Buckets, a: Key)
    requires Placed(h)
    ensures match First(h[Hash(a)], a)
            case None => NoExact(h, a)
            case Some(r) => Exact(h, r, a) && forall s :: Exact(h, s, a) ==> r.serial <= s.serial
  {
    hide Hash, AddrEq;
    var b := h[Hash(a)];
    FirstIsOldest(b, a);
    if First(b, a).Some? {
      AnyBucket(h, Hash(a), First(b, a).value);
    }
    forall s | Holds(h, s) && AddrEq(s.dst, a) ensures s in b {
      EqualAddrs(s.dst, a);
    }
  }

  /** What a lookup returns: the earliest-added entry of the address itself; without one,
      the earliest-added default route; and nothing only when there is neither. */
  lemma LocateMeaning(h: Buckets, a: Key)
    requires Placed(h)
    ensures match Locate(h, a)
            case None => NoExact(h, a) && NoExact(h, ANY)
            case Some(r) =>
              var key := if NoExact(h, a) then ANY else a;
              Exact(h, r, key) && forall s :: Exact(h, s, key) ==> r.serial <= s.serial
  {
    hide Hash, AddrEq, First;
    FirstIsExact(h, a);
    FirstIsExact(h, ANY);
  }

  /** In MAIN the entry is unique, so the table is a map with a default. */
  lemma LocateMain(h: Buckets, a: Key, r: Route)
    requires Placed(h) && Distinct(true, h)
    ensures Exact(h, r, a) ==> Locate(h, a) == Some(r)
    ensures NoExact(h, a) && Exact(h, r, ANY) ==> Locate(h, a) == Some(r)
    ensures NoExact(h, a) && NoExact(h, ANY) <==> Locate(h, a) == None
  {
    hide Hash, AddrEq, Locate, Holds;
    LocateMeaning(h, a);
    if Locate(h, a).Some? {
      var s := Locate(h, a).value;
      if Exact(h, r, a) { EqualAddrs(r.dst, a); EqualAddrs(s.dst, a); }
      if Exact(h, r, ANY) && NoExact(h, a) { EqualAddrs(r.dst, ANY); EqualAddrs(s.dst, ANY); }
    }
  }

  // ---- Adding ----

  /** The duplicate test of nip_fib_add: by destination in MAIN, by destination and
      device in LOCAL. */
  predicate Duplicate(main: bool, s: Route, r: Route) {
    AddrEq(s.dst, r.dst) && (main || s.dev == r.dev)
  }

  /** r at the tail of its bucket. */
  function Appended(h: Buckets, r: Route): (h': Buckets)
  {
    h[Hash(r.dst) := h[Hash(r.dst)] + [r]]
  }

  lemma AppendedHolds(h: Buckets, r: Route, s: Route)
    ensures Holds(Appended(h, r), s) <==> Holds(h, s) || s == r
  {
    hide Hash;
  }

  ghost predicate Newest(h: Buckets, r: Route)
  {
    forall s :: Holds(h, s) ==> s.serial < r.serial
  }

  lemma AppendedPlaced(h: Buckets, r: Route)
    requires Placed(h) && Newest(h, r)
    ensures Placed(Appended(h, r))
  {
    hide Hash;
    var n, h' := Hash(r.dst), Appended(h, r);
    forall j | 0 <= j < |h[n]| ensures h[n][j].serial < r.serial {
      AnyBucket(h, n, h[n][j]);
    }
    forall i | 0 <= i < |h'| ensures AllHash(h'[i], i) && Rising(h'[i]) {
      assert AllHash(h[i], i) && Rising(h[i]);
    }
  }

  lemma {:induction false} FirstAppended(b: seq<Route>, r: Route, a: Key)
    ensures First(b + [r], a) ==
            if First(b, a).Some? then First(b, a) else if AddrEq(r.dst, a) then Some(r) else None
  {
    hide AddrEq;
    if b == [] {
      assert b + [r] == [r];
    } else {
      FirstAppended(b[1..], r, a);
      assert (b + [r])[1..] == b[1..] + [r];
    }
  }

  lemma AppendFirst(h: Buckets, r: Route, a: Key)
    ensures var b, b' := h[Hash(a)], Appended(h, r)[Hash(a)];
            First(b', a) == if First(b, a).Some? then First(b, a) else if AddrEq(r.dst, a) then Some(r) else None
  {
    hide Hash, First;
    if AddrEq(r.dst, a) { EqualAddrs(r.dst, a); }
    FirstAppended(h[Hash(a)], r, a);
  }

  /** Adding a route changes the lookup of its own destination, if that had no entry, and
      of nothing else; a default route, of the addresses without an entry. */
  lemma AddLookup(h: Buckets, r: Route, a: Key)
    requires Placed(h)
    ensures Locate(Appended(h, r), a) ==
            if !NoExact(h, a) then Locate(h, a)
            else if AddrEq(r.dst, a) then Some(r)
            else if NoExact(h, ANY) && AddrEq(r.dst, ANY) then Some(r)
            else Locate(h, a)
  {
    hide Hash, First, AddrEq;
    AppendFirst(h, r, a);
    AppendFirst(h, r, ANY);
    FirstIsExact(h, a);
    FirstIsExact(h, ANY);
  }

  lemma AppendedDistinct(main: bool, h: Buckets, r: Route)
    requires Distinct(main, h)
    requires forall s :: Holds(h, s) ==> !Duplicate(main, s, r)
    ensures Distinct(main, Appended(h, r))
  {
    hide Hash, AddrEq, Appended, Holds;
    var h' := Appended(h, r);
    forall s, t | Holds(h', s) && Holds(h', t) && Duplicate(main, s, t) ensures s == t {
      AppendedHolds(h, r, s);
      AppendedHolds(h, r, t);
      EqualAddrs(s.dst, t.dst);
    }
  }

  // ---- Removing ----

  /** The table without the routes that `sel` selects. */
  function Keep(b: seq<Route>, sel: Route -> bool): (c: seq<Route>)
    ensures forall r :: r in c <==> r in b && !sel(r)
  {
    if b == [] then []
    else if sel(b[0]) then Keep(b[1..], sel)
    else [b[0]] + Keep(b[1..], sel)
  }

  /** The clean-up leaves h' when it removes exactly the selected routes of each bucket. */
  ghost predicate Cleaned(h: Buckets, h': Buckets, sel: Route -> bool) {
    forall i :: 0 <= i < |h| ==> h'[i] == Keep(h[i], sel)
  }

  lemma {:induction false} KeepOrdered(b: seq<Route>, sel: Route -> bool, i: nat)
    requires Rising(b) && AllHash(b, i)
    ensures Rising(Keep(b, sel)) && AllHash(Keep(b, sel), i)
  {
    hide Hash;
    if b != [] {
      var t := b[1..];
      assert Rising(t) && AllHash(t, i);
      KeepOrdered(t, sel, i);
      var c := Keep(t, sel);
      if !sel(b[0]) {
        forall k | 0 <= k < |c| ensures b[0].serial < c[k].serial {
          assert c[k] in t;
        }
      }
    }
  }

  /** Cleaning removes exactly the selected routes and keeps the rest in order. */
  lemma CleanedMeaning(h: Buckets, h': Buckets, sel: Route -> bool)
    requires Placed(h) && Cleaned(h, h', sel)
    ensures Placed(h')
    ensures forall r :: Holds(h', r) <==> Holds(h, r) && !sel(r)
    ensures forall main: bool :: Distinct(main, h) ==> Distinct(main, h')
  {
    hide Hash, AddrEq;
    forall i | 0 <= i < |h'| ensures AllHash(h'[i], i) && Rising(h'[i]) {
      KeepOrdered(h[i], sel, i);
    }
    forall r ensures Holds(h', r) <==> Holds(h, r) && !sel(r) {
      assert h'[Hash(r.dst)] == Keep(h[Hash(r.dst)], sel);
    }
  }

  /** Lookups depend only on which routes there are for the address and the default. */
  lemma LocateByMembers(h: Buckets, g: Buckets, a: Key)
    requires Placed(h) && Placed(g)
    requires forall r: Route :: AddrEq(r.dst, a) || AddrEq(r.dst, ANY) ==> (Holds(h, r) <==> Holds(g, r))
    ensures Locate(h, a) == Locate(g, a)
  {
    hide Hash, AddrEq, First, Holds;
    SameFirst(h, g, a);
    SameFirst(h, g, ANY);
  }

  lemma SameSerial(h: Buckets, r: Route, s: Route, a: Key)
    requires Placed(h) && Exact(h, r, a) && Exact(h, s, a) && r.serial == s.serial
    ensures r == s
  {
    hide Hash;
    EqualAddrs(r.dst, a);
    EqualAddrs(s.dst, a);
    var b := h[Hash(a)];
    assert Rising(b);
    var j :| 0 <= j < |b| && b[j] == r;
    var k :| 0 <= k < |b| && b[k] == s;
    assert j == k;
  }

  lemma SameFirst(h: Buckets, g: Buckets, a: Key)
    requires Placed(h) && Placed(g)
    requires forall r: Route :: AddrEq(r.dst, a) ==> (Holds(h, r) <==> Holds(g, r))
    ensures First(h[Hash(a)], a) == First(g[Hash(a)], a)
  {
    hide Hash, AddrEq, First, Holds;
    FirstIsExact(h, a);
    FirstIsExact(g, a);
    var r, s := First(h[Hash(a)], a), First(g[Hash(a)], a);
    if r.Some? {
      assert Exact(g, r.value, a);
    }
    if s.Some? {
      assert Exact(h, s.value, a);
    }
    if r.Some? && s.Some? {
      SameSerial(h, r.value, s.value, a);
    }
  }

  /** Deleting an entry of its own address changes no other lookup, as long as the other
      address does not live on the default route that is deleted. */
  lemma DeleteLookup(h: Buckets, h': Buckets, r: Route, b: Key)
    requires Placed(h) && Holds(h, r) && Cleaned(h, h', (x: Route) => x == r)
    requires !AddrEq(r.dst, b) && !AddrEq(r.dst, ANY)
    ensures Placed(h') && Locate(h', b) == Locate(h, b)
  {
    hide Hash, AddrEq, Locate, Holds, Placed, Cleaned;
    CleanedMeaning(h, h', (x: Route) => x == r);
    LocateByMembers(h, h', b);
  }

  /** nip_route_del deletes what the lookup returns: an entry of the address itself
      exactly when it has one; otherwise the default route, if there is one. */
  lemma DeleteTarget(h: Buckets, a: Key)
    requires Placed(h)
    ensures Locate(h, a).Some? ==> (AddrEq(Locate(h, a).value.dst, a) <==> !NoExact(h, a))
    ensures Locate(h, a).Some? && NoExact(h, a) ==> AddrEq(Locate(h, a).value.dst, ANY)
  {
    hide Hash, AddrEq, Locate;
    LocateMeaning(h, a);
  }

  const FIVE: Key := Addr(8, [5, 0, 0, 0, 0, 0, 0, 0])

  const DEFAULT_ROUTE: Route := Route(ANY, 1, 0)

  /** A table that holds nothing but a default route. */
  function DefaultOnly(): (h: Buckets)
    ensures forall r :: Holds(h, r) <==> r == DEFAULT_ROUTE
    ensures Placed(h)
  {
    seq(NIN_ROUTE_HSIZE, i => if i == Hash(ANY) then [DEFAULT_ROUTE] else [])
  }

  /** There, a request to delete the route of the address 5, which has none, is granted,
      and no default route is left. */
  lemma DefaultIsDeleted(h': Buckets)
    requires RouteDeleted(DefaultOnly(), h', FIVE)
    ensures NoExact(DefaultOnly(), FIVE) && Locate(DefaultOnly(), FIVE) == Some(DEFAULT_ROUTE)
    ensures NoExact(h', ANY)
  {
    hide Hash, Locate, Holds;
    var h := DefaultOnly();
    assert !AddrEq(ANY, FIVE) && AddrEq(ANY, ANY);
    LocateMain(h, FIVE, DEFAULT_ROUTE) by {
      assert Distinct(true, h);
      assert Exact(h, DEFAULT_ROUTE, ANY) by { assert Holds(h, DEFAULT_ROUTE); }
    }
    CleanedMeaning(h, h', (x: Route) => x == DEFAULT_ROUTE);
  }

  lemma {:induction false} KeepAll(b: seq<Route>, sel: Route -> bool)
    requires forall i :: 0 <= i < |b| ==> !sel(b[i])
    ensures Keep(b, sel) == b
  {
    if b != [] { KeepAll(b[1..], sel); }
  }

  /** What nip_route_del leaves. */
  ghost predicate RouteDeleted(h: Buckets, h': Buckets, a: Key)
  {
    match Locate(h, a)
    case None => h' == h
    case Some(r) => Cleaned(h, h', (x: Route) => x == r)
  }

  // ---- The tables' methods ----

  lemma KeepAt(b: seq<Route>, sel: Route -> bool, j: nat)
    requires j < |b|
    ensures Keep(b[j..], sel) == (if sel(b[j]) then [] else [b[j]]) + Keep(b[j + 1..], sel)
  {
    assert b[j..][1..] == b[j + 1..];
  }

  /** The walk over one bucket, which unlinks as it goes. */
  method CleanBucket(b: seq<Route>, sel: Route -> bool) returns (c: seq<Route>)
    ensures c == Keep(b, sel)
  {
    hide Keep;
    c := [];
    var j := 0;
    assert b[0..] == b;
    while j < |b|
      invariant 0 <= j <= |b| && c + Keep(b[j..], sel) == Keep(b, sel)
    {
      KeepAt(b, sel, j);
      if !sel(b[j]) {
        c := c + [b[j]];
      }
      j := j + 1;
    }
    KeepAll(b[j..], sel);
  }

  /** struct nip_fib_table. */
  class FibTable {
    const main: bool
    var heads: Buckets

    predicate Valid()
      reads this
    {
      Placed(heads)
    }

    constructor (main: bool)
      ensures Valid() && this.main == main && forall i :: 0 <= i < NIN_ROUTE_HSIZE ==> heads[i] == []
    {
      this.main := main;
      heads := seq(NIN_ROUTE_HSIZE, i => []);
    }

    /** The search loop over one bucket. */
    method SearchBucket(i: nat, a: Key) returns (r: Option<Route>)
      requires i < |heads|
      ensures r == First(heads[i], a)
    {
      var j, b := 0, heads[i];
      while j < |b|
        invariant 0 <= j <= |b| && First(b[j..], a) == First(b, a)
      {
        if AddrEq(b[j].dst, a) {
          return Some(b[j]);
        }
        j := j + 1;
      }
      r := None;
    }

    /** nip_fib_locate. */
    method FibLocate(a: Key) returns (r: Option<Route>)
      requires Valid()
      ensures r == Locate(heads, a)
    {
      r := SearchBucket(Hash(a), a);
      if r.None? {
        r := SearchBucket(Hash(ANY), ANY);
      }
    }

    /** nip_fib_add: refuses a duplicate without changing the table. */
    method FibAdd(r: Route) returns (ok: bool)
      requires Valid() && Distinct(main, heads) && Newest(heads, r)
      modifies this`heads
      ensures Valid() && Distinct(main, heads)
      ensures ok <==> forall s :: old(Holds(heads, s)) ==> !Duplicate(main, s, r)
      ensures heads == if ok then Appended(old(heads), r) else old(heads)
    {
      hide Hash, AddrEq;
      var j, b := 0, heads[Hash(r.dst)];
      while j < |b|
        invariant 0 <= j <= |b| && forall k :: 0 <= k < j ==> !Duplicate(main, b[k], r)
      {
        if Duplicate(main, b[j], r) {
          AnyBucket(heads, Hash(r.dst), b[j]);
          return false;
        }
        j := j + 1;
      }
      forall s | Holds(heads, s) ensures !Duplicate(main, s, r) {
        if AddrEq(s.dst, r.dst) { EqualAddrs(s.dst, r.dst); }
      }
      AppendedPlaced(heads, r);
      AppendedDistinct(main, heads, r);
      heads := Appended(heads, r);
      ok := true;
    }

    /** nip_fib_clean_hash: every bucket without the routes func selects. */
    method CleanHash(sel: Route -> bool)
      requires Valid()
      modifies this`heads
      ensures Valid() && Cleaned(old(heads), heads, sel)
      ensures old(Distinct(main, heads)) ==> Distinct(main, heads)
    {
      hide Hash;
      ghost var h := heads;
      var i := 0;
      while i < NIN_ROUTE_HSIZE
        invariant 0 <= i <= NIN_ROUTE_HSIZE
        invariant forall k :: 0 <= k < i ==> heads[k] == Keep(h[k], sel)
        invariant forall k :: i <= k < |h| ==> heads[k] == h[k]
      {
        var b := CleanBucket(heads[i], sel);
        heads := heads[i := b];
        i := i + 1;
      }
      CleanedMeaning(h, heads, sel);
    }

    /** nip_fib_del of a route that is in the table. */
    method FibDel(r: Route)
      requires Valid() && Holds(heads, r)
      modifies this`heads
      ensures Valid() && Cleaned(old(heads), heads, (x: Route) => x == r)
      ensures old(Distinct(main, heads)) ==> Distinct(main, heads)
    {
      hide Hash;
      var sel := (x: Route) => x == r;
      forall i | 0 <= i < |heads| && i != Hash(r.dst) ensures Keep(heads[i], sel) == heads[i] {
        assert AllHash(heads[i], i);
        KeepAll(heads[i], sel);
      }
      ghost var h := heads;
      var b := CleanBucket(heads[Hash(r.dst)], sel);
      heads := heads[Hash(r.dst) := b];
      CleanedMeaning(h, heads, sel);
    }

    /** nip_route_del. */
    method RouteDel(a: Key) returns (ok: bool)
      requires Valid()
      modifies this`heads
      ensures Valid() && (ok <==> Locate(old(heads), a).Some?) && RouteDeleted(old(heads), heads, a)
      ensures old(Distinct(main, heads)) ==> Distinct(main, heads)
    {
      hide Hash, AddrEq, Locate, Holds;
      var r := FibLocate(a);
      ok := r.Some?;
      if ok {
        LocateHolds(heads, a);
        FibDel(r.value);
      }
    }
  }

  lemma LocateHolds(h: Buckets, a: Key)
    requires Placed(h)
    ensures Locate(h, a).Some? ==> Holds(h, Locate(h, a).value)
  {
    hide Hash, AddrEq, Locate, Holds;
    LocateMeaning(h, a);
  }

  /** Which table answers. */
  datatype Answer = Local(r: Route) | Main(r: Route) | Null

  /** nip_fib_rule_lookup: LOCAL, then MAIN, then the null entry. */
  method RuleLookup(local: FibTable, main: FibTable, a: Key) returns (r: Answer)
    requires local.Valid() && main.Valid()
    ensures r == Rule(local.heads, main.heads, a)
  {
    var l := local.FibLocate(a);
    if l.Some? {
      return Local(l.value);
    }
    var m := main.FibLocate(a);
    r := if m.Some? then Main(m.value) else Null;
  }

  function Rule(local: Buckets, main: Buckets, a: Key): Answer
  {
    var l, m := Locate(local, a), Locate(main, a);
    if l.Some? then Local(l.value) else if m.Some? then Main(m.value) else Null
  }

  /** As long as LOCAL holds no default route it answers exactly for its own entries; the
      default of MAIN answers for what neither table has. */
  lemma RuleMeaning(local: Buckets, main: Buckets, a: Key)
    requires Placed(local) && Placed(main) && NoExact(local, ANY)
    ensures Rule(local, main, a).Local? <==> !NoExact(local, a)
    ensures Rule(local, main, a).Null? <==> NoExact(local, a) && NoExact(main, a) && NoExact(main, ANY)
    ensures Rule(local, main, a).Main? && NoExact(main, a) ==> AddrEq(Rule(local, main, a).r.dst, ANY)
    ensures Rule(local, main, a).Main? && !NoExact(main, a) ==> AddrEq(Rule(local, main, a).r.dst, a)
    ensures Rule(local, main, a).Main? ==> Holds(main, Rule(local, main, a).r)
    ensures Rule(local, main, a).Local? ==> Exact(local, Rule(local, main, a).r, a)
  {
    hide Hash, AddrEq, Locate;
    LocateMeaning(local, a);
    LocateMeaning(main, a);
  }
}
