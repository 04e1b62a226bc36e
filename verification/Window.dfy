/** Receive-window selection: __nip_tcp_select_window, nip_tcp_select_window and the
    scaled 16-bit field the peer decodes. */
module Window {

  function Pow2(n: nat): (p: nat)
    ensures p > 0
  {
    if n == 0 then 1 else 2 * Pow2(n - 1)
  }

  lemma Dichotomy(a: int, b: int, unit: nat)
    ensures a <= b || (b + 1) * unit <= a * unit
  {
    if a > b {
      assert (a - (b + 1)) * unit >= 0;
    }
  }

  /** How many whole units fit in x. */
  function Units(x: nat, unit: nat): (k: nat)
    requires unit > 0
    ensures k * unit <= x < k * unit + unit
  {
    assert x == x / unit * unit + x % unit;
    x / unit
  }

  /** ALIGN: the least multiple of `a` at or above x. */
  function Align(x: nat, a: nat): (r: nat)
    requires a > 0
    ensures x <= r < x + a
  {
    Units(x + a - 1, a) * a
  }

  /** x is a whole number of units. */
  ghost predicate Whole(x: int, unit: nat) {
    exists k: int :: x == k * unit
  }

  lemma WholeUnits(x: nat, unit: nat)
    requires unit > 0 && Whole(x, unit)
    ensures Units(x, unit) * unit == x
  {
    var k: int :| x == k * unit;
    var u := Units(x, unit);
    Dichotomy(u, k, unit);
    Dichotomy(k, u, unit);
  }

  /** What __nip_tcp_select_window reads: the module parameters and the socket's
      buffer state. `allowed` is tcp_full_space, `free` is tcp_space. */
  datatype Space = Space(mss: nat, clamp: nat, allowed: int, free: int, wscale: nat,
                         rcvWinEnable: bool, ssthreshEnable: bool,
                         nipSsthresh: nat, rcvSsthresh: nat, ssthreshHigh: nat)

  function Min(a: int, b: int): int {
    if a < b then a else b
  }

  /** round_down on a signed int. */
  function RoundDown(x: int, unit: nat): int
    requires unit > 0
  {
    x / unit * unit
  }

  /** The free space left after the half-full test; negative stands for a zero window. */
  function Usable(p: Space): int {
    var full := Min(p.clamp, p.allowed);
    var mss := if p.mss > full then full else p.mss;
    if p.mss > full && full <= 0 then -1
    else if p.free < full / 2 then
      var down := RoundDown(p.free, Pow2(p.wscale));
      if down < p.allowed / 16 || down < mss then -1 else down
    else p.free
  }

  function Cap(p: Space): nat {
    if p.rcvWinEnable then
      if p.ssthreshEnable then p.nipSsthresh else p.rcvSsthresh
    else p.ssthreshHigh
  }

  /** __nip_tcp_select_window. */
  function FreeWindow(p: Space): nat {
    if Usable(p) < 0 then 0 else Align(Min(Usable(p), Cap(p)), Pow2(p.wscale))
  }

  /** The window is a whole number of scale units, exceeds neither the free space nor
      the cap by a whole unit, and is zero only when there is no usable space or the
      cap is zero. */
  lemma FreeWindowFits(p: Space)
    ensures Whole(FreeWindow(p), Pow2(p.wscale))
    ensures Usable(p) >= 0 ==> Min(Usable(p), Cap(p)) <= FreeWindow(p) < Min(Usable(p), Cap(p)) + Pow2(p.wscale)
    ensures FreeWindow(p) == 0 <==> Usable(p) <= 0 || Cap(p) == 0
  {
    var u := Pow2(p.wscale);
    if Usable(p) < 0 {
      assert FreeWindow(p) == 0 * u;
    } else {
      AlignZero(Min(Usable(p), Cap(p)), u);
    }
  }

  /** When the window opens; d is the free space in whole units. With half the buffer free,
      whenever there is any space; below that, only for a sixteenth of the buffer and a
      whole segment: what it then opens by is no silly window (section 4.2.3.3 of RFC 1122). */
  lemma WindowOpens(p: Space, d: int)
    requires Whole(d, Pow2(p.wscale)) && d <= p.free < d + Pow2(p.wscale)
    ensures var full := Min(p.clamp, p.allowed); var half := p.free >= full / 2;
            && (p.mss > full && full <= 0 ==> FreeWindow(p) == 0)
            && (full > 0 && half ==> (FreeWindow(p) > 0 <==> p.free > 0 && Cap(p) > 0))
            && (full > 0 && !half ==>
                  && (FreeWindow(p) > 0 <==> d > 0 && Cap(p) > 0 && d >= p.allowed / 16 && d >= Min(p.mss, full))
                  && (FreeWindow(p) > 0 ==> FreeWindow(p) >= Min(Min(p.mss, full), Cap(p))
                                            && FreeWindow(p) < p.free + Pow2(p.wscale)))
  {
    WholeBelow(p.free, d, Pow2(p.wscale));
    FreeWindowFits(p);
  }

  lemma WholeBelow(x: int, d: int, unit: nat)
    requires unit > 0 && Whole(d, unit) && d <= x < d + unit
    ensures RoundDown(x, unit) == d
  {
    var k: int :| d == k * unit;
    assert x == x / unit * unit + x % unit;
    Dichotomy(x / unit, k, unit);
    Dichotomy(k, x / unit, unit);
  }

  /** Which threshold caps the window: the one that is in force is kept to within a unit,
      and reached when there is that much free space. */
  lemma CapInForce(p: Space, cap: nat)
    requires p.rcvWinEnable && p.ssthreshEnable ==> cap == p.nipSsthresh
    requires p.rcvWinEnable && !p.ssthreshEnable ==> cap == p.rcvSsthresh
    requires !p.rcvWinEnable ==> cap == p.ssthreshHigh
    ensures FreeWindow(p) < cap + Pow2(p.wscale)
    ensures var full := Min(p.clamp, p.allowed);
            full > 0 && p.free >= full / 2 && p.free >= cap ==> FreeWindow(p) >= cap
  {
    FreeWindowFits(p);
  }

  lemma AlignZero(x: nat, unit: nat)
    requires unit > 0
    ensures Align(x, unit) == 0 <==> x == 0
    ensures Whole(Align(x, unit), unit)
  {
    Dichotomy(Units(x + unit - 1, unit), 0, unit);
  }

  /** nip_tcp_select_window: the new rcv_wnd. The offered window is never shrunk: a
      smaller selection falls back to what is left of the current offer, rounded up. */
  function NewWindow(nxt: int, edge: int, free: nat, unit: nat): nat
    requires unit > 0
  {
    var cur := if edge <= nxt then 0 else edge - nxt;
    if free < cur then Align(cur, unit) else free
  }

  const MAX_TCP_WINDOW: nat := 32767

  /** The largest window the 16-bit field can carry. */
  function FieldCap(wscale: nat, workaround: bool): nat {
    if wscale == 0 && workaround then MAX_TCP_WINDOW else 65535 * Pow2(wscale)
  }

  /** The 16-bit window field of an outgoing segment. */
  function Field(wnd: nat, wscale: nat, workaround: bool): nat {
    Units(Min(wnd, FieldCap(wscale, workaround)), Pow2(wscale))
  }

  /** The scaling loses nothing and fits 16 bits: the peer reads back the window, up
      to the cap. */
  lemma DecodedWindow(wnd: nat, wscale: nat, workaround: bool)
    requires Whole(wnd, Pow2(wscale))
    ensures Field(wnd, wscale, workaround) * Pow2(wscale) == Min(wnd, FieldCap(wscale, workaround))
    ensures Field(wnd, wscale, workaround) <= 65535
  {
    var u, cap := Pow2(wscale), FieldCap(wscale, workaround);
    if wnd <= cap {
      WholeUnits(wnd, u);
    } else {
      CapIsWhole(wscale, workaround);
      WholeUnits(cap, u);
    }
    UnitsAtMost(Min(wnd, cap), 65535, u);
  }

  lemma CapIsWhole(wscale: nat, workaround: bool)
    ensures Whole(FieldCap(wscale, workaround), Pow2(wscale))
    ensures FieldCap(wscale, workaround) <= 65535 * Pow2(wscale)
  {
    if wscale == 0 && workaround {
      assert MAX_TCP_WINDOW == MAX_TCP_WINDOW * 1;
    }
  }

  lemma UnitsAtMost(x: nat, k: nat, unit: nat)
    requires unit > 0 && x <= k * unit
    ensures Units(x, unit) <= k
  {
    Dichotomy(Units(x, unit), k, unit);
  }

  // ---- Runs of receives and transmits ----

  /** rcv_nxt, the offered right edge rcv_wup + rcv_wnd, and the right edge the peer
      has last decoded. */
  datatype Offer = Offer(nxt: int, edge: int, seen: int)

  /** rcv_nxt advances within the offered window, or a segment goes out while
      __nip_tcp_select_window answers `free`. */
  datatype Move = Accept(bytes: nat) | Transmit(free: nat)

  ghost predicate Legal(o: Offer, m: Move, wscale: nat) {
    match m
    case Accept(n) => o.nxt + n <= o.edge
    case Transmit(free) => Whole(free, Pow2(wscale))
  }

  function Apply(o: Offer, m: Move, wscale: nat, workaround: bool): Offer {
    match m
    case Accept(n) => o.(nxt := o.nxt + n)
    case Transmit(free) =>
      var wnd := NewWindow(o.nxt, o.edge, free, Pow2(wscale));
      Offer(o.nxt, o.nxt + wnd, o.nxt + Field(wnd, wscale, workaround) * Pow2(wscale))
  }

  function Run(o: Offer, ms: seq<Move>, wscale: nat, workaround: bool): Offer
    decreases |ms|
  {
    if ms == [] then o else Run(Apply(o, ms[0], wscale, workaround), ms[1..], wscale, workaround)
  }

  ghost predicate AllLegal(o: Offer, ms: seq<Move>, wscale: nat, workaround: bool)
    decreases |ms|
  {
    ms == [] ||
    (Legal(o, ms[0], wscale) && AllLegal(Apply(o, ms[0], wscale, workaround), ms[1..], wscale, workaround))
  }

  /** What holds between operations: everything accepted lies left of the edge, and
      the peer has seen no more than the edge and no more than the field can carry. */
  predicate Sane(o: Offer, wscale: nat, workaround: bool) {
    o.nxt <= o.edge && o.seen <= o.edge && o.seen <= o.nxt + FieldCap(wscale, workaround)
  }

  lemma NewWindowKeepsEdge(nxt: int, edge: int, free: nat, unit: nat)
    requires unit > 0 && Whole(free, unit)
    ensures edge <= nxt + NewWindow(nxt, edge, free, unit)
    ensures Whole(NewWindow(nxt, edge, free, unit), unit)
    ensures nxt <= edge && edge - nxt <= free ==> NewWindow(nxt, edge, free, unit) == free
    ensures nxt <= edge && free < edge - nxt ==> nxt + NewWindow(nxt, edge, free, unit) < edge + unit
  {
    if edge > nxt {
      AlignZero(edge - nxt, unit);
    }
  }

  lemma MoveNeverShrinks(o: Offer, m: Move, wscale: nat, workaround: bool)
    requires Sane(o, wscale, workaround) && Legal(o, m, wscale)
    ensures var o' := Apply(o, m, wscale, workaround);
            && Sane(o', wscale, workaround)
            && o.edge <= o'.edge && o.seen <= o'.seen && o'.nxt == o.nxt + (if m.Accept? then m.bytes else 0)
            && (m.Transmit? ==> o'.seen == o'.nxt + Min(o'.edge - o'.nxt, FieldCap(wscale, workaround)))
  {
    if m.Transmit? {
      var u := Pow2(wscale);
      NewWindowKeepsEdge(o.nxt, o.edge, m.free, u);
      DecodedWindow(NewWindow(o.nxt, o.edge, m.free, u), wscale, workaround);
    }
  }

  /** Over every run, neither the offered right edge nor the one the peer decodes ever
      moves left (section 4.2.2.16 of RFC 1122), and rcv_nxt stays within the offer. */
  lemma {:induction false} OfferNeverShrinks(o: Offer, ms: seq<Move>, wscale: nat, workaround: bool)
    requires Sane(o, wscale, workaround) && AllLegal(o, ms, wscale, workaround)
    ensures var o' := Run(o, ms, wscale, workaround);
            && Sane(o', wscale, workaround)
            && o.edge <= o'.edge && o.seen <= o'.seen && o.nxt <= o'.nxt
    decreases |ms|
  {
    if ms != [] {
      MoveNeverShrinks(o, ms[0], wscale, workaround);
      OfferNeverShrinks(Apply(o, ms[0], wscale, workaround), ms[1..], wscale, workaround);
    }
  }
}
