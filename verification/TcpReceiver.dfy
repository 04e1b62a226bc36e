/** The receive path as the kernel runs it: 32-bit sequence numbers, buffers updated
    in place, loops over the queues. Every operation is proved equal to its model on
    unbounded offsets, as long as the live numbers lie within 2^31 of rcv_nxt. */
module TcpReceiver {
  import opened RedBlack
  import opened SeqNum
  import opened Segments
  import opened OutOfOrder
  import opened Receive
  import Window

  /** An sk_buff as its control block describes it. */
  datatype Skb = Skb(start: u32, endSeq: u32, data: seq<byte>)

  /** skb_try_coalesce on concrete buffers. */
  type Coalescer32 = (Skb, Skb) -> bool

  function Image(s: Seg): Skb {
    Skb(Wrap(s.start), Wrap(s.End()), s.data)
  }

  /** r holds the images of q, buffer by buffer. */
  ghost predicate Images(r: seq<Skb>, q: seq<Seg>) {
    |r| == |q| && forall i :: 0 <= i < |q| ==> r[i] == Image(q[i])
  }

  /** What a concrete coalescer answers on the buffers' images. */
  function Lift(co: Coalescer32): Coalescer {
    (to: Seg, from: Seg) => co(Image(to), Image(from))
  }

  // ---- Comparisons ----

  /** The widest window the comparisons bear: half the number space, less a packet. */
  const MAX_WINDOW: int := 0x7FFF_0000

  /** x is within a window's width from base. */
  predicate Near(x: int, base: int) {
    base <= x <= base + MAX_WINDOW
  }

  lemma Compare(x: int, y: int, base: int)
    requires Near(x, base) && Near(y, base)
    ensures Before(Wrap(x), Wrap(y)) <==> x < y
    ensures After(Wrap(x), Wrap(y)) <==> x > y
    ensures Wrap(x) == Wrap(y) <==> x == y
    ensures x <= y ==> Sub(Wrap(y), Wrap(x)) == y - x
  {
    BeforeOfWrap(x, y);
    BeforeOfWrap(y, x);
    WrapInjective(x, y);
    if x <= y { SubOfWrap(y, x); }
  }

  predicate SegNear(s: Seg, base: int) {
    Near(s.start, base) && Near(s.End(), base)
  }

  ghost predicate AllNear(q: seq<Seg>, base: int) {
    forall i :: 0 <= i < |q| ==> SegNear(q[i], base)
  }

  lemma CompareSegs(a: Seg, b: Seg, base: int)
    requires SegNear(a, base) && SegNear(b, base)
    ensures Before(Wrap(a.start), Wrap(b.start)) <==> a.start < b.start
    ensures Before(Wrap(a.start), Wrap(b.End())) <==> a.start < b.End()
    ensures After(Wrap(a.start), Wrap(b.start)) <==> a.start > b.start
    ensures After(Wrap(a.End()), Wrap(b.start)) <==> a.End() > b.start
    ensures After(Wrap(a.End()), Wrap(b.End())) <==> a.End() > b.End()
    ensures Before(Wrap(a.End()), Wrap(b.End())) <==> a.End() < b.End()
    ensures Wrap(a.start) == Wrap(b.End()) <==> a.start == b.End()
  {
    Compare(a.start, b.start, base);
    Compare(a.start, b.End(), base);
    Compare(a.End(), b.start, base);
    Compare(a.End(), b.End(), base);
  }

  // ---- The trimmers ----

  /** tcp_nip_left_overlap(cur, skb). */
  function LeftOverlap(cur: Skb, skb: Skb): Skb
    requires Sub(skb.endSeq, cur.start) <= |cur.data|
  {
    var diff := Sub(skb.endSeq, cur.start);
    Skb(Add(cur.start, diff), cur.endSeq, cur.data[diff..])
  }

  /** tcp_nip_right_overlap(cur, skb). */
  function RightOverlap(cur: Skb, skb: Skb): Skb
    requires Sub(cur.endSeq, skb.start) <= |cur.data|
  {
    var diff: int := Sub(cur.endSeq, skb.start);
    Skb(cur.start, Add(cur.endSeq, -diff), cur.data[..|cur.data| - diff])
  }

  lemma LeftOverlapOfImage(cur: Seg, skb: Seg, base: int)
    requires SegNear(cur, base) && SegNear(skb, base) && cur.start <= skb.End() <= cur.End()
    ensures Sub(Wrap(skb.End()), Wrap(cur.start)) <= |cur.data|
    ensures LeftOverlap(Image(cur), Image(skb)) == Image(LeftTrim(cur, skb.End()))
  {
    Compare(cur.start, skb.End(), base);
    AddOfWrap(cur.start, skb.End() - cur.start);
  }

  lemma RightOverlapOfImage(cur: Seg, skb: Seg, base: int)
    requires SegNear(cur, base) && SegNear(skb, base) && cur.start <= skb.start <= cur.End()
    ensures Sub(Wrap(cur.End()), Wrap(skb.start)) <= |cur.data|
    ensures RightOverlap(Image(cur), Image(skb)) == Image(RightTrim(cur, skb.start))
  {
    Compare(skb.start, cur.End(), base);
    AddOfWrap(cur.End(), skb.start - cur.End());
  }

  /** An arrival that starts inside q[at] and reaches past it: the right trimmer is called
      to take off more bytes than the left trimmer has left exactly when the next
      segment starts before q[at] ends. */
  lemma TrimUnderflowsIff(q: seq<Seg>, at: nat, s: Seg, base: int)
    requires Sorted(q) && at + 1 < |q| && AllNear(q, base) && SegNear(s, base)
    requires q[at].start < s.start < q[at].End() < s.End()
    ensures Sub(Wrap(q[at].End()), Wrap(s.start)) <= |s.data|
    ensures var cut, skb2 := LeftOverlap(Image(s), Image(q[at])), Image(q[at + 1]);
            Before(skb2.start, cut.endSeq) && Sub(cut.endSeq, skb2.start) > |cut.data|
            <==> q[at + 1].start < q[at].End()
  {
    LeftOverlapOfImage(s, q[at], base);
    Compare(q[at + 1].start, s.End(), base);
  }

  /** tcp_nip_try_coalesce: the test, and what it leaves in `to`. */
  predicate TryCoalesce(to: Skb, from: Skb, co: Coalescer32) {
    from.start == to.endSeq && co(to, from)
  }

  function Coalesced(to: Skb, from: Skb): Skb {
    Skb(to.start, from.endSeq, to.data + from.data)
  }

  lemma CoalesceOfImage(to: Seg, from: Seg, co: Coalescer32, base: int)
    requires SegNear(to, base) && SegNear(from, base)
    ensures TryCoalesce(Image(to), Image(from), co) <==> CanJoin(to, from, Lift(co))
    ensures CanJoin(to, from, Lift(co)) ==> Coalesced(Image(to), Image(from)) == Image(Join(to, from))
  {
    Compare(from.start, to.End(), base);
  }

  // ---- The walk and the merge loop ----

  /** The search loop over the tree. */
  method SearchTree(ooo: seq<Skb>, sh: Shape, skb: Skb, co: Coalescer32,
                    ghost q: seq<Seg>, ghost s: Seg, ghost base: int) returns (f: Found)
    requires Images(ooo, q) && skb == Image(s) && Size(sh) == |q|
    requires AllNear(q, base) && SegNear(s, base)
    ensures f == Walk(q, sh, 0, s, Lift(co))
  {
    var t, lo := sh, 0;
    while t.Node?
      invariant lo + Size(t) <= |q|
      invariant Walk(q, t, lo, s, Lift(co)) == Walk(q, sh, 0, s, Lift(co))
      decreases t
    {
      var i := lo + Size(t.left);
      CompareSegs(s, q[i], base);
      CoalesceOfImage(q[i], s, co, base);
      if Before(skb.start, ooo[i].start) {
        t := t.left;
      } else if Before(skb.start, ooo[i].endSeq) {
        return Inside(i);
      } else if TryCoalesce(ooo[i], skb, co) {
        return Adjacent(i);
      } else {
        t, lo := t.right, i + 1;
      }
    }
    return Gap(lo);
  }

  /** The merge_right loop: what is left of skb, and the first segment it leaves alone. */
  method MergeRight(ooo: seq<Skb>, b: nat, skb: Skb,
                    ghost q: seq<Seg>, ghost s: Seg, ghost base: int)
    returns (placed: Skb, j: nat)
    requires Images(ooo, q) && skb == Image(s) && b <= |q|
    requires forall k :: b <= k < |q| ==> s.start <= q[k].start
    requires AllNear(q, base) && SegNear(s, base)
    ensures j == FirstBeyond(q, b, s.End()) && placed == Image(Placed(q, b, s))
  {
    placed, j := skb, b;
    while j < |ooo|
      invariant b <= j <= |ooo| && placed == skb
      invariant FirstBeyond(q, b, s.End()) == FirstBeyond(q, j, s.End())
    {
      CompareSegs(s, q[j], base);
      if !After(skb.endSeq, ooo[j].start) {
        break;
      }
      if Before(skb.endSeq, ooo[j].endSeq) {
        RightOverlapOfImage(s, q[j], base);
        placed := RightOverlap(skb, ooo[j]);
        return;
      }
      j := j + 1;
    }
  }

  /** tcp_receive_window. */
  function ReceiveWindow(wup: u32, wnd: nat, nxt: u32): nat {
    var w := Sub(Add(wup, wnd), nxt);
    if w >= TWO31 then 0 else w
  }

  /** The tests of tcp_nip_data_queue on 32-bit numbers. */
  function Classify32(nxt: u32, win: nat, skb: Skb): Fate {
    var seqMax := Add(nxt, win);
    if skb.start == skb.endSeq then NoData
    else if skb.start == nxt && win == 0 then Unwanted
    else if !Before(skb.start, seqMax) then Unwanted
    else if !After(skb.endSeq, nxt) then Unwanted
    else if win == 0 || After(skb.endSeq, seqMax) then NoRoom
    else if skb.start == nxt || (Before(skb.start, nxt) && After(skb.endSeq, nxt)) then InOrder
    else Later
  }

  /** Within 2^31 of rcv_nxt, and no longer than a packet can be. */
  predicate Live(nxt: int, s: Seg) {
    nxt - TWO31 <= s.start && s.End() < nxt + TWO31 && |s.data| < 0x1_0000
  }

  /** Every accept, drop and trim decision made with 32-bit before() and after() is the
      decision on unbounded offsets, for every arrival within 2^31 of rcv_nxt. */
  lemma ClassifyOfImage(nxt: int, win: nat, s: Seg)
    requires Live(nxt, s) && win <= MAX_WINDOW
    ensures Classify32(Wrap(nxt), win, Image(s)) == Classify(nxt, win, s)
  {
    AddOfWrap(nxt, win);
    WrapInjective(s.start, s.End());
    WrapInjective(s.start, nxt);
    BeforeOfWrap(s.start, nxt);
    if |s.data| > 0 { BeforeOfWrap(nxt, s.End()); }
    if s.start - (nxt + win) >= -TWO31 {
      BeforeOfWrap(s.start, nxt + win);
    }
    if s.End() > nxt {
      BeforeOfWrap(nxt + win, s.End());
    }
  }

  /** The window computed on 32-bit numbers is the window on offsets. */
  lemma WindowOfImage(rx: Rx)
    requires rx.nxt <= rx.Edge() <= rx.nxt + MAX_WINDOW
    ensures ReceiveWindow(Wrap(rx.wup), rx.wnd, Wrap(rx.nxt)) == rx.Window()
  {
    AddOfWrap(rx.wup, rx.wnd);
    SubOfWrap(rx.Edge(), rx.nxt);
  }

  /** Within 2^31 of the last offer and of its edge. */
  predicate NearOffer(rx: Rx, s: Seg) {
    && rx.wup - TWO31 <= s.End() < rx.wup + TWO31
    && rx.nxt + rx.Window() - TWO31 < s.start <= rx.nxt + rx.Window() + TWO31
  }

  lemma SequenceOfImage(rx: Rx, s: Seg)
    requires NearOffer(rx, s)
    ensures !Before(Wrap(s.End()), Wrap(rx.wup)) && !After(Wrap(s.start), Add(Wrap(rx.nxt), rx.Window()))
            <==> InSequence(rx, s)
  {
    AddOfWrap(rx.nxt, rx.Window());
    BeforeOfWrap(s.End(), rx.wup);
    BeforeOfWrap(rx.nxt + rx.Window(), s.start);
  }

  /** Every queued buffer starts less than 2^31 before rcv_nxt. */
  ghost predicate Unread(rq: seq<Seg>, nxt: int) {
    forall i :: 0 <= i < |rq| ==> nxt - TWO31 <= rq[i].start
  }

  /** The unread bytes and the offered window both fit the number space around rcv_nxt. */
  ghost predicate InSpace(rx: Rx) {
    && rx.Edge() <= rx.nxt + MAX_WINDOW
    && Unread(rx.rq, rx.nxt)
  }

  // ---- One arrival against the out-of-order queue ----

  /** What becomes of an arrival, on concrete buffers. */
  datatype Outcome = Dropped | Appended(at: nat, piece: Skb) | Linked(lo: nat, hi: nat)

  function OutcomeOf(v: Verdict): Outcome {
    match v
    case Drop => Dropped
    case Merge(at, p) => Appended(at, Image(p))
    case Place(lo, hi) => Linked(lo, hi)
  }

  /** The branches taken once the walk has met a node that holds the first byte. */
  method AgainstNode(ooo: seq<Skb>, at: nat, skb: Skb, co: Coalescer32,
                     ghost q: seq<Seg>, ghost s: Seg, ghost base: int) returns (r: Outcome)
    requires Images(ooo, q) && skb == Image(s) && at + 1 < |q|
    requires Settled(q, s, Lift(co), Inside(at))
    requires AllNear(q, base) && SegNear(s, base)
    ensures r == OutcomeOf(Settle(q, s, Lift(co), Inside(at)))
  {
    var skb1 := ooo[at];
    CompareSegs(s, q[at], base);
    if !After(skb.endSeq, skb1.endSeq) {
      return Dropped;
    }
    if !After(skb.start, skb1.start) {
      return Linked(at, at + 1);
    }
    LeftOverlapOfImage(s, q[at], base);
    var cut := LeftOverlap(skb, skb1);
    ghost var t := LeftTrim(s, q[at].End());
    var skb2 := ooo[at + 1];
    CompareSegs(t, q[at + 1], base);
    CompareSegs(q[at + 1], t, base);
    if Before(skb2.start, cut.endSeq) {
      RightOverlapOfImage(t, q[at + 1], base);
      cut := RightOverlap(cut, skb2);
    }
    CoalesceOfImage(q[at], Piece(q, at, s), co, base);
    r := if TryCoalesce(skb1, cut, co) then Appended(at, cut) else Dropped;
  }

  /** The branch for an arrival that starts inside the segment at ooo_last_skb. */
  method AgainstLast(last: Skb, at: nat, skb: Skb, co: Coalescer32,
                     ghost l: Seg, ghost s: Seg, ghost base: int) returns (r: Outcome)
    requires last == Image(l) && skb == Image(s) && SegNear(l, base) && SegNear(s, base)
    requires l.Has(s.start)
    ensures r == OutcomeOf(
                   if s.End() <= l.End() then Drop
                   else if CanJoin(l, LeftTrim(s, l.End()), Lift(co)) then Merge(at, LeftTrim(s, l.End()))
                   else Drop)
  {
    CompareSegs(s, l, base);
    if !After(skb.endSeq, last.endSeq) {
      return Dropped;
    }
    LeftOverlapOfImage(s, l, base);
    CoalesceOfImage(l, LeftTrim(s, l.End()), co, base);
    var cut := LeftOverlap(skb, last);
    r := if TryCoalesce(last, cut, co) then Appended(at, cut) else Dropped;
  }

  /** tcp_nip_data_queue_ofo up to the point where the queue is changed. */
  method DecideOfo(ooo: seq<Skb>, oooLast: int, sh: Shape, skb: Skb, co: Coalescer32,
                   ghost q: seq<Seg>, ghost s: Seg, ghost base: int) returns (r: Outcome)
    requires Images(ooo, q) && skb == Image(s)
    requires Workable(q, sh, s, Lift(co)) && oooLast == |q| - 1
    requires AllNear(q, base) && SegNear(s, base)
    ensures r == OutcomeOf(Decide(q, oooLast, sh, s, Lift(co)))
  {
    if ooo == [] {
      return Linked(0, 0);
    }
    var last := ooo[oooLast];
    CoalesceOfImage(q[oooLast], s, co, base);
    CompareSegs(s, q[oooLast], base);
    if TryCoalesce(last, skb, co) {
      return Appended(oooLast, skb);
    }
    if !Before(skb.start, last.endSeq) {
      return Linked(oooLast + 1, oooLast + 1);
    }
    if !Before(skb.start, last.start) {
      r := AgainstLast(last, oooLast, skb, co, q[oooLast], s, base);
      return;
    }
    WalkFits(q, sh, 0, s, Lift(co));
    var f := SearchTree(ooo, sh, skb, co, q, s, base);
    match f
    case Gap(at) => r := Linked(at, at);
    case Adjacent(at) => r := Appended(at, skb);
    case Inside(at) => r := AgainstNode(ooo, at, skb, co, q, s, base);
  }

  lemma MergeOfImages(r: seq<Skb>, q: seq<Seg>, at: nat, p: Seg, co: Coalescer32, base: int)
    requires Images(r, q) && at < |q|
    requires AllNear(q, base) && SegNear(p, base) && CanJoin(q[at], p, Lift(co))
    ensures Images(r[at := Coalesced(r[at], Image(p))], q[at := Join(q[at], p)])
  {
    CoalesceOfImage(q[at], p, co, base);
  }

  lemma SpliceOfImages(r: seq<Skb>, q: seq<Seg>, a: nat, x: Seg, j: nat)
    requires Images(r, q) && a <= j <= |q|
    ensures Images(r[..a] + [Image(x)] + r[j..], Splice(q, a, x, j))
  {
  }

  /** The arrival linked in place of lo..hi, absorbing what it covers on its right. */
  method LinkOver(ooo: seq<Skb>, oooLast: int, skb: Skb, lo: nat, hi: nat,
                  ghost o: Ofo, ghost s: Seg, ghost base: int)
    returns (ooo': seq<Skb>, last': int)
    requires Images(ooo, o.q) && oooLast == o.last && skb == Image(s)
    requires Applicable(o.q, s, Place(lo, hi))
    requires AllNear(o.q, base) && SegNear(s, base)
    ensures Images(ooo', Apply(o, s, Place(lo, hi)).q) && last' == Apply(o, s, Place(lo, hi)).last
  {
    var placed, j := MergeRight(ooo, hi, skb, o.q, s, base);
    SpliceOfImages(ooo, o.q, lo, Placed(o.q, hi, s), j);
    ooo' := ooo[..lo] + [placed] + ooo[j..];
    last' := if j == |ooo| then lo else oooLast + |ooo'| - |ooo|;
  }

  /** The queue update that follows the decision. */
  method Link(ooo: seq<Skb>, oooLast: int, skb: Skb, r: Outcome, ghost co: Coalescer32,
              ghost o: Ofo, ghost s: Seg, ghost v: Verdict, ghost base: int)
    returns (ooo': seq<Skb>, last': int)
    requires Images(ooo, o.q) && oooLast == o.last && skb == Image(s) && r == OutcomeOf(v)
    requires Sound(o.q, s, Lift(co), v) && Applicable(o.q, s, v) && |s.data| > 0
    requires AllNear(o.q, base) && SegNear(s, base)
    ensures Images(ooo', Apply(o, s, v).q) && last' == Apply(o, s, v).last
  {
    match r
    case Dropped =>
      ooo', last' := ooo, oooLast;
    case Appended(at, piece) =>
      AppendedNear(o.q, s, Lift(co), v, base);
      MergeOfImages(ooo, o.q, at, v.piece, co, base);
      ooo', last' := ooo[at := Coalesced(ooo[at], piece)], oooLast;
    case Linked(lo, hi) =>
      ooo', last' := LinkOver(ooo, oooLast, skb, lo, hi, o, s, base);
  }

  lemma AppendedNear(q: seq<Seg>, s: Seg, co: Coalescer, v: Verdict, base: int)
    requires Sound(q, s, co, v) && v.Merge? && AllNear(q, base) && SegNear(s, base) && |s.data| > 0
    ensures v.at < |q| && SegNear(v.piece, base) && CanJoin(q[v.at], v.piece, co)
  {
  }

  // ---- Draining ----

  lemma QueueOfImage(r: seq<Skb>, rq: seq<Seg>, s: Seg, co: Coalescer32, nxt: int, base: int)
    requires Images(r, rq) && rq != [] && rq[|rq| - 1].End() == nxt
    requires SegNear(s, base) && Near(nxt, base)
    ensures var tail := r[|r| - 1];
            Images(if TryCoalesce(tail, Image(s), co) then r[|r| - 1 := Coalesced(tail, Image(s))] else r + [Image(s)],
                   Queue(rq, s, Lift(co)))
  {
    Compare(s.start, nxt, base);
  }

  /** tcp_nip_ofo_queue. */
  method DrainOfo(nxt: u32, rq: seq<Skb>, ooo: seq<Skb>, co: Coalescer32,
                  ghost n: int, ghost rqs: seq<Seg>, ghost q: seq<Seg>, ghost base: int)
    returns (nxt': u32, rq': seq<Skb>, ooo': seq<Skb>)
    requires nxt == Wrap(n) && Images(rq, rqs) && Images(ooo, q)
    requires rqs != [] && rqs[|rqs| - 1].End() == n && Near(n, base) && AllNear(q, base)
    ensures var d := Drain(n, rqs, q, Lift(co));
            nxt' == Wrap(d.nxt) && Images(rq', d.rq) && Images(ooo', d.q) && |d.q| <= |q|
  {
    nxt', rq', ooo' := nxt, rq, ooo;
    ghost var n', rqs', q' := n, rqs, q;
    while ooo' != []
      invariant nxt' == Wrap(n') && Images(rq', rqs') && Images(ooo', q') && |q'| <= |q|
      invariant rqs' != [] && rqs'[|rqs'| - 1].End() == n' && Near(n', base) && AllNear(q', base)
      invariant Drain(n', rqs', q', Lift(co)) == Drain(n, rqs, q, Lift(co))
      decreases |ooo'|
    {
      var skb := ooo'[0];
      Compare(q'[0].start, n', base);
      Compare(q'[0].End(), n', base);
      if After(skb.start, nxt') {
        break;
      }
      ooo' := ooo'[1..];
      if After(skb.endSeq, nxt') {
        QueueOfImage(rq', rqs', q'[0], co, n', base);
        var tail := rq'[|rq'| - 1];
        rq' := if TryCoalesce(tail, skb, co) then rq'[|rq'| - 1 := Coalesced(tail, skb)] else rq' + [skb];
        nxt' := skb.endSeq;
        n', rqs' := q'[0].End(), Queue(rqs', q'[0], Lift(co));
      }
      q' := q'[1..];
    }
    DrainIsSuffix(n', rqs', q', Lift(co));
  }

  /** What the kernel decides outside this code, on concrete buffers. */
  datatype Env32 = Env32(sh: Shape, co: Coalescer32, full: bool)

  function LiftEnv(e: Env32): Env {
    Env(e.sh, Lift(e.co), e.full)
  }

  /** tcp_nip_overlap_handle. */
  function OverlapHandle(skb: Skb, nxt: u32): Skb
    requires Sub(nxt, skb.start) <= |skb.data|
  {
    var diff := Sub(nxt, skb.start);
    Skb(Add(skb.start, diff), skb.endSeq, skb.data[diff..])
  }

  lemma OverlapOfImage(s: Seg, nxt: int)
    requires s.start <= nxt <= s.End() && |s.data| < 0x1_0000
    ensures Sub(Wrap(nxt), Wrap(s.start)) <= |s.data|
    ensures OverlapHandle(Image(s), Wrap(nxt)) == Image(LeftTrim(s, nxt))
  {
    SubOfWrap(nxt, s.start);
    AddOfWrap(s.start, nxt - s.start);
  }

  /** What the concrete delivery relies on and leaves behind. */
  lemma InOrderStep(rx: Rx, s: Seg, env: Env32)
    requires RxInv(rx) && InSpace(rx) && Admissible(rx, s, LiftEnv(env))
    requires Classify(rx.nxt, rx.Window(), s).InOrder?
    ensures AllNear(rx.ooo.q, rx.nxt) && Near(s.End(), rx.nxt)
    ensures s.start <= rx.nxt < s.End()
    ensures RxInv(Receive.DataQueue(rx, s, LiftEnv(env)))
  {
    InOrderKeeps(rx, s, LiftEnv(env));
  }

  /** Decide, then update the queue. */
  method InsertOfo(ooo: seq<Skb>, oooLast: int, skb: Skb, env: Env32,
                   ghost o: Ofo, ghost s: Seg, ghost base: int)
    returns (ooo': seq<Skb>, last': int)
    requires Images(ooo, o.q) && oooLast == o.last == |o.q| - 1 && skb == Image(s)
    requires Workable(o.q, env.sh, s, Lift(env.co))
    requires AllNear(o.q, base) && SegNear(s, base)
    ensures Images(ooo', Insert(o, env.sh, s, Lift(env.co)).q)
    ensures last' == Insert(o, env.sh, s, Lift(env.co)).last
  {
    DecideIsSound(o.q, o.last, env.sh, s, Lift(env.co));
    var r := DecideOfo(ooo, oooLast, env.sh, skb, env.co, o.q, s, base);
    ooo', last' := Link(ooo, oooLast, skb, r, env.co, o, s, Decide(o.q, o.last, env.sh, s, Lift(env.co)), base);
  }

  /** What the concrete insertion relies on and leaves behind. */
  lemma OfoStep(rx: Rx, s: Seg, env: Env32)
    requires RxInv(rx) && InSpace(rx) && Workable(rx.ooo.q, env.sh, s, Lift(env.co))
    requires rx.nxt < s.start && s.End() <= rx.Edge()
    ensures AllNear(rx.ooo.q, rx.nxt) && SegNear(s, rx.nxt)
    ensures RxInv(rx.(ooo := Insert(rx.ooo, env.sh, s, Lift(env.co))))
  {
    InsertKeepsSorted(rx.ooo, env.sh, s, Lift(env.co));
    InsertWithin(rx.ooo, env.sh, s, Lift(env.co), rx.nxt + 1, rx.Edge());
  }

  /** Trim to rcv_nxt, queue, drain. */
  method DeliverSegment(nxt: u32, rq: seq<Skb>, ooo: seq<Skb>, oooLast: int, skb: Skb, env: Env32,
                        ghost rx: Rx, ghost s: Seg)
    returns (nxt': u32, rq': seq<Skb>, ooo': seq<Skb>, last': int)
    requires nxt == Wrap(rx.nxt) && Images(rq, rx.rq) && Images(ooo, rx.ooo.q) && oooLast == rx.ooo.last
    requires skb == Image(s) && |s.data| < 0x1_0000 && s.start <= rx.nxt < s.End()
    requires AllNear(rx.ooo.q, rx.nxt) && Near(s.End(), rx.nxt)
    ensures var d := Drain(s.End(), rx.rq + [LeftTrim(s, rx.nxt)], rx.ooo.q, Lift(env.co));
            && nxt' == Wrap(d.nxt) && Images(rq', d.rq) && Images(ooo', d.q)
            && last' == rx.ooo.last - (|rx.ooo.q| - |d.q|)
  {
    WrapInjective(s.start, rx.nxt);
    OverlapOfImage(s, rx.nxt);
    var t := if skb.start != nxt then OverlapHandle(skb, nxt) else skb;
    nxt', rq', ooo' := DrainOfo(t.endSeq, rq + [t], ooo, env.co,
                                s.End(), rx.rq + [LeftTrim(s, rx.nxt)], rx.ooo.q, rx.nxt);
    last' := oooLast - (|ooo| - |ooo'|);
  }

  // ---- Reading ----

  lemma HeadOfImage(c: int, rqs: seq<Seg>, nxt: int)
    requires Chain(c, rqs, nxt) && Unread(rqs, nxt) && rqs != []
    ensures !Before(Wrap(c), Wrap(rqs[0].start))
    ensures Sub(Wrap(c), Wrap(rqs[0].start)) == c - rqs[0].start < |rqs[0].data|
    ensures Before(Wrap(c), Wrap(rqs[0].End()))
  {
    ChainAhead(c, rqs, nxt);
    BeforeOfWrap(c, rqs[0].start);
    SubOfWrap(c, rqs[0].start);
    BeforeOfWrap(c, rqs[0].End());
  }

  /** Where the walk over sk_receive_queue ends, and whether a WARN fired on the way. */
  datatype Walked = Walked(found: bool, at: nat, offset: nat, warned: bool)

  /** The walk over sk_receive_queue for the first buffer with unread bytes, with its
      two WARN conditions: a buffer that starts beyond copied_seq, and a buffer that
      holds no unread byte. */
  function FindOkSkb(copied: u32, rq: seq<Skb>, at: nat): Walked
    requires at <= |rq|
    decreases |rq| - at
  {
    if at == |rq| then Walked(false, at, 0, false)
    else if Before(copied, rq[at].start) then Walked(false, at, 0, true)
    else if Sub(copied, rq[at].start) < |rq[at].data| then Walked(true, at, Sub(copied, rq[at].start), false)
    else FindOkSkb(copied, rq, at + 1).(warned := true)
  }

  /** On a gap-free queue the walk stops at the head, and no WARN fires. */
  lemma WalkStopsAtHead(copied: u32, rq: seq<Skb>, c: int, rqs: seq<Seg>, nxt: int)
    requires copied == Wrap(c) && Images(rq, rqs) && Chain(c, rqs, nxt) && Unread(rqs, nxt)
    ensures FindOkSkb(copied, rq, 0) ==
            if rq == [] then Walked(false, 0, 0, false) else Walked(true, 0, c - rqs[0].start, false)
  {
    if rq != [] { HeadOfImage(c, rqs, nxt); }
  }

  function Prepend(bytes: seq<byte>, r: ReadOut): ReadOut {
    r.(bytes := bytes + r.bytes)
  }

  lemma PrependTwice(a: seq<byte>, b: seq<byte>, r: ReadOut)
    ensures Prepend(a, Prepend(b, r)) == Prepend(a + b, r)
  {
    assert a + (b + r.bytes) == a + b + r.bytes;
  }

  /** One round of the copy loop, with the head buffer left in place. */
  lemma PartialStep(c: int, rqs: seq<Seg>, nxt: int, len: nat)
    requires Chain(c, rqs, nxt) && len > 0 && rqs != [] && c + |HeadBytes(c, rqs[0], len)| < rqs[0].End()
    ensures var head := HeadBytes(c, rqs[0], len);
            && |head| == len && Chain(c + |head|, rqs, nxt)
            && Read(c, rqs, len) == Prepend(head, Read(c + |head|, rqs, 0))
  {
  }

  /** One round of the copy loop that uses the head buffer up. */
  lemma EatingStep(c: int, rqs: seq<Seg>, nxt: int, len: nat)
    requires Chain(c, rqs, nxt) && len > 0 && rqs != [] && c + |HeadBytes(c, rqs[0], len)| == rqs[0].End()
    ensures var head := HeadBytes(c, rqs[0], len);
            && 0 < |head| <= len && Chain(c + |head|, rqs[1..], nxt)
            && Read(c, rqs, len) == Prepend(head, Read(c + |head|, rqs[1..], len - |head|))
  {
    ChainTail(c, rqs, nxt);
  }

  lemma TailOfImages(rq: seq<Skb>, rqs: seq<Seg>, nxt: int)
    requires Images(rq, rqs) && rqs != [] && Unread(rqs, nxt)
    ensures Images(rq[..0] + rq[1..], rqs[1..]) && Unread(rqs[1..], nxt)
  {
  }

  /** What one round copies, and whether it uses the buffer up. */
  method TakeBytes(skb: Skb, offset: nat, left: nat, ghost s: Seg, ghost c: int)
    returns (part: seq<byte>, eaten: bool)
    requires skb == Image(s) && s.start <= c < s.End() && offset == c - s.start
    ensures part == HeadBytes(c, s, left)
    ensures eaten <==> c + |part| == s.End()
  {
    var used := if left < |skb.data| - offset then left else |skb.data| - offset;
    part := skb.data[offset..offset + used];
    eaten := used + offset >= |skb.data|;
  }

  ghost predicate Readable(copied: u32, rq: seq<Skb>, c: int, rqs: seq<Seg>, nxt: int) {
    copied == Wrap(c) && Images(rq, rqs) && Chain(c, rqs, nxt) && Unread(rqs, nxt)
  }

  /** One round of the copy loop of tcp_nip_recvmsg. */
  method ReadRound(copied: u32, rq: seq<Skb>, left: nat,
                   ghost c: int, ghost rqs: seq<Seg>, ghost nxt: int)
    returns (found: bool, copied': u32, rq': seq<Skb>, part: seq<byte>, warned: bool,
             ghost c': int, ghost rqs': seq<Seg>)
    requires Readable(copied, rq, c, rqs, nxt) && left > 0
    ensures !warned && (found <==> rq != []) && Readable(copied', rq', c', rqs', nxt)
    ensures found ==> 0 < |part| <= left && Read(c, rqs, left) == Prepend(part, Read(c', rqs', left - |part|))
    ensures !found ==> part == [] && c' == c && rqs' == rqs
  {
    hide Straddles, Unread, Wrap;
    copied', rq', part, c', rqs' := copied, rq, [], c, rqs;
    WalkStopsAtHead(copied, rq, c, rqs, nxt);
    var w := FindOkSkb(copied, rq, 0);
    found, warned := w.found, w.warned;
    if !found {
      return;
    }
    var eaten;
    part, eaten := TakeBytes(rq[w.at], w.offset, left, rqs[0], c);
    AddOfWrap(c, |part|);
    copied', c' := Add(copied, |part|), c + |part|;
    if eaten {
      EatingStep(c, rqs, nxt, left);
      TailOfImages(rq, rqs, nxt);
      rq', rqs' := rq[..w.at] + rq[w.at + 1..], rqs[1..];
    } else {
      PartialStep(c, rqs, nxt, left);
    }
  }

  /** The copy loop of tcp_nip_recvmsg, up to the end of the queue. */
  method ReadQueue(copied: u32, rq: seq<Skb>, len: nat,
                   ghost c: int, ghost rqs: seq<Seg>, ghost nxt: int)
    returns (copied': u32, rq': seq<Skb>, bytes: seq<byte>, warned: bool)
    requires Readable(copied, rq, c, rqs, nxt)
    ensures !warned
    ensures var r := Read(c, rqs, len);
            copied' == Wrap(r.copied) && Images(rq', r.rq) && bytes == r.bytes
  {
    hide Straddles, Unread, HeadBytes;
    copied', rq', bytes, warned := copied, rq, [], false;
    ghost var c', rqs' := c, rqs;
    var left, found := len, true;
    while left > 0 && found
      invariant Readable(copied', rq', c', rqs', nxt) && !warned && 0 <= left <= len
      invariant Read(c, rqs, len) == Prepend(bytes, Read(c', rqs', left))
      invariant !found ==> rqs' == []
      decreases left, found
    {
      var part, w;
      ghost var r := Read(c', rqs', left);
      found, copied', rq', part, w, c', rqs' := ReadRound(copied', rq', left, c', rqs', nxt);
      if found {
        PrependTwice(bytes, part, Read(c', rqs', left - |part|));
      }
      bytes, left, warned := bytes + part, left - |part|, warned || w;
    }
    assert Read(c', rqs', left) == ReadOut(c', rqs', []);
  }

  /** The receiving half of a socket. */
  class TcpSock {
    var rcvNxt: u32
    var rcvWup: u32
    var rcvWnd: nat
    var copiedSeq: u32
    var receiveQueue: seq<Skb>
    var outOfOrder: seq<Skb>
    var oooLast: int

    /** The same state on unbounded offsets. */
    ghost var abs: Rx

    ghost predicate Valid()
      reads this
    {
      && RxInv(abs)
      && rcvNxt == Wrap(abs.nxt) && rcvWup == Wrap(abs.wup) && rcvWnd == abs.wnd
      && copiedSeq == Wrap(abs.copied)
      && Images(receiveQueue, abs.rq)
      && Images(outOfOrder, abs.ooo.q) && oooLast == abs.ooo.last
    }

    /** A connection that has received nothing yet and has offered `wnd` bytes. */
    constructor (next: u32, wnd: nat, ghost n: int)
      requires wnd <= MAX_WINDOW && next == Wrap(n)
      ensures Valid() && InSpace(abs) && abs == Rx(n, n, wnd, n, [], Ofo([], -1))
    {
      rcvNxt, rcvWup, rcvWnd, copiedSeq := next, next, wnd, next;
      receiveQueue, outOfOrder, oooLast := [], [], -1;
      abs := Rx(n, n, wnd, n, [], Ofo([], -1));
    }

    /** tcp_nip_data_queue_ofo. */
    method DataQueueOfo(skb: Skb, env: Env32, ghost s: Seg)
      requires Valid() && InSpace(abs) && skb == Image(s)
      requires Workable(abs.ooo.q, env.sh, s, Lift(env.co))
      requires abs.nxt < s.start && s.End() <= abs.Edge()
      modifies this`outOfOrder, this`oooLast, this`abs
      ensures Valid()
      ensures abs == old(abs).(ooo := Insert(old(abs.ooo), env.sh, s, Lift(env.co)))
    {
      hide Chain, Sorted, Within, Insert, AllNear, Disjoint, Cell;
      OfoStep(abs, s, env);
      outOfOrder, oooLast := InsertOfo(outOfOrder, oooLast, skb, env, abs.ooo, s, abs.nxt);
      abs := abs.(ooo := Insert(abs.ooo, env.sh, s, Lift(env.co)));
    }

    /** tcp_nip_sequence. */
    method Sequence(skb: Skb, ghost s: Seg) returns (ok: bool)
      requires Valid() && InSpace(abs) && skb == Image(s) && NearOffer(abs, s)
      ensures ok <==> InSequence(abs, s)
    {
      var win := ReceiveWindow(rcvWup, rcvWnd, rcvNxt);
      WindowOfImage(abs);
      SequenceOfImage(abs, s);
      ok := !Before(skb.endSeq, rcvWup) && !After(skb.start, Add(rcvNxt, win));
    }

    /** tcp_nip_data_queue: the concrete state moves exactly as the model does. */
    method DataQueue(skb: Skb, env: Env32, ghost s: Seg)
      requires Valid() && InSpace(abs) && skb == Image(s) && Live(abs.nxt, s)
      requires Admissible(abs, s, LiftEnv(env))
      modifies this
      ensures Valid()
      ensures abs == Receive.DataQueue(old(abs), s, LiftEnv(env))
    {
      var win := ReceiveWindow(rcvWup, rcvWnd, rcvNxt);
      WindowOfImage(abs);
      ClassifyOfImage(abs.nxt, win, s);
      match Classify32(rcvNxt, win, skb)
      case InOrder => Deliver(skb, env, s);
      case Later => if !env.full { DataQueueOfo(skb, env, s); }
      case _ =>
    }

    /** The in-order branch of tcp_nip_data_queue. */
    method Deliver(skb: Skb, env: Env32, ghost s: Seg)
      requires Valid() && InSpace(abs) && skb == Image(s) && Live(abs.nxt, s)
      requires Admissible(abs, s, LiftEnv(env)) && Classify(abs.nxt, abs.Window(), s).InOrder?
      modifies this
      ensures Valid()
      ensures abs == Receive.DataQueue(old(abs), s, LiftEnv(env))
    {
      hide Chain, Sorted, Within, Drain, Insert, AllNear, Disjoint, Cell;
      InOrderStep(abs, s, env);
      rcvNxt, receiveQueue, outOfOrder, oooLast :=
        DeliverSegment(rcvNxt, receiveQueue, outOfOrder, oooLast, skb, env, abs, s);
      abs := Receive.DataQueue(abs, s, LiftEnv(env));
    }

    /** tcp_nip_recvmsg without MSG_PEEK: the next bytes, and neither WARN fires. */
    method RecvMsg(len: nat) returns (bytes: seq<byte>, warned: bool)
      requires Valid() && InSpace(abs)
      modifies this`copiedSeq, this`receiveQueue, this`abs
      ensures Valid() && !warned
      ensures var r := Read(old(abs.copied), old(abs.rq), len);
              bytes == r.bytes && abs == old(abs).(copied := r.copied, rq := r.rq)
    {
      hide Sorted, Within, Follows;
      ReadKeepsChain(abs.copied, abs.rq, abs.nxt, len);
      copiedSeq, receiveQueue, bytes, warned :=
        ReadQueue(copiedSeq, receiveQueue, len, abs.copied, abs.rq, abs.nxt);
      ghost var r := Read(abs.copied, abs.rq, len);
      abs := abs.(copied := r.copied, rq := r.rq);
    }

    /** The WARN condition of tcp_nip_cleanup_rbuf never holds. */
    method CleanupRbufWarns() returns (warned: bool)
      requires Valid() && InSpace(abs)
      ensures !warned
    {
      warned := false;
      if receiveQueue != [] {
        HeadOfImage(abs.copied, abs.rq, abs.nxt);
        warned := !Before(copiedSeq, receiveQueue[0].endSeq);
      }
    }

    /** nip_tcp_select_window, when a segment goes out while the free space is `free`. */
    method SelectWindow(free: nat, wscale: nat, workaround: bool) returns (field: nat)
      requires Valid() && InSpace(abs) && Window.Whole(free, Window.Pow2(wscale))
      modifies this`rcvWnd, this`rcvWup, this`abs
      ensures Valid() && old(abs.Edge()) <= abs.Edge()
      ensures abs == Offer(old(abs), free, wscale)
      ensures field == Window.Field(abs.wnd, wscale, workaround)
    {
      var cur := ReceiveWindow(rcvWup, rcvWnd, rcvNxt);
      WindowOfImage(abs);
      OfferKeeps(abs, free, wscale);
      rcvWnd := if free < cur then Window.Align(cur, Window.Pow2(wscale)) else free;
      rcvWup := rcvNxt;
      field := Window.Field(rcvWnd, wscale, workaround);
      abs := Offer(abs, free, wscale);
    }
  }
}
