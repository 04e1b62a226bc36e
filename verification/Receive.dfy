/** The receive path on unbounded offsets: tcp_nip_data_queue, tcp_nip_ofo_queue,
    tcp_nip_recvmsg, and the window bookkeeping they share. */
module Receive {
  import opened RedBlack
  import opened Segments
  import opened OutOfOrder
  import Window

  /** rcv_nxt, rcv_wup, rcv_wnd, copied_seq, sk_receive_queue and the out-of-order queue. */
  datatype Rx = Rx(nxt: int, wup: int, wnd: nat, copied: int, rq: seq<Seg>, ooo: Ofo) {

    /** The right edge of the window last offered to the peer. */
    function Edge(): int {
      wup + wnd
    }

    /** tcp_receive_window. */
    function Window(): nat {
      if Edge() <= nxt then 0 else Edge() - nxt
    }
  }

  // ---- What happens to an arrival ----

  /** Unwanted arrivals (beyond the window, or wholly old) share one exit, as in the code. */
  datatype Fate = NoData | Unwanted | NoRoom | InOrder | Later

  /** The tests of tcp_nip_data_queue, in the order it makes them. */
  function Classify(nxt: int, win: nat, s: Seg): Fate {
    if |s.data| == 0 then NoData
    else if s.start == nxt && win == 0 then Unwanted
    else if s.start >= nxt + win then Unwanted
    else if s.End() <= nxt then Unwanted
    else if win == 0 || s.End() > nxt + win then NoRoom
    else if s.start == nxt || (s.start < nxt && s.End() > nxt) then InOrder
    else Later
  }

  /** An arrival is taken exactly when it brings a byte that is wanted and lies
      wholly at or left of the right edge; it is in order exactly when it brings the
      next byte. */
  lemma ClassifyMeaning(nxt: int, win: nat, s: Seg)
    ensures Classify(nxt, win, s).InOrder? <==> s.Has(nxt) && s.End() <= nxt + win
    ensures Classify(nxt, win, s).Later? <==> nxt < s.start && |s.data| > 0 && s.End() <= nxt + win
  {
  }

  /** Everything else is dropped: an empty segment, one with a wanted byte that does not
      fit, and one without. */
  lemma DropsMeaning(nxt: int, win: nat, s: Seg)
    ensures Classify(nxt, win, s).NoData? <==> s.data == []
    ensures Classify(nxt, win, s).NoRoom? <==> s.data != [] && s.start < nxt + win < s.End() && nxt < s.End()
    ensures Classify(nxt, win, s).Unwanted? <==> s.data != [] && (s.End() <= nxt || nxt + win <= s.start)
  {
  }

  /** tcp_nip_sequence: not wholly before the last offer, not beyond the window. */
  predicate InSequence(rx: Rx, s: Seg) {
    rx.wup <= s.End() && s.start <= rx.nxt + rx.Window()
  }

  /** The test never turns away what tcp_nip_data_queue would take; it turns a segment
      away from the first number behind the window on, and before the last offer's start. */
  lemma SequenceMeaning(rx: Rx, s: Seg)
    requires rx.wup <= rx.nxt
    ensures Classify(rx.nxt, rx.Window(), s).InOrder? || Classify(rx.nxt, rx.Window(), s).Later? ==> InSequence(rx, s)
    ensures s.start == rx.nxt + rx.Window() || s.End() == rx.wup ==> InSequence(rx, s)
    ensures s.start > rx.nxt + rx.Window() || s.End() < rx.wup ==> !InSequence(rx, s)
  {
  }

  // ---- Draining the out-of-order queue ----

  datatype Drained = Drained(nxt: int, rq: seq<Seg>, q: seq<Seg>)

  /** __skb_queue_tail, or the coalesce with the tail that stands in for it. */
  function Queue(rq: seq<Seg>, s: Seg, co: Coalescer): seq<Seg> {
    if rq != [] && CanJoin(rq[|rq| - 1], s, co)
    then rq[|rq| - 1 := Join(rq[|rq| - 1], s)]
    else rq + [s]
  }

  /** tcp_nip_ofo_queue. */
  function Drain(nxt: int, rq: seq<Seg>, q: seq<Seg>, co: Coalescer): Drained
    decreases |q|
  {
    if q == [] || q[0].start > nxt then Drained(nxt, rq, q)
    else if q[0].End() <= nxt then Drain(nxt, rq, q[1..], co)
    else Drain(q[0].End(), Queue(rq, q[0], co), q[1..], co)
  }

  predicate Follows(a: Seg, b: Seg) {
    b.start <= a.End() < b.End()
  }

  /** The receive queue is gap-free from copied_seq to rcv_nxt: each buffer starts no
      later than its predecessor's end and ends strictly after it. */
  ghost predicate Chain(copied: int, rq: seq<Seg>, nxt: int) {
    && (if rq == [] then copied == nxt else rq[|rq| - 1].End() == nxt)
    && Straddles(copied, rq)
  }

  /** The head holds the byte at copied_seq, and each buffer follows on its predecessor. */
  ghost predicate Straddles(copied: int, rq: seq<Seg>) {
    && (rq != [] ==> rq[0].start <= copied < rq[0].End())
    && (forall i, j :: 0 <= i && j == i + 1 < |rq| ==> Follows(rq[i], rq[j]))
  }

  lemma QueueCarries(rq: seq<Seg>, s: Seg, co: Coalescer, st: Stream)
    requires AllCarry(rq, st) && Carries(s, st)
    ensures AllCarry(Queue(rq, s, co), st)
  {
    if rq != [] && CanJoin(rq[|rq| - 1], s, co) {
      JoinCarries(rq[|rq| - 1], s, st);
    }
  }

  /** The drain keeps the chain and leaves a suffix of the queue in which nothing
      starts at or before the new rcv_nxt. */
  lemma {:induction false} DrainIsOrdered(copied: int, nxt: int, rq: seq<Seg>, q: seq<Seg>, co: Coalescer)
    requires Chain(copied, rq, nxt) && Sorted(q)
    ensures var d := Drain(nxt, rq, q, co);
            && Chain(copied, d.rq, d.nxt)
            && nxt <= d.nxt
            && |d.q| <= |q| && d.q == q[|q| - |d.q|..]
            && (forall i :: 0 <= i < |d.q| ==> d.nxt < d.q[i].start)
    decreases |q|
  {
    if q == [] || q[0].start > nxt {
      forall i | 0 <= i < |q| ensures nxt < q[i].start {
        if 0 < i { assert q[0].start < q[i].start; }
      }
    } else if q[0].End() <= nxt {
      DrainIsOrdered(copied, nxt, rq, q[1..], co);
    } else {
      DrainIsOrdered(copied, q[0].End(), Queue(rq, q[0], co), q[1..], co);
    }
  }

  lemma {:induction false} DrainCarries(nxt: int, rq: seq<Seg>, q: seq<Seg>, co: Coalescer, st: Stream)
    requires AllCarry(rq, st) && AllCarry(q, st)
    ensures AllCarry(Drain(nxt, rq, q, co).rq, st)
    decreases |q|
  {
    if q != [] && q[0].start <= nxt {
      if q[0].End() <= nxt {
        DrainCarries(nxt, rq, q[1..], co, st);
      } else {
        QueueCarries(rq, q[0], co, st);
        DrainCarries(q[0].End(), Queue(rq, q[0], co), q[1..], co, st);
      }
    }
  }

  /** The drain moves exactly the buffered run that starts at rcv_nxt: every byte up
      to the new rcv_nxt was buffered, every buffered byte from there on stays, and
      the byte at the new rcv_nxt is missing. */
  lemma {:induction false} DrainIsMaximal(nxt: int, rq: seq<Seg>, q: seq<Seg>, co: Coalescer, x: int)
    requires Sorted(q)
    ensures var d := Drain(nxt, rq, q, co);
            && nxt <= d.nxt
            && (nxt <= x < d.nxt ==> Covers(q, x))
            && (d.nxt <= x ==> (Covers(d.q, x) <==> Covers(q, x)))
            && !Covers(d.q, d.nxt)
    decreases |q|
  {
    if q == [] {
    } else if q[0].start > nxt {
      forall i | 0 <= i < |q| ensures !q[i].Has(nxt) {
        if 0 < i { assert q[0].start < q[i].start; }
      }
    } else {
      if q[0].End() <= nxt {
        DrainIsMaximal(nxt, rq, q[1..], co, x);
      } else {
        DrainIsMaximal(q[0].End(), Queue(rq, q[0], co), q[1..], co, x);
      }
    }
  }

  // ---- Receiving ----

  /** What the kernel decides outside this code: the tree's shape, the answers of
      skb_try_coalesce, and whether the socket is over its memory limit. */
  datatype Env = Env(sh: Shape, co: Coalescer, full: bool)

  /** The trims that the arrival calls for in the out-of-order queue are defined. */
  predicate Admissible(rx: Rx, s: Seg, env: Env) {
    && Size(env.sh) == |rx.ooo.q|
    && (Classify(rx.nxt, rx.Window(), s).Later? ==> TrimsFit(rx.ooo.q, env.sh, s, env.co))
  }

  /** What every operation keeps. */
  ghost predicate RxInv(rx: Rx) {
    && Chain(rx.copied, rx.rq, rx.nxt)
    && Sorted(rx.ooo.q)
    && rx.ooo.last == |rx.ooo.q| - 1
    && Within(rx.ooo.q, rx.nxt + 1, rx.Edge())
    && rx.nxt <= rx.Edge()
  }

  /** tcp_nip_data_queue. */
  function DataQueue(rx: Rx, s: Seg, env: Env): Rx
    requires RxInv(rx) && Admissible(rx, s, env)
  {
    match Classify(rx.nxt, rx.Window(), s)
    case InOrder =>
      var t := LeftTrim(s, rx.nxt);
      var d := Drain(t.End(), rx.rq + [t], rx.ooo.q, env.co);
      rx.(nxt := d.nxt, rq := d.rq,
          ooo := Ofo(d.q, rx.ooo.last - (|rx.ooo.q| - |d.q|)))
    case Later => if env.full then rx else rx.(ooo := Insert(rx.ooo, env.sh, s, env.co))
    case _ => rx
  }

  lemma AppendKeepsChain(copied: int, rq: seq<Seg>, nxt: int, t: Seg)
    requires Chain(copied, rq, nxt) && t.start == nxt < t.End()
    ensures Chain(copied, rq + [t], t.End())
  {
    var r := rq + [t];
    forall i, j | 0 <= i && j == i + 1 < |r| ensures Follows(r[i], r[j]) {
      if j < |rq| { assert Follows(rq[i], rq[j]); }
    }
  }

  lemma {:induction false} DrainStaysLeft(nxt: int, rq: seq<Seg>, q: seq<Seg>, co: Coalescer, lo: int, hi: int)
    requires Within(q, lo, hi) && nxt <= hi
    ensures Drain(nxt, rq, q, co).nxt <= hi
    decreases |q|
  {
    if q != [] && q[0].start <= nxt {
      if q[0].End() <= nxt {
        DrainStaysLeft(nxt, rq, q[1..], co, lo, hi);
      } else {
        DrainStaysLeft(q[0].End(), Queue(rq, q[0], co), q[1..], co, lo, hi);
      }
    }
  }

  lemma AppendCarries(q: seq<Seg>, t: Seg, st: Stream)
    requires AllCarry(q, st) && Carries(t, st)
    ensures AllCarry(q + [t], st)
  {
  }

  lemma SuffixKeeps(q: seq<Seg>, n: nat, lo: int, hi: int)
    requires n <= |q| && Sorted(q) && Within(q, lo, hi)
    ensures Sorted(q[n..]) && Within(q[n..], lo, hi)
  {
  }

  /** The drained state satisfies everything its parts do. */
  lemma DeliveredKeeps(rx: Rx, t: Seg, co: Coalescer)
    requires RxInv(rx) && t.start == rx.nxt < t.End() <= rx.Edge()
    ensures var d := Drain(t.End(), rx.rq + [t], rx.ooo.q, co);
            && Chain(rx.copied, d.rq, d.nxt)
            && t.End() <= d.nxt <= rx.Edge()
            && Sorted(d.q) && Within(d.q, d.nxt + 1, rx.Edge())
            && |d.q| <= |rx.ooo.q|
  {
    var q := rx.ooo.q;
    AppendKeepsChain(rx.copied, rx.rq, rx.nxt, t);
    DrainIsOrdered(rx.copied, t.End(), rx.rq + [t], q, co);
    DrainStaysLeft(t.End(), rx.rq + [t], q, co, rx.nxt + 1, rx.Edge());
    SuffixKeeps(q, |q| - |Drain(t.End(), rx.rq + [t], q, co).q|, rx.nxt + 1, rx.Edge());
  }

  lemma InOrderKeeps(rx: Rx, s: Seg, env: Env)
    requires RxInv(rx) && Admissible(rx, s, env) && Classify(rx.nxt, rx.Window(), s).InOrder?
    ensures RxInv(DataQueue(rx, s, env))
    ensures rx.nxt < DataQueue(rx, s, env).nxt
  {
    DeliveredKeeps(rx, LeftTrim(s, rx.nxt), env.co);
  }

  lemma LaterKeeps(rx: Rx, s: Seg, env: Env)
    requires RxInv(rx) && Admissible(rx, s, env) && Classify(rx.nxt, rx.Window(), s).Later?
    ensures RxInv(DataQueue(rx, s, env))
  {
    InsertKeepsSorted(rx.ooo, env.sh, s, env.co);
    InsertWithin(rx.ooo, env.sh, s, env.co, rx.nxt + 1, rx.Edge());
  }

  /** Every arrival keeps the chain, the order of the out-of-order queue, its cached
      maximum, and everything at or left of the offered edge; rcv_nxt never moves back,
      and moves exactly for an arrival that brings its byte. */
  lemma DataQueueKeeps(rx: Rx, s: Seg, env: Env)
    requires RxInv(rx) && Admissible(rx, s, env)
    ensures RxInv(DataQueue(rx, s, env))
    ensures rx.nxt <= DataQueue(rx, s, env).nxt && rx.Edge() == DataQueue(rx, s, env).Edge()
    ensures rx.nxt < DataQueue(rx, s, env).nxt <==> s.Has(rx.nxt) && s.End() <= rx.nxt + rx.Window()
  {
    match Classify(rx.nxt, rx.Window(), s)
    case InOrder => InOrderKeeps(rx, s, env);
    case Later => LaterKeeps(rx, s, env);
    case _ =>
  }

  lemma SuffixCarries(q: seq<Seg>, n: nat, st: Stream)
    requires n <= |q| && AllCarry(q, st)
    ensures AllCarry(q[n..], st)
  {
  }

  lemma DeliveredCarries(rx: Rx, t: Seg, co: Coalescer, st: Stream)
    requires AllCarry(rx.rq, st) && AllCarry(rx.ooo.q, st) && Carries(t, st)
    ensures var d := Drain(t.End(), rx.rq + [t], rx.ooo.q, co);
            AllCarry(d.rq, st) && AllCarry(d.q, st)
  {
    var q := rx.ooo.q;
    AppendCarries(rx.rq, t, st);
    DrainCarries(t.End(), rx.rq + [t], q, co, st);
    DrainIsSuffix(t.End(), rx.rq + [t], q, co);
    SuffixCarries(q, |q| - |Drain(t.End(), rx.rq + [t], q, co).q|, st);
  }

  /** Whatever is queued, in order or not, is the stream at its sequence range. */
  lemma DataQueueCarries(rx: Rx, s: Seg, env: Env, st: Stream)
    requires RxInv(rx) && Admissible(rx, s, env)
    requires AllCarry(rx.rq, st) && AllCarry(rx.ooo.q, st) && Carries(s, st)
    ensures AllCarry(DataQueue(rx, s, env).rq, st) && AllCarry(DataQueue(rx, s, env).ooo.q, st)
  {
    match Classify(rx.nxt, rx.Window(), s)
    case InOrder =>
      TrimsCarry(s, rx.nxt, st);
      DeliveredCarries(rx, LeftTrim(s, rx.nxt), env.co, st);
    case Later => InsertCarries(rx.ooo, env.sh, s, env.co, st);
    case _ =>
  }

  /** Outside the hazard, the out-of-order queue also stays disjoint. */
  lemma DataQueueKeepsDisjoint(rx: Rx, s: Seg, env: Env)
    requires RxInv(rx) && Disjoint(rx.ooo.q) && Balanced(env.sh) && Size(env.sh) == |rx.ooo.q|
    requires Classify(rx.nxt, rx.Window(), s).Later? ==> !Hazard(rx.ooo.q, s)
    ensures Admissible(rx, s, env)
    ensures Disjoint(DataQueue(rx, s, env).ooo.q)
  {
    if Classify(rx.nxt, rx.Window(), s).Later? { DisjointIsWorkable(rx.ooo.q, env.sh, s, env.co); }
    match Classify(rx.nxt, rx.Window(), s)
    case InOrder =>
      var t := LeftTrim(s, rx.nxt);
      DrainIsSuffix(t.End(), rx.rq + [t], rx.ooo.q, env.co);
    case Later => InsertKeepsDisjoint(rx.ooo, env.sh, s, env.co);
    case _ =>
  }

  lemma {:induction false} DrainIsSuffix(nxt: int, rq: seq<Seg>, q: seq<Seg>, co: Coalescer)
    ensures var d := Drain(nxt, rq, q, co); |d.q| <= |q| && d.q == q[|q| - |d.q|..]
    decreases |q|
  {
    if q != [] && q[0].start <= nxt {
      if q[0].End() <= nxt {
        DrainIsSuffix(nxt, rq, q[1..], co);
      } else {
        DrainIsSuffix(q[0].End(), Queue(rq, q[0], co), q[1..], co);
      }
    }
  }

  /** An in-order arrival delivers itself and the buffered run behind it: rcv_nxt
      moves to the first byte that neither the arrival nor the queue holds. */
  lemma InOrderDelivers(rx: Rx, s: Seg, env: Env, x: int)
    requires RxInv(rx) && Admissible(rx, s, env)
    requires Classify(rx.nxt, rx.Window(), s).InOrder?
    ensures var rx' := DataQueue(rx, s, env);
            && s.End() <= rx'.nxt
            && (rx.nxt <= x < rx'.nxt ==> s.Has(x) || Covers(rx.ooo.q, x))
            && (rx'.nxt <= x ==> (Covers(rx'.ooo.q, x) <==> Covers(rx.ooo.q, x)))
            && !Covers(rx'.ooo.q, rx'.nxt)
  {
    hide Chain, Within, Covers, Disjoint, Cell, Insert;
    var t := LeftTrim(s, rx.nxt);
    DrainIsMaximal(t.End(), rx.rq + [t], rx.ooo.q, env.co, x);
  }

  /** A later arrival fits the window. */
  predicate FitsLater(rx: Rx, s: Seg) {
    |s.data| > 0 && rx.nxt < s.start && s.End() <= rx.nxt + rx.Window()
  }

  /** What becomes of any other arrival than the next byte's. One that fits the window is
      buffered: exactly its bytes are added, but for what a trim against a segment it
      starts in takes off. Over the memory limit, beyond the window or wholly old, it
      changes nothing. */
  lemma DataQueueBuffers(rx: Rx, s: Seg, env: Env, x: int)
    requires RxInv(rx) && Admissible(rx, s, env)
    requires !(s.Has(rx.nxt) && s.End() <= rx.nxt + rx.Window())
    ensures var rx' := DataQueue(rx, s, env); var q, q' := rx.ooo.q, rx'.ooo.q;
            && (env.full || !FitsLater(rx, s) ==> rx' == rx)
            && (FitsLater(rx, s) && !env.full ==>
                  && rx' == rx.(ooo := rx'.ooo)
                  && (Disjoint(q) ==> AddsAll(q, q', s, x) && AddsPiece(q, q', s, env.co, x))
                  && (Cell(q, s) ==> (Covers(q', x) <==> Covers(q, x) || s.Has(x))))
  {
    hide Chain, Within, Insert, AddsAll, AddsPiece, Covers, Disjoint, Cell, Sorted;
    ClassifyMeaning(rx.nxt, rx.Window(), s);
    if FitsLater(rx, s) && !env.full {
      assert Workable(rx.ooo.q, env.sh, s, env.co);
      if Disjoint(rx.ooo.q) { InsertCoverage(rx.ooo, env.sh, s, env.co, x); }
      if Cell(rx.ooo.q, s) { InsertCoversCell(rx.ooo, env.sh, s, env.co, x); }
    }
  }

  // ---- Reading ----

  datatype ReadOut = ReadOut(copied: int, rq: seq<Seg>, bytes: seq<byte>)

  /** One round of the read loop: the bytes taken from the head buffer. */
  function HeadBytes(copied: int, s: Seg, len: nat): seq<byte>
    requires s.start <= copied < s.End()
  {
    var off := copied - s.start;
    s.data[off..off + (if len < |s.data| - off then len else |s.data| - off)]
  }

  /** tcp_nip_recvmsg without MSG_PEEK or MSG_TRUNC, up to the end of the queue. */
  function Read(copied: int, rq: seq<Seg>, len: nat): ReadOut
    requires Straddles(copied, rq)
    decreases |rq|
  {
    if len == 0 || rq == [] then ReadOut(copied, rq, [])
    else
      var head := HeadBytes(copied, rq[0], len);
      if copied + |head| < rq[0].End() then ReadOut(copied + |head|, rq, head)
      else
        assert 1 < |rq| ==> Follows(rq[0], rq[1]);
        var r := Read(copied + |head|, rq[1..], len - |head|);
        r.(bytes := head + r.bytes)
  }

  lemma ChainTail(copied: int, rq: seq<Seg>, nxt: int)
    requires Chain(copied, rq, nxt) && rq != []
    ensures Chain(rq[0].End(), rq[1..], nxt)
  {
    if 1 < |rq| { assert Follows(rq[0], rq[1]); }
    forall i, j | 0 <= i && j == i + 1 < |rq[1..]| ensures Follows(rq[1..][i], rq[1..][j]) {
      assert Follows(rq[i + 1], rq[j + 1]);
    }
  }

  lemma {:induction false} ChainAhead(copied: int, rq: seq<Seg>, nxt: int)
    requires Chain(copied, rq, nxt)
    ensures rq != [] ==> rq[0].End() <= nxt
    decreases |rq|
  {
    if 1 < |rq| {
      assert Follows(rq[0], rq[1]);
      ChainTail(copied, rq, nxt);
      ChainAhead(rq[0].End(), rq[1..], nxt);
    }
  }

  ghost predicate AreStream(bytes: seq<byte>, from: int, st: Stream) {
    forall k {:trigger bytes[k]} :: 0 <= k < |bytes| ==> bytes[k] == st(from + k)
  }

  lemma SliceIsStream(s: Seg, off: nat, used: nat, st: Stream)
    requires off + used <= |s.data| && Carries(s, st)
    ensures AreStream(s.data[off..off + used], s.start + off, st)
  {
    var b := s.data[off..off + used];
    forall k | 0 <= k < |b| ensures b[k] == st(s.start + off + k) {
      assert s.Has(s.start + off + k);
    }
  }

  lemma ConcatIsStream(a: seq<byte>, b: seq<byte>, from: int, st: Stream)
    requires AreStream(a, from, st) && AreStream(b, from + |a|, st)
    ensures AreStream(a + b, from, st)
  {
  }

  lemma {:induction false} ReadKeepsChain(copied: int, rq: seq<Seg>, nxt: int, len: nat)
    requires Chain(copied, rq, nxt)
    ensures var r := Read(copied, rq, len);
            && |r.bytes| == (if len < nxt - copied then len else nxt - copied)
            && r.copied == copied + |r.bytes|
            && Chain(r.copied, r.rq, nxt)
    decreases |rq|
  {
    ChainAhead(copied, rq, nxt);
    if len > 0 && rq != [] {
      var head := HeadBytes(copied, rq[0], len);
      if copied + |head| == rq[0].End() {
        ChainTail(copied, rq, nxt);
        ReadKeepsChain(copied + |head|, rq[1..], nxt, len - |head|);
      }
    }
  }

  lemma HeadIsStream(copied: int, s: Seg, len: nat, st: Stream)
    requires s.start <= copied < s.End() && Carries(s, st)
    ensures AreStream(HeadBytes(copied, s, len), copied, st)
  {
    SliceIsStream(s, copied - s.start, |HeadBytes(copied, s, len)|, st);
  }

  lemma {:induction false} ReadIsStream(copied: int, rq: seq<Seg>, nxt: int, len: nat, st: Stream)
    requires Chain(copied, rq, nxt) && AllCarry(rq, st)
    ensures AreStream(Read(copied, rq, len).bytes, copied, st)
    decreases |rq|
  {
    if len > 0 && rq != [] {
      var head := HeadBytes(copied, rq[0], len);
      HeadIsStream(copied, rq[0], len, st);
      if copied + |head| == rq[0].End() {
        ChainTail(copied, rq, nxt);
        SuffixCarries(rq, 1, st);
        ReadIsStream(rq[0].End(), rq[1..], nxt, len - |head|, st);
        ConcatIsStream(head, Read(rq[0].End(), rq[1..], len - |head|).bytes, copied, st);
      }
    }
  }

  lemma {:induction false} ReadCarries(copied: int, rq: seq<Seg>, nxt: int, len: nat, st: Stream)
    requires Chain(copied, rq, nxt) && AllCarry(rq, st)
    ensures AllCarry(Read(copied, rq, len).rq, st)
    decreases |rq|
  {
    if len > 0 && rq != [] {
      var head := HeadBytes(copied, rq[0], len);
      if copied + |head| == rq[0].End() {
        ChainTail(copied, rq, nxt);
        ReadCarries(copied + |head|, rq[1..], nxt, len - |head|, st);
      }
    }
  }

  /** A read returns the next bytes of the stream, as many as were asked for or are
      there, moves copied_seq past them, and leaves the chain. */
  lemma ReadIsNextBytes(copied: int, rq: seq<Seg>, nxt: int, len: nat, st: Stream)
    requires Chain(copied, rq, nxt) && AllCarry(rq, st)
    ensures var r := Read(copied, rq, len);
            && |r.bytes| == (if len < nxt - copied then len else nxt - copied)
            && AreStream(r.bytes, copied, st)
            && r.copied == copied + |r.bytes|
            && Chain(r.copied, r.rq, nxt) && AllCarry(r.rq, st)
  {
    ReadKeepsChain(copied, rq, nxt, len);
    ReadIsStream(copied, rq, nxt, len, st);
    ReadCarries(copied, rq, nxt, len, st);
  }

  // ---- Offering a window ----

  /** rcv_wup and rcv_wnd after a segment goes out. */
  function Offer(rx: Rx, free: nat, wscale: nat): Rx {
    rx.(wup := rx.nxt, wnd := Window.NewWindow(rx.nxt, rx.Edge(), free, Window.Pow2(wscale)))
  }

  function Max(a: int, b: int): int {
    if a < b then b else a
  }

  /** The new edge is the one asked for, or the old one rounded up, whichever is further. */
  lemma OfferKeeps(rx: Rx, free: nat, wscale: nat)
    requires RxInv(rx) && Window.Whole(free, Window.Pow2(wscale))
    ensures RxInv(Offer(rx, free, wscale)) && rx.Edge() <= Offer(rx, free, wscale).Edge()
    ensures rx.nxt + free <= Offer(rx, free, wscale).Edge()
    ensures Offer(rx, free, wscale).Edge() < Max(rx.nxt + free + 1, rx.Edge() + Window.Pow2(wscale))
    ensures Offer(rx, free, wscale) == rx.(wup := rx.nxt, wnd := Offer(rx, free, wscale).wnd)
  {
    Window.NewWindowKeepsEdge(rx.nxt, rx.Edge(), free, Window.Pow2(wscale));
  }
}
