/** The sending half of a socket as the kernel runs it: 32-bit sequence numbers, the
    write queue updated in place. Every method is proved to move the state exactly as
    the model on unbounded offsets does. */
module TcpSender {
  import opened SeqNum
  import opened Segments
  import opened SendQueue
  import SendRun

  /** An sk_buff of the write queue as its control block describes it. */
  datatype Skb = Skb(start: u32, endSeq: u32, data: seq<byte>, syn: bool, fin: bool, pcount: nat)

  function Image(p: Pkt): Skb {
    Skb(Wrap(p.start), Wrap(p.End()), p.data, p.syn, p.fin, p.pcount)
  }

  ghost predicate Images(r: seq<Skb>, q: seq<Pkt>) {
    |r| == |q| && forall i :: 0 <= i < |q| ==> r[i] == Image(q[i])
  }

  /** The offset of the oldest byte still queued. */
  function Oldest(t: Tx): int {
    if t.wq == [] then t.una else t.wq[0].start
  }

  /** The queue and the peer's window fit the number space: less than 2^30 each. */
  predicate Fits(t: Tx) {
    t.wseq <= Oldest(t) + 0x4000_0000 && t.wnd <= 0x4000_0000
  }

  lemma QueueSpan(t: Tx, mss: nat, i: nat)
    requires Ordered(t, mss) && Fits(t)
    ensures Oldest(t) <= t.una <= t.nxt <= t.wseq <= Oldest(t) + 0x4000_0000
    ensures i < |t.wq| ==> Oldest(t) <= t.wq[i].start < t.wq[i].End() <= t.wseq
  {
    OrderedBounds(t, mss);
    if i < |t.wq| {
      EndsRise(t.wq, 0, i);
      EndsRise(t.wq, i, |t.wq| - 1);
    }
  }

  /** The window test on 32-bit numbers. */
  lemma WindowTest(t: Tx, mss: nat, x: int)
    requires Ordered(t, mss) && Fits(t) && Oldest(t) <= x <= t.wseq
    ensures After(Wrap(x), Add(Wrap(t.una), t.wnd)) <==> x > t.WndEnd()
    ensures Before(Wrap(x), Add(Wrap(t.una), t.wnd)) <==> x < t.WndEnd()
  {
    QueueSpan(t, mss, 0);
    AddOfWrap(t.una, t.wnd);
    BeforeOfWrap(t.WndEnd(), x);
    if t.WndEnd() - x == TWO31 {
      BeforeIsAmbiguousAtHalfRange(x);
    } else {
      BeforeOfWrap(x, t.WndEnd());
    }
  }

  /** The acceptability tests of tcp_nip_ack, for any ACK within 2^31 of snd_una. */
  lemma AckTests(t: Tx, ack: int, mss: nat)
    requires Ordered(t, mss) && Fits(t) && t.una - TWO31 <= ack < t.una + TWO31 - 0x4000_0000
    ensures Before(Wrap(ack), Wrap(t.una)) <==> ack < t.una
    ensures t.una <= ack ==> (After(Wrap(ack), Wrap(t.nxt)) <==> ack > t.nxt)
    ensures t.una <= ack ==> (After(Wrap(ack), Wrap(t.una)) <==> ack > t.una)
  {
    QueueSpan(t, mss, 0);
    BeforeOfWrap(ack, t.una);
    if t.una <= ack {
      BeforeOfWrap(t.nxt, ack);
      BeforeOfWrap(t.una, ack);
    }
  }

  lemma PopImages(r: seq<Skb>, q: seq<Pkt>)
    requires Images(r, q) && q != []
    ensures Images(r[1..], q[1..])
  {
  }

  /** The SACK-less clean-up loop on 32-bit numbers needs only the order of ends. */
  lemma CleanTest(t: Tx, mss: nat)
    requires Cleanable(t, mss) && Counted(t) && Fits(t) && t.head > 0
    ensures After(Wrap(t.wq[0].End()), Wrap(t.una)) <==> t.wq[0].End() > t.una
    ensures t.wq[0].pcount == 1
  {
    var n := |t.wq| - 1;
    EndsRise(t.wq, 0, n);
    if t.head <= n { EndsRise(t.wq, t.head, n); }
    BeforeOfWrap(t.una, t.wq[0].End());
  }

  lemma PoppedFits(t: Tx, mss: nat)
    requires Cleanable(t, mss) && Fits(t) && t.head > 0 && t.wq[0].End() <= t.una
    ensures Cleanable(Drop(t, 1, t.out - 1), mss) && Fits(Drop(t, 1, t.out - 1))
  {
    PopKeepsCounts(t, t.out - 1);
    SuffixContiguous(t.wq, 1);
    if |t.wq| > 1 { assert Abuts(t.wq[0], t.wq[1]); }
    if t.head == |t.wq| == 1 { assert t.nxt == t.wseq; }
  }

  lemma ImagesLength(r: seq<Skb>, q: seq<Pkt>)
    requires Images(r, q)
    ensures |r| == |q|
  {
  }

  /** One round of the transmit loop, and whether it goes on. */
  function SendOne(t: Tx, mss: nat, up: bool): (Tx, bool)
    requires mss > 0 && t.head < |t.wq|
  {
    var p := InitSegs(t.wq[t.head], mss);
    var t1 := t.(wq := t.wq[t.head := p]);
    if FitsWindow(t1, p, mss) && up then (Advance(t1), true) else (t1, false)
  }

  lemma XmitStep(t: Tx, mss: nat, num: nat, up: nat)
    requires mss > 0 && t.head < |t.wq| && num > 0
    ensures var r := SendOne(t, mss, up > 0);
            Xmit(t, mss, num, up) == if r.1 then Xmit(r.0, mss, num - 1, up - 1) else r.0
  {
  }

  class Sock {
    const mss: nat
    var writeQueue: seq<Skb>
    var sendHead: nat
    var sndUna: u32
    var sndNxt: u32
    var writeSeq: u32
    var packetsOut: int
    var sndWnd: nat
    var sndWl1: u32
    var shutdown: bool

    /** The same state on unbounded offsets. */
    ghost var abs: Tx

    ghost predicate Matches()
      reads this
    {
      && mss > 0
      && Images(writeQueue, abs.wq) && sendHead == abs.head
      && sndUna == Wrap(abs.una) && sndNxt == Wrap(abs.nxt) && writeSeq == Wrap(abs.wseq)
      && packetsOut == abs.out && sndWnd == abs.wnd && sndWl1 == Wrap(abs.wl1) && shutdown == abs.shut
    }

    ghost predicate Valid()
      reads this
    {
      Matches() && Ledger(abs, mss)
    }

    /** __tcp_nip_connect. */
    constructor (iss: u32, mss: nat)
      requires mss > 0
      ensures Valid() && abs == Connect(iss, false) && this.mss == mss
    {
      AddOfWrap(iss, 1);
      ConnectKeeps(iss, false, mss);
      this.mss := mss;
      var syn := Skb(iss, Add(iss, 1), [], true, false, 1);
      writeQueue, sendHead := [syn], 1;
      sndUna, sndNxt, writeSeq := iss, Add(iss, 1), Add(iss, 1);
      packetsOut, sndWnd, sndWl1, shutdown := 1, 0, 0, false;
      abs := Connect(iss, false);
    }

    /** The sending half of a socket whose handshake is done or about to be: nothing is
        queued, and the next byte takes the number `start`. */
    constructor AfterSyn(start: u32, wl1: u32, wnd: nat, mss: nat, ghost s: int, ghost w: int)
      requires mss > 0 && start == Wrap(s) && wl1 == Wrap(w)
      ensures Valid() && abs == Tx([], 0, s, s, s, 0, wnd, w, false) && this.mss == mss
    {
      this.mss := mss;
      writeQueue, sendHead := [], 0;
      sndUna, sndNxt, writeSeq := start, start, start;
      packetsOut, sndWnd, sndWl1, shutdown := 0, wnd, wl1, false;
      abs := Tx([], 0, s, s, s, 0, wnd, w, false);
    }

    /** tcp_nip_write_queue_purge. */
    method Purge()
      requires Matches()
      modifies this`writeQueue, this`sendHead, this`packetsOut, this`abs
      ensures Matches() && abs == old(abs).(wq := [], head := 0, out := 0)
    {
      writeQueue, sendHead, packetsOut := [], 0, 0;
      abs := abs.(wq := [], head := 0, out := 0);
    }

    /** The window of a SYN+ACK is taken unscaled. */
    method SetWindow(nwin: nat)
      requires Matches()
      modifies this`sndWnd, this`abs
      ensures Matches() && abs == old(abs).(wnd := nwin)
    {
      sndWnd := nwin;
      abs := abs.(wnd := nwin);
    }

    /** What the third handshake ACK sets in SYN_RECV. */
    method TakeThirdAck(ack: u32, ackSeq: u32, nwin: nat, ghost a: int, ghost s: int)
      requires Matches() && ack == Wrap(a) && ackSeq == Wrap(s)
      modifies this`sndUna, this`sndWnd, this`sndWl1, this`abs
      ensures Matches() && abs == old(abs).(una := a, wnd := nwin, wl1 := s)
    {
      sndUna, sndWnd, sndWl1 := ack, nwin, ackSeq;
      abs := abs.(una := a, wnd := nwin, wl1 := s);
    }

    /** skb_nip_entail and what tcp_nip_sendmsg adds to the packet. */
    method AddPacket(bytes: seq<byte>)
      requires Valid() && 0 < |bytes| <= mss
      modifies this`writeQueue, this`writeSeq, this`abs
      ensures Valid() && abs == Enqueue(old(abs), Pkt(old(abs.wseq), bytes, false, false, 0))
    {
      ghost var p := Pkt(abs.wseq, bytes, false, false, 0);
      AddOfWrap(abs.wseq, |bytes|);
      EnqueueKeeps(abs, p, mss);
      var skb := Skb(writeSeq, Add(writeSeq, |bytes|), bytes, false, false, 0);
      writeQueue, writeSeq := writeQueue + [skb], skb.endSeq;
      abs := Enqueue(abs, p);
    }

    /** The copy loop of tcp_nip_sendmsg. */
    method CopyLoop(bytes: seq<byte>, bufs: nat) returns (copied: nat)
      requires Valid()
      modifies this`writeQueue, this`writeSeq, this`abs
      ensures Valid() && abs == Entail(old(abs), bytes, mss, bufs)
      ensures copied == Least(|bytes|, mss * bufs)
    {
      hide Contiguous, Sized;
      ghost var start := abs;
      EntailKeeps(start, bytes, mss, bufs);
      var left, rest := bufs, bytes;
      copied := 0;
      while rest != [] && left > 0
        invariant Valid() && 0 <= left <= bufs && abs.wseq == start.wseq + copied
        invariant Entail(abs, rest, mss, left) == Entail(start, bytes, mss, bufs)
        decreases left
      {
        var n := Least(mss, |rest|);
        AddPacket(rest[..n]);
        copied, rest, left := copied + n, rest[n..], left - 1;
      }
    }

    /** tcp_nip_event_new_data_sent. */
    method EventNewDataSent()
      requires Valid() && abs.head < |abs.wq| && abs.wq[abs.head].pcount == 1
      modifies this`sendHead, this`sndNxt, this`packetsOut, this`abs
      ensures Valid() && abs == Advance(old(abs))
    {
      AdvanceKeeps(abs, mss);
      var skb := writeQueue[sendHead];
      sendHead, sndNxt, packetsOut := sendHead + 1, skb.endSeq, packetsOut + skb.pcount;
      abs := Advance(abs);
    }

    /** tcp_nip_init_tso_segs on the send head. */
    method CountHead()
      requires Valid() && abs.head < |abs.wq|
      modifies this`writeQueue, this`abs
      ensures Valid() && abs == old(abs).(wq := old(abs.wq)[abs.head := InitSegs(old(abs.wq)[abs.head], mss)])
      ensures abs.wq[abs.head].pcount == 1
    {
      RecountKeeps(abs, mss);
      var skb := writeQueue[sendHead];
      if skb.pcount != 1 {
        writeQueue := writeQueue[sendHead := skb.(pcount := TsoSegs(|skb.data|, mss))];
      }
      abs := abs.(wq := abs.wq[abs.head := InitSegs(abs.wq[abs.head], mss)]);
    }

    /** tcp_nip_snd_wnd_test on the send head. */
    method SndWndTest() returns (ready: bool)
      requires Valid() && Fits(abs) && abs.head < |abs.wq|
      ensures ready <==> FitsWindow(abs, abs.wq[abs.head], mss)
    {
      var skb := writeQueue[sendHead];
      QueueSpan(abs, mss, abs.head);
      WindowTest(abs, mss, abs.wq[abs.head].End());
      var end := if |skb.data| > mss then Add(skb.start, mss) else skb.endSeq;
      ready := !After(end, Add(sndUna, sndWnd));
    }

    /** One round of tcp_nip_write_xmit: count the head, test the window, transmit. */
    method SendHead(up: bool) returns (sent: bool)
      requires Valid() && Fits(abs) && abs.head < |abs.wq|
      modifies this`writeQueue, this`sendHead, this`sndNxt, this`packetsOut, this`abs
      ensures Valid() && Fits(abs) && (abs, sent) == SendOne(old(abs), mss, up)
    {
      CountHead();
      var ready := SndWndTest();
      sent := ready && up;
      if sent {
        EventNewDataSent();
      }
    }

    /** The loop of tcp_nip_write_xmit. */
    method WriteXmit(num: nat, up: nat)
      requires Valid() && Fits(abs)
      modifies this`writeQueue, this`sendHead, this`sndNxt, this`packetsOut, this`abs
      ensures Valid() && Fits(abs) && abs == Xmit(old(abs), mss, num, up)
    {
      var n, u, sent := num, up, true;
      ghost var goal := Xmit(abs, mss, num, up);
      while sent && sendHead < |writeQueue| && n > 0
        invariant Valid() && Fits(abs) && 0 <= n && 0 <= u
        invariant goal == if sent then Xmit(abs, mss, n, u) else abs
        decreases sent, n
      {
        XmitStep(abs, mss, n, u);
        sent := SendHead(u > 0);
        if sent {
          n, u := n - 1, u - 1;
        }
      }
    }

    /** What the clean-up loop keeps. */
    ghost predicate Popping()
      reads this
    {
      Cleanable(abs, mss) && Counted(abs) && abs.out == abs.head
    }

    /** One round of tcp_nip_clean_rtx_queue. */
    method PopAcked()
      requires Matches() && Popping() && Fits(abs) && abs.head > 0 && abs.wq[0].End() <= abs.una
      modifies this`writeQueue, this`sendHead, this`packetsOut, this`abs
      ensures Matches() && Popping() && Fits(abs) && abs == Drop(old(abs), 1, old(abs.out) - 1)
    {
      hide Contiguous, Sized;
      PoppedFits(abs, mss);
      PopKeepsCounts(abs, abs.out - 1);
      PopImages(writeQueue, abs.wq);
      writeQueue, sendHead, packetsOut := writeQueue[1..], sendHead - 1, packetsOut - writeQueue[0].pcount;
      abs := Drop(abs, 1, abs.out - 1);
    }

    /** tcp_nip_clean_rtx_queue. */
    method CleanRtxQueue()
      requires Matches() && Popping() && Fits(abs)
      modifies this`writeQueue, this`sendHead, this`packetsOut, this`abs
      ensures Valid() && Fits(abs) && abs == Clean(old(abs))
    {
      hide Contiguous, Sized;
      ghost var goal := Clean(abs);
      while writeQueue != [] && sendHead > 0
        invariant Matches() && Popping() && Fits(abs) && Clean(abs) == goal
        decreases |writeQueue|
      {
        CleanTest(abs, mss);
        var skb := writeQueue[0];
        if After(skb.endSeq, sndUna) && (skb.pcount == 1 || !After(sndUna, skb.start)) {
          break;
        }
        PopAcked();
      }
      CleanedIsLedger(abs, mss);
    }

    /** tcp_nip_ack for an ACK within 2^31 of snd_una. */
    method Acknowledge(ack: u32, ackSeq: u32, nwin: nat, ghost a: int, ghost s: int) returns (code: int)
      requires Valid() && Fits(abs) && nwin <= 0x4000_0000
      requires ack == Wrap(a) && abs.una - TWO31 <= a < abs.una + TWO31 - 0x4000_0000
      requires ackSeq == Wrap(s) && -TWO31 < s - abs.wl1 < TWO31
      modifies this
      ensures Valid() && Fits(abs) && abs == Ack(old(abs), a, s, nwin).t && code == Ack(old(abs), a, s, nwin).code
    {
      hide Contiguous, Sized;
      AckTests(abs, a, mss);
      if Before(ack, sndUna) {
        return 0;
      }
      if After(ack, sndNxt) {
        return -1;
      }
      var prior := packetsOut;
      ghost var t := abs;
      UpdateWindow(ack, ackSeq, nwin, a, s);
      if prior == 0 {
        return 1;
      }
      if After(ack, sndUna) {
        CountedIsUnsplit(abs, a);
        MovedIsCleanable(abs, a, mss);
        sndUna := ack;
        abs := abs.(una := a);
        CleanRtxQueue();
      }
      code := 1;
    }

    /** tcp_nip_ack_update_window. */
    method UpdateWindow(ack: u32, ackSeq: u32, nwin: nat, ghost a: int, ghost s: int)
      requires Valid() && Fits(abs) && nwin <= 0x4000_0000
      requires ack == Wrap(a) && abs.una <= a < abs.una + TWO31 - 0x4000_0000
      requires ackSeq == Wrap(s) && -TWO31 < s - abs.wl1 < TWO31
      modifies this`sndWnd, this`sndWl1, this`abs
      ensures Valid() && Fits(abs) && abs == SendQueue.UpdateWindow(old(abs), a, s, nwin)
    {
      AckTests(abs, a, mss);
      BeforeOfWrap(abs.wl1, s);
      WrapInjective(s, abs.wl1);
      WindowKeeps(abs, a, s, nwin, mss);
      if After(ack, sndUna) || After(ackSeq, sndWl1) || (ackSeq == sndWl1 && nwin > sndWnd) {
        sndWl1, sndWnd := ackSeq, nwin;
      }
      abs := SendQueue.UpdateWindow(abs, a, s, nwin);
    }

    /** The FIN goes with the unsent tail packet. */
    method MarkTail()
      requires Matches() && abs.wq != [] && abs.head < |abs.wq| && abs.wq[|abs.wq| - 1].End() == abs.wseq
      requires !abs.wq[|abs.wq| - 1].fin
      modifies this`writeQueue, this`writeSeq, this`abs
      ensures Matches() && abs == QueueFin(old(abs))
    {
      AddOfWrap(abs.wseq, 1);
      var tail := writeQueue[|writeQueue| - 1];
      writeQueue := writeQueue[|writeQueue| - 1 := tail.(fin := true, endSeq := Add(tail.endSeq, 1))];
      writeSeq := Add(writeSeq, 1);
      abs := QueueFin(abs);
    }

    /** The FIN goes in a packet of its own. */
    method AddFin()
      requires Matches() && abs.head >= |abs.wq|
      modifies this`writeQueue, this`writeSeq, this`abs
      ensures Matches() && abs == QueueFin(old(abs))
    {
      AddOfWrap(abs.wseq, 1);
      writeQueue := writeQueue + [Skb(writeSeq, Add(writeSeq, 1), [], false, true, 1)];
      writeSeq := Add(writeSeq, 1);
      abs := QueueFin(abs);
    }

    /** tcp_nip_send_fin, up to the push. */
    method SendFin()
      requires Valid() && NoFin(abs.wq)
      modifies this`writeQueue, this`writeSeq, this`abs
      ensures Valid() && abs == QueueFin(old(abs))
    {
      hide Images, FinIsLast;
      QueueFinKeeps(abs, mss);
      var unsent := sendHead < |writeQueue|;
      ImagesLength(writeQueue, abs.wq);
      if writeQueue != [] && unsent {
        MarkTail();
      } else {
        AddFin();
      }
    }

    /** The trim of a partly acknowledged packet in __tcp_nip_retransmit_skb. */
    method TrimAcked(at: nat) returns (skb: Skb)
      requires Valid() && Fits(abs) && at < abs.head
      ensures Resendable(abs, at, mss) && skb == Image(Refreshed(abs, at)) && skb.pcount == 1
    {
      SentIsResendable(abs, at, mss);
      QueueSpan(abs, mss, at);
      BeforeOfWrap(abs.wq[at].start, abs.una);
      skb := writeQueue[at];
      if Before(skb.start, sndUna) {
        SubOfWrap(abs.una, abs.wq[at].start);
        skb := skb.(start := sndUna, data := skb.data[Sub(sndUna, skb.start)..]);
      }
    }

    /** Whether the peer's window lets a packet be sent again. */
    method MayResend(skb: Skb, ghost x: int) returns (may: bool)
      requires Valid() && Fits(abs) && skb.start == Wrap(x) && Oldest(abs) <= x <= abs.wseq
      ensures may <==> x < abs.WndEnd() || x == abs.una
    {
      QueueSpan(abs, mss, 0);
      WrapInjective(x, abs.una);
      WindowTest(abs, mss, x);
      may := Before(skb.start, Add(sndUna, sndWnd)) || skb.start == sndUna;
    }

    /** __tcp_nip_retransmit_skb for a sent packet. */
    method RetransmitSkb(at: nat) returns (sent: bool)
      requires Valid() && Fits(abs) && at < abs.head
      modifies this`writeQueue, this`packetsOut, this`abs
      ensures Resendable(old(abs), at, mss)
      ensures Valid() && abs == Retransmit(old(abs), at, mss).t && sent == Retransmit(old(abs), at, mss).sent
    {
      hide Contiguous, Sized;
      RetransmitKeeps(abs, at, mss);
      QueueSpan(abs, mss, at);
      var skb := TrimAcked(at);
      sent := MayResend(skb, Refreshed(abs, at).start);
      if sent {
        packetsOut := packetsOut - (skb.pcount - TsoSegs(|skb.data|, mss));
        skb := skb.(pcount := TsoSegs(|skb.data|, mss));
      }
      writeQueue := writeQueue[at := skb];
      abs := Retransmit(abs, at, mss).t;
    }

    /** The split of the send head at the window's edge, in tcp_nip_write_wakeup. */
    method FragmentHead(len: nat)
      requires Valid() && Fits(abs) && CanProbe(abs) && !abs.wq[abs.head].syn && MustSplit(abs)
      requires len == abs.WndEnd() - abs.wq[abs.head].start
      modifies this`writeQueue, this`abs
      ensures Valid() && Fits(abs) && abs == SplitHead(old(abs), mss)
      ensures abs.head < |abs.wq| && abs.wq[abs.head].pcount == 1
    {
      hide Contiguous, Sized;
      SplitKeeps(abs, mss);
      var skb := writeQueue[sendHead];
      AddOfWrap(abs.wq[abs.head].start, len);
      var mid := Add(skb.start, len);
      var a := Skb(skb.start, mid, skb.data[..len], skb.syn, false, TsoSegs(len, mss));
      var b := Skb(mid, skb.endSeq, skb.data[len..], false, skb.fin, TsoSegs(|skb.data| - len, mss));
      writeQueue := writeQueue[..sendHead] + [a, b] + writeQueue[sendHead + 1..];
      abs := SplitHead(abs, mss);
    }

    /** The tests of tcp_nip_write_wakeup on 32-bit numbers. */
    method ProbeTests() returns (can: bool, split: bool, len: nat)
      requires Valid() && Fits(abs)
      ensures can <==> CanProbe(abs)
      ensures can ==> (split <==> MustSplit(abs)) && len == abs.WndEnd() - abs.wq[abs.head].start
    {
      can, split, len := false, false, 0;
      if sendHead < |writeQueue| {
        var skb := writeQueue[sendHead];
        QueueSpan(abs, mss, abs.head);
        WindowTest(abs, mss, abs.wq[abs.head].start);
        can := Before(skb.start, Add(sndUna, sndWnd));
        if can {
          AddOfWrap(abs.una, abs.wnd);
          SubOfWrap(abs.WndEnd(), abs.wq[abs.head].start);
          SubOfWrap(abs.wq[abs.head].End(), abs.wq[abs.head].start);
          len := Sub(Add(sndUna, sndWnd), skb.start);
          split := len < Sub(skb.endSeq, skb.start);
        }
      }
    }

    /** tcp_nip_write_wakeup, for a head that has been counted. */
    method WriteWakeup(up: bool)
      requires Valid() && Fits(abs) && !Uncounted(abs, up)
      requires abs.head < |abs.wq| ==> !abs.wq[abs.head].syn
      modifies this`writeQueue, this`sendHead, this`sndNxt, this`packetsOut, this`abs
      ensures Valid() && abs == Probe(old(abs), mss, up)
    {
      var can, split, len := ProbeTests();
      if can {
        if split {
          FragmentHead(len);
        }
        if up {
          EventNewDataSent();
        }
      }
    }

    /** tcp_nip_sendmsg: copy, then push. */
    method SendMsg(bytes: seq<byte>, bufs: nat, num: nat, up: nat) returns (copied: nat)
      requires Valid() && Fits(Entail(abs, bytes, mss, bufs))
      modifies this
      ensures Valid() && abs == SendRun.Step(old(abs), SendRun.Write(bytes, bufs, SendRun.Push(num, up)), mss)
      ensures copied == if old(abs.shut) || bytes == [] || bufs == 0 then 0 else Least(|bytes|, mss * bufs)
    {
      copied := 0;
      if shutdown || bytes == [] || bufs == 0 {
        return;
      }
      copied := CopyLoop(bytes, bufs);
      WriteXmit(num, up);
    }

    /** An acknowledgement, then the push of tcp_nip_data_snd_check. */
    method ReceiveAck(ack: u32, ackSeq: u32, nwin: nat, num: nat, up: nat, ghost a: int, ghost s: int)
      requires Valid() && Fits(abs) && nwin <= 0x4000_0000
      requires ack == Wrap(a) && abs.una - TWO31 <= a < abs.una + TWO31 - 0x4000_0000
      requires ackSeq == Wrap(s) && -TWO31 < s - abs.wl1 < TWO31
      modifies this
      ensures Valid() && abs == SendRun.Step(old(abs), SendRun.AckIn(a, s, nwin, SendRun.Push(num, up)), mss)
    {
      var code := Acknowledge(ack, ackSeq, nwin, a, s);
      if code >= 0 {
        WriteXmit(num, up);
      }
    }

    /** Closing the sending side: the FIN is queued once and pushed. */
    method CloseSend(num: nat, up: nat)
      requires Valid() && (!abs.shut ==> NoFin(abs.wq) && Fits(QueueFin(abs)))
      modifies this
      ensures Valid() && abs == SendRun.Step(old(abs), SendRun.Close(SendRun.Push(num, up)), mss)
    {
      hide Contiguous, Sized;
      if !shutdown {
        SendFin();
        shutdown := true;
        abs := abs.(shut := true);
        WriteXmit(num, up);
      }
    }
  }

  lemma CleanedIsLedger(t: Tx, mss: nat)
    requires Cleanable(t, mss) && Counted(t) && t.out == t.head
    requires t.wq != [] && t.head > 0 ==> t.una < t.wq[0].End()
    ensures Ledger(t, mss) && Clean(t) == t
  {
    if t.head > 0 {
      assert t.wq[0].pcount == 1;
    }
  }
}
