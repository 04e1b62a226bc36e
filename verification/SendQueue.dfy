/** The sender's write queue on unbounded offsets: connect, sendmsg, write_xmit,
    acknowledgement, retransmission, the window probe and FIN. */
module SendQueue {
  import opened Segments

  /** An sk_buff of the write queue. SYN and FIN take one sequence number each. */
  datatype Pkt = Pkt(start: int, data: seq<byte>, syn: bool, fin: bool, pcount: nat) {
    function End(): int {
      start + |data| + (if syn then 1 else 0) + (if fin then 1 else 0)
    }
  }

  /** sk_write_queue; sk_send_head as a position (|wq| when it is NULL); snd_una,
      snd_nxt, write_seq, packets_out, snd_wnd, snd_wl1; and SEND_SHUTDOWN. */
  datatype Tx = Tx(wq: seq<Pkt>, head: nat, una: int, nxt: int, wseq: int, out: int,
                   wnd: nat, wl1: int, shut: bool) {

    /** tcp_wnd_end. */
    function WndEnd(): int {
      una + wnd
    }

    function HeadStart(): int {
      if head < |wq| then wq[head].start else wseq
    }
  }

  // ---- The ledger ----

  predicate Abuts(a: Pkt, b: Pkt) {
    a.End() == b.start
  }

  /** Non-empty packets, each starting where its predecessor ends. */
  ghost predicate Contiguous(wq: seq<Pkt>) {
    && (forall i :: 0 <= i < |wq| ==> wq[i].start < wq[i].End())
    && (forall i, j :: 0 <= i && j == i + 1 < |wq| ==> Abuts(wq[i], wq[j]))
  }

  lemma {:induction false} EndsRise(wq: seq<Pkt>, i: nat, j: nat)
    requires Contiguous(wq) && i <= j < |wq|
    ensures wq[i].End() <= wq[j].End() && wq[i].start <= wq[j].start
    ensures i < j ==> wq[i].End() <= wq[j].start
    decreases j - i
  {
    if i < j {
      assert Abuts(wq[i], wq[i + 1]);
      EndsRise(wq, i + 1, j);
    }
  }

  lemma AppendContiguous(wq: seq<Pkt>, p: Pkt)
    requires Contiguous(wq) && p.start < p.End() && (wq != [] ==> Abuts(wq[|wq| - 1], p))
    ensures Contiguous(wq + [p])
  {
    var q := wq + [p];
    forall i, j | 0 <= i && j == i + 1 < |q| ensures Abuts(q[i], q[j]) {
      if j < |wq| { assert Abuts(wq[i], wq[j]); }
    }
  }

  lemma SuffixContiguous(wq: seq<Pkt>, n: nat)
    requires Contiguous(wq) && n <= |wq|
    ensures Contiguous(wq[n..])
  {
    var q := wq[n..];
    forall i, j | 0 <= i && j == i + 1 < |q| ensures Abuts(q[i], q[j]) {
      assert Abuts(wq[n + i], wq[n + j]);
    }
  }

  /** A packet may be replaced by one that ends where it does, and starts where it
      does unless it is the first; the last may end anywhere. */
  lemma ReplaceContiguous(wq: seq<Pkt>, k: nat, p: Pkt)
    requires Contiguous(wq) && k < |wq| && p.start < p.End()
    requires k > 0 ==> p.start == wq[k].start
    requires k < |wq| - 1 ==> p.End() == wq[k].End()
    ensures Contiguous(wq[k := p])
  {
    var q := wq[k := p];
    forall i, j | 0 <= i && j == i + 1 < |q| ensures Abuts(q[i], q[j]) {
      assert Abuts(wq[i], wq[j]);
    }
  }

  lemma SplitContiguous(wq: seq<Pkt>, k: nat, a: Pkt, b: Pkt)
    requires Contiguous(wq) && k < |wq| && a.start < a.End() && b.start < b.End()
    requires a.start == wq[k].start && Abuts(a, b) && b.End() == wq[k].End()
    ensures Contiguous(wq[..k] + [a, b] + wq[k + 1..])
  {
    var q := wq[..k] + [a, b] + wq[k + 1..];
    forall i, j | 0 <= i && j == i + 1 < |q| ensures Abuts(q[i], q[j]) {
      if j <= k { assert Abuts(wq[i], wq[j]); }
      if i > k { assert Abuts(wq[i - 1], wq[j - 1]); }
    }
  }

  /** No packet exceeds one MSS; only the first is a SYN, and it carries nothing else. */
  ghost predicate Sized(wq: seq<Pkt>, mss: nat) {
    && (forall i :: 0 <= i < |wq| ==> |wq[i].data| <= mss)
    && (forall i :: 0 <= i < |wq| && wq[i].syn ==> i == 0 && wq[i].data == [] && !wq[i].fin)
  }

  /** Every sent packet counts once in packets_out. */
  ghost predicate Counted(t: Tx) {
    forall i :: 0 <= i < t.head && i < |t.wq| ==> t.wq[i].pcount == 1
  }

  /** The write queue is contiguous up to write_seq, split by the send head at
      snd_nxt, and starts with the packet that holds snd_una. */
  ghost predicate Ordered(t: Tx, mss: nat) {
    && t.head <= |t.wq|
    && Contiguous(t.wq) && Sized(t.wq, mss)
    && (t.wq != [] ==> t.wq[|t.wq| - 1].End() == t.wseq)
    && t.nxt == t.HeadStart()
    && (if t.head == 0 then t.una == t.nxt && (t.wq != [] ==> !t.wq[0].syn)
        else t.wq[0].start <= t.una < t.wq[0].End())
  }

  /** The ledger kept between operations. */
  ghost predicate Ledger(t: Tx, mss: nat) {
    Ordered(t, mss) && Counted(t) && t.out == t.head
  }

  /** The step from t to t' keeps the order, and the ledger if it held. */
  ghost predicate Keeps(t: Tx, t': Tx, mss: nat) {
    Ordered(t', mss) && (Ledger(t, mss) ==> Ledger(t', mss))
  }

  /** What the ledger says: snd_una <= snd_nxt <= write_seq, packets_out is the number
      of sent packets still queued, and none is out exactly when all is acknowledged. */
  lemma LedgerMeaning(t: Tx, mss: nat)
    requires Ledger(t, mss)
    ensures t.una <= t.nxt <= t.wseq
    ensures t.out == |t.wq[..t.head]|
    ensures t.out == 0 <==> t.una == t.nxt
    ensures t.head < |t.wq| <==> t.nxt < t.wseq
  {
    OrderedBounds(t, mss);
  }

  lemma OrderedBounds(t: Tx, mss: nat)
    requires Ordered(t, mss)
    ensures t.una <= t.nxt <= t.wseq
    ensures t.head > 0 <==> t.una < t.nxt
    ensures t.head < |t.wq| <==> t.nxt < t.wseq
    ensures t.head > 0 ==> t.wq[t.head - 1].End() == t.nxt
  {
    var n := |t.wq|;
    if t.head < n { EndsRise(t.wq, t.head, n - 1); }
    if t.head > 0 {
      EndsRise(t.wq, 0, t.head - 1);
      if t.head < n { assert Abuts(t.wq[t.head - 1], t.wq[t.head]); }
    }
  }

  // ---- Queueing ----

  /** tcp_nip_connect_init and __tcp_nip_connect: the SYN is queued as already sent,
      so the send head stays NULL. `refused` is the early return on ECONNREFUSED. */
  function Connect(iss: int, refused: bool): Tx {
    var syn := Pkt(iss, [], true, false, 1);
    Tx([syn], 1, iss, if refused then iss else syn.End(), syn.End(), 1, 0, 0, false)
  }

  lemma ConnectKeeps(iss: int, refused: bool, mss: nat)
    ensures Ledger(Connect(iss, refused), mss) <==> !refused
  {
  }

  /** tcp_nip_add_write_queue_tail: when the send head is NULL the new packet is it. */
  function Enqueue(t: Tx, p: Pkt): Tx {
    t.(wq := t.wq + [p], wseq := p.End())
  }

  lemma EnqueueKeeps(t: Tx, p: Pkt, mss: nat)
    requires Ordered(t, mss) && p.start == t.wseq < p.End() && |p.data| <= mss && !p.syn
    ensures Keeps(t, Enqueue(t, p), mss)
  {
    AppendContiguous(t.wq, p);
  }

  function Least(a: int, b: int): int {
    if a < b then a else b
  }

  /** The copy loop of tcp_nip_sendmsg: at most one MSS per packet, for as long as
      `bufs` packets fit the send buffer. */
  function Entail(t: Tx, bytes: seq<byte>, mss: nat, bufs: nat): Tx
    requires mss > 0
    decreases bufs
  {
    if bytes == [] || bufs == 0 then t
    else
      var n := Least(mss, |bytes|);
      Entail(Enqueue(t, Pkt(t.wseq, bytes[..n], false, false, 0)), bytes[n..], mss, bufs - 1)
  }

  lemma {:induction false} EntailKeeps(t: Tx, bytes: seq<byte>, mss: nat, bufs: nat)
    requires Ordered(t, mss) && mss > 0
    ensures var t' := Entail(t, bytes, mss, bufs);
            && Keeps(t, t', mss) && t'.shut == t.shut && t'.head == t.head
            && t'.una == t.una && t'.nxt == t.nxt && t'.out == t.out && t'.wnd == t.wnd
            && t.wq <= t'.wq && t'.wseq == t.wseq + Least(|bytes|, mss * bufs)
    decreases bufs
  {
    if bytes != [] && bufs > 0 {
      var n := Least(mss, |bytes|);
      var p := Pkt(t.wseq, bytes[..n], false, false, 0);
      EnqueueKeeps(t, p, mss);
      EntailKeeps(Enqueue(t, p), bytes[n..], mss, bufs - 1);
      assert mss * bufs == mss + mss * (bufs - 1);
    } else {
      assert mss * 0 == 0;
    }
  }

  // ---- Transmitting ----

  /** How many segments of one MSS a packet makes. */
  function TsoSegs(len: nat, mss: nat): nat
    requires mss > 0
  {
    if len <= mss then 1 else (len + mss - 1) / mss
  }

  /** tcp_nip_set_skb_tso_segs. */
  function SetSegs(p: Pkt, mss: nat): Pkt
    requires mss > 0
  {
    p.(pcount := TsoSegs(|p.data|, mss))
  }

  /** tcp_nip_init_tso_segs. */
  function InitSegs(p: Pkt, mss: nat): Pkt
    requires mss > 0
  {
    if p.pcount == 1 then p else SetSegs(p, mss)
  }

  /** tcp_nip_snd_wnd_test. */
  predicate FitsWindow(t: Tx, p: Pkt, mss: nat) {
    (if |p.data| > mss then p.start + mss else p.End()) <= t.WndEnd()
  }

  /** The count is the least that covers the packet, and the window test of a packet longer
      than one MSS is that of its first segment. */
  lemma LongPackets(t: Tx, p: Pkt, mss: nat)
    requires mss > 0
    ensures var n := TsoSegs(|p.data|, mss); (n - 1) * mss < |p.data| <= n * mss || (n == 1 && p.data == [])
    ensures |p.data| > mss ==> (FitsWindow(t, p, mss) <==> FitsWindow(t, Pkt(p.start, p.data[..mss], false, false, 1), mss))
  {
    var n := TsoSegs(|p.data|, mss);
    if |p.data| > mss {
      assert |p.data| + mss - 1 == n * mss + (|p.data| + mss - 1) % mss;
      assert (n - 1) * mss == n * mss - mss;
    }
  }

  /** tcp_nip_event_new_data_sent, with tcp_advance_send_head. */
  function Advance(t: Tx): Tx
    requires t.head < |t.wq|
  {
    t.(head := t.head + 1, nxt := t.wq[t.head].End(), out := t.out + t.wq[t.head].pcount)
  }

  /** The loop of tcp_nip_write_xmit: `num` packets by the congestion window, `up`
      successful transmissions before the device refuses one. */
  function Xmit(t: Tx, mss: nat, num: nat, up: nat): Tx
    requires mss > 0
    decreases num
  {
    if t.head >= |t.wq| || num == 0 then t
    else
      var p := InitSegs(t.wq[t.head], mss);
      var t1 := t.(wq := t.wq[t.head := p]);
      if !FitsWindow(t1, p, mss) || up == 0 then t1
      else Xmit(Advance(t1), mss, num - 1, up - 1)
  }

  lemma RecountKeeps(t: Tx, mss: nat)
    requires Ordered(t, mss) && t.head < |t.wq| && mss > 0
    ensures var p := InitSegs(t.wq[t.head], mss); p.pcount == 1 && Keeps(t, t.(wq := t.wq[t.head := p]), mss)
  {
    ReplaceContiguous(t.wq, t.head, InitSegs(t.wq[t.head], mss));
  }

  lemma AdvanceKeeps(t: Tx, mss: nat)
    requires Ordered(t, mss) && t.head < |t.wq|
    ensures Ordered(Advance(t), mss)
    ensures Ledger(t, mss) && t.wq[t.head].pcount == 1 ==> Ledger(Advance(t), mss)
  {
    var h := t.head;
    if h + 1 < |t.wq| { assert Abuts(t.wq[h], t.wq[h + 1]); }
  }

  /** Transmission keeps the ledger and moves only the send head; with budget left the
      new head is ready to be counted. */
  lemma {:induction false} XmitKeeps(t: Tx, mss: nat, num: nat, up: nat)
    requires Ordered(t, mss) && mss > 0
    ensures var t' := Xmit(t, mss, num, up);
            && Keeps(t, t', mss)
            && t' == t.(wq := t'.wq, head := t'.head, nxt := t'.nxt, out := t'.out)
            && t.head <= t'.head <= t.head + num
            && (num > up && t'.head < |t'.wq| ==> t'.wq[t'.head].pcount == 1)
    decreases num
  {
    if t.head < |t.wq| && num > 0 {
      RecountKeeps(t, mss);
      var p := InitSegs(t.wq[t.head], mss);
      var t1 := t.(wq := t.wq[t.head := p]);
      if FitsWindow(t1, p, mss) && up > 0 {
        AdvanceKeeps(t1, mss);
        XmitKeeps(Advance(t1), mss, num - 1, up - 1);
      }
    }
  }

  /** The packets stay what they were, and each one sent lies within the peer's window. */
  lemma {:induction false} XmitSends(t: Tx, mss: nat, num: nat, up: nat)
    requires mss > 0 && forall i :: 0 <= i < |t.wq| ==> |t.wq[i].data| <= mss
    ensures var t' := Xmit(t, mss, num, up);
            && SamePackets(t.wq, t'.wq)
            && t.head <= t'.head && (t'.head <= |t.wq| || t'.head == t.head)
            && (forall i :: t.head <= i < t'.head ==> t.wq[i].End() <= t.WndEnd())
    decreases num
  {
    if t.head < |t.wq| && num > 0 {
      var p := InitSegs(t.wq[t.head], mss);
      var t1 := t.(wq := t.wq[t.head := p]);
      if FitsWindow(t1, p, mss) && up > 0 {
        XmitSends(Advance(t1), mss, num - 1, up - 1);
      }
    }
  }

  /** When the loop stops: all is sent, the budget is used up, the device has refused, or
      the next packet does not fit the peer's window. */
  lemma {:induction false} XmitStops(t: Tx, mss: nat, num: nat, up: nat)
    requires mss > 0 && t.head <= |t.wq| && forall i :: 0 <= i < |t.wq| ==> |t.wq[i].data| <= mss
    ensures var t' := Xmit(t, mss, num, up);
            && |t'.wq| == |t.wq| && t.head <= t'.head <= |t.wq|
            && t'.head <= t.head + num && t'.head <= t.head + up
            && (t'.head == |t.wq| || t'.head == t.head + num || t'.head == t.head + up
                || t.wq[t'.head].End() > t.WndEnd())
    decreases num
  {
    if t.head < |t.wq| && num > 0 {
      var p := InitSegs(t.wq[t.head], mss);
      var t1 := t.(wq := t.wq[t.head := p]);
      if FitsWindow(t1, p, mss) && up > 0 {
        XmitStops(Advance(t1), mss, num - 1, up - 1);
      }
    }
  }

  /** With room in the peer's window and no refusal, everything queued is sent. */
  lemma XmitSendsAll(t: Tx, mss: nat, num: nat, up: nat)
    requires Ordered(t, mss) && mss > 0 && t.wseq <= t.WndEnd()
    requires num >= |t.wq| - t.head && up >= |t.wq| - t.head
    ensures Xmit(t, mss, num, up).nxt == t.wseq && Xmit(t, mss, num, up).head == |t.wq|
  {
    hide Xmit;
    XmitStops(t, mss, num, up);
    XmitKeeps(t, mss, num, up);
    var t' := Xmit(t, mss, num, up);
    if t'.head < |t.wq| { EndsRise(t.wq, t'.head, |t.wq| - 1); }
  }

  /** The same packets but for their pcount. */
  ghost predicate SamePackets(a: seq<Pkt>, b: seq<Pkt>) {
    |a| == |b| && forall i :: 0 <= i < |a| ==> b[i].(pcount := 0) == a[i].(pcount := 0)
  }

  // ---- Acknowledgement ----

  /** The first packet stays: it is not fully acknowledged, and not taken for a
      partly acknowledged packet of several segments. */
  predicate Stays(p: Pkt, una: int) {
    p.End() > una && (p.pcount == 1 || una <= p.start)
  }

  /** tcp_nip_clean_rtx_queue. */
  function Clean(t: Tx): Tx
    decreases |t.wq|
  {
    if t.wq == [] || t.head == 0 || Stays(t.wq[0], t.una) then t
    else
      var acked := if t.wq[0].End() > t.una then 0 else t.wq[0].pcount;
      Clean(t.(wq := t.wq[1..], head := t.head - 1, out := t.out - acked))
  }

  /** No sent packet whose count is not one is partly acknowledged. */
  ghost predicate Unsplit(t: Tx) {
    forall i :: 0 <= i < t.head && i < |t.wq| ==>
      t.wq[i].pcount == 1 || t.una <= t.wq[i].start || t.wq[i].End() <= t.una
  }

  /** The order between the update of snd_una and the clean-up. */
  ghost predicate Cleanable(t: Tx, mss: nat) {
    && t.head <= |t.wq|
    && Contiguous(t.wq) && Sized(t.wq, mss)
    && (t.wq != [] ==> t.wq[|t.wq| - 1].End() == t.wseq)
    && t.nxt == t.HeadStart() && t.una <= t.nxt
    && (if t.head == 0 then t.una == t.nxt && (t.wq != [] ==> !t.wq[0].syn) else t.wq[0].start <= t.una)
    && Unsplit(t)
  }

  /** t without its first n packets, all of them sent. */
  function Drop(t: Tx, n: nat, out: int): Tx
    requires n <= t.head && n <= |t.wq|
  {
    t.(wq := t.wq[n..], head := t.head - n, out := out)
  }

  lemma DropKeeps(t: Tx, n: nat, out: int, mss: nat)
    requires Cleanable(t, mss) && n <= t.head
    requires n > 0 ==> t.wq[n - 1].End() <= t.una
    requires n < t.head ==> t.una < t.wq[n].End()
    ensures Ordered(Drop(t, n, out), mss)
  {
    SuffixContiguous(t.wq, n);
    if 0 < n < |t.wq| { assert Abuts(t.wq[n - 1], t.wq[n]); }
  }

  lemma DropMore(t: Tx, m: nat, o: int, out: int)
    requires 0 < t.head <= |t.wq| && m < t.head
    ensures Drop(Drop(t, 1, o), m, out) == Drop(t, m + 1, out)
  {
    assert t.wq[1..][m..] == t.wq[m + 1..];
  }

  lemma CleanStep(t: Tx)
    requires 0 < t.head <= |t.wq| && t.wq[0].End() <= t.una
    ensures Clean(t) == Clean(Drop(t, 1, t.out - t.wq[0].pcount))
  {
  }

  lemma PopKeepsCounts(t: Tx, o: int)
    requires 0 < t.head <= |t.wq|
    ensures Unsplit(t) ==> Unsplit(Drop(t, 1, o))
    ensures Counted(t) ==> Counted(Drop(t, 1, o))
  {
  }

  /** The clean-up pops while the first packet is fully acknowledged. */
  lemma {:induction false} CleanPops(t: Tx) returns (n: nat)
    requires t.head <= |t.wq| && Contiguous(t.wq) && Unsplit(t)
    ensures n <= t.head && Clean(t) == Drop(t, n, Clean(t).out)
    ensures Counted(t) ==> Clean(t).out == t.out - n
    ensures n > 0 ==> t.wq[n - 1].End() <= t.una
    ensures n < t.head ==> t.una < t.wq[n].End()
    decreases |t.wq|
  {
    n := 0;
    if t.head > 0 && t.wq[0].End() <= t.una {
      var u := Drop(t, 1, t.out - t.wq[0].pcount);
      SuffixContiguous(t.wq, 1);
      PopKeepsCounts(t, u.out);
      CleanStep(t);
      var m := CleanPops(u);
      DropMore(t, m, u.out, Clean(t).out);
      n := m + 1;
    }
  }

  lemma DropCounted(t: Tx, n: nat, out: int)
    requires n <= t.head <= |t.wq| && Counted(t)
    ensures Counted(Drop(t, n, out))
  {
  }

  /** The clean-up removes exactly the fully acknowledged packets. */
  lemma CleanExact(t: Tx, mss: nat) returns (n: nat)
    requires Cleanable(t, mss)
    ensures n <= t.head && Clean(t) == Drop(t, n, Clean(t).out) && Ordered(Clean(t), mss)
    ensures Counted(t) ==> Clean(t).out == t.out - n && Counted(Clean(t))
    ensures forall i :: 0 <= i < t.head ==> (i < n <==> t.wq[i].End() <= t.una)
  {
    n := CleanPops(t);
    DropKeeps(t, n, Clean(t).out, mss);
    if Counted(t) { DropCounted(t, n, Clean(t).out); }
    forall i | 0 <= i < t.head ensures i < n <==> t.wq[i].End() <= t.una {
      if i < n { EndsRise(t.wq, i, n - 1); } else { EndsRise(t.wq, n, i); }
    }
  }

  /** tcp_nip_may_update_window. */
  predicate MayUpdateWindow(t: Tx, ack: int, ackSeq: int, nwin: nat) {
    ack > t.una || ackSeq > t.wl1 || (ackSeq == t.wl1 && nwin > t.wnd)
  }

  /** tcp_nip_ack_update_window. */
  function UpdateWindow(t: Tx, ack: int, ackSeq: int, nwin: nat): Tx {
    if MayUpdateWindow(t, ack, ackSeq, nwin) then t.(wl1 := ackSeq, wnd := nwin) else t
  }

  datatype Acked = Acked(t: Tx, code: int)

  /** tcp_nip_ack, but for the congestion control and the retransmissions it starts. */
  function Ack(t: Tx, ack: int, ackSeq: int, nwin: nat): Acked {
    if ack < t.una then Acked(t, 0)
    else if ack > t.nxt then Acked(t, -1)
    else
      var t1 := UpdateWindow(t, ack, ackSeq, nwin);
      if t.out == 0 then Acked(t1, 1)
      else if ack > t.una then Acked(Clean(t1.(una := ack)), 1)
      else Acked(t1, 1)
  }

  lemma WindowKeeps(t: Tx, ack: int, ackSeq: int, nwin: nat, mss: nat)
    requires Ordered(t, mss)
    ensures Keeps(t, UpdateWindow(t, ack, ackSeq, nwin), mss)
    ensures OnlyWindowDiffers(t, UpdateWindow(t, ack, ackSeq, nwin))
  {
  }

  lemma MovedIsCleanable(t: Tx, ack: int, mss: nat)
    requires Ordered(t, mss) && t.una <= ack <= t.nxt && Unsplit(t.(una := ack))
    ensures Cleanable(t.(una := ack), mss)
  {
  }

  lemma DropNothing(t: Tx)
    ensures Drop(t, 0, t.out) == t
  {
    assert t.wq[0..] == t.wq;
  }

  /** t, but for the window the ACK may have set. */
  ghost predicate OnlyWindowDiffers(t: Tx, t': Tx) {
    t'.(wl1 := t.wl1, wnd := t.wnd) == t
  }

  lemma DropUnderWindow(t: Tx, u: Tx, ack: int, n: nat, out: int)
    requires OnlyWindowDiffers(t, u) && n <= t.head && n <= |t.wq|
    ensures OnlyWindowDiffers(Drop(t.(una := ack), n, out), Drop(u.(una := ack), n, out))
  {
  }

  /** The clean-up after snd_una has moved; u is t with the window the ACK has set. */
  lemma AckAdvances(t: Tx, u: Tx, ack: int, mss: nat) returns (n: nat)
    requires Ordered(u, mss) && OnlyWindowDiffers(t, u) && t.una < ack <= t.nxt && Unsplit(t.(una := ack))
    ensures var t' := Clean(u.(una := ack));
            && Ordered(t', mss)
            && (Ledger(u, mss) ==> Ledger(t', mss) && t'.out == t.out - n)
            && n <= t.head && OnlyWindowDiffers(Drop(t.(una := ack), n, t'.out), t')
            && forall i :: 0 <= i < t.head ==> (i < n <==> t.wq[i].End() <= ack)
  {
    MovedIsCleanable(u, ack, mss);
    n := CleanExact(u.(una := ack), mss);
    DropUnderWindow(t, u, ack, n, Clean(u.(una := ack)).out);
  }

  lemma AckRepeats(t: Tx, ackSeq: int, nwin: nat, mss: nat)
    requires Ordered(t, mss)
    ensures OnlyWindowDiffers(Drop(t.(una := t.una), 0, t.out), UpdateWindow(t, t.una, ackSeq, nwin))
    ensures forall i :: 0 <= i < t.head ==> t.una < t.wq[i].End()
  {
    DropNothing(t);
    forall i | 0 <= i < t.head ensures t.una < t.wq[i].End() {
      EndsRise(t.wq, 0, i);
    }
  }

  lemma CountedIsUnsplit(t: Tx, ack: int)
    requires Counted(t)
    ensures Unsplit(t.(una := ack))
  {
  }

  /** An acceptable ACK moves snd_una to it and removes exactly the packets it covers
      in full; any other ACK changes nothing. */
  lemma AckKeeps(t: Tx, ack: int, ackSeq: int, nwin: nat, mss: nat) returns (n: nat)
    requires Ledger(t, mss)
    ensures var r := Ack(t, ack, ackSeq, nwin);
            && Ledger(r.t, mss)
            && r.code == (if ack < t.una then 0 else if ack > t.nxt then -1 else 1)
            && (r.code != 1 ==> r.t == t)
            && n <= t.head && (r.code == 1 ==> OnlyWindowDiffers(Drop(t.(una := ack), n, t.out - n), r.t))
            && (r.code == 1 ==> forall i :: 0 <= i < t.head ==> (i < n <==> t.wq[i].End() <= ack))
  {
    n := 0;
    OrderedBounds(t, mss);
    if t.una < ack <= t.nxt {
      WindowKeeps(t, ack, ackSeq, nwin, mss);
      CountedIsUnsplit(t, ack);
      n := AckAdvances(t, UpdateWindow(t, ack, ackSeq, nwin), ack, mss);
    } else if t.una == ack {
      WindowKeeps(t, ack, ackSeq, nwin, mss);
      AckRepeats(t, ackSeq, nwin, mss);
    }
  }

  /** Whatever the counts, an ACK at a packet boundary keeps the order: the queue loses
      only packets the ACK covers in full. */
  lemma AckKeepsOrder(t: Tx, ack: int, ackSeq: int, nwin: nat, mss: nat) returns (n: nat)
    requires Ordered(t, mss) && Unsplit(t.(una := ack))
    ensures var t' := Ack(t, ack, ackSeq, nwin).t;
            && Ordered(t', mss) && n <= t.head
            && t'.wq == t.wq[n..] && t'.head == t.head - n
            && t'.nxt == t.nxt && t'.wseq == t.wseq && t'.shut == t.shut
            && (t'.una == t.una || (t'.una == ack && t.una <= ack <= t.nxt))
            && forall i :: 0 <= i < n ==> t.wq[i].End() <= ack
  {
    n := 0;
    WindowKeeps(t, ack, ackSeq, nwin, mss);
    if t.una < ack <= t.nxt && t.out != 0 {
      n := AckAdvances(t, UpdateWindow(t, ack, ackSeq, nwin), ack, mss);
    } else {
      DropNothing(t);
    }
  }

  lemma {:induction false} CleanKeepsEdge(t: Tx)
    ensures Clean(t).una == t.una && Clean(t).wnd == t.wnd && Clean(t).nxt == t.nxt && Clean(t).wseq == t.wseq
    ensures Clean(t).wl1 == t.wl1
    decreases |t.wq|
  {
    if t.wq != [] && t.head > 0 && !Stays(t.wq[0], t.una) {
      var acked := if t.wq[0].End() > t.una then 0 else t.wq[0].pcount;
      CleanKeepsEdge(t.(wq := t.wq[1..], head := t.head - 1, out := t.out - acked));
    }
  }

  /** The peer's window edge is the one remembered or the one the ACK names, reordered
      ACKs included; in particular it never passes an edge the peer has not offered. */
  lemma AckEdge(t: Tx, ack: int, ackSeq: int, nwin: nat)
    ensures var e := Ack(t, ack, ackSeq, nwin).t.WndEnd();
            e <= t.WndEnd() || e <= ack + nwin
  {
    if t.una < ack {
      CleanKeepsEdge(UpdateWindow(t, ack, ackSeq, nwin).(una := ack));
    }
  }

  /** The newest ACK, by its number, its seq and its window in turn, sets the window: the
      edge is afterwards the one it names, wider or narrower. */
  lemma NewestAckOpens(t: Tx, ack: int, ackSeq: int, nwin: nat, mss: nat)
    requires Ledger(t, mss) && t.una <= ack <= t.nxt && t.wl1 <= ackSeq
    requires ack == t.una && ackSeq == t.wl1 ==> t.wnd <= nwin
    ensures var t' := Ack(t, ack, ackSeq, nwin).t; t'.una == ack && t'.wnd == nwin && t'.WndEnd() == ack + nwin
    ensures ack > t.una || ackSeq > t.wl1 ==> Ack(t, ack, ackSeq, nwin).t.wl1 == ackSeq
  {
    hide Contiguous, Sized;
    OrderedBounds(t, mss);
    if t.una < ack { CleanKeepsEdge(UpdateWindow(t, ack, ackSeq, nwin).(una := ack)); }
  }

  /** Reordering does no harm: an ACK the peer sent before one already processed changes
      neither the queue nor the window. */
  lemma OlderAckIsStale(t: Tx, ack: int, ackSeq: int, nwin: nat, ack2: int, ackSeq2: int, nwin2: nat, mss: nat)
    requires Ledger(t, mss) && t.una <= ack2 <= t.nxt
    requires ack <= ack2 && ackSeq <= ackSeq2 && (ack == ack2 && ackSeq == ackSeq2 ==> nwin <= nwin2)
    ensures var t2 := Ack(t, ack2, ackSeq2, nwin2).t; Ack(t2, ack, ackSeq, nwin).t == t2
  {
    hide Contiguous, Sized;
    OrderedBounds(t, mss);
    if t.una < ack2 { CleanKeepsEdge(UpdateWindow(t, ack2, ackSeq2, nwin2).(una := ack2)); }
  }

  // ---- Retransmission ----

  /** What __tcp_nip_retransmit_skb leaves: the queue, and whether the packet goes out. */
  datatype Resent = Resent(t: Tx, sent: bool)

  /** tcp_trim_head. */
  function TrimHead(p: Pkt, at: int): Pkt
    requires p.start <= at <= p.start + |p.data|
  {
    p.(start := at, data := p.data[at - p.start..])
  }

  /** A sent packet that snd_una has not passed. */
  predicate Resendable(t: Tx, i: nat, mss: nat) {
    && i < t.head && i < |t.wq| && |t.wq[i].data| <= mss
    && t.una - t.wq[i].start <= |t.wq[i].data|
  }

  /** __tcp_nip_retransmit_skb for a packet no longer than one MSS. */
  function Retransmit(t: Tx, i: nat, mss: nat): Resent
    requires mss > 0 && Resendable(t, i, mss)
  {
    var p := t.wq[i];
    var p1 := if p.start < t.una then TrimHead(p, t.una) else p;
    var t1 := t.(wq := t.wq[i := p1]);
    if p1.start >= t.WndEnd() && p1.start != t.una then Resent(t1, false)
    else
      var p2 := SetSegs(p1, mss);
      Resent(t1.(wq := t1.wq[i := p2], out := t1.out - (p1.pcount - p2.pcount)), true)
  }

  lemma SentIsResendable(t: Tx, i: nat, mss: nat)
    requires Ordered(t, mss) && i < t.head
    ensures Resendable(t, i, mss)
  {
    EndsRise(t.wq, 0, i);
  }

  /** What a retransmission sends again: the packet without its acknowledged front. */
  function Refreshed(t: Tx, i: nat): Pkt
    requires i < |t.wq| && t.una - t.wq[i].start <= |t.wq[i].data|
  {
    if t.wq[i].start < t.una then TrimHead(t.wq[i], t.una) else t.wq[i]
  }

  /** It holds the same stream up to the same end, from snd_una on if that is inside. */
  lemma RefreshedCarries(t: Tx, i: nat, st: Stream)
    requires i < |t.wq| && t.una - t.wq[i].start <= |t.wq[i].data| && Carries(Seg(t.wq[i].start, t.wq[i].data), st)
    ensures var p := Refreshed(t, i);
            && Carries(Seg(p.start, p.data), st) && p.End() == t.wq[i].End()
            && p.start == if t.wq[i].start < t.una then t.una else t.wq[i].start
  {
    if t.wq[i].start < t.una { TrimsCarry(Seg(t.wq[i].start, t.wq[i].data), t.una, st); }
  }

  lemma ReplaceKeeps(t: Tx, i: nat, p: Pkt, out: int, mss: nat)
    requires Ordered(t, mss) && i < t.head && Resendable(t, i, mss)
    requires p.(pcount := 0) == Refreshed(t, i).(pcount := 0)
    ensures Ordered(t.(wq := t.wq[i := p], out := out), mss)
    ensures Ledger(t, mss) && p.pcount == 1 && out == t.out ==> Ledger(t.(wq := t.wq[i := p], out := out), mss)
  {
    var q := t.wq[i];
    assert q.start < q.End() && !(i > 0 && q.syn);
    hide Contiguous, Sized;
    if i > 0 { EndsRise(t.wq, 0, i); }
    assert p.End() == q.End() && p.start < p.End() && (i > 0 ==> p.start == q.start);
    ReplaceContiguous(t.wq, i, p);
    ReplaceSized(t.wq, i, p, mss);
  }

  lemma ReplaceSized(wq: seq<Pkt>, i: nat, p: Pkt, mss: nat)
    requires Sized(wq, mss) && i < |wq| && |p.data| <= |wq[i].data| && p.syn == wq[i].syn && p.fin == wq[i].fin
    ensures Sized(wq[i := p], mss)
  {
  }

  /** Retransmission changes no boundary but the acknowledged front, and brings the
      packet's count to one. */
  lemma RetransmitKeeps(t: Tx, i: nat, mss: nat)
    requires Ordered(t, mss) && mss > 0 && i < t.head
    ensures Resendable(t, i, mss)
    ensures var r := Retransmit(t, i, mss); var p := Refreshed(t, i);
            && Keeps(t, r.t, mss)
            && r.t == (if r.sent then t.(wq := t.wq[i := p.(pcount := 1)], out := t.out + 1 - p.pcount)
                       else t.(wq := t.wq[i := p]))
  {
    SentIsResendable(t, i, mss);
    var p, r := Refreshed(t, i), Retransmit(t, i, mss);
    assert t.wq[i := p][i := p.(pcount := 1)] == t.wq[i := p.(pcount := 1)];
    ReplaceKeeps(t, i, if r.sent then p.(pcount := 1) else p, r.t.out, mss);
  }

  /** A retransmission goes out exactly when what is left of the packet starts within the
      peer's window or is the oldest byte out; the oldest packet always does. */
  lemma RetransmitSendsIff(t: Tx, i: nat, mss: nat)
    requires Ordered(t, mss) && mss > 0 && i < t.head
    ensures Resendable(t, i, mss)
    ensures Retransmit(t, i, mss).sent <==> Refreshed(t, i).start < t.WndEnd() || Refreshed(t, i).start == t.una
    ensures i == 0 ==> Retransmit(t, i, mss).sent && Refreshed(t, i).start == t.una
  {
    SentIsResendable(t, i, mss);
  }

  // ---- The window probe ----

  /** tcp_fragment on an unsent packet: both halves are counted afresh; FIN goes with
      the second. */
  function Split(t: Tx, i: nat, len: nat, mss: nat): Tx
    requires i < |t.wq| && len <= |t.wq[i].data| && mss > 0
  {
    var p := t.wq[i];
    var a := SetSegs(p.(data := p.data[..len], fin := false), mss);
    var b := SetSegs(Pkt(a.End(), p.data[len..], false, p.fin, 0), mss);
    t.(wq := t.wq[..i] + [a, b] + t.wq[i + 1..])
  }

  /** The send head starts inside the peer's window. */
  predicate CanProbe(t: Tx) {
    t.head < |t.wq| && t.wq[t.head].start < t.WndEnd()
  }

  /** The send head reaches past the peer's window. */
  predicate MustSplit(t: Tx)
    requires CanProbe(t)
  {
    t.WndEnd() - t.wq[t.head].start < t.wq[t.head].End() - t.wq[t.head].start
  }

  /** The send head cut at the edge of the peer's window. */
  function SplitHead(t: Tx, mss: nat): Tx
    requires mss > 0 && CanProbe(t) && !t.wq[t.head].syn && MustSplit(t)
  {
    Split(t, t.head, t.WndEnd() - t.wq[t.head].start, mss)
  }

  /** tcp_nip_write_wakeup; `up` tells whether the device takes the packet. */
  function Probe(t: Tx, mss: nat, up: bool): Tx
    requires mss > 0 && (t.head < |t.wq| ==> !t.wq[t.head].syn)
  {
    if !CanProbe(t) then t
    else
      var t1 := if MustSplit(t) then SplitHead(t, mss) else t;
      if up then Advance(t1) else t1
  }

  /** The head goes out whole although it was never counted: nothing has called
      tcp_nip_init_tso_segs on it. */
  predicate Uncounted(t: Tx, up: bool) {
    up && CanProbe(t) && !MustSplit(t) && t.wq[t.head].pcount != 1
  }

  lemma SplitKeeps(t: Tx, mss: nat)
    requires Ordered(t, mss) && mss > 0 && CanProbe(t) && !t.wq[t.head].syn && MustSplit(t)
    ensures var t' := SplitHead(t, mss);
            Keeps(t, t', mss) && t'.head == t.head < |t'.wq| && t'.wq[t.head].pcount == 1
  {
    var q := SplitHead(t, mss).wq;
    SplitContiguous(t.wq, t.head, q[t.head], q[t.head + 1]);
  }

  lemma WholeProbeIff(t: Tx, mss: nat)
    requires Ledger(t, mss) && t.head < |t.wq|
    ensures Ledger(Advance(t), mss) <==> t.wq[t.head].pcount == 1
  {
    if t.wq[t.head].pcount == 1 {
      AdvanceKeeps(t, mss);
    } else {
      assert Advance(t).wq[t.head].pcount != 1;
    }
  }

  lemma SplitProbeKeeps(t: Tx, mss: nat, up: bool)
    requires Ledger(t, mss) && mss > 0 && CanProbe(t) && !t.wq[t.head].syn && MustSplit(t)
    ensures Ledger(Probe(t, mss, up), mss)
  {
    SplitKeeps(t, mss);
    AdvanceKeeps(SplitHead(t, mss), mss);
  }

  /** The probe keeps the ledger exactly when it does not send an uncounted head. */
  lemma ProbeKeepsIff(t: Tx, mss: nat, up: bool)
    requires Ledger(t, mss) && mss > 0 && (t.head < |t.wq| ==> !t.wq[t.head].syn)
    ensures Ledger(Probe(t, mss, up), mss) <==> !Uncounted(t, up)
    ensures Probe(t, mss, up).una == t.una && Probe(t, mss, up).wseq == t.wseq
  {
    if CanProbe(t) {
      if MustSplit(t) {
        SplitProbeKeeps(t, mss, up);
      } else if up {
        WholeProbeIff(t, mss);
      }
    }
  }

  /** What a probe sends: the head, up to the peer's window, and only if it starts within
      it and the device takes it. */
  lemma ProbeSends(t: Tx, mss: nat, up: bool)
    requires Ordered(t, mss) && mss > 0 && (t.head < |t.wq| ==> !t.wq[t.head].syn)
    ensures var t' := Probe(t, mss, up);
            if up && t.head < |t.wq| && t.wq[t.head].start < t.WndEnd() then
              t'.head == t.head + 1 && t'.nxt == Least(t.wq[t.head].End(), t.WndEnd())
            else
              t'.head == t.head && t'.nxt == t.nxt
  {
    if CanProbe(t) && MustSplit(t) { SplitKeeps(t, mss); }
  }

  /** With a congestion window below one MSS the head is never counted, the probe sends
      it uncounted, and the ACK for it is then ignored: packets_out is 0, snd_una stays. */
  lemma UncountedProbeLosesAck()
    ensures var t0 := Tx([], 0, 100, 100, 100, 0, 1000, 0, false);
            var t1 := Xmit(Entail(t0, [1, 2, 3], 1400, 1), 1400, 0, 0);
            var t2 := Probe(t1, 1400, true);
            var t3 := Ack(t2, 103, 0, 1000).t;
            && Ledger(t1, 1400) && Uncounted(t1, true)
            && t2.out == 0 && t2.una < t2.nxt
            && t3.una == 100 && t3.wq == t2.wq
  {
    var t0 := Tx([], 0, 100, 100, 100, 0, 1000, 0, false);
    var b: seq<byte> := [1, 2, 3];
    EntailKeeps(t0, b, 1400, 1);
    assert b[..3] == b;
    assert Entail(t0, b, 1400, 1) == Enqueue(t0, Pkt(100, b, false, false, 0));
  }

  // ---- FIN ----

  /** tcp_nip_send_fin, before it pushes the queue. */
  function QueueFin(t: Tx): Tx {
    if t.wq != [] && t.head < |t.wq| then
      t.(wq := t.wq[|t.wq| - 1 := t.wq[|t.wq| - 1].(fin := true)], wseq := t.wseq + 1)
    else
      Enqueue(t, Pkt(t.wseq, [], false, true, 1))
  }

  ghost predicate NoFin(wq: seq<Pkt>) {
    forall i :: 0 <= i < |wq| ==> !wq[i].fin
  }

  /** The only FIN in the queue holds the last sequence number. */
  ghost predicate FinIsLast(t: Tx) {
    t.wq != [] && NoFin(t.wq[..|t.wq| - 1]) && t.wq[|t.wq| - 1].fin && t.wq[|t.wq| - 1].End() == t.wseq
  }

  lemma QueueFinKeeps(t: Tx, mss: nat)
    requires Ordered(t, mss) && NoFin(t.wq)
    ensures Keeps(t, QueueFin(t), mss) && FinIsLast(QueueFin(t))
    ensures QueueFin(t).wseq == t.wseq + 1 && QueueFin(t).una == t.una && QueueFin(t).nxt == t.nxt
    ensures |QueueFin(t).wq| == |t.wq| + (if t.head < |t.wq| then 0 else 1)
    ensures forall i :: 0 <= i < |t.wq| ==> QueueFin(t).wq[i].data == t.wq[i].data
  {
    if t.wq != [] && t.head < |t.wq| {
      ReplaceContiguous(t.wq, |t.wq| - 1, t.wq[|t.wq| - 1].(fin := true));
    } else {
      EnqueueKeeps(t, Pkt(t.wseq, [], false, true, 1), mss);
    }
  }
}
