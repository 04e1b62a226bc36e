/** Two endpoints and the network between them: the sender's write queue, the
    receiver's reassembly, data segments one way and acknowledgements the other. The
    network may lose, duplicate and reorder: every packet ever sent may arrive at any
    later time, any number of times, or never. */
module Protocol {
  import opened RedBlack
  import opened Segments
  import opened OutOfOrder
  import Receive
  import opened SendQueue
  import Window
  import opened SendRun

  /** The ack and the decoded window of a packet from the receiver, with its seq. */
  datatype AckPkt = AckPkt(ack: int, seqno: int, nwin: nat)

  /** Both endpoints, what was ever put on the wire, what the writer gave to sendmsg and
      what the reader got from recvmsg; and the boundaries of the segments sent so far. */
  datatype State = State(tx: Tx, rx: Receive.Rx, data: set<Seg>, acks: set<AckPkt>,
                         written: seq<byte>, read: seq<byte>, cuts: set<int>)

  datatype Event =
    | Write(bytes: seq<byte>, bufs: nat, push: Push)
    | AckArrives(pkt: AckPkt, push: Push)
    | Resend(at: nat)
    | ProbeTimer(up: bool)
    | DataArrives(seg: Seg, env: Receive.Env)
    | Read(len: nat)
    | SendAck(seqno: int, free: nat)

  /** The fixed parameters of a connection: the sender's MSS, the receiver's scale, and
      the sequence number of the first byte. */
  datatype Params = Params(mss: nat, wscale: nat, workaround: bool, first: int)

  /** The connection after the handshake, with the windows each side starts from, and
      the last number seen from the receiver. */
  function Init(wnd: nat, offered: nat, wl: int, p: Params): State {
    State(Tx([], 0, p.first, p.first, p.first, 0, wnd, wl, false),
          Receive.Rx(p.first, p.first, offered, p.first, [], Ofo([], -1)), {}, {}, [], [], {p.first})
  }

  // ---- Invariants ----

  function AsSeg(p: Pkt): Seg {
    Seg(p.start, p.data)
  }

  /** A segment of the fixed cutting: no boundary ever used lies inside it. */
  ghost predicate OnGrid(s: Seg, cuts: set<int>) {
    && |s.data| > 0 && s.start in cuts && s.End() in cuts
    && forall c :: c in cuts ==> !(s.start < c < s.End())
  }

  ghost predicate AllBelow(cuts: set<int>, hi: int) {
    forall c :: c in cuts ==> c <= hi
  }

  ghost predicate AllOnGrid(data: set<Seg>, cuts: set<int>) {
    forall s :: s in data ==> OnGrid(s, cuts)
  }

  ghost predicate AllWithin(data: set<Seg>, edge: int) {
    forall s :: s in data ==> s.End() <= edge
  }

  ghost predicate Plain(wq: seq<Pkt>) {
    forall i :: 0 <= i < |wq| ==> !wq[i].syn && !wq[i].fin
  }

  /** The queue holds data only, and whatever of it was sent has been on the wire. */
  ghost predicate SenderInv(t: Tx, data: set<Seg>, cuts: set<int>, mss: nat) {
    && Ordered(t, mss) && !t.shut
    && Plain(t.wq)
    && (forall i :: 0 <= i < t.head ==> AsSeg(t.wq[i]) in data)
    && t.una in cuts && t.nxt in cuts && AllBelow(cuts, t.nxt)
  }

  ghost predicate ReceiverInv(rx: Receive.Rx, cuts: set<int>) {
    && Receive.RxInv(rx)
    && rx.wup <= rx.nxt && rx.nxt in cuts && OnCuts(rx.ooo.q, cuts)
  }

  /** No acknowledgement in the network names more than the receiver has, or a window
      beyond the edge it has offered; nothing was sent beyond that edge. */
  ghost predicate WireInv(acks: set<AckPkt>, data: set<Seg>, cuts: set<int>, nxt: int, edge: int) {
    && (forall a :: a in acks ==> a.ack in cuts && a.ack <= nxt && a.ack + a.nwin <= edge)
    && AllOnGrid(data, cuts) && AllWithin(data, edge)
  }

  ghost predicate Inv(s: State, p: Params) {
    && p.mss > 0
    && SenderInv(s.tx, s.data, s.cuts, p.mss)
    && ReceiverInv(s.rx, s.cuts)
    && WireInv(s.acks, s.data, s.cuts, s.rx.nxt, s.rx.Edge())
    && s.tx.una <= s.rx.nxt && s.tx.WndEnd() <= s.rx.Edge()
  }

  // ---- The sender's steps ----

  /** The send head goes on the wire: its end becomes a boundary for good. */
  function SendHead(s: State): State
    requires s.tx.head < |s.tx.wq|
  {
    var p := s.tx.wq[s.tx.head];
    s.(tx := Advance(s.tx), data := s.data + {AsSeg(p)}, cuts := s.cuts + {p.End()})
  }

  /** tcp_nip_write_xmit, packet by packet. */
  function Transmit(s: State, mss: nat, num: nat, up: nat): State
    requires mss > 0
    decreases num
  {
    var t := s.tx;
    if t.head >= |t.wq| || num == 0 then s
    else
      var p := InitSegs(t.wq[t.head], mss);
      var t1 := t.(wq := t.wq[t.head := p]);
      if !FitsWindow(t1, p, mss) || up == 0 then s.(tx := t1)
      else Transmit(SendHead(s.(tx := t1)), mss, num - 1, up - 1)
  }

  /** The sender inside it moves exactly as tcp_nip_write_xmit does. */
  lemma {:induction false} TransmitIsXmit(s: State, mss: nat, num: nat, up: nat)
    requires mss > 0
    ensures Transmit(s, mss, num, up).tx == Xmit(s.tx, mss, num, up)
    ensures var s' := Transmit(s, mss, num, up);
            s' == s.(tx := s'.tx, data := s'.data, cuts := s'.cuts)
    decreases num
  {
    var t := s.tx;
    if t.head < |t.wq| && num > 0 {
      var p := InitSegs(t.wq[t.head], mss);
      var t1 := t.(wq := t.wq[t.head := p]);
      if FitsWindow(t1, p, mss) && up > 0 {
        TransmitIsXmit(SendHead(s.(tx := t1)), mss, num - 1, up - 1);
      }
    }
  }

  lemma GridGrows(data: set<Seg>, cuts: set<int>, c: int)
    requires AllOnGrid(data, cuts) && forall s :: s in data ==> s.End() <= c
    ensures AllOnGrid(data, cuts + {c})
  {
    forall s | s in data ensures OnGrid(s, cuts + {c}) {
      assert OnGrid(s, cuts);
    }
  }

  lemma OnGridEnds(data: set<Seg>, cuts: set<int>, hi: int)
    requires AllOnGrid(data, cuts) && AllBelow(cuts, hi)
    ensures AllWithin(data, hi)
  {
    forall s | s in data ensures s.End() <= hi {
      assert OnGrid(s, cuts);
    }
  }

  lemma NewOnGrid(s: Seg, cuts: set<int>)
    requires |s.data| > 0 && s.start in cuts && AllBelow(cuts, s.start)
    ensures OnGrid(s, cuts + {s.End()})
  {
  }

  lemma OnCutsGrows(q: seq<Seg>, cuts: set<int>, c: int)
    requires OnCuts(q, cuts)
    ensures OnCuts(q, cuts + {c})
  {
  }

  lemma SendHeadKeeps(s: State, p: Params)
    requires Inv(s, p) && s.tx.head < |s.tx.wq| && s.tx.wq[s.tx.head].End() <= s.tx.WndEnd()
    ensures Inv(SendHead(s), p)
  {
    var t, pkt := s.tx, s.tx.wq[s.tx.head];
    var s' := SendHead(s);
    AdvanceKeeps(t, p.mss);
    OnGridEnds(s.data, s.cuts, t.nxt);
    GridGrows(s.data, s.cuts, pkt.End());
    NewOnGrid(AsSeg(pkt), s.cuts);
    OnCutsGrows(s.rx.ooo.q, s.cuts, pkt.End());
    assert SenderInv(s'.tx, s'.data, s'.cuts, p.mss);
    assert ReceiverInv(s'.rx, s'.cuts);
    assert WireInv(s'.acks, s'.data, s'.cuts, s'.rx.nxt, s'.rx.Edge());
  }

  lemma RecountKeepsInv(s: State, p: Params)
    requires Inv(s, p) && s.tx.head < |s.tx.wq|
    ensures Inv(s.(tx := s.tx.(wq := s.tx.wq[s.tx.head := InitSegs(s.tx.wq[s.tx.head], p.mss)])), p)
  {
    RecountKeeps(s.tx, p.mss);
  }

  lemma {:induction false} TransmitKeeps(s: State, p: Params, num: nat, up: nat)
    requires Inv(s, p)
    ensures Inv(Transmit(s, p.mss, num, up), p)
    decreases num
  {
    var t := s.tx;
    if t.head < |t.wq| && num > 0 {
      RecountKeepsInv(s, p);
      var pkt := InitSegs(t.wq[t.head], p.mss);
      var s1 := s.(tx := t.(wq := t.wq[t.head := pkt]));
      if FitsWindow(s1.tx, pkt, p.mss) && up > 0 {
        SendHeadKeeps(s1, p);
        TransmitKeeps(SendHead(s1), p, num - 1, up - 1);
      }
    }
  }

  // ---- What each event does ----

  /** How many of the bytes sendmsg takes. */
  function Accepted(t: Tx, bytes: seq<byte>, mss: nat, bufs: nat): (n: nat)
    ensures n <= |bytes|
  {
    if t.shut || mss * bufs < 0 then 0 else Least(|bytes|, mss * bufs)
  }

  function WriteStep(s: State, bytes: seq<byte>, bufs: nat, p: Params): State
    requires p.mss > 0
  {
    s.(tx := Entail(s.tx, bytes, p.mss, bufs), written := s.written + bytes[..Accepted(s.tx, bytes, p.mss, bufs)])
  }

  function AckStep(s: State, a: AckPkt): State {
    s.(tx := Ack(s.tx, a.ack, a.seqno, a.nwin).t)
  }

  function ResendStep(s: State, i: nat, p: Params): State
    requires p.mss > 0 && Resendable(s.tx, i, p.mss)
  {
    var r := Retransmit(s.tx, i, p.mss);
    s.(tx := r.t, data := if r.sent then s.data + {AsSeg(r.t.wq[i])} else s.data)
  }

  function ProbeStep(s: State, up: bool, p: Params): State
    requires p.mss > 0 && (s.tx.head < |s.tx.wq| ==> !s.tx.wq[s.tx.head].syn)
  {
    if !CanProbe(s.tx) then s
    else
      var s1 := if MustSplit(s.tx) then s.(tx := SplitHead(s.tx, p.mss)) else s;
      if up then SendHead(s1) else s1
  }

  ghost function ArriveStep(s: State, seg: Seg, env: Receive.Env): State
    requires Receive.RxInv(s.rx) && Receive.Admissible(s.rx, seg, env)
  {
    if Receive.InSequence(s.rx, seg) then s.(rx := Receive.DataQueue(s.rx, seg, env)) else s
  }

  ghost function ReadStep(s: State, len: nat): State
    requires Receive.RxInv(s.rx)
  {
    var r := Receive.Read(s.rx.copied, s.rx.rq, len);
    s.(rx := s.rx.(copied := r.copied, rq := r.rq), read := s.read + r.bytes)
  }

  /** The receiver sends a packet: it selects a window and names rcv_nxt. */
  function SendAckStep(s: State, seqno: int, free: nat, p: Params): State {
    var rx := Receive.Offer(s.rx, free, p.wscale);
    var field := Window.Field(rx.wnd, p.wscale, p.workaround);
    s.(rx := rx, acks := s.acks + {AckPkt(rx.nxt, seqno, field * Window.Pow2(p.wscale))})
  }

  // ---- Each event keeps the invariant ----

  lemma {:induction false} EntailIsPlain(t: Tx, bytes: seq<byte>, mss: nat, bufs: nat)
    requires mss > 0 && Plain(t.wq)
    ensures Plain(Entail(t, bytes, mss, bufs).wq)
    decreases bufs
  {
    if bytes != [] && bufs > 0 {
      var n := Least(mss, |bytes|);
      EntailIsPlain(Enqueue(t, Pkt(t.wseq, bytes[..n], false, false, 0)), bytes[n..], mss, bufs - 1);
    }
  }

  lemma WriteKeeps(s: State, bytes: seq<byte>, bufs: nat, p: Params)
    requires Inv(s, p)
    ensures Inv(WriteStep(s, bytes, bufs, p), p)
  {
    EntailKeeps(s.tx, bytes, p.mss, bufs);
    EntailIsPlain(s.tx, bytes, p.mss, bufs);
    var t' := Entail(s.tx, bytes, p.mss, bufs);
    assert forall i :: 0 <= i < t'.head ==> t'.wq[i] == s.tx.wq[i];
    assert SenderInv(t', s.data, s.cuts, p.mss);
  }

  /** A boundary of the grid splits no packet that was sent. */
  lemma GridIsUnsplit(t: Tx, data: set<Seg>, cuts: set<int>, mss: nat, c: int)
    requires SenderInv(t, data, cuts, mss) && AllOnGrid(data, cuts) && c in cuts
    ensures Unsplit(t.(una := c))
  {
    forall i | 0 <= i < t.head ensures c <= t.wq[i].start || t.wq[i].End() <= c {
      assert OnGrid(AsSeg(t.wq[i]), cuts);
    }
  }

  lemma AckedIsSender(t: Tx, t': Tx, n: nat, data: set<Seg>, cuts: set<int>, mss: nat)
    requires SenderInv(t, data, cuts, mss) && Ordered(t', mss) && n <= t.head
    requires t'.wq == t.wq[n..] && t'.head == t.head - n && t'.nxt == t.nxt && t'.shut == t.shut && t'.una in cuts
    ensures SenderInv(t', data, cuts, mss)
  {
    assert forall i :: 0 <= i < |t'.wq| ==> t'.wq[i] == t.wq[n + i];
  }

  lemma AckArrivesKeeps(s: State, a: AckPkt, p: Params)
    requires Inv(s, p) && a in s.acks
    ensures Inv(AckStep(s, a), p)
    ensures s.tx.una <= AckStep(s, a).tx.una && Ack(s.tx, a.ack, a.seqno, a.nwin).code >= 0
  {
    GridIsUnsplit(s.tx, s.data, s.cuts, p.mss, a.ack);
    var n := AckKeepsOrder(s.tx, a.ack, a.seqno, a.nwin, p.mss);
    AckEdge(s.tx, a.ack, a.seqno, a.nwin);
    AckedIsSender(s.tx, AckStep(s, a).tx, n, s.data, s.cuts, p.mss);
  }

  /** The newest ACK, by its number, its seq and its window in turn, sets the sender's
      edge to the one it names, and takes everything it covers off the queue. */
  lemma NewestAckSetsEdge(s: State, a: AckPkt, p: Params)
    requires Inv(s, p) && Ledger(s.tx, p.mss) && a in s.acks
    requires s.tx.una <= a.ack && s.tx.wl1 <= a.seqno
    requires a.ack == s.tx.una && a.seqno == s.tx.wl1 ==> s.tx.wnd <= a.nwin
    ensures var t' := AckStep(s, a).tx;
            && t'.una == a.ack && t'.WndEnd() == a.ack + a.nwin
            && t'.nxt == s.tx.nxt && t'.wseq == s.tx.wseq && Ledger(t', p.mss)
    ensures AckStep(s, a) == s.(tx := AckStep(s, a).tx)
  {
    InvBounds(s, p);
    NewestAckOpens(s.tx, a.ack, a.seqno, a.nwin, p.mss);
    var n := AckKeeps(s.tx, a.ack, a.seqno, a.nwin, p.mss);
  }

  /** Nothing that was sent is ever trimmed: what goes out again went out before. */
  lemma ResendIsRepeat(s: State, i: nat, p: Params)
    requires Inv(s, p) && i < s.tx.head
    ensures Resendable(s.tx, i, p.mss)
    ensures Refreshed(s.tx, i) == s.tx.wq[i]
    ensures ResendStep(s, i, p).data == s.data
  {
    var t := s.tx;
    RetransmitKeeps(t, i, p.mss);
    EndsRise(t.wq, 0, i);
    assert OnGrid(AsSeg(t.wq[i]), s.cuts);
    assert OnGrid(AsSeg(t.wq[0]), s.cuts);
    var r := Retransmit(t, i, p.mss);
    assert AsSeg(r.t.wq[i]) == AsSeg(t.wq[i]);
    assert s.data + {AsSeg(t.wq[i])} == s.data;
  }

  lemma ResendKeeps(s: State, i: nat, p: Params)
    requires Inv(s, p) && i < s.tx.head
    ensures Resendable(s.tx, i, p.mss) && Inv(ResendStep(s, i, p), p)
  {
    ResendIsRepeat(s, i, p);
    RetransmitKeeps(s.tx, i, p.mss);
    var t' := Retransmit(s.tx, i, p.mss).t;
    assert forall k :: 0 <= k < |t'.wq| ==> t'.wq[k].(pcount := 0) == s.tx.wq[k].(pcount := 0);
    SamePacketsSender(s.tx, t', s.data, s.cuts, p.mss);
  }

  lemma SamePacketsSender(t: Tx, t': Tx, data: set<Seg>, cuts: set<int>, mss: nat)
    requires SenderInv(t, data, cuts, mss) && Ordered(t', mss) && SamePackets(t.wq, t'.wq)
    requires t'.head == t.head && t'.una == t.una && t'.nxt == t.nxt && t'.shut == t.shut
    ensures SenderInv(t', data, cuts, mss)
  {
    forall i | 0 <= i < |t'.wq|
      ensures !t'.wq[i].syn && !t'.wq[i].fin && AsSeg(t'.wq[i]) == AsSeg(t.wq[i])
    {
      assert t'.wq[i].(pcount := 0) == t.wq[i].(pcount := 0);
    }
  }

  lemma SplitKeepsInv(s: State, p: Params)
    requires Inv(s, p) && CanProbe(s.tx) && !s.tx.wq[s.tx.head].syn && MustSplit(s.tx)
    ensures var t' := SplitHead(s.tx, p.mss);
            && Inv(s.(tx := t'), p)
            && t'.head < |t'.wq| && t'.wq[t'.head].End() <= t'.WndEnd()
  {
    var t, t' := s.tx, SplitHead(s.tx, p.mss);
    SplitKeeps(t, p.mss);
    assert forall i :: 0 <= i < t.head ==> t'.wq[i] == t.wq[i];
    assert forall i :: t.head + 1 < i < |t'.wq| ==> t'.wq[i] == t.wq[i - 1];
    assert SenderInv(t', s.data, s.cuts, p.mss);
  }

  lemma ProbeKeeps(s: State, up: bool, p: Params)
    requires Inv(s, p)
    ensures Inv(ProbeStep(s, up, p), p)
  {
    if CanProbe(s.tx) {
      var s1 := s;
      if MustSplit(s.tx) {
        SplitKeepsInv(s, p);
        s1 := s.(tx := SplitHead(s.tx, p.mss));
      }
      if up { SendHeadKeeps(s1, p); }
    }
  }

  /** Whatever the sender has put on the wire can be trimmed against the receiver's
      queue: no queued boundary lies inside it. */
  lemma ArrivalIsAdmissible(s: State, seg: Seg, env: Receive.Env, p: Params)
    requires Inv(s, p) && seg in s.data && Size(env.sh) == |s.rx.ooo.q|
    ensures Receive.Admissible(s.rx, seg, env)
    ensures seg.Has(s.rx.nxt) ==> seg.start == s.rx.nxt
  {
    assert OnGrid(seg, s.cuts);
    ArrivalIsCell(s, seg, p);
    CellIsWorkable(s.rx.ooo.q, env.sh, seg, env.co);
  }

  lemma ArrivalIsCell(s: State, seg: Seg, p: Params)
    requires Inv(s, p) && seg in s.data
    ensures Cell(s.rx.ooo.q, seg) && |seg.data| > 0
  {
    assert OnGrid(seg, s.cuts);
    var q := s.rx.ooo.q;
    forall i | 0 <= i < |q|
      ensures !(seg.start < q[i].start < seg.End()) && !(seg.start < q[i].End() < seg.End())
    {
      assert q[i].start in s.cuts && q[i].End() in s.cuts;
    }
  }

  /** The receiver has the byte at x, delivered or buffered. */
  ghost predicate Holds(rx: Receive.Rx, x: int) {
    x < rx.nxt || Covers(rx.ooo.q, x)
  }

  /** What an arrival leaves. Exactly its bytes are added to what the receiver has,
      whatever its place, unless it would have to be buffered over the memory limit;
      rcv_nxt is again the first byte missing; nothing else moves. */
  lemma ArrivalIsTaken(s: State, seg: Seg, env: Receive.Env, p: Params, x: int)
    requires Inv(s, p) && seg in s.data && Size(env.sh) == |s.rx.ooo.q|
    ensures Receive.Admissible(s.rx, seg, env)
    ensures var rx' := ArriveStep(s, seg, env).rx;
            && (Holds(rx', x) <==> Holds(s.rx, x) || (seg.Has(x) && (!env.full || seg.start <= s.rx.nxt)))
            && !Holds(rx', rx'.nxt)
            && rx' == s.rx.(nxt := rx'.nxt, rq := rx'.rq, ooo := rx'.ooo)
            && (rx'.nxt == s.rx.nxt ==> rx'.rq == s.rx.rq)
    ensures ArriveStep(s, seg, env) == s.(rx := ArriveStep(s, seg, env).rx)
  {
    hide Covers, Insert, Receive.Drain, Receive.Chain, Sorted, Within, SenderInv;
    var rx := s.rx;
    ArrivalIsAdmissible(s, seg, env, p);
    ArrivalIsCell(s, seg, p);
    NothingBeyondEdge(s, seg, p);
    ArriveKeeps(s, seg, env, p);
    Receive.ClassifyMeaning(rx.nxt, rx.Window(), seg);
    if seg.Has(rx.nxt) {
      Receive.InOrderDelivers(rx, seg, env, x);
    } else {
      Receive.DataQueueBuffers(rx, seg, env, x);
    }
    NothingBelow(rx, x);
    NothingBelow(ArriveStep(s, seg, env).rx, ArriveStep(s, seg, env).rx.nxt);
  }

  /** What is buffered lies behind rcv_nxt. */
  lemma NothingBelow(rx: Receive.Rx, x: int)
    requires Receive.RxInv(rx)
    ensures Covers(rx.ooo.q, x) ==> rx.nxt < x
  {
  }

  /** Nothing the sender puts on the wire runs past the edge the receiver has offered. */
  lemma NothingBeyondEdge(s: State, seg: Seg, p: Params)
    requires Inv(s, p) && seg in s.data
    ensures seg.End() <= s.rx.Edge()
    ensures !Receive.Classify(s.rx.nxt, s.rx.Window(), seg).NoRoom?
    ensures Receive.Classify(s.rx.nxt, s.rx.Window(), seg).Unwanted? ==> seg.End() <= s.rx.nxt
  {
  }

  /** The protocol does not wedge: once the ACKs are up to date, sending the oldest
      unacknowledged packet again brings exactly the byte the receiver waits for. */
  lemma FrontIsDeliverable(s: State, env: Receive.Env, p: Params)
    requires Inv(s, p) && s.tx.head > 0 && s.tx.una == s.rx.nxt && Size(env.sh) == |s.rx.ooo.q|
    ensures var seg := AsSeg(s.tx.wq[0]);
            && seg in s.data && Receive.Admissible(s.rx, seg, env)
            && s.tx.wq[0].End() <= ArriveStep(s, seg, env).rx.nxt
  {
    var seg := AsSeg(s.tx.wq[0]);
    ArrivalIsAdmissible(s, seg, env, p);
    Receive.InOrderDelivers(s.rx, seg, env, 0);
  }

  lemma {:induction false} DrainOnCuts(n: int, rq: seq<Seg>, q: seq<Seg>, co: Coalescer, cuts: set<int>)
    requires n in cuts && OnCuts(q, cuts)
    ensures Receive.Drain(n, rq, q, co).nxt in cuts && OnCuts(Receive.Drain(n, rq, q, co).q, cuts)
    decreases |q|
  {
    if q != [] && q[0].start <= n {
      if q[0].End() <= n {
        DrainOnCuts(n, rq, q[1..], co, cuts);
      } else {
        DrainOnCuts(q[0].End(), Receive.Queue(rq, q[0], co), q[1..], co, cuts);
      }
    }
  }

  lemma ArriveOnCuts(rx: Receive.Rx, seg: Seg, env: Receive.Env, cuts: set<int>)
    requires ReceiverInv(rx, cuts) && Receive.Admissible(rx, seg, env) && OnGrid(seg, cuts) && Cell(rx.ooo.q, seg)
    ensures ReceiverInv(Receive.DataQueue(rx, seg, env), cuts)
  {
    hide Insert, Sorted, Within, Receive.Drain, Receive.Chain, OnCuts;
    Receive.DataQueueKeeps(rx, seg, env);
    match Receive.Classify(rx.nxt, rx.Window(), seg)
    case InOrder => DrainOnCuts(seg.End(), rx.rq + [LeftTrim(seg, rx.nxt)], rx.ooo.q, env.co, cuts);
    case Later => InsertOnCuts(rx.ooo, env.sh, seg, env.co, cuts);
    case _ =>
  }

  lemma ArriveKeeps(s: State, seg: Seg, env: Receive.Env, p: Params)
    requires Inv(s, p) && seg in s.data && Size(env.sh) == |s.rx.ooo.q|
    ensures Receive.Admissible(s.rx, seg, env) && Inv(ArriveStep(s, seg, env), p)
    ensures s.rx.nxt <= ArriveStep(s, seg, env).rx.nxt
  {
    ArrivalIsAdmissible(s, seg, env, p);
    if Receive.InSequence(s.rx, seg) {
      ArriveOnCuts(s.rx, seg, env, s.cuts);
      Receive.DataQueueKeeps(s.rx, seg, env);
    }
  }

  lemma ReadKeeps(s: State, len: nat, p: Params)
    requires Inv(s, p)
    ensures Inv(ReadStep(s, len), p)
  {
    Receive.ReadKeepsChain(s.rx.copied, s.rx.rq, s.rx.nxt, len);
  }

  lemma OfferedField(rx: Receive.Rx, free: nat, p: Params)
    requires Receive.RxInv(rx) && Window.Whole(free, Window.Pow2(p.wscale))
    ensures var rx' := Receive.Offer(rx, free, p.wscale);
            0 <= Window.Field(rx'.wnd, p.wscale, p.workaround) * Window.Pow2(p.wscale) <= rx'.wnd
  {
    Window.NewWindowKeepsEdge(rx.nxt, rx.Edge(), free, Window.Pow2(p.wscale));
    Window.DecodedWindow(Receive.Offer(rx, free, p.wscale).wnd, p.wscale, p.workaround);
  }

  lemma SendAckKeeps(s: State, seqno: int, free: nat, p: Params)
    requires Inv(s, p) && Window.Whole(free, Window.Pow2(p.wscale))
    ensures Inv(SendAckStep(s, seqno, free, p), p)
  {
    Receive.OfferKeeps(s.rx, free, p.wscale);
    OfferedField(s.rx, free, p);
    OfferWithin(s.rx, Receive.Offer(s.rx, free, p.wscale));
  }

  lemma OfferWithin(rx: Receive.Rx, rx': Receive.Rx)
    requires Within(rx.ooo.q, rx.nxt + 1, rx.Edge()) && rx.Edge() <= rx'.Edge()
    requires rx'.ooo == rx.ooo && rx'.nxt == rx.nxt
    ensures Within(rx'.ooo.q, rx'.nxt + 1, rx'.Edge())
  {
  }

  // ---- Runs ----

  /** What can happen next: an arrival brings a packet that was sent, the tree has as
      many nodes as the queue, and a selected window is a multiple of the scale. */
  ghost predicate Enabled(s: State, e: Event, p: Params) {
    match e
    case AckArrives(a, _) => a in s.acks
    case Resend(i) => i < s.tx.head
    case ProbeTimer(_) => s.tx.out == 0
    case DataArrives(seg, env) => seg in s.data && Size(env.sh) == |s.rx.ooo.q|
    case SendAck(_, free) => Window.Whole(free, Window.Pow2(p.wscale))
    case _ => true
  }

  ghost function Step(s: State, e: Event, p: Params): State
    requires Inv(s, p) && Enabled(s, e, p)
  {
    match e
    case Write(bytes, bufs, push) => Transmit(WriteStep(s, bytes, bufs, p), p.mss, push.num, push.up)
    case AckArrives(a, push) => Transmit(AckStep(s, a), p.mss, push.num, push.up)
    case Resend(i) =>
      SentIsResendable(s.tx, i, p.mss);
      ResendStep(s, i, p)
    case ProbeTimer(up) => ProbeStep(s, up, p)
    case DataArrives(seg, env) =>
      ArrivalIsAdmissible(s, seg, env, p);
      ArriveStep(s, seg, env)
    case Read(len) => ReadStep(s, len)
    case SendAck(seqno, free) => SendAckStep(s, seqno, free, p)
  }

  lemma StepKeeps(s: State, e: Event, p: Params)
    requires Inv(s, p) && Enabled(s, e, p)
    ensures Inv(Step(s, e, p), p)
  {
    match e
    case Write(bytes, bufs, push) =>
      WriteKeeps(s, bytes, bufs, p);
      TransmitKeeps(WriteStep(s, bytes, bufs, p), p, push.num, push.up);
    case AckArrives(a, push) =>
      AckArrivesKeeps(s, a, p);
      TransmitKeeps(AckStep(s, a), p, push.num, push.up);
    case Resend(i) => ResendKeeps(s, i, p);
    case ProbeTimer(up) => ProbeKeeps(s, up, p);
    case DataArrives(seg, env) => ArriveKeeps(s, seg, env, p);
    case Read(len) => ReadKeeps(s, len, p);
    case SendAck(seqno, free) => SendAckKeeps(s, seqno, free, p);
  }

  // ---- Payloads ----

  ghost predicate PktsCarry(wq: seq<Pkt>, st: Stream) {
    forall i :: 0 <= i < |wq| ==> Carries(AsSeg(wq[i]), st)
  }

  ghost predicate DataCarries(data: set<Seg>, st: Stream) {
    forall s :: s in data ==> Carries(s, st)
  }

  /** Every queue and every packet in the network holds the stream at its offsets; the
      stream is what was written, and what was read is what it starts with. */
  ghost predicate Payload(s: State, p: Params, st: Stream) {
    && PktsCarry(s.tx.wq, st) && DataCarries(s.data, st)
    && AllCarry(s.rx.rq, st) && AllCarry(s.rx.ooo.q, st)
    && Receive.AreStream(s.written, p.first, st) && p.first + |s.written| == s.tx.wseq
    && Receive.AreStream(s.read, p.first, st) && p.first + |s.read| == s.rx.copied
  }

  lemma CarriesOfBytes(start: int, bytes: seq<byte>, st: Stream)
    ensures Carries(Seg(start, bytes), st) <==> Receive.AreStream(bytes, start, st)
  {
    var s := Seg(start, bytes);
    if Carries(s, st) {
      forall k | 0 <= k < |bytes| ensures bytes[k] == st(start + k) {
        assert s.Has(start + k);
      }
    }
    if Receive.AreStream(bytes, start, st) {
      forall x | s.Has(x) ensures bytes[x - start] == st(x) {
        assert bytes[x - start] == st(start + (x - start));
      }
    }
  }

  lemma SliceOfStream(bytes: seq<byte>, from: int, i: nat, j: nat, st: Stream)
    requires Receive.AreStream(bytes, from, st) && i <= j <= |bytes|
    ensures Receive.AreStream(bytes[i..j], from + i, st)
  {
    forall k | 0 <= k < j - i ensures bytes[i..j][k] == st(from + i + k) {
      assert bytes[i + k] == st(from + (i + k));
    }
  }

  /** sendmsg queues exactly the bytes it takes, at the offsets they are written to. */
  lemma {:induction false} EntailCarries(t: Tx, bytes: seq<byte>, mss: nat, bufs: nat, st: Stream)
    requires mss > 0 && PktsCarry(t.wq, st) && mss * bufs >= 0
    requires Receive.AreStream(bytes[..Least(|bytes|, mss * bufs)], t.wseq, st)
    ensures PktsCarry(Entail(t, bytes, mss, bufs).wq, st)
    decreases bufs
  {
    if bytes != [] && bufs > 0 {
      var n, k := Least(mss, |bytes|), Least(|bytes|, mss * bufs);
      assert mss * bufs == mss + mss * (bufs - 1);
      assert mss * (bufs - 1) >= 0;
      SliceOfStream(bytes[..k], t.wseq, 0, n, st);
      SliceOfStream(bytes[..k], t.wseq, n, k, st);
      assert bytes[..k][0..n] == bytes[..n];
      assert bytes[n..][..k - n] == bytes[..k][n..k];
      CarriesOfBytes(t.wseq, bytes[..n], st);
      EntailCarries(Enqueue(t, Pkt(t.wseq, bytes[..n], false, false, 0)), bytes[n..], mss, bufs - 1, st);
    }
  }

  lemma {:induction false} TransmitCarries(s: State, mss: nat, num: nat, up: nat, st: Stream)
    requires mss > 0 && PktsCarry(s.tx.wq, st) && DataCarries(s.data, st)
    ensures var s' := Transmit(s, mss, num, up);
            PktsCarry(s'.tx.wq, st) && DataCarries(s'.data, st) && s'.tx.wseq == s.tx.wseq
    decreases num
  {
    var t := s.tx;
    if t.head < |t.wq| && num > 0 {
      var p := InitSegs(t.wq[t.head], mss);
      var t1 := t.(wq := t.wq[t.head := p]);
      assert AsSeg(p) == AsSeg(t.wq[t.head]);
      if FitsWindow(t1, p, mss) && up > 0 {
        TransmitCarries(SendHead(s.(tx := t1)), mss, num - 1, up - 1, st);
      }
    }
  }

  lemma PushCarries(s: State, push: Push, p: Params, st: Stream)
    requires p.mss > 0 && Payload(s, p, st)
    ensures Payload(Transmit(s, p.mss, push.num, push.up), p, st)
  {
    TransmitIsXmit(s, p.mss, push.num, push.up);
    TransmitCarries(s, p.mss, push.num, push.up, st);
  }

  /** What is appended to what was written is the stream behind it. */
  lemma AppendedIsStream(w: seq<byte>, more: seq<byte>, first: int, st: Stream)
    requires Receive.AreStream(w + more, first, st)
    ensures Receive.AreStream(more, first + |w|, st)
  {
    SliceOfStream(w + more, first, |w|, |w + more|, st);
    assert (w + more)[|w|..|w + more|] == more;
  }

  lemma WriteCarries(s: State, bytes: seq<byte>, bufs: nat, p: Params, st: Stream)
    requires Inv(s, p) && Payload(s, p, st)
    requires Receive.AreStream(WriteStep(s, bytes, bufs, p).written, p.first, st)
    ensures Payload(WriteStep(s, bytes, bufs, p), p, st)
  {
    hide ReceiverInv, WireInv, Ordered, Entail, DataCarries, PktsCarry, Receive.AreStream;
    assert p.mss * bufs >= 0;
    AppendedIsStream(s.written, bytes[..Accepted(s.tx, bytes, p.mss, bufs)], p.first, st);
    EntailKeeps(s.tx, bytes, p.mss, bufs);
    EntailCarries(s.tx, bytes, p.mss, bufs, st);
  }

  lemma AckCarries(s: State, a: AckPkt, p: Params, st: Stream)
    requires Inv(s, p) && Payload(s, p, st) && a in s.acks
    ensures Payload(AckStep(s, a), p, st)
  {
    GridIsUnsplit(s.tx, s.data, s.cuts, p.mss, a.ack);
    var n := AckKeepsOrder(s.tx, a.ack, a.seqno, a.nwin, p.mss);
  }

  lemma ResendCarries(s: State, i: nat, p: Params, st: Stream)
    requires Inv(s, p) && Payload(s, p, st) && i < s.tx.head
    ensures Resendable(s.tx, i, p.mss) && Payload(ResendStep(s, i, p), p, st)
  {
    ResendIsRepeat(s, i, p);
    RetransmitKeeps(s.tx, i, p.mss);
  }

  lemma SplitCarries(t: Tx, mss: nat, st: Stream)
    requires mss > 0 && CanProbe(t) && !t.wq[t.head].syn && MustSplit(t) && PktsCarry(t.wq, st)
    ensures PktsCarry(SplitHead(t, mss).wq, st)
  {
    var p, q := t.wq[t.head], SplitHead(t, mss).wq;
    TrimsCarry(AsSeg(p), t.WndEnd(), st);
    assert AsSeg(q[t.head]) == RightTrim(AsSeg(p), t.WndEnd());
    assert AsSeg(q[t.head + 1]) == LeftTrim(AsSeg(p), t.WndEnd());
    forall i | 0 <= i < |q| ensures Carries(AsSeg(q[i]), st) {
      if i < t.head { assert q[i] == t.wq[i]; }
      if i > t.head + 1 { assert q[i] == t.wq[i - 1]; }
    }
  }

  lemma ProbeCarries(s: State, up: bool, p: Params, st: Stream)
    requires Inv(s, p) && Payload(s, p, st)
    ensures Payload(ProbeStep(s, up, p), p, st)
  {
    if CanProbe(s.tx) && MustSplit(s.tx) {
      SplitCarries(s.tx, p.mss, st);
    }
  }

  lemma ArriveCarries(s: State, seg: Seg, env: Receive.Env, p: Params, st: Stream)
    requires Inv(s, p) && Payload(s, p, st) && seg in s.data && Size(env.sh) == |s.rx.ooo.q|
    ensures Receive.Admissible(s.rx, seg, env) && Payload(ArriveStep(s, seg, env), p, st)
  {
    ArrivalIsAdmissible(s, seg, env, p);
    Receive.DataQueueCarries(s.rx, seg, env, st);
  }

  lemma ReadCarries(s: State, len: nat, p: Params, st: Stream)
    requires Inv(s, p) && Payload(s, p, st)
    ensures Payload(ReadStep(s, len), p, st)
  {
    var rx := s.rx;
    Receive.ReadIsNextBytes(rx.copied, rx.rq, rx.nxt, len, st);
    Receive.ConcatIsStream(s.read, Receive.Read(rx.copied, rx.rq, len).bytes, p.first, st);
  }

  lemma StepCarries(s: State, e: Event, p: Params, st: Stream)
    requires Inv(s, p) && Enabled(s, e, p) && Payload(s, p, st)
    requires Receive.AreStream(Step(s, e, p).written, p.first, st)
    ensures Payload(Step(s, e, p), p, st)
  {
    match e
    case Write(bytes, bufs, push) =>
      TransmitIsXmit(WriteStep(s, bytes, bufs, p), p.mss, push.num, push.up);
      WriteCarries(s, bytes, bufs, p, st);
      PushCarries(WriteStep(s, bytes, bufs, p), push, p, st);
    case AckArrives(a, push) =>
      AckCarries(s, a, p, st);
      PushCarries(AckStep(s, a), push, p, st);
    case Resend(i) => ResendCarries(s, i, p, st);
    case ProbeTimer(up) => ProbeCarries(s, up, p, st);
    case DataArrives(seg, env) => ArriveCarries(s, seg, env, p, st);
    case Read(len) => ReadCarries(s, len, p, st);
    case SendAck(seqno, free) =>
  }

  // ---- The theorem ----

  ghost predicate AllEnabled(s: State, es: seq<Event>, p: Params)
    requires Inv(s, p)
    decreases |es|
  {
    es == [] ||
    (Enabled(s, es[0], p) &&
     (StepKeeps(s, es[0], p);
      AllEnabled(Step(s, es[0], p), es[1..], p)))
  }

  ghost function Run(s: State, es: seq<Event>, p: Params): State
    requires Inv(s, p) && AllEnabled(s, es, p)
    decreases |es|
  {
    if es == [] then s
    else
      StepKeeps(s, es[0], p);
      Run(Step(s, es[0], p), es[1..], p)
  }

  lemma InitInv(wnd: nat, offered: nat, wl: int, p: Params)
    requires p.mss > 0 && wnd <= offered
    ensures Inv(Init(wnd, offered, wl, p), p)
  {
  }

  lemma StepAppends(s: State, e: Event, p: Params)
    requires Inv(s, p) && Enabled(s, e, p)
    ensures s.written <= Step(s, e, p).written && s.read <= Step(s, e, p).read
  {
    match e
    case Write(bytes, bufs, push) => TransmitIsXmit(WriteStep(s, bytes, bufs, p), p.mss, push.num, push.up);
    case AckArrives(a, push) => TransmitIsXmit(AckStep(s, a), p.mss, push.num, push.up);
    case _ =>
  }

  lemma {:induction false} RunAppends(s: State, es: seq<Event>, p: Params)
    requires Inv(s, p) && AllEnabled(s, es, p)
    ensures s.written <= Run(s, es, p).written && s.read <= Run(s, es, p).read
    decreases |es|
  {
    if es != [] {
      StepKeeps(s, es[0], p);
      StepAppends(s, es[0], p);
      RunAppends(Step(s, es[0], p), es[1..], p);
    }
  }

  lemma {:induction false} RunKeeps(s: State, es: seq<Event>, p: Params, st: Stream)
    requires Inv(s, p) && AllEnabled(s, es, p) && Payload(s, p, st)
    requires Receive.AreStream(Run(s, es, p).written, p.first, st)
    ensures Inv(Run(s, es, p), p) && Payload(Run(s, es, p), p, st)
    decreases |es|
  {
    if es != [] {
      StepKeeps(s, es[0], p);
      var s' := Step(s, es[0], p);
      RunAppends(s', es[1..], p);
      PrefixOfStream(s'.written, Run(s', es[1..], p).written, p.first, st);
      StepCarries(s, es[0], p, st);
      RunKeeps(s', es[1..], p, st);
    }
  }

  lemma PrefixOfStream(a: seq<byte>, b: seq<byte>, first: int, st: Stream)
    requires a <= b && Receive.AreStream(b, first, st)
    ensures Receive.AreStream(a, first, st)
  {
    forall k | 0 <= k < |a| ensures a[k] == st(first + k) {
      assert b[k] == st(first + k);
    }
  }

  /** The stream that starts with `written`, at the number `first`. */
  function StreamOf(written: seq<byte>, first: int): Stream {
    (x: int) => if 0 <= x - first < |written| then written[x - first] else 0
  }

  lemma WrittenIsStream(written: seq<byte>, first: int)
    ensures Receive.AreStream(written, first, StreamOf(written, first))
  {
    forall k | 0 <= k < |written| ensures written[k] == StreamOf(written, first)(first + k) {
    }
  }

  lemma AgreeIsPrefix(read: seq<byte>, written: seq<byte>, first: int)
    requires |read| <= |written| && Receive.AreStream(read, first, StreamOf(written, first))
    ensures read <= written
  {
    forall k | 0 <= k < |read| ensures read[k] == written[k] {
      assert read[k] == StreamOf(written, first)(first + k);
    }
  }

  lemma InvBounds(s: State, p: Params)
    requires Inv(s, p)
    ensures s.rx.copied <= s.rx.nxt <= s.tx.nxt <= s.tx.wseq && s.tx.una <= s.rx.nxt
  {
    Receive.ChainAhead(s.rx.copied, s.rx.rq, s.rx.nxt);
    OrderedBounds(s.tx, p.mss);
  }

  /** What a state reached in a run satisfies: the bytes read are a prefix of the bytes
      written; snd_una has not passed the receiver's rcv_nxt, nor rcv_nxt snd_nxt; what
      is not acknowledged is still queued; and no packet runs past the offered window. */
  ghost predicate Delivers(s: State, p: Params) {
    && s.read <= s.written
    && p.first + |s.read| == s.rx.copied <= s.rx.nxt
    && s.tx.una <= s.rx.nxt <= s.tx.nxt <= s.tx.wseq == p.first + |s.written|
    && Ordered(s.tx, p.mss) && PktsCarry(s.tx.wq, StreamOf(s.written, p.first))
    && AllWithin(s.data, s.rx.Edge())
  }

  /** End to end, in every reachable state. */
  lemma EndToEnd(es: seq<Event>, wnd: nat, offered: nat, wl: int, p: Params)
    requires p.mss > 0 && wnd <= offered
    ensures Inv(Init(wnd, offered, wl, p), p)
    ensures AllEnabled(Init(wnd, offered, wl, p), es, p) ==> Delivers(Run(Init(wnd, offered, wl, p), es, p), p)
  {
    var s0 := Init(wnd, offered, wl, p);
    InitInv(wnd, offered, wl, p);
    if AllEnabled(s0, es, p) {
      var s := Run(s0, es, p);
      var st := StreamOf(s.written, p.first);
      WrittenIsStream(s.written, p.first);
      RunKeeps(s0, es, p, st);
      InvBounds(s, p);
      AgreeIsPrefix(s.read, s.written, p.first);
    }
  }
}
