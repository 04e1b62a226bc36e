/** The connection state machine: the new_state table, shutdown and close, tcp_nip_fin
    and tcp_nip_rcv_state_process, over the sender's write queue. There is no TIME-WAIT
    (compare section 3.3.2 of RFC 9293). */
module CloseProtocol {
  import opened SendQueue
  import opened SendRun

  datatype St = SynSent | SynRecv | Established | FinWait1 | FinWait2 | Closing | CloseWait | LastAck | Closed

  /** How far a connection has come. */
  function Rank(s: St): nat {
    match s
    case SynSent | SynRecv => 1
    case Established => 2
    case FinWait1 | CloseWait => 3
    case FinWait2 | Closing | LastAck => 4
    case Closed => 5
  }

  /** sk_state, the sending half, RCV_SHUTDOWN, SOCK_DEAD; and the history: how many FINs
      were queued, whether LAST_ACK has ended in tcp_nip_done, whether the peer's FIN was
      delivered, and whether it had been when the own FIN was queued. */
  datatype Conn = Conn(st: St, tx: Tx, rcvShut: bool, dead: bool, fins: nat, orderly: bool,
                       peerFin: bool, passive: bool)

  /** An arriving segment. What the receive path makes of it comes with it: whether it
      passes tcp_nip_validate_incoming, whether it resets the connection when it does
      not, and whether tcp_nip_data_queue delivers a FIN. */
  datatype SegIn = SegIn(seqno: int, end: int, ack: int, nwin: nat, hasAck: bool, syn: bool, rst: bool, fin: bool,
                         rcvNxt: int, valid: bool, resets: bool, finTaken: bool) {

    /** It carries payload beyond rcv_nxt. */
    predicate BringsData() {
      end != seqno && end - (if fin then 1 else 0) > rcvNxt
    }
  }

  // ---- Closing from this side ----

  /** The new_state table, with its TCP_ACTION_FIN bit. */
  function NewState(s: St): (St, bool) {
    match s
    case Established => (FinWait1, true)
    case SynRecv => (FinWait1, true)
    case CloseWait => (LastAck, true)
    case FinWait1 => (FinWait1, false)
    case FinWait2 => (FinWait2, false)
    case LastAck => (LastAck, false)
    case Closing => (Closing, false)
    case SynSent | Closed => (Closed, false)
  }

  /** tcp_nip_close_state, and tcp_nip_send_fin when the table asks for it. */
  function CloseState(c: Conn, push: Push, mss: nat): Conn
    requires mss > 0
  {
    var (ns, fin) := NewState(c.st);
    var c1 := c.(st := ns);
    if fin then c1.(tx := Flush(QueueFin(c.tx).(shut := true), push, mss), fins := c.fins + 1, passive := c.peerFin)
    else c1
  }

  /** shutdown(2): the socket layer first marks what is shut, then tcp_nip_shutdown acts
      on the sending side. */
  function Shutdown(c: Conn, rd: bool, wr: bool, push: Push, mss: nat): Conn
    requires mss > 0
  {
    var c1 := c.(rcvShut := c.rcvShut || rd);
    if wr && Open(c.st) then CloseState(c1, push, mss) else c1
  }

  /** tcp_nip_close; `unread` tells whether the receive queue still held data. */
  function CloseConn(c: Conn, unread: bool, push: Push, mss: nat): Conn
    requires mss > 0
  {
    var c1 := c.(rcvShut := true, dead := true);
    if c.st.Closed? then c1
    else if unread then c1.(st := Closed)
    else CloseState(c1, push, mss)
  }

  // ---- What a segment does ----

  /** tcp_nip_fin. */
  function Fin(c: Conn): Conn {
    var c1 := c.(rcvShut := true, peerFin := true);
    match c.st
    case SynRecv | Established => c1.(st := CloseWait)
    case FinWait1 => c1.(st := Closing)
    case _ => c1
  }

  /** tcp_nip_reset. */
  function Reset(c: Conn): Conn {
    if c.st.Closed? then c else c.(st := Closed, tx := c.tx.(wq := [], head := 0, out := 0), rcvShut := true)
  }

  /** tcp_nip_data_queue, as far as the state goes. */
  function Queue(c: Conn, s: SegIn): Conn {
    if s.finTaken then Fin(c) else c
  }

  /** tcp_nip_data_snd_check. */
  function SndCheck(c: Conn, push: Push, mss: nat): Conn
    requires mss > 0
  {
    if c.st.Closed? then c else c.(tx := Flush(c.tx, push, mss))
  }

  /** tcp_nip_rcv_established. */
  function RcvEstablished(c: Conn, s: SegIn, push: Push, mss: nat): Conn
    requires mss > 0
  {
    var r := Ack(c.tx, s.ack, s.seqno, s.nwin);
    if r.code < 0 then c else SndCheck(Queue(c.(tx := r.t), s), push, mss)
  }

  /** tcp_nip_rcv_synsent_state_process. */
  function RcvSynSent(c: Conn, s: SegIn): Conn {
    if !s.hasAck || s.ack <= c.tx.una || s.ack > c.tx.nxt then c
    else if s.rst then Reset(c)
    else if !s.syn then c
    else c.(st := Established, tx := Ack(c.tx, s.ack, s.seqno, s.nwin).t.(wnd := s.nwin))
  }

  /** The first switch of tcp_nip_rcv_state_process: where the ACK leads, and whether
      the segment is looked at any further. */
  function OnAck(c: Conn, s: SegIn): (Conn, bool) {
    match c.st
    case SynRecv => (c.(st := Established, tx := c.tx.(una := s.ack, wnd := s.nwin, wl1 := s.seqno)), true)
    case FinWait1 =>
      if c.tx.una != c.tx.wseq then (c, true)
      else if s.BringsData() then (c.(st := Closed), false)
      else (c.(st := FinWait2), true)
    case Closing => (c, c.tx.una != c.tx.wseq)
    case LastAck =>
      if c.tx.una == c.tx.wseq then (c.(st := Closed, orderly := true), false) else (c, true)
    case _ => (c, true)
  }

  /** The second switch: data, and the reset for data after a shutdown. */
  function OnData(c: Conn, s: SegIn): Conn {
    if (c.st.CloseWait? || c.st.Closing? || c.st.LastAck?) && s.seqno >= s.rcvNxt then c
    else if !c.st.Established? && c.rcvShut && s.BringsData() then Reset(c)
    else Queue(c, s)
  }

  /** tcp_nip_rcv_state_process. tcp_nip_ack's -1 becomes true in a bool and is
      accepted there. */
  function RcvStateProcess(c: Conn, s: SegIn, push: Push, mss: nat): Conn
    requires mss > 0
  {
    if c.st.Closed? then c
    else if c.st.SynSent? then RcvSynSent(c, s)
    else if !s.hasAck && !s.rst && !s.syn then c
    else if !s.valid then (if s.resets then Reset(c) else c)
    else
      var r := Ack(c.tx, s.ack, s.seqno, s.nwin);
      if r.code == 0 then c
      else
        var (c1, further) := OnAck(c.(tx := r.t), s);
        if !further then c1 else SndCheck(OnData(c1, s), push, mss)
  }

  function Arrive(c: Conn, s: SegIn, push: Push, mss: nat): Conn
    requires mss > 0
  {
    if c.st.Established? then
      if !s.valid then (if s.resets then Reset(c) else c) else RcvEstablished(c, s, push, mss)
    else RcvStateProcess(c, s, push, mss)
  }

  // ---- The invariant ----

  predicate Open(s: St) {
    s.SynSent? || s.SynRecv? || s.Established? || s.CloseWait?
  }

  /** Before the handshake is over only the SYN, if anything, has been queued. */
  predicate Waiting(c: Conn) {
    && (c.st.SynSent? ==> c.tx.head == |c.tx.wq|)
    && (c.st.SynRecv? ==> c.tx.wq == [])
  }

  /** What the state says about the two FINs: whether each side has closed and, once both
      have, which was first (compare figure 5 of RFC 9293). */
  predicate Named(c: Conn) {
    match c.st
    case SynSent | SynRecv | Established => !c.peerFin
    case CloseWait => c.peerFin
    case FinWait1 => !c.peerFin && !c.passive
    case FinWait2 => !c.passive
    case Closing => c.peerFin && !c.passive
    case LastAck => c.peerFin && c.passive
    case Closed => true
  }

  /** FIN_WAIT1 and LAST_ACK wait for the acknowledgement of something: once everything is
      acknowledged they are over. */
  predicate Waits(c: Conn) {
    c.st.FinWait1? || c.st.LastAck? ==> c.tx.una < c.tx.wseq
  }

  /** Until this side closes no FIN is queued; afterwards exactly one is, it holds the
      last sequence number, FIN_WAIT2 means it is acknowledged, and FIN_WAIT1 or LAST_ACK
      that not everything is. */
  ghost predicate ConnInv(c: Conn, mss: nat) {
    && mss > 0 && c.fins <= 1
    && (c.st != Closed ==>
          && Inv(c.tx, mss) && !c.orderly
          && c.tx.shut == !Open(c.st) && c.fins == (if c.tx.shut then 1 else 0)
          && (c.st.FinWait2? ==> c.tx.una == c.tx.wseq)
          && Waiting(c) && Named(c) && Waits(c))
    && (c.orderly ==> c.fins == 1 && c.tx.una == c.tx.wseq)
  }

  /** A state change leads strictly forward. */
  predicate Forward(c: Conn, c': Conn) {
    (c'.st == c.st || Rank(c.st) < Rank(c'.st)) && c.fins <= c'.fins
  }

  lemma CloseStateKeeps(c: Conn, push: Push, mss: nat)
    requires ConnInv(c, mss) && push.num > 0 && c.st != Closed
    ensures ConnInv(CloseState(c, push, mss), mss) && Forward(c, CloseState(c, push, mss))
    ensures Open(c.st) && !c.st.SynSent? ==> CloseState(c, push, mss).fins == 1
  {
    if NewState(c.st).1 {
      LedgerMeaning(c.tx, mss);
      CloseKeeps(c.tx, SendRun.Close(push), mss);
    }
  }

  /** The invariant but for the head being ready, as an ACK is always followed by a push,
      and for what FIN_WAIT1 and LAST_ACK wait for, which the ACK may have brought. */
  ghost predicate Pushable(c: Conn, mss: nat) {
    && mss > 0 && c.fins <= 1 && !c.orderly
    && Ledger(c.tx, mss) && FinPlaced(c.tx)
    && c.tx.shut == !Open(c.st) && c.fins == (if c.tx.shut then 1 else 0)
    && (c.st.FinWait2? ==> c.tx.una == c.tx.wseq)
    && Waiting(c) && Named(c)
  }

  lemma PushKeeps(c: Conn, push: Push, mss: nat)
    requires Pushable(c, mss) && Waits(c) && push.num > 0 && c.st != Closed
    ensures ConnInv(SndCheck(c, push, mss), mss)
  {
    FlushKeeps(c.tx, push, mss);
    XmitKeeps(c.tx, mss, push.num, push.up);
    XmitSends(c.tx, mss, push.num, push.up);
  }

  lemma AckedIsPushable(c: Conn, s: SegIn, mss: nat)
    requires ConnInv(c, mss) && c.st != Closed
    ensures Pushable(c.(tx := Ack(c.tx, s.ack, s.seqno, s.nwin).t), mss)
    ensures var t := Ack(c.tx, s.ack, s.seqno, s.nwin).t;
            t.wseq == c.tx.wseq && (c.tx.una <= s.ack <= c.tx.nxt ==> t.una == s.ack)
  {
    var n := AckKeeps(c.tx, s.ack, s.seqno, s.nwin, mss);
    var r := Ack(c.tx, s.ack, s.seqno, s.nwin);
    LedgerMeaning(c.tx, mss);
  }

  lemma EstablishedKeeps(c: Conn, s: SegIn, push: Push, mss: nat)
    requires ConnInv(c, mss) && push.num > 0 && c.st.Established?
    ensures var c' := RcvEstablished(c, s, push, mss); ConnInv(c', mss) && Forward(c, c')
  {
    AckedIsPushable(c, s, mss);
    var c1 := c.(tx := Ack(c.tx, s.ack, s.seqno, s.nwin).t);
    PushKeeps(Queue(c1, s), push, mss);
  }

  lemma SynSentKeeps(c: Conn, s: SegIn, mss: nat)
    requires ConnInv(c, mss) && c.st.SynSent?
    ensures var c' := RcvSynSent(c, s); ConnInv(c', mss) && Forward(c, c')
  {
    hide Contiguous, Sized, Clean;
    AckedIsPushable(c, s, mss);
    var n := AckKeeps(c.tx, s.ack, s.seqno, s.nwin, mss);
  }

  /** What the ACK switch leaves: the segment is done with, or may be pushed after. */
  lemma OnAckKeeps(c: Conn, s: SegIn, mss: nat)
    requires Pushable(c, mss) && c.st != Closed && !c.st.SynSent?
    requires c.st.SynRecv? ==> s.ack == c.tx.una
    requires c.st.Closing? && c.tx.una == c.tx.wseq ==> Inv(c.tx, mss)
    ensures var (c', further) := OnAck(c, s);
            && Forward(c, c')
            && (further ==> Pushable(c', mss) && Waits(c') && c'.st != Closed)
            && (!further ==> ConnInv(c', mss))
  {
    LedgerMeaning(c.tx, mss);
  }

  lemma OnDataKeeps(c: Conn, s: SegIn, mss: nat)
    requires Pushable(c, mss) && Waits(c) && c.st != Closed && !c.st.SynSent?
    ensures var c' := OnData(c, s);
            Forward(c, c') && (if c'.st == Closed then ConnInv(c', mss) else Pushable(c', mss) && Waits(c'))
  {
  }

  /** The third handshake ACK is acceptable when it does not name more than was sent. */
  predicate AcceptableThirdAck(c: Conn, s: SegIn) {
    c.st.SynRecv? ==> s.ack <= c.tx.nxt
  }

  lemma AllAckedIsReady(t: Tx, mss: nat)
    requires Ledger(t, mss) && FinPlaced(t) && t.una == t.wseq
    ensures Inv(t, mss)
  {
    LedgerMeaning(t, mss);
  }

  lemma StateProcessKeeps(c: Conn, s: SegIn, push: Push, mss: nat)
    requires ConnInv(c, mss) && push.num > 0 && !c.st.Established?
    requires AcceptableThirdAck(c, s)
    ensures var c' := RcvStateProcess(c, s, push, mss); ConnInv(c', mss) && Forward(c, c')
  {
    if c.st.SynSent? {
      SynSentKeeps(c, s, mss);
    } else if c.st != Closed && (s.hasAck || s.rst || s.syn) && s.valid {
      var r := Ack(c.tx, s.ack, s.seqno, s.nwin);
      if r.code != 0 {
        AckedIsPushable(c, s, mss);
        var c1 := c.(tx := r.t);
        if c1.tx.una == c1.tx.wseq { AllAckedIsReady(c1.tx, mss); }
        OnAckKeeps(c1, s, mss);
        var (c2, further) := OnAck(c1, s);
        if further {
          OnDataKeeps(c2, s, mss);
          SndCheckForward(OnData(c2, s), push, mss);
        }
      }
    }
  }

  lemma SndCheckForward(c: Conn, push: Push, mss: nat)
    requires push.num > 0 && if c.st == Closed then ConnInv(c, mss) else Pushable(c, mss) && Waits(c)
    ensures ConnInv(SndCheck(c, push, mss), mss)
    ensures SndCheck(c, push, mss).st == c.st && SndCheck(c, push, mss).fins == c.fins
  {
    if c.st != Closed { PushKeeps(c, push, mss); }
  }

  /** The exact condition at the third handshake ACK: an ACK beyond snd_nxt makes
      tcp_nip_ack answer -1, which is accepted, and moves snd_una past snd_nxt. */
  lemma ThirdAckIff(c: Conn, s: SegIn, push: Push, mss: nat)
    requires ConnInv(c, mss) && push.num > 0 && c.st.SynRecv?
    requires s.valid && s.hasAck && c.tx.una <= s.ack
    ensures ConnInv(RcvStateProcess(c, s, push, mss), mss) <==> AcceptableThirdAck(c, s)
  {
    if AcceptableThirdAck(c, s) {
      StateProcessKeeps(c, s, push, mss);
    }
  }

  // ---- Which steps must be taken ----

  /** tcp_nip_rcv_state_process looks at the segment's ACK and finds it acceptable. */
  predicate Accepted(c: Conn, s: SegIn) {
    s.valid && (s.hasAck || s.rst || s.syn) && c.tx.una <= s.ack
  }

  /** It acknowledges everything up to write_seq, and everything was sent. */
  predicate Finishes(c: Conn, s: SegIn) {
    s.ack == c.tx.nxt == c.tx.wseq
  }

  /** Its data comes after this side shut down reading. */
  predicate TooLate(c: Conn, s: SegIn) {
    c.rcvShut && s.BringsData() && (c.st.FinWait1? || c.st.FinWait2? || s.seqno < s.rcvNxt)
  }

  /** Of a segment with n bytes of payload: it brings data when the last of them, or its
      FIN, is at rcv_nxt or beyond. */
  lemma BringsDataMeaning(s: SegIn, n: nat)
    requires s.end == s.seqno + n + if s.fin then 1 else 0
    ensures s.BringsData() <==> (n > 0 || s.fin) && s.seqno + n > s.rcvNxt
  {
  }

  lemma UnaAfter(c: Conn, s: SegIn, mss: nat)
    requires ConnInv(c, mss) && c.st != Closed
    ensures c.tx.una <= c.tx.nxt <= c.tx.wseq && !c.orderly && Named(c) && Waits(c)
    ensures c.st.FinWait2? ==> c.tx.una == c.tx.wseq
    ensures c.tx.una <= s.ack ==>
              var r := Ack(c.tx, s.ack, s.seqno, s.nwin);
              && r.t.una == (if s.ack <= c.tx.nxt then s.ack else c.tx.una)
              && r.t.wseq == c.tx.wseq && r.code == (if s.ack <= c.tx.nxt then 1 else -1)
    ensures s.ack < c.tx.una ==> Ack(c.tx, s.ack, s.seqno, s.nwin) == Acked(c.tx, 0)
  {
    var n := AckKeeps(c.tx, s.ack, s.seqno, s.nwin, mss);
    LedgerMeaning(c.tx, mss);
  }

  lemma PushLeaves(c: Conn, push: Push, mss: nat)
    requires mss > 0
    ensures SndCheck(c, push, mss) == c.(tx := SndCheck(c, push, mss).tx)
    ensures SndCheck(c, push, mss).tx.una == c.tx.una && SndCheck(c, push, mss).tx.wseq == c.tx.wseq
  {
    if c.st != Closed { XmitMoves(c.tx, mss, push.num, push.up); }
  }

  lemma {:induction false} XmitMoves(t: Tx, mss: nat, num: nat, up: nat)
    requires mss > 0
    ensures Xmit(t, mss, num, up).una == t.una && Xmit(t, mss, num, up).wseq == t.wseq
    decreases num
  {
    if t.head < |t.wq| && num > 0 {
      var p := InitSegs(t.wq[t.head], mss);
      var t1 := t.(wq := t.wq[t.head := p]);
      if FitsWindow(t1, p, mss) && up > 0 { XmitMoves(Advance(t1), mss, num - 1, up - 1); }
    }
  }

  /** What an accepted segment leaves, but for the push: the two switches in turn. */
  lemma Processed(c: Conn, s: SegIn, push: Push, mss: nat)
    requires ConnInv(c, mss) && !c.st.Closed? && !c.st.SynSent? && !c.st.Established? && s.valid
    ensures var c' := Arrive(c, s, push, mss);
            if !Accepted(c, s) then c' == c
            else
              var (c1, further) := OnAck(c.(tx := Ack(c.tx, s.ack, s.seqno, s.nwin).t), s);
              var c2 := if further then OnData(c1, s) else c1;
              c' == c2.(tx := c'.tx) && c'.tx.una == c2.tx.una && c'.tx.wseq == c2.tx.wseq
  {
    UnaAfter(c, s, mss);
    var (c1, further) := OnAck(c.(tx := Ack(c.tx, s.ack, s.seqno, s.nwin).t), s);
    hide ConnInv, Ack, SndCheck, OnAck, OnData;
    PushLeaves(OnData(c1, s), push, mss);
  }

  /** The arrows out of FIN_WAIT1 (compare figure 5 of RFC 9293): for FIN_WAIT2 exactly
      when everything is acknowledged and no data comes with it; for CLOSING exactly when
      the peer's FIN is delivered before that; for CLOSE on data that nobody will read. */
  lemma FromFinWait1(c: Conn, s: SegIn, push: Push, mss: nat)
    requires ConnInv(c, mss) && c.st.FinWait1? && s.valid
    ensures var c' := Arrive(c, s, push, mss); var done := Accepted(c, s) && Finishes(c, s);
            && (c'.st.FinWait2? <==> done && !s.BringsData())
            && (c'.st.Closing? <==> Accepted(c, s) && !Finishes(c, s) && !TooLate(c, s) && s.finTaken)
            && (c'.st.Closed? <==> s.BringsData() && (done || (Accepted(c, s) && c.rcvShut)))
            && (c'.peerFin <==> c'.st != Closed && Accepted(c, s) && s.finTaken) && (c'.peerFin ==> c'.rcvShut)
            && !c'.orderly
  {
    UnaAfter(c, s, mss);
    Processed(c, s, push, mss);
    hide ConnInv, Ack, Arrive;
  }

  /** LAST_ACK ends in the orderly CLOSE exactly when everything is acknowledged; the only
      other way out is a reset for late data. */
  lemma FromLastAck(c: Conn, s: SegIn, push: Push, mss: nat)
    requires ConnInv(c, mss) && c.st.LastAck? && s.valid
    ensures var c' := Arrive(c, s, push, mss);
            && (c'.st.Closed? && c'.orderly <==> Accepted(c, s) && Finishes(c, s))
            && (c'.st.Closed? && !c'.orderly <==> Accepted(c, s) && !Finishes(c, s) && TooLate(c, s))
            && (!c'.st.Closed? ==> c'.st.LastAck?)
  {
    UnaAfter(c, s, mss);
    Processed(c, s, push, mss);
    hide ConnInv, Ack, Arrive;
  }

  /** In FIN_WAIT2, CLOSING and CLOSE_WAIT a segment leads to CLOSE, by a reset for late
      data, or nowhere. In CLOSING one that finds everything acknowledged is discarded. */
  lemma FromQuietStates(c: Conn, s: SegIn, push: Push, mss: nat)
    requires ConnInv(c, mss) && (c.st.FinWait2? || c.st.Closing? || c.st.CloseWait?) && s.valid
    ensures var c' := Arrive(c, s, push, mss);
            && (c'.st.Closed? <==> Accepted(c, s) && TooLate(c, s)
                                   && !(c.st.Closing? && (Finishes(c, s) || c.tx.una == c.tx.wseq)))
            && (!c'.st.Closed? ==> c'.st == c.st)
            && (c.st.FinWait2? && Accepted(c, s) && s.finTaken && !c'.st.Closed? ==> c'.peerFin && c'.rcvShut)
  {
    UnaAfter(c, s, mss);
    Processed(c, s, push, mss);
    hide ConnInv, Ack, Arrive;
  }

  /** The handshake's third segment leaves SYN_RECV whenever its ACK is not old, with the
      number and the window it names; the FIN it may carry leads on to CLOSE_WAIT. */
  lemma FromSynRecv(c: Conn, s: SegIn, push: Push, mss: nat)
    requires ConnInv(c, mss) && c.st.SynRecv? && s.valid
    ensures var c' := Arrive(c, s, push, mss);
            && (c'.st.SynRecv? <==> !Accepted(c, s))
            && (c'.st.Established? <==> Accepted(c, s) && !s.finTaken)
            && (c'.st.CloseWait? <==> Accepted(c, s) && s.finTaken)
            && (Accepted(c, s) ==> c'.tx.una == s.ack) && (c'.peerFin ==> c'.rcvShut)
  {
    UnaAfter(c, s, mss);
    Processed(c, s, push, mss);
    hide ConnInv, Ack, Arrive;
  }

  /** An active open is over exactly when a SYN acknowledges what this side sent; a reset
      is believed only with such an acknowledgement. */
  lemma FromSynSent(c: Conn, s: SegIn, push: Push, mss: nat)
    requires ConnInv(c, mss) && c.st.SynSent?
    ensures var c' := Arrive(c, s, push, mss); var ours := s.hasAck && c.tx.una < s.ack <= c.tx.nxt;
            && (c'.st.Established? <==> ours && s.syn && !s.rst)
            && (c'.st.Closed? <==> ours && s.rst)
            && (!c'.st.Established? && !c'.st.Closed? ==> c' == c)
            && (c'.st.Established? ==> c'.tx.una == s.ack && c'.tx.wnd == s.nwin)
  {
    UnaAfter(c, s, mss);
    hide ConnInv, Ack;
  }

  /** A delivered FIN leaves ESTABLISHED for CLOSE_WAIT, and nothing else does; the ACK is
      taken either way. */
  lemma FromEstablished(c: Conn, s: SegIn, push: Push, mss: nat)
    requires ConnInv(c, mss) && c.st.Established? && s.valid
    ensures var c' := Arrive(c, s, push, mss);
            && (c'.st.CloseWait? <==> s.ack <= c.tx.nxt && s.finTaken)
            && (!c'.st.CloseWait? ==> c'.st.Established?)
            && (c'.peerFin <==> c'.st.CloseWait?) && (c'.st.CloseWait? ==> c'.rcvShut)
            && c'.tx.una == (if c.tx.una <= s.ack <= c.tx.nxt then s.ack else c.tx.una)
            && c'.tx.wseq == c.tx.wseq
  {
    UnaAfter(c, s, mss);
    PushLeaves(Queue(c.(tx := Ack(c.tx, s.ack, s.seqno, s.nwin).t), s), push, mss);
    hide ConnInv, Ack, SndCheck;
  }

  /** A segment that tcp_nip_validate_incoming turns away resets the connection or changes
      nothing; a reset leaves nothing queued. */
  lemma FromInvalid(c: Conn, s: SegIn, push: Push, mss: nat)
    requires ConnInv(c, mss) && !s.valid && !c.st.SynSent?
    ensures var c' := Arrive(c, s, push, mss); var looked := c.st.Established? || s.hasAck || s.rst || s.syn;
            if looked && s.resets then
              c'.st.Closed? && (c.st != Closed ==> c'.tx.wq == [] && c'.tx.head == c'.tx.out == 0 && c'.rcvShut)
            else c' == c
  {
  }

  /** Closing the sending side: from an open state a FIN is queued behind everything, and
      the state is the one that waits for its acknowledgement; before the handshake there
      is nothing to send; a side already closed is left alone. */
  lemma ClosingLeads(c: Conn, push: Push, mss: nat)
    requires ConnInv(c, mss) && push.num > 0
    ensures var c' := CloseState(c, push, mss);
            && (c.st.Established? || c.st.SynRecv? ==> c'.st.FinWait1?)
            && (c.st.CloseWait? ==> c'.st.LastAck?)
            && (c.st.SynSent? ==> c'.st.Closed?)
            && (Open(c.st) && !c.st.SynSent? ==>
                  c'.fins == 1 && c'.tx.shut && c'.tx.wseq == c.tx.wseq + 1 && c'.tx.una == c.tx.una)
            && (!Open(c.st) ==> c' == c)
  {
    if Open(c.st) && !c.st.SynSent? { CloseKeeps(c.tx, SendRun.Close(push), mss); }
  }

  /** Which calls close what: shutdown acts on the sides it names, close on both, and close
      with unread data drops the connection without a FIN. */
  lemma CallsLead(c: Conn, rd: bool, wr: bool, unread: bool, push: Push, mss: nat)
    requires ConnInv(c, mss) && push.num > 0 && !c.st.Closed?
    ensures var c1 := Shutdown(c, rd, wr, push, mss);
            && c1.rcvShut == (c.rcvShut || rd)
            && (if wr then c1.st == CloseState(c, push, mss).st && c1.tx == CloseState(c, push, mss).tx
                else c1.st == c.st && c1.tx == c.tx)
    ensures var c2 := CloseConn(c, unread, push, mss);
            && c2.rcvShut && c2.dead
            && (if unread then c2.st.Closed? && c2.tx == c.tx
                else c2.st == CloseState(c, push, mss).st && c2.tx == CloseState(c, push, mss).tx)
  {
  }

  lemma OpenHasNoFin(c: Conn, mss: nat)
    requires ConnInv(c, mss) && (c.st.Established? || c.st.CloseWait?)
    ensures mss > 0 && NoFin(c.tx.wq) && Ordered(c.tx, mss) && c.tx.head <= |c.tx.wq|
  {
  }

  lemma ShutKeepsOrder(t: Tx, mss: nat)
    requires Ordered(t, mss)
    ensures Ordered(t.(shut := true), mss)
  {
  }

  /** With room in the peer's window and no refusal, closing sends everything, FIN included. */
  lemma FinGoesOut(c: Conn, push: Push, mss: nat)
    requires ConnInv(c, mss) && (c.st.Established? || c.st.CloseWait?)
    requires push.num > |c.tx.wq| && push.up > |c.tx.wq| && c.tx.wseq + 1 <= c.tx.WndEnd()
    ensures var t' := CloseState(c, push, mss).tx; t'.nxt == t'.wseq == c.tx.wseq + 1
  {
    hide ConnInv, Ordered, NoFin, Xmit;
    OpenHasNoFin(c, mss);
    QueueFinKeeps(c.tx, mss);
    var u := QueueFin(c.tx).(shut := true);
    ShutKeepsOrder(QueueFin(c.tx), mss);
    XmitMoves(u, mss, push.num, push.up);
    XmitSendsAll(u, mss, push.num, push.up);
    assert CloseState(c, push, mss).tx == Xmit(u, mss, push.num, push.up);
  }

  /** The close exchange comes to its end: the acknowledgement of everything takes the side
      that closed first to FIN_WAIT2, and the side that closed second to the orderly CLOSE. */
  lemma CloseCompletes(c: Conn, push: Push, s: SegIn, push2: Push, mss: nat)
    requires ConnInv(c, mss) && (c.st.Established? || c.st.CloseWait?)
    requires push.num > |c.tx.wq| && push.up > |c.tx.wq| && c.tx.wseq + 1 <= c.tx.WndEnd()
    requires s.valid && s.hasAck && s.ack == c.tx.wseq + 1 && !s.BringsData() && push2.num > 0
    ensures var c1 := CloseState(c, push, mss); var c2 := Arrive(c1, s, push2, mss);
            && ConnInv(c2, mss)
            && (if c.peerFin then c1.st.LastAck? && c2.st.Closed? && c2.orderly
                else c1.st.FinWait1? && c2.st.FinWait2?)
  {
    hide ConnInv, Arrive;
    UnaAfter(c, s, mss);
    CloseStateKeeps(c, push, mss);
    ClosingLeads(c, push, mss);
    FinGoesOut(c, push, mss);
    var c1 := CloseState(c, push, mss);
    if c.st.Established? {
      FromFinWait1(c1, s, push2, mss);
    } else {
      FromLastAck(c1, s, push2, mss);
    }
    ArriveKeeps(c1, s, push2, mss);
  }

  // ---- The passive open ----

  /** tcp_nip_check_req: only an ACK of exactly the SYN+ACK makes a child socket. */
  predicate MakesChild(isn: int, s: SegIn) {
    s.hasAck && s.ack == isn + 1
  }

  /** tcp_nip_create_openreq_child. */
  function Child(isn: int, rcvIsn: int, wnd: nat): Conn {
    Conn(SynRecv, Tx([], 0, isn + 1, isn + 1, isn + 1, 0, wnd, rcvIsn, false), false, false, 0, false, false, false)
  }

  /** tcp_nip_child_process: the segment that made the child is its first. */
  function Born(isn: int, rcvIsn: int, s: SegIn, push: Push, mss: nat): Conn
    requires mss > 0
  {
    RcvStateProcess(Child(isn, rcvIsn, s.nwin), s, push, mss)
  }

  /** The segment that makes a child never breaks it; the child stays in SYN_RECV exactly
      when that segment fails the tests of tcp_nip_validate_incoming, harmlessly. */
  lemma BornHolds(isn: int, rcvIsn: int, s: SegIn, push: Push, mss: nat)
    requires mss > 0 && push.num > 0 && MakesChild(isn, s)
    ensures ConnInv(Child(isn, rcvIsn, s.nwin), mss) && ConnInv(Born(isn, rcvIsn, s, push, mss), mss)
    ensures Born(isn, rcvIsn, s, push, mss).st.SynRecv? <==> !s.valid && !s.resets
    ensures !s.valid && !s.resets ==> Born(isn, rcvIsn, s, push, mss) == Child(isn, rcvIsn, s.nwin)
    ensures s.valid ==> !Born(isn, rcvIsn, s, push, mss).dead
  {
    StateProcessKeeps(Child(isn, rcvIsn, s.nwin), s, push, mss);
  }

  /** The exact condition for the next segment: it breaks the connection if and only if
      the first was rejected and it names more than was sent. */
  lemma SecondSegmentIff(isn: int, rcvIsn: int, first: SegIn, p1: Push, s: SegIn, p2: Push, mss: nat)
    requires mss > 0 && p1.num > 0 && p2.num > 0 && MakesChild(isn, first) && s.valid && s.hasAck
    ensures ConnInv(Arrive(Born(isn, rcvIsn, first, p1, mss), s, p2, mss), mss) <==>
            first.valid || first.resets || s.ack <= isn + 1
  {
    hide RcvStateProcess, ConnInv;
    BornHolds(isn, rcvIsn, first, p1, mss);
    var c := Born(isn, rcvIsn, first, p1, mss);
    if c.st.SynRecv? && isn + 1 <= s.ack {
      ThirdAckIff(c, s, p2, mss);
    } else if c.st.Established? {
      EstablishedKeeps(c, s, p2, mss);
    } else {
      StateProcessKeeps(c, s, p2, mss);
    }
  }

  /** tcp_nip_sequence, the first test of tcp_nip_validate_incoming. */
  predicate InWindow(s: SegIn, wup: int, win: nat) {
    wup <= s.end && s.seqno <= s.rcvNxt + win
  }

  /** A first segment beyond the receive window, which still makes the child; then one
      within it that acknowledges two bytes although none were sent. */
  lemma ThirdAckRun()
    ensures var first := SegIn(70_001, 70_001, 1, 1000, true, false, false, false, 5001, false, false, false);
            var s := SegIn(5001, 5001, 3, 1000, true, false, false, false, 5001, true, false, false);
            && MakesChild(0, first)
            && first.valid == InWindow(first, 5001, 60_000) && s.valid == InWindow(s, 5001, 60_000)
            && !ConnInv(Arrive(Born(0, 5000, first, Push(1, 1), 1400), s, Push(1, 1), 1400), 1400)
  {
    var first := SegIn(70_001, 70_001, 1, 1000, true, false, false, false, 5001, false, false, false);
    var s := SegIn(5001, 5001, 3, 1000, true, false, false, false, 5001, true, false, false);
    SecondSegmentIff(0, 5000, first, Push(1, 1), s, Push(1, 1), 1400);
  }

  // ---- Runs ----

  datatype Event =
    | ShutdownCall(rd: bool, wr: bool, push: Push)
    | CloseCall(unread: bool, push: Push)
    | Segment(s: SegIn, push: Push)
    | Abort
    | KeepaliveDeath
    | Sending(e: SendRun.Event)

  /** sendmsg waits for the handshake; retransmission and the probe run until CLOSE. */
  predicate MaySend(c: Conn, e: SendRun.Event) {
    match e
    case Write(_, _, _) => c.st.Established? || c.st.CloseWait?
    case Resend(_) => c.st != Closed
    case ProbeTimer(_) => c.st != Closed
    case _ => false
  }

  ghost function Step(c: Conn, e: Event, mss: nat): Conn
    requires ConnInv(c, mss)
  {
    match e
    case ShutdownCall(rd, wr, push) => Shutdown(c, rd, wr, push, mss)
    case CloseCall(unread, push) => CloseConn(c, unread, push, mss)
    case Segment(s, push) => Arrive(c, s, push, mss)
    case Abort => c.(st := Closed)
    case KeepaliveDeath => if (c.st.FinWait2? || c.st.Closing?) && c.dead then c.(st := Closed) else c
    case Sending(e) => if MaySend(c, e) then c.(tx := SendRun.Step(c.tx, e, mss)) else c
  }

  /** Every push has budget, and no third ACK names more than was sent. */
  predicate Legal(c: Conn, e: Event) {
    match e
    case ShutdownCall(_, _, push) => push.num > 0
    case CloseCall(_, push) => push.num > 0
    case Segment(s, push) => push.num > 0 && AcceptableThirdAck(c, s)
    case Sending(e) => Budgeted(e)
    case _ => true
  }

  lemma SendingKeeps(c: Conn, e: SendRun.Event, mss: nat)
    requires ConnInv(c, mss) && Budgeted(e) && MaySend(c, e)
    ensures ConnInv(c.(tx := SendRun.Step(c.tx, e, mss)), mss)
  {
    SendRun.StepKeeps(c.tx, e, mss);
    LedgerMeaning(c.tx, mss);
    LedgerMeaning(SendRun.Step(c.tx, e, mss), mss);
    if e.Resend? { ResendKeeps(c.tx, e.at, mss); }
    if e.ProbeTimer? { ProbeKeeps(c.tx, e.up, mss); }
    if e.Write? { WriteKeeps(c.tx, e, mss); }
  }

  lemma ShutdownKeeps(c: Conn, rd: bool, wr: bool, push: Push, mss: nat)
    requires ConnInv(c, mss) && push.num > 0
    ensures var c' := Shutdown(c, rd, wr, push, mss); ConnInv(c', mss) && Forward(c, c')
  {
    if c.st != Closed { CloseStateKeeps(c.(rcvShut := c.rcvShut || rd), push, mss); }
  }

  lemma CloseConnKeeps(c: Conn, unread: bool, push: Push, mss: nat)
    requires ConnInv(c, mss) && push.num > 0
    ensures var c' := CloseConn(c, unread, push, mss); ConnInv(c', mss) && Forward(c, c')
  {
    if c.st != Closed { CloseStateKeeps(c.(rcvShut := true, dead := true), push, mss); }
  }

  lemma ArriveKeeps(c: Conn, s: SegIn, push: Push, mss: nat)
    requires ConnInv(c, mss) && push.num > 0 && AcceptableThirdAck(c, s)
    ensures var c' := Arrive(c, s, push, mss); ConnInv(c', mss) && Forward(c, c')
  {
    hide RcvEstablished, RcvStateProcess;
    if c.st.Established? { EstablishedKeeps(c, s, push, mss); } else { StateProcessKeeps(c, s, push, mss); }
  }

  /** What else ends a connection: an abort at once; the keepalive timer when it is orphaned
      in FIN_WAIT2 or CLOSING. Sending goes on until this side closes, retransmitting and
      probing until CLOSE. */
  lemma EventsLead(c: Conn, e: SendRun.Event, mss: nat)
    requires ConnInv(c, mss)
    ensures Step(c, Abort, mss) == c.(st := Closed)
    ensures Step(c, KeepaliveDeath, mss).st ==
            if c.dead && (c.st.FinWait2? || c.st.Closing?) then Closed else c.st
    ensures var c' := Step(c, Sending(e), mss);
            && (e.Write? && (c.st.Established? || c.st.CloseWait?) ==> c' == c.(tx := SendRun.Step(c.tx, e, mss)))
            && ((e.Resend? || e.ProbeTimer?) && !c.st.Closed? ==> c' == c.(tx := SendRun.Step(c.tx, e, mss)))
            && (c.st.Closed? || (e.Write? && !c.st.Established? && !c.st.CloseWait?) ==> c' == c)
  {
  }

  lemma ClosedKeeps(c: Conn, mss: nat)
    requires ConnInv(c, mss)
    ensures ConnInv(c.(st := Closed), mss) && Forward(c, c.(st := Closed))
  {
  }

  lemma StepKeeps(c: Conn, e: Event, mss: nat)
    requires ConnInv(c, mss) && Legal(c, e)
    ensures ConnInv(Step(c, e, mss), mss) && Forward(c, Step(c, e, mss))
  {
    hide ConnInv, Shutdown, CloseConn, Arrive;
    match e
    case ShutdownCall(rd, wr, push) => ShutdownKeeps(c, rd, wr, push, mss);
    case CloseCall(unread, push) => CloseConnKeeps(c, unread, push, mss);
    case Segment(s, push) => ArriveKeeps(c, s, push, mss);
    case Sending(e) => if MaySend(c, e) { SendingKeeps(c, e, mss); }
    case Abort => ClosedKeeps(c, mss);
    case KeepaliveDeath => ClosedKeeps(c, mss);
  }

  ghost predicate AllLegal(c: Conn, es: seq<Event>, mss: nat)
    requires ConnInv(c, mss)
    decreases |es|
  {
    es == [] || (Legal(c, es[0]) && (StepKeeps(c, es[0], mss); AllLegal(Step(c, es[0], mss), es[1..], mss)))
  }

  ghost function Run(c: Conn, es: seq<Event>, mss: nat): Conn
    requires ConnInv(c, mss) && AllLegal(c, es, mss)
    decreases |es|
  {
    if es == [] then c
    else
      StepKeeps(c, es[0], mss);
      Run(Step(c, es[0], mss), es[1..], mss)
  }

  /** How often the state changes on the way. */
  ghost function Changes(c: Conn, es: seq<Event>, mss: nat): nat
    requires ConnInv(c, mss) && AllLegal(c, es, mss)
    decreases |es|
  {
    if es == [] then 0
    else
      StepKeeps(c, es[0], mss);
      var c' := Step(c, es[0], mss);
      (if c'.st == c.st then 0 else 1) + Changes(c', es[1..], mss)
  }

  /** Over every run the rank pays for each state change, so there are at most four;
      at most one FIN is queued, holding the last sequence number; FIN_WAIT2, and the
      orderly end of LAST_ACK, come only when everything up to it is acknowledged. */
  lemma {:induction false} RunIsBounded(c: Conn, es: seq<Event>, mss: nat)
    requires ConnInv(c, mss) && AllLegal(c, es, mss)
    ensures var c' := Run(c, es, mss);
            && ConnInv(c', mss)
            && Rank(c.st) + Changes(c, es, mss) <= Rank(c'.st) <= 5
            && c.fins <= c'.fins <= 1
            && (c'.st.FinWait2? || c'.orderly ==> c'.fins == 1 && c'.tx.una == c'.tx.wseq)
    decreases |es|
  {
    if es != [] {
      StepKeeps(c, es[0], mss);
      RunIsBounded(Step(c, es[0], mss), es[1..], mss);
    }
  }

  /** Both ways a connection starts. */
  lemma StartsHold(iss: int, rcvIsn: int, wnd: nat, mss: nat)
    requires mss > 0
    ensures ConnInv(Conn(SynSent, Connect(iss, false), false, false, 0, false, false, false), mss)
    ensures ConnInv(Child(iss, rcvIsn, wnd), mss)
  {
    ConnectStarts(iss, mss);
  }
}
