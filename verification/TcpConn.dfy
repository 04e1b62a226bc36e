/** A connection as the kernel keeps it: the state and the shutdown flags of a socket over
    the 32-bit sending half of TcpSender. Every method makes exactly the step of the state
    machine on unbounded offsets, and keeps its invariant. */
module TcpConn {
  import opened SeqNum
  import opened Segments
  import opened SendQueue
  import opened SendRun
  import opened CloseProtocol
  import TcpSender

  /** An arriving segment as its control block holds it. */
  datatype SegIn32 = SegIn32(seqno: u32, end: u32, ack: u32, nwin: nat, hasAck: bool, syn: bool, rst: bool,
                             fin: bool, rcvNxt: u32, valid: bool, resets: bool, finTaken: bool) {

    /** It carries payload beyond rcv_nxt. */
    predicate BringsData() {
      end != seqno && After(Add(end, if fin then -1 else 0), rcvNxt)
    }
  }

  function Image(s: SegIn): SegIn32 {
    SegIn32(Wrap(s.seqno), Wrap(s.end), Wrap(s.ack), s.nwin, s.hasAck, s.syn, s.rst,
            s.fin, Wrap(s.rcvNxt), s.valid, s.resets, s.finTaken)
  }

  /** The segment's own numbers are within half the number space of rcv_nxt. */
  predicate NearRcvNxt(s: SegIn) {
    && s.seqno <= s.end < s.seqno + TWO31
    && s.rcvNxt - TWO31 < s.seqno && s.end < s.rcvNxt + TWO31 - 1
  }

  /** So is what it acknowledges of snd_una, and its number of the last that moved the
      window. */
  predicate Live(t: Tx, s: SegIn) {
    && NearRcvNxt(s) && s.nwin <= 0x4000_0000
    && t.una - TWO31 < s.ack < t.una + TWO31 - 0x4000_0000
    && -TWO31 < s.seqno - t.wl1 < TWO31
  }

  lemma BringsDataOfImage(s: SegIn)
    requires NearRcvNxt(s)
    ensures Image(s).BringsData() <==> s.BringsData()
  {
    var e := s.end - if s.fin then 1 else 0;
    WrapInjective(s.end, s.seqno);
    AddOfWrap(s.end, if s.fin then -1 else 0);
    if s.end != s.seqno { BeforeOfWrap(s.rcvNxt, e); }
  }

  lemma SynSentTests(t: Tx, s: SegIn, mss: nat)
    requires Ledger(t, mss) && TcpSender.Fits(t) && Live(t, s)
    ensures After(Wrap(s.ack), Wrap(t.una)) <==> s.ack > t.una
    ensures s.ack > t.una ==> (After(Wrap(s.ack), Wrap(t.nxt)) <==> s.ack > t.nxt)
  {
    TcpSender.AckTests(t, s.ack, mss);
    BeforeOfWrap(t.una, s.ack);
  }

  /** Everything is acknowledged, tested in 32 bits. */
  lemma AllAckedTest(t: Tx, mss: nat)
    requires Ledger(t, mss) && TcpSender.Fits(t)
    ensures Wrap(t.una) == Wrap(t.wseq) <==> t.una == t.wseq
  {
    TcpSender.QueueSpan(t, mss, 0);
    WrapInjective(t.una, t.wseq);
  }

  /** A FIN still fits the number space. */
  predicate RoomToClose(t: Tx) {
    TcpSender.Fits(QueueFin(t))
  }

  class ConnSock {
    const snd: TcpSender.Sock
    var state: St
    var rcvShutdown: bool
    var dead: bool

    /** The same connection on unbounded offsets, with its history. */
    ghost var abs: Conn

    ghost predicate Matches()
      reads this, snd
    {
      && snd.Matches() && snd.abs == abs.tx
      && state == abs.st && rcvShutdown == abs.rcvShut && dead == abs.dead
    }

    ghost predicate Valid()
      reads this, snd
    {
      Matches() && ConnInv(abs, snd.mss)
    }

    /** An active open. */
    constructor Active(iss: u32, mss: nat)
      requires mss > 0
      ensures Valid() && fresh(snd) && snd.mss == mss
      ensures abs == Conn(SynSent, Connect(iss, false), false, false, 0, false, false, false)
    {
      StartsHold(iss, 0, 0, mss);
      var s := new TcpSender.Sock(iss, mss);
      snd := s;
      state, rcvShutdown, dead := SynSent, false, false;
      abs := Conn(SynSent, Connect(iss, false), false, false, 0, false, false, false);
    }

    /** tcp_nip_create_openreq_child. */
    constructor Passive(isn: u32, rcvIsn: u32, wnd: nat, mss: nat)
      requires mss > 0
      ensures Valid() && fresh(snd) && snd.mss == mss && abs == Child(isn, rcvIsn, wnd)
    {
      StartsHold(isn, rcvIsn, wnd, mss);
      AddOfWrap(isn, 1);
      var s := new TcpSender.Sock.AfterSyn(Add(isn, 1), rcvIsn, wnd, mss, isn + 1, rcvIsn);
      snd := s;
      state, rcvShutdown, dead := SynRecv, false, false;
      abs := Child(isn, rcvIsn, wnd);
    }

    /** tcp_nip_close_state, then tcp_nip_send_fin when it returns TCP_ACTION_FIN. */
    method MoveToClosing(push: Push)
      requires Valid() && state != Closed && push.num > 0 && (Open(state) ==> RoomToClose(abs.tx))
      modifies this`state, this`abs, snd
      ensures Valid() && abs == CloseState(old(abs), push, snd.mss) && Forward(old(abs), abs)
    {
      hide Contiguous, Sized, TcpSender.Images;
      CloseStateKeeps(abs, push, snd.mss);
      var (ns, fin) := NewState(state);
      state := ns;
      if fin {
        NoFinYet(abs, snd.mss);
        snd.CloseSend(push.num, push.up);
      }
      abs := CloseState(abs, push, snd.mss);
    }

    /** shutdown(2) and tcp_nip_shutdown. */
    method ShutdownSock(rd: bool, wr: bool, push: Push)
      requires Valid() && push.num > 0 && (Open(state) ==> RoomToClose(abs.tx))
      modifies this, snd
      ensures Valid() && abs == Shutdown(old(abs), rd, wr, push, snd.mss) && Forward(old(abs), abs)
    {
      hide ConnInv, CloseState;
      SetFlags(rcvShutdown || rd, dead);
      if wr && state in {Established, SynSent, SynRecv, CloseWait} {
        MoveToClosing(push);
      }
    }

    /** sk_shutdown and SOCK_DEAD say nothing about the queue. */
    method SetFlags(shut: bool, orphan: bool)
      requires Valid()
      modifies this`rcvShutdown, this`dead, this`abs
      ensures Valid() && abs == old(abs).(rcvShut := shut, dead := orphan)
    {
      rcvShutdown, dead := shut, orphan;
      abs := abs.(rcvShut := shut, dead := orphan);
    }

    /** tcp_set_state(TCP_CLOSE), outside the orderly end. */
    method SetClosed()
      requires Valid()
      modifies this`state, this`abs
      ensures Valid() && abs == old(abs).(st := Closed) && Forward(old(abs), abs)
    {
      state := Closed;
      abs := abs.(st := Closed);
    }

    /** tcp_nip_close. */
    method CloseSock(unread: bool, push: Push)
      requires Valid() && push.num > 0 && (Open(state) ==> RoomToClose(abs.tx))
      modifies this, snd
      ensures Valid() && abs == CloseConn(old(abs), unread, push, snd.mss) && Forward(old(abs), abs)
    {
      hide ConnInv, CloseState;
      SetFlags(true, true);
      if state == Closed {
        return;
      }
      if unread {
        SetClosed();
      } else {
        MoveToClosing(push);
      }
    }

    /** tcp_nip_fin, while a segment is being processed. */
    method TcpFin()
      requires Matches() && Pushable(abs, snd.mss) && Waits(abs) && state != Closed && state != SynSent
      modifies this`state, this`rcvShutdown, this`abs
      ensures Matches() && Pushable(abs, snd.mss) && Waits(abs) && abs == Fin(old(abs)) && Forward(old(abs), abs)
    {
      hide Ledger, FinPlaced;
      rcvShutdown := true;
      match state {
        case SynRecv | Established => state := CloseWait;
        case FinWait1 => state := Closing;
        case _ =>
      }
      abs := Fin(abs);
    }

    /** tcp_nip_reset. */
    method TcpReset()
      requires Matches() && snd.mss > 0 && abs.fins <= 1
      requires abs.orderly ==> ConnInv(abs, snd.mss)
      modifies this`state, this`rcvShutdown, this`abs, snd
      ensures Valid() && abs == Reset(old(abs)) && Forward(old(abs), abs)
    {
      if state != Closed {
        snd.Purge();
        state, rcvShutdown := Closed, true;
      }
      abs := Reset(abs);
    }

    /** tcp_nip_data_snd_check. */
    method DataSndCheck(push: Push)
      requires Matches() && push.num > 0 && TcpSender.Fits(abs.tx)
      requires if state == Closed then ConnInv(abs, snd.mss) && snd.mss > 0 else Pushable(abs, snd.mss) && Waits(abs)
      modifies this`abs, snd
      ensures Valid() && abs == SndCheck(old(abs), push, snd.mss)
    {
      hide Contiguous, Sized, TcpSender.Images;
      SndCheckForward(abs, push, snd.mss);
      if state != Closed {
        snd.WriteXmit(push.num, push.up);
      }
      abs := SndCheck(abs, push, snd.mss);
    }

    /** The ACK of a segment, by tcp_nip_ack. */
    method TakeAck(seg: SegIn32, ghost s: SegIn) returns (code: int)
      requires Valid() && state != Closed && TcpSender.Fits(abs.tx) && seg == Image(s) && Live(abs.tx, s)
      modifies this`abs, snd
      ensures Matches() && Pushable(abs, snd.mss) && TcpSender.Fits(abs.tx)
      ensures var r := Ack(old(abs.tx), s.ack, s.seqno, s.nwin);
              code == r.code && abs == old(abs).(tx := r.t)
      ensures code <= 0 ==> abs == old(abs)
    {
      hide Contiguous, Sized, TcpSender.Images;
      AckedIsPushable(abs, s, snd.mss);
      code := snd.Acknowledge(seg.ack, seg.seqno, seg.nwin, s.ack, s.seqno);
      abs := abs.(tx := Ack(abs.tx, s.ack, s.seqno, s.nwin).t);
    }

    /** tcp_nip_rcv_established, behind tcp_nip_validate_incoming. */
    method RcvEstablishedSock(seg: SegIn32, push: Push, ghost s: SegIn)
      requires Valid() && state == Established && push.num > 0
      requires TcpSender.Fits(abs.tx) && seg == Image(s) && Live(abs.tx, s)
      modifies this, snd
      ensures Valid() && abs == RcvEstablished(old(abs), s, push, snd.mss) && Forward(old(abs), abs)
    {
      hide ConnInv, Pushable, Ack, SndCheck;
      EstablishedKeeps(abs, s, push, snd.mss);
      var code := TakeAck(seg, s);
      if code < 0 {
        return;
      }
      if seg.finTaken {
        TcpFin();
      }
      DataSndCheck(push);
    }

    /** tcp_nip_rcv_synsent_state_process. */
    method RcvSynSentSock(seg: SegIn32, ghost s: SegIn)
      requires Valid() && state == SynSent && TcpSender.Fits(abs.tx) && seg == Image(s) && Live(abs.tx, s)
      modifies this, snd
      ensures Valid() && abs == RcvSynSent(old(abs), s) && Forward(old(abs), abs)
    {
      hide Contiguous, Sized, TcpSender.Images;
      SynSentKeeps(abs, s, snd.mss);
      SynSentTests(abs.tx, s, snd.mss);
      if !seg.hasAck || !After(seg.ack, snd.sndUna) || After(seg.ack, snd.sndNxt) {
        return;
      }
      if seg.rst {
        TcpReset();
        return;
      }
      if !seg.syn {
        return;
      }
      ghost var c := abs;
      var code := TakeAck(seg, s);
      snd.SetWindow(seg.nwin);
      state := Established;
      abs := RcvSynSent(c, s);
    }

    /** The switch on the state after the ACK has been processed. */
    method SwitchOnAck(seg: SegIn32, ghost s: SegIn) returns (further: bool)
      requires Matches() && Pushable(abs, snd.mss) && state != Closed && state != SynSent && TcpSender.Fits(abs.tx)
      requires seg == Image(s) && NearRcvNxt(s) && s.nwin <= 0x4000_0000 && (state == SynRecv ==> s.ack == abs.tx.una)
      modifies this`state, this`abs, snd
      ensures Matches() && TcpSender.Fits(abs.tx) && (abs, further) == OnAck(old(abs), s) && Forward(old(abs), abs)
      ensures if further then Pushable(abs, snd.mss) && Waits(abs) && state != Closed else ConnInv(abs, snd.mss)
    {
      hide Contiguous, Sized, TcpSender.Images;
      AllAckedTest(abs.tx, snd.mss);
      BringsDataOfImage(s);
      if abs.tx.una == abs.tx.wseq { AllAckedIsReady(abs.tx, snd.mss); }
      OnAckKeeps(abs, s, snd.mss);
      further := true;
      match state {
        case SynRecv =>
          state := Established;
          snd.TakeThirdAck(seg.ack, seg.seqno, seg.nwin, s.ack, s.seqno);
        case FinWait1 =>
          if snd.sndUna == snd.writeSeq {
            state := FinWait2;
            if seg.BringsData() {
              state, further := Closed, false;
            }
          }
        case Closing =>
          further := snd.sndUna != snd.writeSeq;
        case LastAck =>
          if snd.sndUna == snd.writeSeq {
            state, further := Closed, false;
          }
        case _ =>
      }
      abs := OnAck(abs, s).0;
    }

    /** The switch on the state that leads to tcp_nip_data_queue. */
    method SwitchOnData(seg: SegIn32, ghost s: SegIn)
      requires Matches() && Pushable(abs, snd.mss) && Waits(abs) && state != Closed && state != SynSent
      requires TcpSender.Fits(abs.tx) && seg == Image(s) && NearRcvNxt(s)
      modifies this, snd
      ensures Matches() && abs == OnData(old(abs), s) && Forward(old(abs), abs) && TcpSender.Fits(abs.tx)
      ensures if state == Closed then ConnInv(abs, snd.mss) else Pushable(abs, snd.mss) && Waits(abs)
    {
      hide Contiguous, Sized, TcpSender.Images;
      BringsDataOfImage(s);
      BeforeOfWrap(s.seqno, s.rcvNxt);
      if state in {CloseWait, Closing, LastAck} && !Before(seg.seqno, seg.rcvNxt) {
        return;
      }
      if state != Established && rcvShutdown && seg.BringsData() {
        TcpReset();
        return;
      }
      if seg.finTaken {
        TcpFin();
      }
    }

    /** tcp_nip_rcv_state_process, from the tests of the segment on. */
    method RcvStateProcessSock(seg: SegIn32, push: Push, ghost s: SegIn)
      requires Valid() && state !in {Closed, SynSent, Established} && push.num > 0 && AcceptableThirdAck(abs, s)
      requires TcpSender.Fits(abs.tx) && seg == Image(s) && Live(abs.tx, s) && seg.valid
      requires seg.hasAck || seg.rst || seg.syn
      modifies this, snd
      ensures Valid() && abs == RcvStateProcess(old(abs), s, push, snd.mss) && Forward(old(abs), abs)
    {
      hide ConnInv, Pushable, Ack, OnAck, OnData, SndCheck;
      StateProcessKeeps(abs, s, push, snd.mss);
      ThirdAckIsExact(abs, s, snd.mss);
      var code := TakeAck(seg, s);
      var acceptable := code != 0;
      if !acceptable {
        return;
      }
      var further := SwitchOnAck(seg, s);
      if further {
        SwitchOnData(seg, s);
        DataSndCheck(push);
      }
    }

    /** Any segment, in any state. */
    method ArriveSock(seg: SegIn32, push: Push, ghost s: SegIn)
      requires Valid() && push.num > 0 && AcceptableThirdAck(abs, s) && seg == Image(s)
      requires state != Closed ==> TcpSender.Fits(abs.tx) && Live(abs.tx, s)
      modifies this, snd
      ensures Valid() && abs == Arrive(old(abs), s, push, snd.mss) && Forward(old(abs), abs)
    {
      hide ConnInv, RcvEstablished, RcvSynSent;
      if state == Closed {
        return;
      }
      if state == SynSent {
        RcvSynSentSock(seg, s);
        return;
      }
      if state != Established && !seg.hasAck && !seg.rst && !seg.syn {
        return;
      }
      if !seg.valid {
        if seg.resets {
          ResettableIsOpen(abs, snd.mss);
          TcpReset();
        }
        return;
      }
      if state == Established {
        RcvEstablishedSock(seg, push, s);
      } else {
        RcvStateProcessSock(seg, push, s);
      }
    }
  }

  /** An acceptable third ACK names exactly what was sent. */
  lemma ThirdAckIsExact(c: Conn, s: SegIn, mss: nat)
    requires ConnInv(c, mss) && AcceptableThirdAck(c, s) && c.st != Closed
    ensures var r := Ack(c.tx, s.ack, s.seqno, s.nwin); c.st.SynRecv? && r.code != 0 ==> s.ack == r.t.una
  {
    AckedIsPushable(c, s, mss);
    LedgerMeaning(c.tx, mss);
  }

  lemma ResettableIsOpen(c: Conn, mss: nat)
    requires ConnInv(c, mss)
    ensures mss > 0 && c.fins <= 1
  {
  }

  lemma NoFinYet(c: Conn, mss: nat)
    requires ConnInv(c, mss) && c.st != Closed && Open(c.st)
    ensures !c.tx.shut && NoFin(c.tx.wq)
  {
  }

  // ---- Whole runs ----

  /** What can happen to a connection, as the socket sees it. */
  datatype Event32 =
    | Shutdown32(rd: bool, wr: bool, push: Push)
    | Close32(unread: bool, push: Push)
    | Segment32(seg: SegIn32, push: Push)
    | Abort32
    | Keepalive32
    | Write32(bytes: seq<byte>, bufs: nat, push: Push)
    | Resend32(at: nat)
    | Probe32(up: bool)
    | Nothing32

  function AsSeen(e: CloseProtocol.Event): Event32 {
    match e
    case ShutdownCall(rd, wr, push) => Shutdown32(rd, wr, push)
    case CloseCall(unread, push) => Close32(unread, push)
    case Segment(s, push) => Segment32(Image(s), push)
    case Abort => Abort32
    case KeepaliveDeath => Keepalive32
    case Sending(w) =>
      match w
      case Write(bytes, bufs, push) => Write32(bytes, bufs, push)
      case Resend(at) => Resend32(at)
      case ProbeTimer(up) => Probe32(up)
      case _ => Nothing32
  }

  /** The queue fits the number space, and an arriving segment is near what is live. */
  predicate Room(c: Conn, e: CloseProtocol.Event, mss: nat)
    requires mss > 0
  {
    c.st != Closed ==>
      match e
      case ShutdownCall(_, _, _) => Open(c.st) ==> RoomToClose(c.tx)
      case CloseCall(_, _) => Open(c.st) ==> RoomToClose(c.tx)
      case Segment(s, _) => TcpSender.Fits(c.tx) && Live(c.tx, s)
      case Sending(w) => TcpSender.Fits(c.tx) && (w.Write? ==> TcpSender.Fits(Entail(c.tx, w.bytes, mss, w.bufs)))
      case _ => true
  }

  /** sendmsg, a retransmission or a probe. */
  method SendSome(sock: ConnSock, e: Event32, ghost w: SendRun.Event)
    requires sock.Valid() && e == AsSeen(Sending(w)) && MaySend(sock.abs, w) && Budgeted(w)
    requires Room(sock.abs, Sending(w), sock.snd.mss)
    modifies sock`abs, sock.snd
    ensures sock.Valid() && sock.abs == old(sock.abs).(tx := SendRun.Step(old(sock.abs.tx), w, sock.snd.mss))
  {
    hide Contiguous, Sized, TcpSender.Images, Entail;
    ghost var c := sock.abs;
    SendingKeeps(c, w, sock.snd.mss);
    HeadIsCounted(c.tx, sock.snd.mss);
    TcpSender.ImagesLength(sock.snd.writeQueue, c.tx.wq);
    match e {
      case Write32(bytes, bufs, push) =>
        var copied := sock.snd.SendMsg(bytes, bufs, push.num, push.up);
      case Resend32(at) =>
        if at < sock.snd.sendHead {
          var sent := sock.snd.RetransmitSkb(at);
        }
      case Probe32(up) =>
        if sock.snd.packetsOut == 0 && sock.snd.sendHead < |sock.snd.writeQueue| {
          sock.snd.WriteWakeup(up);
        }
    }
    sock.abs := c.(tx := SendRun.Step(c.tx, w, sock.snd.mss));
  }

  lemma HeadIsCounted(t: Tx, mss: nat)
    requires Inv(t, mss)
    ensures t.out == 0 ==> forall up :: !Uncounted(t, up)
    ensures t.head < |t.wq| && t.head > 0 ==> !t.wq[t.head].syn
    ensures t.head < |t.wq| && t.out == 0 ==> !t.wq[t.head].syn
  {
  }

  /** One event on the socket. */
  method Handle(sock: ConnSock, e: Event32, ghost g: CloseProtocol.Event)
    requires sock.Valid() && e == AsSeen(g) && Legal(sock.abs, g) && Room(sock.abs, g, sock.snd.mss)
    modifies sock, sock.snd
    ensures sock.Valid() && sock.abs == CloseProtocol.Step(old(sock.abs), g, sock.snd.mss)
    ensures Forward(old(sock.abs), sock.abs)
  {
    hide ConnInv, Shutdown, CloseConn, Arrive;
    CloseProtocol.StepKeeps(sock.abs, g, sock.snd.mss);
    match e {
      case Shutdown32(rd, wr, push) => sock.ShutdownSock(rd, wr, push);
      case Close32(unread, push) => sock.CloseSock(unread, push);
      case Segment32(seg, push) => sock.ArriveSock(seg, push, g.s);
      case Abort32 => sock.SetClosed();
      case Keepalive32 =>
        if sock.state in {FinWait2, Closing} && sock.dead {
          sock.SetClosed();
        }
      case Write32(_, _, _) =>
        if sock.state in {Established, CloseWait} {
          SendSome(sock, e, g.e);
        }
      case Resend32(_) =>
        if sock.state != Closed {
          SendSome(sock, e, g.e);
        }
      case Probe32(_) =>
        if sock.state != Closed {
          SendSome(sock, e, g.e);
        }
      case Nothing32 =>
    }
  }

  /** Every event of the run has room in the number space. */
  ghost predicate AllRoomy(c: Conn, es: seq<CloseProtocol.Event>, mss: nat)
    requires ConnInv(c, mss) && AllLegal(c, es, mss)
    decreases |es|
  {
    es == [] ||
    (Room(c, es[0], mss) && (CloseProtocol.StepKeeps(c, es[0], mss); AllRoomy(CloseProtocol.Step(c, es[0], mss), es[1..], mss)))
  }

  lemma RunStep(c: Conn, es: seq<CloseProtocol.Event>, mss: nat)
    requires ConnInv(c, mss) && AllLegal(c, es, mss) && AllRoomy(c, es, mss) && es != []
    ensures Legal(c, es[0]) && Room(c, es[0], mss)
    ensures var c' := CloseProtocol.Step(c, es[0], mss);
            && ConnInv(c', mss) && AllLegal(c', es[1..], mss) && AllRoomy(c', es[1..], mss)
            && CloseProtocol.Run(c, es, mss) == CloseProtocol.Run(c', es[1..], mss)
  {
    hide ConnInv, Legal, Room, CloseProtocol.Step;
    CloseProtocol.StepKeeps(c, es[0], mss);
  }

  /** A whole run of the socket: its state is the model's throughout, it has changed at
      most as often as its rank has grown, and in FIN_WAIT2 all is acknowledged. */
  method RunConn(sock: ConnSock, es: seq<Event32>, ghost gs: seq<CloseProtocol.Event>)
    requires sock.Valid() && |es| == |gs| && (forall i :: 0 <= i < |es| ==> es[i] == AsSeen(gs[i]))
    requires AllLegal(sock.abs, gs, sock.snd.mss) && AllRoomy(sock.abs, gs, sock.snd.mss)
    modifies sock, sock.snd
    ensures sock.Valid() && sock.abs == CloseProtocol.Run(old(sock.abs), gs, sock.snd.mss)
    ensures Rank(old(sock.state)) + Changes(old(sock.abs), gs, sock.snd.mss) <= Rank(sock.state)
    ensures sock.state == FinWait2 ==> sock.snd.sndUna == sock.snd.writeSeq
  {
    hide ConnInv, Legal, Room, CloseProtocol.Step, AsSeen;
    ghost var c := sock.abs;
    ghost var rest := gs;
    var i := 0;
    while i < |es|
      invariant 0 <= i <= |es| && rest == gs[i..] && sock.Valid()
      invariant AllLegal(sock.abs, rest, sock.snd.mss) && AllRoomy(sock.abs, rest, sock.snd.mss)
      invariant CloseProtocol.Run(sock.abs, rest, sock.snd.mss) == CloseProtocol.Run(c, gs, sock.snd.mss)
    {
      RunStep(sock.abs, rest, sock.snd.mss);
      Handle(sock, es[i], rest[0]);
      i, rest := i + 1, rest[1..];
    }
    assert rest == [];
    RunIsBounded(c, gs, sock.snd.mss);
  }
}
