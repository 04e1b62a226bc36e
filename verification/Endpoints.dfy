/** Both endpoints as the kernel runs them: a sending and a receiving socket on 32-bit
    numbers that wrap, over the network of Protocol. */
module Endpoints {
  import opened RedBlack
  import opened SeqNum
  import opened Segments
  import opened SendQueue
  import opened SendRun
  import Receive
  import Window
  import TcpSender
  import TcpReceiver
  import P = Protocol

  /** What happens, on unbounded offsets; the coalescer works on concrete buffers. */
  datatype Event =
    | Write(bytes: seq<byte>, bufs: nat, push: Push)
    | AckArrives(pkt: P.AckPkt, push: Push)
    | Resend(at: nat)
    | ProbeTimer(up: bool)
    | DataArrives(seg: Seg, env: TcpReceiver.Env32)
    | Read(len: nat)
    | SendAck(seqno: int, free: nat)

  /** The same as the sockets see it. */
  datatype Event32 =
    | Write32(bytes: seq<byte>, bufs: nat, push: Push)
    | Ack32(ack: u32, seqno: u32, nwin: nat, push: Push)
    | Resend32(at: nat)
    | Probe32(up: bool)
    | Data32(skb: TcpReceiver.Skb, env: TcpReceiver.Env32)
    | Read32(len: nat)
    | Offer32(free: nat)

  function AsSeen(e: Event): Event32 {
    match e
    case Write(bytes, bufs, push) => Write32(bytes, bufs, push)
    case AckArrives(a, push) => Ack32(Wrap(a.ack), Wrap(a.seqno), a.nwin, push)
    case Resend(at) => Resend32(at)
    case ProbeTimer(up) => Probe32(up)
    case DataArrives(seg, env) => Data32(TcpReceiver.Image(seg), env)
    case Read(len) => Read32(len)
    case SendAck(_, free) => Offer32(free)
  }

  function AsEvent(e: Event): P.Event {
    match e
    case Write(bytes, bufs, push) => P.Write(bytes, bufs, push)
    case AckArrives(a, push) => P.AckArrives(a, push)
    case Resend(at) => P.Resend(at)
    case ProbeTimer(up) => P.ProbeTimer(up)
    case DataArrives(seg, env) => P.DataArrives(seg, TcpReceiver.LiftEnv(env))
    case Read(len) => P.Read(len)
    case SendAck(seqno, free) => P.SendAck(seqno, free)
  }

  /** Everything live fits the number space, and a push has budget for a packet. */
  ghost predicate Room(s: P.State, e: Event, p: P.Params)
    requires p.mss > 0
  {
    match e
    case Write(bytes, bufs, push) =>
      bytes != [] && bufs > 0 && push.num > 0 && TcpSender.Fits(Entail(s.tx, bytes, p.mss, bufs))
    case AckArrives(a, push) =>
      && push.num > 0 && TcpSender.Fits(s.tx) && a.nwin <= 0x4000_0000
      && s.tx.una - TWO31 <= a.ack < s.tx.una + TWO31 - 0x4000_0000 && -TWO31 < a.seqno - s.tx.wl1 < TWO31
    case Resend(_) => TcpSender.Fits(s.tx)
    case ProbeTimer(_) => TcpSender.Fits(s.tx)
    case DataArrives(seg, _) =>
      TcpReceiver.InSpace(s.rx) && TcpReceiver.Live(s.rx.nxt, seg) && TcpReceiver.NearOffer(s.rx, seg)
    case Read(_) => TcpReceiver.InSpace(s.rx)
    case SendAck(_, _) => TcpReceiver.InSpace(s.rx)
  }

  /** The joint invariant, and the sender's ledger. */
  ghost predicate Inv(s: P.State, p: P.Params) {
    P.Inv(s, p) && SendRun.Inv(s.tx, p.mss)
  }

  ghost predicate Legal(s: P.State, e: Event, p: P.Params)
    requires Inv(s, p)
  {
    P.Enabled(s, AsEvent(e), p) && Room(s, e, p)
  }

  ghost function Step(s: P.State, e: Event, p: P.Params): P.State
    requires Inv(s, p) && Legal(s, e, p)
  {
    P.Step(s, AsEvent(e), p)
  }

  // ---- The sender's part of a step ----

  predicate Sends(e: Event) {
    e.Write? || e.AckArrives? || e.Resend? || e.ProbeTimer?
  }

  /** The step of the sender's own run. */
  function AsSend(e: Event): SendRun.Event
    requires Sends(e)
  {
    match e
    case Write(bytes, bufs, push) => SendRun.Write(bytes, bufs, push)
    case AckArrives(a, push) => SendRun.AckIn(a.ack, a.seqno, a.nwin, push)
    case Resend(at) => SendRun.Resend(at)
    case ProbeTimer(up) => SendRun.ProbeTimer(up)
  }

  lemma SenderStep(s: P.State, e: Event, p: P.Params)
    requires Inv(s, p) && Legal(s, e, p)
    ensures Step(s, e, p).tx == if Sends(e) then SendRun.Step(s.tx, AsSend(e), p.mss) else s.tx
    ensures Sends(e) ==> Budgeted(AsSend(e))
    ensures !(e.DataArrives? || e.Read? || e.SendAck?) ==> Step(s, e, p).rx == s.rx
  {
    match e
    case Write(bytes, bufs, push) =>
      P.TransmitIsXmit(P.WriteStep(s, bytes, bufs, p), p.mss, push.num, push.up);
    case AckArrives(a, push) =>
      P.AckArrivesKeeps(s, a, p);
      P.TransmitIsXmit(P.AckStep(s, a), p.mss, push.num, push.up);
    case _ =>
  }

  lemma StepKeeps(s: P.State, e: Event, p: P.Params)
    requires Inv(s, p) && Legal(s, e, p)
    ensures Inv(Step(s, e, p), p)
  {
    hide P.Inv, SendRun.Inv, P.Enabled, Room;
    P.StepKeeps(s, AsEvent(e), p);
    SenderStep(s, e, p);
    if Sends(e) { SendRun.StepKeeps(s.tx, AsSend(e), p.mss); }
  }

  /** How much a step adds to what was written and to what was read. */
  ghost predicate Adds(s: P.State, s': P.State, e: Event32, took: nat, got: seq<byte>) {
    && s'.read == s.read + got
    && (e.Write32? ==> took <= |e.bytes|)
    && s'.written == s.written + if e.Write32? then e.bytes[..took] else []
  }

  // ---- The sockets ----

  ghost predicate SndIs(snd: TcpSender.Sock, s: P.State, p: P.Params)
    reads snd
  {
    snd.Valid() && snd.mss == p.mss && snd.abs == s.tx
  }

  ghost predicate RcvIs(rcv: TcpReceiver.TcpSock, s: P.State)
    reads rcv
  {
    rcv.Valid() && rcv.abs == s.rx
  }

  lemma ProbeIsCounted(t: Tx, up: bool, mss: nat)
    requires SendRun.Inv(t, mss) && t.out == 0
    ensures !Uncounted(t, up)
  {
  }

  lemma NoSyn(s: P.State, p: P.Params)
    requires P.Inv(s, p)
    ensures !s.tx.shut && (s.tx.head < |s.tx.wq| ==> !s.tx.wq[s.tx.head].syn)
  {
  }

  /** An event of the sending side. */
  method HandleSend(snd: TcpSender.Sock, e: Event32, ghost g: Event, ghost s: P.State, p: P.Params)
    returns (took: nat)
    requires Inv(s, p) && Legal(s, g, p) && Sends(g) && e == AsSeen(g) && SndIs(snd, s, p)
    modifies snd
    ensures SndIs(snd, Step(s, g, p), p) && Adds(s, Step(s, g, p), e, took, [])
  {
    hide P.Inv, SendRun.Inv, Contiguous, Sized, TcpSender.Images, Entail;
    SenderStep(s, g, p);
    NoSyn(s, p);
    took := 0;
    TcpSender.ImagesLength(snd.writeQueue, s.tx.wq);
    match e {
      case Write32(bytes, bufs, push) =>
        TookIsAccepted(s, bytes, p.mss, bufs);
        took := snd.SendMsg(bytes, bufs, push.num, push.up);
        P.TransmitIsXmit(P.WriteStep(s, bytes, bufs, p), p.mss, push.num, push.up);
      case Ack32(ack, seqno, nwin, push) =>
        snd.ReceiveAck(ack, seqno, nwin, push.num, push.up, g.pkt.ack, g.pkt.seqno);
        P.TransmitIsXmit(P.AckStep(s, g.pkt), p.mss, push.num, push.up);
      case Resend32(at) => var sent := snd.RetransmitSkb(at);
      case Probe32(up) =>
        ProbeIsCounted(s.tx, up, p.mss);
        if snd.packetsOut == 0 && snd.sendHead < |snd.writeQueue| {
          snd.WriteWakeup(up);
        }
    }
  }

  lemma TookIsAccepted(s: P.State, bytes: seq<byte>, mss: nat, bufs: nat)
    requires !s.tx.shut && mss > 0
    ensures P.Accepted(s.tx, bytes, mss, bufs) == Least(|bytes|, mss * bufs) >= 0
  {
    assert mss * bufs >= 0;
  }

  /** An event of the receiving side. */
  method HandleReceive(rcv: TcpReceiver.TcpSock, e: Event32, ghost g: Event, ghost s: P.State, p: P.Params)
    returns (got: seq<byte>)
    requires Inv(s, p) && Legal(s, g, p) && !Sends(g) && e == AsSeen(g) && RcvIs(rcv, s)
    modifies rcv
    ensures RcvIs(rcv, Step(s, g, p)) && Adds(s, Step(s, g, p), e, 0, got)
  {
    hide SendRun.Inv, Receive.RxInv, TcpReceiver.Images;
    got := [];
    match e {
      case Data32(skb, env) =>
        P.ArrivalIsAdmissible(s, g.seg, TcpReceiver.LiftEnv(env), p);
        var ok := rcv.Sequence(skb, g.seg);
        if ok {
          rcv.DataQueue(skb, env, g.seg);
        }
      case Read32(len) =>
        var warned;
        got, warned := rcv.RecvMsg(len);
      case Offer32(free) =>
        var field := rcv.SelectWindow(free, p.wscale, p.workaround);
    }
  }

  // ---- Whole runs ----

  ghost predicate AllLegal(s: P.State, es: seq<Event>, p: P.Params)
    requires Inv(s, p)
    decreases |es|
  {
    es == [] || (Legal(s, es[0], p) && (StepKeeps(s, es[0], p); AllLegal(Step(s, es[0], p), es[1..], p)))
  }

  /** The events of a run as the model sees them. */
  function AsEvents(es: seq<Event>): seq<P.Event> {
    if es == [] then [] else [AsEvent(es[0])] + AsEvents(es[1..])
  }

  lemma {:induction false} LegalIsEnabled(s: P.State, es: seq<Event>, p: P.Params)
    requires Inv(s, p) && AllLegal(s, es, p)
    ensures P.AllEnabled(s, AsEvents(es), p)
    decreases |es|
  {
    hide P.Inv, SendRun.Inv, P.Enabled, P.Step, Room;
    if es != [] {
      StepKeeps(s, es[0], p);
      LegalIsEnabled(Step(s, es[0], p), es[1..], p);
      P.StepKeeps(s, AsEvent(es[0]), p);
      assert AsEvents(es)[1..] == AsEvents(es[1..]);
    }
  }

  /** The run of the model. */
  ghost function Run(s: P.State, es: seq<Event>, p: P.Params): P.State
    requires Inv(s, p) && AllLegal(s, es, p)
  {
    LegalIsEnabled(s, es, p);
    P.Run(s, AsEvents(es), p)
  }

  lemma RunStep(s: P.State, es: seq<Event>, p: P.Params)
    requires Inv(s, p) && AllLegal(s, es, p) && es != []
    ensures Legal(s, es[0], p)
    ensures var s' := Step(s, es[0], p);
            Inv(s', p) && AllLegal(s', es[1..], p) && Run(s, es, p) == Run(s', es[1..], p)
  {
    hide P.Inv, SendRun.Inv, P.Enabled, P.Step, Room;
    StepKeeps(s, es[0], p);
    LegalIsEnabled(s, es, p);
    LegalIsEnabled(Step(s, es[0], p), es[1..], p);
    P.StepKeeps(s, AsEvent(es[0]), p);
    assert AsEvents(es)[1..] == AsEvents(es[1..]);
  }

  /** One event at either end. */
  method Handle(snd: TcpSender.Sock, rcv: TcpReceiver.TcpSock, e: Event32, ghost g: Event, ghost s: P.State,
                p: P.Params) returns (took: nat, got: seq<byte>)
    requires Inv(s, p) && Legal(s, g, p) && e == AsSeen(g) && SndIs(snd, s, p) && RcvIs(rcv, s)
    modifies snd, rcv
    ensures SndIs(snd, Step(s, g, p), p) && RcvIs(rcv, Step(s, g, p)) && Adds(s, Step(s, g, p), e, took, got)
  {
    hide P.Inv, SendRun.Inv, P.Step, Room, P.Enabled;
    SenderStep(s, g, p);
    took, got := 0, [];
    if e.Write32? || e.Ack32? || e.Resend32? || e.Probe32? {
      took := HandleSend(snd, e, g, s, p);
    } else {
      got := HandleReceive(rcv, e, g, s, p);
    }
  }

  /** A run of both sockets: at its end they are where the model is, and `written` and
      `read` are the bytes that went in and came out. */
  method RunBoth(snd: TcpSender.Sock, rcv: TcpReceiver.TcpSock, es: seq<Event32>, ghost gs: seq<Event>,
                 ghost s0: P.State, p: P.Params) returns (written: seq<byte>, read: seq<byte>)
    requires Inv(s0, p) && SndIs(snd, s0, p) && RcvIs(rcv, s0)
    requires |es| == |gs| && (forall i :: 0 <= i < |es| ==> es[i] == AsSeen(gs[i])) && AllLegal(s0, gs, p)
    modifies snd, rcv
    ensures var s := Run(s0, gs, p);
            && SndIs(snd, s, p) && RcvIs(rcv, s)
            && s.written == s0.written + written && s.read == s0.read + read
  {
    hide Inv, Legal, Step, AsSeen, SndIs, RcvIs, AllLegal, Run;
    ghost var s, rest := s0, gs;
    written, read := [], [];
    var i := 0;
    while i < |es|
      invariant 0 <= i <= |es| && rest == gs[i..] && Inv(s, p) && AllLegal(s, rest, p)
      invariant SndIs(snd, s, p) && RcvIs(rcv, s) && Run(s, rest, p) == Run(s0, gs, p)
      invariant s.written == s0.written + written && s.read == s0.read + read
    {
      RunStep(s, rest, p);
      var took, got := Handle(snd, rcv, es[i], rest[0], s, p);
      if es[i].Write32? {
        written := written + es[i].bytes[..took];
      }
      read := read + got;
      s, i, rest := Step(s, rest[0], p), i + 1, rest[1..];
    }
    RunEnds(s, rest, p);
  }

  lemma RunEnds(s: P.State, rest: seq<Event>, p: P.Params)
    requires Inv(s, p) && rest == [] && AllLegal(s, rest, p)
    ensures Run(s, rest, p) == s
  {
  }

  lemma StartHolds(wnd: nat, offered: nat, wl: int, p: P.Params)
    requires p.mss > 0 && wnd <= offered
    ensures Inv(P.Init(wnd, offered, wl, p), p)
  {
    P.InitInv(wnd, offered, wl, p);
  }

  ghost predicate StartLegal(wnd: nat, offered: nat, wl: int, es: seq<Event>, p: P.Params)
    requires p.mss > 0 && wnd <= offered
  {
    StartHolds(wnd, offered, wl, p);
    AllLegal(P.Init(wnd, offered, wl, p), es, p)
  }

  /** The run of the model from the end of the handshake. */
  ghost function RunFromStart(wnd: nat, offered: nat, wl: int, es: seq<Event>, p: P.Params): P.State
    requires p.mss > 0 && wnd <= offered && StartLegal(wnd, offered, wl, es, p)
  {
    StartHolds(wnd, offered, wl, p);
    Run(P.Init(wnd, offered, wl, p), es, p)
  }

  /** End to end on the code's own numbers: two sockets with any initial sequence number,
      over a network that loses, duplicates and reorders, in a run of any length. What was
      read is a prefix of what was written; nothing has left the write queue that the peer
      does not have. */
  method Connection(wnd: nat, offered: nat, p: P.Params, ghost wl: int, wl32: u32, es: seq<Event32>, ghost gs: seq<Event>)
    returns (written: seq<byte>, read: seq<byte>)
    requires p.mss > 0 && wnd <= offered <= TcpReceiver.MAX_WINDOW && wl32 == Wrap(wl)
    requires StartLegal(wnd, offered, wl, gs, p)
    requires |es| == |gs| && (forall i :: 0 <= i < |es| ==> es[i] == AsSeen(gs[i]))
    ensures read <= written
    ensures var s := RunFromStart(wnd, offered, wl, gs, p);
            P.Delivers(s, p) && s.written == written && s.read == read
  {
    hide Inv, Run, AllLegal, RunFromStart, StartLegal, P.Init, P.Delivers, AsSeen, SndIs, RcvIs;
    ghost var s0 := P.Init(wnd, offered, wl, p);
    FromStart(wnd, offered, wl, gs, p);
    var snd, rcv := Fresh(wnd, offered, p, wl, wl32);
    written, read := RunBoth(snd, rcv, es, gs, s0, p);
    assert s0.written + written == written && s0.read + read == read;
  }

  /** Two sockets at the end of the handshake. */
  method Fresh(wnd: nat, offered: nat, p: P.Params, ghost wl: int, wl32: u32)
    returns (snd: TcpSender.Sock, rcv: TcpReceiver.TcpSock)
    requires p.mss > 0 && offered <= TcpReceiver.MAX_WINDOW && wl32 == Wrap(wl)
    ensures fresh(snd) && fresh(rcv)
    ensures SndIs(snd, P.Init(wnd, offered, wl, p), p) && RcvIs(rcv, P.Init(wnd, offered, wl, p))
  {
    snd := new TcpSender.Sock.AfterSyn(Wrap(p.first), wl32, wnd, p.mss, p.first, wl);
    rcv := new TcpReceiver.TcpSock(Wrap(p.first), offered, p.first);
  }

  lemma FromStart(wnd: nat, offered: nat, wl: int, es: seq<Event>, p: P.Params)
    requires p.mss > 0 && wnd <= offered && StartLegal(wnd, offered, wl, es, p)
    ensures var s0 := P.Init(wnd, offered, wl, p);
            && s0.written == [] && s0.read == []
            && Inv(s0, p) && AllLegal(s0, es, p) && RunFromStart(wnd, offered, wl, es, p) == Run(s0, es, p)
    ensures var s := RunFromStart(wnd, offered, wl, es, p); P.Delivers(s, p) && s.read <= s.written
  {
    hide Inv, P.Run, P.AllEnabled, P.Delivers, AllLegal;
    StartHolds(wnd, offered, wl, p);
    LegalIsEnabled(P.Init(wnd, offered, wl, p), es, p);
    P.EndToEnd(AsEvents(es), wnd, offered, wl, p);
    DeliveredIsPrefix(P.Run(P.Init(wnd, offered, wl, p), AsEvents(es), p), p);
  }

  lemma DeliveredIsPrefix(s: P.State, p: P.Params)
    requires P.Delivers(s, p)
    ensures s.read <= s.written
  {
  }
}
