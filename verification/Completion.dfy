/** Whatever has happened on a connection, it can still be completed: from every state
    reached under loss, duplication and reordering there are steps after which everything
    written has been read and acknowledged. */
module Completion {
  import opened RedBlack
  import opened Segments
  import opened OutOfOrder
  import opened SendQueue
  import opened SendRun
  import opened Protocol
  import Receive
  import Window

  /** The joint invariant, and the sender's ledger. */
  ghost predicate Healthy(s: State, p: Params) {
    Protocol.Inv(s, p) && SendRun.Inv(s.tx, p.mss)
  }

  /** Every push after a write or an ACK has budget for a packet. */
  predicate HasBudget(e: Protocol.Event) {
    (e.Write? || e.AckArrives?) ==> e.push.num > 0
  }

  predicate AllBudgeted(es: seq<Protocol.Event>) {
    forall i :: 0 <= i < |es| ==> HasBudget(es[i])
  }

  // ---- Runs that stay healthy ----

  lemma TimerKeeps(s: State, e: Protocol.Event, p: Params)
    requires Healthy(s, p) && Enabled(s, e, p) && (e.Resend? || e.ProbeTimer?)
    ensures SendRun.Inv(Protocol.Step(s, e, p).tx, p.mss)
  {
    if e.Resend? {
      SendRun.ResendKeeps(s.tx, e.at, p.mss);
    } else {
      SendRun.ProbeKeeps(s.tx, e.up, p.mss);
    }
  }

  lemma PushedKeeps(s: State, e: Protocol.Event, p: Params)
    requires Healthy(s, p) && Enabled(s, e, p) && HasBudget(e) && (e.Write? || e.AckArrives?)
    ensures SendRun.Inv(Protocol.Step(s, e, p).tx, p.mss)
  {
    match e
    case Write(bytes, bufs, push) =>
      TransmitIsXmit(WriteStep(s, bytes, bufs, p), p.mss, push.num, push.up);
      EntailKeeps(s.tx, bytes, p.mss, bufs);
      EntailPlacesNoFin(s.tx, bytes, p.mss, bufs);
      FlushKeeps(Entail(s.tx, bytes, p.mss, bufs), push, p.mss);
    case AckArrives(a, push) =>
      AckArrivesKeeps(s, a, p);
      TransmitIsXmit(AckStep(s, a), p.mss, push.num, push.up);
      SendRun.AckInKeeps(s.tx, AckIn(a.ack, a.seqno, a.nwin, push), p.mss);
  }

  lemma HealthyStep(s: State, e: Protocol.Event, p: Params)
    requires Healthy(s, p) && Enabled(s, e, p) && HasBudget(e)
    ensures Healthy(Protocol.Step(s, e, p), p)
  {
    hide Protocol.Inv, SendRun.Inv, Enabled;
    Protocol.StepKeeps(s, e, p);
    match e
    case Write(_, _, _) => PushedKeeps(s, e, p);
    case AckArrives(_, _) => PushedKeeps(s, e, p);
    case Resend(_) => TimerKeeps(s, e, p);
    case ProbeTimer(_) => TimerKeeps(s, e, p);
    case _ =>
  }

  lemma {:induction false} HealthyRun(s: State, es: seq<Protocol.Event>, p: Params)
    requires Healthy(s, p) && AllEnabled(s, es, p) && AllBudgeted(es)
    ensures Healthy(Protocol.Run(s, es, p), p)
    decreases |es|
  {
    if es != [] {
      assert HasBudget(es[0]);
      HealthyStep(s, es[0], p);
      HealthyRun(Protocol.Step(s, es[0], p), es[1..], p);
    }
  }

  // ---- Each stage of the completion ----

  /** The sent packet that holds the byte at x. */
  lemma {:induction false} SentHolder(t: Tx, mss: nat, x: int, i: nat) returns (k: nat)
    requires Ordered(t, mss) && i < t.head && t.wq[i].start <= x < t.nxt
    ensures k < t.head && t.wq[k].start <= x < t.wq[k].End()
    decreases t.head - i
  {
    OrderedBounds(t, mss);
    if x < t.wq[i].End() {
      k := i;
    } else {
      assert i + 1 < t.head && Abuts(t.wq[i], t.wq[i + 1]);
      k := SentHolder(t, mss, x, i + 1);
    }
  }

  /** As long as something sent is missing, the packet with the next byte is in the
      network, and its arrival delivers it. */
  lemma NextArrives(s: State, p: Params) returns (e: Protocol.Event)
    requires Healthy(s, p) && s.rx.nxt < s.tx.nxt
    ensures e.DataArrives? && Enabled(s, e, p)
    ensures var s' := Protocol.Step(s, e, p);
            s'.tx == s.tx && s'.written == s.written && s.rx.nxt < s'.rx.nxt
  {
    OrderedBounds(s.tx, p.mss);
    var k := SentHolder(s.tx, p.mss, s.rx.nxt, 0);
    var seg := AsSeg(s.tx.wq[k]);
    var sh := AnySize(|s.rx.ooo.q|);
    var env := Receive.Env(sh, (a, b) => false, false);
    e := DataArrives(seg, env);
    ArrivalIsTaken(s, seg, env, p, s.rx.nxt);
    ArriveKeeps(s, seg, env, p);
  }

  /** What the receiver sends next is newer than anything the sender has seen. */
  lemma AckGoesOut(s: State, p: Params) returns (e: Protocol.Event, a: AckPkt)
    requires Healthy(s, p)
    ensures e.SendAck? && Enabled(s, e, p)
    ensures var s' := Protocol.Step(s, e, p);
            && s'.tx == s.tx && s'.written == s.written && s'.rx.nxt == s.rx.nxt && s'.rx.copied == s.rx.copied
            && a in s'.acks && a.ack == s.rx.nxt && a.seqno > s.tx.wl1 && a.nwin > 0
  {
    var unit := Window.Pow2(p.wscale);
    e := SendAck(s.tx.wl1 + 1, unit);
    assert unit == 1 * unit;
    var rx := Receive.Offer(s.rx, unit, p.wscale);
    Receive.OfferKeeps(s.rx, unit, p.wscale);
    Window.NewWindowKeepsEdge(s.rx.nxt, s.rx.Edge(), unit, unit);
    Window.DecodedWindow(rx.wnd, p.wscale, p.workaround);
    a := AckPkt(rx.nxt, s.tx.wl1 + 1, Window.Field(rx.wnd, p.wscale, p.workaround) * unit);
  }

  /** When the newest ACK covers all that was sent, it leaves nothing unacknowledged, and
      the push behind it sends the next packet or finds it too long for the window. */
  lemma AckSettles(s: State, a: AckPkt, p: Params) returns (e: Protocol.Event)
    requires Healthy(s, p) && a in s.acks && a.ack == s.tx.nxt && a.seqno > s.tx.wl1 && a.nwin > 0
    ensures e.AckArrives? && HasBudget(e) && Enabled(s, e, p)
    ensures var s' := Protocol.Step(s, e, p);
            && s'.rx == s.rx && s'.written == s.written
            && s'.tx.una == s.tx.nxt < s'.tx.WndEnd() && s'.tx.wseq == s.tx.wseq
            && s.tx.nxt <= s'.tx.nxt
            && (s'.tx.nxt == s.tx.nxt ==> s'.tx.out == 0)
  {
    e := AckArrives(a, Push(1, 1));
    InvBounds(s, p);
    NewestAckSetsEdge(s, a, p);
    var u := AckStep(s, a);
    AckArrivesKeeps(s, a, p);
    TransmitIsXmit(u, p.mss, 1, 1);
    XmitKeeps(u.tx, p.mss, 1, 1);
    LedgerMeaning(Protocol.Step(s, e, p).tx, p.mss);
  }

  /** A probe sends at least one byte of what waits behind an open window. */
  lemma ProbeMoves(s: State, p: Params) returns (e: Protocol.Event)
    requires Healthy(s, p) && s.tx.out == 0 && s.tx.nxt < s.tx.wseq && s.tx.una < s.tx.WndEnd()
    ensures e.ProbeTimer? && Enabled(s, e, p)
    ensures var s' := Protocol.Step(s, e, p);
            && s'.rx == s.rx && s'.written == s.written
            && s'.tx.una == s.tx.una && s'.tx.wseq == s.tx.wseq && s.tx.nxt < s'.tx.nxt
  {
    e := Protocol.ProbeTimer(true);
    LedgerMeaning(s.tx, p.mss);
    EndsRise(s.tx.wq, s.tx.head, s.tx.head);
    ProbeSends(s.tx, p.mss, true);
    SendRun.ProbeKeeps(s.tx, true, p.mss);
  }

  // ---- The whole completion ----

  /** The run of `es` from s is possible, writes nothing, and ends in a healthy s'. */
  ghost predicate Leads(s: State, es: seq<Protocol.Event>, s': State, p: Params) {
    && Healthy(s, p) && AllEnabled(s, es, p) && AllBudgeted(es)
    && Protocol.Run(s, es, p) == s' && Healthy(s', p) && s'.written == s.written
  }

  lemma Stay(s: State, p: Params)
    requires Healthy(s, p)
    ensures Leads(s, [], s, p)
  {
  }

  lemma Prepend(s: State, e: Protocol.Event, es: seq<Protocol.Event>, s': State, p: Params)
    requires Healthy(s, p) && Enabled(s, e, p) && HasBudget(e)
    requires Protocol.Step(s, e, p).written == s.written && Leads(Protocol.Step(s, e, p), es, s', p)
    ensures Leads(s, [e] + es, s', p)
  {
    hide Protocol.Inv, SendRun.Inv, Enabled;
    var all := [e] + es;
    assert all[0] == e && all[1..] == es;
    assert AllEnabled(s, all, p);
    assert Protocol.Run(s, all, p) == s';
  }

  /** Once everything sent has arrived, everything sent can be acknowledged, and more of
      what waits be sent. */
  lemma Settle(s: State, p: Params) returns (es: seq<Protocol.Event>, s': State)
    requires Healthy(s, p) && s.rx.nxt == s.tx.nxt
    ensures Leads(s, es, s', p)
    ensures s'.tx.wseq == s.tx.wseq && s'.rx.nxt == s.rx.nxt && s'.rx.copied == s.rx.copied
    ensures s'.tx.una == s.tx.nxt <= s'.tx.nxt
    ensures s.tx.nxt < s.tx.wseq ==> s.tx.nxt < s'.tx.nxt
  {
    hide Protocol.Inv, SendRun.Inv, Enabled, Protocol.Step;
    var e1, a := AckGoesOut(s, p);
    HealthyStep(s, e1, p);
    var s1 := Protocol.Step(s, e1, p);
    var e2 := AckSettles(s1, a, p);
    HealthyStep(s1, e2, p);
    s' := Protocol.Step(s1, e2, p);
    es := [];
    if s'.tx.nxt == s.tx.nxt < s.tx.wseq {
      var s2 := s';
      var e3 := ProbeMoves(s2, p);
      HealthyStep(s2, e3, p);
      s' := Protocol.Step(s2, e3, p);
      Stay(s', p);
      Prepend(s2, e3, [], s', p);
      es := [e3] + [];
    } else {
      Stay(s', p);
    }
    Prepend(s1, e2, es, s', p);
    Prepend(s, e1, [e2] + es, s', p);
    es := [e1] + ([e2] + es);
  }

  /** Everything written has been acknowledged, and everything received read. */
  ghost predicate Complete(s: State) {
    s.tx.una == s.tx.wseq == s.rx.nxt == s.rx.copied
  }

  lemma ReadRest(s: State, p: Params) returns (e: Protocol.Event)
    requires Healthy(s, p) && s.tx.una == s.tx.wseq == s.rx.nxt
    ensures e.Read? && Enabled(s, e, p)
    ensures Complete(Protocol.Step(s, e, p)) && Protocol.Step(s, e, p).written == s.written
  {
    InvBounds(s, p);
    e := Protocol.Read(s.rx.nxt - s.rx.copied);
    Receive.ReadKeepsChain(s.rx.copied, s.rx.rq, s.rx.nxt, s.rx.nxt - s.rx.copied);
  }

  lemma Onward(s: State, a: seq<Protocol.Event>, s1: State, b: seq<Protocol.Event>, s2: State, p: Params)
    requires Leads(s, a, s1, p) && Leads(s1, b, s2, p)
    ensures Leads(s, a + b, s2, p)
  {
    RunConcat(s, a, b, p);
  }

  lemma {:induction false} RunConcat(s: State, a: seq<Protocol.Event>, b: seq<Protocol.Event>, p: Params)
    requires Protocol.Inv(s, p) && AllEnabled(s, a, p)
    requires Protocol.Inv(Protocol.Run(s, a, p), p) && AllEnabled(Protocol.Run(s, a, p), b, p)
    ensures AllEnabled(s, a + b, p)
    ensures Protocol.Run(s, a + b, p) == Protocol.Run(Protocol.Run(s, a, p), b, p)
    decreases |a|
  {
    hide Protocol.Inv, Enabled, Protocol.Step;
    if a == [] {
      assert a + b == b;
    } else {
      Protocol.StepKeeps(s, a[0], p);
      RunConcat(Protocol.Step(s, a[0], p), a[1..], b, p);
      assert (a + b)[1..] == a[1..] + b;
    }
  }

  /** From every healthy state, everything written can still be read and acknowledged. */
  lemma {:induction false} CanComplete(s: State, p: Params) returns (es: seq<Protocol.Event>, s': State)
    requires Healthy(s, p)
    ensures Leads(s, es, s', p) && Complete(s')
    decreases 2 * s.tx.wseq - s.rx.nxt - s.tx.nxt, s.tx.wseq - s.tx.una
  {
    hide Protocol.Inv, SendRun.Inv, Enabled, Protocol.Step;
    InvBounds(s, p);
    if s.rx.nxt < s.tx.nxt {
      var e := NextArrives(s, p);
      HealthyStep(s, e, p);
      InvBounds(Protocol.Step(s, e, p), p);
      es, s' := CanComplete(Protocol.Step(s, e, p), p);
      Prepend(s, e, es, s', p);
      es := [e] + es;
    } else if s.tx.una < s.tx.wseq {
      var a, s1 := Settle(s, p);
      InvBounds(s1, p);
      es, s' := CanComplete(s1, p);
      Onward(s, a, s1, es, s', p);
      es := a + es;
    } else {
      var e := ReadRest(s, p);
      HealthyStep(s, e, p);
      s' := Protocol.Step(s, e, p);
      Stay(s', p);
      Prepend(s, e, [], s', p);
      es := [e] + [];
    }
  }

  /** No run gets stuck: whatever was lost, delayed, repeated or reordered, there are steps
      after which the reader has every byte the writer gave, in order, and the writer's
      queue is empty. */
  lemma NoRunIsStuck(es: seq<Protocol.Event>, wnd: nat, offered: nat, wl: int, p: Params)
      returns (more: seq<Protocol.Event>)
    requires p.mss > 0 && wnd <= offered && AllBudgeted(es)
    ensures Protocol.Inv(Init(wnd, offered, wl, p), p)
    ensures AllEnabled(Init(wnd, offered, wl, p), es, p) ==>
              && AllEnabled(Init(wnd, offered, wl, p), es + more, p)
              && var s := Protocol.Run(Init(wnd, offered, wl, p), es, p);
                 var s' := Protocol.Run(Init(wnd, offered, wl, p), es + more, p);
                 s'.written == s.written && s'.read == s.written && s'.tx.wq == []
  {
    var s0 := Init(wnd, offered, wl, p);
    InitInv(wnd, offered, wl, p);
    more := [];
    if AllEnabled(s0, es, p) {
      var s, s';
      HealthyRun(s0, es, p);
      s := Protocol.Run(s0, es, p);
      more, s' := CanComplete(s, p);
      RunConcat(s0, es, more, p);
      EndToEnd(es + more, wnd, offered, wl, p);
      OrderedBounds(s'.tx, p.mss);
    }
  }
}
