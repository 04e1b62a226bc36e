/** Whole runs of the sending side: sendmsg, arriving ACKs, close, retransmission and
    the probe timer, each followed by the push the code makes after it. */
module SendRun {
  import opened Segments
  import opened SendQueue

  /** The congestion budget of tcp_nip_write_xmit: nip_ssthresh / mss packets, or
      low_min / mss after an idle period, or no limit. */
  function Budget(winEnable: bool, ssthresh: nat, idle: bool, lowMin: nat, mss: nat): nat
    requires mss > 0
  {
    if idle then lowMin / mss
    else if winEnable then ssthresh / mss
    else 0xFFFF_FFFF
  }

  /** No push is ever left without budget exactly when one MSS fits every threshold. */
  lemma BudgetIsPositive(winEnable: bool, ssthresh: nat, idle: bool, lowMin: nat, mss: nat)
    requires mss > 0
    ensures Budget(winEnable, ssthresh, idle, lowMin, mss) > 0 <==>
            (if idle then mss <= lowMin else winEnable ==> mss <= ssthresh)
  {
  }

  /** The budget is exactly how many packets of one MSS fit the threshold in force, or no
      limit that 32 bits can name. */
  lemma BudgetIsExact(winEnable: bool, ssthresh: nat, idle: bool, lowMin: nat, mss: nat, k: nat)
    requires mss > 0
    ensures !idle && !winEnable ==> (k <= Budget(winEnable, ssthresh, idle, lowMin, mss) <==> k < 0x1_0000_0000)
    ensures idle || winEnable ==> (k <= Budget(winEnable, ssthresh, idle, lowMin, mss) <==> k * mss <= if idle then lowMin else ssthresh)
  {
    AtMostQuotient(if idle then lowMin else ssthresh, mss, k);
  }

  lemma AtMostQuotient(x: nat, mss: nat, k: nat)
    requires mss > 0
    ensures k <= x / mss <==> k * mss <= x
  {
    var b := x / mss;
    assert x == b * mss + x % mss;
    if k <= b {
      assert (b - k) * mss >= 0;
    } else {
      assert (k - b - 1) * mss >= 0;
    }
  }

  /** One call of tcp_nip_write_xmit: its budget, and how many packets the device takes. */
  datatype Push = Push(num: nat, up: nat)

  datatype Event =
    | Write(bytes: seq<byte>, bufs: nat, push: Push)
    | AckIn(ack: int, ackSeq: int, nwin: nat, push: Push)
    | Close(push: Push)
    | Resend(at: nat)
    | ProbeTimer(up: bool)

  function Flush(t: Tx, p: Push, mss: nat): Tx
    requires mss > 0
  {
    Xmit(t, mss, p.num, p.up)
  }

  /** What the code does on each event: sendmsg fails after a shutdown, an ACK beyond
      snd_nxt is discarded, and the probe timer acts only when nothing is out. */
  function Step(t: Tx, e: Event, mss: nat): Tx
    requires Ordered(t, mss) && mss > 0
  {
    match e
    case Write(bytes, bufs, push) =>
      if t.shut || bytes == [] || bufs == 0 then t else Flush(Entail(t, bytes, mss, bufs), push, mss)
    case AckIn(ack, ackSeq, nwin, push) =>
      var r := Ack(t, ack, ackSeq, nwin);
      if r.code < 0 then t else Flush(r.t, push, mss)
    case Close(push) =>
      if t.shut then t else Flush(QueueFin(t).(shut := true), push, mss)
    case Resend(i) =>
      if i < t.head then
        SentIsResendable(t, i, mss);
        Retransmit(t, i, mss).t
      else t
    case ProbeTimer(up) =>
      if t.out != 0 || t.head >= |t.wq| then t else Probe(t, mss, up)
  }

  predicate Budgeted(e: Event) {
    (e.Write? || e.AckIn? || e.Close?) ==> e.push.num > 0
  }

  /** When nothing is out, the send head has been through tcp_nip_init_tso_segs. */
  predicate HeadReady(t: Tx) {
    t.out == 0 && t.head < |t.wq| ==> t.wq[t.head].pcount == 1
  }

  /** A FIN is queued only by close, once, and holds the last sequence number. */
  ghost predicate FinPlaced(t: Tx) {
    && (forall i :: 0 <= i < |t.wq| && t.wq[i].fin ==> t.shut && i == |t.wq| - 1)
    && (t.shut && t.wq != [] ==> t.wq[|t.wq| - 1].fin)
  }

  ghost predicate Inv(t: Tx, mss: nat) {
    Ledger(t, mss) && HeadReady(t) && FinPlaced(t)
  }

  lemma FlushKeeps(t: Tx, p: Push, mss: nat)
    requires Ledger(t, mss) && mss > 0 && FinPlaced(t) && p.num > 0
    ensures Inv(Flush(t, p, mss), mss)
    ensures Flush(t, p, mss).una == t.una && Flush(t, p, mss).wseq == t.wseq && Flush(t, p, mss).shut == t.shut
  {
    XmitKeeps(t, mss, p.num, p.up);
    XmitSends(t, mss, p.num, p.up);
    XmitReadies(t, mss, p.num, p.up);
  }

  /** A push with budget sends something, or leaves the head ready. */
  lemma {:induction false} XmitReadies(t: Tx, mss: nat, num: nat, up: nat)
    requires Ledger(t, mss) && mss > 0 && num > 0
    ensures HeadReady(Xmit(t, mss, num, up))
  {
    if t.head < |t.wq| {
      RecountKeeps(t, mss);
      var p := InitSegs(t.wq[t.head], mss);
      var t1 := t.(wq := t.wq[t.head := p]);
      if FitsWindow(t1, p, mss) && up > 0 {
        AdvanceKeeps(t1, mss);
        XmitKeeps(Advance(t1), mss, num - 1, up - 1);
      }
    }
  }

  lemma {:induction false} EntailPlacesNoFin(t: Tx, bytes: seq<byte>, mss: nat, bufs: nat)
    requires mss > 0 && !t.shut && FinPlaced(t)
    ensures FinPlaced(Entail(t, bytes, mss, bufs))
    decreases bufs
  {
    if bytes != [] && bufs > 0 {
      var n := Least(mss, |bytes|);
      EntailPlacesNoFin(Enqueue(t, Pkt(t.wseq, bytes[..n], false, false, 0)), bytes[n..], mss, bufs - 1);
    }
  }

  lemma AckInKeeps(t: Tx, e: Event, mss: nat)
    requires Inv(t, mss) && mss > 0 && e.AckIn? && e.push.num > 0
    ensures Inv(Step(t, e, mss), mss)
    ensures Step(t, e, mss).una == (if t.una <= e.ack <= t.nxt then e.ack else t.una)
    ensures Step(t, e, mss).wseq == t.wseq && Step(t, e, mss).shut == t.shut
  {
    var n := AckKeeps(t, e.ack, e.ackSeq, e.nwin, mss);
    var r := Ack(t, e.ack, e.ackSeq, e.nwin);
    if r.code >= 0 {
      FlushKeeps(r.t, e.push, mss);
    }
  }

  lemma CloseKeeps(t: Tx, e: Event, mss: nat)
    requires Inv(t, mss) && mss > 0 && e.Close? && e.push.num > 0 && !t.shut
    ensures Inv(Step(t, e, mss), mss)
    ensures Step(t, e, mss).una == t.una && Step(t, e, mss).wseq == t.wseq + 1 && Step(t, e, mss).shut
  {
    QueueFinKeeps(t, mss);
    var u := QueueFin(t).(shut := true);
    assert u.wq != [] && u.wq[|u.wq| - 1].fin;
    var front := u.wq[..|u.wq| - 1];
    forall i | 0 <= i < |u.wq| - 1 ensures !u.wq[i].fin {
      assert front[i] == u.wq[i];
    }
    FlushKeeps(u, e.push, mss);
  }

  lemma WriteKeeps(t: Tx, e: Event, mss: nat)
    requires Inv(t, mss) && mss > 0 && e.Write? && e.push.num > 0
    ensures Inv(Step(t, e, mss), mss)
    ensures Step(t, e, mss).una == t.una && Step(t, e, mss).shut == t.shut
    ensures Step(t, e, mss).wseq == t.wseq + (if t.shut then 0 else Least(|e.bytes|, mss * e.bufs))
  {
    if !t.shut && e.bytes != [] && e.bufs > 0 {
      EntailKeeps(t, e.bytes, mss, e.bufs);
      EntailPlacesNoFin(t, e.bytes, mss, e.bufs);
      FlushKeeps(Entail(t, e.bytes, mss, e.bufs), e.push, mss);
    } else {
      assert mss * 0 == 0;
    }
  }

  lemma ResendKeeps(t: Tx, i: nat, mss: nat)
    requires Inv(t, mss) && mss > 0
    ensures Inv(Step(t, Resend(i), mss), mss)
    ensures Step(t, Resend(i), mss) == t.(wq := Step(t, Resend(i), mss).wq)
    ensures i < t.head ==> var p := t.wq[i];
              Step(t, Resend(i), mss).wq[i].start == if p.start < t.una then t.una else p.start
  {
    if i < t.head {
      RetransmitKeeps(t, i, mss);
    }
  }

  lemma ProbeKeeps(t: Tx, up: bool, mss: nat)
    requires Inv(t, mss) && mss > 0
    ensures Inv(Step(t, ProbeTimer(up), mss), mss)
    ensures Step(t, ProbeTimer(up), mss).una == t.una && Step(t, ProbeTimer(up), mss).wseq == t.wseq
    ensures Step(t, ProbeTimer(up), mss).shut == t.shut
    ensures Step(t, ProbeTimer(up), mss).head ==
            if t.out == 0 && up && t.head < |t.wq| && t.wq[t.head].start < t.WndEnd() then t.head + 1 else t.head
  {
    if t.out == 0 && t.head < |t.wq| {
      ProbeKeepsIff(t, mss, up);
    }
  }

  lemma StepKeeps(t: Tx, e: Event, mss: nat)
    requires Inv(t, mss) && mss > 0 && Budgeted(e)
    ensures var t' := Step(t, e, mss);
            && Inv(t', mss) && t.una <= t'.una && t.wseq <= t'.wseq && (t.shut ==> t'.shut)
            && (t.shut ==> t'.wseq == t.wseq)
  {
    match e
    case Write(_, _, _) => WriteKeeps(t, e, mss);
    case AckIn(_, _, _, _) => AckInKeeps(t, e, mss);
    case Close(_) => if !t.shut { CloseKeeps(t, e, mss); }
    case Resend(i) => ResendKeeps(t, i, mss);
    case ProbeTimer(up) => ProbeKeeps(t, up, mss);
  }

  function Run(t: Tx, es: seq<Event>, mss: nat): Tx
    requires Inv(t, mss) && mss > 0 && forall i :: 0 <= i < |es| ==> Budgeted(es[i])
    decreases |es|
  {
    if es == [] then t
    else
      StepKeeps(t, es[0], mss);
      Run(Step(t, es[0], mss), es[1..], mss)
  }

  /** Over every run in which each push has budget for a packet: the ledger holds, the
      probe never sends an uncounted head, snd_una and write_seq never move back, and
      after the FIN no byte is ever added behind it. */
  lemma {:induction false} RunKeeps(t: Tx, es: seq<Event>, mss: nat)
    requires Inv(t, mss) && mss > 0 && forall i :: 0 <= i < |es| ==> Budgeted(es[i])
    ensures var t' := Run(t, es, mss);
            && Inv(t', mss) && t.una <= t'.una && t.wseq <= t'.wseq && (t.shut ==> t'.wseq == t.wseq)
    decreases |es|
  {
    if es != [] {
      StepKeeps(t, es[0], mss);
      RunKeeps(Step(t, es[0], mss), es[1..], mss);
    }
  }

  /** The run starts from a connect that was not refused. */
  lemma ConnectStarts(iss: int, mss: nat)
    ensures Inv(Connect(iss, false), mss)
  {
    ConnectKeeps(iss, false, mss);
  }
}
