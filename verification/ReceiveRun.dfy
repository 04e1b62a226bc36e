/** Whole runs of the receiving side: arrivals, reads and offered windows in any order.
    The socket on 32-bit numbers follows the model on unbounded offsets throughout, so
    the sequence space may wrap any number of times. */
module ReceiveRun {
  import opened Segments
  import opened OutOfOrder
  import opened Receive
  import opened TcpReceiver
  import Window

  datatype Event = Arrive(s: Seg, env: Env32) | ReadCall(len: nat) | SendWindow(free: nat)

  /** The same as the socket sees it. */
  datatype Event32 = Arrive32(skb: Skb, env: Env32) | ReadCall32(len: nat) | SendWindow32(free: nat)

  function AsSeen(e: Event): Event32 {
    match e
    case Arrive(s, env) => Arrive32(Image(s), env)
    case ReadCall(len) => ReadCall32(len)
    case SendWindow(free) => SendWindow32(free)
  }

  datatype Out = Out(rx: Rx, bytes: seq<byte>)

  /** Everything live is within 2^31 of rcv_nxt, an arrival can be trimmed against the
      queue, and a selected window is a multiple of the scale. */
  ghost predicate Legal(rx: Rx, e: Event, wscale: nat) {
    && InSpace(rx)
    && match e
       case Arrive(s, env) => Admissible(rx, s, LiftEnv(env)) && Live(rx.nxt, s)
       case ReadCall(_) => true
       case SendWindow(free) => Window.Whole(free, Window.Pow2(wscale))
  }

  ghost function Step(rx: Rx, e: Event, wscale: nat): Out
    requires RxInv(rx) && Legal(rx, e, wscale)
  {
    match e
    case Arrive(s, env) => Out(DataQueue(rx, s, LiftEnv(env)), [])
    case ReadCall(len) =>
      var r := Read(rx.copied, rx.rq, len);
      Out(rx.(copied := r.copied, rq := r.rq), r.bytes)
    case SendWindow(free) => Out(Offer(rx, free, wscale), [])
  }

  lemma StepKeeps(rx: Rx, e: Event, wscale: nat)
    requires RxInv(rx) && Legal(rx, e, wscale)
    ensures var o := Step(rx, e, wscale);
            && RxInv(o.rx) && rx.nxt <= o.rx.nxt && rx.Edge() <= o.rx.Edge()
            && o.rx.copied == rx.copied + |o.bytes|
  {
    match e
    case Arrive(s, env) => DataQueueKeeps(rx, s, LiftEnv(env));
    case ReadCall(len) => ReadKeepsChain(rx.copied, rx.rq, rx.nxt, len);
    case SendWindow(free) => OfferKeeps(rx, free, wscale);
  }

  ghost predicate AllLegal(rx: Rx, es: seq<Event>, wscale: nat)
    requires RxInv(rx)
    decreases |es|
  {
    es == [] ||
    (Legal(rx, es[0], wscale) && (StepKeeps(rx, es[0], wscale); AllLegal(Step(rx, es[0], wscale).rx, es[1..], wscale)))
  }

  ghost function Run(rx: Rx, es: seq<Event>, wscale: nat): Out
    requires RxInv(rx) && AllLegal(rx, es, wscale)
    decreases |es|
  {
    if es == [] then Out(rx, [])
    else
      StepKeeps(rx, es[0], wscale);
      var o := Step(rx, es[0], wscale);
      var r := Run(o.rx, es[1..], wscale);
      Out(r.rx, o.bytes + r.bytes)
  }

  ghost predicate Carried(rx: Rx, st: Stream) {
    AllCarry(rx.rq, st) && AllCarry(rx.ooo.q, st)
  }

  ghost predicate AllFrom(es: seq<Event>, st: Stream) {
    forall i :: 0 <= i < |es| && es[i].Arrive? ==> Carries(es[i].s, st)
  }

  lemma StepIsStream(rx: Rx, e: Event, wscale: nat, st: Stream)
    requires RxInv(rx) && Legal(rx, e, wscale) && Carried(rx, st) && (e.Arrive? ==> Carries(e.s, st))
    ensures var o := Step(rx, e, wscale); Carried(o.rx, st) && AreStream(o.bytes, rx.copied, st)
  {
    match e
    case Arrive(s, env) => DataQueueCarries(rx, s, LiftEnv(env), st);
    case ReadCall(len) => ReadIsNextBytes(rx.copied, rx.rq, rx.nxt, len, st);
    case SendWindow(_) =>
  }

  /** Over every run: the invariant is kept, rcv_nxt and the offered edge never move
      back, and the bytes read are the stream from the first copied_seq on. */
  lemma {:induction false} RunIsStream(rx: Rx, es: seq<Event>, wscale: nat, st: Stream)
    requires RxInv(rx) && AllLegal(rx, es, wscale) && Carried(rx, st) && AllFrom(es, st)
    ensures var o := Run(rx, es, wscale);
            && RxInv(o.rx) && Carried(o.rx, st)
            && rx.nxt <= o.rx.nxt && rx.Edge() <= o.rx.Edge()
            && AreStream(o.bytes, rx.copied, st) && o.rx.copied == rx.copied + |o.bytes|
    decreases |es|
  {
    hide RxInv, Legal, Carries, AllCarry, Step;
    if es != [] {
      StepKeeps(rx, es[0], wscale);
      StepIsStream(rx, es[0], wscale, st);
      var o := Step(rx, es[0], wscale);
      RunIsStream(o.rx, es[1..], wscale, st);
      ConcatIsStream(o.bytes, Run(o.rx, es[1..], wscale).bytes, rx.copied, st);
    }
  }

  /** One event on the socket. */
  method Handle(sock: TcpSock, e: Event32, wscale: nat, workaround: bool, ghost g: Event) returns (bytes: seq<byte>)
    requires sock.Valid() && e == AsSeen(g) && Legal(sock.abs, g, wscale)
    modifies sock
    ensures sock.Valid() && Out(sock.abs, bytes) == Step(old(sock.abs), g, wscale)
  {
    hide RxInv, Images;
    bytes := [];
    match e
    case Arrive32(skb, env) => sock.DataQueue(skb, env, g.s);
    case ReadCall32(len) =>
      var warned;
      bytes, warned := sock.RecvMsg(len);
    case SendWindow32(free) =>
      var field := sock.SelectWindow(free, wscale, workaround);
  }

  lemma RunStep(rx: Rx, es: seq<Event>, wscale: nat)
    requires RxInv(rx) && AllLegal(rx, es, wscale) && es != []
    ensures Legal(rx, es[0], wscale)
    ensures var o := Step(rx, es[0], wscale);
            && RxInv(o.rx) && AllLegal(o.rx, es[1..], wscale)
            && Run(rx, es, wscale) == Out(Run(o.rx, es[1..], wscale).rx, o.bytes + Run(o.rx, es[1..], wscale).bytes)
  {
    hide RxInv, Legal, Step;
    StepKeeps(rx, es[0], wscale);
  }

  /** The socket on 32-bit numbers makes every decision of a whole run as the model on
      unbounded offsets does: same state, same bytes read. */
  method RunSocket(sock: TcpSock, es: seq<Event32>, wscale: nat, workaround: bool, ghost gs: seq<Event>)
    returns (bytes: seq<byte>)
    requires sock.Valid() && |es| == |gs| && (forall i :: 0 <= i < |es| ==> es[i] == AsSeen(gs[i]))
    requires AllLegal(sock.abs, gs, wscale)
    modifies sock
    ensures sock.Valid() && Out(sock.abs, bytes) == Run(old(sock.abs), gs, wscale)
  {
    hide Legal, Step, Images, AsSeen;
    ghost var goal := Run(sock.abs, gs, wscale);
    ghost var rest := gs;
    bytes := [];
    var i := 0;
    while i < |es|
      invariant 0 <= i <= |es| && rest == gs[i..] && sock.Valid() && AllLegal(sock.abs, rest, wscale)
      invariant goal == Out(Run(sock.abs, rest, wscale).rx, bytes + Run(sock.abs, rest, wscale).bytes)
    {
      RunStep(sock.abs, rest, wscale);
      ghost var o := Step(sock.abs, rest[0], wscale);
      var b := Handle(sock, es[i], wscale, workaround, rest[0]);
      assert bytes + (o.bytes + Run(o.rx, rest[1..], wscale).bytes) == bytes + o.bytes + Run(o.rx, rest[1..], wscale).bytes;
      bytes, i, rest := bytes + b, i + 1, rest[1..];
    }
    assert rest == [];
  }
}
