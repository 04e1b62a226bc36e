/** Congestion control by nip_ssthresh: every place that writes it, on 32-bit unsigned
    arithmetic. */
module Threshold {
  import opened SeqNum
  import Window

  /** The module parameters: window thresholds, averaging step, RTT bands, and the
      number of acknowledged bytes after which the window is reset. */
  datatype Params = Params(lowMin: nat, low: nat, midLow: nat, midHigh: nat, high: nat, start: nat, step: nat,
                           rttMidLow: nat, rttMidHigh: nat, rttHigh: nat, rttRtoUp: nat, resetBytes: nat)

  /** nip_ssthresh and nip_ssthresh_reset. */
  datatype Ctl = Ctl(ssthresh: nat, resetMark: int)

  function U32(x: int): nat {
    x % TWO32
  }

  function Divide(x: nat, d: nat): nat
    requires d > 0
  {
    Window.Units(x, d)
  }

  function Half(p: Params): nat {
    p.midHigh / 2
  }

  /** The window the middle band aims at: from half of mid_high up, linear in the RTT. */
  function Target(p: Params, rtt: nat): nat
    requires p.rttMidLow < p.rttMidHigh
  {
    U32(Half(p) + Divide(U32(U32(p.rttMidHigh - rtt) * Half(p)), p.rttMidHigh - p.rttMidLow))
  }

  /** (x * step + y) / (step + 1), in 32 bits. */
  function Blend(x: nat, y: nat, step: nat): nat {
    Divide(U32(U32(x * step) + y), step + 1)
  }

  /** The RTT bands of tcp_nip_ack_calc_ssthresh. */
  function ByRtt(p: Params, s: nat, rtt: nat): nat
    requires p.rttMidLow < p.rttMidHigh
  {
    if rtt >= p.rttRtoUp then p.lowMin
    else if rtt >= p.rttHigh then p.low
    else if rtt >= p.rttMidHigh then p.midLow
    else if rtt >= p.rttMidLow then Blend(if s > p.midHigh then Half(p) else s, Target(p, rtt), p.step)
    else if rtt != 0 then Blend(s, p.high, p.step)
    else s
  }

  /** Everything that writes nip_ssthresh: an ACK, with the round-trip time if it is
      known; three duplicate ACKs; the retransmission timer; and a transmission after
      an idle period. */
  datatype Event = Acked(ack: nat, timed: bool, rtt: nat) | DupAcks | Timeout | IdleSend

  function Next(p: Params, c: Ctl, e: Event): Ctl
    requires p.rttMidLow < p.rttMidHigh && p.resetBytes > 0
  {
    match e
    case Acked(ack, timed, rtt) =>
      var mark := ack / p.resetBytes;
      if c.resetMark != mark then Ctl(p.low, mark)
      else if timed then c.(ssthresh := ByRtt(p, c.ssthresh, rtt))
      else c
    case DupAcks => c.(ssthresh := p.low)
    case Timeout => c.(ssthresh := p.low)
    case IdleSend => c.(ssthresh := p.lowMin)
  }

  /** A blend is the weighted mean of its arguments, rounded down. */
  lemma BlendIsMean(x: nat, y: nat, step: nat, b: nat)
    requires 0 <= x * step && x * step + y < TWO32
    ensures Blend(x, y, step) >= b <==> b * (step + 1) <= x * step + y
  {
    hide Blend, Divide;
    BlendIs(x, y, step);
    DivideAtLeast(x * step + y, step + 1, b);
  }

  /** The middle band's target falls linearly from twice half of mid_high, for the
      shortest round trip of the band, towards half of it; rounded down. */
  lemma TargetIsLinear(p: Params, rtt: nat, q: nat)
    requires Configured(p) && NoOverflow(p) && p.rttMidLow <= rtt < p.rttMidHigh && Half(p) > 0
    ensures Target(p, rtt) >= Half(p) + q <==>
            q * (p.rttMidHigh - p.rttMidLow) <= (p.rttMidHigh - rtt) * Half(p)
    ensures Target(p, p.rttMidLow) == 2 * Half(p)
  {
    hide Target, Divide;
    TargetIs(p, rtt);
    DivideAtLeast((p.rttMidHigh - rtt) * Half(p), p.rttMidHigh - p.rttMidLow, q);
    TargetIs(p, p.rttMidLow);
    var range, half := p.rttMidHigh - p.rttMidLow, Half(p);
    assert half * range == range * half;
    DivideAtLeast(range * half, range, half);
  }

  /** The value each writer leaves: a loss takes the threshold to low, an idle period to
      the low minimum, a new stretch of acknowledged bytes to low; within a stretch an
      untimed ACK changes nothing, and a slow one leaves its band's constant. */
  lemma WritersLeave(p: Params, c: Ctl, e: Event)
    requires Configured(p)
    ensures var c' := Next(p, c, e);
            && (e.DupAcks? || e.Timeout? ==> c'.ssthresh == p.low && c'.resetMark == c.resetMark)
            && (e.IdleSend? ==> c'.ssthresh == p.lowMin && c'.resetMark == c.resetMark)
            && (e.Acked? ==> c'.resetMark == e.ack / p.resetBytes)
            && (e.Acked? && c.resetMark != c'.resetMark ==> c'.ssthresh == p.low)
            && (e.Acked? && c.resetMark == c'.resetMark ==>
                  && (!e.timed || (e.rtt == 0 < p.rttMidLow) ==> c'.ssthresh == c.ssthresh)
                  && (e.timed && p.rttRtoUp <= e.rtt ==> c'.ssthresh == p.lowMin)
                  && (e.timed && p.rttHigh <= e.rtt < p.rttRtoUp ==> c'.ssthresh == p.low)
                  && (e.timed && p.rttMidHigh <= e.rtt < p.rttHigh ==> c'.ssthresh == p.midLow))
  {
  }

  // ---- Bounds ----

  /** The parameters are in the order their names say. */
  predicate Configured(p: Params) {
    && p.lowMin <= p.low <= p.midLow <= p.midHigh <= p.high
    && p.lowMin <= p.start <= p.high
    && p.rttMidLow < p.rttMidHigh <= p.rttHigh <= p.rttRtoUp
    && p.resetBytes > 0
  }

  /** No product overflows 32 bits. */
  predicate NoOverflow(p: Params) {
    && p.high * (p.step + 1) < TWO32
    && (p.rttMidHigh - p.rttMidLow) * Half(p) < TWO32
  }

  function Min(a: int, b: int): int {
    if a < b then a else b
  }

  lemma Monotone(a: nat, b: nat, k: nat)
    requires a <= b
    ensures 0 <= a * k <= b * k
  {
    assert (b - a) * k >= 0;
    assert a * k >= 0;
  }

  lemma Distribute(a: int, k: int)
    ensures a * (k + 1) == a * k + a
  {
  }

  /** What integer division means. */
  lemma DivideAtLeast(n: nat, d: nat, k: nat)
    requires d > 0
    ensures Divide(n, d) >= k <==> k * d <= n
  {
    var b := Divide(n, d);
    Distribute(d, b);
    if b >= k {
      Monotone(k, b, d);
    } else {
      Monotone(b + 1, k, d);
      assert (b + 1) * d == b * d + d;
    }
  }

  /** A quotient lies between the bounds its dividend keeps. */
  lemma QuotientBetween(n: nat, d: nat, lo: nat, hi: nat)
    requires d > 0 && lo * d <= n <= hi * d
    ensures lo <= Divide(n, d) <= hi
  {
    DivideAtLeast(n, d, lo);
    Window.Dichotomy(Divide(n, d), hi, d);
  }

  lemma SumBetween(x: nat, y: nat, step: nat, lo: nat, hi: nat)
    requires lo <= x <= hi && lo <= y <= hi
    ensures 0 <= x * step && lo * (step + 1) <= x * step + y <= hi * (step + 1)
  {
    Monotone(lo, x, step);
    Monotone(x, hi, step);
    Distribute(lo, step);
    Distribute(hi, step);
  }

  lemma BlendIs(x: nat, y: nat, step: nat)
    requires 0 <= x * step && x * step + y < TWO32
    ensures Blend(x, y, step) == Divide(x * step + y, step + 1)
  {
  }

  /** A weighted mean lies between its arguments. */
  lemma BlendBetween(x: nat, y: nat, step: nat, lo: nat, hi: nat)
    requires lo <= x <= hi && lo <= y <= hi && hi * (step + 1) < TWO32
    ensures lo <= Blend(x, y, step) <= hi
  {
    hide Blend, Divide, U32;
    SumBetween(x, y, step, lo, hi);
    BlendIs(x, y, step);
    QuotientBetween(x * step + y, step + 1, lo, hi);
  }

  lemma ShareFits(d: nat, range: nat, half: nat)
    requires 0 < d <= range && 0 < half && range * half < TWO32
    ensures d < TWO32 && 0 <= d * half <= range * half && half < TWO32
  {
    Monotone(d, range, half);
    Monotone(1, half, range);
    Monotone(1, range, half);
  }

  /** Without overflow the target is half of mid_high and a share of it. */
  lemma TargetIs(p: Params, rtt: nat)
    requires Configured(p) && NoOverflow(p) && p.rttMidLow <= rtt < p.rttMidHigh && Half(p) > 0
    ensures 0 <= (p.rttMidHigh - rtt) * Half(p)
    ensures var q := Divide((p.rttMidHigh - rtt) * Half(p), p.rttMidHigh - p.rttMidLow);
            q <= Half(p) && Target(p, rtt) == Half(p) + q
  {
    HighFits(p);
    var d, range, half := p.rttMidHigh - rtt, p.rttMidHigh - p.rttMidLow, Half(p);
    ShareFits(d, range, half);
    assert U32(U32(d) * half) == d * half;
    assert half * range == range * half;
    QuotientBetween(d * half, range, 0, half);
  }

  lemma TargetBounds(p: Params, rtt: nat)
    requires Configured(p) && NoOverflow(p) && p.rttMidLow <= rtt < p.rttMidHigh
    ensures Half(p) <= Target(p, rtt) <= p.midHigh
  {
    hide NoOverflow, Target, Divide;
    if Half(p) == 0 {
      ZeroTarget(p, rtt);
    } else {
      TargetIs(p, rtt);
    }
  }

  lemma HighFits(p: Params)
    requires NoOverflow(p)
    ensures p.high < TWO32
  {
    Distribute(p.high, p.step);
    Monotone(0, p.high, p.step);
  }

  lemma ZeroTarget(p: Params, rtt: nat)
    requires p.rttMidLow < p.rttMidHigh && Half(p) == 0
    ensures Target(p, rtt) == 0
  {
    var range := p.rttMidHigh - p.rttMidLow;
    assert U32(p.rttMidHigh - rtt) * 0 == 0;
    Window.Dichotomy(Divide(0, range), 0, range);
  }

  /** The bound every writer keeps. */
  predicate Within(p: Params, s: nat) {
    Min(p.lowMin, Half(p)) <= s <= p.high
  }

  lemma ByRttWithin(p: Params, s: nat, rtt: nat)
    requires Configured(p) && NoOverflow(p) && Within(p, s)
    ensures Within(p, ByRtt(p, s, rtt))
  {
    var lo := Min(p.lowMin, Half(p));
    if p.rttMidLow <= rtt < p.rttMidHigh {
      TargetBounds(p, rtt);
      Monotone(p.midHigh, p.high, p.step + 1);
      BlendBetween(if s > p.midHigh then Half(p) else s, Target(p, rtt), p.step, lo, p.midHigh);
    } else if rtt < p.rttMidLow && rtt != 0 {
      BlendBetween(s, p.high, p.step, lo, p.high);
    }
  }

  function Run(p: Params, c: Ctl, es: seq<Event>): Ctl
    requires Configured(p)
    decreases |es|
  {
    if es == [] then c else Run(p, Next(p, c, es[0]), es[1..])
  }

  lemma NextWithin(p: Params, c: Ctl, e: Event)
    requires Configured(p) && NoOverflow(p) && Within(p, c.ssthresh)
    ensures Within(p, Next(p, c, e).ssthresh)
  {
    if e.Acked? { ByRttWithin(p, c.ssthresh, e.rtt); }
  }

  /** Over every run the threshold stays between the low minimum (or half of mid_high,
      where the middle band restarts, if that is less) and the high bound. */
  lemma {:induction false} RunStaysWithin(p: Params, c: Ctl, es: seq<Event>)
    requires Configured(p) && NoOverflow(p) && Within(p, c.ssthresh)
    ensures Within(p, Run(p, c, es).ssthresh)
    decreases |es|
  {
    if es != [] {
      NextWithin(p, c, es[0]);
      RunStaysWithin(p, Next(p, c, es[0]), es[1..]);
    }
  }

  /** The initial threshold is in bounds. */
  lemma StartIsWithin(p: Params)
    requires Configured(p)
    ensures Within(p, p.start)
  {
  }

  // ---- The low minimum ----

  /** The least target of the middle band, at its longest round trip. */
  function LeastTarget(p: Params): nat
    requires p.rttMidLow < p.rttMidHigh
  {
    Target(p, p.rttMidHigh - 1)
  }

  /** The low minimum is at or below the least target and, if a threshold can exceed
      mid_high, below the mean that the middle band then restarts from. */
  predicate LowMinHolds(p: Params)
    requires p.rttMidLow < p.rttMidHigh
  {
    && p.lowMin <= LeastTarget(p)
    && (p.high > p.midHigh ==> p.lowMin <= Blend(Half(p), LeastTarget(p), p.step))
  }

  predicate InRange(p: Params, s: nat) {
    p.lowMin <= s <= p.high
  }

  lemma ByRttKeepsLowMin(p: Params, s: nat, rtt: nat)
    requires Configured(p) && NoOverflow(p) && LowMinHolds(p) && InRange(p, s)
    ensures InRange(p, ByRtt(p, s, rtt))
  {
    hide NoOverflow, Target, Blend;
    if p.rttMidLow <= rtt < p.rttMidHigh {
      TargetFalls(p, rtt, p.rttMidHigh - 1);
      TargetBounds(p, rtt);
      StepFits(p);
      if s > p.midHigh {
        BlendMonotone(Half(p), LeastTarget(p), Half(p), Target(p, rtt), p.step, p.high);
        BlendBetween(Half(p), Target(p, rtt), p.step, 0, p.high);
      } else {
        BlendBetween(s, Target(p, rtt), p.step, p.lowMin, p.high);
      }
    } else if rtt < p.rttMidLow && rtt != 0 {
      StepFits(p);
      BlendBetween(s, p.high, p.step, p.lowMin, p.high);
    }
  }

  lemma StepFits(p: Params)
    requires NoOverflow(p)
    ensures p.high * (p.step + 1) < TWO32
  {
  }

  /** A mean with something smaller is smaller. */
  lemma BlendFalls(x: nat, y: nat, step: nat)
    requires y < x && x * (step + 1) < TWO32
    ensures Blend(x, y, step) < x
  {
    SumBetween(x, y, step, 0, x);
    BlendIs(x, y, step);
    Distribute(x, step);
    DivideAtLeast(x * step + y, step + 1, x);
  }

  /** An ACK with the middle band's longest round trip. */
  function SlowAck(p: Params): Event
    requires p.rttMidLow < p.rttMidHigh
  {
    Acked(0, true, p.rttMidHigh - 1)
  }

  lemma OneAck(p: Params, s: nat)
    requires Configured(p)
    ensures Run(p, Ctl(s, 0), [SlowAck(p)]).ssthresh == ByRtt(p, s, p.rttMidHigh - 1)
  {
    assert 0 / p.resetBytes == 0;
    var c := Next(p, Ctl(s, 0), SlowAck(p));
    assert Run(p, c, []) == c;
  }

  lemma {:induction false} RunKeepsLowMin(p: Params, c: Ctl, es: seq<Event>)
    requires Configured(p) && NoOverflow(p) && LowMinHolds(p) && InRange(p, c.ssthresh)
    ensures InRange(p, Run(p, c, es).ssthresh)
    decreases |es|
  {
    hide LowMinHolds, NoOverflow, ByRtt;
    if es != [] {
      if es[0].Acked? { ByRttKeepsLowMin(p, c.ssthresh, es[0].rtt); }
      RunKeepsLowMin(p, Next(p, c, es[0]), es[1..]);
    }
  }

  /** A threshold in range from which one such ACK leads below the low minimum. */
  lemma LowMinMissed(p: Params) returns (s: nat)
    requires Configured(p) && NoOverflow(p) && !LowMinHolds(p)
    ensures InRange(p, s) && Run(p, Ctl(s, 0), [SlowAck(p)]).ssthresh < p.lowMin
  {
    hide Target, Run;
    StepFits(p);
    if LeastTarget(p) < p.lowMin {
      s := p.lowMin;
      Monotone(p.lowMin, p.high, p.step + 1);
      BlendFalls(p.lowMin, LeastTarget(p), p.step);
    } else {
      s := p.high;
    }
    OneAck(p, s);
  }

  /** The exact condition: no run from a threshold in range ever goes below the low
      minimum if and only if the parameters meet LowMinHolds. */
  lemma LowMinIff(p: Params)
    requires Configured(p) && NoOverflow(p)
    ensures (forall s: nat, es: seq<Event> | InRange(p, s) :: InRange(p, Run(p, Ctl(s, 0), es).ssthresh))
            <==> LowMinHolds(p)
  {
    hide LowMinHolds, Run, NoOverflow;
    if LowMinHolds(p) {
      forall s: nat, es: seq<Event> | InRange(p, s) ensures InRange(p, Run(p, Ctl(s, 0), es).ssthresh) {
        RunKeepsLowMin(p, Ctl(s, 0), es);
      }
    } else {
      var s := LowMinMissed(p);
      assert !InRange(p, Run(p, Ctl(s, 0), [SlowAck(p)]).ssthresh);
    }
  }

  /** A low minimum of at most half of mid_high always holds. */
  lemma HalfSuffices(p: Params)
    requires Configured(p) && NoOverflow(p) && p.lowMin <= Half(p)
    ensures LowMinHolds(p)
  {
    hide Target, Blend;
    TargetBounds(p, p.rttMidHigh - 1);
    StepFits(p);
    BlendBetween(Half(p), LeastTarget(p), p.step, p.lowMin, p.high);
  }

  /** Parameters in order, and the default start, from which the first ACK goes below. */
  lemma LowMinCanBeMissed()
    ensures var p := Params(800, 800, 800, 1000, 2000, 1500, 1, 10, 20, 30, 100, 10_000_000);
            && Configured(p) && NoOverflow(p) && !LowMinHolds(p)
            && Run(p, Ctl(p.start, 0), [SlowAck(p)]).ssthresh < p.lowMin
  {
    var p := Params(800, 800, 800, 1000, 2000, 1500, 1, 10, 20, 30, 100, 10_000_000);
    Exact(500, 10, 50);
    assert Target(p, 19) == 550;
    Exact(1050, 2, 525);
    OneAck(p, p.start);
  }

  lemma Exact(x: nat, d: nat, q: nat)
    requires d > 0 && q * d <= x < q * d + d
    ensures Divide(x, d) == q
  {
    Window.Dichotomy(Divide(x, d), q, d);
    Window.Dichotomy(q, Divide(x, d), d);
  }

  // ---- Growth in the lowest band ----

  /** An ACK in the lowest RTT band never widens the gap to the high bound, and narrows
      it exactly while it exceeds the averaging step. */
  lemma GapShrinks(p: Params, s: nat, rtt: nat)
    requires Configured(p) && NoOverflow(p) && s <= p.high && 0 < rtt < p.rttMidLow
    ensures var s' := ByRtt(p, s, rtt);
            && s <= s' <= p.high
            && (s < s' <==> p.high - s > p.step)
  {
    BlendBetween(s, p.high, p.step, s, p.high);
    BlendRises(s, p.high, p.step);
  }

  lemma BlendRises(s: nat, high: nat, step: nat)
    requires s <= high && high * (step + 1) < TWO32
    ensures Blend(s, high, step) >= s + 1 <==> high - s > step
  {
    SumBetween(s, high, step, s, high);
    BlendIs(s, high, step);
    DivideAtLeast(s * step + high, step + 1, s + 1);
    Raised(s, step);
  }

  lemma Raised(s: nat, step: nat)
    ensures (s + 1) * (step + 1) == s * step + s + step + 1
  {
  }

  /** ACKs in the lowest RTT band, none of which resets the window. */
  predicate Steady(p: Params, c: Ctl, es: seq<Event>)
    requires p.resetBytes > 0
  {
    forall i :: 0 <= i < |es| ==>
      es[i].Acked? && es[i].timed && 0 < es[i].rtt < p.rttMidLow && es[i].ack / p.resetBytes == c.resetMark
  }

  /** Over every run of ACKs in the lowest band, whatever their round trips, the gap to
      the high bound never grows; after as many as it is wide it is at most the step. */
  lemma {:induction false} GapCloses(p: Params, c: Ctl, es: seq<Event>)
    requires Configured(p) && NoOverflow(p) && c.ssthresh <= p.high && Steady(p, c, es)
    ensures c.ssthresh <= Run(p, c, es).ssthresh <= p.high
    ensures p.high - c.ssthresh <= |es| || p.high - c.ssthresh <= p.step ==> p.high - Run(p, c, es).ssthresh <= p.step
    decreases |es|
  {
    hide NoOverflow, ByRtt;
    if es != [] {
      GapShrinks(p, c.ssthresh, es[0].rtt);
      GapCloses(p, Next(p, c, es[0]), es[1..]);
    }
  }

  // ---- Slower round trips ----

  lemma DivideMonotone(m: nat, n: nat, d: nat)
    requires d > 0 && m <= n
    ensures Divide(m, d) <= Divide(n, d)
  {
    DivideAtLeast(n, d, Divide(m, d));
  }

  lemma TargetFalls(p: Params, rtt: nat, rtt2: nat)
    requires Configured(p) && NoOverflow(p) && p.rttMidLow <= rtt <= rtt2 < p.rttMidHigh
    ensures Target(p, rtt2) <= Target(p, rtt)
  {
    hide NoOverflow, Target, Divide;
    if Half(p) == 0 {
      ZeroTarget(p, rtt);
      ZeroTarget(p, rtt2);
    } else {
      TargetIs(p, rtt);
      TargetIs(p, rtt2);
      Monotone(p.rttMidHigh - rtt2, p.rttMidHigh - rtt, Half(p));
      DivideMonotone((p.rttMidHigh - rtt2) * Half(p), (p.rttMidHigh - rtt) * Half(p), p.rttMidHigh - p.rttMidLow);
    }
  }

  lemma BlendMonotone(x: nat, y: nat, x2: nat, y2: nat, step: nat, hi: nat)
    requires x <= x2 <= hi && y <= y2 <= hi && hi * (step + 1) < TWO32
    ensures Blend(x, y, step) <= Blend(x2, y2, step)
  {
    hide Blend, Divide, U32;
    SumBetween(x, y, step, 0, hi);
    SumBetween(x2, y2, step, 0, hi);
    BlendIs(x, y, step);
    BlendIs(x2, y2, step);
    Monotone(x, x2, step);
    DivideMonotone(x * step + y, x2 * step + y2, step + 1);
  }

  /** Below the high bands, and within them, a slower round trip never leads to a larger
      threshold. */
  lemma SlowerIsSmaller(p: Params, s: nat, rtt: nat, rtt2: nat)
    requires Configured(p) && NoOverflow(p) && s <= p.high && 0 < rtt <= rtt2
    requires rtt2 < p.rttMidHigh || p.rttMidHigh <= rtt
    ensures ByRtt(p, s, rtt2) <= ByRtt(p, s, rtt)
  {
    if rtt2 < p.rttMidHigh {
      var t := if s > p.midHigh then Half(p) else s;
      if p.rttMidLow <= rtt {
        TargetFalls(p, rtt, rtt2);
        TargetBounds(p, rtt);
        BlendMonotone(t, Target(p, rtt2), t, Target(p, rtt), p.step, p.high);
      } else if p.rttMidLow <= rtt2 {
        TargetBounds(p, rtt2);
        BlendMonotone(t, Target(p, rtt2), s, p.high, p.step, p.high);
      }
    }
  }

  // ---- The socket's fields ----

  /** struct tcp_nip_common, as far as the threshold goes. */
  class NipCommon {
    const p: Params
    var nipSsthresh: nat
    var nipSsthreshReset: int

    function View(): Ctl
      reads this
    {
      Ctl(nipSsthresh, nipSsthreshReset)
    }

    ghost predicate Valid()
      reads this
    {
      Configured(p) && NoOverflow(p) && Within(p, nipSsthresh)
    }

    /** _tcp_sock_priv_init. */
    constructor (p: Params)
      requires Configured(p) && NoOverflow(p)
      ensures Valid() && View() == Ctl(p.start, 0) && this.p == p
    {
      StartIsWithin(p);
      this.p := p;
      nipSsthresh, nipSsthreshReset := p.start, 0;
    }

    /** The target of the middle band, in 32 bits. */
    method MidTarget(rtt: nat) returns (target: nat)
      requires p.rttMidLow < p.rttMidHigh
      ensures target == Target(p, rtt)
    {
      var scale, half := U32(p.rttMidHigh - rtt), p.midHigh / 2;
      target := U32(half + U32(scale * half) / (p.rttMidHigh - p.rttMidLow));
    }

    /** The weighted mean, in 32 bits. */
    method Mean(x: nat, y: nat) returns (m: nat)
      ensures m == Blend(x, y, p.step)
    {
      m := U32(U32(x * p.step) + y) / (p.step + 1);
    }

    /** The RTT bands of tcp_nip_ack_calc_ssthresh. */
    method ByRttBand(rtt: nat)
      requires Valid()
      modifies this`nipSsthresh
      ensures Valid() && nipSsthresh == ByRtt(p, old(nipSsthresh), rtt)
      ensures LowMinHolds(p) && InRange(p, old(nipSsthresh)) ==> InRange(p, nipSsthresh)
      ensures 0 < rtt < p.rttMidLow ==> old(nipSsthresh) <= nipSsthresh
    {
      hide NoOverflow, LowMinHolds, Target, Blend;
      ByRttWithin(p, nipSsthresh, rtt);
      if 0 < rtt < p.rttMidLow { GapShrinks(p, nipSsthresh, rtt); }
      if LowMinHolds(p) && InRange(p, nipSsthresh) { ByRttKeepsLowMin(p, nipSsthresh, rtt); }
      if rtt >= p.rttRtoUp {
        nipSsthresh := p.lowMin;
      } else if rtt >= p.rttHigh {
        nipSsthresh := p.low;
      } else if rtt >= p.rttMidHigh {
        nipSsthresh := p.midLow;
      } else if rtt >= p.rttMidLow {
        var half := p.midHigh / 2;
        var target := MidTarget(rtt);
        nipSsthresh := if nipSsthresh > p.midHigh then half else nipSsthresh;
        nipSsthresh := Mean(nipSsthresh, target);
      } else if rtt != 0 {
        nipSsthresh := Mean(nipSsthresh, p.high);
      }
    }

    /** tcp_nip_ack_calc_ssthresh: the new threshold is in bounds; after a reset it is
        the low one. */
    method CalcSsthresh(ack: nat, timed: bool, rtt: nat)
      requires Valid()
      modifies this`nipSsthresh, this`nipSsthreshReset
      ensures Valid() && View() == Next(p, old(View()), Acked(ack, timed, rtt))
      ensures LowMinHolds(p) && InRange(p, old(nipSsthresh)) ==> InRange(p, nipSsthresh)
    {
      var mark := ack / p.resetBytes;
      if nipSsthreshReset != mark {
        nipSsthreshReset, nipSsthresh := mark, p.low;
      } else if timed {
        ByRttBand(rtt);
      }
    }

    /** Any of the writers. */
    method Handle(e: Event)
      requires Valid()
      modifies this`nipSsthresh, this`nipSsthreshReset
      ensures Valid() && View() == Next(p, old(View()), e)
    {
      match e
      case Acked(ack, timed, rtt) => CalcSsthresh(ack, timed, rtt);
      case DupAcks => nipSsthresh := p.low;
      case Timeout => nipSsthresh := p.low;
      case IdleSend => nipSsthresh := p.lowMin;
    }

    /** A whole run of writes: the field ends where the run does, hence in bounds, and at
        or above the low minimum if the parameters allow. */
    method HandleAll(es: seq<Event>)
      requires Valid()
      modifies this`nipSsthresh, this`nipSsthreshReset
      ensures Valid() && View() == Run(p, old(View()), es)
      ensures LowMinHolds(p) && InRange(p, old(nipSsthresh)) ==> InRange(p, nipSsthresh)
    {
      ghost var c := View();
      var i := 0;
      while i < |es|
        invariant 0 <= i <= |es| && Valid() && Run(p, View(), es[i..]) == Run(p, c, es)
      {
        assert es[i..][1..] == es[i + 1..];
        Handle(es[i]);
        i := i + 1;
      }
      assert es[i..] == [];
      if LowMinHolds(p) && InRange(p, c.ssthresh) { RunKeepsLowMin(p, c, es); }
    }
  }
}
