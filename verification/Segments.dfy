/** Payload-only TCP segments on unbounded stream offsets. */
module Segments {

  type byte = x: int | 0 <= x < 256

  /** An sk_buff: `seq` is the offset of its first byte, End() its end_seq. */
  datatype Seg = Seg(start: int, data: seq<byte>) {
    function End(): int {
      start + |data|
    }

    predicate Has(x: int) {
      start <= x < End()
    }
  }

  /** tcp_nip_left_overlap and tcp_nip_overlap_handle: drop the bytes before `at`. */
  function LeftTrim(s: Seg, at: int): Seg
    requires s.start <= at <= s.End()
  {
    Seg(at, s.data[at - s.start..])
  }

  /** tcp_nip_right_overlap: drop the bytes from `at` on. */
  function RightTrim(s: Seg, at: int): Seg
    requires s.start <= at <= s.End()
  {
    Seg(s.start, s.data[..at - s.start])
  }

  /** What a successful skb_try_coalesce leaves in `to`. */
  function Join(to: Seg, from: Seg): Seg {
    Seg(to.start, to.data + from.data)
  }

  /** The answer of skb_try_coalesce for a pair of buffers: any function at all. */
  type Coalescer = (Seg, Seg) -> bool

  /** tcp_nip_try_coalesce succeeds only for a `from` that starts where `to` ends. */
  predicate CanJoin(to: Seg, from: Seg, co: Coalescer) {
    from.start == to.End() && co(to, from)
  }

  /** The byte stream the peer is sending, as a function of the offset. */
  type Stream = int -> byte

  /** The payload of `s` is the stream at its sequence range. */
  ghost predicate Carries(s: Seg, st: Stream) {
    forall x {:trigger s.Has(x)} :: s.Has(x) ==> s.data[x - s.start] == st(x)
  }

  ghost predicate AllCarry(q: seq<Seg>, st: Stream) {
    forall i :: 0 <= i < |q| ==> Carries(q[i], st)
  }

  lemma TrimsCarry(s: Seg, at: int, st: Stream)
    requires s.start <= at <= s.End() && Carries(s, st)
    ensures Carries(LeftTrim(s, at), st) && Carries(RightTrim(s, at), st)
  {
    var l, r := LeftTrim(s, at), RightTrim(s, at);
    forall x | l.Has(x) ensures l.data[x - l.start] == st(x) {
      assert s.Has(x);
    }
    forall x | r.Has(x) ensures r.data[x - r.start] == st(x) {
      assert s.Has(x);
    }
  }

  lemma JoinCarries(to: Seg, from: Seg, st: Stream)
    requires from.start == to.End() && Carries(to, st) && Carries(from, st)
    ensures Carries(Join(to, from), st)
  {
    var j := Join(to, from);
    forall x | j.Has(x) ensures j.data[x - j.start] == st(x) {
      assert to.Has(x) || from.Has(x);
    }
  }
}
