/** The out-of-order queue: tcp_nip_data_queue_ofo and its trimmers. */
module OutOfOrder {
  import opened RedBlack
  import opened Segments

  /** Segments are non-empty and in strictly increasing order of seq. */
  ghost predicate Sorted(q: seq<Seg>) {
    && (forall i :: 0 <= i < |q| ==> |q[i].data| > 0)
    && (forall i, j :: 0 <= i < j < |q| ==> q[i].start < q[j].start)
  }

  /** Segments are non-empty, in order, and share no byte. */
  ghost predicate Disjoint(q: seq<Seg>) {
    && (forall i :: 0 <= i < |q| ==> |q[i].data| > 0)
    && (forall i, j :: 0 <= i < j < |q| ==> q[i].End() <= q[j].start)
  }

  /** No boundary of a queued segment lies strictly inside `s`. */
  ghost predicate Cell(q: seq<Seg>, s: Seg) {
    forall i :: 0 <= i < |q| ==>
      !(s.start < q[i].start < s.End()) && !(s.start < q[i].End() < s.End())
  }

  lemma DisjointIsSorted(q: seq<Seg>)
    requires Disjoint(q)
    ensures Sorted(q)
  {
    forall i, j | 0 <= i < j < |q| ensures q[i].start < q[j].start {
      assert q[i].End() <= q[j].start;
    }
  }

  /** What becomes of an arrival: dropped; its `piece` appended to the queued
      segment `at`; or linked in place of the queued segments lo..hi, from where
      it goes on to absorb what it covers on its right. */
  datatype Verdict = Drop | Merge(at: nat, piece: Seg) | Place(lo: nat, hi: nat)

  /** Beyond its host q[h], `s` can be cut off at the next queued segment. */
  predicate PieceFits(q: seq<Seg>, h: nat, s: Seg) {
    && h < |q| && s.start <= q[h].End() <= s.End()
    && (h + 1 < |q| ==> q[h].End() <= q[h + 1].start)
  }

  /** The part of `s` beyond q[h], cut off at the next queued segment. */
  function Piece(q: seq<Seg>, h: nat, s: Seg): Seg
    requires PieceFits(q, h, s)
  {
    var t := LeftTrim(s, q[h].End());
    if h + 1 < |q| && q[h + 1].start < t.End() then RightTrim(t, q[h + 1].start) else t
  }

  /** Where the walk down the tree stops: at a leaf between q[at - 1] and q[at]; at
      a node that holds the byte `s` starts with; or at a node `s` was appended to. */
  datatype Found = Gap(at: nat) | Inside(at: nat) | Adjacent(at: nat)

  /** The walk from the subtree that holds q[lo..lo + Size(sh)]. */
  function Walk(q: seq<Seg>, sh: Shape, lo: nat, s: Seg, co: Coalescer): Found
    requires lo + Size(sh) <= |q|
  {
    match sh
    case Leaf => Gap(lo)
    case Node(l, r) =>
      var i := lo + Size(l);
      if s.start < q[i].start then Walk(q, l, lo, s, co)
      else if s.start < q[i].End() then Inside(i)
      else if CanJoin(q[i], s, co) then Adjacent(i)
      else Walk(q, r, i + 1, s, co)
  }

  /** The queue positions lo..hi are the ones `s` could belong in. */
  predicate Between(q: seq<Seg>, lo: nat, hi: nat, s: Seg) {
    && lo <= hi <= |q|
    && (lo > 0 ==> q[lo - 1].End() <= s.start)
    && (hi < |q| ==> s.start < q[hi].start)
  }

  predicate FoundFits(q: seq<Seg>, s: Seg, co: Coalescer, f: Found) {
    match f
    case Gap(at) => Between(q, at, at, s)
    case Inside(at) => at < |q| && q[at].Has(s.start)
    case Adjacent(at) => at < |q| && CanJoin(q[at], s, co)
  }

  lemma {:induction false} WalkFits(q: seq<Seg>, sh: Shape, lo: nat, s: Seg, co: Coalescer)
    requires Between(q, lo, lo + Size(sh), s)
    ensures FoundFits(q, s, co, Walk(q, sh, lo, s, co))
  {
    match sh
    case Leaf =>
    case Node(l, r) =>
      var i := lo + Size(l);
      if s.start < q[i].start {
        WalkFits(q, l, lo, s, co);
      } else if q[i].End() <= s.start && !CanJoin(q[i], s, co) {
        WalkFits(q, r, i + 1, s, co);
      }
  }

  /** If the walk ended at a host that `s` reaches past, the next queued segment starts
      no earlier than the host ends. */
  predicate HostFits(q: seq<Seg>, s: Seg, f: Found) {
    f.Inside? && f.at + 1 < |q| && q[f.at].start < s.start && q[f.at].End() < s.End() ==>
      q[f.at].End() <= q[f.at + 1].start
  }

  /** The trims stay within the arrival. */
  predicate TrimsFit(q: seq<Seg>, sh: Shape, s: Seg, co: Coalescer)
    requires Size(sh) == |q|
  {
    q == [] || q[|q| - 1].start <= s.start || HostFits(q, s, Walk(q, sh, 0, s, co))
  }

  /** The queue is in order, and the trims that this arrival calls for are defined. */
  ghost predicate Workable(q: seq<Seg>, sh: Shape, s: Seg, co: Coalescer) {
    Sorted(q) && |s.data| > 0 && Size(sh) == |q| && TrimsFit(q, sh, s, co)
  }

  lemma DisjointIsWorkable(q: seq<Seg>, sh: Shape, s: Seg, co: Coalescer)
    requires Disjoint(q) && |s.data| > 0 && Size(sh) == |q|
    ensures Workable(q, sh, s, co)
  {
    DisjointIsSorted(q);
  }

  /** An arrival with no queued boundary inside it calls for no trim at all. */
  lemma CellIsWorkable(q: seq<Seg>, sh: Shape, s: Seg, co: Coalescer)
    requires Sorted(q) && Cell(q, s) && |s.data| > 0 && Size(sh) == |q|
    ensures Workable(q, sh, s, co)
  {
    WalkFits(q, sh, 0, s, co);
  }

  /** The walk has ended where the branches behind it are defined. */
  ghost predicate Settled(q: seq<Seg>, s: Seg, co: Coalescer, f: Found) {
    Sorted(q) && q != [] && |s.data| > 0 && s.start < q[|q| - 1].start && FoundFits(q, s, co, f) && HostFits(q, s, f)
  }

  /** The branches taken after the walk. */
  function Settle(q: seq<Seg>, s: Seg, co: Coalescer, f: Found): Verdict
    requires Settled(q, s, co, f)
  {
    match f
    case Gap(at) => Place(at, at)
    case Adjacent(at) => Merge(at, s)
    case Inside(at) =>
      if s.End() <= q[at].End() then Drop
      else if s.start > q[at].start then
        var u := Piece(q, at, s);
        if CanJoin(q[at], u, co) then Merge(at, u) else Drop
      else Place(at, at + 1)
  }

  /** tcp_nip_data_queue_ofo up to the point where the queue is changed. `last` is
      the position ooo_last_skb points at. */
  function Decide(q: seq<Seg>, last: int, sh: Shape, s: Seg, co: Coalescer): Verdict
    requires Workable(q, sh, s, co) && last == |q| - 1
  {
    if q == [] then Place(0, 0)
    else
      var l := q[last];
      if CanJoin(l, s, co) then Merge(last, s)
      else if s.start >= l.End() then Place(last + 1, last + 1)
      else if s.start >= l.start then
        if s.End() <= l.End() then Drop
        else
          var t := LeftTrim(s, l.End());
          if CanJoin(l, t, co) then Merge(last, t) else Drop
      else
        WalkFits(q, sh, 0, s, co);
        Settle(q, s, co, Walk(q, sh, 0, s, co))
  }

  /** The merge_right loop: the first segment from k on that is not covered by
      bytes up to `end`. */
  function FirstBeyond(q: seq<Seg>, k: nat, end: int): (j: nat)
    requires k <= |q|
    ensures k <= j <= |q|
    ensures forall i :: k <= i < j ==> q[i].start < end && q[i].End() <= end
    ensures j < |q| ==> end <= q[j].start || end < q[j].End()
    decreases |q| - k
  {
    if k == |q| || end <= q[k].start || end < q[k].End() then k
    else FirstBeyond(q, k + 1, end)
  }

  /** The queue together with the position of ooo_last_skb. */
  datatype Ofo = Ofo(q: seq<Seg>, last: int)

  predicate Applicable(q: seq<Seg>, s: Seg, v: Verdict) {
    match v
    case Drop => true
    case Merge(i, p) => i < |q|
    case Place(a, b) => a <= b <= |q| && forall k :: b <= k < |q| ==> s.start <= q[k].start
  }

  /** `s` without the bytes that the segment right of it already holds. */
  function Placed(q: seq<Seg>, b: nat, s: Seg): Seg
    requires b <= |q| && forall k :: b <= k < |q| ==> s.start <= q[k].start
  {
    var j := FirstBeyond(q, b, s.End());
    if j < |q| && s.End() > q[j].start then RightTrim(s, q[j].start) else s
  }

  /** q[a..j] replaced by the single segment x. */
  function Splice(q: seq<Seg>, a: nat, x: Seg, j: nat): (q': seq<Seg>)
    requires a <= j <= |q|
    ensures |q'| == |q| + 1 + a - j
    ensures forall k :: 0 <= k < a ==> q'[k] == q[k]
    ensures q'[a] == x
    ensures forall k :: a < k < |q'| ==> q'[k] == q[k - a - 1 + j]
  {
    q[..a] + [x] + q[j..]
  }

  function Apply(o: Ofo, s: Seg, v: Verdict): Ofo
    requires Applicable(o.q, s, v)
  {
    match v
    case Drop => o
    case Merge(i, p) => o.(q := o.q[i := Join(o.q[i], p)])
    case Place(a, b) =>
      var j := FirstBeyond(o.q, b, s.End());
      var q' := Splice(o.q, a, Placed(o.q, b, s), j);
      Ofo(q', if j == |o.q| then a else o.last + |q'| - |o.q|)
  }

  /** `s` starts inside the queued segment h. */
  predicate Hosts(q: seq<Seg>, h: nat, s: Seg)
    requires h < |q|
  {
    q[h].Has(s.start)
  }

  /** The bytes of `s` past its host q[h] can only be appended to q[h]; an arrival
      that starts exactly where a non-last segment does replaces it instead. */
  predicate Appends(q: seq<Seg>, h: nat, s: Seg)
    requires h < |q|
  {
    q[h].End() < s.End() && (h == |q| - 1 || q[h].start < s.start)
  }

  /** What a verdict says about the queue it was reached on. */
  ghost predicate Sound(q: seq<Seg>, s: Seg, co: Coalescer, v: Verdict) {
    match v
    case Drop =>
      exists h: nat :: h < |q| && Hosts(q, h, s)
                       && (s.End() <= q[h].End() || (PieceFits(q, h, s) && Appends(q, h, s) && !co(q[h], Piece(q, h, s))))
    case Merge(i, p) =>
      && i < |q|
      && p.start == q[i].End()
      && ((p == s && (i == |q| - 1 || s.start < q[|q| - 1].start))
          || (PieceFits(q, i, s) && Hosts(q, i, s) && Appends(q, i, s) && p == Piece(q, i, s)))
      && co(q[i], p)
    case Place(a, b) =>
      && a <= b <= |q|
      && (forall k :: 0 <= k < a ==> q[k].start < s.start)
      && (forall k :: b <= k < |q| ==> s.start < q[k].start)
      && (Disjoint(q) && a > 0 ==> q[a - 1].End() <= s.start)
      && (b == a || (b == a + 1 < |q| && q[a].start == s.start && q[a].End() < s.End()))
  }

  lemma CoveredIsSound(q: seq<Seg>, s: Seg, co: Coalescer, at: nat)
    requires at < |q| && Hosts(q, at, s) && s.End() <= q[at].End()
    ensures Sound(q, s, co, Drop)
  {
  }

  lemma AppendIsSound(q: seq<Seg>, s: Seg, co: Coalescer, at: nat)
    requires PieceFits(q, at, s) && Hosts(q, at, s) && Appends(q, at, s)
    ensures var u := Piece(q, at, s);
            u.start == q[at].End() && Sound(q, s, co, if co(q[at], u) then Merge(at, u) else Drop)
  {
  }

  lemma ReplaceIsSound(q: seq<Seg>, s: Seg, co: Coalescer, at: nat)
    requires Sorted(q) && at + 1 < |q| && q[at].start == s.start && q[at].End() < s.End()
    ensures Sound(q, s, co, Place(at, at + 1)) && Applicable(q, s, Place(at, at + 1))
  {
    forall k | 0 <= k < at ensures q[k].start < s.start {
      assert q[k].start < q[at].start;
    }
    forall k | at + 1 <= k < |q| ensures s.start < q[k].start {
      assert q[at].start < q[k].start;
    }
  }

  lemma SettleIsSound(q: seq<Seg>, s: Seg, co: Coalescer, f: Found)
    requires Settled(q, s, co, f)
    ensures Sound(q, s, co, Settle(q, s, co, f)) && Applicable(q, s, Settle(q, s, co, f))
  {
    match f
    case Gap(at) =>
      GapIsOrdered(q, at, s);
    case Adjacent(at) =>
    case Inside(at) =>
      if s.End() <= q[at].End() {
        CoveredIsSound(q, s, co, at);
      } else if s.start > q[at].start {
        AppendIsSound(q, s, co, at);
      } else {
        ReplaceIsSound(q, s, co, at);
      }
  }

  /** Whatever the tree's shape and whichever coalesces succeed, the verdict fits. */
  lemma DecideIsSound(q: seq<Seg>, last: int, sh: Shape, s: Seg, co: Coalescer)
    requires Workable(q, sh, s, co) && last == |q| - 1
    ensures Sound(q, s, co, Decide(q, last, sh, s, co))
    ensures Applicable(q, s, Decide(q, last, sh, s, co))
  {
    if q != [] {
      if q[last].start <= s.start < q[last].End() {
        assert Hosts(q, last, s);
      } else if s.start < q[last].start {
        WalkFits(q, sh, 0, s, co);
        SettleIsSound(q, s, co, Walk(q, sh, 0, s, co));
      }
    }
  }

  lemma GapIsOrdered(q: seq<Seg>, at: nat, s: Seg)
    requires Sorted(q) && Between(q, at, at, s)
    ensures forall k :: 0 <= k < at ==> q[k].start < s.start
    ensures forall k :: at <= k < |q| ==> s.start < q[k].start
  {
    forall k | 0 <= k < at ensures q[k].start < s.start {
      if k < at - 1 { assert q[k].start < q[at - 1].start; }
    }
    forall k | at <= k < |q| ensures s.start < q[k].start {
      if at < k { assert q[at].start < q[k].start; }
    }
  }

  /** tcp_nip_data_queue_ofo: the queue and ooo_last_skb after an arrival. */
  function Insert(o: Ofo, sh: Shape, s: Seg, co: Coalescer): Ofo
    requires Workable(o.q, sh, s, co) && o.last == |o.q| - 1
  {
    DecideIsSound(o.q, o.last, sh, s, co);
    Apply(o, s, Decide(o.q, o.last, sh, s, co))
  }

  lemma SpliceSorted(q: seq<Seg>, a: nat, x: Seg, j: nat)
    requires a <= j <= |q| && Sorted(q) && |x.data| > 0
    requires forall k :: 0 <= k < a ==> q[k].start < x.start
    requires forall k :: j <= k < |q| ==> x.start < q[k].start
    ensures Sorted(Splice(q, a, x, j))
  {
    var q' := Splice(q, a, x, j);
    forall k, m | 0 <= k < m < |q'| ensures q'[k].start < q'[m].start {
      if m < a {
        assert q[k].start < q[m].start;
      } else if a < k {
        assert q[k - a - 1 + j].start < q[m - a - 1 + j].start;
      }
    }
  }

  lemma SpliceDisjoint(q: seq<Seg>, a: nat, x: Seg, j: nat)
    requires a <= j <= |q| && Disjoint(q) && Sorted(Splice(q, a, x, j))
    requires a > 0 ==> q[a - 1].End() <= x.start
    requires j < |q| ==> x.End() <= q[j].start
    ensures Disjoint(Splice(q, a, x, j))
  {
    var q' := Splice(q, a, x, j);
    forall k | 0 <= k < |q'| - 1 ensures q'[k].End() <= q'[k + 1].start {
      if k + 1 < a {
        assert q[k].End() <= q[k + 1].start;
      } else if a < k {
        assert q[k - a - 1 + j].End() <= q[k - a + j].start;
      }
    }
    DisjointNeighbours(q');
  }

  lemma DisjointNeighbours(q: seq<Seg>)
    requires Sorted(q)
    requires forall i :: 0 <= i < |q| - 1 ==> q[i].End() <= q[i + 1].start
    ensures Disjoint(q)
  {
    forall i, j | 0 <= i < j < |q| ensures q[i].End() <= q[j].start {
      if i + 1 < j { assert q[i + 1].start < q[j].start; }
    }
  }

  lemma PlacedFits(q: seq<Seg>, b: nat, s: Seg)
    requires b <= |q| && |s.data| > 0 && forall k :: b <= k < |q| ==> s.start < q[k].start
    ensures var x, j := Placed(q, b, s), FirstBeyond(q, b, s.End());
            && x.start == s.start && 0 < |x.data| && x.End() <= s.End()
            && (j < |q| ==> x.End() <= q[j].start)
            && (x.End() < s.End() ==> j < |q| && x.End() == q[j].start && s.End() < q[j].End())
  {
  }

  lemma MergeSorted(q: seq<Seg>, i: nat, p: Seg)
    requires Sorted(q) && i < |q|
    ensures Sorted(q[i := Join(q[i], p)])
  {
    var q' := q[i := Join(q[i], p)];
    forall k, m | 0 <= k < m < |q'| ensures q'[k].start < q'[m].start {
      assert q[k].start < q[m].start;
    }
  }

  lemma ApplyKeepsSorted(o: Ofo, s: Seg, co: Coalescer, v: Verdict)
    requires Sorted(o.q) && |s.data| > 0 && o.last == |o.q| - 1
    requires Sound(o.q, s, co, v) && Applicable(o.q, s, v)
    ensures Sorted(Apply(o, s, v).q)
    ensures Apply(o, s, v).last == |Apply(o, s, v).q| - 1
  {
    hide Sorted, FirstBeyond, Disjoint, Placed;
    if v.Merge? {
      MergeSorted(o.q, v.at, v.piece);
    } else if v.Place? {
      PlacedFits(o.q, v.hi, s);
      SpliceSorted(o.q, v.lo, Placed(o.q, v.hi, s), FirstBeyond(o.q, v.hi, s.End()));
    }
  }

  /** The queue stays sorted and ooo_last_skb stays its maximum: whichever way an
      arrival overlaps the queue, whatever the tree's shape, whatever coalesces. */
  lemma InsertKeepsSorted(o: Ofo, sh: Shape, s: Seg, co: Coalescer)
    requires Workable(o.q, sh, s, co) && o.last == |o.q| - 1
    ensures Sorted(Insert(o, sh, s, co).q)
    ensures var o' := Insert(o, sh, s, co); o'.last == |o'.q| - 1 && o'.q != []
  {
    DecideIsSound(o.q, o.last, sh, s, co);
    ApplyKeepsSorted(o, s, co, Decide(o.q, o.last, sh, s, co));
  }

  // ---- Disjointness, and the coalesce that can break it ----

  /** The arrival, which is not beyond ooo_last_skb, starts exactly where q[i] ends and
      runs into the next segment. */
  predicate RunsInto(q: seq<Seg>, i: nat, s: Seg) {
    i + 1 < |q| && q[i].End() == s.start < q[|q| - 1].start && q[i + 1].start < s.End()
  }

  /** The one tree of three nodes has the arrival meet its double before q[0]. */
  predicate Spared(q: seq<Seg>, s: Seg) {
    |q| == 3 && q[0].End() == q[1].start == s.start
  }

  ghost predicate Hazard(q: seq<Seg>, s: Seg) {
    !Spared(q, s) && exists i: nat :: RunsInto(q, i, s)
  }

  lemma MergeDisjointIff(q: seq<Seg>, i: nat, p: Seg)
    requires Disjoint(q) && i < |q| && p.start == q[i].End()
    ensures Disjoint(q[i := Join(q[i], p)]) <==> !(i + 1 < |q| && q[i + 1].start < p.End())
  {
    var q' := q[i := Join(q[i], p)];
    if i + 1 < |q| {
      assert q'[i].End() == p.End() && q'[i + 1] == q[i + 1];
    }
    if !(i + 1 < |q| && q[i + 1].start < p.End()) {
      forall k, m | 0 <= k < m < |q'| ensures q'[k].End() <= q'[m].start {
        assert q[k].End() <= q[m].start;
        if k == i && i + 1 < m { assert q[i + 1].End() <= q[m].start; }
      }
    }
  }

  /** A verdict keeps the queue disjoint exactly when it is not an append of the
      whole arrival over the front of the next segment. */
  lemma ApplyDisjointIff(o: Ofo, s: Seg, co: Coalescer, v: Verdict)
    requires Disjoint(o.q) && |s.data| > 0 && o.last == |o.q| - 1
    requires Sound(o.q, s, co, v) && Applicable(o.q, s, v)
    ensures Disjoint(Apply(o, s, v).q) <==>
            !(v.Merge? && v.at + 1 < |o.q| && o.q[v.at + 1].start < v.piece.End())
  {
    hide FirstBeyond, Placed, Sorted;
    if v.Merge? {
      MergeDisjointIff(o.q, v.at, v.piece);
    } else if v.Place? {
      DisjointIsSorted(o.q);
      ApplyKeepsSorted(o, s, co, v);
      PlacedFits(o.q, v.hi, s);
      SpliceDisjoint(o.q, v.lo, Placed(o.q, v.hi, s), FirstBeyond(o.q, v.hi, s.End()));
    }
  }

  lemma SafeMerge(q: seq<Seg>, s: Seg, co: Coalescer, v: Verdict)
    requires Sound(q, s, co, v) && v.Merge? && v.at + 1 < |q| && !RunsInto(q, v.at, s)
    ensures v.piece.End() <= q[v.at + 1].start
  {
  }

  lemma SparedIsNoMerge(q: seq<Seg>, sh: Shape, s: Seg, co: Coalescer)
    requires Disjoint(q) && |s.data| > 0 && Balanced(sh) && Size(sh) == |q| && Spared(q, s)
    ensures Workable(q, sh, s, co) && !Decide(q, 2, sh, s, co).Merge?
  {
    DisjointIsWorkable(q, sh, s, co);
    ThreeNodes(sh);
    assert Walk(q, sh, 0, s, co) == Inside(1);
  }

  /** Out of the hazard, every arrival leaves the queue sorted and pairwise disjoint. */
  lemma InsertKeepsDisjoint(o: Ofo, sh: Shape, s: Seg, co: Coalescer)
    requires Disjoint(o.q) && |s.data| > 0 && Balanced(sh) && Size(sh) == |o.q| && o.last == |o.q| - 1
    requires !Hazard(o.q, s)
    ensures Workable(o.q, sh, s, co) && Disjoint(Insert(o, sh, s, co).q)
  {
    DisjointIsWorkable(o.q, sh, s, co);
    DecideIsSound(o.q, o.last, sh, s, co);
    var v := Decide(o.q, o.last, sh, s, co);
    if Spared(o.q, s) {
      SparedIsNoMerge(o.q, sh, s, co);
    } else if v.Merge? && v.at + 1 < |o.q| {
      SafeMerge(o.q, s, co, v);
    }
    ApplyDisjointIff(o, s, co, v);
  }

  const ALL_JOIN: Coalescer := (to: Seg, from: Seg) => true

  lemma Apart(q: seq<Seg>, i: nat, k: nat)
    requires Disjoint(q) && i < k < |q|
    ensures q[i].start < q[i].End() <= q[k].start < q[k].End()
  {
  }

  /** One step of a walk for which every append succeeds. */
  lemma WalkStep(q: seq<Seg>, l: Shape, r: Shape, lo: nat, s: Seg)
    requires lo + Size(Node(l, r)) <= |q|
    ensures var k := lo + Size(l);
            Walk(q, Node(l, r), lo, s, ALL_JOIN) ==
            if s.start < q[k].start then Walk(q, l, lo, s, ALL_JOIN)
            else if s.start < q[k].End() then Inside(k)
            else if s.start == q[k].End() then Adjacent(k)
            else Walk(q, r, k + 1, s, ALL_JOIN)
  {
  }

  /** With a gap behind q[i], every walk meets q[i]. */
  lemma {:induction false} WalkOverGap(q: seq<Seg>, sh: Shape, lo: nat, i: nat, s: Seg)
    requires Disjoint(q) && lo <= i < lo + Size(sh) <= |q| && q[i].End() == s.start
    requires i + 1 < |q| ==> s.start < q[i + 1].start
    ensures Walk(q, sh, lo, s, ALL_JOIN) == Adjacent(i)
  {
    hide Disjoint, Walk;
    var Node(l, r) := sh;
    WalkStep(q, l, r, lo, s);
    var k := lo + Size(l);
    if k < i {
      Apart(q, k, i);
      WalkOverGap(q, r, k + 1, i, s);
    } else if k > i {
      if k > i + 1 { Apart(q, i + 1, k); }
      WalkOverGap(q, l, lo, i, s);
    } else {
      Occupied(q, i);
    }
  }

  lemma Occupied(q: seq<Seg>, i: nat)
    requires Disjoint(q) && i < |q|
    ensures q[i].start < q[i].End()
  {
  }

  lemma AboveStep(l: Shape, r: Shape, j: nat)
    ensures Above(Node(l, r), j) ==
            if j < Size(l) then Above(l, j) else if j == Size(l) then r.Node? else Above(r, j - Size(l) - 1)
  {
  }

  /** With q[i + 1] right behind q[i], a walk meets whichever of the two is above. */
  lemma {:induction false} WalkAtSeam(q: seq<Seg>, sh: Shape, lo: nat, i: nat, s: Seg)
    requires Disjoint(q) && lo <= i < i + 1 < lo + Size(sh) <= |q| && q[i].End() == s.start == q[i + 1].start
    ensures Walk(q, sh, lo, s, ALL_JOIN) == if Above(sh, i - lo) then Adjacent(i) else Inside(i + 1)
  {
    hide Disjoint, Walk, Above;
    var Node(l, r) := sh;
    WalkStep(q, l, r, lo, s);
    AboveStep(l, r, i - lo);
    var k := lo + Size(l);
    if k < i {
      Apart(q, k, i);
      WalkAtSeam(q, r, k + 1, i, s);
    } else if k > i + 1 {
      Apart(q, i + 1, k);
      WalkAtSeam(q, l, lo, i, s);
    } else if k == i + 1 {
      Occupied(q, k);
      LastIsNotAbove(l);
    } else {
      Occupied(q, i);
    }
  }

  /** A red-black tree in which the walk meets q[i]. */
  lemma TreeThatMeets(q: seq<Seg>, i: nat, s: Seg) returns (sh: Shape)
    requires Disjoint(q) && RunsInto(q, i, s) && !Spared(q, s)
    ensures Balanced(sh) && Size(sh) == |q| && Walk(q, sh, 0, s, ALL_JOIN) == Adjacent(i)
  {
    Apart(q, i, i + 1);
    if q[i + 1].start == s.start {
      sh := BalancedAbove(|q|, i);
      WalkAtSeam(q, sh, 0, i, s);
    } else {
      sh := BalancedAbove(|q|, |q| - 2);
      WalkOverGap(q, sh, 0, i, s);
    }
  }

  lemma DecidesToMerge(q: seq<Seg>, i: nat, sh: Shape, s: Seg)
    requires Workable(q, sh, s, ALL_JOIN) && q != [] && s.start < q[|q| - 1].start
    requires Walk(q, sh, 0, s, ALL_JOIN) == Adjacent(i)
    ensures Decide(q, |q| - 1, sh, s, ALL_JOIN) == Merge(i, s)
  {
  }

  /** Inside the hazard some red-black tree and coalesce answer make two queued segments
      overlap, because the append at the walk is not cut at the right neighbour. */
  lemma HazardBreaksDisjoint(o: Ofo, s: Seg) returns (sh: Shape)
    requires Disjoint(o.q) && |s.data| > 0 && o.last == |o.q| - 1 && Hazard(o.q, s)
    ensures Balanced(sh) && Workable(o.q, sh, s, ALL_JOIN) && !Disjoint(Insert(o, sh, s, ALL_JOIN).q)
  {
    var i: nat :| RunsInto(o.q, i, s);
    sh := TreeThatMeets(o.q, i, s);
    DisjointIsWorkable(o.q, sh, s, ALL_JOIN);
    DecidesToMerge(o.q, i, sh, s);
    MergeDisjointIff(o.q, i, s);
  }

  /** The insertion keeps the queue disjoint. */
  ghost predicate StaysDisjoint(o: Ofo, sh: Shape, s: Seg, co: Coalescer)
    requires o.last == |o.q| - 1
  {
    Workable(o.q, sh, s, co) && Disjoint(Insert(o, sh, s, co).q)
  }

  /** The exact condition, checkable before the call: every insertion keeps the queue
      disjoint, in every red-black tree and whatever coalesces, if and only if the
      arrival is not in the hazard. */
  lemma DisjointExactlyOutsideHazard(o: Ofo, s: Seg)
    requires Disjoint(o.q) && |s.data| > 0 && o.last == |o.q| - 1
    ensures (forall sh: Shape, co: Coalescer | Balanced(sh) && Size(sh) == |o.q| :: StaysDisjoint(o, sh, s, co))
            <==> !Hazard(o.q, s)
  {
    if Hazard(o.q, s) {
      var sh := HazardBreaksDisjoint(o, s);
      assert !StaysDisjoint(o, sh, s, ALL_JOIN);
    } else {
      forall sh: Shape, co: Coalescer | Balanced(sh) && Size(sh) == |o.q| ensures StaysDisjoint(o, sh, s, co) {
        InsertKeepsDisjoint(o, sh, s, co);
      }
    }
  }

  // ---- A run into the hazard ----

  const REFUSE: Coalescer := (to: Seg, from: Seg) => false

  const FOUR: seq<Seg> := [Seg(10, [1, 2]), Seg(12, [3, 4]), Seg(14, [5, 6]), Seg(16, [7, 8])]

  /** The third of the four appended to the second. */
  const OVERLAPPING: seq<Seg> := [Seg(10, [1, 2]), Seg(12, [3, 4, 5, 6]), Seg(14, [5, 6]), Seg(16, [7, 8])]

  /** One arrival, in some red-black tree. */
  ghost predicate Takes(q: seq<Seg>, sh: Shape, s: Seg, co: Coalescer, q': seq<Seg>) {
    Balanced(sh) && Workable(q, sh, s, co) && Insert(Ofo(q, |q| - 1), sh, s, co).q == q'
  }

  const TREE_OF_FOUR: Shape := Node(ONE, Node(Leaf, ONE))

  lemma SmallTreesBalanced()
    ensures Balanced(Leaf) && Balanced(ONE) && Balanced(Node(Leaf, ONE)) && Balanced(Node(ONE, ONE))
    ensures Balanced(TREE_OF_FOUR)
  {
    assert Coloured(Leaf, 0, false) && Coloured(ONE, 1, false) && Coloured(ONE, 0, true);
    assert Coloured(Node(Leaf, ONE), 1, false) && Coloured(Node(ONE, ONE), 2, false);
    assert Coloured(TREE_OF_FOUR, 2, false);
  }

  /** A run from the empty queue: four adjacent segments arrive in order and do not
      coalesce; the third arrives once more, is met after the second, and coalesces. */
  lemma HazardRun()
    ensures Takes([], Leaf, FOUR[0], REFUSE, FOUR[..1])
    ensures Takes(FOUR[..1], ONE, FOUR[1], REFUSE, FOUR[..2])
    ensures Takes(FOUR[..2], Node(Leaf, ONE), FOUR[2], REFUSE, FOUR[..3])
    ensures Takes(FOUR[..3], Node(ONE, ONE), FOUR[3], REFUSE, FOUR)
    ensures Takes(FOUR, TREE_OF_FOUR, FOUR[2], ALL_JOIN, OVERLAPPING)
    ensures Disjoint(FOUR) && Hazard(FOUR, FOUR[2]) && !Disjoint(OVERLAPPING)
  {
    hide Takes, Balanced, Coloured, Hazard;
    SmallTreesBalanced();
    TakesNext(FOUR, 0, Leaf);
    TakesNext(FOUR, 1, ONE);
    TakesNext(FOUR, 2, Node(Leaf, ONE));
    TakesNext(FOUR, 3, Node(ONE, ONE));
    assert FOUR[..0] == [] && FOUR[..4] == FOUR;
    AgainThird();
  }

  lemma TakesNext(q: seq<Seg>, n: nat, sh: Shape)
    requires Disjoint(q) && n < |q| && Balanced(sh) && Size(sh) == n
    requires n > 0 ==> q[n - 1].End() == q[n].start
    ensures Takes(q[..n], sh, q[n], REFUSE, q[..n + 1])
  {
    DisjointIsWorkable(q[..n], sh, q[n], REFUSE);
    assert q[..n] + [q[n]] == q[..n + 1];
  }

  lemma WalkToThird()
    ensures Walk(FOUR, TREE_OF_FOUR, 0, FOUR[2], ALL_JOIN) == Adjacent(1)
  {
    assert Size(ONE) == 1;
  }

  lemma AgainThird()
    ensures Takes(FOUR, TREE_OF_FOUR, FOUR[2], ALL_JOIN, OVERLAPPING)
    ensures Hazard(FOUR, FOUR[2]) && !Disjoint(OVERLAPPING)
  {
    hide Walk;
    SmallTreesBalanced();
    assert RunsInto(FOUR, 1, FOUR[2]);
    assert OVERLAPPING[1].End() > OVERLAPPING[2].start;
    DisjointIsWorkable(FOUR, TREE_OF_FOUR, FOUR[2], ALL_JOIN);
    WalkToThird();
    DecidesToMerge(FOUR, 1, TREE_OF_FOUR, FOUR[2]);
    assert FOUR[1].data + FOUR[2].data == OVERLAPPING[1].data;
    assert FOUR[1 := Join(FOUR[1], FOUR[2])] == OVERLAPPING;
  }

  /** After that run a peer that cuts its data differently is not served: 13..20 keeps 4
      bytes beyond the segment it starts in, and is then to lose 6. */
  lemma TrimCanFail(co: Coalescer)
    ensures var s := Seg(13, [4, 5, 6, 7, 8, 9, 10]);
            && Sorted(OVERLAPPING) && !Workable(OVERLAPPING, TREE_OF_FOUR, s, co)
            && Walk(OVERLAPPING, TREE_OF_FOUR, 0, s, co) == Inside(1)
            && |LeftTrim(s, OVERLAPPING[1].End()).data| == 4 && s.End() - OVERLAPPING[2].start == 6
  {
    assert Size(ONE) == 1;
  }

  // ---- Which bytes are held ----

  ghost predicate Covers(q: seq<Seg>, x: int) {
    exists i :: 0 <= i < |q| && q[i].Has(x)
  }

  lemma MergeCovers(q: seq<Seg>, i: nat, p: Seg, x: int)
    requires i < |q| && p.start == q[i].End()
    ensures Covers(q[i := Join(q[i], p)], x) <==> Covers(q, x) || p.Has(x)
  {
    var q' := q[i := Join(q[i], p)];
    assert q'[i].Has(x) <==> q[i].Has(x) || p.Has(x);
    if Covers(q, x) {
      var k :| 0 <= k < |q| && q[k].Has(x);
      assert q'[k].Has(x);
    }
    if p.Has(x) {
      assert q'[i].Has(x);
    }
    if Covers(q', x) {
      var k :| 0 <= k < |q'| && q'[k].Has(x);
      assert k != i ==> q[k].Has(x);
    }
  }

  lemma SpliceCovers(q: seq<Seg>, a: nat, y: Seg, j: nat, x: int)
    requires a <= j <= |q|
    ensures Covers(Splice(q, a, y, j), x) <==> Covers(q[..a], x) || y.Has(x) || Covers(q[j..], x)
  {
    var q' := Splice(q, a, y, j);
    if Covers(q', x) {
      var k :| 0 <= k < |q'| && q'[k].Has(x);
      if k < a {
        assert q[..a][k].Has(x);
      } else if a < k {
        assert q[j..][k - a - 1].Has(x);
      }
    }
    if Covers(q[..a], x) {
      var k :| 0 <= k < a && q[..a][k].Has(x);
      assert q'[k].Has(x);
    }
    if y.Has(x) {
      assert q'[a].Has(x);
    }
    if Covers(q[j..], x) {
      var k :| 0 <= k < |q| - j && q[j..][k].Has(x);
      assert q'[k + a + 1].Has(x);
    }
  }

  /** Linking `s` in place of q[a..b] and absorbing what it covers adds its bytes. */
  lemma PlaceCovers(q: seq<Seg>, a: nat, b: nat, s: Seg, x: int)
    requires a <= b <= |q| && |s.data| > 0
    requires forall k :: b <= k < |q| ==> s.start < q[k].start
    requires b == a || (b == a + 1 && q[a].start == s.start && q[a].End() < s.End())
    ensures var j := FirstBeyond(q, b, s.End());
            Covers(Splice(q, a, Placed(q, b, s), j), x) <==> Covers(q, x) || s.Has(x)
  {
    hide Placed, FirstBeyond;
    var j, y := FirstBeyond(q, b, s.End()), Placed(q, b, s);
    PlacedFits(q, b, s);
    SpliceCovers(q, a, y, j, x);
    if s.Has(x) && !y.Has(x) {
      assert q[j..][0].Has(x);
    }
    if Covers(q, x) {
      var k :| 0 <= k < |q| && q[k].Has(x);
      if k < a {
        assert q[..a][k].Has(x);
      } else if j <= k {
        assert q[j..][k - j].Has(x);
      } else {
        assert s.Has(x);
      }
    }
    if Covers(q[..a], x) {
      var k :| 0 <= k < a && q[..a][k].Has(x);
      assert q[k].Has(x);
    }
    if Covers(q[j..], x) {
      var k :| 0 <= k < |q| - j && q[j..][k].Has(x);
      assert q[j + k].Has(x);
    }
  }

  /** The arrival is linked or appended as a whole. */
  ghost predicate AddsAll(q: seq<Seg>, q': seq<Seg>, s: Seg, x: int) {
    (forall h: nat | h < |q| && Hosts(q, h, s) :: !Appends(q, h, s)) ==>
      (Covers(q', x) <==> Covers(q, x) || s.Has(x))
  }

  /** The arrival's host takes the piece beyond it, or nothing does. */
  ghost predicate AddsPiece(q: seq<Seg>, q': seq<Seg>, s: Seg, co: Coalescer, x: int)
    requires Disjoint(q)
  {
    forall h: nat | h < |q| && Hosts(q, h, s) && Appends(q, h, s) ::
      Covers(q', x) <==> Covers(q, x) || (co(q[h], Piece(q, h, s)) && Piece(q, h, s).Has(x))
  }

  lemma DropCoverage(q: seq<Seg>, s: Seg, co: Coalescer, x: int)
    requires Disjoint(q) && Sound(q, s, co, Drop)
    ensures AddsAll(q, q, s, x) && AddsPiece(q, q, s, co, x)
  {
    var h: nat :| h < |q| && Hosts(q, h, s)
                  && (s.End() <= q[h].End() || (PieceFits(q, h, s) && Appends(q, h, s) && !co(q[h], Piece(q, h, s))));
    assert forall h': nat | h' < |q| && Hosts(q, h', s) :: h' == h;
    assert s.End() <= q[h].End() && s.Has(x) ==> q[h].Has(x);
  }

  lemma MergeAddsAll(q: seq<Seg>, i: nat, p: Seg, s: Seg, co: Coalescer, x: int)
    requires Disjoint(q) && |s.data| > 0 && Sound(q, s, co, Merge(i, p))
    ensures AddsAll(q, q[i := Join(q[i], p)], s, x)
  {
    MergeCovers(q, i, p, x);
    if p.start != s.start {
      assert Hosts(q, i, s) && Appends(q, i, s);
    }
  }

  lemma MergeAddsPiece(q: seq<Seg>, i: nat, p: Seg, s: Seg, co: Coalescer, x: int)
    requires Disjoint(q) && |s.data| > 0 && Sound(q, s, co, Merge(i, p))
    ensures AddsPiece(q, q[i := Join(q[i], p)], s, co, x)
  {
    MergeCovers(q, i, p, x);
    if p.start == s.start {
      forall h: nat | h < |q| && Hosts(q, h, s) ensures !Appends(q, h, s) {
        assert i < h;
        assert q[i].End() <= q[h].start;
      }
    } else {
      assert forall h: nat | h < |q| && Hosts(q, h, s) :: h == i;
    }
  }

  lemma PlaceCoverage(q: seq<Seg>, a: nat, b: nat, s: Seg, co: Coalescer, x: int)
    requires Disjoint(q) && |s.data| > 0 && Sound(q, s, co, Place(a, b))
    requires Applicable(q, s, Place(a, b))
    ensures var q' := Splice(q, a, Placed(q, b, s), FirstBeyond(q, b, s.End()));
            AddsAll(q, q', s, x) && AddsPiece(q, q', s, co, x)
  {
    PlaceCovers(q, a, b, s, x);
    forall k | 0 <= k < a ensures q[k].End() <= s.start {
      if k < a - 1 { assert q[k].End() <= q[a - 1].start; }
    }
  }

  /** Exactly which bytes the queue holds afterwards. An arrival whose first byte is
      new (or that replaces the segment it starts with) adds all of its bytes; one
      that starts inside a segment and reaches past it adds the piece up to the next
      segment, and only if the coalesce succeeds. No byte held before is lost and no
      byte outside the arrival appears. */
  lemma InsertCoverage(o: Ofo, sh: Shape, s: Seg, co: Coalescer, x: int)
    requires Disjoint(o.q) && Workable(o.q, sh, s, co) && o.last == |o.q| - 1
    ensures AddsAll(o.q, Insert(o, sh, s, co).q, s, x)
    ensures AddsPiece(o.q, Insert(o, sh, s, co).q, s, co, x)
  {
    var v := Decide(o.q, o.last, sh, s, co);
    DecideIsSound(o.q, o.last, sh, s, co);
    match v
    case Drop => DropCoverage(o.q, s, co, x);
    case Merge(i, p) =>
      MergeAddsAll(o.q, i, p, s, co, x);
      MergeAddsPiece(o.q, i, p, s, co, x);
    case Place(a, b) => PlaceCoverage(o.q, a, b, s, co, x);
  }

  /** When no queued boundary lies inside the arrival, the queue afterwards holds exactly
      what it held and the arrival, even if queued segments overlap. */
  lemma InsertCoversCell(o: Ofo, sh: Shape, s: Seg, co: Coalescer, x: int)
    requires Workable(o.q, sh, s, co) && Cell(o.q, s) && o.last == |o.q| - 1
    ensures Covers(Insert(o, sh, s, co).q, x) <==> Covers(o.q, x) || s.Has(x)
  {
    var v := Decide(o.q, o.last, sh, s, co);
    DecideIsSound(o.q, o.last, sh, s, co);
    match v
    case Drop => CellIsCovered(o.q, s, co, x);
    case Merge(i, p) => MergeCovers(o.q, i, p, x);
    case Place(a, b) => PlaceCovers(o.q, a, b, s, x);
  }

  lemma CellIsCovered(q: seq<Seg>, s: Seg, co: Coalescer, x: int)
    requires Cell(q, s) && Sound(q, s, co, Drop)
    ensures s.Has(x) ==> Covers(q, x)
  {
    var h: nat :| h < |q| && Hosts(q, h, s);
    assert s.Has(x) ==> q[h].Has(x);
  }

  // ---- What the bytes are ----

  lemma PieceCarries(q: seq<Seg>, h: nat, s: Seg, st: Stream)
    requires PieceFits(q, h, s) && Carries(s, st)
    ensures Carries(Piece(q, h, s), st)
  {
    TrimsCarry(s, q[h].End(), st);
    var t := LeftTrim(s, q[h].End());
    if h + 1 < |q| && q[h + 1].start < t.End() {
      TrimsCarry(t, q[h + 1].start, st);
    }
  }

  lemma MergeCarries(q: seq<Seg>, i: nat, p: Seg, st: Stream)
    requires i < |q| && p.start == q[i].End() && AllCarry(q, st) && Carries(p, st)
    ensures AllCarry(q[i := Join(q[i], p)], st)
  {
    JoinCarries(q[i], p, st);
  }

  lemma SpliceCarries(q: seq<Seg>, a: nat, x: Seg, j: nat, st: Stream)
    requires a <= j <= |q| && AllCarry(q, st) && Carries(x, st)
    ensures AllCarry(Splice(q, a, x, j), st)
  {
  }

  lemma PlacedCarries(q: seq<Seg>, b: nat, s: Seg, st: Stream)
    requires b <= |q| && (forall k :: b <= k < |q| ==> s.start <= q[k].start) && Carries(s, st)
    ensures Carries(Placed(q, b, s), st)
  {
    var j := FirstBeyond(q, b, s.End());
    if j < |q| && s.End() > q[j].start {
      TrimsCarry(s, q[j].start, st);
    }
  }

  lemma ApplyCarries(o: Ofo, s: Seg, co: Coalescer, v: Verdict, st: Stream)
    requires Sound(o.q, s, co, v) && Applicable(o.q, s, v)
    requires AllCarry(o.q, st) && Carries(s, st)
    ensures AllCarry(Apply(o, s, v).q, st)
  {
    match v
    case Drop =>
    case Merge(i, p) =>
      if p != s { PieceCarries(o.q, i, s, st); }
      MergeCarries(o.q, i, p, st);
    case Place(a, b) =>
      PlacedCarries(o.q, b, s, st);
      SpliceCarries(o.q, a, Placed(o.q, b, s), FirstBeyond(o.q, b, s.End()), st);
  }

  /** Every queued payload is the stream at its sequence range. */
  lemma InsertCarries(o: Ofo, sh: Shape, s: Seg, co: Coalescer, st: Stream)
    requires Workable(o.q, sh, s, co) && o.last == |o.q| - 1
    requires AllCarry(o.q, st) && Carries(s, st)
    ensures AllCarry(Insert(o, sh, s, co).q, st)
  {
    DecideIsSound(o.q, o.last, sh, s, co);
    ApplyCarries(o, s, co, Decide(o.q, o.last, sh, s, co), st);
  }

  // ---- Segment boundaries ----

  /** Every segment of q lies in lo..hi. */
  ghost predicate Within(q: seq<Seg>, lo: int, hi: int) {
    forall i :: 0 <= i < |q| ==> lo <= q[i].start && q[i].End() <= hi
  }

  lemma SpliceWithin(q: seq<Seg>, a: nat, x: Seg, j: nat, lo: int, hi: int)
    requires a <= j <= |q| && Within(q, lo, hi) && lo <= x.start && x.End() <= hi
    ensures Within(Splice(q, a, x, j), lo, hi)
  {
  }

  lemma ApplyWithin(o: Ofo, s: Seg, co: Coalescer, v: Verdict, lo: int, hi: int)
    requires Sound(o.q, s, co, v) && Applicable(o.q, s, v) && |s.data| > 0
    requires Within(o.q, lo, hi) && lo <= s.start && s.End() <= hi
    ensures Within(Apply(o, s, v).q, lo, hi)
  {
    match v
    case Drop =>
    case Merge(i, p) => assert p.End() <= s.End();
    case Place(a, b) =>
      PlacedFits(o.q, b, s);
      SpliceWithin(o.q, a, Placed(o.q, b, s), FirstBeyond(o.q, b, s.End()), lo, hi);
  }

  lemma InsertWithin(o: Ofo, sh: Shape, s: Seg, co: Coalescer, lo: int, hi: int)
    requires Workable(o.q, sh, s, co) && o.last == |o.q| - 1
    requires Within(o.q, lo, hi) && lo <= s.start && s.End() <= hi
    ensures Within(Insert(o, sh, s, co).q, lo, hi)
  {
    DecideIsSound(o.q, o.last, sh, s, co);
    ApplyWithin(o, s, co, Decide(o.q, o.last, sh, s, co), lo, hi);
  }

  /** Both ends of every segment are cut points. */
  ghost predicate OnCuts(q: seq<Seg>, cuts: set<int>) {
    forall i :: 0 <= i < |q| ==> q[i].start in cuts && q[i].End() in cuts
  }

  lemma SpliceOnCuts(q: seq<Seg>, a: nat, x: Seg, j: nat, cuts: set<int>)
    requires a <= j <= |q| && OnCuts(q, cuts) && x.start in cuts && x.End() in cuts
    ensures OnCuts(Splice(q, a, x, j), cuts)
  {
  }

  lemma CellPlacesWhole(q: seq<Seg>, b: nat, s: Seg)
    requires b <= |q| && Cell(q, s) && |s.data| > 0
    requires forall k :: b <= k < |q| ==> s.start < q[k].start
    ensures Placed(q, b, s) == s
  {
    var j := FirstBeyond(q, b, s.End());
    assert j < |q| ==> !(s.start < q[j].start < s.End());
  }

  lemma ApplyOnCuts(o: Ofo, s: Seg, co: Coalescer, v: Verdict, cuts: set<int>)
    requires Sound(o.q, s, co, v) && Applicable(o.q, s, v) && |s.data| > 0 && Cell(o.q, s)
    requires OnCuts(o.q, cuts) && s.start in cuts && s.End() in cuts
    ensures OnCuts(Apply(o, s, v).q, cuts)
  {
    match v
    case Drop =>
    case Merge(i, p) => assert p.End() == s.End();
    case Place(a, b) =>
      CellPlacesWhole(o.q, b, s);
      SpliceOnCuts(o.q, a, s, FirstBeyond(o.q, b, s.End()), cuts);
  }

  /** When no queued boundary lies inside the arrival, nothing is ever trimmed: the
      boundaries in the queue stay among the old ones and the arrival's own. */
  lemma InsertOnCuts(o: Ofo, sh: Shape, s: Seg, co: Coalescer, cuts: set<int>)
    requires Workable(o.q, sh, s, co) && Cell(o.q, s) && o.last == |o.q| - 1
    requires OnCuts(o.q, cuts) && s.start in cuts && s.End() in cuts
    ensures OnCuts(Insert(o, sh, s, co).q, cuts)
  {
    DecideIsSound(o.q, o.last, sh, s, co);
    ApplyOnCuts(o, s, co, Decide(o.q, o.last, sh, s, co), cuts);
  }
}
