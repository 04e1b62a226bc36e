/** The transmit ring of the Bluetooth virtual device: one producer, one consumer, and
    separate steps for the full or empty test, the slot access and the index advance. */
module Ring {
  import Window

  /** A pointer to a packet. */
  type Item = nat

  /** Where the producer stands: idle; past the full test; slot written. */
  datatype Producer = Idle | Admitted(x: Item) | Stored(x: Item)

  /** Where the consumer stands: idle; past the empty test; slot read. */
  datatype Consumer = Waiting | Ready | Fetched(y: Item)

  /** The ring, both sides' positions, and what has gone in and come out so far. */
  datatype State = State(size: nat, head: nat, tail: nat, data: seq<Item>,
                         p: Producer, c: Consumer, made: seq<Item>, taken: seq<Item>)

  predicate IsFull(s: State)
    requires s.size > 0
  {
    (s.head + 1) % s.size == s.tail
  }

  predicate IsEmpty(s: State) {
    s.head == s.tail
  }

  /** One atomic step of either side. A consumer whose buffer is too small gives up
      after fetching. */
  datatype Step = Offer(x: Item) | Store | Publish | Poll | Fetch | Release | GiveUp

  predicate Enabled(s: State, e: Step) {
    match e
    case Offer(_) => s.p.Idle?
    case Store => s.p.Admitted?
    case Publish => s.p.Stored?
    case Poll => s.c.Waiting?
    case Fetch => s.c.Ready?
    case Release => s.c.Fetched?
    case GiveUp => s.c.Fetched?
  }

  predicate Shaped(s: State) {
    s.size > 0 && |s.data| == s.size && s.head < s.size && s.tail < s.size
  }

  function Next(s: State, e: Step): State
    requires Shaped(s) && Enabled(s, e)
  {
    match e
    case Offer(x) => if IsFull(s) then s else s.(p := Admitted(x))
    case Store => s.(data := s.data[s.head := s.p.x], p := Stored(s.p.x))
    case Publish => s.(head := (s.head + 1) % s.size, p := Idle, made := s.made + [s.p.x])
    case Poll => if IsEmpty(s) then s else s.(c := Ready)
    case Fetch => s.(c := Fetched(s.data[s.tail]))
    case Release => s.(tail := (s.tail + 1) % s.size, c := Waiting, taken := s.taken + [s.c.y])
    case GiveUp => s.(c := Waiting)
  }

  // ---- The invariant ----

  /** The k-th item ever made lies in slot k modulo the size. */
  function Slot(k: nat, size: nat): (i: nat)
    requires size > 0
    ensures i < size
  {
    k - Window.Units(k, size) * size
  }

  /** Every item made but not taken is still in its slot. */
  ghost predicate Kept(s: State)
    requires Shaped(s)
  {
    forall k {:trigger s.made[k]} :: |s.taken| <= k < |s.made| ==> s.data[Slot(k, s.size)] == s.made[k]
  }

  ghost predicate Inv(s: State) {
    && Shaped(s)
    && s.head == Slot(|s.made|, s.size) && s.tail == Slot(|s.taken|, s.size)
    && |s.taken| <= |s.made| <= |s.taken| + s.size - 1
    && s.taken == s.made[..|s.taken|]
    && Kept(s)
    && (s.p != Idle ==> |s.made| < |s.taken| + s.size - 1)
    && (s.p.Stored? ==> s.data[s.head] == s.p.x)
    && (s.c != Waiting ==> |s.taken| < |s.made|)
    && (s.c.Fetched? ==> s.c.y == s.made[|s.taken|])
  }

  lemma SlotIs(k: nat, size: nat, q: nat, r: nat)
    requires size > 0 && k == q * size + r && r < size
    ensures Slot(k, size) == r
  {
    var u := Window.Units(k, size);
    Window.Dichotomy(u, q, size);
    Window.Dichotomy(q, u, size);
    assert (q + 1) * size == q * size + size && (u + 1) * size == u * size + size;
  }

  /** A short way on from an item, its slot moves as far, around the end once at most. */
  lemma SlotPlus(k: nat, d: nat, size: nat)
    requires size > 0 && d < size
    ensures Slot(k + d, size) == if Slot(k, size) + d < size then Slot(k, size) + d else Slot(k, size) + d - size
  {
    var u, r := Window.Units(k, size), Slot(k, size);
    assert (u + 1) * size == u * size + size;
    if r + d < size {
      SlotIs(k + d, size, u, r + d);
    } else {
      SlotIs(k + d, size, u + 1, r + d - size);
    }
  }

  lemma Bump(r: nat, size: nat)
    requires r < size
    ensures (r + 1) % size == if r + 1 < size then r + 1 else 0
  {
  }

  lemma SlotSucc(k: nat, size: nat)
    requires size > 0
    ensures Slot(k + 1, size) == (Slot(k, size) + 1) % size
  {
    Bump(Slot(k, size), size);
    if size > 1 {
      SlotPlus(k, 1, size);
    }
  }

  /** Different items less than a lap apart have different slots. */
  lemma SlotsDiffer(j: nat, k: nat, size: nat)
    requires size > 0 && j < k < j + size
    ensures Slot(j, size) != Slot(k, size)
  {
    var u, v := Window.Units(j, size), Window.Units(k, size);
    Window.Dichotomy(v, u, size);
    Window.Dichotomy(u + 1, v, size);
    assert (u + 1) * size == u * size + size;
  }

  /** The ring is full exactly at size - 1 items, empty exactly at none. */
  lemma TestsAreExact(s: State)
    requires Inv(s)
    ensures IsFull(s) <==> |s.made| - |s.taken| == s.size - 1
    ensures IsEmpty(s) <==> |s.made| == |s.taken|
  {
    SlotSucc(|s.made|, s.size);
    if |s.made| > |s.taken| {
      SlotsDiffer(|s.taken|, |s.made|, s.size);
    }
    if |s.made| + 1 == |s.taken| + s.size {
      LapSame(|s.taken|, s.size);
    } else if s.size > 1 {
      SlotsDiffer(|s.taken|, |s.made| + 1, s.size);
    }
  }

  lemma LapSame(k: nat, size: nat)
    requires size > 0
    ensures Slot(k + size, size) == Slot(k, size)
  {
    var u := Window.Units(k, size);
    assert (u + 1) * size == u * size + size;
    SlotIs(k + size, size, u + 1, Slot(k, size));
  }

  /** The slot write overwrites no item that is still to be read. */
  lemma StoreOverwritesNothing(s: State)
    requires Inv(s) && s.p.Admitted?
    ensures forall k :: |s.taken| <= k < |s.made| ==> Slot(k, s.size) != s.head
  {
    forall k | |s.taken| <= k < |s.made| ensures Slot(k, s.size) != s.head {
      SlotsDiffer(k, |s.made|, s.size);
    }
  }

  lemma PublishKeeps(s: State)
    requires Inv(s) && s.p.Stored?
    ensures Inv(Next(s, Publish))
  {
    SlotSucc(|s.made|, s.size);
    var s' := Next(s, Publish);
    forall k | |s'.taken| <= k < |s'.made| ensures s'.data[Slot(k, s.size)] == s'.made[k] {
      if k < |s.made| { assert s.data[Slot(k, s.size)] == s.made[k]; }
    }
  }

  lemma ReleaseKeeps(s: State)
    requires Inv(s) && s.c.Fetched?
    ensures Inv(Next(s, Release))
  {
    SlotSucc(|s.taken|, s.size);
  }

  lemma StoreKeeps(s: State)
    requires Inv(s) && s.p.Admitted?
    ensures Inv(Next(s, Store))
  {
    StoreOverwritesNothing(s);
    var s' := Next(s, Store);
    forall k | |s'.taken| <= k < |s'.made| ensures s'.data[Slot(k, s.size)] == s'.made[k] {
      assert s.data[Slot(k, s.size)] == s.made[k];
    }
  }

  lemma StepKeeps(s: State, e: Step)
    requires Inv(s) && Enabled(s, e)
    ensures Inv(Next(s, e))
  {
    match e
    case Offer(x) => TestsAreExact(s);
    case Store => StoreKeeps(s);
    case Publish => PublishKeeps(s);
    case Poll => TestsAreExact(s);
    case Fetch =>
    case Release => ReleaseKeeps(s);
    case GiveUp =>
  }

  // ---- Interleavings ----

  ghost predicate AllEnabled(s: State, es: seq<Step>)
    requires Inv(s)
    decreases |es|
  {
    es == [] || (Enabled(s, es[0]) && (StepKeeps(s, es[0]); AllEnabled(Next(s, es[0]), es[1..])))
  }

  ghost function Run(s: State, es: seq<Step>): State
    requires Inv(s) && AllEnabled(s, es)
    decreases |es|
  {
    if es == [] then s
    else
      StepKeeps(s, es[0]);
      Run(Next(s, es[0]), es[1..])
  }

  /** bt_virnet_get_ring_packets. */
  const BT_RING_BUFFER_SIZE: nat := 4096

  function RingPackets(head: nat, tail: nat): int {
    if head - tail < 0 then head - tail + BT_RING_BUFFER_SIZE else head - tail
  }

  function Fresh(size: nat, data: seq<Item>): State {
    State(size, 0, 0, data, Idle, Waiting, [], [])
  }

  /** Every ring starts in order. */
  lemma FreshInv(size: nat, data: seq<Item>)
    requires size > 0 && |data| == size
    ensures Inv(Fresh(size, data))
  {
    SlotIs(0, size, 0, 0);
  }

  /** The distance between the indices is the number of items held. */
  lemma IndexDistance(s: State)
    requires Inv(s)
    ensures |s.made| - |s.taken| == if s.head < s.tail then s.head - s.tail + s.size else s.head - s.tail
  {
    SlotPlus(|s.taken|, |s.made| - |s.taken|, s.size);
  }

  /** Under every interleaving of the two sides' steps: what came out is a prefix of what
      went in, every unread item is intact, at most size - 1 are held, and for the size
      the driver uses the reported packet count is the number held. */
  lemma {:induction false} RunIsFifo(s: State, es: seq<Step>)
    requires Inv(s) && AllEnabled(s, es)
    ensures var s' := Run(s, es);
            && Inv(s')
            && s'.taken <= s'.made && |s'.made| - |s'.taken| <= s'.size - 1
            && (s'.size == BT_RING_BUFFER_SIZE ==> RingPackets(s'.head, s'.tail) == |s'.made| - |s'.taken|)
    decreases |es|
  {
    if es == [] {
      IndexDistance(s);
    } else {
      StepKeeps(s, es[0]);
      RunIsFifo(Next(s, es[0]), es[1..]);
    }
  }

  /** From a fresh ring on, whatever the interleaving, the items come out in the order
      they went in. */
  lemma FifoFromStart(size: nat, data: seq<Item>, es: seq<Step>)
    requires size > 0 && |data| == size
    ensures Inv(Fresh(size, data))
    ensures AllEnabled(Fresh(size, data), es) ==>
            var s' := Run(Fresh(size, data), es); s'.taken <= s'.made && |s'.made| - |s'.taken| <= s'.size - 1
  {
    FreshInv(size, data);
    if AllEnabled(Fresh(size, data), es) { RunIsFifo(Fresh(size, data), es); }
  }

  /** The count is right for no other size once the indices have wrapped. */
  lemma PacketsOnlyForThatSize(s: State)
    requires Inv(s) && s.head < s.tail
    ensures RingPackets(s.head, s.tail) == |s.made| - |s.taken| <==> s.size == BT_RING_BUFFER_SIZE
  {
    IndexDistance(s);
  }

  // ---- The driver's functions ----

  /** struct bt_ring. */
  class BtRing {
    var head: nat
    var tail: nat
    const size: nat
    const data: array<Item>

    /** The items ever produced and consumed. */
    ghost var made: seq<Item>
    ghost var taken: seq<Item>

    /** The ring between operations, as a state with both sides at rest. */
    ghost function View(): State
      reads this, data
    {
      State(size, head, tail, data[..], Idle, Waiting, made, taken)
    }

    constructor (size: nat)
      requires size > 0
      ensures Inv(View()) && fresh(data) && this.size == size && made == [] && taken == []
    {
      head, tail := 0, 0;
      this.size := size;
      var d := new Item[size](i => 0);
      data := d;
      made, taken := [], [];
      new;
      FreshInv(size, data[..]);
    }

    /** bt_virnet_produce_data: refuses when the ring is full. */
    method Produce(x: Item) returns (ok: bool)
      requires Inv(View())
      modifies this`head, this`made, data
      ensures Inv(View())
      ensures ok <==> |old(made)| - |old(taken)| < size - 1
      ensures made == (if ok then old(made) + [x] else old(made)) && taken == old(taken)
    {
      TestsAreExact(View());
      ok := (head + 1) % size != tail;
      if ok {
        ghost var s1 := Next(View(), Offer(x));
        StepKeeps(View(), Offer(x));
        StepKeeps(s1, Store);
        StepKeeps(Next(s1, Store), Publish);
        data[head] := x;
        head := (head + 1) % size;
        made := made + [x];
        assert View() == Next(Next(s1, Store), Publish);
      }
    }

    /** bt_ring_current and bt_ring_consume behind the empty test: the oldest item. */
    method Take() returns (ok: bool, y: Item)
      requires Inv(View())
      modifies this`tail, this`taken
      ensures Inv(View())
      ensures ok <==> |old(taken)| < |old(made)|
      ensures ok ==> y == made[|old(taken)|] && taken == old(taken) + [y]
      ensures !ok ==> taken == old(taken)
    {
      TestsAreExact(View());
      ok, y := head != tail, 0;
      if ok {
        ghost var s1 := Next(View(), Poll);
        StepKeeps(View(), Poll);
        StepKeeps(s1, Fetch);
        StepKeeps(Next(s1, Fetch), Release);
        y := data[tail];
        tail := (tail + 1) % size;
        taken := taken + [y];
        assert View() == Next(Next(s1, Fetch), Release);
      }
    }

    /** bt_virnet_get_ring_packets. */
    method Packets() returns (n: int)
      requires Inv(View()) && size == BT_RING_BUFFER_SIZE
      ensures n == |made| - |taken|
    {
      IndexDistance(View());
      n := head - tail;
      if n < 0 {
        n := n + BT_RING_BUFFER_SIZE;
      }
    }
  }
}
