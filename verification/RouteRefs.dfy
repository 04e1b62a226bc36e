/** Reference counts of routes and of per-device state: every count equals the number of
    places that refer to the object, over every run. */
module RouteRefs {

  const NONE: int := -1

  /** struct nip_rt_info: the dst count; who refers to it and whom it refers to. `fib`: a
      table holds it; `pending`: it was unlinked and the RCU callback has not run; `ifa`:
      the device of the address that owns it; `from`, `slot`: for a per-CPU copy, its
      route and the CPU whose slot holds it; `pcpu`: it still has per-CPU slots;
      `found`: a table has held it; `holders`: everybody else. */
  datatype Rt = Rt(count: int, fib: bool, pending: bool, ifa: int, idev: int, from: int, slot: int,
                   pcpu: bool, found: bool, holders: nat)

  /** struct ninet_dev. */
  datatype Dev = Dev(count: int, registered: bool)

  /** What has not been freed; `lo` names the loopback device. */
  datatype State = State(routes: map<int, Rt>, devs: map<int, Dev>, lo: int, cpus: nat)

  function B(b: bool): nat {
    if b then 1 else 0
  }

  // ---- The ledger ----

  /** The per-CPU copies that point back at x. */
  function Copies(m: map<int, Rt>, x: int): set<int> {
    set c | c in m && m[c].from == x
  }

  /** The routes, and the addresses, that name device d. */
  function Naming(m: map<int, Rt>, d: int): set<int> {
    set r | r in m && m[r].idev == d
  }

  function Addrs(m: map<int, Rt>, d: int): set<int> {
    set r | r in m && m[r].ifa == d
  }

  /** How many places refer to route x. */
  function Refs(m: map<int, Rt>, x: int): nat
    requires x in m
  {
    B(m[x].fib) + B(m[x].pending) + B(m[x].ifa != NONE) + B(m[x].slot != NONE) + m[x].holders + |Copies(m, x)|
  }

  /** How many places refer to device d. */
  function DevRefs(s: State, d: int): nat
    requires d in s.devs
  {
    B(s.devs[d].registered) + |Naming(s.routes, d)| + |Addrs(s.routes, d)|
  }

  /** A copy belongs to a route that is no copy; its slot is one of that route's, alone
      there, and only while the route is in a table or about to be cleaned up. */
  predicate CopyFits(m: map<int, Rt>, c: int)
    requires c in m
  {
    var r := m[c];
    if r.from == NONE then r.slot == NONE
    else
      && r.from in m && m[r.from].from == NONE
      && !r.fib && !r.pending && r.ifa == NONE && !r.pcpu
      && (r.slot != NONE ==> (m[r.from].fib || m[r.from].pending) && m[r.from].pcpu)
  }

  ghost predicate SlotsAlone(m: map<int, Rt>) {
    forall c, e :: c in m && e in m && m[c].slot != NONE && m[c].slot == m[e].slot && m[c].from == m[e].from ==> c == e
  }

  /** A route in a table has been found there; once found, it has slots only until it is
      cleaned up. Slots belong to CPUs. */
  predicate TableFits(r: Rt, cpus: nat) {
    && (r.fib || r.pending ==> r.found && r.pcpu) && (r.found && r.pcpu ==> r.fib || r.pending)
    && (r.slot != NONE ==> 0 <= r.slot < cpus)
  }

  predicate RouteFits(s: State, x: int)
    requires x in s.routes
  {
    var r := s.routes[x];
    && x != NONE && r.count > 0 && r.count == Refs(s.routes, x)
    && r.idev in s.devs && r.idev != NONE && (r.ifa != NONE ==> r.ifa in s.devs)
    && !(r.fib && r.pending) && CopyFits(s.routes, x) && TableFits(r, s.cpus)
  }

  predicate DevFits(s: State, d: int)
    requires d in s.devs
  {
    s.devs[d].count > 0 && s.devs[d].count == DevRefs(s, d)
  }

  /** Every count is the number of references, everything referred to is still there,
      and whatever is there is referred to. */
  ghost predicate Ledger(s: State) {
    && (forall x :: x in s.routes ==> RouteFits(s, x))
    && (forall d :: d in s.devs ==> DevFits(s, d))
    && SlotsAlone(s.routes) && NONE !in s.devs && s.lo != NONE
  }

  // ---- Counts ----

  /** Only x differs between the maps. */
  ghost predicate OnlyAt(m: map<int, Rt>, m': map<int, Rt>, x: int) {
    forall y :: y != x ==> (y in m <==> y in m') && (y in m ==> m'[y] == m[y])
  }

  lemma Without(a: set<int>, x: int)
    ensures |a| == |a - {x}| + B(x in a)
  {
    if x in a { assert a == (a - {x}) + {x}; } else { assert a == a - {x}; }
  }

  lemma CopiesAt(m: map<int, Rt>, m': map<int, Rt>, x: int, y: int)
    requires OnlyAt(m, m', x)
    ensures |Copies(m', y)| == |Copies(m, y)| - B(x in m && m[x].from == y) + B(x in m' && m'[x].from == y)
  {
    var a, b := Copies(m, y), Copies(m', y);
    forall z | z != x ensures z in a <==> z in b {
      assert z in m <==> z in m';
    }
    assert a - {x} == b - {x};
    Without(a, x);
    Without(b, x);
  }

  lemma NamingAt(m: map<int, Rt>, m': map<int, Rt>, x: int, d: int)
    requires OnlyAt(m, m', x)
    ensures |Naming(m', d)| == |Naming(m, d)| - B(x in m && m[x].idev == d) + B(x in m' && m'[x].idev == d)
  {
    var a, b := Naming(m, d), Naming(m', d);
    forall z | z != x ensures z in a <==> z in b {
      assert z in m <==> z in m';
    }
    assert a - {x} == b - {x};
    Without(a, x);
    Without(b, x);
  }

  lemma AddrsAt(m: map<int, Rt>, m': map<int, Rt>, x: int, d: int)
    requires OnlyAt(m, m', x)
    ensures |Addrs(m', d)| == |Addrs(m, d)| - B(x in m && m[x].ifa == d) + B(x in m' && m'[x].ifa == d)
  {
    var a, b := Addrs(m, d), Addrs(m', d);
    forall z | z != x ensures z in a <==> z in b {
      assert z in m <==> z in m';
    }
    assert a - {x} == b - {x};
    Without(a, x);
    Without(b, x);
  }

  // ---- Devices ----

  /** How often route x names device d, as its own or as its address's. */
  function Uses(m: map<int, Rt>, x: int, d: int): int {
    if x in m then B(m[x].idev == d) + B(m[x].ifa == d) else 0
  }

  /** nin_dev_put, freeing the device with its last reference. */
  function DevPut(devs: map<int, Dev>, d: int): map<int, Dev> {
    if d !in devs then devs
    else if devs[d].count == 1 then devs - {d}
    else devs[d := devs[d].(count := devs[d].count - 1)]
  }

  /** nin_dev_hold. */
  function DevHold(devs: map<int, Dev>, d: int): map<int, Dev> {
    if d !in devs then devs else devs[d := devs[d].(count := devs[d].count + 1)]
  }

  /** The device counts follow what x now names. */
  ghost predicate Settled(s: State, s': State, x: int) {
    && (forall d :: d in s'.devs ==> d in s.devs)
    && forall d :: d in s.devs ==>
         var n := s.devs[d].count - Uses(s.routes, x, d) + Uses(s'.routes, x, d);
         if n > 0 then d in s'.devs && s'.devs[d] == s.devs[d].(count := n) else d !in s'.devs
  }

  lemma DevsKeep(s: State, s': State, x: int, d: int)
    requires Ledger(s) && OnlyAt(s.routes, s'.routes, x) && Settled(s, s', x) && d in s.devs
    ensures d in s'.devs ==> DevFits(s', d)
    ensures d !in s'.devs ==> Naming(s'.routes, d) == {} && Addrs(s'.routes, d) == {}
  {
    hide RouteFits, SlotsAlone, CopyFits, Naming, Addrs;
    assert DevFits(s, d);
    NamingAt(s.routes, s'.routes, x, d);
    AddrsAt(s.routes, s'.routes, x, d);
  }

  // ---- One route changes ----

  /** What has to hold of the changed route itself. */
  predicate SelfFits(m: map<int, Rt>, devs: map<int, Dev>, cpus: nat, x: int) {
    x in m ==>
      var r := m[x];
      && x != NONE && r.count > 0 && r.count == Refs(m, x)
      && r.idev != NONE && r.idev in devs && (r.ifa != NONE ==> r.ifa in devs)
      && !(r.fib && r.pending) && CopyFits(m, x) && TableFits(r, cpus)
  }

  /** The other routes still fit: none has lost or gained x as a copy, and its own copies
      have what they need. */
  ghost predicate OthersFit(m: map<int, Rt>, m': map<int, Rt>, x: int) {
    && (x in m && m[x].from != NONE ==> x in m' && m'[x].from == m[x].from)
    && (x in m' && m'[x].from != NONE ==> x in m && m[x].from == m'[x].from)
    && (forall c :: c in m && m[c].from == x && c != x ==>
          && x in m' && m'[x].from == NONE
          && (m[c].slot != NONE ==> (m'[x].fib || m'[x].pending) && m'[x].pcpu))
  }

  /** A change to one route keeps the ledger when its own count and the devices' follow. */
  lemma ChangeKeeps(s: State, s': State, x: int)
    requires Ledger(s) && OnlyAt(s.routes, s'.routes, x) && Settled(s, s', x)
    requires s'.lo == s.lo && s'.cpus == s.cpus && SelfFits(s'.routes, s'.devs, s.cpus, x) && OthersFit(s.routes, s'.routes, x) && SlotsAlone(s'.routes)
    ensures Ledger(s')
  {
    hide SlotsAlone, Settled, Naming, Addrs, Copies, DevFits;
    SettledDevs(s, s', x);
    forall d | d in s'.devs ensures DevFits(s', d) {
      DevsKeep(s, s', x, d);
    }
    forall y | y in s'.routes ensures RouteFits(s', y) {
      if y != x {
        assert RouteFits(s, y);
        CopiesAt(s.routes, s'.routes, x, y);
        StillThere(s, s', x, y);
      }
    }
  }

  lemma SettledDevs(s: State, s': State, x: int)
    requires Settled(s, s', x)
    ensures forall d :: d in s'.devs ==> d in s.devs
  {
  }

  lemma StillThere(s: State, s': State, x: int, y: int)
    requires Ledger(s) && OnlyAt(s.routes, s'.routes, x) && Settled(s, s', x) && y in s.routes && y != x
    ensures y in s'.routes && s'.routes[y] == s.routes[y]
    ensures s.routes[y].idev in s'.devs && (s.routes[y].ifa != NONE ==> s.routes[y].ifa in s'.devs)
  {
    hide SlotsAlone, Settled, CopyFits, DevFits;
    assert RouteFits(s, y);
    DevsKeep(s, s', x, s.routes[y].idev);
    assert y in Naming(s'.routes, s.routes[y].idev);
    if s.routes[y].ifa != NONE {
      DevsKeep(s, s', x, s.routes[y].ifa);
      assert y in Addrs(s'.routes, s.routes[y].ifa);
    }
  }

  /** Changes that move a reference from one place to another, or add one with its count,
      and leave the devices and the copies alone. */
  ghost predicate Moved(m: map<int, Rt>, x: int, v: Rt) {
    && x in m && v.from == m[x].from && v.idev == m[x].idev && v.ifa == m[x].ifa
    && v.count - B(v.fib) - B(v.pending) - B(v.slot != NONE) - v.holders ==
       m[x].count - B(m[x].fib) - B(m[x].pending) - B(m[x].slot != NONE) - m[x].holders
    && v.count > 0 && !(v.fib && v.pending)
    && (v.from == NONE ==> v.slot == NONE)
    && (v.from != NONE ==> !v.fib && !v.pending && v.pcpu == m[x].pcpu)
  }

  /** Copies in slots of x keep x in a table or about to be cleaned up. */
  ghost predicate Slotless(m: map<int, Rt>, x: int) {
    forall c :: c in m && m[c].from == x ==> m[c].slot == NONE
  }

  lemma SameDevs(s: State, x: int, v: Rt)
    requires Ledger(s) && x in s.routes && v.idev == s.routes[x].idev && v.ifa == s.routes[x].ifa
    ensures Settled(s, s.(routes := s.routes[x := v]), x)
  {
    hide RouteFits, SlotsAlone;
    forall d | d in s.devs ensures s.devs[d].count > 0 {
      assert DevFits(s, d);
    }
  }

  lemma MovedKeeps(s: State, x: int, v: Rt)
    requires Ledger(s) && Moved(s.routes, x, v) && v.slot == s.routes[x].slot && TableFits(v, s.cpus)
    requires ((v.fib || v.pending) && v.pcpu) || Slotless(s.routes, x)
    ensures Ledger(s.(routes := s.routes[x := v]))
  {
    hide DevFits, Settled, Naming, Addrs, Copies;
    var m, m' := s.routes, s.routes[x := v];
    SameDevs(s, x, v);
    assert RouteFits(s, x);
    CopiesAt(m, m', x, x);
    ChildrenAreBase(s, x);
    ChangeKeeps(s, s.(routes := m'), x);
  }

  lemma ChildrenAreBase(s: State, x: int)
    requires Ledger(s) && x in s.routes
    ensures forall c :: c in s.routes && s.routes[c].from == x ==> s.routes[x].from == NONE && c != x
  {
    hide DevFits, SlotsAlone, Copies;
    forall c | c in s.routes && s.routes[c].from == x ensures s.routes[x].from == NONE && c != x {
      assert RouteFits(s, c) && RouteFits(s, x);
    }
  }

  /** dst_hold. */
  function Hold(s: State, x: int): State
    requires x in s.routes
  {
    var r := s.routes[x];
    s.(routes := s.routes[x := r.(count := r.count + 1, holders := r.holders + 1)])
  }

  lemma HoldKeeps(s: State, x: int)
    requires Ledger(s) && x in s.routes
    ensures Ledger(Hold(s, x))
  {
    hide DevFits, Copies, OnlyAt;
    assert RouteFits(s, x);
    SlotlessOr(s, x);
    var r := s.routes[x];
    MovedKeeps(s, x, r.(count := r.count + 1, holders := r.holders + 1));
  }

  lemma SlotlessOr(s: State, x: int)
    requires Ledger(s) && x in s.routes
    ensures ((s.routes[x].fib || s.routes[x].pending) && s.routes[x].pcpu) || Slotless(s.routes, x)
  {
    hide DevFits, SlotsAlone, Copies;
    forall c | c in s.routes && s.routes[c].from == x
      ensures s.routes[c].slot != NONE ==> (s.routes[x].fib || s.routes[x].pending) && s.routes[x].pcpu
    {
      assert RouteFits(s, c);
    }
  }

  /** nip_fib_add has linked the route: a holder's reference becomes the table's. */
  function Link(s: State, x: int): State
    requires x in s.routes && s.routes[x].holders > 0
  {
    var r := s.routes[x];
    s.(routes := s.routes[x := r.(fib := true, found := true, holders := r.holders - 1)])
  }

  lemma LinkKeeps(s: State, x: int)
    requires Ledger(s) && x in s.routes && s.routes[x].holders > 0
    requires s.routes[x].from == NONE && !s.routes[x].fib && !s.routes[x].pending && s.routes[x].pcpu
    ensures Ledger(Link(s, x))
  {
    hide DevFits, Copies, OnlyAt, SlotsAlone;
    assert RouteFits(s, x);
    var r := s.routes[x];
    MovedKeeps(s, x, r.(fib := true, found := true, holders := r.holders - 1));
  }

  /** nip_fib_del: unlinked, the table's reference waits for the RCU callback. */
  function Unlink(s: State, x: int): State
    requires x in s.routes
  {
    s.(routes := s.routes[x := s.routes[x].(fib := false, pending := true)])
  }

  lemma UnlinkKeeps(s: State, x: int)
    requires Ledger(s) && x in s.routes && s.routes[x].fib
    ensures Ledger(Unlink(s, x))
  {
    hide DevFits, Copies, OnlyAt, SlotsAlone;
    assert RouteFits(s, x);
    SlotlessOr(s, x);
    MovedKeeps(s, x, s.routes[x].(fib := false, pending := true));
  }

  /** The end of nip_rt_release: the per-CPU slots are freed, and the table's reference
      is the callback's to drop. */
  function EndPending(s: State, x: int): State
    requires x in s.routes
  {
    var r := s.routes[x];
    s.(routes := s.routes[x := r.(pending := false, pcpu := false, holders := r.holders + 1)])
  }

  lemma EndPendingKeeps(s: State, x: int)
    requires Ledger(s) && x in s.routes && s.routes[x].pending && Slotless(s.routes, x)
    ensures Ledger(EndPending(s, x))
  {
    hide DevFits, Copies, OnlyAt, SlotsAlone;
    assert RouteFits(s, x);
    var r := s.routes[x];
    MovedKeeps(s, x, r.(pending := false, pcpu := false, holders := r.holders + 1));
  }

  /** dst_release, when it is not the last reference. */
  function Drop(s: State, x: int): State
    requires x in s.routes && s.routes[x].holders > 0
  {
    var r := s.routes[x];
    s.(routes := s.routes[x := r.(count := r.count - 1, holders := r.holders - 1)])
  }

  lemma DropKeeps(s: State, x: int)
    requires Ledger(s) && x in s.routes && s.routes[x].holders > 0 && s.routes[x].count > 1
    ensures Ledger(Drop(s, x))
  {
    hide DevFits, Copies, OnlyAt, SlotsAlone;
    assert RouteFits(s, x);
    SlotlessOr(s, x);
    var r := s.routes[x];
    MovedKeeps(s, x, r.(count := r.count - 1, holders := r.holders - 1));
  }

  // ---- Slots ----

  ghost predicate SlotFree(m: map<int, Rt>, x: int, cpu: int) {
    forall c :: c in m && m[c].from == x ==> m[c].slot != cpu
  }

  /** Route x still has slots, and the one of this CPU is empty. */
  ghost predicate CanSlot(m: map<int, Rt>, x: int, cpu: int) {
    x != NONE && x in m && (m[x].fib || m[x].pending) && m[x].pcpu && SlotFree(m, x, cpu)
  }

  /** cmpxchg on an empty slot: the copy's first reference becomes the slot's. */
  function ToSlot(s: State, c: int, cpu: int): State
    requires c in s.routes && s.routes[c].holders > 0
  {
    var r := s.routes[c];
    s.(routes := s.routes[c := r.(slot := cpu, holders := r.holders - 1)])
  }

  lemma ToSlotKeeps(s: State, c: int, cpu: int)
    requires Ledger(s) && c in s.routes && s.routes[c].holders > 0 && s.routes[c].slot == NONE && 0 <= cpu < s.cpus
    requires CanSlot(s.routes, s.routes[c].from, cpu)
    ensures Ledger(ToSlot(s, c, cpu))
  {
    hide DevFits, Settled, Naming, Addrs, Copies;
    var r := s.routes[c];
    var v := r.(slot := cpu, holders := r.holders - 1);
    var m, m' := s.routes, s.routes[c := v];
    SameDevs(s, c, v);
    assert RouteFits(s, c);
    CopiesAt(m, m', c, c);
    ChildrenAreBase(s, c);
    ChangeKeeps(s, s.(routes := m'), c);
  }

  /** A slot is emptied: its reference is the caller's to drop. */
  function FromSlot(s: State, c: int): State
    requires c in s.routes
  {
    var r := s.routes[c];
    s.(routes := s.routes[c := r.(slot := NONE, holders := r.holders + 1)])
  }

  lemma FromSlotKeeps(s: State, c: int)
    requires Ledger(s) && c in s.routes && s.routes[c].slot != NONE
    ensures Ledger(FromSlot(s, c))
  {
    hide DevFits, Settled, Naming, Addrs, Copies;
    var r := s.routes[c];
    var v := r.(slot := NONE, holders := r.holders + 1);
    var m, m' := s.routes, s.routes[c := v];
    SameDevs(s, c, v);
    assert RouteFits(s, c);
    CopiesAt(m, m', c, c);
    ChildrenAreBase(s, c);
    ChangeKeeps(s, s.(routes := m'), c);
  }

  // ---- Changes that devices see ----

  /** dst_alloc with one reference, and the hold on the device it names. */
  function Create(s: State, x: int, d: int, pcpu: bool): State
    requires x !in s.routes && d in s.devs
  {
    s.(routes := s.routes[x := Rt(1, false, false, NONE, d, NONE, NONE, pcpu, false, 1)], devs := DevHold(s.devs, d))
  }

  lemma CountsPositive(s: State)
    requires Ledger(s)
    ensures forall d :: d in s.devs ==> s.devs[d].count > 0
  {
    hide RouteFits, SlotsAlone;
    forall d | d in s.devs ensures s.devs[d].count > 0 {
      assert DevFits(s, d);
    }
  }

  lemma CreateKeeps(s: State, x: int, d: int, pcpu: bool)
    requires Ledger(s) && x !in s.routes && x != NONE && d in s.devs
    ensures Ledger(Create(s, x, d, pcpu))
  {
    hide DevFits, Naming, Addrs;
    var s' := Create(s, x, d, pcpu);
    CountsPositive(s);
    forall c | c in s'.routes ensures s'.routes[c].from != x {
      if c != x { assert s'.routes[c] == s.routes[c]; }
    }
    assert Copies(s'.routes, x) == {};
    ChangeKeeps(s, s', x);
  }

  /** dst_destroy of a route that nothing refers to any more, with nip_dst_destroy. */
  function Remove(s: State, x: int): State
    requires x in s.routes
  {
    s.(routes := s.routes - {x}, devs := DevPut(s.devs, s.routes[x].idev))
  }

  /** The only reference left is the one being dropped. */
  predicate LastRef(m: map<int, Rt>, x: int) {
    x in m && m[x].holders > 0 && m[x].count == 1
  }

  lemma RemoveKeeps(s: State, x: int)
    requires Ledger(s) && LastRef(s.routes, x) && s.routes[x].from == NONE
    ensures Ledger(Remove(s, x))
  {
    hide DevFits, Naming, Addrs;
    var s' := Remove(s, x);
    CountsPositive(s);
    assert RouteFits(s, x);
    forall c | c in s.routes ensures s.routes[c].from != x {
      assert s.routes[c].from == x ==> c in Copies(s.routes, x);
    }
    ChangeKeeps(s, s', x);
  }

  /** dst_dev_put with nip_dst_ifdown: the route's device reference moves to loopback, if
      that is still registered. */
  function MoveIdev(s: State, x: int): State
    requires x in s.routes
  {
    var d := s.routes[x].idev;
    if d == s.lo || s.lo !in s.devs || !s.devs[s.lo].registered then s
    else s.(routes := s.routes[x := s.routes[x].(idev := s.lo)], devs := DevPut(DevHold(s.devs, s.lo), d))
  }

  lemma MoveIdevKeeps(s: State, x: int)
    requires Ledger(s) && x in s.routes
    ensures Ledger(MoveIdev(s, x))
  {
    hide DevFits, Naming, Addrs, Copies;
    var s' := MoveIdev(s, x);
    CountsPositive(s);
    assert RouteFits(s, x);
    ChildrenAreBase(s, x);
    SlotlessOr(s, x);
    if s' != s {
      CopiesAt(s.routes, s'.routes, x, x);
      AddrStays(s, x);
      ChangeKeeps(s, s', x);
    }
  }

  /** A device that an address and its route both name is named twice. */
  lemma AddrStays(s: State, x: int)
    requires Ledger(s) && x in s.routes
    ensures s.routes[x].ifa != NONE && s.routes[x].ifa == s.routes[x].idev ==> s.devs[s.routes[x].idev].count > 1
  {
    hide SlotsAlone, CopyFits, Copies;
    assert RouteFits(s, x);
    var d := s.routes[x].idev;
    if s.routes[x].ifa == d {
      assert DevFits(s, d);
      assert x in Naming(s.routes, d) && x in Addrs(s.routes, d);
    }
  }

  /** nip_add_addr: the address holds its device and owns the route it was made with. */
  function Own(s: State, x: int, d: int): State
    requires x in s.routes && s.routes[x].holders > 0 && d in s.devs
  {
    var r := s.routes[x];
    s.(routes := s.routes[x := r.(ifa := d, holders := r.holders - 1)], devs := DevHold(s.devs, d))
  }

  lemma OwnKeeps(s: State, x: int, d: int)
    requires Ledger(s) && x in s.routes && s.routes[x].holders > 0 && d in s.devs
    requires s.routes[x].from == NONE && s.routes[x].ifa == NONE
    ensures Ledger(Own(s, x, d))
  {
    hide DevFits, Naming, Addrs, Copies;
    var s' := Own(s, x, d);
    CountsPositive(s);
    assert RouteFits(s, x);
    ChildrenAreBase(s, x);
    SlotlessOr(s, x);
    CopiesAt(s.routes, s'.routes, x, x);
    ChangeKeeps(s, s', x);
  }

  /** ninet_ifa_finish_destroy up to the put of the route: the address lets go of its
      device, and its route reference is its caller's to drop. */
  function Disown(s: State, x: int): State
    requires x in s.routes
  {
    var r := s.routes[x];
    s.(routes := s.routes[x := r.(ifa := NONE, holders := r.holders + 1)], devs := DevPut(s.devs, r.ifa))
  }

  lemma DisownKeeps(s: State, x: int)
    requires Ledger(s) && x in s.routes && s.routes[x].ifa != NONE
    ensures Ledger(Disown(s, x))
  {
    hide DevFits, Naming, Addrs, Copies;
    var s' := Disown(s, x);
    CountsPositive(s);
    assert RouteFits(s, x);
    ChildrenAreBase(s, x);
    SlotlessOr(s, x);
    AddrStays(s, x);
    CopiesAt(s.routes, s'.routes, x, x);
    ChangeKeeps(s, s', x);
  }

  // ---- Copies come and go ----

  /** nip_rt_set_from, nip_dst_destroy: copy c starts or stops counting as a reference to
      x, and x's holders give or take it. */
  ghost predicate Reparented(m: map<int, Rt>, m': map<int, Rt>, c: int, x: int) {
    && c in m && x in m && c != x && m[x].from == NONE && m[c].slot == NONE
    && c in m' && x in m' && m' == m[c := m'[c]][x := m'[x]]
    && m'[c] == m[c].(from := m'[c].from) && m'[x] == m[x].(holders := m'[x].holders)
    && (if m[c].from == x then m'[c].from == NONE && m'[x].holders == m[x].holders + 1
        else m[c].from == NONE && m'[c].from == x && m'[x].holders == m[x].holders - 1)
    && !m[c].fib && !m[c].pending && m[c].ifa == NONE && !m[c].pcpu && Copies(m, c) == {}
  }

  lemma ReparentedCopies(m: map<int, Rt>, m': map<int, Rt>, c: int, x: int, y: int)
    requires Reparented(m, m', c, x)
    ensures |Copies(m', y)| == |Copies(m, y)| - B(m[c].from == y) + B(m'[c].from == y)
  {
    var k := m[c := m'[c]];
    CopiesAt(m, k, c, y);
    CopiesAt(k, m', x, y);
  }

  lemma ReparentedDevs(m: map<int, Rt>, m': map<int, Rt>, c: int, x: int, d: int)
    requires Reparented(m, m', c, x)
    ensures |Naming(m', d)| == |Naming(m, d)| && |Addrs(m', d)| == |Addrs(m, d)|
  {
    var k := m[c := m'[c]];
    NamingAt(m, k, c, d);
    NamingAt(k, m', x, d);
    AddrsAt(m, k, c, d);
    AddrsAt(k, m', x, d);
  }

  lemma ReparentedFits(s: State, m': map<int, Rt>, c: int, x: int, y: int)
    requires Ledger(s) && Reparented(s.routes, m', c, x) && y in s.routes
    ensures RouteFits(s.(routes := m'), y)
  {
    hide DevFits, SlotsAlone, Copies, Naming, Addrs;
    assert RouteFits(s, y) && RouteFits(s, c) && RouteFits(s, x);
    ReparentedCopies(s.routes, m', c, x, y);
    ReparentedFrom(s.routes, m', c, x, y);
  }

  lemma ReparentedFrom(m: map<int, Rt>, m': map<int, Rt>, c: int, x: int, y: int)
    requires Reparented(m, m', c, x) && y in m && CopyFits(m, y) && CopyFits(m, c)
    ensures CopyFits(m', y)
  {
    assert m[y].from == c ==> y in Copies(m, c);
  }

  lemma ReparentedKeeps(s: State, m': map<int, Rt>, c: int, x: int)
    requires Ledger(s) && Reparented(s.routes, m', c, x)
    ensures Ledger(s.(routes := m'))
  {
    hide CopyFits, Copies, Naming, Addrs;
    var s' := s.(routes := m');
    forall y | y in m' ensures RouteFits(s', y) {
      ReparentedFits(s, m', c, x, y);
    }
    forall d | d in s'.devs ensures DevFits(s', d) {
      assert DevFits(s, d);
      ReparentedDevs(s.routes, m', c, x, d);
    }
  }

  /** The fresh route c becomes a copy of x. */
  function Adopt(s: State, c: int, x: int): State
    requires c in s.routes && x in s.routes && s.routes[x].holders > 0
  {
    s.(routes := s.routes[c := s.routes[c].(from := x)][x := s.routes[x].(holders := s.routes[x].holders - 1)])
  }

  /** A dying copy gives up its reference to its route. */
  function Orphan(s: State, c: int): State
    requires c in s.routes && s.routes[c].from in s.routes
  {
    var x := s.routes[c].from;
    s.(routes := s.routes[c := s.routes[c].(from := NONE)][x := s.routes[x].(holders := s.routes[x].holders + 1)])
  }

  // ---- dst_release ----

  /** dst_release: the last reference destroys the route, which lets go of its device and
      of the route it is a copy of. */
  function Put(s: State, x: int): State
    requires Ledger(s) && x in s.routes && s.routes[x].holders > 0
    decreases if s.routes[x].from == NONE then 0 else 1
  {
    if s.routes[x].count > 1 then Drop(s, x)
    else if s.routes[x].from == NONE then Remove(s, x)
    else
      var up := s.routes[x].from;
      LastCopy(s, x);
      Put(Remove(Orphan(s, x), x), up)
  }

  lemma LastCopy(s: State, x: int)
    requires Ledger(s) && LastRef(s.routes, x) && s.routes[x].from != NONE
    ensures s.routes[x].from in s.routes
    ensures Reparented(s.routes, Orphan(s, x).routes, x, s.routes[x].from)
    ensures var s1 := Remove(Orphan(s, x), x); var up := s.routes[x].from;
            Ledger(s1) && up in s1.routes && s1.routes[up].holders > 0 && s1.routes[up].from == NONE
  {
    hide DevFits, SlotsAlone, Naming, Addrs;
    var up := s.routes[x].from;
    assert RouteFits(s, x);
    assert RouteFits(s, up);
    ReparentedKeeps(s, Orphan(s, x).routes, x, up);
    RemoveKeeps(Orphan(s, x), x);
  }

  lemma {:induction false} PutKeeps(s: State, x: int)
    requires Ledger(s) && x in s.routes && s.routes[x].holders > 0
    ensures Ledger(Put(s, x))
    decreases if s.routes[x].from == NONE then 0 else 1
  {
    hide DevFits, SlotsAlone, Naming, Addrs, Copies;
    assert RouteFits(s, x);
    if s.routes[x].count > 1 {
      DropKeeps(s, x);
    } else if s.routes[x].from == NONE {
      RemoveKeeps(s, x);
    } else {
      LastCopy(s, x);
      PutKeeps(Remove(Orphan(s, x), x), s.routes[x].from);
    }
  }

  // ---- The operations ----

  /** nip_fib_add on a reference its caller holds: the table takes it, or, for a
      duplicate, dst_release_immediate drops it. */
  function FibAdd(s: State, x: int, dup: bool): State
    requires Ledger(s) && x in s.routes && s.routes[x].holders > 0
  {
    if dup then Put(s, x) else Link(s, x)
  }

  predicate Addable(r: Rt) {
    r.from == NONE && !r.found && r.pcpu
  }

  lemma FibAddKeeps(s: State, x: int, dup: bool)
    requires Ledger(s) && x in s.routes && s.routes[x].holders > 0 && Addable(s.routes[x])
    ensures Ledger(FibAdd(s, x, dup))
  {
    hide DevFits, SlotsAlone, Naming, Addrs, Copies, CopyFits;
    assert RouteFits(s, x);
    if dup { PutKeeps(s, x); } else { LinkKeeps(s, x); }
  }

  /** nip_route_add: the new route's first reference is the table's. */
  function RouteAdd(s: State, x: int, d: int, dup: bool): State
    requires Ledger(s) && x !in s.routes && x != NONE && d in s.devs
  {
    CreateKeeps(s, x, d, true);
    FibAdd(Create(s, x, d, true), x, dup)
  }

  /** nip_add_addr and nip_ins_rt: the address owns the new route, the table holds it too. */
  function AddrAdd(s: State, x: int, d: int, dup: bool): State
    requires Ledger(s) && x !in s.routes && x != NONE && d in s.devs
  {
    CreateKeeps(s, x, d, true);
    OwnKeeps(Create(s, x, d, true), x, d);
    HoldKeeps(Own(Create(s, x, d, true), x, d), x);
    FibAdd(Hold(Own(Create(s, x, d, true), x, d), x), x, dup)
  }

  lemma RouteAddKeeps(s: State, x: int, d: int, dup: bool)
    requires Ledger(s) && x !in s.routes && x != NONE && d in s.devs
    ensures Ledger(RouteAdd(s, x, d, dup))
  {
    hide Ledger;
    CreateKeeps(s, x, d, true);
    FibAddKeeps(Create(s, x, d, true), x, dup);
  }

  lemma AddrAddKeeps(s: State, x: int, d: int, dup: bool)
    requires Ledger(s) && x !in s.routes && x != NONE && d in s.devs
    ensures Ledger(AddrAdd(s, x, d, dup))
  {
    hide Ledger;
    CreateKeeps(s, x, d, true);
    OwnKeeps(Create(s, x, d, true), x, d);
    HoldKeeps(Own(Create(s, x, d, true), x, d), x);
    FibAddKeeps(Hold(Own(Create(s, x, d, true), x, d), x), x, dup);
  }

  /** nip_rt_pcpu_alloc: a copy c of x, held by its maker. */
  function MakeCopy(s: State, x: int, c: int): State
    requires Ledger(s) && x in s.routes && c !in s.routes && c != NONE && c != x
  {
    HoldKeeps(s, x);
    assert RouteFits(s, x);
    Adopt(Create(Hold(s, x), c, s.routes[x].idev, false), c, x)
  }

  lemma MakeCopyKeeps(s: State, x: int, c: int)
    requires Ledger(s) && x in s.routes && c !in s.routes && c != NONE && c != x && s.routes[x].from == NONE
    ensures var s' := MakeCopy(s, x, c);
            && Ledger(s') && c in s'.routes && s'.routes[c].from == x && s'.routes[c].slot == NONE
            && s'.routes[c].holders == 1 && s'.routes[c].count == 1
            && x in s'.routes && s'.routes[x] == s.routes[x].(count := s.routes[x].count + 1)
            && (forall y :: y in s.routes && y != x ==> y in s'.routes && s'.routes[y] == s.routes[y])
            && (forall y :: y in s'.routes && y != c ==> y in s.routes)
            && s'.cpus == s.cpus
  {
    hide DevFits, SlotsAlone, Naming, Addrs;
    HoldKeeps(s, x);
    assert RouteFits(s, x);
    var s1 := Create(Hold(s, x), c, s.routes[x].idev, false);
    CreateKeeps(Hold(s, x), c, s.routes[x].idev, false);
    ReparentedKeeps(s1, Adopt(s1, c, x).routes, c, x);
  }

  lemma CopyGone(s: State, x: int, c: int)
    requires Ledger(s) && x in s.routes && c !in s.routes && c != NONE && c != x
    ensures c in MakeCopy(s, x, c).routes && x in MakeCopy(s, x, c).routes && MakeCopy(s, x, c).routes[c].from == x
    ensures Remove(Orphan(MakeCopy(s, x, c), c), c) == Hold(s, x)
  {
    hide DevFits, SlotsAlone, Naming, Addrs, Copies, CopyFits;
    CountsPositive(s);
    assert RouteFits(s, x);
    var s2 := Remove(Orphan(MakeCopy(s, x, c), c), c);
    assert s2.routes == Hold(s, x).routes;
    assert s2.devs == s.devs;
  }

  /** Destroying a copy that lost the race leaves everything as it was. */
  lemma CopyUndone(s: State, x: int, c: int)
    requires Ledger(s) && x in s.routes && c !in s.routes && c != NONE && c != x && s.routes[x].from == NONE
    ensures Ledger(MakeCopy(s, x, c)) && c in MakeCopy(s, x, c).routes && MakeCopy(s, x, c).routes[c].holders > 0
    ensures Put(MakeCopy(s, x, c), c) == s
  {
    hide DevFits, SlotsAlone, Naming, Addrs, Copies, CopyFits, MakeCopy, Orphan, Remove;
    MakeCopyKeeps(s, x, c);
    LastCopy(MakeCopy(s, x, c), c);
    CopyGone(s, x, c);
    assert RouteFits(s, x);
  }

  /** The copy in the slot of this CPU. */
  ghost function SlotOwner(m: map<int, Rt>, x: int, cpu: int): (c: int)
    requires !SlotFree(m, x, cpu)
    ensures c in m && m[c].from == x && m[c].slot == cpu
  {
    var c :| c in m && m[c].from == x && m[c].slot == cpu;
    c
  }

  /** nip_rt_make_pcpu_route for a looker that holds x: its copy goes into the empty slot;
      if another copy is there, or the slots are gone, it is destroyed and the other one,
      or x itself, is returned. Then the looker lets go of x. */
  ghost function MakePcpu(s: State, x: int, cpu: int, c: int): State
    requires Ledger(s) && x in s.routes && s.routes[x].holders > 0 && s.routes[x].from == NONE
    requires s.routes[x].found && c !in s.routes && c != NONE && 0 <= cpu < s.cpus
  {
    MakeCopyKeeps(s, x, c);
    var s1 := MakeCopy(s, x, c);
    if s.routes[x].pcpu && SlotFree(s1.routes, x, cpu) then
      CopySlots(s, x, cpu, c);
      HoldKeeps(ToSlot(s1, c, cpu), c);
      Put(Hold(ToSlot(s1, c, cpu), c), x)
    else
      CopyUndone(s, x, c);
      var s2 := Put(s1, c);
      var back := if s.routes[x].pcpu then SlotOwner(s1.routes, x, cpu) else x;
      HoldKeeps(s2, back);
      Put(Hold(s2, back), x)
  }

  lemma CopySlots(s: State, x: int, cpu: int, c: int)
    requires Ledger(s) && x in s.routes && s.routes[x].from == NONE && s.routes[x].found && s.routes[x].pcpu
    requires c !in s.routes && c != NONE && c != x && 0 <= cpu < s.cpus
    requires SlotFree(MakeCopy(s, x, c).routes, x, cpu)
    ensures var s1 := MakeCopy(s, x, c); c in s1.routes && s1.routes[c].holders > 0 && Ledger(ToSlot(s1, c, cpu))
  {
    hide DevFits, SlotsAlone, Naming, Addrs, Copies, CopyFits, SlotFree;
    MakeCopyKeeps(s, x, c);
    assert RouteFits(s, x);
    ToSlotKeeps(MakeCopy(s, x, c), c, cpu);
  }

  lemma MakePcpuKeeps(s: State, x: int, cpu: int, c: int)
    requires Ledger(s) && x in s.routes && s.routes[x].holders > 0 && s.routes[x].from == NONE
    requires s.routes[x].found && c !in s.routes && c != NONE && 0 <= cpu < s.cpus
    ensures Ledger(MakePcpu(s, x, cpu, c))
  {
    hide Ledger, Put, SlotFree;
    MakeCopyKeeps(s, x, c);
    var s1 := MakeCopy(s, x, c);
    if s.routes[x].pcpu && SlotFree(s1.routes, x, cpu) {
      CopySlots(s, x, cpu, c);
      HoldKeeps(ToSlot(s1, c, cpu), c);
      PutKeeps(Hold(ToSlot(s1, c, cpu), c), x);
    } else {
      CopyUndone(s, x, c);
      var back := if s.routes[x].pcpu then SlotOwner(s1.routes, x, cpu) else x;
      HoldKeeps(s, back);
      PutKeeps(Hold(s, back), x);
    }
  }

  // ---- Deleting ----

  /** nip_fib_del: nothing happens to a route that is in no table. */
  function FibDel(s: State, x: int): State
    requires x in s.routes
  {
    if s.routes[x].fib then Unlink(s, x) else s
  }

  lemma FibDelKeeps(s: State, x: int)
    requires Ledger(s) && x in s.routes
    ensures Ledger(FibDel(s, x))
  {
    if s.routes[x].fib { UnlinkKeeps(s, x); }
  }

  /** __nip_del_rt: hold, unlink, put. */
  function DelRt(s: State, x: int): State
    requires Ledger(s) && x in s.routes
  {
    HoldKeeps(s, x);
    FibDelKeeps(Hold(s, x), x);
    Put(FibDel(Hold(s, x), x), x)
  }

  lemma DelRtKeeps(s: State, x: int)
    requires Ledger(s) && x in s.routes
    ensures Ledger(DelRt(s, x))
    ensures x in DelRt(s, x).routes && DelRt(s, x).routes[x].ifa == s.routes[x].ifa
  {
    hide DevFits, SlotsAlone, Naming, Addrs, Copies, CopyFits;
    assert RouteFits(s, x);
    HoldKeeps(s, x);
    FibDelKeeps(Hold(s, x), x);
    PutKeeps(FibDel(Hold(s, x), x), x);
  }

  /** The last put of an address: ninet_ifa_finish_destroy. */
  function AddrFree(s: State, x: int): State
    requires Ledger(s) && x in s.routes && s.routes[x].ifa != NONE
  {
    DisownKeeps(s, x);
    Put(Disown(s, x), x)
  }

  lemma AddrFreeKeeps(s: State, x: int)
    requires Ledger(s) && x in s.routes && s.routes[x].ifa != NONE
    ensures Ledger(AddrFree(s, x))
  {
    hide Ledger;
    DisownKeeps(s, x);
    PutKeeps(Disown(s, x), x);
  }

  /** nip_del_addr: the route leaves the table, then the address is destroyed. */
  function AddrDel(s: State, x: int): State
    requires Ledger(s) && x in s.routes && s.routes[x].ifa != NONE
  {
    DelRtKeeps(s, x);
    AddrFree(DelRt(s, x), x)
  }

  // ---- The RCU callback ----

  /** One CPU's turn in nip_rt_free_pcpu. */
  ghost function FreeSlot(s: State, x: int, cpu: int): State
    requires Ledger(s) && cpu != NONE
  {
    if SlotFree(s.routes, x, cpu) then s
    else
      var c := SlotOwner(s.routes, x, cpu);
      MoveIdevKeeps(s, c);
      FromSlotKeeps(MoveIdev(s, c), c);
      Put(FromSlot(MoveIdev(s, c), c), c)
  }

  /** Putting c leaves every other route that has another reference, with its slots. */
  lemma PutSpares(s: State, c: int, x: int)
    requires Ledger(s) && c in s.routes && s.routes[c].holders > 0 && s.routes[c].from == x && x in s.routes
    requires s.routes[c].slot == NONE && (s.routes[x].fib || s.routes[x].pending)
    ensures var s' := Put(s, c);
            && x in s'.routes && s'.routes[x].pending == s.routes[x].pending && s'.routes[x].fib == s.routes[x].fib
            && s'.routes[x].from == NONE && x != NONE
            && s'.cpus == s.cpus && s'.lo == s.lo
            && (forall y :: y in s'.routes && y != c && y != x ==> y in s.routes && s'.routes[y] == s.routes[y])
            && (c in s'.routes ==> s'.routes[c].slot == NONE)
  {
    hide DevFits, SlotsAlone, Naming, Addrs;
    assert RouteFits(s, c);
    assert RouteFits(s, x);
    if s.routes[c].count == 1 {
      LastCopy(s, c);
      var s1 := Remove(Orphan(s, c), c);
      assert RouteFits(s1, x);
    }
  }

  lemma OwnerAlone(s: State, x: int, cpu: int)
    requires Ledger(s) && cpu != NONE && !SlotFree(s.routes, x, cpu)
    ensures forall e :: e in s.routes && s.routes[e].from == x && s.routes[e].slot == cpu ==> e == SlotOwner(s.routes, x, cpu)
  {
    hide RouteFits, DevFits;
  }

  /** The device a dying route's reference moves to, if there is one. */
  predicate LoUp(s: State) {
    s.lo in s.devs && s.devs[s.lo].registered
  }

  /** Putting a route releases no registered device. */
  lemma PutKeepsLo(s: State, x: int)
    requires Ledger(s) && x in s.routes && s.routes[x].holders > 0 && LoUp(s)
    ensures LoUp(Put(s, x))
  {
    hide RouteFits, DevFits, SlotsAlone, Put;
    DstReleaseCount(s, x);
    if s.routes[x].count == 1 {
      OneStepOfPut(s, x);
      NamedTwice(s, x);
      var up := s.routes[x].from;
      if up != NONE {
        var s1 := Remove(Orphan(s, x), x);
        DstReleaseCount(s1, up);
        if s1.routes[up].count == 1 {
          OneStepOfPut(s1, up);
          NamedTwice(s1, up);
        }
      }
    }
  }

  /** A registered device that a route names has two references. */
  lemma NamedTwice(s: State, x: int)
    requires Ledger(s) && x in s.routes && LoUp(s)
    ensures s.routes[x].idev == s.lo ==> s.devs[s.lo].count > 1
  {
    hide RouteFits, SlotsAlone;
    assert DevFits(s, s.lo);
    assert s.routes[x].idev == s.lo ==> x in Naming(s.routes, s.lo);
  }

  lemma FreeSlotKeeps(s: State, x: int, cpu: int)
    requires Ledger(s) && cpu != NONE && x in s.routes && s.routes[x].pending
    ensures LoUp(s) ==> LoUp(FreeSlot(s, x, cpu))
    ensures var s' := FreeSlot(s, x, cpu);
            && Ledger(s') && s'.lo == s.lo && s'.cpus == s.cpus && x in s'.routes && s'.routes[x].pending
            && SlotFree(s'.routes, x, cpu)
            && (forall k :: SlotFree(s.routes, x, k) && k != NONE ==> SlotFree(s'.routes, x, k))
  {
    hide DevFits, Naming, Addrs, Copies, CopyFits, Put, SlotsAlone;
    if !SlotFree(s.routes, x, cpu) {
      var c := SlotOwner(s.routes, x, cpu);
      OwnerAlone(s, x, cpu);
      ChildrenAreBase(s, x);
      MoveIdevKeeps(s, c);
      var s1 := MoveIdev(s, c);
      FromSlotKeeps(s1, c);
      var s2 := FromSlot(s1, c);
      PutSpares(s2, c, x);
      PutKeeps(s2, c);
      if LoUp(s) { PutKeepsLo(s2, c); }
      var s' := Put(s2, c);
      assert forall e :: e in s'.routes && s'.routes[e].from == x ==> e == c || (e in s.routes && s'.routes[e] == s.routes[e]);
    }
  }

  /** nip_rt_free_pcpu from this CPU on. */
  ghost function FreePcpu(s: State, x: int, cpu: nat): State
    requires Ledger(s) && x in s.routes && s.routes[x].pending
    decreases s.cpus - cpu
  {
    if cpu >= s.cpus then s
    else
      FreeSlotKeeps(s, x, cpu);
      FreePcpu(FreeSlot(s, x, cpu), x, cpu + 1)
  }

  lemma {:induction false} FreePcpuKeeps(s: State, x: int, cpu: nat)
    requires Ledger(s) && x in s.routes && s.routes[x].pending
    requires forall k :: 0 <= k < cpu ==> SlotFree(s.routes, x, k)
    ensures var s' := FreePcpu(s, x, cpu);
            Ledger(s') && s'.lo == s.lo && x in s'.routes && s'.routes[x].pending && Slotless(s'.routes, x)
            && (LoUp(s) ==> LoUp(s'))
    decreases s.cpus - cpu
  {
    hide DevFits, Naming, Addrs, Copies, SlotsAlone;
    if cpu >= s.cpus {
      forall c | c in s.routes && s.routes[c].from == x ensures s.routes[c].slot == NONE {
        assert RouteFits(s, c);
        assert s.routes[c].slot != NONE ==> SlotFree(s.routes, x, s.routes[c].slot);
      }
    } else {
      FreeSlotKeeps(s, x, cpu);
      FreePcpuKeeps(FreeSlot(s, x, cpu), x, cpu + 1);
    }
  }

  /** nip_fib_destroy_rcu with nip_rt_release: the slots are freed, the route's device
      moves to loopback, and the table's reference is dropped. */
  ghost function RcuCallback(s: State, x: int): State
    requires Ledger(s) && x in s.routes && s.routes[x].pending
  {
    FreePcpuKeeps(s, x, 0);
    var s1 := FreePcpu(s, x, 0);
    EndPendingKeeps(s1, x);
    MoveIdevKeeps(EndPending(s1, x), x);
    Put(MoveIdev(EndPending(s1, x), x), x)
  }

  lemma RcuCallbackKeeps(s: State, x: int)
    requires Ledger(s) && x in s.routes && s.routes[x].pending
    ensures Ledger(RcuCallback(s, x))
  {
    hide Ledger, FreePcpu, Put, SlotFree, Slotless;
    FreePcpuKeeps(s, x, 0);
    var s1 := FreePcpu(s, x, 0);
    EndPendingKeeps(s1, x);
    MoveIdevKeeps(EndPending(s1, x), x);
    PutKeeps(MoveIdev(EndPending(s1, x), x), x);
  }

  // ---- Devices come and go ----

  /** nip_add_dev. */
  function Register(s: State, d: int): State
    requires d !in s.devs
  {
    s.(devs := s.devs[d := Dev(1, true)])
  }

  lemma RegisterKeeps(s: State, d: int)
    requires Ledger(s) && d !in s.devs && d != NONE
    ensures Ledger(Register(s, d))
  {
    hide SlotsAlone, CopyFits, Copies;
    var s' := Register(s, d);
    forall x | x in s'.routes ensures RouteFits(s', x) {
      assert RouteFits(s, x);
    }
    forall x | x in s.routes ensures x !in Naming(s.routes, d) && x !in Addrs(s.routes, d) {
      assert RouteFits(s, x);
    }
    assert Naming(s.routes, d) == {} && Addrs(s.routes, d) == {};
    forall e | e in s'.devs ensures DevFits(s', e) {
      if e != d { assert DevFits(s, e); }
    }
  }

  /** The end of nip_addrconf_ifdown for a device that goes away. */
  function Unregister(s: State, d: int): State
    requires d in s.devs
  {
    s.(devs := DevPut(s.devs[d := s.devs[d].(registered := false)], d))
  }

  lemma UnregisterKeeps(s: State, d: int)
    requires Ledger(s) && d in s.devs && s.devs[d].registered
    ensures Ledger(Unregister(s, d))
  {
    hide SlotsAlone, CopyFits, Copies;
    var s' := Unregister(s, d);
    assert DevFits(s, d);
    forall x | x in s'.routes ensures RouteFits(s', x) {
      assert RouteFits(s, x);
      assert s.routes[x].idev == d ==> x in Naming(s.routes, d);
      assert s.routes[x].ifa == d ==> x in Addrs(s.routes, d);
    }
    forall e | e in s'.devs ensures DevFits(s', e) {
      assert DevFits(s, e);
    }
  }

  // ---- Runs ----

  /** Routes are named when they are made. A lookup is two steps, so deletions and
      callbacks may come between them; an interface going down is its routes, its
      addresses and, if it goes away, the device, one after the other. */
  datatype Event =
    | AddRoute(x: int, d: int, dup: bool)
    | AddAddr(x: int, d: int, dup: bool)
    | LookHit(c: int)
    | LookStart(x: int)
    | LookFinish(x: int, cpu: int, c: int)
    | Release(x: int)
    | DelRoute(x: int)
    | DelAddr(x: int)
    | DownRoute(x: int)
    | DownAddr(x: int)
    | Rcu(x: int)
    | AddDev(d: int)
    | DelDev(d: int)

  ghost predicate Enabled(s: State, e: Event) {
    match e
    case AddRoute(x, d, _) => x !in s.routes && x != NONE && d in s.devs && s.devs[d].registered
    case AddAddr(x, d, _) => x !in s.routes && x != NONE && d in s.devs && s.devs[d].registered
    case LookHit(c) => c in s.routes && s.routes[c].slot != NONE
    case LookStart(x) => x in s.routes && s.routes[x].fib
    case LookFinish(x, cpu, c) =>
      && x in s.routes && s.routes[x].found && s.routes[x].from == NONE && s.routes[x].holders > 0
      && c !in s.routes && c != NONE && 0 <= cpu < s.cpus
    case Release(x) => x in s.routes && s.routes[x].holders > 0
    case DelRoute(x) => x in s.routes && s.routes[x].fib
    case DelAddr(x) => x in s.routes && s.routes[x].ifa != NONE
    case DownRoute(x) => x in s.routes && s.routes[x].fib
    case DownAddr(x) => x in s.routes && s.routes[x].ifa != NONE
    case Rcu(x) => x in s.routes && s.routes[x].pending
    case AddDev(d) => d !in s.devs && d != NONE
    case DelDev(d) => d in s.devs && s.devs[d].registered
  }

  ghost function Step(s: State, e: Event): State
    requires Ledger(s) && Enabled(s, e)
  {
    match e
    case AddRoute(x, d, dup) => RouteAdd(s, x, d, dup)
    case AddAddr(x, d, dup) => AddrAdd(s, x, d, dup)
    case LookHit(c) => Hold(s, c)
    case LookStart(x) => Hold(s, x)
    case LookFinish(x, cpu, c) => MakePcpu(s, x, cpu, c)
    case Release(x) => Put(s, x)
    case DelRoute(x) => DelRt(s, x)
    case DelAddr(x) => AddrDel(s, x)
    case DownRoute(x) => FibDel(s, x)
    case DownAddr(x) => AddrFree(s, x)
    case Rcu(x) => RcuCallback(s, x)
    case AddDev(d) => Register(s, d)
    case DelDev(d) => Unregister(s, d)
  }

  lemma StepKeeps(s: State, e: Event)
    requires Ledger(s) && Enabled(s, e)
    ensures Ledger(Step(s, e))
  {
    hide Ledger, Put, RouteAdd, AddrAdd, MakePcpu, DelRt, AddrFree, RcuCallback;
    match e
    case AddRoute(x, d, dup) => RouteAddKeeps(s, x, d, dup);
    case AddAddr(x, d, dup) => AddrAddKeeps(s, x, d, dup);
    case LookHit(c) => HoldKeeps(s, c);
    case LookStart(x) => HoldKeeps(s, x);
    case LookFinish(x, cpu, c) => MakePcpuKeeps(s, x, cpu, c);
    case Release(x) => PutKeeps(s, x);
    case DelRoute(x) => DelRtKeeps(s, x);
    case DelAddr(x) =>
      DelRtKeeps(s, x);
      AddrFreeKeeps(DelRt(s, x), x);
    case DownRoute(x) => FibDelKeeps(s, x);
    case DownAddr(x) => AddrFreeKeeps(s, x);
    case Rcu(x) => RcuCallbackKeeps(s, x);
    case AddDev(d) => RegisterKeeps(s, d);
    case DelDev(d) => UnregisterKeeps(s, d);
  }

  ghost predicate AllEnabled(s: State, es: seq<Event>)
    requires Ledger(s)
    decreases |es|
  {
    es == [] || (Enabled(s, es[0]) && (StepKeeps(s, es[0]); AllEnabled(Step(s, es[0]), es[1..])))
  }

  ghost function Run(s: State, es: seq<Event>): State
    requires Ledger(s) && AllEnabled(s, es)
    decreases |es|
  {
    if es == [] then s
    else
      StepKeeps(s, es[0]);
      Run(Step(s, es[0]), es[1..])
  }

  /** Over every run every count is the number of references, and nothing that is
      referred to has been freed. */
  lemma {:induction false} RunKeeps(s: State, es: seq<Event>)
    requires Ledger(s) && AllEnabled(s, es)
    ensures Ledger(Run(s, es))
    decreases |es|
  {
    if es != [] {
      StepKeeps(s, es[0]);
      RunKeeps(Step(s, es[0]), es[1..]);
    }
  }

  // ---- What each operation leaves ----

  /** What the last reference to a route takes with it. */
  function Freed(m: map<int, Rt>, x: int): map<int, Rt>
    requires x in m
  {
    var up := m[x].from;
    if up !in m then m - {x}
    else if m[up].count > 1 then (m - {x})[up := m[up].(count := m[up].count - 1)]
    else m - {x} - {up}
  }

  /** dst_release takes one reference off the route; the last one frees it, and takes the
      reference off the route it is a copy of, which may free that too. */
  lemma PutLeaves(s: State, x: int)
    requires Ledger(s) && x in s.routes && s.routes[x].holders > 0
    ensures var s' := Put(s, x); var r := s.routes[x];
            && s'.lo == s.lo && s'.cpus == s.cpus
            && (if r.count == 1 then s'.routes == Freed(s.routes, x)
                else s' == s.(routes := s.routes[x := r.(count := r.count - 1, holders := r.holders - 1)]))
  {
    hide RouteFits, DevFits, SlotsAlone, Put;
    DstReleaseCount(s, x);
    if s.routes[x].count == 1 {
      OneStepOfPut(s, x);
      BaseOrCopy(s, x);
      if s.routes[x].from != NONE { PutCopyLeaves(s, x); }
    }
  }

  lemma BaseOrCopy(s: State, x: int)
    requires Ledger(s) && x in s.routes
    ensures NONE !in s.routes && s.routes[x].from != x
    ensures s.routes[x].from != NONE ==> s.routes[x].from in s.routes && s.routes[s.routes[x].from].from == NONE
  {
    hide DevFits, SlotsAlone, Naming, Addrs, Copies;
    assert RouteFits(s, x);
    assert NONE in s.routes ==> RouteFits(s, NONE);
  }

  lemma PutCopyLeaves(s: State, x: int)
    requires Ledger(s) && x in s.routes && s.routes[x].holders > 0 && s.routes[x].count == 1
    requires s.routes[x].from != NONE
    ensures Put(s, x).routes == Freed(s.routes, x) && Put(s, x).lo == s.lo && Put(s, x).cpus == s.cpus
  {
    hide RouteFits, DevFits, SlotsAlone, Put;
    BaseOrCopy(s, x);
    OneStepOfPut(s, x);
    var up := s.routes[x].from;
    var s1 := Remove(Orphan(s, x), x);
    assert s1.routes == (s.routes - {x})[up := s.routes[up].(holders := s.routes[up].holders + 1)];
    DstReleaseCount(s1, up);
    if s1.routes[up].count == 1 {
      OneStepOfPut(s1, up);
      assert s1.routes - {up} == s.routes - {x} - {up};
    } else {
      assert Drop(s1, up).routes == Freed(s.routes, x);
    }
  }

  /** A fresh route, as a table or nobody holds it. */
  function Fresh(d: int, fib: bool): Rt {
    Rt(1, fib, false, NONE, d, NONE, NONE, true, fib, B(!fib))
  }

  /** A route that is no duplicate is afterwards in the table, held by nothing else, and
      counted by its device; a duplicate leaves nothing behind. */
  lemma AddRouteLeaves(s: State, x: int, d: int, dup: bool)
    requires Ledger(s) && Enabled(s, AddRoute(x, d, dup))
    ensures var s' := Step(s, AddRoute(x, d, dup));
            if dup then s' == s
            else s' == s.(routes := s.routes[x := Fresh(d, true)],
                          devs := s.devs[d := s.devs[d].(count := s.devs[d].count + 1)])
  {
    hide DevFits, SlotsAlone, Naming, Addrs, Copies, CopyFits, Put;
    CreateKeeps(s, x, d, true);
    CountsPositive(s);
    var s1 := Create(s, x, d, true);
    if dup {
      OneStepOfPut(s1, x);
      assert Remove(s1, x).routes == s.routes;
      assert Remove(s1, x).devs == s.devs;
    }
  }

  /** The new address owns its route and holds its device; the table holds the route too
      exactly when it is no duplicate. */
  lemma AddAddrLeaves(s: State, x: int, d: int, dup: bool)
    requires Ledger(s) && Enabled(s, AddAddr(x, d, dup))
    ensures Step(s, AddAddr(x, d, dup)) ==
            s.(routes := s.routes[x := Rt(if dup then 1 else 2, !dup, false, d, d, NONE, NONE, true, !dup, 0)],
               devs := s.devs[d := s.devs[d].(count := s.devs[d].count + 2)])
  {
    hide DevFits, SlotsAlone, Naming, Addrs, Copies, CopyFits, Put;
    CreateKeeps(s, x, d, true);
    OwnKeeps(Create(s, x, d, true), x, d);
    HoldKeeps(Own(Create(s, x, d, true), x, d), x);
    var s3 := Hold(Own(Create(s, x, d, true), x, d), x);
    if dup { DstReleaseCount(s3, x); }
  }

  /** A deleted route is out of the table, and waits for the callback with the reference
      the table had. */
  lemma DelRouteLeaves(s: State, x: int)
    requires Ledger(s) && Enabled(s, DelRoute(x))
    ensures Step(s, DelRoute(x)) == s.(routes := s.routes[x := s.routes[x].(fib := false, pending := true)])
    ensures Step(s, DownRoute(x)) == Step(s, DelRoute(x))
  {
    DelRtLeaves(s, x);
  }

  lemma DelRtLeaves(s: State, x: int)
    requires Ledger(s) && x in s.routes
    ensures DelRt(s, x) == if s.routes[x].fib then Unlink(s, x) else s
  {
    hide DevFits, SlotsAlone, Naming, Addrs, Copies, CopyFits, Put;
    assert RouteFits(s, x);
    HoldKeeps(s, x);
    FibDelKeeps(Hold(s, x), x);
    var s2 := FibDel(Hold(s, x), x);
    DstReleaseCount(s2, x);
    assert Drop(s2, x).routes == (if s.routes[x].fib then Unlink(s, x) else s).routes;
  }

  /** An address that goes takes its reference to the route and its route out of the table;
      the route stays for the callback, and for whoever else refers to it. */
  lemma DelAddrLeaves(s: State, x: int)
    requires Ledger(s) && Enabled(s, DelAddr(x))
    ensures var r := s.routes[x];
            Step(s, DelAddr(x)).routes ==
              if r.count > 1 then
                s.routes[x := r.(ifa := NONE, count := r.count - 1, fib := false, pending := r.fib || r.pending)]
              else s.routes - {x}
    ensures var r := s.routes[x];
            Step(s, DownAddr(x)).routes ==
              if r.count > 1 then s.routes[x := r.(ifa := NONE, count := r.count - 1)] else s.routes - {x}
  {
    hide DevFits, SlotsAlone, Naming, Addrs, Copies, CopyFits, Put, AddrFree;
    DelRtKeeps(s, x);
    DelRtLeaves(s, x);
    AddrFreeLeaves(s, x);
    AddrFreeLeaves(DelRt(s, x), x);
  }

  lemma AddrFreeLeaves(s: State, x: int)
    requires Ledger(s) && x in s.routes && s.routes[x].ifa != NONE
    ensures var r := s.routes[x];
            AddrFree(s, x).routes ==
              if r.count > 1 then s.routes[x := r.(ifa := NONE, count := r.count - 1)] else s.routes - {x}
  {
    hide DevFits, SlotsAlone, Naming, Addrs, Copies, Put;
    assert RouteFits(s, x);
    DisownKeeps(s, x);
    BaseOrCopy(Disown(s, x), x);
    PutLeaves(Disown(s, x), x);
  }

  /** A lookup's hit, and the lookup that has yet to make a copy, hold what they found; a
      release lets go of one hold. */
  lemma LookLeaves(s: State, x: int)
    requires Ledger(s) && x in s.routes
    ensures var held := s.(routes := s.routes[x := s.routes[x].(count := s.routes[x].count + 1,
                                                               holders := s.routes[x].holders + 1)]);
            && (Enabled(s, LookHit(x)) ==> Step(s, LookHit(x)) == held)
            && (Enabled(s, LookStart(x)) ==> Step(s, LookStart(x)) == held)
            && Ledger(held) && Step(held, Release(x)) == s
  {
    HoldKeeps(s, x);
    assert RouteFits(s, x);
    hide RouteFits, DevFits, SlotsAlone, Put;
    PutLeaves(Hold(s, x), x);
  }

  /** What the looker holds after nip_rt_make_pcpu_route in place of x: the new copy, which
      is in this CPU's slot; the copy o that is there already; or, without slots, x. */
  lemma LookFinishLeaves(s: State, x: int, cpu: int, c: int, o: int)
    requires Ledger(s) && Enabled(s, LookFinish(x, cpu, c))
    ensures var r := s.routes[x]; var s' := Step(s, LookFinish(x, cpu, c)); var let := r.holders - 1;
            && (r.pcpu && SlotFree(s.routes, x, cpu) ==>
                  s'.routes == s.routes[c := Rt(2, false, false, NONE, r.idev, x, cpu, false, false, 1)]
                                       [x := r.(holders := let)])
            && (r.pcpu && o in s.routes && s.routes[o].from == x && s.routes[o].slot == cpu ==>
                  s'.routes == s.routes[o := s.routes[o].(count := s.routes[o].count + 1,
                                                          holders := s.routes[o].holders + 1)]
                                       [x := r.(count := r.count - 1, holders := let)])
            && (!r.pcpu ==> s'.routes == s.routes)
  {
    hide DevFits, Naming, Addrs, Copies, CopyFits, Put, MakeCopy, RouteFits, Ledger;
    var s1 := MakeCopy(s, x, c);
    MakeCopyKeeps(s, x, c);
    MakeCopyRoutes(s, x, c);
    assert SlotFree(s1.routes, x, cpu) <==> SlotFree(s.routes, x, cpu);
    if s.routes[x].pcpu && SlotFree(s.routes, x, cpu) {
      LookFills(s, x, cpu, c);
    } else {
      CopyUndone(s, x, c);
      var back := if s.routes[x].pcpu then SlotOwner(s1.routes, x, cpu) else x;
      LookFindsOther(s, x, back);
      if s.routes[x].pcpu { SlotOwnerIs(s, x, cpu, back, o); }
    }
  }

  lemma SlotOwnerIs(s: State, x: int, cpu: int, a: int, o: int)
    requires Ledger(s) && cpu != NONE
    requires a in s.routes && s.routes[a].from == x && s.routes[a].slot == cpu
    ensures o in s.routes && s.routes[o].from == x && s.routes[o].slot == cpu ==> a == o != x
  {
    hide RouteFits, DevFits;
    BaseOrCopy(s, a);
  }

  lemma MakeCopyRoutes(s: State, x: int, c: int)
    requires Ledger(s) && x in s.routes && c !in s.routes && c != NONE && c != x
    ensures MakeCopy(s, x, c).routes ==
            s.routes[c := Rt(1, false, false, NONE, s.routes[x].idev, x, NONE, false, false, 1)]
                    [x := s.routes[x].(count := s.routes[x].count + 1)]
  {
    hide DevFits, SlotsAlone, Naming, Addrs, Copies, CopyFits;
    assert RouteFits(s, x);
  }

  lemma LookFills(s: State, x: int, cpu: int, c: int)
    requires Ledger(s) && Enabled(s, LookFinish(x, cpu, c)) && s.routes[x].pcpu && SlotFree(s.routes, x, cpu)
    ensures MakePcpu(s, x, cpu, c).routes ==
            s.routes[c := Rt(2, false, false, NONE, s.routes[x].idev, x, cpu, false, false, 1)]
                    [x := s.routes[x].(holders := s.routes[x].holders - 1)]
  {
    hide DevFits, Naming, Addrs, Copies, CopyFits, Put, MakeCopy, RouteFits, SlotsAlone;
    var s1 := MakeCopy(s, x, c);
    MakeCopyKeeps(s, x, c);
    MakeCopyRoutes(s, x, c);
    assert SlotFree(s1.routes, x, cpu);
    CopySlots(s, x, cpu, c);
    HoldKeeps(ToSlot(s1, c, cpu), c);
    DstReleaseCount(s, x);
    PutLeaves(Hold(ToSlot(s1, c, cpu), c), x);
  }

  lemma LookFindsOther(s: State, x: int, back: int)
    requires Ledger(s) && x in s.routes && s.routes[x].holders > 0
    requires back in s.routes && (back == x || s.routes[back].from == x)
    ensures Ledger(Hold(s, back))
    ensures Put(Hold(s, back), x).routes ==
            if back == x then s.routes
            else s.routes[back := s.routes[back].(count := s.routes[back].count + 1,
                                                  holders := s.routes[back].holders + 1)]
                         [x := s.routes[x].(count := s.routes[x].count - 1, holders := s.routes[x].holders - 1)]
  {
    hide DevFits, Naming, Addrs, CopyFits, Put, SlotsAlone;
    HoldKeeps(s, back);
    assert RouteFits(s, x);
    assert back != x ==> back in Copies(s.routes, x);
    PutLeaves(Hold(s, back), x);
  }

  /** What nip_rt_free_pcpu leaves of the copies of x so far: a copy in use stays, named by
      loopback if that is up, and so does everything that is no copy of x. */
  ghost predicate Shed(s: State, s': State, x: int) {
    && x in s.routes && x in s'.routes && s'.routes[x] == s.routes[x].(count := s'.routes[x].count)
    && s'.lo == s.lo && (LoUp(s) ==> LoUp(s'))
    && (forall c :: c in s'.routes ==> c in s.routes)
    && (forall c :: c in s.routes && s.routes[c].from == x ==> CopyShed(s, s', c))
    && (forall c :: c in s.routes && c != x && s.routes[c].from != x ==> c in s'.routes && s'.routes[c] == s.routes[c])
  }

  predicate CopyShed(s: State, s': State, c: int)
    requires c in s.routes
  {
    var r := s.routes[c];
    && (r.holders > 0 ==> c in s'.routes)
    && (c in s'.routes ==>
          var r' := s'.routes[c];
          r' == r || (r.slot != NONE && r' == r.(slot := NONE, count := r.count - 1, idev := r'.idev) && (LoUp(s) ==> r'.idev == s.lo)))
  }

  lemma ShedTwice(a: State, b: State, c: State, x: int)
    requires Shed(a, b, x) && Shed(b, c, x)
    ensures Shed(a, c, x)
  {
    forall e | e in a.routes && a.routes[e].from == x ensures CopyShed(a, c, e) {
      assert CopyShed(a, b, e);
      assert e in b.routes ==> CopyShed(b, c, e);
    }
  }

  /** A copy that only its slot refers to goes with it. */
  lemma SlotCounts(s: State, c: int)
    requires Ledger(s) && c in s.routes && s.routes[c].slot != NONE
    ensures s.routes[c].count == 1 + s.routes[c].holders
    ensures s.routes[c].from in s.routes && s.routes[s.routes[c].from].count > B(s.routes[s.routes[c].from].pending)
  {
    hide DevFits, SlotsAlone, Naming, Addrs;
    assert RouteFits(s, c);
    assert RouteFits(s, s.routes[c].from);
    forall e ensures e !in Copies(s.routes, c) {
      if e in Copies(s.routes, c) { ChildrenAreBase(s, c); }
    }
    assert Copies(s.routes, c) == {};
    assert c in Copies(s.routes, s.routes[c].from);
  }

  /** One CPU's turn on the copy in its slot. */
  lemma FreeSlotRoutes(s: State, x: int, cpu: int)
    requires Ledger(s) && cpu != NONE && x in s.routes && s.routes[x].pending && !SlotFree(s.routes, x, cpu)
    ensures var c := SlotOwner(s.routes, x, cpu); var m, m' := s.routes, FreeSlot(s, x, cpu).routes;
            && c != x
            && (m[c].holders == 0 ==> m' == (m - {c})[x := m[x].(count := m[x].count - 1)])
            && (m[c].holders > 0 ==>
                  && c in m'
                  && m' == m[c := m[c].(slot := NONE, count := m[c].count - 1, idev := m'[c].idev)]
                  && (LoUp(s) ==> m'[c].idev == s.lo))
  {
    hide DevFits, Naming, Addrs, Copies, CopyFits, Put, SlotsAlone, RouteFits, SlotFree;
    var c := SlotOwner(s.routes, x, cpu);
    BaseOrCopy(s, c);
    SlotCounts(s, c);
    MoveIdevKeeps(s, c);
    var s1 := MoveIdev(s, c);
    FromSlotKeeps(s1, c);
    PutLeaves(FromSlot(s1, c), c);
  }

  lemma FreeSlotSheds(s: State, x: int, cpu: int)
    requires Ledger(s) && cpu != NONE && x in s.routes && s.routes[x].pending
    ensures Shed(s, FreeSlot(s, x, cpu), x)
  {
    FreeSlotKeeps(s, x, cpu);
    if SlotFree(s.routes, x, cpu) {
      ShedNothing(s, x);
    } else {
      FreeSlotRoutes(s, x, cpu);
      hide Ledger, SlotFree, FreeSlot, LoUp;
    }
  }

  lemma {:induction false} FreePcpuSheds(s: State, x: int, cpu: nat)
    requires Ledger(s) && x in s.routes && s.routes[x].pending
    ensures Shed(s, FreePcpu(s, x, cpu), x)
    decreases s.cpus - cpu
  {
    hide DevFits, Naming, Addrs, Copies, SlotsAlone, FreeSlot, Ledger, Shed;
    if cpu >= s.cpus {
      ShedNothing(s, x);
    } else {
      FreeSlotKeeps(s, x, cpu);
      FreeSlotSheds(s, x, cpu);
      var s1 := FreeSlot(s, x, cpu);
      FreePcpuSheds(s1, x, cpu + 1);
      ShedTwice(s, s1, FreePcpu(s1, x, cpu + 1), x);
    }
  }

  lemma ShedNothing(s: State, x: int)
    requires x in s.routes
    ensures Shed(s, s, x)
  {
  }

  /** Somebody holds a copy of x. */
  ghost predicate CopyInUse(m: map<int, Rt>, x: int) {
    exists c :: c in m && m[c].from == x && m[c].holders > 0
  }

  /** What a copy in use becomes when its route is cleaned up. */
  predicate Released(s: State, r: Rt, r': Rt) {
    if r.slot == NONE then r' == r
    else r' == r.(slot := NONE, count := r.count - 1, idev := r'.idev) && (LoUp(s) ==> r'.idev == s.lo)
  }

  /** The callback frees the route exactly when no address owns it and nobody holds it or
      a copy of it. Of its copies just those that are held stay, out of their slots; and
      what stays no longer keeps the device, if there is a loopback to name instead. */
  lemma RcuLeaves(s: State, x: int)
    requires Ledger(s) && Enabled(s, Rcu(x))
    ensures var r := s.routes[x]; var m' := Step(s, Rcu(x)).routes;
            && (x in m' <==> r.ifa != NONE || r.holders > 0 || CopyInUse(s.routes, x))
            && (x in m' ==> m'[x] == r.(pending := false, pcpu := false, count := m'[x].count, idev := m'[x].idev))
            && (x in m' && LoUp(s) ==> m'[x].idev == s.lo)
            && (forall c :: c in s.routes && s.routes[c].from == x ==>
                  (c in m' <==> s.routes[c].holders > 0) && (c in m' ==> Released(s, s.routes[c], m'[c])))
            && (forall y :: y in m' ==> y in s.routes)
            && (forall y :: y in s.routes && y != x && s.routes[y].from != x ==> y in m' && m'[y] == s.routes[y])
  {
    hide DevFits, Naming, Addrs, Copies, CopyFits, Put, SlotsAlone, FreePcpu, RouteFits, MoveIdev, RcuCallback;
    FreePcpuKeeps(s, x, 0);
    FreePcpuSheds(s, x, 0);
    CallbackRoutes(s, x);
    LastRefs(s, FreePcpu(s, x, 0), x);
  }

  /** The callback once the slots are freed. */
  lemma CallbackRoutes(s: State, x: int)
    requires Ledger(s) && x in s.routes && s.routes[x].pending
    ensures var m, m' := FreePcpu(s, x, 0).routes, RcuCallback(s, x).routes;
            && x in m
            && (x in m' ==> m' == m[x := m[x].(pending := false, pcpu := false, count := m[x].count - 1,
                                               idev := m'[x].idev)])
            && (x in m' && LoUp(FreePcpu(s, x, 0)) ==> m'[x].idev == s.lo)
            && (x !in m' ==> m' == m - {x})
            && (x in m' <==> m[x].count > 1)
  {
    hide DevFits, Naming, Addrs, Copies, CopyFits, Put, SlotsAlone, FreePcpu, RouteFits, Slotless;
    FreePcpuKeeps(s, x, 0);
    var s1 := FreePcpu(s, x, 0);
    BaseOfPending(s1, x);
    EndPendingKeeps(s1, x);
    var s2 := EndPending(s1, x);
    MoveIdevKeeps(s2, x);
    BaseOrCopy(s1, x);
    PutLeaves(MoveIdev(s2, x), x);
  }

  lemma BaseOfPending(s: State, x: int)
    requires Ledger(s) && x in s.routes && s.routes[x].pending
    ensures s.routes[x].from == NONE && !s.routes[x].fib && s.routes[x].slot == NONE && s.routes[x].count >= 1
  {
    hide DevFits, Naming, Addrs, SlotsAlone;
    assert RouteFits(s, x);
  }

  /** A copy without a slot is held. */
  lemma LooseIsHeld(s: State, c: int)
    requires Ledger(s) && c in s.routes && s.routes[c].from != NONE && s.routes[c].slot == NONE
    ensures s.routes[c].holders > 0
  {
    hide DevFits, Naming, Addrs, SlotsAlone;
    assert RouteFits(s, c);
    forall e ensures e !in Copies(s.routes, c) {
      if e in Copies(s.routes, c) { ChildrenAreBase(s, c); }
    }
    assert Copies(s.routes, c) == {};
  }

  lemma LastRefs(s: State, s1: State, x: int)
    requires Ledger(s) && x in s.routes && s.routes[x].pending
    requires Ledger(s1) && Shed(s, s1, x) && Slotless(s1.routes, x)
    ensures s1.routes[x].count > 1 <==> s.routes[x].ifa != NONE || s.routes[x].holders > 0 || CopyInUse(s.routes, x)
    ensures forall c :: c in s.routes && s.routes[c].from == x ==>
              (c in s1.routes <==> s.routes[c].holders > 0)
              && (c in s1.routes ==> c != x && Released(s, s.routes[c], s1.routes[c]))
  {
    hide DevFits, Naming, Addrs, SlotsAlone, RouteFits, CopyFits;
    BaseOfPending(s, x);
    BaseOfPending(s1, x);
    BaseOrCopy(s, x);
    forall c | c in s.routes && s.routes[c].from == x
      ensures c in s1.routes <==> s.routes[c].holders > 0
      ensures c in s1.routes ==> c != x && Released(s, s.routes[c], s1.routes[c])
    {
      assert CopyShed(s, s1, c);
      if c in s1.routes { LooseIsHeld(s1, c); }
    }
    var k := Copies(s1.routes, x);
    assert s1.routes[x].count == Refs(s1.routes, x) by { CountIsRefs(s1, x); }
    if CopyInUse(s.routes, x) {
      var c :| c in s.routes && s.routes[c].from == x && s.routes[c].holders > 0;
      assert CopyShed(s, s1, c);
      assert c in k;
    } else {
      assert forall c :: c !in k;
      assert k == {};
    }
  }

  lemma CountIsRefs(s: State, x: int)
    requires Ledger(s) && x in s.routes
    ensures s.routes[x].count == Refs(s.routes, x)
  {
    assert RouteFits(s, x);
  }

  /** A device that is added is registered; one that goes stays exactly as long as a route
      or an address names it. */
  lemma DevsLeave(s: State, d: int)
    requires Ledger(s)
    ensures Enabled(s, AddDev(d)) ==> Step(s, AddDev(d)) == s.(devs := s.devs[d := Dev(1, true)])
    ensures Enabled(s, DelDev(d)) ==>
              var s' := Step(s, DelDev(d));
              && s'.routes == s.routes && s'.devs - {d} == s.devs - {d}
              && (d in s'.devs <==> exists x :: x in s.routes && (s.routes[x].idev == d || s.routes[x].ifa == d))
              && (d in s'.devs ==> s'.devs[d] == Dev(s.devs[d].count - 1, false))
  {
    hide RouteFits, SlotsAlone;
    if Enabled(s, DelDev(d)) {
      assert DevFits(s, d);
      if x :| x in s.routes && (s.routes[x].idev == d || s.routes[x].ifa == d) {
        assert x in Naming(s.routes, d) || x in Addrs(s.routes, d);
      } else {
        assert forall x :: x !in Naming(s.routes, d) && x !in Addrs(s.routes, d);
        assert Naming(s.routes, d) == {} && Addrs(s.routes, d) == {};
      }
    }
  }

  // ---- Teardown ----

  /** No table, no address, no callback and no holder is left, and no device. */
  ghost predicate TornDown(s: State) {
    && (forall x :: x in s.routes ==>
          !s.routes[x].fib && !s.routes[x].pending && s.routes[x].ifa == NONE && s.routes[x].holders == 0)
    && (forall d :: d in s.devs ==> !s.devs[d].registered)
  }

  lemma NoCopiesLeft(s: State, c: int)
    requires Ledger(s) && TornDown(s)
    ensures c in s.routes ==> s.routes[c].from == NONE
  {
    hide DevFits, SlotsAlone, Naming, Addrs;
    if c in s.routes {
      assert RouteFits(s, c);
      if s.routes[c].from in s.routes { assert RouteFits(s, s.routes[c].from); }
      forall e | e in Copies(s.routes, c) ensures s.routes[c].from == NONE {
        ChildrenAreBase(s, c);
      }
    }
  }

  lemma NothingLeft(s: State, x: int)
    requires Ledger(s) && TornDown(s)
    ensures x !in s.routes
  {
    hide DevFits, SlotsAlone, Naming, Addrs;
    forall c | c in s.routes ensures s.routes[c].from == NONE {
      NoCopiesLeft(s, c);
    }
    if x in s.routes {
      assert RouteFits(s, x);
      NoParent(s, x);
    }
  }

  lemma NoParent(s: State, x: int)
    requires x != NONE && forall c :: c in s.routes ==> s.routes[c].from == NONE
    ensures Copies(s.routes, x) == {}
  {
    assert forall c :: c !in Copies(s.routes, x);
  }

  /** After teardown everything is freed: the reference cycle between a route and its
      per-CPU copies has been cut by the callback. */
  lemma AllFreed(s: State)
    requires Ledger(s) && TornDown(s)
    ensures s.routes == map[] && s.devs == map[]
  {
    hide SlotsAlone, RouteFits;
    forall x ensures x !in s.routes {
      NothingLeft(s, x);
    }
    forall d ensures d !in s.devs {
      NoNames(s, d);
      assert d in s.devs ==> DevFits(s, d);
    }
  }

  lemma NoNames(s: State, d: int)
    requires forall x :: x !in s.routes
    ensures Naming(s.routes, d) == {} && Addrs(s.routes, d) == {}
  {
    assert forall r :: r !in Naming(s.routes, d) && r !in Addrs(s.routes, d);
  }

  // ---- The counts, updated in place ----

  lemma OneStepOfPut(s: State, x: int)
    requires Ledger(s) && x in s.routes && s.routes[x].holders > 0 && s.routes[x].count == 1
    ensures var up := s.routes[x].from;
            if up == NONE then Put(s, x) == Remove(s, x)
            else
              && up in s.routes
              && var s1 := Remove(Orphan(s, x), x);
                 Ledger(s1) && up in s1.routes && s1.routes[up].holders > 0 && s1.routes[up].from == NONE
                 && Put(s, x) == Put(s1, up)
  {
    hide DevFits, SlotsAlone, Naming, Addrs, Copies, CopyFits;
    if s.routes[x].from != NONE { LastCopy(s, x); }
  }

  /** The routes and devices of a network namespace. */
  class RouteNet {
    var routes: map<int, Rt>
    var devs: map<int, Dev>
    const lo: int
    const cpus: nat

    function View(): State
      reads this
    {
      State(routes, devs, lo, cpus)
    }

    constructor (lo: int, cpus: nat)
      requires lo != NONE
      ensures Ledger(View()) && routes == map[] && devs == map[]
    {
      routes, devs, this.lo, this.cpus := map[], map[], lo, cpus;
    }

    method DstHold(x: int)
      requires Ledger(View()) && x in routes
      modifies this`routes
      ensures Ledger(View()) && View() == Hold(old(View()), x)
    {
      HoldKeeps(View(), x);
      routes := routes[x := routes[x].(count := routes[x].count + 1, holders := routes[x].holders + 1)];
    }

    /** dst_release, and what the last release sets off. */
    method DstRelease(x: int)
      requires Ledger(View()) && x in routes && routes[x].holders > 0
      modifies this`routes, this`devs
      ensures Ledger(View()) && View() == Put(old(View()), x)
    {
      hide Ledger, Put;
      ghost var goal := Put(View(), x);
      PutKeeps(View(), x);
      var y, more := x, true;
      while more
        invariant more ==> Ledger(View()) && y in routes && routes[y].holders > 0 && Put(View(), y) == goal
        invariant !more ==> View() == goal
        decreases if !more then 0 else if y in routes && routes[y].from != NONE then 2 else 1
      {
        var r := routes[y];
        DstReleaseCount(View(), y);
        if r.count > 1 {
          routes := routes[y := r.(count := r.count - 1, holders := r.holders - 1)];
          more := false;
        } else {
          OneStepOfPut(View(), y);
          if r.from == NONE {
            more := false;
          } else {
            routes := routes[y := r.(from := NONE)][r.from := routes[r.from].(holders := routes[r.from].holders + 1)];
          }
          routes, devs := routes - {y}, DevPut(devs, r.idev);
          y := r.from;
        }
      }
    }

    /** nip_fib_del. */
    method NipFibDel(x: int)
      requires Ledger(View()) && x in routes
      modifies this`routes
      ensures Ledger(View()) && View() == FibDel(old(View()), x)
    {
      FibDelKeeps(View(), x);
      if routes[x].fib {
        routes := routes[x := routes[x].(fib := false, pending := true)];
      }
    }

    /** nip_fib_add on a reference the caller gives away. */
    method NipFibAdd(x: int, dup: bool)
      requires Ledger(View()) && x in routes && routes[x].holders > 0 && Addable(routes[x])
      modifies this`routes, this`devs
      ensures Ledger(View()) && View() == FibAdd(old(View()), x, dup)
      ensures x in routes && routes[x].fib <==> !dup
    {
      FibAddKeeps(View(), x, dup);
      if dup {
        DstRelease(x);
      } else {
        routes := routes[x := routes[x].(fib := true, found := true, holders := routes[x].holders - 1)];
      }
    }

    /** nip_route_add. */
    method NipRouteAdd(x: int, d: int, dup: bool)
      requires Ledger(View()) && x !in routes && x != NONE && d in devs
      modifies this`routes, this`devs
      ensures Ledger(View()) && View() == RouteAdd(old(View()), x, d, dup)
    {
      CreateKeeps(View(), x, d, true);
      routes, devs := routes[x := Rt(1, false, false, NONE, d, NONE, NONE, true, false, 1)], DevHold(devs, d);
      NipFibAdd(x, dup);
    }

    /** __nip_del_rt. */
    method NipDelRt(x: int)
      requires Ledger(View()) && x in routes
      modifies this`routes, this`devs
      ensures Ledger(View()) && View() == DelRt(old(View()), x)
    {
      hide Ledger, Put;
      DelRtKeeps(View(), x);
      DstHold(x);
      NipFibDel(x);
      DstRelease(x);
    }
  }

  lemma DstReleaseCount(s: State, x: int)
    requires Ledger(s) && x in s.routes && s.routes[x].holders > 0
    ensures s.routes[x].count >= 1
    ensures s.routes[x].count > 1 ==> Put(s, x) == Drop(s, x)
  {
    hide DevFits, SlotsAlone, Naming, Addrs, Copies, CopyFits;
    assert RouteFits(s, x);
  }
}
