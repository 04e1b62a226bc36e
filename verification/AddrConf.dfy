/** Configured addresses: the global hash table, the per-device lists and the LOCAL
    routing table, which must all describe the same addresses. */
module AddrConf {
  import opened NipAddr
  import opened Fib

  /** What matters of a network device and of its ninet_dev, if it has one (`attached`);
      `mtuOk`: its MTU is at least NIP_MIN_MTU. */
  datatype Dev = Dev(attached: bool, running: bool, disabled: bool, ignoreLinkdown: bool, unregistering: bool, mtuOk: bool)

  /** The devices and the three views. An address and its LOCAL route are created
      together: both are a Route, told apart from later ones by its serial number. */
  datatype Conf = Conf(devs: map<int, Dev>, hash: Buckets, lists: map<int, seq<Route>>, local: Buckets, next: nat) {

    function ListOf(dev: int): seq<Route> {
      if dev in lists then lists[dev] else []
    }

    function Attached(dev: int): bool {
      dev in devs && devs[dev].attached
    }
  }

  /** nip_addrconf_ifaddr_check: valid and not public. */
  predicate Configurable(a: Key) {
    ValidAddr(a) && !(a.field[0] == 0xFF && a.bitlen == 16)
  }

  /** r is among the addresses, by each of the three views. */
  predicate InHash(c: Conf, r: Route)
  {
    r in c.hash[Hash(r.dst)]
  }

  predicate InLists(c: Conf, r: Route) {
    r in c.ListOf(r.dev)
  }

  predicate InLocal(c: Conf, r: Route)
  {
    Holds(c.local, r)
  }

  /** The three views describe the same addresses. */
  ghost predicate Agree(c: Conf)
  {
    forall r: Route :: (InHash(c, r) <==> InLists(c, r)) && (InLists(c, r) <==> InLocal(c, r))
  }

  predicate AllOn(q: seq<Route>, dev: int) {
    forall i :: 0 <= i < |q| ==> q[i].dev == dev
  }

  /** The views are well formed: buckets hold what hashes to them, lists what is on their
      device, LOCAL one route per address and device; nothing public is configured. */
  ghost predicate Shaped3(c: Conf) {
    && (forall i :: 0 <= i < |c.hash| ==> AllHash(c.hash[i], i))
    && Placed(c.local) && Distinct(false, c.local)
    && (forall d :: AllOn(c.ListOf(d), d) && (!c.Attached(d) ==> c.ListOf(d) == []))
    && (forall r :: InLocal(c, r) ==> r.serial < c.next && Configurable(r.dst))
  }

  ghost predicate Inv(c: Conf) {
    Shaped3(c) && Agree(c)
  }

  datatype Result = Done | Invalid | NoDevice | NoBuffers | Denied | Exists

  // ---- Adding ----

  /** nip_chk_same_addr. */
  predicate Same(c: Conf, a: Key, dev: int)
  {
    exists r :: r in c.hash[Hash(a)] && AddrEq(r.dst, a) && r.dev == dev
  }

  /** nip_find_idev: a device without a ninet_dev gets one, with the default settings,
      if its MTU is large enough. */
  function Prepared(c: Conf, dev: int): Conf {
    if dev in c.devs && !c.devs[dev].attached && c.devs[dev].mtuOk
    then c.(devs := c.devs[dev := c.devs[dev].(attached := true, disabled := false, ignoreLinkdown := false)])
    else c
  }

  /** The tests behind nip_find_idev: of nip_addrconf_add_dev and of nip_add_addr. */
  function AttachedVerdict(c: Conf, dev: int, a: Key): Result
    requires c.Attached(dev)
  {
    if c.devs[dev].disabled then Denied
    else if !c.devs[dev].running then NoDevice
    else if Same(c, a, dev) then Exists
    else Done
  }

  /** The answer to a request for a new address. */
  function AddVerdict(c: Conf, dev: int, a: Key): Result
  {
    if !Configurable(a) then Invalid
    else if dev !in c.devs then NoDevice
    else if !Prepared(c, dev).Attached(dev) then NoBuffers
    else AttachedVerdict(Prepared(c, dev), dev, a)
  }

  /** The new address at the head of its hash chain, at the tail of its device's list,
      and in LOCAL unless nip_fib_add finds a duplicate there. */
  function Added(c: Conf, dev: int, a: Key): Conf
  {
    var r, n := Route(a, dev, c.next), Hash(a);
    c.(hash := c.hash[n := [r] + c.hash[n]],
       lists := c.lists[dev := c.ListOf(dev) + [r]],
       local := if exists s :: s in c.local[n] && Duplicate(false, s, r) then c.local else Appended(c.local, r),
       next := c.next + 1)
  }

  /** What a request for a new address leaves: a ninet_dev stays even if it is refused. */
  function Requested(c: Conf, dev: int, a: Key): Conf
  {
    if !Configurable(a) then c
    else if AddVerdict(c, dev, a).Done? then Added(Prepared(c, dev), dev, a)
    else Prepared(c, dev)
  }

  lemma NotPublic(a: Key)
    requires Configurable(a)
    ensures !AddrEq(a, ANY)
  {
    assert Used(ANY)[0] == 0xFF;
    if a.bitlen == 16 {
      assert Used(a)[0] == a.field[0];
    }
  }

  lemma NoDuplicateLocal(c: Conf, dev: int, a: Key)
    requires Inv(c) && !Same(c, a, dev)
    ensures forall s :: Holds(c.local, s) ==> !Duplicate(false, s, Route(a, dev, c.next))
  {
    hide Hash, AddrEq;
    forall s | Holds(c.local, s) ensures !(AddrEq(s.dst, a) && s.dev == dev) {
      assert InLocal(c, s) && InHash(c, s);
      if AddrEq(s.dst, a) { EqualAddrs(s.dst, a); }
    }
  }

  lemma AddedLocal(c: Conf, dev: int, a: Key)
    requires Inv(c) && !Same(c, a, dev)
    ensures Added(c, dev, a).local == Appended(c.local, Route(a, dev, c.next))
  {
    hide Hash, AddrEq, ValidAddr, Configurable;
    var r := Route(a, dev, c.next);
    NoDuplicateLocal(c, dev, a);
    forall s | s in c.local[Hash(a)] ensures !Duplicate(false, s, r) {
      AnyBucket(c.local, Hash(a), s);
    }
  }

  lemma AddedHash(c: Conf, dev: int, a: Key, s: Route)
    ensures InHash(Added(c, dev, a), s) <==> InHash(c, s) || s == Route(a, dev, c.next)
  {
    hide Hash, AddrEq;
  }

  lemma AddedList(c: Conf, dev: int, a: Key, s: Route)
    ensures InLists(Added(c, dev, a), s) <==> InLists(c, s) || s == Route(a, dev, c.next)
  {
    hide Hash, AddrEq;
  }

  lemma AddedShape(c: Conf, dev: int, a: Key)
    requires Inv(c) && Configurable(a) && c.Attached(dev) && !Same(c, a, dev)
    ensures Shaped3(Added(c, dev, a))
  {
    hide Hash, AddrEq, ValidAddr, Configurable;
    var c', r := Added(c, dev, a), Route(a, dev, c.next);
    AddedLocal(c, dev, a);
    NoDuplicateLocal(c, dev, a);
    AppendedPlaced(c.local, r);
    AppendedDistinct(false, c.local, r);
    forall i | 0 <= i < |c'.hash| ensures AllHash(c'.hash[i], i) {
      assert AllHash(c.hash[i], i);
    }
    forall d ensures AllOn(c'.ListOf(d), d) && (!c'.Attached(d) ==> c'.ListOf(d) == []) {
      assert AllOn(c.ListOf(d), d);
    }
    forall s | InLocal(c', s) ensures s.serial < c'.next && Configurable(s.dst) {
      AppendedHolds(c.local, r, s);
      assert InLocal(c, s) || s == r;
    }
  }

  /** An address that is added is added to all three views. */
  lemma AddKeeps(c: Conf, dev: int, a: Key)
    requires Inv(c) && Configurable(a) && c.Attached(dev) && !Same(c, a, dev)
    ensures Inv(Added(c, dev, a))
    ensures forall s :: InLists(Added(c, dev, a), s) <==> InLists(c, s) || s == Route(a, dev, c.next)
  {
    hide Hash, AddrEq, ValidAddr, Configurable, Added, Shaped3;
    var c' := Added(c, dev, a);
    AddedShape(c, dev, a);
    AddedLocal(c, dev, a);
    forall s: Route
      ensures (InHash(c', s) <==> InLists(c', s)) && (InLists(c', s) <==> InLocal(c', s))
      ensures InLists(c', s) <==> InLists(c, s) || s == Route(a, dev, c.next)
    {
      AddedHash(c, dev, a, s);
      AddedList(c, dev, a, s);
      AppendedHolds(c.local, Route(a, dev, c.next), s);
    }
  }

  lemma PreparedKeeps(c: Conf, dev: int)
    requires Inv(c)
    ensures Inv(Prepared(c, dev))
  {
    hide Hash, AddrEq, Configurable, Shaped3, Agree;
    if Prepared(c, dev) != c { UpKeeps(c, dev, Prepared(c, dev).devs[dev]); }
  }

  /** Every request for an address keeps the agreement, and adds the address to all three
      views exactly when it is granted. */
  lemma RequestKeeps(c: Conf, dev: int, a: Key)
    requires Inv(c)
    ensures Inv(Requested(c, dev, a))
    ensures forall s :: InLists(Requested(c, dev, a), s) <==>
                        InLists(c, s) || (AddVerdict(c, dev, a).Done? && s == Route(a, dev, c.next))
  {
    hide Hash, AddrEq, ValidAddr, Configurable, Added, Shaped3, Agree, Same;
    PreparedKeeps(c, dev);
    if AddVerdict(c, dev, a).Done? { AddKeeps(Prepared(c, dev), dev, a); }
  }

  /** One of the device's own addresses equals a: what nip_chk_same_addr looks for in
      the hash table. */
  lemma SameIsListed(c: Conf, a: Key, dev: int)
    requires Inv(c)
    ensures Same(c, a, dev) <==> exists r :: r in c.ListOf(dev) && AddrEq(r.dst, a)
  {
    hide Hash, Configurable, Holds, AddrEq;
    if Same(c, a, dev) {
      var r :| r in c.hash[Hash(a)] && AddrEq(r.dst, a) && r.dev == dev;
      EqualAddrs(r.dst, a);
      assert InHash(c, r) && InLists(c, r);
    }
    if r :| r in c.ListOf(dev) && AddrEq(r.dst, a) {
      ListedOn(c, dev, r);
      assert InLists(c, r) && InHash(c, r);
      EqualAddrs(r.dst, a);
    }
  }

  lemma ListedOn(c: Conf, dev: int, r: Route)
    requires Inv(c) && r in c.ListOf(dev)
    ensures r.dev == dev
  {
    hide Hash, Configurable, Agree;
    assert AllOn(c.ListOf(dev), dev);
  }

  /** When a request is granted, and what every refusal means. A device without a
      ninet_dev gets one, enabled, if its MTU allows. */
  lemma VerdictMeans(c: Conf, dev: int, a: Key)
    requires Inv(c)
    ensures var known := dev in c.devs;
            var ready := known && (c.devs[dev].attached || c.devs[dev].mtuOk);
            var off := known && c.devs[dev].attached && c.devs[dev].disabled;
            var up := known && c.devs[dev].running;
            var listed := exists r :: r in c.ListOf(dev) && AddrEq(r.dst, a);
            var v := AddVerdict(c, dev, a);
            && (v.Done? <==> Configurable(a) && ready && !off && up && !listed)
            && (v.Exists? <==> Configurable(a) && ready && !off && up && listed)
            && (v.Denied? <==> Configurable(a) && ready && off)
            && (v.NoBuffers? <==> Configurable(a) && known && !ready)
            && (v.NoDevice? <==> Configurable(a) && (!known || (ready && !off && !up)))
            && (v.Invalid? <==> !ValidAddr(a) || (a.bitlen == 16 && a.field[0] == 0xFF))
  {
    hide Hash, ValidAddr, AddrEq, Same, Shaped3, Agree;
    PreparedKeeps(c, dev);
    SameIsListed(c, a, dev);
    assert Same(Prepared(c, dev), a, dev) == Same(c, a, dev) by { SameAfter(c, dev, a); }
  }

  lemma SameAfter(c: Conf, dev: int, a: Key)
    ensures Same(Prepared(c, dev), a, dev) == Same(c, a, dev)
  {
    hide Hash, AddrEq;
  }

  // ---- Removing ----

  /** All three views, less what each selector picks. */
  ghost predicate Swept(c: Conf, c': Conf, sel: Route -> bool, selLocal: Route -> bool) {
    && Cleaned(c.hash, c'.hash, sel) && Cleaned(c.local, c'.local, selLocal)
    && (forall d :: c'.ListOf(d) == Keep(c.ListOf(d), sel))
    && c'.next == c.next
  }

  lemma SweptHash(c: Conf, c': Conf, sel: Route -> bool, selLocal: Route -> bool, r: Route)
    requires Swept(c, c', sel, selLocal)
    ensures InHash(c', r) <==> InHash(c, r) && !sel(r)
    ensures InLists(c', r) <==> InLists(c, r) && !sel(r)
    ensures InLocal(c', r) <==> InLocal(c, r) && !selLocal(r)
  {
    hide Hash;
    assert c'.hash[Hash(r.dst)] == Keep(c.hash[Hash(r.dst)], sel);
    assert c'.local[Hash(r.dst)] == Keep(c.local[Hash(r.dst)], selLocal);
  }

  lemma KeepHash(b: seq<Route>, sel: Route -> bool, i: nat)
    requires AllHash(b, i)
    ensures AllHash(Keep(b, sel), i)
  {
    hide Hash;
    forall r | r in Keep(b, sel) ensures Hash(r.dst) == i {
      assert r in b;
    }
  }

  lemma KeepOn(q: seq<Route>, sel: Route -> bool, d: int)
    requires AllOn(q, d)
    ensures AllOn(Keep(q, sel), d)
  {
    forall r | r in Keep(q, sel) ensures r.dev == d {
      assert r in q;
    }
  }

  lemma SweptShape(c: Conf, c': Conf, sel: Route -> bool, selLocal: Route -> bool)
    requires Shaped3(c) && Swept(c, c', sel, selLocal)
    requires forall d :: c'.Attached(d) || c.Attached(d) ==> c'.Attached(d) || Keep(c.ListOf(d), sel) == []
    ensures Shaped3(c')
  {
    hide Hash, Configurable;
    CleanedMeaning(c.local, c'.local, selLocal);
    forall i | 0 <= i < |c'.hash| ensures AllHash(c'.hash[i], i) {
      KeepHash(c.hash[i], sel, i);
    }
    forall d ensures AllOn(c'.ListOf(d), d) && (!c'.Attached(d) ==> c'.ListOf(d) == []) {
      KeepOn(c.ListOf(d), sel, d);
    }
    forall r | InLocal(c', r) ensures r.serial < c'.next && Configurable(r.dst) {
      assert InLocal(c, r);
    }
  }

  /** The address of nip_del_addr: the first in the device's list that is equal. */
  function Found(c: Conf, dev: int, a: Key): Option<Route> {
    First(c.ListOf(dev), a)
  }

  /** Deleting one address removes it from every view and leaves the rest. */
  lemma DeleteKeeps(c: Conf, c': Conf, r: Route)
    requires Inv(c) && Swept(c, c', (x: Route) => x == r, (x: Route) => x == r) && c'.devs == c.devs
    ensures Inv(c')
    ensures forall s :: InLists(c', s) <==> InLists(c, s) && s != r
  {
    hide Hash, Shaped3, Swept, InHash, InLists, InLocal;
    var sel := (x: Route) => x == r;
    SweptShape(c, c', sel, sel) by { assert Swept(c, c', sel, sel); }
    forall s: Route
      ensures (InHash(c', s) <==> InLists(c', s)) && (InLists(c', s) <==> InLocal(c', s))
      ensures InLists(c', s) <==> InLists(c, s) && s != r
    {
      SweptHash(c, c', sel, sel, s);
    }
  }

  /** A deletion succeeds exactly for an address of the device; what goes is that address,
      of which there is only one, so that it can be configured again; all others stay. */
  lemma DeleteMeans(c: Conf, c': Conf, dev: int, a: Key, ok: bool)
    requires Inv(c) && Deleted(c, c', dev, a, ok)
    ensures Inv(c') && (ok <==> Configurable(a) && Same(c, a, dev)) && (ok ==> !Same(c', a, dev))
    ensures forall s :: InLists(c', s) <==> InLists(c, s) && !(ok && s.dev == dev && AddrEq(s.dst, a))
  {
    hide Hash, AddrEq, Configurable, Shaped3, Agree, Swept, Keep, InHash, InLocal;
    SameIsListed(c, a, dev);
    if ok {
      var r := Found(c, dev, a).value;
      DeleteKeeps(c, c', r);
      forall s ensures InLists(c, s) && s.dev == dev && AddrEq(s.dst, a) <==> s == r {
        OneEach(c, dev, a, r, s);
      }
      SameIsListed(c', a, dev);
      forall s | s in c'.ListOf(dev) ensures !AddrEq(s.dst, a) {
        ListedOn(c', dev, s);
        assert InLists(c', s);
      }
    } else if c.ListOf(dev) != [] {
      AttachedListed(c, dev);
    }
  }

  lemma AttachedListed(c: Conf, dev: int)
    requires Inv(c) && c.ListOf(dev) != []
    ensures c.Attached(dev)
  {
    hide Hash, Configurable, Agree, AllOn;
    assert !c.Attached(dev) ==> c.ListOf(dev) == [];
  }

  /** A device has at most one address equal to a. */
  lemma OneEach(c: Conf, dev: int, a: Key, r: Route, s: Route)
    requires Inv(c) && r in c.ListOf(dev) && AddrEq(r.dst, a)
    ensures InLists(c, s) && s.dev == dev && AddrEq(s.dst, a) <==> s == r
  {
    hide Hash, AddrEq, Configurable;
    ListedOn(c, dev, r);
    if InLists(c, s) && s.dev == dev && AddrEq(s.dst, a) {
      assert InLocal(c, r) && InLocal(c, s);
      EqualAddrs(s.dst, a);
      EqualAddrs(a, s.dst);
      assert AddrEq(r.dst, s.dst) by { EqualAddrs(a, s.dst); EqualAddrs(r.dst, a); }
      assert Duplicate(false, r, s);
    }
  }

  // ---- A device goes down ----

  /** nip_fib_ifdown, for the routes of this device. */
  predicate DropsRoutes(d: Dev) {
    d.unregistering || !d.ignoreLinkdown
  }

  /** What nip_addrconf_ifdown leaves. */
  ghost predicate WentDown(c: Conf, c': Conf, dev: int, unregister: bool) {
    && dev in c.devs
    && Swept(c, c', (x: Route) => c.Attached(dev) && x.dev == dev, (x: Route) => DropsRoutes(c.devs[dev]) && x.dev == dev)
    && c'.devs == if unregister && c.Attached(dev) then c.devs[dev := c.devs[dev].(attached := false)] else c.devs
  }

  lemma DownShape(c: Conf, c': Conf, dev: int, unregister: bool)
    requires Inv(c) && WentDown(c, c', dev, unregister)
    ensures Shaped3(c')
  {
    hide Hash, InHash, InLists, InLocal, Configurable;
    var sel := (x: Route) => c.Attached(dev) && x.dev == dev;
    assert AllOn(c.ListOf(dev), dev);
    if c.Attached(dev) { KeepsNothing(c.ListOf(dev), sel); }
    SweptShape(c, c', sel, (x: Route) => DropsRoutes(c.devs[dev]) && x.dev == dev);
  }

  lemma {:induction false} KeepsNothing(q: seq<Route>, sel: Route -> bool)
    requires forall i :: 0 <= i < |q| ==> sel(q[i])
    ensures Keep(q, sel) == []
  {
    if q != [] { KeepsNothing(q[1..], sel); }
  }

  /** The exact condition: after a device has gone down the three views agree if and
      only if its routes were dropped with it, or it had no address. */
  lemma DownAgreesIff(c: Conf, c': Conf, dev: int, unregister: bool)
    requires Inv(c) && WentDown(c, c', dev, unregister)
    ensures Shaped3(c')
    ensures Agree(c') <==> c.devs[dev].unregistering || !c.devs[dev].ignoreLinkdown || c.ListOf(dev) == []
    ensures c'.Attached(dev) <==> c.Attached(dev) && !unregister
    ensures forall s :: InLists(c', s) <==> InLists(c, s) && s.dev != dev
  {
    hide Hash, Shaped3, Swept, InHash, InLists, InLocal;
    DownShape(c, c', dev, unregister);
    forall s: Route
      ensures InHash(c', s) <==> InHash(c, s) && s.dev != dev
      ensures InLists(c', s) <==> InLists(c, s) && s.dev != dev
      ensures InLocal(c', s) <==> InLocal(c, s) && !(DropsRoutes(c.devs[dev]) && s.dev == dev)
    {
      DownMember(c, c', dev, unregister, s);
    }
    if !DropsRoutes(c.devs[dev]) && c.ListOf(dev) != [] {
      var r := c.ListOf(dev)[0];
      StaleRoute(c, dev, r);
      assert !InLists(c', r) && InLocal(c', r);
    }
    if c.ListOf(dev) == [] {
      forall s: Route | s.dev == dev ensures !InLists(c, s) && !InLocal(c, s) {
        EmptyList(c, dev, s);
      }
    }
  }

  lemma DownMember(c: Conf, c': Conf, dev: int, unregister: bool, s: Route)
    requires Inv(c) && WentDown(c, c', dev, unregister)
    ensures InHash(c', s) <==> InHash(c, s) && s.dev != dev
    ensures InLists(c', s) <==> InLists(c, s) && s.dev != dev
    ensures InLocal(c', s) <==> InLocal(c, s) && !(DropsRoutes(c.devs[dev]) && s.dev == dev)
  {
    hide Hash, InHash, InLocal, Configurable;
    SweptHash(c, c', (x: Route) => c.Attached(dev) && x.dev == dev, (x: Route) => DropsRoutes(c.devs[dev]) && x.dev == dev, s);
    if !c.Attached(dev) && s.dev == dev { EmptyList(c, dev, s); }
  }

  lemma EmptyList(c: Conf, dev: int, s: Route)
    requires Inv(c) && c.ListOf(dev) == [] && s.dev == dev
    ensures !InLists(c, s) && !InLocal(c, s) && !InHash(c, s)
  {
    hide Hash, InHash, InLocal, Configurable;
    assert InHash(c, s) <==> InLists(c, s);
  }

  lemma StaleRoute(c: Conf, dev: int, r: Route)
    requires Inv(c) && r in c.ListOf(dev)
    ensures r.dev == dev && InLists(c, r) && InLocal(c, r)
  {
    hide Hash, InHash, InLocal, Configurable;
    assert AllOn(c.ListOf(dev), dev);
    assert InHash(c, r) <==> InLists(c, r);
  }

  // ---- Binding ----

  /** nip_bind_addr_check. */
  predicate BindOk(c: Conf, a: Key)
  {
    ValidAddr(a) && (AddrEq(a, ANY) || Locate(c.local, a).Some?)
  }

  /** LOCAL never holds 0xFF09, so its default route never answers: bind succeeds exactly
      for the any-address and for addresses some device is configured with. */
  lemma BindIff(c: Conf, a: Key)
    requires Inv(c)
    ensures NoExact(c.local, ANY)
    ensures BindOk(c, a) <==> ValidAddr(a) && (AddrEq(a, ANY) || exists r :: InLists(c, r) && AddrEq(r.dst, a))
  {
    hide Hash, AddrEq, Locate, ValidAddr, Configurable, InHash;
    forall r | Holds(c.local, r) ensures !AddrEq(r.dst, ANY) {
      assert InLocal(c, r);
      NotPublic(r.dst);
    }
    LocateMeaning(c.local, a);
    if Locate(c.local, a).Some? {
      var r := Locate(c.local, a).value;
      assert InLocal(c, r) && InLists(c, r);
    }
    if r: Route :| InLists(c, r) && AddrEq(r.dst, a) {
      assert InLocal(c, r);
    }
  }

  /** What ninet_addr_del does: it takes the first equal address of the device out of all
      three views, or fails and changes nothing. */
  ghost predicate Deleted(c: Conf, c': Conf, dev: int, a: Key, ok: bool) {
    if Configurable(a) && c.Attached(dev) && Found(c, dev, a).Some? then
      var r := Found(c, dev, a).value;
      ok && Swept(c, c', (x: Route) => x == r, (x: Route) => x == r) && c'.devs == c.devs
    else
      !ok && c' == c
  }

  // ---- Runs ----

  datatype Event = Add(dev: int, a: Key) | Del(dev: int, a: Key) | Down(dev: int, unregister: bool) | Up(dev: int, d: Dev)

  /** What one operation makes of the configuration. A device is created or reconfigured
      from outside; it takes no address with it. */
  ghost predicate Stepped(c: Conf, c': Conf, e: Event) {
    match e
    case Add(dev, a) => c' == Requested(c, dev, a)
    case Del(dev, a) => exists ok :: Deleted(c, c', dev, a, ok)
    case Down(dev, unregister) => WentDown(c, c', dev, unregister)
    case Up(dev, d) => c' == c.(devs := c.devs[dev := d]) && (c.Attached(dev) ==> d.attached)
  }

  /** The routes of a device that goes down go with it. */
  predicate DownDrops(c: Conf, e: Event) {
    e.Down? && e.dev in c.devs ==> DropsRoutes(c.devs[e.dev])
  }

  lemma SteppedKeeps(c: Conf, c': Conf, e: Event)
    requires Inv(c) && Stepped(c, c', e) && DownDrops(c, e)
    ensures Inv(c')
  {
    hide Hash, AddrEq, Configurable, Added, Swept, InHash, InLists, InLocal, Keep;
    match e
    case Add(dev, a) => RequestKeeps(c, dev, a);
    case Del(dev, a) =>
      var ok :| Deleted(c, c', dev, a, ok);
      if ok { DeleteKeeps(c, c', Found(c, dev, a).value); }
    case Down(dev, unregister) => DownAgreesIff(c, c', dev, unregister);
    case Up(dev, d) => UpKeeps(c, dev, d);
  }

  lemma UpKeeps(c: Conf, dev: int, d: Dev)
    requires Inv(c) && (c.Attached(dev) ==> d.attached)
    ensures Inv(c.(devs := c.devs[dev := d]))
  {
    hide Hash, AddrEq, Configurable;
    var c' := c.(devs := c.devs[dev := d]);
    assert forall e :: c'.ListOf(e) == c.ListOf(e) && (c.Attached(e) ==> c'.Attached(e));
    assert forall r :: InLists(c', r) == InLists(c, r) && InHash(c', r) == InHash(c, r) && InLocal(c', r) == InLocal(c, r);
  }

  /** Over every run in which the routes of a device go down with it, the three views
      agree after each operation. */
  lemma {:induction false} RunAgrees(cs: seq<Conf>, es: seq<Event>, k: nat)
    requires |cs| == |es| + 1 && k <= |es| && Inv(cs[0])
    requires forall i :: 0 <= i < |es| ==> Stepped(cs[i], cs[i + 1], es[i]) && DownDrops(cs[i], es[i])
    ensures Inv(cs[k])
  {
    hide Inv, Stepped, DownDrops;
    if k > 0 {
      RunAgrees(cs, es, k - 1);
      SteppedKeeps(cs[k - 1], cs[k], es[k - 1]);
    }
  }

  /** No device ignores its link going down: the default, which nothing changes. */
  ghost predicate DefaultLinkdown(c: Conf) {
    forall d :: d in c.devs ==> !c.devs[d].ignoreLinkdown
  }

  lemma SteppedKeepsDefault(c: Conf, c': Conf, e: Event)
    requires DefaultLinkdown(c) && Stepped(c, c', e) && (e.Up? ==> !e.d.ignoreLinkdown)
    ensures DefaultLinkdown(c') && DownDrops(c, e)
  {
    hide Hash, AddrEq, Configurable, Swept, Keep, Same;
    if e.Del? {
      var ok :| Deleted(c, c', e.dev, e.a, ok);
    }
  }

  /** With the settings the stack gives its devices the premise always holds: over every
      run the three views describe the same addresses. */
  lemma {:induction false} DefaultRunAgrees(cs: seq<Conf>, es: seq<Event>, k: nat)
    requires |cs| == |es| + 1 && k <= |es| && Inv(cs[0]) && DefaultLinkdown(cs[0])
    requires forall i :: 0 <= i < |es| ==> Stepped(cs[i], cs[i + 1], es[i]) && (es[i].Up? ==> !es[i].d.ignoreLinkdown)
    ensures Inv(cs[k]) && DefaultLinkdown(cs[k])
  {
    hide Inv, Stepped, DownDrops, DefaultLinkdown;
    if k > 0 {
      DefaultRunAgrees(cs, es, k - 1);
      SteppedKeepsDefault(cs[k - 1], cs[k], es[k - 1]);
      SteppedKeeps(cs[k - 1], cs[k], es[k - 1]);
    }
  }

  // ---- The operations ----

  /** All buckets without the selected routes. */
  method SweepBuckets(h: Buckets, sel: Route -> bool) returns (h': Buckets)
    ensures Cleaned(h, h', sel)
  {
    h' := h;
    var i := 0;
    while i < NIN_ROUTE_HSIZE
      invariant 0 <= i <= NIN_ROUTE_HSIZE
      invariant forall k :: 0 <= k < i ==> h'[k] == Keep(h[k], sel)
      invariant forall k :: i <= k < NIN_ROUTE_HSIZE ==> h'[k] == h[k]
    {
      var b := CleanBucket(h'[i], sel);
      h' := h'[i := b];
      i := i + 1;
    }
  }

  lemma NoneSelected(q: seq<Route>, sel: Route -> bool)
    requires forall r :: r in q ==> !sel(r)
    ensures Keep(q, sel) == q
  {
    KeepAll(q, sel);
  }

  /** Sweeping out what is on one device touches only that device's list. */
  lemma ListsSwept(c: Conf, lists': map<int, seq<Route>>, dev: int, sel: Route -> bool)
    requires forall d :: AllOn(c.ListOf(d), d)
    requires forall r :: sel(r) ==> r.dev == dev
    requires lists' == c.lists[dev := Keep(c.ListOf(dev), sel)]
    ensures forall d :: c.(lists := lists').ListOf(d) == Keep(c.ListOf(d), sel)
  {
    forall d ensures c.(lists := lists').ListOf(d) == Keep(c.ListOf(d), sel) {
      assert AllOn(c.ListOf(d), d);
      if d != dev { NoneSelected(c.ListOf(d), sel); }
    }
  }

  lemma ListsOn(c: Conf)
    requires Inv(c)
    ensures forall d :: AllOn(c.ListOf(d), d)
  {
    hide Hash, Configurable, Agree;
  }

  /** The hash table, the lists and LOCAL, updated in place. */
  class NetConf {
    var devs: map<int, Dev>
    var addrHash: Buckets
    var lists: map<int, seq<Route>>
    var local: Buckets
    var next: nat

    function View(): Conf
      reads this
    {
      Conf(devs, addrHash, lists, local, next)
    }

    constructor (devs: map<int, Dev>)
      ensures Inv(View()) && View().devs == devs
    {
      this.devs, lists, next := devs, map[], 0;
      addrHash, local := seq(NIN_ROUTE_HSIZE, i => []), seq(NIN_ROUTE_HSIZE, i => []);
    }

    /** nip_chk_same_addr: the walk over one hash chain. */
    method ChkSameAddr(a: Key, dev: int) returns (same: bool)
      ensures same <==> Same(View(), a, dev)
    {
      var j, b := 0, addrHash[Hash(a)];
      while j < |b|
        invariant 0 <= j <= |b|
        invariant forall k :: 0 <= k < j ==> !(AddrEq(b[k].dst, a) && b[k].dev == dev)
      {
        if AddrEq(b[j].dst, a) && b[j].dev == dev {
          return true;
        }
        j := j + 1;
      }
      same := false;
    }

    /** nip_find_idev. */
    method FindIdev(dev: int) returns (found: bool)
      requires Inv(View()) && dev in devs
      modifies this`devs
      ensures Inv(View()) && View() == Prepared(old(View()), dev) && (found <==> View().Attached(dev))
    {
      hide Inv;
      PreparedKeeps(View(), dev);
      if !devs[dev].attached && devs[dev].mtuOk {
        devs := devs[dev := devs[dev].(attached := true, disabled := false, ignoreLinkdown := false)];
      }
      found := devs[dev].attached;
    }

    /** ninet_addr_add with nip_add_addr and nip_ins_rt. */
    method AddIfaddr(dev: int, a: Key) returns (res: Result)
      requires Inv(View())
      modifies this
      ensures Inv(View()) && res == AddVerdict(old(View()), dev, a)
      ensures View() == Requested(old(View()), dev, a)
    {
      hide Hash, AddrEq, ValidAddr, Configurable, Inv, Added, Same;
      if !Configurable(a) {
        return Invalid;
      }
      if dev !in devs {
        return NoDevice;
      }
      var found := FindIdev(dev);
      if !found {
        return NoBuffers;
      }
      if devs[dev].disabled {
        return Denied;
      }
      if !devs[dev].running {
        return NoDevice;
      }
      var same := ChkSameAddr(a, dev);
      if same {
        return Exists;
      }
      AddKeeps(View(), dev, a);
      Link(dev, a);
      res := Done;
    }

    /** Links the new address: hash chain, device list, LOCAL. */
    method Link(dev: int, a: Key)
      modifies this
      ensures View() == Added(old(View()), dev, a)
    {
      hide Hash, AddrEq;
      var r := Route(a, dev, next);
      var n := Hash(a);
      var dup := AnyDuplicate(local[n], r);
      addrHash := addrHash[n := [r] + addrHash[n]];
      lists := lists[dev := (if dev in lists then lists[dev] else []) + [r]];
      if !dup {
        local := Appended(local, r);
      }
      next := next + 1;
    }

    /** ninet_addr_del with nip_del_addr. */
    method DelIfaddr(dev: int, a: Key) returns (ok: bool)
      requires Inv(View())
      modifies this`addrHash, this`lists, this`local
      ensures Inv(View())
      ensures Deleted(old(View()), View(), dev, a, ok)
    {
      hide Hash, AddrEq, ValidAddr;
      if !Configurable(a) || !(dev in devs && devs[dev].attached) {
        return false;
      }
      var list := if dev in lists then lists[dev] else [];
      var f := FindFirst(list, a);
      if f.None? {
        return false;
      }
      ok := true;
      Unlink(dev, f.value);
    }

    /** Takes one address out of its chain, its list and LOCAL. */
    method Unlink(dev: int, r: Route)
      requires Inv(View()) && r in View().ListOf(dev)
      modifies this`addrHash, this`lists, this`local
      ensures Inv(View()) && Swept(old(View()), View(), (x: Route) => x == r, (x: Route) => x == r)
    {
      hide Hash, AddrEq, ValidAddr, Inv, Placed, Distinct;
      ghost var c := View();
      var sel := (x: Route) => x == r;
      ListsOn(c);
      assert AllOn(c.ListOf(dev), dev);
      addrHash := SweepBuckets(addrHash, sel);
      local := SweepBuckets(local, sel);
      var list := CleanBucket(if dev in lists then lists[dev] else [], sel);
      lists := lists[dev := list];
      ListsSwept(c, lists, dev, sel);
      assert forall d :: View().ListOf(d) == c.(lists := lists).ListOf(d);
      assert Swept(c, View(), sel, sel);
      DeleteKeeps(c, View(), r);
    }

    /** nip_addrconf_ifdown. */
    method Ifdown(dev: int, unregister: bool)
      requires Inv(View()) && dev in devs
      modifies this
      ensures WentDown(old(View()), View(), dev, unregister)
    {
      hide Hash, AddrEq, ValidAddr;
      ghost var c := View();
      var d := devs[dev];
      var selLocal := (x: Route) => DropsRoutes(d) && x.dev == dev;
      var sel := (x: Route) => d.attached && x.dev == dev;
      local := SweepBuckets(local, selLocal);
      if unregister && d.attached {
        devs := devs[dev := d.(attached := false)];
      }
      addrHash := SweepBuckets(addrHash, sel);
      var list := CleanBucket(if dev in lists then lists[dev] else [], sel);
      lists := lists[dev := list];
      ListsSwept(c, lists, dev, sel);
      SweptBy(c, View(), sel, selLocal, (x: Route) => c.Attached(dev) && x.dev == dev,
              (x: Route) => DropsRoutes(c.devs[dev]) && x.dev == dev);
    }
  }

  /** Selectors that pick the same routes leave the same tables. */
  lemma SweptBy(c: Conf, c': Conf, sel: Route -> bool, selLocal: Route -> bool, sel2: Route -> bool, selLocal2: Route -> bool)
    requires Cleaned(c.hash, c'.hash, sel) && Cleaned(c.local, c'.local, selLocal)
    requires forall d :: c.(lists := c'.lists).ListOf(d) == Keep(c.ListOf(d), sel)
    requires c'.next == c.next
    requires forall r :: (sel(r) <==> sel2(r)) && (selLocal(r) <==> selLocal2(r))
    ensures Swept(c, c', sel2, selLocal2)
  {
    forall b: seq<Route> ensures Keep(b, sel) == Keep(b, sel2) && Keep(b, selLocal) == Keep(b, selLocal2) {
      SameKeep(b, sel, sel2);
      SameKeep(b, selLocal, selLocal2);
    }
    assert forall d :: c'.ListOf(d) == c.(lists := c'.lists).ListOf(d);
  }

  lemma {:induction false} SameKeep(b: seq<Route>, f: Route -> bool, g: Route -> bool)
    requires forall r :: f(r) <==> g(r)
    ensures Keep(b, f) == Keep(b, g)
  {
    if b != [] { SameKeep(b[1..], f, g); }
  }

  /** The duplicate test of nip_fib_add in LOCAL. */
  method AnyDuplicate(b: seq<Route>, r: Route) returns (dup: bool)
    ensures dup <==> exists s :: s in b && Duplicate(false, s, r)
  {
    var j := 0;
    while j < |b|
      invariant 0 <= j <= |b| && forall k :: 0 <= k < j ==> !Duplicate(false, b[k], r)
    {
      if Duplicate(false, b[j], r) {
        return true;
      }
      j := j + 1;
    }
    dup := false;
  }

  /** The walk over a device's list. */
  method FindFirst(q: seq<Route>, a: Key) returns (r: Option<Route>)
    ensures r == First(q, a)
  {
    var j := 0;
    while j < |q|
      invariant 0 <= j <= |q| && First(q[j..], a) == First(q, a)
    {
      if AddrEq(q[j].dst, a) {
        return Some(q[j]);
      }
      j := j + 1;
    }
    r := None;
  }
}
