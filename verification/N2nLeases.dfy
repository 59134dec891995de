/** The lease protocol of the supernode under every interleaving of its goroutines.

    A goroutine runs from one lock section to the next without being observed, so the steps are the lock
    sections: `allocate` and `release` under the allocator's lock, everything else under the table lock.
    `allocate` is called without the table lock; `release` is called with it held, between finding a peer
    and deleting it. A registration that has its address but not yet its table entry is `waiting`. */
module N2nLeases {
  import opened Bytes
  import opened N2nProtocol
  import opened IpPool
  import opened N2nSupernode

  datatype Lock =
    | Free
    | Bye(k: Ip)  // the peer's lease is released, the peer not yet deleted
    | Sweep(cutoff: int, todo: set<Ip>, releasing: Option<Ip>)

  datatype Waiting = Waiting(vip: Ip, addr: Addr, community: seq<byte>, hostname: seq<byte>)

  datatype State = State(t: Tables, waiting: map<nat, Waiting>, lock: Lock, now: int)

  datatype Event =
    | Tick(to: int)
    | Allocate(g: nat, addr: Addr, community: seq<byte>, hostname: seq<byte>)
    | Insert(g: nat)
    | Heartbeat(src: Ip)
    | ByeRelease(src: Ip)
    | ByeDelete
    | SweepBegin
    | SweepKeep(k: Ip)
    | SweepRelease(k: Ip)
    | SweepDelete
    | SweepEnd

  function Init(now: int): State {
    State(Tables(map[], map[], {}), map[], Free, now)
  }

  predicate Enabled(s: State, e: Event) {
    match e
    case Tick(to) => s.now <= to
    case Allocate(g, _, _, _) => g !in s.waiting
    case Insert(g) => s.lock == Free && g in s.waiting
    case Heartbeat(_) => s.lock == Free
    case ByeRelease(src) => s.lock == Free
    case ByeDelete => s.lock.Bye? && s.lock.k in s.t.peers
    case SweepBegin => s.lock == Free
    case SweepKeep(k) =>
      s.lock.Sweep? && s.lock.releasing == None && k in s.lock.todo && k in s.t.peers && !Stale(s.t.peers[k], s.lock.cutoff)
    case SweepRelease(k) =>
      s.lock.Sweep? && s.lock.releasing == None && k in s.lock.todo && k in s.t.peers && Stale(s.t.peers[k], s.lock.cutoff)
    case SweepDelete => s.lock.Sweep? && s.lock.releasing.Some? && s.lock.releasing.value in s.t.peers
    case SweepEnd => s.lock.Sweep? && s.lock.releasing == None && s.lock.todo == {}
  }

  function Apply(base: Ip, s: State, e: Event): State
    requires IsIp(base) && Enabled(s, e)
  {
    match e
    case Tick(to) => s.(now := to)
    case Allocate(g, addr, community, hostname) =>
      (match FirstFree(base, s.t.used, 10)
       case None => s
       case Some(i) => s.(t := Allocated(base, s.t, i),
                          waiting := s.waiting[g := Waiting(Lease(base, i), addr, community, hostname)]))
    case Insert(g) =>
      var w := s.waiting[g];
      s.(t := Inserted(s.t, w.vip, w.addr, w.community, w.hostname, s.now), waiting := s.waiting - {g})
    case Heartbeat(src) => s.(t := Touched(s.t, src, s.now))
    case ByeRelease(src) =>
      if Key(src) in s.t.peers then s.(t := Released(s.t, Key(src)), lock := Bye(Key(src))) else s
    case ByeDelete => s.(t := Deleted(s.t, s.lock.k), lock := Free)
    case SweepBegin => s.(lock := Sweep(s.now, s.t.peers.Keys, None))
    case SweepKeep(k) => s.(lock := s.lock.(todo := s.lock.todo - {k}))
    case SweepRelease(k) => s.(t := Released(s.t, k), lock := s.lock.(todo := s.lock.todo - {k}, releasing := Some(k)))
    case SweepDelete => s.(t := Deleted(s.t, s.lock.releasing.value), lock := s.lock.(releasing := None))
    case SweepEnd => s.(lock := Free)
  }

  ghost predicate Possible(base: Ip, s: State, es: seq<Event>)
    requires IsIp(base)
    decreases es
  {
    es == [] || (Enabled(s, es[0]) && Possible(base, Apply(base, s, es[0]), es[1..]))
  }

  ghost function After(base: Ip, s: State, es: seq<Event>): State
    requires IsIp(base) && Possible(base, s, es)
    decreases es
  {
    if es == [] then s else After(base, Apply(base, s, es[0]), es[1..])
  }

  // ---------- The invariant ----------

  /** The peer whose lease is released but whose entry is not yet deleted. */
  function HalfRemoved(lock: Lock): set<Ip> {
    match lock
    case Bye(k) => {k}
    case Sweep(_, _, Some(k)) => {k}
    case _ => {}
  }

  function WaitingKeys(s: State): set<Ip> {
    set g | g in s.waiting :: Key(s.waiting[g].vip)
  }

  ghost predicate LockInv(s: State) {
    match s.lock
    case Free => true
    case Bye(k) => k in s.t.peers
    case Sweep(cutoff, todo, releasing) =>
      && cutoff <= s.now && todo <= s.t.peers.Keys
      && (releasing.Some? ==> releasing.value in s.t.peers && releasing.value !in todo)
  }

  /** `used` is exactly the peers not half removed, plus the registrations in flight. */
  ghost predicate LeasesBalance(s: State) {
    s.t.used == (s.t.peers.Keys - HalfRemoved(s.lock)) + WaitingKeys(s)
  }

  /** No registration in flight holds a live peer's address, and no two hold one address. */
  ghost predicate WaitingApart(s: State) {
    && (forall g <- s.waiting :: Key(s.waiting[g].vip) in s.t.peers ==> Key(s.waiting[g].vip) in HalfRemoved(s.lock))
    && (forall g <- s.waiting, h <- s.waiting :: g != h ==> Key(s.waiting[g].vip) != Key(s.waiting[h].vip))
  }

  /** An indexed address belongs to the live peer the index names. */
  ghost predicate IndexSound(t: Tables) {
    forall a <- t.addrIndex :: t.addrIndex[a] in t.peers && t.peers[t.addrIndex[a]].info.realAddr == a
  }

  ghost predicate FromPool(base: Ip, s: State)
    requires IsIp(base)
  {
    && s.t.peers.Keys <= Pool(base) && WaitingKeys(s) <= Pool(base)
    && forall g <- s.waiting :: IsIp(s.waiting[g].vip)
  }

  ghost predicate Plausible(t: Tables, now: int) {
    forall k <- t.peers :: t.peers[k].lastSeen <= now && |t.peers[k].info.realAddr| <= 47
  }

  ghost predicate TablesInv(s: State) {
    Keyed(s.t) && IndexSound(s.t) && Plausible(s.t, s.now) && LockInv(s)
  }

  ghost predicate LeasesInv(base: Ip, s: State)
    requires IsIp(base)
  {
    LeasesBalance(s) && WaitingApart(s) && FromPool(base, s)
  }

  ghost predicate Inv(base: Ip, s: State)
    requires IsIp(base)
  {
    TablesInv(s) && LeasesInv(base, s)
  }

  lemma InitInv(base: Ip, now: int)
    requires IsIp(base)
    ensures Inv(base, Init(now))
  {
  }

  lemma WaitingIncludes(s: State, g: nat)
    requires g in s.waiting
    ensures Key(s.waiting[g].vip) in WaitingKeys(s)
  {
  }

  lemma AllocateKeepsLeases(base: Ip, s: State, e: Event)
    requires IsIp(base) && LeasesInv(base, s) && e.Allocate? && Enabled(s, e)
    ensures LeasesInv(base, Apply(base, s, e))
  {
    var r := FirstFree(base, s.t.used, 10);
    if r.Some? {
      var w, key := Waiting(Lease(base, r.value), e.addr, e.community, e.hostname), LeaseKey(base, r.value);
      assert key in Pool(base);
      NewWaiting(base, s, e.g, w, key);
    }
  }

  lemma NewWaiting(base: Ip, s: State, g: nat, w: Waiting, key: Ip)
    requires IsIp(base) && LeasesInv(base, s) && g !in s.waiting
    requires IsIp(w.vip) && Key(w.vip) == key && key in Pool(base) && key !in s.t.used
    ensures LeasesInv(base, s.(t := s.t.(used := s.t.used + {key}), waiting := s.waiting[g := w]))
  {
    var s' := s.(t := s.t.(used := s.t.used + {key}), waiting := s.waiting[g := w]);
    WaitingGrows(s, s', g, key);
    NewWaitingApart(s, g, w, key);
  }

  lemma NewWaitingApart(s: State, g: nat, w: Waiting, key: Ip)
    requires LeasesBalance(s) && WaitingApart(s) && g !in s.waiting && Key(w.vip) == key && key !in s.t.used
    ensures WaitingApart(s.(t := s.t.(used := s.t.used + {key}), waiting := s.waiting[g := w]))
  {
    forall h | h in s.waiting ensures Key(s.waiting[h].vip) != key {
      WaitingIncludes(s, h);
    }
  }

  lemma AllocateKeepsTables(base: Ip, s: State, e: Event)
    requires IsIp(base) && TablesInv(s) && e.Allocate? && Enabled(s, e)
    ensures TablesInv(Apply(base, s, e))
  {
  }

  lemma WaitingGrows(s: State, s': State, g: nat, key: Ip)
    requires g !in s.waiting && s'.waiting.Keys == s.waiting.Keys + {g} && Key(s'.waiting[g].vip) == key
    requires forall h <- s.waiting :: s'.waiting[h] == s.waiting[h]
    ensures WaitingKeys(s') == WaitingKeys(s) + {key}
  {
    WaitingIncludes(s', g);
    forall h | h in s.waiting ensures Key(s.waiting[h].vip) in WaitingKeys(s') {
      WaitingIncludes(s', h);
    }
  }

  lemma InsertKeepsLeases(base: Ip, s: State, g: nat)
    requires IsIp(base) && Inv(base, s) && Enabled(s, Insert(g))
    ensures LeasesInv(base, Apply(base, s, Insert(g)))
  {
    var s', key := Apply(base, s, Insert(g)), Key(s.waiting[g].vip);
    assert s.waiting == s'.waiting[g := s.waiting[g]];
    WaitingGrows(s', s, g, key);
    assert key !in WaitingKeys(s');
  }

  lemma InsertKeepsTables(base: Ip, s: State, g: nat)
    requires IsIp(base) && Inv(base, s) && Enabled(s, Insert(g))
    ensures TablesInv(Apply(base, s, Insert(g)))
  {
    WaitingIncludes(s, g);
  }

  lemma HeartbeatKeepsInv(base: Ip, s: State, e: Event)
    requires IsIp(base) && Inv(base, s) && e.Heartbeat? && Enabled(s, e)
    ensures Inv(base, Apply(base, s, e))
  {
    var t' := Touched(s.t, e.src, s.now);
    SameLeases(base, s, s.(t := t'));
    TouchKeepsTables(s, e.src);
  }

  lemma SameLeases(base: Ip, s: State, s': State)
    requires IsIp(base) && LeasesInv(base, s)
    requires s'.t.peers.Keys == s.t.peers.Keys && s'.t.used == s.t.used
    requires s'.waiting == s.waiting && HalfRemoved(s'.lock) == HalfRemoved(s.lock)
    ensures LeasesInv(base, s')
  {
    assert WaitingKeys(s') == WaitingKeys(s);
  }

  lemma TouchKeepsTables(s: State, src: Ip)
    requires TablesInv(s)
    ensures TablesInv(s.(t := Touched(s.t, src, s.now)))
  {
    assert Touched(s.t, src, s.now).peers.Keys == s.t.peers.Keys;
  }

  predicate IsRemoval(e: Event) {
    e.ByeRelease? || e.ByeDelete? || e.SweepRelease? || e.SweepDelete?
  }

  lemma RemovalKeepsLeases(base: Ip, s: State, e: Event)
    requires IsIp(base) && Inv(base, s) && Enabled(s, e) && IsRemoval(e)
    ensures LeasesInv(base, Apply(base, s, e))
  {
    var s' := Apply(base, s, e);
    assert s'.waiting == s.waiting && WaitingKeys(s') == WaitingKeys(s);
    RemovalKeepsBalance(base, s, e);
    forall g | g in s.waiting ensures Key(s.waiting[g].vip) in WaitingKeys(s) {
      WaitingIncludes(s, g);
    }
  }

  lemma RemovalKeepsBalance(base: Ip, s: State, e: Event)
    requires IsIp(base) && Inv(base, s) && Enabled(s, e) && IsRemoval(e)
    ensures LeasesBalance(Apply(base, s, e))
  {
    var s' := Apply(base, s, e);
    assert WaitingKeys(s') == WaitingKeys(s);
    forall g | g in s.waiting ensures Key(s.waiting[g].vip) in WaitingKeys(s) {
      WaitingIncludes(s, g);
    }
  }

  lemma RemovalKeepsTables(base: Ip, s: State, e: Event)
    requires IsIp(base) && Inv(base, s) && Enabled(s, e) && IsRemoval(e)
    ensures TablesInv(Apply(base, s, e))
  {
  }

  lemma StepKeepsInv(base: Ip, s: State, e: Event)
    requires IsIp(base) && Inv(base, s) && Enabled(s, e)
    ensures Inv(base, Apply(base, s, e))
  {
    match e
    case Allocate(_, _, _, _) => AllocateKeepsLeases(base, s, e); AllocateKeepsTables(base, s, e);
    case Insert(g) => InsertKeepsLeases(base, s, g); InsertKeepsTables(base, s, g);
    case Heartbeat(_) => HeartbeatKeepsInv(base, s, e);
    case Tick(_) => SameLeases(base, s, Apply(base, s, e));
    case SweepBegin => SameLeases(base, s, Apply(base, s, e));
    case SweepKeep(_) => SameLeases(base, s, Apply(base, s, e));
    case SweepEnd => SameLeases(base, s, Apply(base, s, e));
    case _ => RemovalKeepsLeases(base, s, e); RemovalKeepsTables(base, s, e);
  }

  /** In every interleaving, from the empty supernode on. */
  lemma {:induction false} RunKeepsInv(base: Ip, s: State, es: seq<Event>)
    requires IsIp(base) && Inv(base, s) && Possible(base, s, es)
    ensures Inv(base, After(base, s, es))
    decreases es
  {
    if es != [] {
      StepKeepsInv(base, s, es[0]);
      RunKeepsInv(base, Apply(base, s, es[0]), es[1..]);
    }
  }

  ghost predicate Reachable(base: Ip, s: State)
    requires IsIp(base)
  {
    exists now, es :: Possible(base, Init(now), es) && After(base, Init(now), es) == s
  }

  lemma ReachableInv(base: Ip, s: State)
    requires IsIp(base) && Reachable(base, s)
    ensures Inv(base, s)
  {
    var now, es :| Possible(base, Init(now), es) && After(base, Init(now), es) == s;
    InitInv(base, now);
    RunKeepsInv(base, Init(now), es);
  }

  // ---------- What follows for every reachable state ----------

  /** A registration never overwrites a live peer: whenever it may write its entry, its key is vacant, its
      address is leased, and no other registration in flight holds it. */
  lemma NoOverwrite(base: Ip, s: State, g: nat)
    requires IsIp(base) && Reachable(base, s) && Enabled(s, Insert(g))
    ensures var k := Key(s.waiting[g].vip);
      && k !in s.t.peers && k in s.t.used
      && (forall h <- s.waiting :: h != g ==> Key(s.waiting[h].vip) != k)
      && (forall a <- s.t.addrIndex :: s.t.addrIndex[a] != k)
  {
    ReachableInv(base, s);
    assert Key(s.waiting[g].vip) in WaitingKeys(s);
  }

  /** The leases in every reachable state, and in a quiet one: no lease leaks. */
  lemma LeasesExact(base: Ip, s: State)
    requires IsIp(base) && Reachable(base, s)
    ensures LeasesBalance(s) && WaitingKeys(s) !! (s.t.peers.Keys - HalfRemoved(s.lock))
    ensures s.lock == Free && s.waiting == map[] ==> s.t.used == s.t.peers.Keys
    ensures s.t.used <= Pool(base) && |s.t.used| <= 245 && |s.t.peers| <= 245
  {
    ReachableInv(base, s);
    PoolSize(base, 255);
    SubsetSize(s.t.used, Pool(base));
    SubsetSize(s.t.peers.Keys, Pool(base));
  }

  lemma {:induction false} SubsetSize(a: set<Ip>, b: set<Ip>)
    requires a <= b
    ensures |a| <= |b|
  {
    if a != {} {
      var x :| x in a;
      SubsetSize(a - {x}, b - {x});
    }
  }

  /** Soundness of the address index, in every reachable state, also while a removal is half done. */
  lemma IndexSoundAlways(base: Ip, s: State)
    requires IsIp(base) && Reachable(base, s)
    ensures IndexSound(s.t)
  {
    ReachableInv(base, s);
  }

  /** Every virtual IP given out is a host address of the network. */
  ghost predicate InNetwork(base: Ip, s: State) {
    && (forall k <- s.t.peers :: IsHost(base, s.t.peers[k].info.virtualIp))
    && (forall g <- s.waiting :: IsHost(base, s.waiting[g].vip))
  }

  lemma StepKeepsNetwork(base: Ip, s: State, e: Event)
    requires IsIp(base) && InNetwork(base, s) && Enabled(s, e)
    ensures InNetwork(base, Apply(base, s, e))
  {
    if e.Allocate? && FirstFree(base, s.t.used, 10).Some? {
      LeaseIsHost(base, FirstFree(base, s.t.used, 10).value);
    }
  }

  lemma {:induction false} RunKeepsNetwork(base: Ip, s: State, es: seq<Event>)
    requires IsIp(base) && InNetwork(base, s) && Possible(base, s, es)
    ensures InNetwork(base, After(base, s, es))
    decreases es
  {
    if es != [] {
      StepKeepsNetwork(base, s, es[0]);
      RunKeepsNetwork(base, Apply(base, s, es[0]), es[1..]);
    }
  }

  /** In every reachable state the virtual IP of each peer and of each registration in flight has all bytes of the
      network's base but the last, and that from 10 to 254. */
  lemma PeersInNetwork(base: Ip, s: State)
    requires IsIp(base) && Reachable(base, s)
    ensures forall k <- s.t.peers :: IsHost(base, s.t.peers[k].info.virtualIp)
    ensures forall g <- s.waiting :: IsHost(base, s.waiting[g].vip)
  {
    var now, es :| Possible(base, Init(now), es) && After(base, Init(now), es) == s;
    RunKeepsNetwork(base, Init(now), es);
  }

  ghost predicate IndexComplete(t: Tables) {
    forall k <- t.peers :: t.peers[k].info.realAddr in t.addrIndex
  }

  ghost predicate AddressesApart(t: Tables) {
    forall j <- t.peers, k <- t.peers :: j != k ==> t.peers[j].info.realAddr != t.peers[k].info.realAddr
  }

  /** Every live peer is what its address is indexed to; so no two have one address. */
  ghost predicate IndexExact(t: Tables) {
    forall k <- t.peers :: t.peers[k].info.realAddr in t.addrIndex && t.addrIndex[t.peers[k].info.realAddr] == k
  }

  /** In the run no address registers while a peer of that address is live. */
  ghost predicate NewAddresses(base: Ip, s: State, es: seq<Event>)
    requires IsIp(base) && Possible(base, s, es)
    decreases es
  {
    es == [] ||
    (&& (es[0].Insert? ==> forall k <- s.t.peers :: s.t.peers[k].info.realAddr != s.waiting[es[0].g].addr)
     && NewAddresses(base, Apply(base, s, es[0]), es[1..]))
  }

  lemma StepKeepsIndexExact(base: Ip, s: State, e: Event)
    requires IsIp(base) && Enabled(s, e) && IndexExact(s.t)
    requires e.Insert? ==> forall k <- s.t.peers :: s.t.peers[k].info.realAddr != s.waiting[e.g].addr
    ensures IndexExact(Apply(base, s, e).t)
  {
  }

  lemma {:induction false} RunKeepsIndexExact(base: Ip, s: State, es: seq<Event>)
    requires IsIp(base) && Possible(base, s, es) && IndexExact(s.t) && NewAddresses(base, s, es)
    ensures IndexExact(After(base, s, es).t)
    decreases es
  {
    if es != [] {
      StepKeepsIndexExact(base, s, es[0]);
      RunKeepsIndexExact(base, Apply(base, s, es[0]), es[1..]);
    }
  }

  lemma DeletionLosesIndex(t: Tables, j: Ip, k: Ip)
    requires j in t.peers && k in t.peers && j != k && t.peers[j].info.realAddr == t.peers[k].info.realAddr
    ensures !IndexComplete(Deleted(t, k))
  {
    var t' := Deleted(t, k);
    assert j in t'.peers && t'.peers[j].info.realAddr !in t'.addrIndex;
  }

  lemma IndexExactIff(t: Tables)
    requires IndexSound(t) && IndexComplete(t)
    ensures IndexExact(t) <==> AddressesApart(t)
  {
  }

  lemma SharedAddressLost(base: Ip, s: State) returns (es: seq<Event>)
    requires IsIp(base) && TablesInv(s) && s.lock == Free && !AddressesApart(s.t)
    ensures Possible(base, s, es) && NewAddresses(base, s, es) && !IndexComplete(After(base, s, es).t)
  {
    var j, k :| j in s.t.peers && k in s.t.peers && j != k && s.t.peers[j].info.realAddr == s.t.peers[k].info.realAddr;
    var src := s.t.peers[k].info.virtualIp;
    es := [ByeRelease(src), ByeDelete];
    ByeRun(base, s, src);
    DeletionLosesIndex(Released(s.t, k), j, k);
  }

  /** The converse of soundness depends on the addresses: every live peer stays indexed, through any run
      in which no address registers again while its peer is live, if and only if no two live peers share an
      address to begin with. The empty supernode is such a beginning. */
  lemma IndexStaysCompleteIff(base: Ip, s: State)
    requires IsIp(base) && Reachable(base, s) && s.lock == Free && IndexComplete(s.t)
    ensures (forall es | Possible(base, s, es) && NewAddresses(base, s, es) :: IndexComplete(After(base, s, es).t))
       <==> AddressesApart(s.t)
  {
    ReachableInv(base, s);
    IndexExactIff(s.t);
    if AddressesApart(s.t) {
      forall es | Possible(base, s, es) && NewAddresses(base, s, es) ensures IndexComplete(After(base, s, es).t) {
        RunKeepsIndexExact(base, s, es);
      }
    } else {
      var es := SharedAddressLost(base, s);
    }
  }

  /** A bye with nothing in between. */
  lemma ByeRun(base: Ip, s: State, src: Ip)
    requires IsIp(base) && s.lock == Free && Key(src) in s.t.peers
    ensures var es := [ByeRelease(src), ByeDelete];
      && Possible(base, s, es) && NewAddresses(base, s, es)
      && After(base, s, es) == s.(t := Removed(s.t, Key(src)))
  {
    var es := [ByeRelease(src), ByeDelete];
    var s1 := Apply(base, s, ByeRelease(src));
    assert es[1..] == [ByeDelete] && es[1..][1..] == [];
    assert Possible(base, s1, es[1..]);
    assert After(base, s1, es[1..]) == Apply(base, s1, ByeDelete);
  }

  /** A registration with nothing in between. */
  lemma RegisterRun(base: Ip, s: State, g: nat, addr: Addr, community: seq<byte>, hostname: seq<byte>)
    requires IsIp(base) && s.lock == Free && g !in s.waiting && FirstFree(base, s.t.used, 10).Some?
    ensures var es := [Allocate(g, addr, community, hostname), Insert(g)]; var i := FirstFree(base, s.t.used, 10).value;
      && Possible(base, s, es)
      && After(base, s, es)
      == s.(t := Inserted(Allocated(base, s.t, i), Lease(base, i), addr, community, hostname, s.now))
  {
    var es := [Allocate(g, addr, community, hostname), Insert(g)];
    var s1 := Apply(base, s, es[0]);
    assert es[1..] == [Insert(g)] && es[1..][1..] == [];
    assert s1.waiting - {g} == s.waiting;
    assert Possible(base, s1, es[1..]);
    assert After(base, s1, es[1..]) == Apply(base, s1, Insert(g));
  }

  /** A handler that nobody interrupts takes its steps one after the other. */
  lemma UninterruptedHandlers(base: Ip, s: State, g: nat, addr: Addr, community: seq<byte>, hostname: seq<byte>, src: Ip)
    requires IsIp(base) && s.lock == Free && g !in s.waiting
    ensures var es := [Allocate(g, addr, community, hostname), Insert(g)]; var r := FirstFree(base, s.t.used, 10);
      r.Some? ==>
        && Possible(base, s, es)
        && After(base, s, es)
        == s.(t := Inserted(Allocated(base, s.t, r.value), Lease(base, r.value), addr, community, hostname, s.now))
    ensures var es := [ByeRelease(src), ByeDelete]; var k := Key(src);
      k in s.t.peers ==> Possible(base, s, es) && After(base, s, es) == s.(t := Removed(s.t, k))
  {
    if FirstFree(base, s.t.used, 10).Some? {
      RegisterRun(base, s, g, addr, community, hostname);
    }
    if Key(src) in s.t.peers {
      ByeRun(base, s, src);
    }
  }

  lemma {:induction false} RunsCompose(base: Ip, s: State, es: seq<Event>, fs: seq<Event>)
    requires IsIp(base) && Possible(base, s, es) && Possible(base, After(base, s, es), fs)
    ensures Possible(base, s, es + fs) && After(base, s, es + fs) == After(base, After(base, s, es), fs)
    decreases es
  {
    if es == [] {
      assert es + fs == fs;
    } else {
      RunsCompose(base, Apply(base, s, es[0]), es[1..], fs);
      assert (es + fs)[1..] == es[1..] + fs;
    }
  }

  lemma StillReachable(base: Ip, s: State, fs: seq<Event>)
    requires IsIp(base) && Reachable(base, s) && Possible(base, s, fs)
    ensures Reachable(base, After(base, s, fs))
  {
    var now, es :| Possible(base, Init(now), es) && After(base, Init(now), es) == s;
    RunsCompose(base, Init(now), es, fs);
  }

  /** And registering again from the address of a live peer can lose that: from every reachable state where the
      pool has two addresses left, after two registrations from one address and a bye of the first the
      second is live and not indexed. */
  lemma SharedAddressUnindexed(base: Ip, s: State, g: nat, addr: Addr, community: seq<byte>, hostname: seq<byte>) returns (s': State)
    requires IsIp(base) && Reachable(base, s) && s.lock == Free && g !in s.waiting
    requires var r := FirstFree(base, s.t.used, 10);
      r.Some? && FirstFree(base, s.t.used + {LeaseKey(base, r.value)}, 10).Some?
    ensures Reachable(base, s') && !IndexComplete(s'.t)
  {
    var i := FirstFree(base, s.t.used, 10).value;
    RegisterRun(base, s, g, addr, community, hostname);
    StillReachable(base, s, [Allocate(g, addr, community, hostname), Insert(g)]);
    var s1 := s.(t := Inserted(Allocated(base, s.t, i), Lease(base, i), addr, community, hostname, s.now));
    var j := FirstFree(base, s1.t.used, 10).value;
    RegisterRun(base, s1, g, addr, community, hostname);
    StillReachable(base, s1, [Allocate(g, addr, community, hostname), Insert(g)]);
    var s2 := s1.(t := Inserted(Allocated(base, s1.t, j), Lease(base, j), addr, community, hostname, s.now));
    ByeRun(base, s2, Lease(base, i));
    StillReachable(base, s2, [ByeRelease(Lease(base, i)), ByeDelete]);
    s' := s2.(t := Removed(s2.t, LeaseKey(base, i)));
    DeletionLosesIndex(Released(s2.t, LeaseKey(base, i)), LeaseKey(base, j), LeaseKey(base, i));
  }

  /** The holder of the table lock can take its next step, a sweep any peer it has not visited; the last step
      gives the lock up. */
  ghost predicate HolderProceeds(base: Ip, s: State)
    requires IsIp(base)
  {
    match s.lock
    case Free => true
    case Bye(_) => Enabled(s, ByeDelete) && Apply(base, s, ByeDelete).lock == Free
    case Sweep(_, todo, Some(_)) => Enabled(s, SweepDelete)
    case Sweep(_, todo, None) =>
      if todo == {} then Enabled(s, SweepEnd) && Apply(base, s, SweepEnd).lock == Free
      else forall k <- todo :: Enabled(s, SweepKeep(k)) || Enabled(s, SweepRelease(k))
  }

  /** The table lock is always given up. */
  lemma LockHolderProceeds(base: Ip, s: State)
    requires IsIp(base) && Reachable(base, s)
    ensures HolderProceeds(base, s)
  {
    ReachableInv(base, s);
    LockedProceeds(base, s);
  }

  lemma LockedProceeds(base: Ip, s: State)
    requires IsIp(base) && LockInv(s)
    ensures HolderProceeds(base, s)
  {
  }

  // ---------- Cleanup, whatever runs beside it ----------

  predicate NoSweepEnd(es: seq<Event>) {
    forall e <- es :: !e.SweepEnd?
  }

  /** Where a sweep that began with the tables `t0` stands. */
  ghost predicate Sweeping(t0: Tables, cutoff: int, s: State) {
    && s.lock.Sweep? && s.lock.cutoff == cutoff && s.lock.todo <= t0.peers.Keys
    && (s.lock.releasing.Some? ==> s.lock.releasing.value in t0.peers && s.lock.releasing.value !in s.lock.todo
                                   && Stale(t0.peers[s.lock.releasing.value], cutoff))
    && var gone := StaleAmong(t0, t0.peers.Keys - s.lock.todo - HalfRemoved(s.lock), cutoff);
       s.t.peers == Without(t0, gone).peers && s.t.addrIndex == Without(t0, gone).addrIndex
  }

  lemma SweepStep(base: Ip, t0: Tables, cutoff: int, s: State, e: Event)
    requires IsIp(base) && Enabled(s, e) && Sweeping(t0, cutoff, s) && !e.SweepEnd?
    ensures Sweeping(t0, cutoff, Apply(base, s, e))
  {
    var s' := Apply(base, s, e);
    var gone := StaleAmong(t0, t0.peers.Keys - s.lock.todo - HalfRemoved(s.lock), cutoff);
    var gone' := StaleAmong(t0, t0.peers.Keys - s'.lock.todo - HalfRemoved(s'.lock), cutoff);
    match e
    case SweepKeep(k) => assert gone' == gone;
    case SweepRelease(k) => assert gone' == gone;
    case SweepDelete =>
      var k := s.lock.releasing.value;
      assert gone' == gone + {k};
      WithoutOneMore(t0, gone, k);
    case _ =>
  }

  lemma {:induction false} SweepRun(base: Ip, t0: Tables, cutoff: int, s: State, es: seq<Event>)
    requires IsIp(base) && Possible(base, s, es) && Sweeping(t0, cutoff, s) && NoSweepEnd(es)
    ensures Sweeping(t0, cutoff, After(base, s, es))
    decreases es
  {
    if es != [] {
      SweepStep(base, t0, cutoff, s, es[0]);
      SweepRun(base, t0, cutoff, Apply(base, s, es[0]), es[1..]);
    }
  }

  /** A cleanup, whatever its map order and whatever is allocated or awaited meanwhile, removes exactly the
      peers that were stale when it began, and their indexed addresses. */
  lemma CleanupExact(base: Ip, s: State, es: seq<Event>)
    requires IsIp(base) && Enabled(s, SweepBegin) && NoSweepEnd(es)
    requires var s1 := Apply(base, s, SweepBegin); Possible(base, s1, es) && Enabled(After(base, s1, es), SweepEnd)
    ensures var s2 := Apply(base, After(base, Apply(base, s, SweepBegin), es), SweepEnd);
      && s2.lock == Free
      && s2.t.peers == Swept(s.t, s.now).peers && s2.t.addrIndex == Swept(s.t, s.now).addrIndex
      && (forall k <- s.t.peers :: k in s2.t.peers <==> s.now - s.t.peers[k].lastSeen <= 300_000_000_000)
  {
    var s1 := Apply(base, s, SweepBegin);
    assert StaleAmong(s.t, {}, s.now) == {};
    assert s.t.peers.Keys - s1.lock.todo - HalfRemoved(s1.lock) == {};
    SweepRun(base, s.t, s.now, s1, es);
    var s2 := After(base, s1, es);
    assert s.t.peers.Keys - s2.lock.todo - HalfRemoved(s2.lock) == s.t.peers.Keys;
  }

  // ---------- A peer that keeps sending heartbeats ----------

  /** Throughout the run no more than five minutes pass since the last processed heartbeat of `k`
      (`last` at the start), and no bye of `k` is handled. */
  ghost predicate Attentive(base: Ip, s: State, es: seq<Event>, k: Ip, last: int)
    requires IsIp(base) && Possible(base, s, es)
    decreases es
  {
    && s.now - last <= 300_000_000_000
    && (es == [] ||
        (&& !(es[0].ByeRelease? && Key(es[0].src) == k)
         && var last' := if es[0].Heartbeat? && Key(es[0].src) == k then s.now else last;
            Attentive(base, Apply(base, s, es[0]), es[1..], k, last')))
  }

  /** `k` is a live peer, still leased, at `addr`, and nobody else is about to get its address. */
  ghost predicate Holds(s: State, k: Ip, addr: Addr, last: int) {
    && k in s.t.peers && k !in HalfRemoved(s.lock) && s.t.peers[k].info.realAddr == addr
    && s.t.peers[k].lastSeen == last
    && k in s.t.used && k !in WaitingKeys(s)
  }

  lemma HoldsStep(base: Ip, s: State, e: Event, k: Ip, addr: Addr, last: int)
    requires IsIp(base) && Inv(base, s) && Enabled(s, e) && Holds(s, k, addr, last)
    requires s.now - last <= TIMEOUT && !(e.ByeRelease? && Key(e.src) == k)
    ensures Holds(Apply(base, s, e), k, addr, if e.Heartbeat? && Key(e.src) == k then s.now else last)
  {
    var s' := Apply(base, s, e);
    StepKeepsInv(base, s, e);
    if e.Insert? {
      assert Key(s.waiting[e.g].vip) in WaitingKeys(s);
    }
    assert k !in HalfRemoved(s'.lock);
    assert k in s'.t.peers;
    forall g | g in s'.waiting ensures Key(s'.waiting[g].vip) != k {
    }
  }

  /** It keeps its virtual IP and its address to the end of the run, and so throughout. */
  lemma {:induction false} AttentivePeerKept(base: Ip, s: State, es: seq<Event>, k: Ip, addr: Addr, last: int) returns (end: int)
    requires IsIp(base) && Inv(base, s) && Possible(base, s, es)
    requires Holds(s, k, addr, last) && Attentive(base, s, es, k, last)
    ensures Holds(After(base, s, es), k, addr, end)
    decreases es
  {
    end := last;
    if es != [] {
      HoldsStep(base, s, es[0], k, addr, last);
      StepKeepsInv(base, s, es[0]);
      var last' := if es[0].Heartbeat? && Key(es[0].src) == k then s.now else last;
      end := AttentivePeerKept(base, Apply(base, s, es[0]), es[1..], k, addr, last');
    }
  }

  /** A registration starts such a run: its entry is live, indexed and leased at once. */
  lemma InsertedPeerHolds(base: Ip, s: State, g: nat)
    requires IsIp(base) && Reachable(base, s) && Enabled(s, Insert(g))
    ensures var w, s' := s.waiting[g], Apply(base, s, Insert(g));
      Holds(s', Key(w.vip), w.addr, s.now) && s'.t.addrIndex[w.addr] == Key(w.vip)
  {
    ReachableInv(base, s);
    WaitingIncludes(s, g);
    StepKeepsInv(base, s, Insert(g));
  }
}
