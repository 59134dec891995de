/** The supernode's tables and the handlers that change them (n2n/supernode.go).

    Each handler is a method on the mutable tables, proved against functions on `Tables`; the same functions
    are the steps of the concurrent protocol in `N2nLeases`. Here a handler runs without interruption. */
module N2nSupernode {
  import opened Bytes
  import opened N2nProtocol
  import opened IpPool

  datatype Entry = Entry(info: PeerInfo, lastSeen: int, community: seq<byte>, hostname: seq<byte>)

  datatype Tables = Tables(peers: map<Ip, Entry>, addrIndex: map<Addr, Ip>, used: set<Ip>)

  // Times are in nanoseconds.
  const SECOND := 1_000_000_000
  const TIMEOUT := 5 * 60 * SECOND

  // ---------- What each handler does to the tables ----------

  function Allocated(base: Ip, t: Tables, i: byte): Tables
    requires IsIp(base)
  {
    t.(used := t.used + {LeaseKey(base, i)})
  }

  function Inserted(t: Tables, vip: Ip, addr: Addr, community: seq<byte>, hostname: seq<byte>, now: int): Tables {
    t.(peers := t.peers[Key(vip) := Entry(PeerInfo(vip, addr, now / SECOND), now, community, hostname)],
       addrIndex := t.addrIndex[addr := Key(vip)])
  }

  function Touched(t: Tables, src: Ip, now: int): Tables {
    TouchedKey(t, Key(src), now)
  }

  function TouchedKey(t: Tables, k: Ip, now: int): Tables {
    if k !in t.peers then t
    else
      var e := t.peers[k];
      t.(peers := t.peers[k := e.(lastSeen := now, info := e.info.(lastSeen := now / SECOND))])
  }

  function Released(t: Tables, k: Ip): Tables
    requires k in t.peers
  {
    t.(used := t.used - {Key(t.peers[k].info.virtualIp)})
  }

  function Deleted(t: Tables, k: Ip): Tables
    requires k in t.peers
  {
    t.(addrIndex := t.addrIndex - {t.peers[k].info.realAddr}, peers := t.peers - {k})
  }

  /** What a bye does. */
  function Removed(t: Tables, k: Ip): Tables {
    if k in t.peers then Deleted(Released(t, k), k) else t
  }

  predicate Stale(e: Entry, now: int) {
    now - e.lastSeen > TIMEOUT
  }

  /** The stale ones among the peers `visited`. */
  function StaleAmong(t: Tables, visited: set<Ip>, now: int): (r: set<Ip>)
    ensures r <= t.peers.Keys
  {
    set k | k in t.peers && k in visited && Stale(t.peers[k], now)
  }

  /** The tables without the peers `gone`, their indexed addresses and their leases. */
  function Without(t: Tables, gone: set<Ip>): Tables
    requires gone <= t.peers.Keys
  {
    Tables(t.peers - gone,
           t.addrIndex - (set k | k in gone :: t.peers[k].info.realAddr),
           t.used - (set k | k in gone :: Key(t.peers[k].info.virtualIp)))
  }

  function Swept(t: Tables, now: int): Tables {
    Without(t, StaleAmong(t, t.peers.Keys, now))
  }

  lemma WithoutOneMore(t: Tables, gone: set<Ip>, k: Ip)
    requires gone <= t.peers.Keys && k in t.peers && k !in gone
    ensures k in Without(t, gone).peers && Without(t, gone).peers[k] == t.peers[k]
    ensures Without(t, gone + {k}) == Deleted(Released(Without(t, gone), k), k)
  {
    var s := Without(t, gone);
    assert t.addrIndex - (set j | j in gone + {k} :: t.peers[j].info.realAddr)
        == s.addrIndex - {t.peers[k].info.realAddr};
    assert t.used - (set j | j in gone + {k} :: Key(t.peers[j].info.virtualIp))
        == s.used - {Key(t.peers[k].info.virtualIp)};
    assert t.peers - (gone + {k}) == s.peers - {k};
  }

  /** Every peer stands under the text of its own virtual IP. */
  ghost predicate Keyed(t: Tables) {
    forall k <- t.peers :: IsIp(t.peers[k].info.virtualIp) && Key(t.peers[k].info.virtualIp) == k
  }

  /** What a handler comes to. On some payloads a slice expression of the program leaves its bounds; nothing
      catches that in a handler's goroutine, so the process ends. */
  datatype Outcome = Ignored | Replied(reply: Packet) | Crashed

  /** `list` holds each peer's record once, in the map's arbitrary iteration order. */
  ghost predicate IsSnapshot(list: seq<PeerInfo>, peers: map<Ip, Entry>) {
    && |list| == |peers|
    && (forall p <- list :: Key(p.virtualIp) in peers && peers[Key(p.virtualIp)].info == p)
    && (forall k <- peers :: peers[k].info in list)
    && (forall i, j :: 0 <= i < j < |list| ==> Key(list[i].virtualIp) != Key(list[j].virtualIp))
  }

  /** `list` holds the records of the different keys `order`. */
  ghost predicate InOrder(list: seq<PeerInfo>, order: seq<Ip>, peers: map<Ip, Entry>) {
    && |list| == |order|
    && (forall i :: 0 <= i < |order| ==> order[i] in peers && list[i] == peers[order[i]].info)
    && (forall i, j :: 0 <= i < j < |order| ==> order[i] != order[j])
  }

  lemma OrderIsSnapshot(list: seq<PeerInfo>, order: seq<Ip>, t: Tables)
    requires Keyed(t) && InOrder(list, order, t.peers) && |list| == |t.peers| && forall k <- t.peers :: k in order
    ensures IsSnapshot(list, t.peers)
  {
    forall i | 0 <= i < |list| ensures Key(list[i].virtualIp) == order[i] {
      assert order[i] in t.peers;
    }
    forall k | k in t.peers ensures t.peers[k].info in list {
      var i :| 0 <= i < |order| && order[i] == k;
      assert list[i] == t.peers[k].info;
    }
  }

  // The loop over the map.
  method ListPeers(peers: map<Ip, Entry>) returns (list: seq<PeerInfo>, ghost order: seq<Ip>)
    ensures |list| == |peers| && InOrder(list, order, peers) && forall k <- peers :: k in order
  {
    list, order := [], [];
    var todo := peers.Keys;
    while todo != {}
      invariant todo <= peers.Keys && |list| + |todo| == |peers|
      invariant InOrder(list, order, peers)
      invariant forall k <- peers :: k in todo <==> k !in order
    {
      var k :| k in todo;
      list, order := list + [peers[k].info], order + [k];
      todo := todo - {k};
    }
  }

  function AckPayload(vip: Ip, list: seq<PeerInfo>): seq<byte>
    requires |vip| < 256
  {
    [|vip|] + vip + PutU16(|EncodePeerList(list)|) + EncodePeerList(list)
  }

  /** The edge's reading of the virtual IP of a RegisterAck, and of the byte behind it (n2n/edge.go). It checks no
      length: `OutOfRange` marks the payloads on which an index or a slice leaves its bounds. */
  function AckedVip(payload: seq<byte>): Result<Ip> {
    if payload == [] then Err(OutOfRange)
    else
      var addrLen: nat := payload[0];
      if |payload| < 1 + addrLen + 1 then Err(OutOfRange) else Ok(payload[1..1 + addrLen])
  }

  /** An acknowledgement cut after `k` bytes gives the virtual IP if and only if that and one more byte are there. */
  lemma CutAck(vip: Ip, list: seq<PeerInfo>, k: nat)
    requires |vip| < 256 && k <= |AckPayload(vip, list)|
    ensures AckedVip(AckPayload(vip, list)[..k]) == if k < 2 + |vip| then Err(OutOfRange) else Ok(vip)
  {
    var l, rest := PutU16(|EncodePeerList(list)|), EncodePeerList(list);
    Nested4([|vip|], vip, l, rest);
    var e := [|vip|] + (vip + (l + rest));
    CutAgrees(e, [], k);
    assert e + [] == e;
    AckFields(vip, l + rest, e[..k]);
  }

  lemma AckFields(vip: Ip, rest: seq<byte>, data: seq<byte>)
    requires |vip| < 256 && Agrees(data, 0, [|vip|] + (vip + rest))
    ensures AckedVip(data) == if |data| < 2 + |vip| then Err(OutOfRange) else Ok(vip)
  {
    AgreesInParts(data, 0, [|vip|], vip + rest);
    AgreesInParts(data, 1, vip, rest);
    if data != [] {
      assert data[0 + 0] == [|vip|][0];
    }
  }

  lemma AckedVipRoundTrip(vip: Ip, list: seq<PeerInfo>)
    requires |vip| < 256
    ensures AckedVip(AckPayload(vip, list)) == Ok(vip)
  {
    var p := AckPayload(vip, list);
    CutAck(vip, list, |p|);
    assert p[..|p|] == p;
  }

  /** An acknowledgement byte by byte: the length of the virtual IP, the virtual IP, two bytes of length of the peer
      list, and the list, which reads back. */
  lemma AckBytes(vip: Ip, list: seq<PeerInfo>)
    requires |vip| < 256 && FieldsFit(list)
    ensures var a, n := AckPayload(vip, list), |vip|;
      && |a| >= n + 3 && a[0] == n && a[1..1 + n] == vip
      && IsField(a[1 + n..3 + n], |a[3 + n..]|)
      && DecodePeerList(a[3 + n..]) == Ok(ReceivedAll(Carried(list)))
  {
    var l, rest, n := PutU16(|EncodePeerList(list)|), EncodePeerList(list), |vip|;
    AckParts(vip, l, rest);
    BigEndian(|rest|);
    WholeList(list);
  }

  lemma AckParts(vip: Ip, l: seq<byte>, rest: seq<byte>)
    requires |vip| < 256 && |l| == 2
    ensures var a, n := [|vip|] + vip + l + rest, |vip|;
      a[0] == n && a[1..1 + n] == vip && a[1 + n..3 + n] == l && a[3 + n..] == rest
  {
  }

  method MarshalAck(vip: Ip, list: seq<PeerInfo>) returns (ackPayload: seq<byte>)
    requires |vip| < 256
    ensures ackPayload == AckPayload(vip, list)
  {
    var peerListData := MarshalPeerList(list);
    var head := FillAckHead(vip, PutU16(|peerListData|));
    ackPayload := head[..] + peerListData;
  }

  // The buffer writes of `handleRegister`.
  method FillAckHead(vip: Ip, l: seq<byte>) returns (buf: array<byte>)
    requires |vip| < 256 && |l| == 2
    ensures fresh(buf) && buf[..] == [|vip|] + vip + l
  {
    buf := new byte[1 + |vip| + 2](_ => 0);
    buf[0] := |vip|;
    assert buf[..1] == [|vip|];
    Put(buf, 1, vip);
    Put(buf, 1 + |vip|, l);
    assert buf[..] == buf[..1 + |vip| + 2];
  }

  // ---------- What each handler comes to ----------

  /** A registration, in terms of the steps of the protocol. */
  ghost predicate RegisterDone(base: Ip, community: seq<byte>, t: Tables, pkt: Packet, addr: Addr, now: int, o: Outcome, t': Tables)
    requires IsIp(base)
  {
    match DecodeRegister(pkt.payload)
    case Err(e) => t' == t && o == if e == OutOfRange then Crashed else Ignored
    case Ok(r) =>
      var i := FirstFree(base, t.used, 10);
      if r.community != community || i == None then t' == t && o == Ignored
      else
        var vip := Lease(base, i.value);
        && t' == Inserted(Allocated(base, t, i.value), vip, addr, community, r.hostname, now)
        && exists list :: IsSnapshot(list, t'.peers)
                       && o == Replied(Packet(TYPE_REGISTER_ACK, vip, vip, AckPayload(vip, list)))
  }

  /** `v` is leased, entered with what the registration says, and indexed under `addr`; all else is as before. */
  ghost predicate Enters(t: Tables, t': Tables, v: Ip, addr: Addr, community: seq<byte>, hostname: seq<byte>, now: int) {
    && t'.used == t.used + {Key(v)}
    && (forall k :: k in t'.peers <==> k in t.peers || k == Key(v))
    && (forall k <- t.peers :: k != Key(v) ==> t'.peers[k] == t.peers[k])
    && (var e := t'.peers[Key(v)];
        && e.info.virtualIp == v && e.info.realAddr == addr && e.info.lastSeen == now / 1_000_000_000
        && e.lastSeen == now && e.community == community && e.hostname == hostname)
    && (forall a :: a in t'.addrIndex <==> a in t.addrIndex || a == addr)
    && t'.addrIndex[addr] == Key(v)
    && (forall a <- t.addrIndex :: a != addr ==> t'.addrIndex[a] == t.addrIndex[a])
  }

  lemma InsertedEnters(t: Tables, v: Ip, addr: Addr, community: seq<byte>, hostname: seq<byte>, now: int)
    ensures Enters(t, Inserted(t.(used := t.used + {Key(v)}), v, addr, community, hostname, now), v, addr, community, hostname, now)
  {
  }

  /** A registration, in terms of the tables: the lowest free host address is entered for the sender, and the
      acknowledgement names it twice; a refusal means another community, or no free address. */
  lemma RegistrationExact(base: Ip, community: seq<byte>, t: Tables, pkt: Packet, addr: Addr, now: int, o: Outcome, t': Tables)
    requires IsIp(base) && RegisterDone(base, community, t, pkt, addr, now, o, t')
    ensures match DecodeRegister(pkt.payload)
      case Err(e) => t' == t && o == if e == OutOfRange then Crashed else Ignored
      case Ok(r) =>
        if r.community != community || forall ip | IsHost(base, ip) :: Key(ip) in t.used then t' == t && o == Ignored
        else
          && o.Replied? && o.reply.kind == 0x02 && o.reply.dstIp == o.reply.srcIp
          && IsLowestFree(base, t.used, o.reply.srcIp)
          && Enters(t, t', o.reply.srcIp, addr, community, r.hostname, now)
          && exists list :: IsSnapshot(list, t'.peers) && o.reply.payload == AckPayload(o.reply.srcIp, list)
  {
    FirstFreeIsLowest(base, t.used);
    var r, i := DecodeRegister(pkt.payload), FirstFree(base, t.used, 10);
    if r.Ok? && i.Some? {
      assert IsHost(base, Lease(base, i.value)) && Key(Lease(base, i.value)) !in t.used;
      InsertedEnters(t, Lease(base, i.value), addr, community, r.value.hostname, now);
    }
  }

  /** The answer to a heartbeat. */
  function HeartbeatAck(request: Packet, list: seq<PeerInfo>): Packet {
    request.(kind := TYPE_HEARTBEAT_ACK, payload := EncodePeerList(list))
  }

  ghost predicate HeartbeatDone(t: Tables, pkt: Packet, now: int, o: Outcome, t': Tables) {
    && t' == Touched(t, pkt.srcIp, now)
    && exists list :: IsSnapshot(list, t'.peers) && o == Replied(HeartbeatAck(pkt, list))
  }

  /** Peer `k`, if there is one, was seen at `now`; all else is as before. */
  ghost predicate Refreshes(t: Tables, t': Tables, k: Ip, now: int) {
    && t'.used == t.used && t'.addrIndex == t.addrIndex && t'.peers.Keys == t.peers.Keys
    && (forall j <- t.peers :: j != k ==> t'.peers[j] == t.peers[j])
    && (k in t.peers ==>
          var e, e' := t.peers[k], t'.peers[k];
          && e'.lastSeen == now && e'.info.lastSeen == now / 1_000_000_000
          && e'.info.virtualIp == e.info.virtualIp && e'.info.realAddr == e.info.realAddr
          && e'.community == e.community && e'.hostname == e.hostname)
  }

  lemma TouchedRefreshes(t: Tables, k: Ip, now: int)
    ensures Refreshes(t, TouchedKey(t, k, now), k, now)
  {
    assert TouchedKey(t, k, now).peers.Keys == t.peers.Keys;
  }

  /** A heartbeat refreshes its sender and is answered, as the packet it came in, with a list of all peers. */
  lemma HeartbeatExact(t: Tables, pkt: Packet, now: int, o: Outcome, t': Tables)
    requires HeartbeatDone(t, pkt, now, o, t')
    ensures Refreshes(t, t', Key(pkt.srcIp), now)
    ensures o.Replied? && o.reply.kind == 0x04 && o.reply.srcIp == pkt.srcIp && o.reply.dstIp == pkt.dstIp
    ensures exists list :: IsSnapshot(list, t'.peers) && o.reply.payload == EncodePeerList(list)
  {
    var list :| IsSnapshot(list, t'.peers) && o == Replied(HeartbeatAck(pkt, list));
    TouchedRefreshes(t, Key(pkt.srcIp), now);
  }

  /** The peers `gone` have left, with their leases and indexed addresses; all else is as before. */
  ghost predicate Leave(t: Tables, t': Tables, gone: set<Ip>) {
    && (forall k :: k in t'.peers <==> k in t.peers && k !in gone)
    && (forall k <- t'.peers :: t'.peers[k] == t.peers[k])
    && (forall k :: k in t'.used <==> k in t.used && k !in gone)
    && (forall a :: a in t'.addrIndex <==> a in t.addrIndex && !(exists k :: k in gone && k in t.peers && t.peers[k].info.realAddr == a))
    && (forall a <- t'.addrIndex :: t'.addrIndex[a] == t.addrIndex[a])
  }

  lemma WithoutLeave(t: Tables, gone: set<Ip>)
    requires Keyed(t) && gone <= t.peers.Keys
    ensures Leave(t, Without(t, gone), gone)
  {
    forall k ensures k in Without(t, gone).used <==> k in t.used && k !in gone {
      if k in gone {
        assert Key(t.peers[k].info.virtualIp) == k;
      }
    }
  }

  /** A bye makes its sender leave, if it is a peer, and nobody else. */
  lemma ByeExact(t: Tables, k: Ip)
    requires Keyed(t)
    ensures Leave(t, Removed(t, k), if k in t.peers then {k} else {})
  {
    if k in t.peers {
      WithoutOneMore(t, {}, k);
      assert Without(t, {}) == t && {} + {k} == {k};
      WithoutLeave(t, {k});
    }
  }

  /** A cleanup makes exactly the peers leave that have not been heard of for more than five minutes. */
  lemma CleanupExactly(t: Tables, now: int)
    requires Keyed(t)
    ensures Leave(t, Swept(t, now), set k | k in t.peers && now - t.peers[k].lastSeen > 300_000_000_000)
  {
    WithoutLeave(t, StaleAmong(t, t.peers.Keys, now));
    assert StaleAmong(t, t.peers.Keys, now) == set k | k in t.peers && now - t.peers[k].lastSeen > 300_000_000_000;
  }

  class Supernode {
    const community: seq<byte>
    const crypto: Option<Cipher>
    const pool: IpAllocator
    var peers: map<Ip, Entry>
    var addrIndex: map<Addr, Ip>

    ghost predicate Valid()
      reads this, pool
    {
      IsIp(pool.base) && Keyed(Now())
    }

    ghost function Now(): Tables
      reads this, pool
    {
      Tables(peers, addrIndex, pool.used)
    }

    constructor (community: seq<byte>, crypto: Option<Cipher>, base: Ip)
      requires IsIp(base)
      ensures Valid() && fresh(pool) && pool.base == base && this.community == community && this.crypto == crypto
      ensures Now() == Tables(map[], map[], {})
    {
      this.community := community;
      this.crypto := crypto;
      pool := new IpAllocator(base);
      peers := map[];
      addrIndex := map[];
    }

    method Snapshot() returns (list: seq<PeerInfo>)
      requires Valid()
      ensures IsSnapshot(list, peers)
    {
      ghost var order;
      list, order := ListPeers(peers);
      OrderIsSnapshot(list, order, Now());
    }

    // The writes of `handleRegister` under the table lock.
    method Insert(vip: Ip, addr: Addr, community: seq<byte>, hostname: seq<byte>, now: int)
      requires Valid() && IsIp(vip)
      modifies this
      ensures Valid() && Now() == Inserted(old(Now()), vip, addr, community, hostname, now)
    {
      var key := Key(vip);
      peers := peers[key := Entry(PeerInfo(vip, addr, now / SECOND), now, community, hostname)];
      addrIndex := addrIndex[addr := key];
    }

    method HandleRegister(pkt: Packet, addr: Addr, now: int) returns (o: Outcome)
      requires Valid()
      modifies this, pool
      ensures Valid()
      ensures RegisterDone(pool.base, community, old(Now()), pkt, addr, now, o, Now())
    {
      var payload := DecodeRegister(pkt.payload);
      if payload.Err? {
        return if payload.error == OutOfRange then Crashed else Ignored;
      }
      if payload.value.community != community {
        return Ignored;
      }
      var vip := pool.Allocate();
      if vip == None {
        return Ignored;
      }
      Insert(vip.value, addr, payload.value.community, payload.value.hostname, now);
      var list := Snapshot();
      var ackPayload := MarshalAck(vip.value, list);
      o := Replied(Packet(TYPE_REGISTER_ACK, vip.value, vip.value, ackPayload));
    }

    // The write of `handleHeartbeat`.
    method Touch(srcIp: Ip, now: int)
      requires Valid()
      modifies this
      ensures Valid() && Now() == TouchedKey(old(Now()), srcIp, now)
    {
      if srcIp in peers {
        var entry := peers[srcIp];
        peers := peers[srcIp := entry.(lastSeen := now, info := entry.info.(lastSeen := now / SECOND))];
      }
    }

    method HandleHeartbeat(pkt: Packet, now: int) returns (o: Outcome)
      requires Valid()
      modifies this
      ensures Valid()
      ensures HeartbeatDone(old(Now()), pkt, now, o, Now())
    {
      Touch(Key(pkt.srcIp), now);
      var list := Snapshot();
      var payload := MarshalPeerList(list);
      o := Replied(pkt.(kind := TYPE_HEARTBEAT_ACK, payload := payload));
    }

    method HandleBye(pkt: Packet)
      requires Valid()
      modifies this, pool
      ensures Valid() && Now() == Removed(old(Now()), Key(pkt.srcIp))
    {
      var srcIp := Key(pkt.srcIp);
      if srcIp in peers {
        var entry := peers[srcIp];
        pool.Release(entry.info.virtualIp);
        addrIndex := addrIndex - {entry.info.realAddr};
        peers := peers - {srcIp};
      }
    }

    /** One datagram: decrypted, decoded, dispatched. A connection request only reads the tables; what it is
        answered is not part of this model. */
    method HandlePacket(data: seq<byte>, addr: Addr, now: int) returns (o: Outcome)
      requires Valid()
      modifies this, pool
      ensures Valid()
      ensures match Receive(crypto, data)
              case None => o == Ignored && Now() == old(Now())
              case Some(p) =>
                if p.kind == 0x01 then RegisterDone(pool.base, community, old(Now()), p, addr, now, o, Now())
                else if p.kind == 0x03 then HeartbeatDone(old(Now()), p, now, o, Now())
                else o == Ignored && Now() == if p.kind == 0x09 then Removed(old(Now()), Key(p.srcIp)) else old(Now())
    {
      o := Ignored;
      var pkt := Receive(crypto, data);
      if pkt == None {
        return;
      }
      if pkt.value.kind == TYPE_REGISTER {
        o := HandleRegister(pkt.value, addr, now);
      } else if pkt.value.kind == TYPE_HEARTBEAT {
        o := HandleHeartbeat(pkt.value, now);
      } else if pkt.value.kind == TYPE_BYE {
        HandleBye(pkt.value);
      }
    }

    method Cleanup(now: int)
      requires Valid()
      modifies this, pool
      ensures Valid() && Now() == Swept(old(Now()), now)
    {
      ghost var before := Now();
      ghost var visited: set<Ip> := {};
      var todo := peers.Keys;
      assert StaleAmong(before, {}, now) == {};
      while todo != {}
        invariant visited !! todo && visited + todo == before.peers.Keys
        invariant Now() == Without(before, StaleAmong(before, visited, now))
      {
        var k :| k in todo;
        ghost var gone := StaleAmong(before, visited, now);
        var entry := peers[k];
        if now - entry.lastSeen > TIMEOUT {
          WithoutOneMore(before, gone, k);
          assert StaleAmong(before, visited + {k}, now) == gone + {k};
          pool.Release(entry.info.virtualIp);
          addrIndex := addrIndex - {entry.info.realAddr};
          peers := peers - {k};
        } else {
          assert StaleAmong(before, visited + {k}, now) == gone;
        }
        todo := todo - {k};
        visited := visited + {k};
      }
      assert visited == before.peers.Keys;
    }
  }
}
