/** The edge (n2n/edge.go), and what it knows after one heartbeat to the supernode and back. */
module N2nHeartbeat {
  import opened Bytes
  import opened N2nProtocol
  import opened IpPool
  import opened N2nSupernode
  import opened N2nLeases

  const TYPE_P2P_CONNECT_ACK: byte := 0x07

  // ---------- The edge ----------

  /** What a received packet makes of the edge's peer map. */
  function EdgeLearns(known: map<Ip, PeerInfo>, own: Ip, p: Packet): map<Ip, PeerInfo> {
    if p.kind == TYPE_HEARTBEAT_ACK || p.kind == TYPE_PEER_LIST then
      LearnedFrom(known, p.payload, own)
    else if p.kind == TYPE_P2P_CONNECT_ACK && Key(p.srcIp) in known then
      known[Key(p.srcIp) := known[Key(p.srcIp)].(realAddr := p.payload)]
    else known
  }

  /** What a packet of each kind does to the peer map: a heartbeat acknowledgement or a peer list enters its peers, a
      connection acknowledgement gives a known sender a new address, and any other kind changes nothing. */
  ghost predicate Teaches(known: map<Ip, PeerInfo>, m: map<Ip, PeerInfo>, own: Ip, p: Packet) {
    if p.kind == 0x04 || p.kind == 0x08 then
      match DecodePeerList(p.payload)
      case Ok(list) => Taught(m, known, list, own)
      case Err(_) => m == known
    else if p.kind == 0x07 && Key(p.srcIp) in known then
      && m.Keys == known.Keys && (forall k <- known :: k != Key(p.srcIp) ==> m[k] == known[k])
      && m[Key(p.srcIp)].realAddr == p.payload && m[Key(p.srcIp)].virtualIp == known[Key(p.srcIp)].virtualIp
    else m == known
  }

  lemma EdgeLearnsExact(known: map<Ip, PeerInfo>, own: Ip, p: Packet)
    ensures Teaches(known, EdgeLearns(known, own, p), own, p)
  {
    var r := DecodePeerList(p.payload);
    if r.Ok? {
      LearnedExact(known, r.value, own);
    }
  }

  class Edge {
    const crypto: Option<Cipher>
    var virtualIp: Ip
    var peers: map<Ip, PeerInfo>

    constructor (crypto: Option<Cipher>, virtualIp: Ip)
      ensures this.crypto == crypto && this.virtualIp == virtualIp && peers == map[]
    {
      this.crypto := crypto;
      this.virtualIp := virtualIp;
      peers := map[];
    }

    method SendHeartbeat(nonce: seq<byte>) returns (data: seq<byte>)
      ensures data == Send(crypto, nonce, HeartbeatPacket(virtualIp))
    {
      var buf := MarshalPacket(HeartbeatPacket(virtualIp));
      data := Seal(crypto, nonce, buf[..]);
    }

    // `handleHeartbeatAck` and `handlePeerList` have this one body.
    method HandlePeerList(pkt: Packet)
      modifies this`peers
      ensures peers == LearnedFrom(old(peers), pkt.payload, virtualIp)
    {
      peers := LearnPeers(peers, pkt.payload, virtualIp);
    }

    method HandlePacket(data: seq<byte>)
      modifies this`peers
      ensures peers == match Receive(crypto, data)
                       case Some(p) => EdgeLearns(old(peers), virtualIp, p)
                       case None => old(peers)
      ensures Receive(crypto, data).Some? ==> Teaches(old(peers), peers, virtualIp, Receive(crypto, data).value)
    {
      var pkt := Receive(crypto, data);
      if pkt == None {
        return;
      }
      var p := pkt.value;
      EdgeLearnsExact(peers, virtualIp, p);
      if p.kind == TYPE_HEARTBEAT_ACK || p.kind == TYPE_PEER_LIST {
        HandlePeerList(p);
      } else if p.kind == TYPE_P2P_CONNECT_ACK {
        if Key(p.srcIp) in peers {
          peers := peers[Key(p.srcIp) := peers[Key(p.srcIp)].(realAddr := p.payload)];
        }
      }
    }
  }

  function HeartbeatPacket(own: Ip): Packet {
    Packet(TYPE_HEARTBEAT, own, [], [])
  }

  // ---------- End to end ----------

  // Two length fields, 16 bytes of address, 47 of text.
  const ENTRY_MAX := 67

  lemma {:induction false} FlattenBound(parts: seq<seq<byte>>)
    requires forall i :: 0 <= i < |parts| ==> |parts[i]| <= ENTRY_MAX
    ensures |Flatten(parts)| <= |parts| * ENTRY_MAX
  {
    if parts != [] {
      FlattenBound(parts[1..]);
    }
  }

  lemma EntryBound(p: PeerInfo)
    requires |p.realAddr| <= 47
    ensures |EncodeEntry(p)| <= ENTRY_MAX
  {
  }

  /** From any reachable state the list of all peers fits the 16-bit length of its packet, with room to spare. */
  lemma SnapshotFits(base: Ip, s: State, list: seq<PeerInfo>)
    requires IsIp(base) && Reachable(base, s) && IsSnapshot(list, s.t.peers)
    ensures FieldsFit(list) && |list| <= 245 && |EncodePeerList(list)| <= 2 + 245 * ENTRY_MAX
  {
    ReachableInv(base, s);
    LeasesExact(base, s);
    ShortFields(base, s, list);
    forall i | 0 <= i < |list| ensures |Entries(list)[i]| <= ENTRY_MAX {
      assert list[i] in list;
      EntryBound(list[i]);
    }
    FlattenBound(Entries(list));
  }

  lemma ShortFields(base: Ip, s: State, list: seq<PeerInfo>)
    requires IsIp(base) && Inv(base, s) && IsSnapshot(list, s.t.peers)
    ensures forall p <- list :: |p.realAddr| <= 47
  {
    forall p | p in list ensures |p.realAddr| <= 47 {
      assert Key(p.virtualIp) in s.t.peers;
    }
  }

  lemma LearnedOnce(known: map<Ip, PeerInfo>, list: seq<PeerInfo>, own: Ip, i: nat)
    requires forall i, j :: 0 <= i < j < |list| ==> Key(list[i].virtualIp) != Key(list[j].virtualIp)
    requires i < |list| && Key(list[i].virtualIp) != Key(own)
    ensures var m, k := Learned(known, list, own), Key(list[i].virtualIp); k in m && m[k] == list[i]
  {
    LearnedAt(known, list, own, Key(list[i].virtualIp));
  }

  /** `m` is `known` with each peer but the edge itself at its address in `peers`, and nothing else touched. */
  ghost predicate KnowsPeers(m: map<Ip, PeerInfo>, known: map<Ip, PeerInfo>, peers: map<Ip, Entry>, own: Ip) {
    && (forall k <- peers :: k != Key(own) ==> k in m && m[k] == PeerInfo(k, peers[k].info.realAddr, 0))
    && (forall k :: k == Key(own) || k !in peers ==> (k in m <==> k in known) && (k in m ==> m[k] == known[k]))
  }

  /** `got` is the list `list` as received. */
  ghost predicate GotList(got: seq<PeerInfo>, list: seq<PeerInfo>) {
    && |got| == |list|
    && forall i :: 0 <= i < |got| ==>
         Key(got[i].virtualIp) == Key(list[i].virtualIp) && got[i] == PeerInfo(Key(list[i].virtualIp), list[i].realAddr, 0)
  }

  lemma ReceivedIsGot(list: seq<PeerInfo>)
    requires forall p <- list :: IsIp(p.virtualIp)
    ensures GotList(ReceivedAll(list), list)
  {
    forall i | 0 <= i < |list|
      ensures Key(Received(list[i]).virtualIp) == Key(list[i].virtualIp)
           && Received(list[i]) == PeerInfo(Key(list[i].virtualIp), list[i].realAddr, 0)
    {
      assert list[i] in list;
      WireIpKeepsAddress(list[i].virtualIp);
    }
  }

  lemma ListedLearned(known: map<Ip, PeerInfo>, got: seq<PeerInfo>, list: seq<PeerInfo>, peers: map<Ip, Entry>, own: Ip, k: Ip)
    requires IsSnapshot(list, peers) && GotList(got, list) && k in peers && k != Key(own)
    requires Key(peers[k].info.virtualIp) == k
    ensures var m := Learned(known, got, own); k in m && m[k] == PeerInfo(k, peers[k].info.realAddr, 0)
  {
    var i :| 0 <= i < |list| && list[i] == peers[k].info;
    assert Key(got[i].virtualIp) == k;
    LearnedOnce(known, got, own, i);
  }

  lemma OthersUntouched(known: map<Ip, PeerInfo>, got: seq<PeerInfo>, list: seq<PeerInfo>, peers: map<Ip, Entry>, own: Ip, k: Ip)
    requires IsSnapshot(list, peers) && GotList(got, list) && (k == Key(own) || k !in peers)
    ensures var m := Learned(known, got, own); (k in m <==> k in known) && (k in m ==> m[k] == known[k])
  {
    LearnedAt(known, got, own, k);
    forall i | 0 <= i < |got| && k != Key(own) ensures Key(got[i].virtualIp) != k {
      assert list[i] in list;
    }
  }

  /** The receiving side of a snapshot. */
  lemma SnapshotLearned(known: map<Ip, PeerInfo>, list: seq<PeerInfo>, peers: map<Ip, Entry>, own: Ip)
    requires IsSnapshot(list, peers)
    requires forall k <- peers :: IsIp(peers[k].info.virtualIp) && Key(peers[k].info.virtualIp) == k
    ensures KnowsPeers(Learned(known, ReceivedAll(list), own), known, peers, own)
  {
    var got := ReceivedAll(list);
    ReceivedIsGot(list);
    var m := Learned(known, got, own);
    forall k | k in peers && k != Key(own) ensures k in m && m[k] == PeerInfo(k, peers[k].info.realAddr, 0) {
      ListedLearned(known, got, list, peers, own, k);
    }
    forall k | k == Key(own) || k !in peers ensures (k in m <==> k in known) && (k in m ==> m[k] == known[k]) {
      OthersUntouched(known, got, list, peers, own, k);
    }
  }

  /** One heartbeat, end to end. The request reaches the supernode as a heartbeat from the edge's own
      address; the answer, made from the peers of any later reachable state in any map order, reaches the edge
      whole; then the edge maps every other peer's virtual IP to the address the supernode has for it, has
      not inserted itself, and no other entry has changed. */
  lemma HeartbeatEndToEnd(base: Ip, s: State, list: seq<PeerInfo>, crypto: Option<Cipher>, n1: seq<byte>, n2: seq<byte>,
                          own: Ip, known: map<Ip, PeerInfo>)
    requires IsIp(base) && Reachable(base, s) && s.lock == Free && IsSnapshot(list, s.t.peers)
    requires Inverse(crypto) && IsIp(own)
    ensures var request := Receive(crypto, Send(crypto, n1, HeartbeatPacket(own)));
      && request.Some? && request.value.kind == 0x03 && Key(request.value.srcIp) == Key(own)
      && var answer := Receive(crypto, Send(crypto, n2, HeartbeatAck(request.value, list)));
         && answer.Some? && answer.value.kind == 0x04 && Key(answer.value.srcIp) == Key(own)
         && KnowsPeers(EdgeLearns(known, own, answer.value), known, s.t.peers, own)
  {
    SentAndReceived(crypto, n1, HeartbeatPacket(own));
    WireIpKeepsAddress(own);
    var request := Packet(TYPE_HEARTBEAT, WireIp(own), SentDst(HeartbeatPacket(own)), []);
    assert Receive(crypto, Send(crypto, n1, HeartbeatPacket(own))) == Some(request);
    SnapshotFits(base, s, list);
    var ack := HeartbeatAck(request, list);
    SentAndReceived(crypto, n2, ack);
    CarriedIff(ack.payload);
    WireIpKeepsAddress(request.srcIp);
    PeerListRoundTripIff(list);
    ReachableInv(base, s);
    SnapshotLearned(known, list, s.t.peers, own);
  }

  /** A registration as the edge sends it: sealed and received it is a registration with the edge's community, hostname
      and port. */
  lemma RegistrationArrives(crypto: Option<Cipher>, nonce: seq<byte>, r: RegisterPayload)
    requires Inverse(crypto) && RegisterFits(r) && |EncodeRegister(r)| < 65536
    ensures var p := Receive(crypto, Send(crypto, nonce, Packet(0x01, [], [], EncodeRegister(r))));
      p.Some? && p.value.kind == 0x01 && DecodeRegister(p.value.payload) == Ok(r)
  {
    SentAndReceived(crypto, nonce, Packet(0x01, [], [], EncodeRegister(r)));
    CarriedIff(EncodeRegister(r));
    RegisterRoundTrip(r);
  }

  /** The broadcast after a registration: sealed and received it leaves the edge with the new peer at its address,
      unless that is the edge itself, and with all other entries as before. */
  lemma BroadcastLearned(crypto: Option<Cipher>, nonce: seq<byte>, v: Ip, addr: Addr, seen: int, own: Ip,
                         known: map<Ip, PeerInfo>, m: map<Ip, PeerInfo>)
    requires Inverse(crypto) && IsIp(v)
    requires var r := Receive(crypto, Send(crypto, nonce, Packet(0x08, v, [], EncodePeerList([PeerInfo(v, addr, seen)]))));
      r.Some? ==> Teaches(known, m, own, r.value)
    ensures Receive(crypto, Send(crypto, nonce, Packet(0x08, v, [], EncodePeerList([PeerInfo(v, addr, seen)])))).Some?
    ensures if Key(v) == Key(own) then m == known else m == known[Key(v) := PeerInfo(Key(v), addr, 0)]
  {
    var list := [PeerInfo(v, addr, seen)];
    var p := Packet(0x08, v, [], EncodePeerList(list));
    OneEntry(list[0]);
    SentAndReceived(crypto, nonce, p);
    CarriedIff(p.payload);
    PeerListRoundTripIff(list);
    WireIpKeepsAddress(v);
    assert ReceivedAll(list) == [PeerInfo(Key(v), addr, 0)];
    TaughtOne(m, known, PeerInfo(Key(v), addr, 0), own);
  }

  lemma OneEntry(p: PeerInfo)
    ensures |EncodePeerList([p])| <= 22 + |p.realAddr|
  {
    PeerListBytes([], p);
    assert [] + [p] == [p];
  }

  lemma TaughtOne(m: map<Ip, PeerInfo>, known: map<Ip, PeerInfo>, p: PeerInfo, own: Ip)
    requires Taught(m, known, [p], own) && Key(p.virtualIp) == p.virtualIp
    ensures m == if p.virtualIp == Key(own) then known else known[p.virtualIp := p]
  {
    var m' := if p.virtualIp == Key(own) then known else known[p.virtualIp := p];
    forall k ensures (k in m <==> k in m') && (k in m ==> m[k] == m'[k]) {
      assert TaughtAt(m, known, [p], own, k);
      if k == p.virtualIp && k != Key(own) {
        assert [p][0].virtualIp == k;
        var i :| IsLast([p], i, k) && k in m && m[k] == [p][i];
      }
    }
  }
}
