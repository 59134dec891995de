/** The STUN-VPN control frames and the relay path: client, server, other client
    (stunvpv/client.go, stunvpv/server.go). */
module StunRelay {
  import opened Bytes
  import opened N2nProtocol
  import opened IpPool

  const MSG_REGISTER: byte := 0x01
  const MSG_PEER_LIST: byte := 0x03
  const MSG_DATA: byte := 0x04

  // The magic cookie of section 6 of RFC 5389.
  const MAGIC_COOKIE: seq<byte> := [0x21, 0x12, 0xA4, 0x42]

  /** `stun.IsMessage`: a full header with the cookie in its place. */
  predicate IsStun(data: seq<byte>) {
    |data| >= 20 && data[4..8] == MAGIC_COOKIE
  }

  // ---------- Control frames ----------

  datatype Control = Control(kind: byte, ip: Ip, payload: seq<byte>)

  /** The address field: 4 bytes for IPv4, else 16, zero when there is no address. */
  function AddrField(vip: Ip): (f: seq<byte>)
    ensures IsIp(f)
  {
    if To4(vip) != [] then To4(vip) else if To16(vip) != [] then To16(vip) else Zeros(16)
  }

  function Frame(kind: byte, vip: Ip, payload: seq<byte>): (f: seq<byte>)
    ensures |f| == 8 + |AddrField(vip)| + |payload|
  {
    FrameOf(kind, AddrField(vip), PutU16(|payload|), payload)
  }

  function FrameOf(kind: byte, addr: seq<byte>, l: seq<byte>, payload: seq<byte>): seq<byte>
    requires |addr| < 256
  {
    [kind, |addr|] + addr + Zeros(4) + l + payload
  }

  /** The reading of a frame, the same on both sides. A payload shorter than announced is accepted. */
  function Parse(data: seq<byte>): Option<Control> {
    if |data| < 8 then None
    else
      var addrLen := data[1];
      if addrLen != 4 && addrLen != 16 then None
      else if |data| < 8 + addrLen then None
      else
        var payloadLen := U16At(data, 6 + addrLen);
        var payload := data[8 + addrLen..];
        Some(Control(data[0], data[2..2 + addrLen], if |payload| > payloadLen then payload[..payloadLen] else payload))
  }

  method MakeControlMessage(kind: byte, vip: Ip, payload: seq<byte>) returns (buf: array<byte>)
    ensures fresh(buf) && buf[..] == Frame(kind, vip, payload)
  {
    var addrLen := |To4(vip)|;
    if addrLen == 0 {
      addrLen := 16;
    }
    var vipBytes := To16(vip);
    if addrLen == 4 {
      vipBytes := To4(vip);
    }
    buf := FillFrame(kind, addrLen, vipBytes, PutU16(|payload|), payload);
  }

  method FillFrame(kind: byte, addrLen: byte, vipBytes: seq<byte>, l: seq<byte>, payload: seq<byte>) returns (buf: array<byte>)
    requires (vipBytes == [] || |vipBytes| == addrLen) && |l| == 2
    ensures fresh(buf) && buf[..] == FrameOf(kind, if vipBytes == [] then Zeros(addrLen) else vipBytes, l, payload)
  {
    var headerLen := 8 + addrLen;
    buf := new byte[headerLen + |payload|](_ => 0);
    FillSource(buf, kind, addrLen, vipBytes);
    ghost var was := buf[..];
    ZeroGap(was, 2 + addrLen, 4);
    assert was[..2 + addrLen] == buf[..2 + addrLen] && was[..6 + addrLen] == buf[..6 + addrLen];
    Put(buf, 6 + addrLen, l);
    Put(buf, headerLen, payload);
    assert buf[..] == buf[..headerLen + |payload|];
  }

  /** The layout of a frame, read from its beginning as far as the buffer goes. */
  lemma FrameFields(kind: byte, addr: seq<byte>, gap: seq<byte>, l: seq<byte>, payload: seq<byte>, data: seq<byte>)
    requires IsIp(addr) && |gap| == 4 && |l| == 2 && |data| <= 8 + |addr| + |payload|
    requires Agrees(data, 0, [kind, |addr|] + (addr + (gap + (l + payload))))
    ensures var n, m := |addr|, |data| - 8 - |addr|;
      Parse(data) == if m < 0 then None
                     else Some(Control(kind, addr, if m > U16At(l, 0) then payload[..U16At(l, 0)] else payload[..m]))
  {
    var n := |addr|;
    AgreesInParts(data, 0, [kind, n], addr + (gap + (l + payload)));
    AgreesInParts(data, 2, addr, gap + (l + payload));
    AgreesInParts(data, 2 + n, gap, l + payload);
    AgreesInParts(data, 6 + n, l, payload);
    if |data| >= 2 {
      assert data[0] == [kind, n][0] && data[0 + 1] == [kind, n][1];
      if |data| >= 8 + n {
        U16Copied(data, 6 + n, l);
        LastPart(data, 8 + n, payload);
        var m := |data| - 8 - n;
        assert m > U16At(l, 0) ==> payload[..m][..U16At(l, 0)] == payload[..U16At(l, 0)];
      }
    }
  }

  lemma FramePieces(kind: byte, addr: seq<byte>, l: seq<byte>, payload: seq<byte>, k: nat)
    requires IsIp(addr) && |l| == 2 && k <= |FrameOf(kind, addr, l, payload)|
    ensures var f, n := FrameOf(kind, addr, l, payload), |addr|;
      Parse(f[..k]) ==
      if k < 8 + n then None
      else Some(Control(kind, addr, if k - 8 - n > U16At(l, 0) then payload[..U16At(l, 0)] else payload[..k - 8 - n]))
  {
    var e := [kind, |addr|] + (addr + (Zeros(4) + (l + payload)));
    Nested5([kind, |addr|], addr, Zeros(4), l, payload);
    CutAgrees(e, [], k);
    assert e + [] == e;
    FrameFields(kind, addr, Zeros(4), l, payload, e[..k]);
  }

  /** A frame byte by byte: kind, length of the address, address, four zeros, two bytes of length, payload. */
  lemma FrameBytes(kind: byte, vip: Ip, payload: seq<byte>)
    ensures var f, n := Frame(kind, vip, payload), |AddrField(vip)|;
      && |f| == 8 + n + |payload| && f[0] == kind && f[1] == n && f[2..2 + n] == AddrField(vip)
      && f[2 + n..6 + n] == [0, 0, 0, 0] && IsField(f[6 + n..8 + n], |payload|) && f[8 + n..] == payload
    ensures AddrField(vip) == if IsIp(vip) then WireIp(vip) else Zeros(16)
  {
    BigEndian(|payload|);
    FrameParts(kind, AddrField(vip), Zeros(4), PutU16(|payload|), payload);
  }

  lemma FrameParts(kind: byte, addr: seq<byte>, gap: seq<byte>, l: seq<byte>, payload: seq<byte>)
    requires |addr| < 256 && |gap| == 4 && |l| == 2
    ensures var f, n := [kind, |addr|] + addr + gap + l + payload, |addr|;
      && |f| == 8 + n + |payload| && f[0] == kind && f[1] == n && f[2..2 + n] == addr
      && f[2 + n..6 + n] == gap && f[6 + n..8 + n] == l && f[8 + n..] == payload
  {
  }

  /** `data` is a frame of that shape, whatever its four spare bytes; the payload may be cut short or have bytes behind it. */
  predicate IsFrame(data: seq<byte>, c: Control, announced: nat) {
    var n, m := |c.ip|, |c.payload|;
    && (n == 4 || n == 16) && |data| >= 8 + n && data[0] == c.kind && data[1] == n && data[2..2 + n] == c.ip
    && announced < 65536 && IsField(data[6 + n..8 + n], announced)
    && m == (if |data| - 8 - n > announced then announced else |data| - 8 - n) && data[8 + n..8 + n + m] == c.payload
  }

  lemma FrameParses(data: seq<byte>, c: Control, announced: nat)
    requires IsFrame(data, c, announced)
    ensures Parse(data) == Some(c)
  {
    var n, m := |c.ip|, |c.payload|;
    FieldIff(data, 6 + n, announced);
    assert data[8 + n..8 + n + m] == data[8 + n..][..m];
    assert m == |data| - 8 - n ==> data[8 + n..][..m] == data[8 + n..];
  }

  lemma ParsedIsFrame(data: seq<byte>, c: Control)
    requires Parse(data) == Some(c)
    ensures IsFrame(data, c, U16At(data, 6 + |c.ip|))
  {
    var n, m := |c.ip|, |c.payload|;
    FieldIff(data, 6 + n, U16At(data, 6 + n));
    assert data[8 + n..8 + n + m] == data[8 + n..][..m];
    assert m == |data| - 8 - n ==> data[8 + n..][..m] == data[8 + n..];
  }

  /** What is read: exactly such bytes. */
  lemma ParseIff(data: seq<byte>, c: Control)
    ensures Parse(data) == Some(c) <==> exists announced :: IsFrame(data, c, announced)
  {
    if Parse(data) == Some(c) {
      ParsedIsFrame(data, c);
    }
    if announced :| IsFrame(data, c, announced) {
      FrameParses(data, c, announced);
    }
  }

  /** A frame read back, whole or cut after any byte: nothing before the end of the header, afterwards as
      much of the payload as has arrived, and never more than its 16-bit length can say. */
  lemma CutFrame(kind: byte, vip: Ip, payload: seq<byte>, k: nat)
    requires k <= |Frame(kind, vip, payload)|
    ensures var n, l := |AddrField(vip)|, |payload| % 65536;
      Parse(Frame(kind, vip, payload)[..k]) ==
      if k < 8 + n then None
      else Some(Control(kind, AddrField(vip), if k - 8 - n > l then payload[..l] else payload[..k - 8 - n]))
  {
    U16RoundTrip(|payload|);
    FramePieces(kind, AddrField(vip), PutU16(|payload|), payload, k);
  }

  lemma WholeFrame(kind: byte, vip: Ip, payload: seq<byte>)
    ensures Parse(Frame(kind, vip, payload)) == Some(Control(kind, AddrField(vip), Carried(payload)))
  {
    var f := Frame(kind, vip, payload);
    CutFrame(kind, vip, payload, |f|);
    assert f[..|f|] == f;
    assert payload[..|payload|] == payload;
  }

  /** When a control frame is taken for STUN: exactly when its address is IPv6 and spells the cookie in its
      bytes 2 to 5. No IPv4 frame is, since bytes 6 and 7 of such a frame are zero. */
  lemma FrameIsStunIff(kind: byte, vip: Ip, payload: seq<byte>)
    ensures IsStun(Frame(kind, vip, payload)) <==> |AddrField(vip)| == 16 && AddrField(vip)[2..6] == MAGIC_COOKIE
  {
    var f, a := Frame(kind, vip, payload), AddrField(vip);
    if |a| == 16 {
      assert f[4..8] == a[2..6];
    } else {
      assert f[6] == 0 && MAGIC_COOKIE[2] == 0xA4;
      assert f[4..8][2] == f[6];
    }
  }

  lemma AddrFieldKeepsAddress(vip: Ip)
    requires IsIp(vip)
    ensures Key(AddrField(vip)) == Key(vip) && AddrField(vip) == WireIp(vip)
  {
    WireIpPresent(vip);
    WireIpKeepsAddress(vip);
  }

  // ---------- The server ----------

  datatype Peer = Peer(vip: Ip, relayAddr: Addr, lastSeen: int, hostname: seq<byte>)

  datatype Tables = Tables(peers: map<Ip, Peer>, vipIndex: map<Addr, Ip>, used: set<Ip>)

  datatype Datagram = Datagram(to: Addr, data: seq<byte>)

  /** `IP.IsUnspecified`: all zero as IPv4, in either notation, or as IPv6. */
  predicate IsUnspecified(ip: Ip) {
    Key(ip) == Zeros(|Key(ip)|)
  }

  lemma UnspecifiedIff(ip: Ip)
    requires IsIp(ip)
    ensures IsUnspecified(ip) <==>
      (forall i :: 0 <= i < |ip| ==> ip[i] == 0) ||
      (|ip| == 16 && (forall i :: 0 <= i < 10 || 12 <= i < 16 ==> ip[i] == 0) && ip[10] == 255 && ip[11] == 255)
  {
    WireForms(ip);
    var k := Key(ip);
    assert k == Zeros(|k|) <==> forall i :: 0 <= i < |k| ==> k[i] == 0;
    if |k| < |ip| {
      assert forall i :: 0 <= i < 4 ==> k[i] == ip[12 + i];
      assert (forall i :: 0 <= i < 4 ==> k[i] == 0) <==> (forall i :: 12 <= i < 16 ==> ip[i] == 0) by {
        if forall i :: 0 <= i < 4 ==> k[i] == 0 {
          forall i | 12 <= i < 16 ensures ip[i] == 0 {
            assert k[i - 12] == 0;
          }
        }
      }
    }
  }

  /** The virtual IP a registration gets: the one it names, else the first free lease. */
  function AssignedVip(base: Ip, used: set<Ip>, vip: Ip): Option<Ip>
    requires IsIp(base)
  {
    if !IsUnspecified(vip) then Some(vip)
    else match FirstFree(base, used, 10)
      case None => None
      case Some(i) => Some(Lease(base, i))
  }

  function Registered(t: Tables, vip: Ip, named: bool, addr: Addr, hostname: seq<byte>, now: int): Tables {
    Tables(t.peers[Key(vip) := Peer(vip, addr, now, hostname)],
           t.vipIndex[addr := Key(vip)],
           if named then t.used else t.used + {Key(vip)})
  }

  /** What the server sends on for a data frame. */
  function Relayed(t: Tables, dst: Ip, payload: seq<byte>, from: Addr): seq<Datagram> {
    if Key(dst) !in t.peers then []
    else if from !in t.vipIndex then []
    else
      var srcIp := To16(t.vipIndex[from]);
      if srcIp == [] then []
      else [Datagram(t.peers[Key(dst)].relayAddr, Frame(MSG_DATA, srcIp, payload))]
  }

  /** What the server sends on for any packet. */
  function Answer(t: Tables, data: seq<byte>, from: Addr): seq<Datagram> {
    if IsStun(data) || Parse(data) == None || Parse(data).value.kind != MSG_DATA then []
    else Relayed(t, Parse(data).value.ip, Parse(data).value.payload, from)
  }

  /** What any packet makes of the tables. */
  function Served(base: Ip, t: Tables, data: seq<byte>, from: Addr, now: int): Tables
    requires IsIp(base)
  {
    if IsStun(data) || Parse(data) == None || Parse(data).value.kind != MSG_REGISTER then t
    else
      var c := Parse(data).value;
      match AssignedVip(base, t.used, c.ip)
      case None => t
      case Some(vip) => Registered(t, vip, !IsUnspecified(c.ip), from, c.payload, now)
  }

  class Server {
    const pool: IpAllocator
    var peers: map<Ip, Peer>
    var vipIndex: map<Addr, Ip>

    ghost predicate Valid()
      reads this, pool
    {
      IsIp(pool.base)
    }

    ghost function Now(): Tables
      reads this, pool
    {
      Tables(peers, vipIndex, pool.used)
    }

    constructor (base: Ip)
      requires IsIp(base)
      ensures Valid() && fresh(pool) && pool.base == base && Now() == Tables(map[], map[], {})
    {
      pool := new IpAllocator(base);
      peers := map[];
      vipIndex := map[];
    }

    method HandleRegister(payload: seq<byte>, vip: Ip, from: Addr, now: int) returns (granted: Option<Ip>)
      requires Valid() && IsIp(vip)
      modifies this, pool
      ensures Valid() && granted == AssignedVip(pool.base, old(pool.used), vip)
      ensures Now() == if granted == None then old(Now())
                       else Registered(old(Now()), granted.value, !IsUnspecified(vip), from, payload, now)
    {
      granted := Some(vip);
      if IsUnspecified(vip) {
        granted := pool.Allocate();
        if granted == None {
          return;
        }
      }
      peers := peers[Key(granted.value) := Peer(granted.value, from, now, payload)];
      vipIndex := vipIndex[from := Key(granted.value)];
    }

    method HandleRelayData(dst: Ip, payload: seq<byte>, from: Addr) returns (sent: seq<Datagram>)
      ensures sent == Relayed(Now(), dst, payload, from)
    {
      if Key(dst) !in peers {
        return [];
      }
      var dstPeer := peers[Key(dst)];
      if from !in vipIndex {
        return [];
      }
      var srcIp := To16(vipIndex[from]);
      if srcIp == [] {
        return [];
      }
      var msg := MakeControlMessage(MSG_DATA, srcIp, payload);
      sent := [Datagram(dstPeer.relayAddr, msg[..])];
    }

    /** Demultiplexing: STUN, registration, data. `sent` holds what is relayed. */
    method HandlePacket(data: seq<byte>, from: Addr, now: int) returns (sent: seq<Datagram>)
      requires Valid()
      modifies this, pool
      ensures Valid() && sent == Answer(old(Now()), data, from)
      ensures Now() == Served(pool.base, old(Now()), data, from, now)
      ensures |data| >= 20 && data[4..8] == [0x21, 0x12, 0xA4, 0x42] ==> Now() == old(Now()) && sent == []
      ensures !(|data| >= 20 && data[4..8] == [0x21, 0x12, 0xA4, 0x42]) && Parse(data).Some? && Parse(data).value.kind == 0x04 ==>
        sent == Relayed(old(Now()), Parse(data).value.ip, Parse(data).value.payload, from)
    {
      sent := [];
      if IsStun(data) {
        return;
      }
      var c := Parse(data);
      if c == None {
        return;
      }
      if c.value.kind == MSG_REGISTER {
        var _ := HandleRegister(c.value.payload, c.value.ip, from, now);
      } else if c.value.kind == MSG_DATA {
        sent := HandleRelayData(c.value.ip, c.value.payload, from);
      }
    }
  }

  // ---------- The client ----------

  lemma FrameTaught(known: map<Ip, PeerInfo>, payload: seq<byte>, own: Ip)
    ensures match DecodePeerList(payload)
            case Ok(list) => Taught(LearnedFrom(known, payload, own), known, list, own)
            case Err(_) => LearnedFrom(known, payload, own) == known
  {
    var r := DecodePeerList(payload);
    if r.Ok? {
      LearnedExact(known, r.value, own);
    }
  }

  class Client {
    var virtualIp: Ip
    var peers: map<Ip, PeerInfo>

    constructor (virtualIp: Ip)
      ensures this.virtualIp == virtualIp && peers == map[]
    {
      this.virtualIp := virtualIp;
      peers := map[];
    }

    method HandlePeerList(payload: seq<byte>)
      modifies this`peers
      ensures peers == LearnedFrom(old(peers), payload, virtualIp)
    {
      peers := LearnPeers(peers, payload, virtualIp);
    }

    /** `data` is what reaches the data callback. */
    method HandlePacket(packet: seq<byte>) returns (data: Option<(Ip, seq<byte>)>)
      modifies this`peers
      ensures data == Delivered(packet)
      ensures peers == if Parse(packet).Some? && Parse(packet).value.kind == MSG_PEER_LIST
                       then LearnedFrom(old(peers), Parse(packet).value.payload, virtualIp)
                       else old(peers)
      ensures Understands(old(peers), peers, virtualIp, packet, data)
    {
      data := None;
      var c := Parse(packet);
      if c == None {
        return;
      }
      if c.value.kind == MSG_PEER_LIST {
        FrameTaught(peers, c.value.payload, virtualIp);
        HandlePeerList(c.value.payload);
      } else if c.value.kind == MSG_DATA {
        data := Some((c.value.ip, c.value.payload));
      }
    }

    // The first registration, and the one that serves as a heartbeat.
    method SendRegister(hostname: seq<byte>, first: bool) returns (packet: seq<byte>)
      ensures packet == Frame(0x01, if first then [] else virtualIp, hostname)
    {
      var msg := MakeControlMessage(MSG_REGISTER, if first then [] else virtualIp, hostname);
      packet := msg[..];
    }

    method SendTo(dstIp: Ip, data: seq<byte>) returns (packet: seq<byte>)
      ensures packet == Frame(0x04, dstIp, data)
    {
      var msg := MakeControlMessage(MSG_DATA, dstIp, data);
      packet := msg[..];
    }
  }

  function Delivered(packet: seq<byte>): Option<(Ip, seq<byte>)> {
    match Parse(packet)
    case Some(Control(kind, ip, payload)) => if kind == MSG_DATA then Some((ip, payload)) else None
    case None => None
  }

  // ---------- End to end ----------

  /** An IPv6 address that stands where a STUN message has its cookie once it is in a frame. */
  predicate HasCookie(ip: Ip) {
    |ip| == 16 && ip[2..6] == MAGIC_COOKIE
  }

  lemma FrameToIsStunIff(kind: byte, d: Ip, payload: seq<byte>)
    requires IsIp(d)
    ensures IsStun(Frame(kind, d, payload)) <==> HasCookie(d)
  {
    FrameIsStunIff(kind, d, payload);
    if IsV4InV6(d) {
      assert d[2] == d[..12][2] == 0 && d[2..6][0] == d[2];
      assert MAGIC_COOKIE[0] == 0x21;
    }
  }

  /** The index names virtual IPs only; every packet keeps it so. */
  ghost predicate IndexNamesIps(t: Tables) {
    forall a <- t.vipIndex :: IsIp(t.vipIndex[a])
  }

  lemma ServedKeepsIndex(base: Ip, t: Tables, data: seq<byte>, from: Addr, now: int)
    requires IsIp(base) && IndexNamesIps(t)
    ensures IndexNamesIps(Served(base, t, data, from, now))
  {
  }

  /** `out` is one datagram to `to`, which brings its receiver `payload` from `src`. */
  ghost predicate Arrives(out: seq<Datagram>, to: Addr, src: Ip, payload: seq<byte>) {
    && |out| == 1 && out[0].to == to
    && Delivered(out[0].data).Some?
    && Key(Delivered(out[0].data).value.0) == Key(src) && Delivered(out[0].data).value.1 == payload
  }

  /** One payload for `d`: what the sender's frame comes to at the server. If the sender is registered and `d`
      is a peer whose address does not spell the cookie, the payload (its length modulo 65536) arrives at
      the peer's address from the virtual IP the server has for the sender; otherwise nothing is sent at all. */
  lemma RelayEndToEnd(t: Tables, from: Addr, d: Ip, payload: seq<byte>)
    requires IsIp(d) && IndexNamesIps(t)
    ensures var out := Answer(t, Frame(MSG_DATA, d, payload), from);
      if Key(d) in t.peers && from in t.vipIndex && !HasCookie(d)
      then Arrives(out, t.peers[Key(d)].relayAddr, t.vipIndex[from], Carried(payload))
      else out == []
    ensures Carried(payload) == payload <==> |payload| < 65536
  {
    CarriedIff(payload);
    FrameAnswered(t, from, d, payload);
    if from in t.vipIndex {
      RelayedArrives(t.vipIndex[from], Carried(payload));
    }
  }

  /** The first leg: the server's reading of the sender's frame. */
  lemma FrameAnswered(t: Tables, from: Addr, d: Ip, payload: seq<byte>)
    requires IsIp(d)
    ensures Answer(t, Frame(MSG_DATA, d, payload), from)
         == if HasCookie(d) then [] else Relayed(t, d, Carried(payload), from)
  {
    WholeFrame(MSG_DATA, d, payload);
    FrameToIsStunIff(MSG_DATA, d, payload);
    AddrFieldKeepsAddress(d);
  }

  /** The second leg: the server's frame as the receiver reads it. */
  lemma RelayedArrives(src: Ip, payload: seq<byte>)
    requires IsIp(src) && |payload| < 65536
    ensures To16(src) != []
    ensures var got := Delivered(Frame(MSG_DATA, To16(src), payload));
      got.Some? && Key(got.value.0) == Key(src) && got.value.1 == payload
  {
    WholeFrame(MSG_DATA, To16(src), payload);
    To16KeepsAddress(src);
    AddrFieldKeepsAddress(To16(src));
    CarriedIff(payload);
  }

  function RegisterFrame(hostname: seq<byte>): seq<byte> {
    Frame(MSG_REGISTER, [], hostname)
  }

  /** A first registration is never taken for STUN and asks for an address. */
  lemma FirstRegistration(hostname: seq<byte>)
    requires |hostname| < 65536
    ensures !IsStun(RegisterFrame(hostname))
    ensures Parse(RegisterFrame(hostname)) == Some(Control(MSG_REGISTER, Zeros(16), hostname))
    ensures IsUnspecified(Zeros(16))
  {
    FrameIsStunIff(MSG_REGISTER, [], hostname);
    WholeFrame(MSG_REGISTER, [], hostname);
    CarriedIff(hostname);
    assert Zeros(16)[2..6][0] == 0 && MAGIC_COOKIE[0] == 0x21;
    ZerosUnspecified();
  }

  lemma ZerosUnspecified()
    ensures IsUnspecified(Zeros(16))
  {
    assert V4_IN_V6_PREFIX[10] == 255 && Zeros(16)[..12][10] == 0;
  }

  /** A first registration at the server. */
  lemma FirstServed(base: Ip, t: Tables, hostname: seq<byte>, from: Addr, now: int)
    requires IsIp(base) && |hostname| < 65536
    ensures Served(base, t, RegisterFrame(hostname), from, now)
         == match AssignedVip(base, t.used, Zeros(16))
            case None => t
            case Some(vip) => Registered(t, vip, false, from, hostname, now)
  {
    FirstRegistration(hostname);
  }

  lemma LeaseHasCookieIff(base: Ip, i: byte)
    requires IsIp(base)
    ensures HasCookie(Lease(base, i)) <==> HasCookie(base)
  {
    if |base| == 16 {
      assert Lease(base, i)[2..6] == base[2..6];
    }
  }

  lemma LeaseGiven(base: Ip, used: set<Ip>, v: Ip)
    requires IsIp(base) && AssignedVip(base, used, Zeros(16)) == Some(v)
    ensures IsIp(v) && Key(v) !in used && (HasCookie(v) <==> HasCookie(base))
  {
    ZerosUnspecified();
    LeaseHasCookieIff(base, FirstFree(base, used, 10).value);
  }

  lemma RegisteredReach(t: Tables, a1: Addr, a2: Addr, v1: Ip, v2: Ip, payload: seq<byte>)
    requires IndexNamesIps(t) && IsIp(v1) && IsIp(v2) && |payload| < 65536
    requires Key(v2) in t.peers && t.peers[Key(v2)].relayAddr == a2 && a1 in t.vipIndex && t.vipIndex[a1] == Key(v1)
    ensures var out := Answer(t, Frame(MSG_DATA, v2, payload), a1);
      if HasCookie(v2) then out == [] else Arrives(out, a2, v1, payload)
  {
    To16KeepsAddress(v1);
    CarriedIff(payload);
    RelayEndToEnd(t, a1, v2, payload);
  }

  // ---------- What registrations do ----------

  /** `v` is entered as a peer at `a`, seen at `now`, and indexed under `a`; the other peers and addresses are as before. */
  ghost predicate Enters(t: Tables, t': Tables, v: Ip, a: Addr, hostname: seq<byte>, now: int) {
    && (forall k :: k in t'.peers <==> k in t.peers || k == Key(v))
    && (forall k <- t.peers :: k != Key(v) ==> t'.peers[k] == t.peers[k])
    && (var p := t'.peers[Key(v)];
        Key(p.vip) == Key(v) && p.relayAddr == a && p.lastSeen == now && p.hostname == hostname)
    && (forall b: Addr :: b in t'.vipIndex <==> b in t.vipIndex || b == a)
    && t'.vipIndex[a] == Key(v)
    && (forall b: Addr | b in t.vipIndex && b != a :: t'.vipIndex[b] == t.vipIndex[b])
  }

  lemma RegisteredEnters(t: Tables, v: Ip, named: bool, a: Addr, hostname: seq<byte>, now: int)
    ensures var t' := Registered(t, v, named, a, hostname, now);
      Enters(t, t', v, a, hostname, now) && t'.used == if named then t.used else t.used + {Key(v)}
  {
  }

  /** The address is not zero, in any notation. */
  ghost predicate IsNamed(v: Ip) {
    && IsIp(v) && (exists i :: 0 <= i < |v| && v[i] != 0)
    && (|v| == 16 ==> (exists i | 0 <= i < 10 || 12 <= i < 16 :: v[i] != 0) || v[10] != 255 || v[11] != 255)
  }

  lemma NamedIff(v: Ip)
    requires IsIp(v)
    ensures IsNamed(v) <==> !IsUnspecified(v)
  {
    UnspecifiedIff(v);
  }

  /** A registration that names its virtual IP, such as each heartbeat of a client: wherever it comes from, the
      sender is entered and indexed under that address, no lease changes, and what any indexed sender sends to
      the virtual IP from then on arrives at that address. */
  lemma NamedRegistration(base: Ip, t: Tables, v: Ip, hostname: seq<byte>, a: Addr, now: int, from: Addr, payload: seq<byte>)
    requires IsIp(base) && IndexNamesIps(t) && IsNamed(v) && !HasCookie(v) && |hostname| < 65536 && |payload| < 65536
    ensures var t' := Served(base, t, Frame(0x01, v, hostname), a, now);
      && Enters(t, t', v, a, hostname, now) && t'.used == t.used
      && (from in t'.vipIndex ==> Arrives(Answer(t', Frame(0x04, v, payload), from), a, t'.vipIndex[from], payload))
  {
    var t' := Served(base, t, Frame(0x01, v, hostname), a, now);
    NamedServed(base, t, v, hostname, a, now);
    RegisteredEnters(t, AddrField(v), true, a, hostname, now);
    AddrFieldKeepsAddress(v);
    ServedKeepsIndex(base, t, Frame(0x01, v, hostname), a, now);
    RelayEndToEnd(t', from, v, payload);
  }

  lemma NamedServed(base: Ip, t: Tables, v: Ip, hostname: seq<byte>, a: Addr, now: int)
    requires IsIp(base) && IsNamed(v) && !HasCookie(v) && |hostname| < 65536
    ensures Served(base, t, Frame(0x01, v, hostname), a, now) == Registered(t, AddrField(v), true, a, hostname, now)
  {
    FrameToIsStunIff(0x01, v, hostname);
    WholeFrame(0x01, v, hostname);
    CarriedIff(hostname);
    AddrFieldKeepsAddress(v);
    NamedIff(v);
    NamedIff(AddrField(v));
    UnspecifiedByKey(v, AddrField(v));
  }

  lemma UnspecifiedByKey(v: Ip, w: Ip)
    requires Key(v) == Key(w)
    ensures IsUnspecified(v) <==> IsUnspecified(w)
  {
  }

  /** A registration that names none: refused, with nothing changed, when no host address is free; else the lowest
      free one is leased, entered and indexed. */
  lemma UnnamedRegistration(base: Ip, t: Tables, hostname: seq<byte>, a: Addr, now: int) returns (granted: Option<Ip>)
    requires IsIp(base) && |hostname| < 65536
    ensures var t' := Served(base, t, Frame(0x01, [], hostname), a, now);
      match granted
      case None => t' == t && forall ip | IsHost(base, ip) :: Key(ip) in t.used
      case Some(v) => IsLowestFree(base, t.used, v) && Enters(t, t', v, a, hostname, now) && t'.used == t.used + {Key(v)}
  {
    FirstServed(base, t, hostname, a, now);
    FirstFreeIsLowest(base, t.used);
    ZerosUnspecified();
    granted := AssignedVip(base, t.used, Zeros(16));
    if granted.Some? {
      RegisteredEnters(t, granted.value, false, a, hostname, now);
    }
  }

  /** A frame of any other kind changes nothing. */
  lemma OtherFramesChangeNothing(base: Ip, t: Tables, kind: byte, v: Ip, payload: seq<byte>, a: Addr, now: int)
    requires IsIp(base) && kind != 0x01
    ensures Served(base, t, Frame(kind, v, payload), a, now) == t
  {
    WholeFrame(kind, v, payload);
  }

  // ---------- What the client makes of frames ----------

  /** A peer list enters its peers, and only a data frame reaches the callback. */
  ghost predicate Understands(known: map<Ip, PeerInfo>, m: map<Ip, PeerInfo>, own: Ip, packet: seq<byte>, data: Option<(Ip, seq<byte>)>) {
    match Parse(packet)
    case None => m == known && data == None
    case Some(c) =>
      && data == (if c.kind == 0x04 then Some((c.ip, c.payload)) else None)
      && (if c.kind == 0x03
          then match DecodePeerList(c.payload)
               case Ok(list) => Taught(m, known, list, own)
               case Err(_) => m == known
          else m == known)
  }

  /** The server's peer list, as its frame reaches a client: each peer listed last for its address is known then at
      the address listed, the client itself excepted. */
  lemma PeerListFrameRead(vip: Ip, list: seq<PeerInfo>, known: map<Ip, PeerInfo>, m: map<Ip, PeerInfo>, own: Ip)
    requires FieldsFit(list) && |EncodePeerList(list)| < 65536 && |list| < 65536
    requires exists data :: Understands(known, m, own, Frame(0x03, vip, EncodePeerList(list)), data)
    ensures Taught(m, known, ReceivedAll(list), own)
  {
    WholeFrame(0x03, vip, EncodePeerList(list));
    CarriedIff(EncodePeerList(list));
    PeerListRoundTripIff(list);
  }

  // ---------- Runs of packets ----------

  datatype Incoming = Incoming(data: seq<byte>, from: Addr, now: int)

  function ServedAll(base: Ip, t: Tables, ps: seq<Incoming>): Tables
    requires IsIp(base)
    decreases ps
  {
    if ps == [] then t else ServedAll(base, Served(base, t, ps[0].data, ps[0].from, ps[0].now), ps[1..])
  }

  /** `v` is leased, and a peer that relays to `a` and is known by that address. */
  ghost predicate Linked(t: Tables, a: Addr, v: Ip) {
    && Key(v) in t.used && Key(v) in t.peers && t.peers[Key(v)].relayAddr == a
    && a in t.vipIndex && t.vipIndex[a] == Key(v)
  }

  /** The packet is not a registration from `a` or one that names `v`. */
  predicate LeavesAlone(p: Incoming, a: Addr, v: Ip) {
    IsStun(p.data) || Parse(p.data) == None || Parse(p.data).value.kind != MSG_REGISTER
    || (p.from != a && (IsUnspecified(Parse(p.data).value.ip) || Key(Parse(p.data).value.ip) != Key(v)))
  }

  lemma AssignedApart(base: Ip, used: set<Ip>, ip: Ip, v: Ip)
    requires IsIp(base) && v in used && AssignedVip(base, used, ip).Some?
    requires IsUnspecified(ip) || Key(ip) != v
    ensures Key(AssignedVip(base, used, ip).value) != v
  {
  }

  lemma RegistrationKeepsLink(t: Tables, vip: Ip, named: bool, from: Addr, hostname: seq<byte>, now: int, a: Addr, v: Ip)
    requires Linked(t, a, v) && from != a && Key(vip) != Key(v)
    ensures Linked(Registered(t, vip, named, from, hostname, now), a, v)
  {
  }

  lemma StepKeepsLink(base: Ip, t: Tables, p: Incoming, a: Addr, v: Ip)
    requires IsIp(base) && Linked(t, a, v) && LeavesAlone(p, a, v)
    ensures Linked(Served(base, t, p.data, p.from, p.now), a, v)
  {
    if !IsStun(p.data) && Parse(p.data).Some? && Parse(p.data).value.kind == MSG_REGISTER {
      var c := Parse(p.data).value;
      var vip := AssignedVip(base, t.used, c.ip);
      if vip.Some? {
        AssignedApart(base, t.used, c.ip, Key(v));
        RegistrationKeepsLink(t, vip.value, !IsUnspecified(c.ip), p.from, c.payload, p.now, a, v);
      }
    }
  }

  lemma {:induction false} RunKeepsLink(base: Ip, t: Tables, ps: seq<Incoming>, a: Addr, v: Ip)
    requires IsIp(base) && Linked(t, a, v) && forall p <- ps :: LeavesAlone(p, a, v)
    ensures Linked(ServedAll(base, t, ps), a, v)
    decreases ps
  {
    if ps != [] {
      assert ps[0] in ps;
      StepKeepsLink(base, t, ps[0], a, v);
      RunKeepsLink(base, Served(base, t, ps[0].data, ps[0].from, ps[0].now), ps[1..], a, v);
    }
  }

  lemma {:induction false} RunKeepsIndex(base: Ip, t: Tables, ps: seq<Incoming>)
    requires IsIp(base) && IndexNamesIps(t)
    ensures IndexNamesIps(ServedAll(base, t, ps))
    decreases ps
  {
    if ps != [] {
      ServedKeepsIndex(base, t, ps[0].data, ps[0].from, ps[0].now);
      RunKeepsIndex(base, Served(base, t, ps[0].data, ps[0].from, ps[0].now), ps[1..]);
    }
  }

  /** The client at `a` sends its first registration and is given `v`. */
  ghost predicate Joins(base: Ip, t: Tables, a: Addr, hostname: seq<byte>, now: int, v: Ip, t': Tables)
    requires IsIp(base)
  {
    AssignedVip(base, t.used, Zeros(16)) == Some(v) && t' == Served(base, t, RegisterFrame(hostname), a, now)
  }

  lemma JoinLinks(base: Ip, t: Tables, a: Addr, hostname: seq<byte>, now: int, v: Ip, t': Tables)
    requires IsIp(base) && |hostname| < 65536 && Joins(base, t, a, hostname, now, v, t')
    ensures Linked(t', a, v) && IsIp(v) && (HasCookie(v) <==> HasCookie(base))
    ensures forall b: Addr, w | Linked(t, b, w) && b != a :: Key(w) != Key(v) && Linked(t', b, w)
  {
    FirstServed(base, t, hostname, a, now);
    LeaseGiven(base, t.used, v);
    forall b: Addr, w | Linked(t, b, w) && b != a ensures Key(w) != Key(v) && Linked(t', b, w) {
      RegistrationKeepsLink(t, v, false, a, hostname, now, b, w);
    }
  }

  lemma LinkedReach(t: Tables, a1: Addr, a2: Addr, v1: Ip, v2: Ip, payload: seq<byte>)
    requires IndexNamesIps(t) && IsIp(v1) && IsIp(v2) && Linked(t, a1, v1) && Linked(t, a2, v2) && |payload| < 65536
    ensures var out := Answer(t, Frame(MSG_DATA, v2, payload), a1);
      if HasCookie(v2) then out == [] else Arrives(out, a2, v1, payload)
  {
    RegisteredReach(t, a1, a2, v1, v2, payload);
  }

  /** Two clients register for the first time, whatever the tables hold, with any packets between and after that
      neither re-register one of the two addresses nor claim one of the two virtual IPs. Their virtual
      IPs differ; and whatever payload the one sends to the other's virtual IP arrives at its address, from
      the first one's virtual IP, unless the network's own address spells the cookie: in such a
      network, fd00:2112:a442::/64 for one, no payload is ever relayed. */
  lemma RegisterThenRelay(base: Ip, t: Tables, t1: Tables, t2: Tables, a1: Addr, a2: Addr, h1: seq<byte>, h2: seq<byte>,
                          now1: int, now2: int, v1: Ip, v2: Ip, between: seq<Incoming>, later: seq<Incoming>, payload: seq<byte>)
    requires IsIp(base) && IndexNamesIps(t) && a1 != a2 && |h1| < 65536 && |h2| < 65536 && |payload| < 65536
    requires Joins(base, t, a1, h1, now1, v1, t1) && (forall p <- between :: LeavesAlone(p, a1, v1))
    requires Joins(base, ServedAll(base, t1, between), a2, h2, now2, v2, t2)
    requires forall p <- later :: LeavesAlone(p, a1, v1) && LeavesAlone(p, a2, v2)
    ensures Key(v1) != Key(v2)
    ensures var t3 := ServedAll(base, t2, later);
      var out1, out2 := Answer(t3, Frame(MSG_DATA, v2, payload), a1), Answer(t3, Frame(MSG_DATA, v1, payload), a2);
      if HasCookie(base) then out1 == out2 == []
      else Arrives(out1, a2, v1, payload) && Arrives(out2, a1, v2, payload)
  {
    BothLinked(base, t, t1, t2, a1, a2, h1, h2, now1, now2, v1, v2, between, later);
    LinkedReach(ServedAll(base, t2, later), a1, a2, v1, v2, payload);
    LinkedReach(ServedAll(base, t2, later), a2, a1, v2, v1, payload);
  }

  lemma BothLinked(base: Ip, t: Tables, t1: Tables, t2: Tables, a1: Addr, a2: Addr, h1: seq<byte>, h2: seq<byte>,
                   now1: int, now2: int, v1: Ip, v2: Ip, between: seq<Incoming>, later: seq<Incoming>)
    requires IsIp(base) && IndexNamesIps(t) && a1 != a2 && |h1| < 65536 && |h2| < 65536
    requires Joins(base, t, a1, h1, now1, v1, t1) && (forall p <- between :: LeavesAlone(p, a1, v1))
    requires Joins(base, ServedAll(base, t1, between), a2, h2, now2, v2, t2)
    requires forall p <- later :: LeavesAlone(p, a1, v1) && LeavesAlone(p, a2, v2)
    ensures Key(v1) != Key(v2) && IsIp(v1) && IsIp(v2)
    ensures HasCookie(v1) == HasCookie(v2) == HasCookie(base)
    ensures var t3 := ServedAll(base, t2, later); IndexNamesIps(t3) && Linked(t3, a1, v1) && Linked(t3, a2, v2)
  {
    JoinLinks(base, t, a1, h1, now1, v1, t1);
    RunKeepsLink(base, t1, between, a1, v1);
    JoinLinks(base, ServedAll(base, t1, between), a2, h2, now2, v2, t2);
    RunKeepsLink(base, t2, later, a1, v1);
    RunKeepsLink(base, t2, later, a2, v2);
    ServedKeepsIndex(base, t, RegisterFrame(h1), a1, now1);
    RunKeepsIndex(base, t1, between);
    ServedKeepsIndex(base, ServedAll(base, t1, between), RegisterFrame(h2), a2, now2);
    RunKeepsIndex(base, t2, later);
  }

  // fd00:2112:a442::/64 is such a network.
  lemma CookieNetworkExists()
    ensures HasCookie([0xFD, 0, 0x21, 0x12, 0xA4, 0x42] + Zeros(10))
  {
  }
}
