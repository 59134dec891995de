/** The n2n wire format: packets and peer lists (n2n/protocol.go). */
module N2nProtocol {
  import opened Bytes

  const TYPE_REGISTER: byte := 0x01
  const TYPE_REGISTER_ACK: byte := 0x02
  const TYPE_HEARTBEAT: byte := 0x03
  const TYPE_HEARTBEAT_ACK: byte := 0x04
  const TYPE_PEER_LIST: byte := 0x08
  const TYPE_BYE: byte := 0x09

  datatype Packet = Packet(kind: byte, srcIp: Ip, dstIp: Ip, payload: seq<byte>)

  datatype PeerInfo = PeerInfo(virtualIp: Ip, realAddr: seq<byte>, lastSeen: int)

  datatype DecodeError = TooShort | BadAddrLen | ShortHeader | ShortPayload | OutOfRange

  datatype Result<+T> = Ok(value: T) | Err(error: DecodeError)

  // ---------- Packets ----------

  /** The length byte of the address fields; an invalid or missing source counts as IPv4. */
  function AddrLen(p: Packet): (n: nat)
    ensures n == 4 || n == 16
  {
    if WireIp(p.srcIp) == [] then 4 else |WireIp(p.srcIp)|
  }

  function SentSrc(p: Packet): (ip: Ip)
    ensures |ip| == AddrLen(p)
  {
    if WireIp(p.srcIp) == [] then Zeros(4) else WireIp(p.srcIp)
  }

  /** A destination of the other family is zeroed. */
  function SentDst(p: Packet): (ip: Ip)
    ensures |ip| == AddrLen(p)
  {
    if |WireIp(p.dstIp)| == AddrLen(p) then WireIp(p.dstIp) else Zeros(AddrLen(p))
  }

  function EncodePacket(p: Packet): (data: seq<byte>)
    ensures |data| == 4 + 2 * AddrLen(p) + |p.payload|
  {
    [p.kind, AddrLen(p)] + SentSrc(p) + SentDst(p) + PutU16(|p.payload|) + p.payload
  }

  function DecodePacket(data: seq<byte>): Result<Packet> {
    if |data| < 4 then Err(TooShort)
    else
      var addrLen := data[1];
      if addrLen != 4 && addrLen != 16 then Err(BadAddrLen)
      else
        var headerLen := 2 + addrLen * 2 + 2;
        if |data| < headerLen then Err(ShortHeader)
        else
          var payloadLen := U16At(data, headerLen - 2);
          if |data| < headerLen + payloadLen then Err(ShortPayload)
          else Ok(Packet(data[0], data[2..2 + addrLen], data[2 + addrLen..2 + addrLen * 2],
                         data[headerLen..headerLen + payloadLen]))
  }

  method MarshalPacket(p: Packet) returns (buf: array<byte>)
    ensures fresh(buf) && buf[..] == EncodePacket(p)
  {
    var src := To4(p.srcIp);
    if src == [] {
      src := To16(p.srcIp);
    }
    var dst := To4(p.dstIp);
    if dst == [] {
      dst := To16(p.dstIp);
    }
    var addrLen := |src|;
    if addrLen == 0 {
      addrLen := 4;
    }
    if |dst| != addrLen {
      dst := Zeros(addrLen);
    }
    buf := FillPacket(p.kind, addrLen, src, dst, PutU16(|p.payload|), p.payload);
  }

  // The buffer writes of `MarshalPacket`; a missing source leaves its field zero.
  method FillPacket(kind: byte, addrLen: byte, src: seq<byte>, dst: seq<byte>, l: seq<byte>, payload: seq<byte>)
      returns (buf: array<byte>)
    requires (src == [] || |src| == addrLen) && |dst| == addrLen && |l| == 2
    ensures fresh(buf)
    ensures buf[..] == [kind, addrLen] + (if src == [] then Zeros(addrLen) else src) + dst + l + payload
  {
    var headerLen := 1 + 1 + addrLen + addrLen + 2;
    buf := new byte[headerLen + |payload|](_ => 0);
    FillSource(buf, kind, addrLen, src);
    Put(buf, 2 + addrLen, dst);
    Put(buf, 2 + addrLen * 2, l);
    Put(buf, headerLen, payload);
    assert buf[..] == buf[..headerLen + |payload|];
  }

  method FillSource(buf: array<byte>, kind: byte, addrLen: byte, src: seq<byte>)
    requires 2 + addrLen as int <= buf.Length && (src == [] || |src| == addrLen)
    requires forall i :: 0 <= i < buf.Length ==> buf[i] == 0
    modifies buf
    ensures buf[..2 + addrLen as int] == [kind, addrLen] + if src == [] then Zeros(addrLen) else src
    ensures forall i :: 2 + addrLen as int <= i < buf.Length ==> buf[i] == 0
  {
    buf[0] := kind;
    buf[1] := addrLen;
    ghost var n: nat, was := addrLen, buf[..];
    assert was[..2] == [kind, addrLen];
    ZeroGap(was, 2, n);
    Put(buf, 2, src);
    forall i | 2 + |src| <= i < buf.Length ensures buf[i] == was[i] {
      assert buf[i] == buf[2 + |src|..][i - 2 - |src|];
      assert was[i] == was[2 + |src|..][i - 2 - |src|];
    }
    if src == [] {
      assert buf[..2 + n] == was[..2 + n];
    }
  }

  method UnmarshalPacket(data: seq<byte>) returns (r: Result<Packet>)
    ensures r == DecodePacket(data)
  {
    if |data| < 4 {
      return Err(TooShort);
    }
    var addrLen := data[1];
    if addrLen != 4 && addrLen != 16 {
      return Err(BadAddrLen);
    }
    var headerLen := 2 + addrLen * 2 + 2;
    if |data| < headerLen {
      return Err(ShortHeader);
    }
    var srcIp := data[2..2 + addrLen];
    var dstIp := data[2 + addrLen..2 + addrLen * 2];
    var payloadLen := U16At(data, headerLen - 2);
    if |data| < headerLen + payloadLen {
      return Err(ShortPayload);
    }
    r := Ok(Packet(data[0], srcIp, dstIp, data[headerLen..headerLen + payloadLen]));
  }

  /** The layout of a packet, read from its beginning as far as the buffer goes. */
  lemma HeaderFields(kind: byte, src: seq<byte>, dst: seq<byte>, l: seq<byte>, body: seq<byte>, data: seq<byte>)
    requires |src| == |dst| && (|src| == 4 || |src| == 16) && |l| == 2 && U16At(l, 0) <= |body|
    requires Agrees(data, 0, [kind, |src|] + (src + (dst + (l + body)))) && |data| <= 4 + 2 * |src| + |body|
    ensures |data| < 4 + 2 * |src| + U16At(l, 0) ==> DecodePacket(data).Err?
    ensures |data| >= 4 + 2 * |src| + U16At(l, 0) ==> DecodePacket(data) == Ok(Packet(kind, src, dst, body[..U16At(l, 0)]))
  {
    var n := |src|;
    AgreesInParts(data, 0, [kind, n], src + (dst + (l + body)));
    AgreesInParts(data, 2, src, dst + (l + body));
    AgreesInParts(data, 2 + n, dst, l + body);
    AgreesInParts(data, 2 + n + n, l, body);
    if |data| >= 2 {
      assert data[0] == [kind, n][0] && data[0 + 1] == [kind, n][1];
      if |data| >= 4 + 2 * n {
        U16Copied(data, 2 + 2 * n, l);
        HeaderBody(data, 4 + 2 * n, body, U16At(l, 0));
      }
    }
  }

  lemma HeaderBody(data: seq<byte>, offset: nat, body: seq<byte>, m: nat)
    requires offset <= |data| <= offset + |body| && Agrees(data, offset, body)
    ensures offset + m <= |data| ==> data[offset..offset + m] == body[..m]
  {
    LastPart(data, offset, body);
    if offset + m <= |data| {
      assert data[offset..offset + m] == data[offset..][..m];
    }
  }

  /** What any packet becomes on the other side, trailing bytes or not: nothing is lost but what the
      16-bit length and the single address-length byte cannot express. */
  lemma PacketTransit(p: Packet, rest: seq<byte>)
    ensures DecodePacket(EncodePacket(p) + rest) == Ok(Packet(p.kind, SentSrc(p), SentDst(p), Carried(p.payload)))
  {
    var data := EncodePacket(p) + rest;
    U16RoundTrip(|p.payload|);
    CutPacket(p, PutU16(|p.payload|), rest, |data|);
    assert data[..|data|] == data;
    StillCarried(p.payload, rest);
  }

  lemma StillCarried(payload: seq<byte>, rest: seq<byte>)
    ensures (payload + rest)[..|payload| % 65536] == Carried(payload)
  {
  }

  lemma PacketArrives(p: Packet)
    ensures DecodePacket(EncodePacket(p)) == Ok(Packet(p.kind, SentSrc(p), SentDst(p), Carried(p.payload)))
  {
    PacketTransit(p, []);
    assert EncodePacket(p) + [] == EncodePacket(p);
  }

  lemma CutPacket(p: Packet, l: seq<byte>, rest: seq<byte>, k: nat)
    requires l == PutU16(|p.payload|) && U16At(l, 0) <= |p.payload| && k <= |EncodePacket(p) + rest|
    ensures var n, r := 4 + 2 * AddrLen(p) + U16At(l, 0), DecodePacket((EncodePacket(p) + rest)[..k]);
      && (k < n ==> r.Err?)
      && (k >= n ==> r == Ok(Packet(p.kind, SentSrc(p), SentDst(p), (p.payload + rest)[..U16At(l, 0)])))
  {
    var h, src, dst, body := [p.kind, AddrLen(p)], SentSrc(p), SentDst(p), p.payload + rest;
    Associate(h + src + dst + l, p.payload, rest);
    Nested5(h, src, dst, l, body);
    var e := h + (src + (dst + (l + body)));
    assert EncodePacket(p) + rest == e;
    CutAgrees(e, [], k);
    assert e + [] == e;
    HeaderFields(p.kind, src, dst, l, body, e[..k]);
  }

  lemma SentUnchangedIff(p: Packet)
    ensures SentSrc(p) == WireIp(p.srcIp) && SentDst(p) == WireIp(p.dstIp)
       <==> IsIp(p.srcIp) && |WireIp(p.dstIp)| == |WireIp(p.srcIp)|
  {
    WireIpPresent(p.srcIp);
  }

  /** The round trip is exact when, and only when, both addresses are of one family and the payload fits
      its length field. */
  lemma PacketRoundTripIff(p: Packet)
    ensures DecodePacket(EncodePacket(p)) == Ok(Packet(p.kind, WireIp(p.srcIp), WireIp(p.dstIp), p.payload))
       <==> |p.payload| < 65536 && IsIp(p.srcIp) && |WireIp(p.dstIp)| == |WireIp(p.srcIp)|
  {
    PacketArrives(p);
    SentUnchangedIff(p);
    CarriedIff(p.payload);
  }

  /** A packet cut short anywhere is rejected. */
  lemma CutPacketRejected(p: Packet, k: nat)
    requires |p.payload| < 65536 && k < |EncodePacket(p)|
    ensures DecodePacket(EncodePacket(p)[..k]).Err?
  {
    U16RoundTrip(|p.payload|);
    CutPacket(p, PutU16(|p.payload|), [], k);
    assert EncodePacket(p) + [] == EncodePacket(p);
  }

  /** A packet byte by byte: kind, length of the addresses, source, destination, two bytes of length, payload. */
  lemma PacketBytes(p: Packet)
    ensures var d, n := EncodePacket(p), AddrLen(p);
      && |d| == 4 + 2 * n + |p.payload| && d[0] == p.kind && d[1] == n
      && d[2..2 + n] == SentSrc(p) && d[2 + n..2 + 2 * n] == SentDst(p)
      && IsField(d[2 + 2 * n..4 + 2 * n], |p.payload|) && d[4 + 2 * n..] == p.payload
    ensures IsIp(p.srcIp) ==> SentSrc(p) == WireIp(p.srcIp)
    ensures !IsIp(p.srcIp) ==> SentSrc(p) == [0, 0, 0, 0]
    ensures SentDst(p) == if |WireIp(p.dstIp)| == |SentSrc(p)| then WireIp(p.dstIp) else Zeros(|SentSrc(p)|)
  {
    BigEndian(|p.payload|);
    WireIpPresent(p.srcIp);
    PacketParts(p.kind, SentSrc(p), SentDst(p), PutU16(|p.payload|), p.payload);
  }

  lemma PacketParts(kind: byte, src: seq<byte>, dst: seq<byte>, l: seq<byte>, payload: seq<byte>)
    requires |src| == |dst| < 256 && |l| == 2
    ensures var d, n := [kind, |src|] + src + dst + l + payload, |src|;
      && |d| == 4 + 2 * n + |payload| && d[0] == kind && d[1] == n
      && d[2..2 + n] == src && d[2 + n..2 + 2 * n] == dst
      && d[2 + 2 * n..4 + 2 * n] == l && d[4 + 2 * n..] == payload
  {
  }

  /** `data` begins with a packet of that shape. */
  predicate IsPacket(data: seq<byte>, p: Packet) {
    var n, m := |p.srcIp|, |p.payload|;
    && (n == 4 || n == 16) && |p.dstIp| == n && m < 65536 && |data| >= 4 + 2 * n + m
    && data[0] == p.kind && data[1] == n && data[2..2 + n] == p.srcIp && data[2 + n..2 + 2 * n] == p.dstIp
    && IsField(data[2 + 2 * n..4 + 2 * n], m) && data[4 + 2 * n..4 + 2 * n + m] == p.payload
  }

  /** What is accepted: exactly such bytes, with any bytes behind them. */
  lemma DecodePacketIff(data: seq<byte>, p: Packet)
    ensures DecodePacket(data) == Ok(p) <==> IsPacket(data, p)
  {
    if |data| >= 4 + 2 * |p.srcIp| {
      FieldIff(data, 2 + 2 * |p.srcIp|, |p.payload|);
    }
  }

  /** And what is rejected for what, in this order. */
  lemma PacketRejections(data: seq<byte>)
    ensures match DecodePacket(data)
      case Err(TooShort) => |data| < 4
      case Err(BadAddrLen) => |data| >= 4 && data[1] != 4 && data[1] != 16
      case Err(ShortHeader) => |data| >= 4 && (data[1] == 4 || data[1] == 16) && |data| < 4 + 2 * data[1] as int
      case Err(ShortPayload) =>
        && |data| >= 4 && (data[1] == 4 || data[1] == 16) && |data| >= 4 + 2 * data[1] as int
        && var n := data[1] as int; |data| < 4 + 2 * n + data[2 + 2 * n] as int * 256 + data[3 + 2 * n] as int
      case Err(OutOfRange) => false
      case Ok(p) => IsPacket(data, p)
  {
    BigEndian(0);
    if DecodePacket(data).Ok? {
      DecodePacketIff(data, DecodePacket(data).value);
    }
  }

  // ---------- Packets under encryption ----------

  /** Encryption, as far as the protocol depends on it: `open` undoes `seal` under any nonce. */
  datatype Cipher = Cipher(seal: (seq<byte>, seq<byte>) -> seq<byte>, open: seq<byte> -> Option<seq<byte>>)

  ghost predicate Inverse(crypto: Option<Cipher>) {
    crypto.Some? ==> forall nonce, data :: crypto.value.open(crypto.value.seal(nonce, data)) == Some(data)
  }

  function Seal(crypto: Option<Cipher>, nonce: seq<byte>, data: seq<byte>): seq<byte> {
    if crypto.Some? then crypto.value.seal(nonce, data) else data
  }

  function Open(crypto: Option<Cipher>, data: seq<byte>): Option<seq<byte>> {
    if crypto.Some? then crypto.value.open(data) else Some(data)
  }

  function Send(crypto: Option<Cipher>, nonce: seq<byte>, p: Packet): seq<byte> {
    Seal(crypto, nonce, EncodePacket(p))
  }

  function Receive(crypto: Option<Cipher>, data: seq<byte>): Option<Packet> {
    match Open(crypto, data)
    case None => None
    case Some(plain) => Decoded(DecodePacket(plain))
  }

  function Decoded(r: Result<Packet>): Option<Packet> {
    match r
    case Ok(p) => Some(p)
    case Err(_) => None
  }

  lemma SealOpens(crypto: Option<Cipher>, nonce: seq<byte>, data: seq<byte>)
    requires Inverse(crypto)
    ensures Open(crypto, Seal(crypto, nonce, data)) == Some(data)
  {
  }

  /** Without encryption the packet's bytes are sent and read as they are; with it they are what is sealed and opened. */
  lemma OnTheWire(crypto: Option<Cipher>, nonce: seq<byte>, p: Packet, data: seq<byte>)
    ensures Send(crypto, nonce, p) == if crypto == None then EncodePacket(p) else crypto.value.seal(nonce, EncodePacket(p))
    ensures var plain := if crypto == None then Some(data) else crypto.value.open(data);
      forall q :: Receive(crypto, data) == Some(q) <==> plain.Some? && DecodePacket(plain.value) == Ok(q)
  {
  }

  lemma SentAndReceived(crypto: Option<Cipher>, nonce: seq<byte>, p: Packet)
    requires Inverse(crypto)
    ensures Receive(crypto, Send(crypto, nonce, p)) == Some(Packet(p.kind, SentSrc(p), SentDst(p), Carried(p.payload)))
  {
    SealOpens(crypto, nonce, EncodePacket(p));
    PacketArrives(p);
  }

  // ---------- Registration payload ----------

  datatype RegisterPayload = RegisterPayload(community: seq<byte>, hostname: seq<byte>, port: nat)

  function EncodeRegister(r: RegisterPayload): seq<byte> {
    PutU16(|r.community|) + r.community + PutU16(|r.hostname|) + r.hostname + PutU16(r.port)
  }

  /** `OutOfRange` marks the inputs on which a slice expression of the program leaves its bounds. */
  function DecodeRegister(data: seq<byte>): Result<RegisterPayload> {
    if |data| < 6 then Err(TooShort)
    else
      var comLen := U16At(data, 0);
      if 4 + comLen > |data| then Err(OutOfRange)
      else
        var hostLen := U16At(data, 2 + comLen);
        if 6 + comLen + hostLen > |data| then Err(OutOfRange)
        else Ok(RegisterPayload(data[2..2 + comLen], data[4 + comLen..4 + comLen + hostLen],
                                U16At(data, 4 + comLen + hostLen)))
  }

  /** What a registration payload announces: its two length fields, its texts, its port, as far as `data` goes. */
  lemma RegisterFields(lc: seq<byte>, com: seq<byte>, lh: seq<byte>, host: seq<byte>, port: seq<byte>, data: seq<byte>)
    requires |lc| == |lh| == |port| == 2 && U16At(lc, 0) == |com| && U16At(lh, 0) == |host|
    requires Agrees(data, 0, lc + (com + (lh + (host + port)))) && |data| <= 6 + |com| + |host|
    ensures DecodeRegister(data) == if |data| < 6 then Err(TooShort)
                                    else if |data| < 6 + |com| + |host| then Err(OutOfRange)
                                    else Ok(RegisterPayload(com, host, U16At(port, 0)))
  {
    var c, h := |com|, |host|;
    AgreesInParts(data, 0, lc, com + (lh + (host + port)));
    AgreesInParts(data, 2, com, lh + (host + port));
    AgreesInParts(data, 2 + c, lh, host + port);
    AgreesInParts(data, 4 + c, host, port);
    AgreesInParts(data, 4 + c + h, port, []);
    assert port + [] == port;
    if |data| >= 6 {
      U16Copied(data, 0, lc);
      if |data| >= 4 + c {
        U16Copied(data, 2 + c, lh);
      }
      if |data| == 6 + c + h {
        U16Copied(data, 4 + c + h, port);
      }
    }
  }

  predicate RegisterFits(r: RegisterPayload) {
    |r.community| < 65536 && |r.hostname| < 65536 && r.port < 65536
  }

  lemma DecodedRegisterFits(data: seq<byte>, r: RegisterPayload)
    requires DecodeRegister(data) == Ok(r)
    ensures RegisterFits(r)
  {
  }

  /** A registration cut after `k` bytes. Not one of the strict prefixes is accepted, but only those without
      room for an empty registration are reported as errors; on the others the program fails. */
  lemma CutRegister(r: RegisterPayload, k: nat)
    requires RegisterFits(r) && k <= |EncodeRegister(r)|
    ensures DecodeRegister(EncodeRegister(r)[..k]) ==
      if k < 6 then Err(TooShort) else if k < |EncodeRegister(r)| then Err(OutOfRange) else Ok(r)
  {
    U16RoundTrip(|r.community|);
    U16RoundTrip(|r.hostname|);
    U16RoundTrip(r.port);
    CutFields(PutU16(|r.community|), r.community, PutU16(|r.hostname|), r.hostname, PutU16(r.port), k);
  }

  lemma CutFields(lc: seq<byte>, com: seq<byte>, lh: seq<byte>, host: seq<byte>, port: seq<byte>, k: nat)
    requires |lc| == |lh| == |port| == 2 && U16At(lc, 0) == |com| && U16At(lh, 0) == |host|
    requires k <= |lc + com + lh + host + port|
    ensures DecodeRegister((lc + com + lh + host + port)[..k]) ==
      if k < 6 then Err(TooShort) else if k < 6 + |com| + |host| then Err(OutOfRange)
      else Ok(RegisterPayload(com, host, U16At(port, 0)))
  {
    var e := lc + (com + (lh + (host + port)));
    Nested5(lc, com, lh, host, port);
    CutAgrees(e, [], k);
    assert e + [] == e;
    RegisterFields(lc, com, lh, host, port, e[..k]);
  }

  lemma RegisterRoundTrip(r: RegisterPayload)
    requires RegisterFits(r)
    ensures DecodeRegister(EncodeRegister(r)) == Ok(r)
  {
    CutRegister(r, |EncodeRegister(r)|);
    assert EncodeRegister(r)[..|EncodeRegister(r)|] == EncodeRegister(r);
  }

  /** The payloads on which the program fails, by their two length fields: those of at least six bytes that
      are shorter than they announce. */
  lemma RegisterCrashIff(data: seq<byte>)
    ensures DecodeRegister(data) == Err(OutOfRange) <==>
      |data| >= 6 && (|data| < 6 + U16At(data, 0) ||
                      |data| < 6 + U16At(data, 0) + U16At(data, 2 + U16At(data, 0)))
    ensures DecodeRegister([0xFF, 0xFF, 0, 0, 0, 0]) == Err(OutOfRange)
  {
  }

  /** A registration byte by byte: two bytes of length and the community, the same and the hostname, the port. */
  lemma RegisterBytes(r: RegisterPayload)
    ensures var d, c, h := EncodeRegister(r), |r.community|, |r.hostname|;
      && |d| == 6 + c + h && IsField(d[..2], c) && d[2..2 + c] == r.community
      && IsField(d[2 + c..4 + c], h) && d[4 + c..4 + c + h] == r.hostname && IsField(d[4 + c + h..], r.port)
  {
    BigEndian(|r.community|);
    BigEndian(|r.hostname|);
    BigEndian(r.port);
    RegisterParts(PutU16(|r.community|), r.community, PutU16(|r.hostname|), r.hostname, PutU16(r.port));
  }

  lemma RegisterParts(lc: seq<byte>, com: seq<byte>, lh: seq<byte>, host: seq<byte>, port: seq<byte>)
    requires |lc| == |lh| == |port| == 2
    ensures var d, c, h := lc + com + lh + host + port, |com|, |host|;
      && |d| == 6 + c + h && d[..2] == lc && d[2..2 + c] == com
      && d[2 + c..4 + c] == lh && d[4 + c..4 + c + h] == host && d[4 + c + h..] == port
  {
  }

  /** `data` begins with a registration of that shape. */
  predicate IsRegister(data: seq<byte>, r: RegisterPayload) {
    var c, h := |r.community|, |r.hostname|;
    && c < 65536 && h < 65536 && r.port < 65536 && |data| >= 6 + c + h
    && IsField(data[0..2], c) && data[2..2 + c] == r.community
    && IsField(data[2 + c..4 + c], h) && data[4 + c..4 + c + h] == r.hostname
    && IsField(data[4 + c + h..6 + c + h], r.port)
  }

  /** What is accepted: exactly such bytes, with any bytes behind them. */
  lemma DecodeRegisterIff(data: seq<byte>, r: RegisterPayload)
    ensures DecodeRegister(data) == Ok(r) <==> IsRegister(data, r)
  {
    var c, h := |r.community|, |r.hostname|;
    if |data| >= 6 + c + h {
      FieldIff(data, 0, c);
      FieldIff(data, 2 + c, h);
      FieldIff(data, 4 + c + h, r.port);
    }
  }

  // The buffer writes of `marshalRegisterPayload`.
  method MarshalRegister(r: RegisterPayload) returns (buf: array<byte>)
    ensures fresh(buf) && buf[..] == EncodeRegister(r)
  {
    buf := FillRegister(PutU16(|r.community|), r.community, PutU16(|r.hostname|), r.hostname, PutU16(r.port));
  }

  method FillRegister(lc: seq<byte>, com: seq<byte>, lh: seq<byte>, host: seq<byte>, port: seq<byte>) returns (buf: array<byte>)
    requires |lc| == |lh| == |port| == 2
    ensures fresh(buf) && buf[..] == lc + com + lh + host + port
  {
    var comLen, hostLen := |com|, |host|;
    buf := new byte[2 + comLen + 2 + hostLen + 2](_ => 0);
    Put(buf, 0, lc);
    assert buf[..0] == [] && buf[..2] == lc;
    Put(buf, 2, com);
    Put(buf, 2 + comLen, lh);
    Put(buf, 4 + comLen, host);
    Put(buf, 4 + comLen + hostLen, port);
    assert buf[..] == buf[..6 + comLen + hostLen];
  }

  /** A registration is recovered exactly when its three fields fit 16 bits. */
  lemma RegisterRoundTripIff(r: RegisterPayload, data: seq<byte>)
    requires data == EncodeRegister(r)
    ensures DecodeRegister(data) == Ok(r) <==> RegisterFits(r)
  {
    if RegisterFits(r) {
      RegisterRoundTrip(r);
    } else if DecodeRegister(data) == Ok(r) {
      DecodedRegisterFits(data, r);
    }
  }

  // ---------- Peer lists ----------

  function EncodeEntry(p: PeerInfo): (e: seq<byte>)
    ensures |e| == 4 + |WireIp(p.virtualIp)| + |p.realAddr|
  {
    PutU16(|WireIp(p.virtualIp)|) + WireIp(p.virtualIp) + PutU16(|p.realAddr|) + p.realAddr
  }

  function Entries(ps: seq<PeerInfo>): (es: seq<seq<byte>>)
    ensures |es| == |ps| && forall i :: 0 <= i < |ps| ==> es[i] == EncodeEntry(ps[i])
  {
    seq(|ps|, i requires 0 <= i < |ps| => EncodeEntry(ps[i]))
  }

  function EncodeEntries(ps: seq<PeerInfo>): seq<byte> {
    Flatten(Entries(ps))
  }

  function EncodePeerList(ps: seq<PeerInfo>): seq<byte> {
    PutU16(|ps|) + EncodeEntries(ps)
  }

  /** What one entry still carries on the other side. */
  function Received(p: PeerInfo): PeerInfo {
    PeerInfo(WireIp(p.virtualIp), p.realAddr, 0)
  }

  function ReceivedAll(ps: seq<PeerInfo>): (qs: seq<PeerInfo>)
    ensures |qs| == |ps| && forall i :: 0 <= i < |ps| ==> qs[i] == Received(ps[i])
  {
    seq(|ps|, i requires 0 <= i < |ps| => Received(ps[i]))
  }

  /** The entry at `offset` and the offset after it, if the entry is there to its end. */
  function DecodeEntry(data: seq<byte>, offset: nat): (r: Option<(PeerInfo, nat)>)
    requires offset <= |data|
    ensures r.Some? ==> offset < r.value.1 <= |data|
  {
    if offset + 2 > |data| then None
    else
      var addrLen := U16At(data, offset);
      var o := offset + 2;
      if o + addrLen + 2 > |data| then None
      else
        var strLen := U16At(data, o + addrLen);
        var next := o + addrLen + 2 + strLen;
        if next > |data| then None
        else Some((PeerInfo(data[o..o + addrLen], data[o + addrLen + 2..next], 0), next))
  }

  /** Reading one entry, as a function of the offset. */
  function Reader(data: seq<byte>): nat -> Option<(PeerInfo, nat)> {
    (o: nat) => if o <= |data| then DecodeEntry(data, o) else None
  }

  /** Up to `count` entries from `offset` on; the list ends early where an entry is not there to its end. */
  function DecodeEntries(read: nat -> Option<(PeerInfo, nat)>, offset: nat, count: nat): seq<PeerInfo>
    decreases count
  {
    if count == 0 then []
    else match read(offset)
      case None => []
      case Some((p, next)) => [p] + DecodeEntries(read, next, count - 1)
  }

  function DecodePeerList(data: seq<byte>): Result<seq<PeerInfo>> {
    if |data| < 2 then Err(TooShort)
    else Ok(DecodeEntries(Reader(data), 2, U16At(data, 0)))
  }

  lemma EncodeSnoc(ps: seq<PeerInfo>, i: nat)
    requires i < |ps|
    ensures EncodeEntries(ps[..i + 1]) == EncodeEntries(ps[..i]) + EncodeEntry(ps[i])
  {
    var e := EncodeEntry(ps[i]);
    assert Entries(ps[..i + 1]) == Entries(ps[..i]) + [e];
    FlattenAppend(Entries(ps[..i]), [e]);
    assert Flatten([e]) == e + Flatten([]) == e;
  }

  method MarshalPeerList(peers: seq<PeerInfo>) returns (buf: seq<byte>)
    ensures buf == EncodePeerList(peers)
  {
    ghost var count := PutU16(|peers|);
    buf := PutU16(|peers|);
    for i := 0 to |peers|
      invariant buf == count + EncodeEntries(peers[..i])
    {
      var entry := MarshalEntry(peers[i]);
      EncodeSnoc(peers, i);
      assert count + (EncodeEntries(peers[..i]) + entry[..]) == count + EncodeEntries(peers[..i]) + entry[..];
      buf := buf + entry[..];
    }
    assert peers[..|peers|] == peers;
  }

  // The body of the append loop.
  method MarshalEntry(p: PeerInfo) returns (entry: array<byte>)
    ensures fresh(entry) && entry[..] == EncodeEntry(p)
  {
    var vip := To4(p.virtualIp);
    if vip == [] {
      vip := To16(p.virtualIp);
    }
    entry := FillEntry(PutU16(|vip|), vip, PutU16(|p.realAddr|), p.realAddr);
  }

  method FillEntry(l: seq<byte>, vip: seq<byte>, l': seq<byte>, realAddr: seq<byte>) returns (entry: array<byte>)
    requires |l| == |l'| == 2
    ensures fresh(entry) && entry[..] == l + vip + l' + realAddr
  {
    var addrLen := |vip|;
    entry := new byte[2 + addrLen + 2 + |realAddr|](_ => 0);
    Put(entry, 0, l);
    Put(entry, 2, vip);
    Put(entry, 2 + addrLen, l');
    Put(entry, 4 + addrLen, realAddr);
    assert entry[..] == entry[..4 + addrLen + |realAddr|];
    assert entry[..0] + l == l;
  }

  /** Total on arbitrary bytes: every read stays inside `data`. */
  method UnmarshalPeerList(data: seq<byte>) returns (r: Result<seq<PeerInfo>>)
    ensures r == DecodePeerList(data)
  {
    if |data| < 2 {
      return Err(TooShort);
    }
    var count := U16At(data, 0);
    ghost var read := Reader(data);
    ghost var all := DecodeEntries(read, 2, count);
    var peers: seq<PeerInfo> := [];
    var offset: nat := 2;
    for i := 0 to count
      invariant offset <= |data|
      invariant all == peers + DecodeEntries(read, offset, count - i)
    {
      var entry := UnmarshalEntry(data, offset);
      assert entry == read(offset);
      DecodeStep(read, offset, count - i);
      if entry == None {
        break;
      }
      Associate(peers, [entry.value.0], DecodeEntries(read, entry.value.1, count - i - 1));
      peers := peers + [entry.value.0];
      offset := entry.value.1;
    }
    assert all == peers + [] == peers;
    r := Ok(peers);
  }

  lemma DecodeStep(read: nat -> Option<(PeerInfo, nat)>, offset: nat, count: nat)
    requires count > 0
    ensures read(offset) == None ==> DecodeEntries(read, offset, count) == []
    ensures read(offset).Some? ==>
      DecodeEntries(read, offset, count) == [read(offset).value.0] + DecodeEntries(read, read(offset).value.1, count - 1)
  {
  }

  // The body of the decode loop; `None` where it breaks.
  method UnmarshalEntry(data: seq<byte>, start: nat) returns (r: Option<(PeerInfo, nat)>)
    requires start <= |data|
    ensures r == DecodeEntry(data, start)
  {
    var offset := start;
    if offset + 2 > |data| {
      return None;
    }
    var addrLen := U16At(data, offset);
    offset := offset + 2;
    if offset + addrLen + 2 > |data| {
      return None;
    }
    var vip := data[offset..offset + addrLen];
    offset := offset + addrLen;
    var addrStrLen := U16At(data, offset);
    offset := offset + 2;
    if offset + addrStrLen > |data| {
      return None;
    }
    var realAddr := data[offset..offset + addrStrLen];
    offset := offset + addrStrLen;
    r := Some((PeerInfo(vip, realAddr, 0), offset));
  }

  /** An entry byte by byte: two bytes of length and the address, the same and the address text. */
  lemma EntryBytes(p: PeerInfo)
    ensures var d, n := EncodeEntry(p), |WireIp(p.virtualIp)|;
      && |d| == 4 + n + |p.realAddr| && IsField(d[..2], n) && d[2..2 + n] == WireIp(p.virtualIp)
      && IsField(d[2 + n..4 + n], |p.realAddr|) && d[4 + n..] == p.realAddr
  {
    BigEndian(|WireIp(p.virtualIp)|);
    BigEndian(|p.realAddr|);
    EntryParts(PutU16(|WireIp(p.virtualIp)|), WireIp(p.virtualIp), PutU16(|p.realAddr|), p.realAddr);
  }

  lemma EntryParts(l: seq<byte>, ip: seq<byte>, l': seq<byte>, addr: seq<byte>)
    requires |l| == |l'| == 2
    ensures var d, n := l + ip + l' + addr, |ip|;
      |d| == 4 + n + |addr| && d[..2] == l && d[2..2 + n] == ip && d[2 + n..4 + n] == l' && d[4 + n..] == addr
  {
  }

  /** A list byte by byte: two bytes of count, then the entries one after the other. */
  lemma PeerListBytes(ps: seq<PeerInfo>, p: PeerInfo)
    ensures IsField(EncodePeerList(ps)[..2], |ps|) && EncodePeerList([])[2..] == []
    ensures EncodePeerList(ps + [p])[2..] == EncodePeerList(ps)[2..] + EncodeEntry(p)
  {
    BigEndian(|ps|);
    EncodeSnoc(ps + [p], |ps|);
    assert (ps + [p])[..|ps|] == ps && (ps + [p])[..|ps| + 1] == ps + [p];
    CountApart(PutU16(|ps|), EncodeEntries(ps));
    CountApart(PutU16(|ps + [p]|), EncodeEntries(ps + [p]));
    CountApart(PutU16(0), []);
    assert EncodeEntries([]) == [];
  }

  lemma CountApart(l: seq<byte>, es: seq<byte>)
    requires |l| == 2
    ensures (l + es)[..2] == l && (l + es)[2..] == es
  {
  }

  /** At `o` stands an entry of that shape. */
  predicate IsEntry(data: seq<byte>, o: nat, ip: Ip, addr: seq<byte>) {
    var n := |ip|;
    && n < 65536 && |addr| < 65536 && o + 4 + n + |addr| <= |data|
    && IsField(data[o..o + 2], n) && data[o + 2..o + 2 + n] == ip
    && IsField(data[o + 2 + n..o + 4 + n], |addr|) && data[o + 4 + n..o + 4 + n + |addr|] == addr
  }

  /** What is read as an entry: exactly such bytes, with an address of any length. */
  lemma DecodeEntryIff(data: seq<byte>, o: nat, p: PeerInfo, next: nat)
    requires o <= |data|
    ensures DecodeEntry(data, o) == Some((p, next)) <==>
      p.lastSeen == 0 && next == o + 4 + |p.virtualIp| + |p.realAddr| && IsEntry(data, o, p.virtualIp, p.realAddr)
  {
    var n, a := |p.virtualIp|, |p.realAddr|;
    if o + 4 + n + a <= |data| {
      FieldIff(data, o, n);
      FieldIff(data, o + 2 + n, a);
    }
  }

  /** `ps` are the entries that stand from `o` on one behind the other, `count` of them or as many as there are. */
  ghost predicate EntriesStand(data: seq<byte>, o: nat, count: nat, ps: seq<PeerInfo>)
    decreases count
  {
    if count == 0 then ps == []
    else if ps == [] then forall ip, addr :: !IsEntry(data, o, ip, addr)
    else
      && ps[0].lastSeen == 0 && IsEntry(data, o, ps[0].virtualIp, ps[0].realAddr)
      && EntriesStand(data, o + 4 + |ps[0].virtualIp| + |ps[0].realAddr|, count - 1, ps[1..])
  }

  lemma {:induction false} EntriesRead(data: seq<byte>, o: nat, count: nat)
    requires o <= |data|
    ensures EntriesStand(data, o, count, DecodeEntries(Reader(data), o, count))
    decreases count
  {
    if count > 0 {
      var r := DecodeEntry(data, o);
      DecodeStep(Reader(data), o, count);
      if r.Some? {
        var (p, next) := r.value;
        DecodeEntryIff(data, o, p, next);
        EntriesRead(data, next, count - 1);
      } else {
        forall ip, addr ensures !IsEntry(data, o, ip, addr) {
          DecodeEntryIff(data, o, PeerInfo(ip, addr, 0), o + 4 + |ip| + |addr|);
        }
      }
    }
  }

  /** What any bytes decode to: an error if there are fewer than two, else the entries that stand behind the count. */
  lemma DecodeListExact(data: seq<byte>, count: nat)
    requires |data| >= 2 ==> count == data[0] as int * 256 + data[1] as int
    ensures DecodePeerList(data).Ok? <==> |data| >= 2
    ensures |data| >= 2 ==> EntriesStand(data, 2, count, DecodePeerList(data).value)
  {
    if |data| >= 2 {
      CountRead(data, count);
      ListRead(data, count);
    }
  }

  lemma CountRead(data: seq<byte>, count: nat)
    requires |data| >= 2 && count == data[0] as int * 256 + data[1] as int
    ensures U16At(data, 0) == count
  {
    BigEndian(0);
  }

  lemma ListRead(data: seq<byte>, count: nat)
    requires |data| >= 2 && count == U16At(data, 0)
    ensures DecodePeerList(data).Ok? && EntriesStand(data, 2, count, DecodePeerList(data).value)
  {
    EntriesRead(data, 2, count);
  }

  /** Every address text fits its 16-bit length field. */
  predicate FieldsFit(ps: seq<PeerInfo>) {
    forall p <- ps :: |p.realAddr| < 65536
  }

  /** `ps[..m]` is the longest prefix of `ps` that fits wholly in `room` bytes. */
  predicate LongestFit(ps: seq<PeerInfo>, room: int, m: nat) {
    && m <= |ps|
    && |EncodeEntries(ps[..m])| <= room
    && (m < |ps| ==> |EncodeEntries(ps[..m + 1])| > room)
  }

  lemma FieldsInPlace(l: seq<byte>, ip: seq<byte>, l': seq<byte>, addr: seq<byte>, data: seq<byte>, offset: nat)
    requires |l| == |l'| == 2 && U16At(l, 0) == |ip| && U16At(l', 0) == |addr|
    requires offset <= |data| && Agrees(data, offset, l + (ip + (l' + (addr + []))))
    ensures var next := offset + 4 + |ip| + |addr|;
      DecodeEntry(data, offset) == if next <= |data| then Some((PeerInfo(ip, addr, 0), next)) else None
  {
    AgreesInParts(data, offset, l, ip + (l' + (addr + [])));
    AgreesInParts(data, offset + 2, ip, l' + (addr + []));
    AgreesInParts(data, offset + 2 + |ip|, l', addr + []);
    AgreesInParts(data, offset + 4 + |ip|, addr, []);
    if offset + 2 <= |data| {
      U16Copied(data, offset, l);
      if offset + 4 + |ip| <= |data| {
        U16Copied(data, offset + 2 + |ip|, l');
      }
    }
  }

  lemma EntryShape(p: PeerInfo, ip: Ip, l: seq<byte>, l': seq<byte>)
    requires ip == WireIp(p.virtualIp) && l == PutU16(|ip|) && l' == PutU16(|p.realAddr|)
    ensures EncodeEntry(p) == l + (ip + (l' + (p.realAddr + [])))
  {
  }

  lemma LengthFields(p: PeerInfo)
    requires |p.realAddr| < 65536
    ensures U16At(PutU16(|WireIp(p.virtualIp)|), 0) == |WireIp(p.virtualIp)|
    ensures U16At(PutU16(|p.realAddr|), 0) == |p.realAddr|
  {
    U16RoundTrip(|WireIp(p.virtualIp)|);
    U16RoundTrip(|p.realAddr|);
  }

  /** An encoded peer is read back where it stands whole, and as nothing where it is cut short. */
  lemma EntryReadsBack(p: PeerInfo, data: seq<byte>, offset: nat)
    requires |p.realAddr| < 65536 && offset <= |data| && Agrees(data, offset, EncodeEntry(p))
    ensures var next := offset + |EncodeEntry(p)|;
      Reader(data)(offset) == if next <= |data| then Some((Received(p), next)) else None
  {
    var ip := WireIp(p.virtualIp);
    LengthFields(p);
    EntryShape(p, ip, PutU16(|ip|), PutU16(|p.realAddr|));
    FieldsInPlace(PutU16(|ip|), ip, PutU16(|p.realAddr|), p.realAddr, data, offset);
  }

  /** The entries `es` are read back as `qs` one after the other, up to the first that passes `limit`. */
  ghost predicate Reads(read: nat -> Option<(PeerInfo, nat)>, es: seq<seq<byte>>, qs: seq<PeerInfo>, offset: nat, limit: nat)
    requires |es| == |qs|
  {
    es == [] ||
    var next := offset + |es[0]|;
    if next <= limit then read(offset) == Some((qs[0], next)) && Reads(read, es[1..], qs[1..], next, limit)
    else read(offset) == None
  }

  /** `e` is read as `q` wherever it stands whole, and as nothing where it is cut short. */
  ghost predicate ReadAs(read: nat -> Option<(PeerInfo, nat)>, data: seq<byte>, e: seq<byte>, q: PeerInfo) {
    forall o: nat :: o <= |data| && Agrees(data, o, e) ==>
      read(o) == if o + |e| <= |data| then Some((q, o + |e|)) else None
  }

  lemma {:induction false} FlatReads(read: nat -> Option<(PeerInfo, nat)>, data: seq<byte>, es: seq<seq<byte>>,
                                     qs: seq<PeerInfo>, offset: nat)
    requires |es| == |qs| && forall i :: 0 <= i < |es| ==> ReadAs(read, data, es[i], qs[i])
    requires offset <= |data| && Agrees(data, offset, Flatten(es))
    ensures Reads(read, es, qs, offset, |data|)
    decreases es
  {
    if es != [] {
      AgreesInParts(data, offset, es[0], Flatten(es[1..]));
      assert ReadAs(read, data, es[0], qs[0]);
      if offset + |es[0]| <= |data| {
        FlatReads(read, data, es[1..], qs[1..], offset + |es[0]|);
      }
    }
  }

  lemma EntriesReadBack(ps: seq<PeerInfo>, data: seq<byte>, offset: nat)
    requires FieldsFit(ps) && offset <= |data| && Agrees(data, offset, EncodeEntries(ps))
    ensures Reads(Reader(data), Entries(ps), ReceivedAll(ps), offset, |data|)
  {
    forall i | 0 <= i < |ps| ensures ReadAs(Reader(data), data, Entries(ps)[i], ReceivedAll(ps)[i]) {
      assert ps[i] in ps;
      EntryReadAs(ps[i], data);
    }
    FlatReads(Reader(data), data, Entries(ps), ReceivedAll(ps), offset);
  }

  lemma EntryReadAs(p: PeerInfo, data: seq<byte>)
    requires |p.realAddr| < 65536
    ensures ReadAs(Reader(data), data, EncodeEntry(p), Received(p))
  {
    forall o: nat | o <= |data| && Agrees(data, o, EncodeEntry(p))
      ensures Reader(data)(o) == if o + |EncodeEntry(p)| <= |data| then Some((Received(p), o + |EncodeEntry(p)|)) else None
    {
      EntryReadsBack(p, data, o);
    }
  }

  /** `m` entries fit into `room` bytes, and one more would not. */
  ghost predicate Fitting(es: seq<seq<byte>>, room: int, m: nat) {
    && m <= |es| && |Flatten(es[..m])| <= room
    && (m < |es| ==> |Flatten(es[..m + 1])| > room)
  }

  lemma FittingFirst(es: seq<seq<byte>>, room: int, m: nat)
    requires es != [] && Fitting(es[1..], room - |es[0]|, m)
    ensures Fitting(es, room, m + 1)
  {
    FlattenFirst(es, m);
    if m + 1 < |es| {
      FlattenFirst(es, m + 1);
    }
  }

  lemma FittingNone(es: seq<seq<byte>>, room: nat)
    requires es != [] && |es[0]| > room
    ensures Fitting(es, room, 0)
  {
    FlattenFirst(es, 0);
  }

  lemma {:induction false} DecodeCut(read: nat -> Option<(PeerInfo, nat)>, es: seq<seq<byte>>, qs: seq<PeerInfo>,
                                     offset: nat, limit: nat) returns (m: nat)
    requires |es| == |qs| && offset <= limit && Reads(read, es, qs, offset, limit)
    ensures Fitting(es, limit - offset, m)
    ensures DecodeEntries(read, offset, |es|) == qs[..m]
    decreases es
  {
    m := 0;
    if es != [] {
      var next := offset + |es[0]|;
      if next <= limit {
        m := DecodeCut(read, es[1..], qs[1..], next, limit);
        FittingFirst(es, limit - offset, m);
        assert qs[..m + 1] == [qs[0]] + qs[1..][..m];
        m := m + 1;
      } else {
        FittingNone(es, limit - offset);
      }
    }
  }

  lemma CutList(ps: seq<PeerInfo>, k: nat)
    requires 2 <= k <= |EncodePeerList(ps)|
    ensures var data := EncodePeerList(ps)[..k];
      U16At(data, 0) == |Carried(ps)| && Agrees(data, 2, EncodeEntries(Carried(ps)))
  {
    var l, c := PutU16(|ps|), Carried(ps);
    CutAgrees(l + EncodeEntries(ps), [], k);
    assert l + EncodeEntries(ps) + [] == EncodePeerList(ps);
    U16RoundTrip(|ps|);
    assert Entries(c) == Entries(ps)[..|c|];
    FlattenPrefix(Entries(ps), |c|);
    CutFlat(l, EncodeEntries(ps), EncodeEntries(c), EncodePeerList(ps)[..k]);
  }

  lemma CutFlat(l: seq<byte>, all: seq<byte>, e: seq<byte>, data: seq<byte>)
    requires |l| == 2 && e <= all && |data| >= 2 && Agrees(data, 0, l + all)
    ensures U16At(data, 0) == U16At(l, 0) && Agrees(data, 2, e)
  {
    AgreesInParts(data, 0, l, all);
    U16Copied(data, 0, l);
  }

  lemma FittingIsLongest(ps: seq<PeerInfo>, room: int, m: nat)
    requires Fitting(Entries(ps), room, m)
    ensures LongestFit(ps, room, m)
  {
    assert Entries(ps[..m]) == Entries(ps)[..m];
    if m < |ps| {
      assert Entries(ps[..m + 1]) == Entries(ps)[..m + 1];
    }
  }

  /** Truncation-exact: the first `k` bytes of an encoded list decode to the longest prefix of the listed
      peers (as many as the 16-bit count can say) whose entries fit wholly in those `k` bytes. */
  lemma TruncatedPeerList(ps: seq<PeerInfo>, k: nat) returns (m: nat)
    requires FieldsFit(ps) && 2 <= k <= |EncodePeerList(ps)|
    ensures LongestFit(Carried(ps), k - 2, m)
    ensures DecodePeerList(EncodePeerList(ps)[..k]) == Ok(ReceivedAll(ps[..m]))
  {
    CutList(ps, k);
    CarriedFit(ps);
    m := ListDecodes(Carried(ps), EncodePeerList(ps)[..k]);
    assert Carried(ps)[..m] == ps[..m];
  }

  lemma CarriedFit(ps: seq<PeerInfo>)
    requires FieldsFit(ps)
    ensures FieldsFit(Carried(ps))
  {
    forall p | p in Carried(ps) ensures p in ps {
    }
  }

  lemma ListDecodes(ps: seq<PeerInfo>, data: seq<byte>) returns (m: nat)
    requires FieldsFit(ps) && |data| >= 2 && U16At(data, 0) == |ps| && Agrees(data, 2, EncodeEntries(ps))
    ensures LongestFit(ps, |data| - 2, m)
    ensures DecodePeerList(data) == Ok(ReceivedAll(ps[..m]))
  {
    EntriesReadBack(ps, data, 2);
    m := DecodeCut(Reader(data), Entries(ps), ReceivedAll(ps), 2, |data|);
    FittingIsLongest(ps, |data| - 2, m);
    assert ReceivedAll(ps)[..m] == ReceivedAll(ps[..m]);
  }

  /** In the whole buffer every listed entry fits. */
  lemma AllFit(ps: seq<PeerInfo>, c: seq<PeerInfo>, m: nat)
    requires c <= ps && LongestFit(c, |EncodeEntries(ps)|, m)
    ensures m == |c|
  {
    if m < |c| {
      assert c[..m + 1] == ps[..m + 1];
      assert Entries(ps[..m + 1]) == Entries(ps)[..m + 1];
      FlattenPrefix(Entries(ps), m + 1);
    }
  }

  lemma WholeList(ps: seq<PeerInfo>)
    requires FieldsFit(ps)
    ensures DecodePeerList(EncodePeerList(ps)) == Ok(ReceivedAll(Carried(ps)))
  {
    var data := EncodePeerList(ps);
    var m := TruncatedPeerList(ps, |data|);
    assert data[..|data|] == data;
    AllFit(ps, Carried(ps), m);
    assert ps[..m] == Carried(ps);
  }

  /** The whole buffer round-trips exactly when the count fits its 16 bits. */
  lemma PeerListRoundTripIff(ps: seq<PeerInfo>)
    requires FieldsFit(ps)
    ensures DecodePeerList(EncodePeerList(ps)) == Ok(ReceivedAll(ps)) <==> |ps| < 65536
  {
    WholeList(ps);
    CarriedIff(ps);
    assert |ReceivedAll(Carried(ps))| == |ps| % 65536 && |ReceivedAll(ps)| == |ps|;
  }

  // ---------- What a peer list teaches its reader ----------

  /** One listed peer enters the map, unless it is the edge itself. */
  function Entered(known: map<Ip, PeerInfo>, p: PeerInfo, own: Ip): map<Ip, PeerInfo> {
    if Key(p.virtualIp) != Key(own) then known[Key(p.virtualIp) := p] else known
  }

  /** The listed peers enter the map one after the other. */
  function Learned(known: map<Ip, PeerInfo>, list: seq<PeerInfo>, own: Ip): map<Ip, PeerInfo>
    decreases list
  {
    if list == [] then known else Learned(Entered(known, list[0], own), list[1..], own)
  }

  lemma {:induction false} LearnedAppend(known: map<Ip, PeerInfo>, list: seq<PeerInfo>, p: PeerInfo, own: Ip)
    ensures Learned(known, list + [p], own) == Entered(Learned(known, list, own), p, own)
    decreases list
  {
    if list == [] {
      assert ([p] + [])[1..] == [];
      assert list + [p] == [p];
    } else {
      LearnedAppend(Entered(known, list[0], own), list[1..], p, own);
      assert (list + [p])[1..] == list[1..] + [p];
    }
  }

  ghost predicate Listed(list: seq<PeerInfo>, k: Ip) {
    exists i :: 0 <= i < |list| && Key(list[i].virtualIp) == k
  }

  ghost predicate IsLast(list: seq<PeerInfo>, i: int, k: Ip) {
    && 0 <= i < |list| && Key(list[i].virtualIp) == k
    && forall j :: i < j < |list| ==> Key(list[j].virtualIp) != k
  }

  /** `m` has at `k` the last listed peer of that key, or what was known if none is listed or `k` is the own key. */
  ghost predicate TaughtAt(m: map<Ip, PeerInfo>, known: map<Ip, PeerInfo>, list: seq<PeerInfo>, own: Ip, k: Ip) {
    if k != Key(own) && Listed(list, k)
    then exists i :: IsLast(list, i, k) && k in m && m[k] == list[i]
    else (k in m <==> k in known) && (k in m ==> m[k] == known[k])
  }

  ghost predicate Taught(m: map<Ip, PeerInfo>, known: map<Ip, PeerInfo>, list: seq<PeerInfo>, own: Ip) {
    forall k :: TaughtAt(m, known, list, own, k)
  }

  lemma {:induction false} LearnedAt(known: map<Ip, PeerInfo>, list: seq<PeerInfo>, own: Ip, k: Ip)
    ensures TaughtAt(Learned(known, list, own), known, list, own, k)
    decreases |list|
  {
    if list != [] {
      var n := |list| - 1;
      var init, last := list[..n], list[n];
      LearnedAt(known, init, own, k);
      LearnedAppend(known, init, last, own);
      assert list == init + [last];
      TaughtSnoc(known, Learned(known, init, own), init, last, own, k);
    }
  }

  lemma LastListed(init: seq<PeerInfo>, last: PeerInfo, k: Ip)
    requires Key(last.virtualIp) == k
    ensures Listed(init + [last], k) && IsLast(init + [last], |init|, k)
  {
    assert (init + [last])[|init|] == last;
  }

  lemma OtherListed(init: seq<PeerInfo>, last: PeerInfo, k: Ip)
    requires Key(last.virtualIp) != k
    ensures Listed(init + [last], k) <==> Listed(init, k)
    ensures forall i :: IsLast(init, i, k) ==> IsLast(init + [last], i, k)
  {
    var list := init + [last];
    assert forall i :: 0 <= i < |init| ==> list[i] == init[i];
    assert list[|init|] == last;
    if Listed(init, k) {
      var i :| 0 <= i < |init| && Key(init[i].virtualIp) == k;
      assert Key(list[i].virtualIp) == k;
    }
  }

  lemma TaughtSnoc(known: map<Ip, PeerInfo>, m: map<Ip, PeerInfo>, init: seq<PeerInfo>, last: PeerInfo, own: Ip, k: Ip)
    requires TaughtAt(m, known, init, own, k)
    ensures TaughtAt(Entered(m, last, own), known, init + [last], own, k)
  {
    if Key(last.virtualIp) == k {
      LastListed(init, last, k);
    } else {
      OtherListed(init, last, k);
      if k != Key(own) && Listed(init, k) {
        var i :| IsLast(init, i, k) && k in m && m[k] == init[i];
        assert IsLast(init + [last], i, k) && (init + [last])[i] == init[i];
      }
    }
  }

  /** Every entry of the map after a list: the last peer listed for it, or as before. */
  lemma LearnedExact(known: map<Ip, PeerInfo>, list: seq<PeerInfo>, own: Ip)
    ensures Taught(Learned(known, list, own), known, list, own)
  {
    forall k ensures TaughtAt(Learned(known, list, own), known, list, own, k) {
      LearnedAt(known, list, own, k);
    }
  }

  /** What the n2n edge and the STUN-VPN client each do with a list: an undecodable one teaches nothing. */
  method LearnPeers(known: map<Ip, PeerInfo>, payload: seq<byte>, own: Ip) returns (peers: map<Ip, PeerInfo>)
    ensures peers == LearnedFrom(known, payload, own)
  {
    var r := UnmarshalPeerList(payload);
    if r.Err? {
      return known;
    }
    peers := LearnList(known, r.value, own);
  }

  method LearnList(known: map<Ip, PeerInfo>, list: seq<PeerInfo>, own: Ip) returns (peers: map<Ip, PeerInfo>)
    ensures peers == Learned(known, list, own)
  {
    peers := known;
    for i := 0 to |list|
      invariant peers == Learned(known, list[..i], own)
    {
      LearnedAppend(known, list[..i], list[i], own);
      assert list[..i + 1] == list[..i] + [list[i]];
      peers := Enter(peers, list[i], own);
    }
    assert list[..|list|] == list;
  }

  // The body of the loop.
  method Enter(known: map<Ip, PeerInfo>, p: PeerInfo, own: Ip) returns (peers: map<Ip, PeerInfo>)
    ensures peers == Entered(known, p, own)
  {
    peers := known;
    if Key(p.virtualIp) != Key(own) {
      peers := peers[Key(p.virtualIp) := p];
    }
  }

  function LearnedFrom(known: map<Ip, PeerInfo>, payload: seq<byte>, own: Ip): map<Ip, PeerInfo> {
    match DecodePeerList(payload)
    case Ok(list) => Learned(known, list, own)
    case Err(_) => known
  }
}
