/** Destinations on the wire: the SOCKS5 CONNECT handshake between the proxy client and the forwarding server,
    the UDP relay header, and the FRP header (proxy/socks5.go, forward/forward.go, proxy/udp.go, proxy/frp.go). */
module ProxyCodecs {
  import opened Bytes

  // Address types of section 5 of RFC 1928.
  const ATYP_V4: byte := 0x01
  const ATYP_DOMAIN: byte := 0x03
  const ATYP_V6: byte := 0x04

  datatype Host = V4(ip: seq<byte>) | V6(ip: seq<byte>) | Domain(name: seq<byte>)

  datatype Dest = Dest(host: Host, port: nat)

  predicate IsHost(h: Host) {
    (h.V4? ==> |h.ip| == 4) && (h.V6? ==> |h.ip| == 16)
  }

  /** Within the reach of the one length byte and the two port bytes. */
  predicate Fits(d: Dest) {
    (d.host.Domain? ==> |d.host.name| < 256) && d.port < 65536
  }

  function Atyp(h: Host): byte {
    match h
    case V4(_) => ATYP_V4
    case V6(_) => ATYP_V6
    case Domain(_) => ATYP_DOMAIN
  }

  function AddrBytes(h: Host): seq<byte> {
    match h
    case V4(ip) => ip
    case V6(ip) => ip
    case Domain(name) => [|name| % 256] + name
  }

  function DestBytes(d: Dest): seq<byte> {
    AddrBytes(d.host) + PutU16(d.port)
  }

  /** How a looked-up name is sent: as its first address, in 4 bytes if it has such a form, else by name. */
  function ChooseHost(name: seq<byte>, lookup: Option<Ip>): (h: Host)
    requires lookup.Some? ==> IsIp(lookup.value)
    ensures IsHost(h)
  {
    if lookup == None then Domain(name)
    else if To4(lookup.value) != [] then V4(To4(lookup.value))
    else V6(To16(lookup.value))
  }

  /** The destination at `off`, and the offset behind it, if it is there to its end. */
  function ReadDest(s: seq<byte>, off: nat, atyp: byte): (r: Option<(Dest, nat)>)
    requires off <= |s|
    ensures r.Some? ==> off < r.value.1 <= |s| && IsHost(r.value.0.host)
  {
    if atyp == ATYP_V4 then
      if off + 6 > |s| then None else Some((Dest(V4(s[off..off + 4]), U16At(s, off + 4)), off + 6))
    else if atyp == ATYP_V6 then
      if off + 18 > |s| then None else Some((Dest(V6(s[off..off + 16]), U16At(s, off + 16)), off + 18))
    else if atyp == ATYP_DOMAIN then
      if off + 1 > |s| then None
      else
        var l := s[off];
        if off + 1 + l + 2 > |s| then None
        else Some((Dest(Domain(s[off + 1..off + 1 + l]), U16At(s, off + 1 + l)), off + 3 + l))
    else None
  }

  lemma ReadFits(s: seq<byte>, off: nat, atyp: byte)
    requires off <= |s| && ReadDest(s, off, atyp).Some?
    ensures Fits(ReadDest(s, off, atyp).value.0)
  {
  }

  lemma ReadDestWhole(h: Host, p: seq<byte>, port: nat, s: seq<byte>, off: nat)
    requires IsHost(h) && (h.Domain? ==> |h.name| < 256) && |p| == 2 && U16At(p, 0) == port
    requires off <= |s| && Agrees(s, off, AddrBytes(h) + p)
    ensures ReadDest(s, off, Atyp(h))
         == if off + |AddrBytes(h)| + 2 <= |s| then Some((Dest(h, port), off + |AddrBytes(h)| + 2)) else None
  {
    var a := AddrBytes(h);
    AgreesInParts(s, off, a, p);
    AgreesInParts(s, off + |a|, p, []);
    assert p + [] == p;
    if off + |a| + 2 <= |s| {
      U16Copied(s, off + |a|, p);
    }
    if h.Domain? && off < |s| {
      assert s[off] == a[0] == |h.name|;
      if off + |a| <= |s| {
        assert s[off + 1..off + |a|] == s[off..off + |a|][1..];
      }
    }
  }

  /** An encoded destination is read back where it stands whole, and not where it is cut short. */
  lemma DestReadsBack(d: Dest, s: seq<byte>, off: nat)
    requires IsHost(d.host) && Fits(d) && off <= |s| && Agrees(s, off, DestBytes(d))
    ensures ReadDest(s, off, Atyp(d.host))
         == if off + |DestBytes(d)| <= |s| then Some((d, off + |DestBytes(d)|)) else None
  {
    U16RoundTrip(d.port);
    ReadDestWhole(d.host, PutU16(d.port), d.port, s, off);
  }

  /** A destination byte by byte: its address, for a name with one byte of length before it, and the port. */
  lemma DestLayout(d: Dest)
    requires IsHost(d.host)
    ensures var b := DestBytes(d);
      match d.host
      case V4(ip) => Atyp(d.host) == 0x01 && |b| == 6 && b[..4] == ip && IsField(b[4..], d.port)
      case V6(ip) => Atyp(d.host) == 0x04 && |b| == 18 && b[..16] == ip && IsField(b[16..], d.port)
      case Domain(name) =>
        && Atyp(d.host) == 0x03 && |b| == 3 + |name| && b[0] == |name| % 256 && b[1..1 + |name|] == name
        && IsField(b[1 + |name|..], d.port)
  {
    BigEndian(d.port);
    if d.host.Domain? {
      NamedParts(|d.host.name| % 256, d.host.name, PutU16(d.port));
    }
  }

  lemma NamedParts(l: byte, name: seq<byte>, port: seq<byte>)
    ensures var b, n := [l] + name + port, |name|; b[0] == l && b[1..1 + n] == name && b[1 + n..] == port
  {
  }

  /** At `off` stands `d`, of the address type `atyp`, up to `next`. */
  predicate IsDest(s: seq<byte>, off: nat, atyp: byte, d: Dest, next: nat) {
    && next <= |s| && d.port < 65536
    && match d.host
       case V4(ip) => atyp == 0x01 && next == off + 6 && s[off..off + 4] == ip && IsField(s[off + 4..next], d.port)
       case V6(ip) => atyp == 0x04 && next == off + 18 && s[off..off + 16] == ip && IsField(s[off + 16..next], d.port)
       case Domain(name) =>
         && atyp == 0x03 && next == off + 3 + |name| && s[off] as int == |name| && s[off + 1..off + 1 + |name|] == name
         && IsField(s[off + 1 + |name|..next], d.port)
  }

  /** A whole destination of the type `atyp` stands at `off`. */
  ghost predicate DestThere(s: seq<byte>, off: nat, atyp: byte) {
    exists d, next: nat :: IsDest(s, off, atyp, d, next)
  }

  lemma DestThereIff(s: seq<byte>, off: nat, atyp: byte)
    requires off <= |s|
    ensures DestThere(s, off, atyp) <==> ReadDest(s, off, atyp).Some?
  {
    var r := ReadDest(s, off, atyp);
    if r.Some? {
      ReadDestIff(s, off, atyp, r.value.0, r.value.1);
    } else {
      forall d, next: nat ensures !IsDest(s, off, atyp, d, next) {
        ReadDestIff(s, off, atyp, d, next);
      }
    }
  }

  /** What is read as a destination: exactly such bytes. */
  lemma ReadDestIff(s: seq<byte>, off: nat, atyp: byte, d: Dest, next: nat)
    requires off <= |s|
    ensures ReadDest(s, off, atyp) == Some((d, next)) <==> IsDest(s, off, atyp, d, next)
  {
    if off + 2 <= next <= |s| {
      FieldIff(s, next - 2, d.port);
    }
  }

  // ---------- SOCKS5 CONNECT ----------

  function Greeting(withAuth: bool): seq<byte> {
    if withAuth then [0x05, 0x02, 0x00, 0x02] else [0x05, 0x01, 0x00]
  }

  function Request(d: Dest): seq<byte> {
    [0x05, 0x01, 0x00, Atyp(d.host)] + DestBytes(d)
  }

  method SendRequest(name: seq<byte>, lookup: Option<Ip>, port: nat) returns (buf: seq<byte>)
    requires lookup.Some? ==> IsIp(lookup.value)
    ensures buf == Request(Dest(ChooseHost(name, lookup), port))
  {
    var atyp, ipBytes := ATYP_V4, [];
    if lookup.Some? {
      ipBytes := To4(lookup.value);
      if ipBytes == [] {
        ipBytes := To16(lookup.value);
        atyp := ATYP_V6;
      }
    } else {
      atyp := ATYP_DOMAIN;
    }
    buf := [0x05, 0x01, 0x00, atyp];
    if atyp == ATYP_DOMAIN {
      buf := buf + [|name| % 256];
      buf := buf + name;
    } else {
      buf := buf + ipBytes;
    }
    buf := buf + PutU16(port);
  }

  /** The request byte by byte: version 5, command 1 and a zero, then type and address by what the lookup gave, or the
      name, and the port. */
  lemma RequestLayout(name: seq<byte>, lookup: Option<Ip>, port: nat)
    requires lookup.Some? ==> IsIp(lookup.value)
    ensures var r := Request(Dest(ChooseHost(name, lookup), port));
      && |r| >= 4 && r[..3] == [5, 1, 0]
      && match lookup
         case None =>
           && r[3] == 3 && |r| == 7 + |name| && r[4] == |name| % 256 && r[5..5 + |name|] == name
           && IsField(r[5 + |name|..], port)
         case Some(ip) =>
           var w := WireIp(ip);
           r[3] == (if |w| == 4 then 1 else 4) && |r| == 6 + |w| && r[4..4 + |w|] == w && IsField(r[4 + |w|..], port)
  {
    var d := Dest(ChooseHost(name, lookup), port);
    DestLayout(d);
    HeadApart(Atyp(d.host), DestBytes(d));
    if lookup.Some? {
      WireIpPresent(lookup.value);
    }
  }

  lemma HeadApart(atyp: byte, b: seq<byte>)
    ensures var r := [0x05, 0x01, 0x00, atyp] + b;
      && r[..3] == [5, 1, 0] && r[3] == atyp && r[4..] == b
      && (forall i, j :: 0 <= i <= j <= |b| ==> r[4 + i..4 + j] == b[i..j]) && (forall i :: 0 <= i <= |b| ==> r[4 + i..] == b[i..])
      && forall i :: 0 <= i < |b| ==> r[4 + i] == b[i]
  {
  }

  datatype Served =
    | Dropped                      // closed without an answer to the request
    | NotConnect
    | BadAddress
    | Dial(dest: Dest, used: nat)  // the bytes after `used` belong to the relayed stream

  /** The length of the greeting, as its count of methods gives it. */
  function GreetingLength(s: seq<byte>): nat
    requires |s| >= 2
  {
    var methods: int := s[1];
    2 + methods
  }

  /** The server's side of the handshake on everything the client sends. */
  function Serve(s: seq<byte>): Served {
    if |s| < 2 || s[0] != 0x05 || |s| < GreetingLength(s) + 4 then Dropped
    else
      var m := GreetingLength(s);
      if s[m] != 0x05 || s[m + 1] != 0x01 then NotConnect
      else match ReadDest(s, m + 4, s[m + 3])
        case None => BadAddress
        case Some((d, used)) => Dial(d, used)
  }

  const REPLY_TAIL: seq<byte> := [0x00, 0x01, 0, 0, 0, 0, 0, 0]

  /** What the server writes for each outcome, `dialed` telling whether the destination could be reached. */
  function Replies(o: Served, greeted: bool, dialed: bool): seq<byte> {
    (if greeted then [0x05, 0x00] else []) +
    match o
    case Dropped => []
    case NotConnect => [0x05, 0x07] + REPLY_TAIL
    case BadAddress => [0x05, 0x01] + REPLY_TAIL
    case Dial(_, _) => [0x05, if dialed then 0x00 else 0x04] + REPLY_TAIL
  }

  function Greeted(s: seq<byte>): bool {
    |s| >= 2 && s[0] == 0x05 && |s| >= GreetingLength(s)
  }

  /** One direction of a connection: what will have arrived in all, and how much of it is read. */
  class Conn {
    const input: seq<byte>
    var pos: nat
    var written: seq<byte>

    ghost predicate Valid()
      reads this
    {
      pos <= |input|
    }

    constructor (input: seq<byte>)
      ensures Valid() && this.input == input && pos == 0 && written == []
    {
      this.input := input;
      pos := 0;
      written := [];
    }

    /** `io.ReadFull`: all `n` bytes, or an error at the end of the input. */
    method ReadFull(n: nat) returns (b: Option<seq<byte>>)
      requires Valid()
      modifies this`pos
      ensures Valid()
      ensures if old(pos) + n <= |input| then b == Some(input[old(pos)..old(pos) + n]) && pos == old(pos) + n
              else b == None && pos == |input|
    {
      if pos + n <= |input| {
        b := Some(input[pos..pos + n]);
        pos := pos + n;
      } else {
        b := None;
        pos := |input|;
      }
    }

    method Write(b: seq<byte>)
      modifies this`written
      ensures written == old(written) + b
    {
      written := written + b;
    }

    method ReadPort() returns (port: Option<nat>)
      requires Valid()
      modifies this`pos
      ensures Valid()
      ensures if old(pos) + 2 <= |input| then port == Some(U16At(input, old(pos))) && pos == old(pos) + 2 else port == None
    {
      var pb := ReadFull(2);
      if pb == None {
        return None;
      }
      port := Some(U16At(pb.value, 0));
    }

    method ReadSocks5Addr(atyp: byte) returns (d: Option<Dest>)
      requires Valid()
      modifies this`pos
      ensures Valid()
      ensures match ReadDest(input, old(pos), atyp)
              case Some((dest, next)) => d == Some(dest) && pos == next
              case None => d == None
    {
      var host: Host;
      if atyp == ATYP_V4 {
        var b := ReadFull(4);
        if b == None {
          return None;
        }
        host := V4(b.value);
      } else if atyp == ATYP_DOMAIN {
        var l := ReadFull(1);
        if l == None {
          return None;
        }
        var b := ReadFull(l.value[0]);
        if b == None {
          return None;
        }
        host := Domain(b.value);
      } else if atyp == ATYP_V6 {
        var b := ReadFull(16);
        if b == None {
          return None;
        }
        host := V6(b.value);
      } else {
        return None;
      }
      var port := ReadPort();
      if port == None {
        return None;
      }
      d := Some(Dest(host, port.value));
    }
  }

  /** The outcomes of the handshake on `s`, by how far it gets. */
  lemma ServedDropped(s: seq<byte>)
    requires |s| < 2 || s[0] != 0x05 || |s| < GreetingLength(s) + 4
    ensures Serve(s) == Dropped
  {
  }

  lemma ServedRefused(s: seq<byte>, m: nat)
    requires |s| >= 2 && s[0] == 0x05 && m == GreetingLength(s) && |s| >= m + 4
    requires s[m] != 0x05 || s[m + 1] != 0x01
    ensures Serve(s) == NotConnect && Greeted(s)
  {
  }

  lemma ServedRequest(s: seq<byte>, m: nat)
    requires |s| >= 2 && s[0] == 0x05 && m == GreetingLength(s) && |s| >= m + 4
    requires s[m] == 0x05 && s[m + 1] == 0x01
    ensures Greeted(s)
    ensures Serve(s) == match ReadDest(s, m + 4, s[m + 3])
                        case None => BadAddress
                        case Some((d, used)) => Dial(d, used)
  {
  }

  /** The greeting: `None` where the connection is dropped unanswered, else the length of the greeting. */
  method Greet(c: Conn) returns (m: Option<nat>)
    requires c.Valid() && c.pos == 0 && c.written == []
    modifies c
    ensures c.Valid()
    ensures m.Some? <==> Greeted(c.input)
    ensures m == None ==> Serve(c.input) == Dropped && c.written == []
    ensures m.Some? ==> m.value == GreetingLength(c.input) == c.pos && c.written == [0x05, 0x00]
  {
    var hdr := c.ReadFull(2);
    if hdr == None {
      return None;
    }
    if hdr.value[0] != 0x05 {
      return None;
    }
    var methods := c.ReadFull(hdr.value[1]);
    if methods == None {
      return None;
    }
    c.Write([0x05, 0x00]);
    m := Some(c.pos);
  }

  /** What a client reads that has sent `s`: nothing, if its greeting is not one of version 5 and complete; else the choice
      of no authentication; and after a whole request head ten bytes whose second tells the outcome: 7 if it is
      not a CONNECT of version 5, 1 if the address is not there to its end, 0 if it could be dialled, and 4 if not. */
  ghost predicate IsAnswer(s: seq<byte>, dialed: bool, w: seq<byte>) {
    if !(|s| >= 2 && s[0] == 5 && |s| >= 2 + s[1] as int) then w == []
    else
      var m := 2 + s[1] as int;
      if |s| < m + 4 then w == [5, 0]
      else
        && |w| == 12 && w[0] == 5 && w[1] == 0 && w[2] == 5 && w[4] == 0 && w[5] == 1
        && (forall i :: 6 <= i < 12 ==> w[i] == 0)
        && w[3] == if s[m] != 5 || s[m + 1] != 1 then 7
                   else if !DestThere(s, m + 4, s[m + 3]) then 1
                   else if dialed then 0 else 4
  }

  lemma DialedDest(s: seq<byte>)
    requires Serve(s).Dial?
    ensures |s| >= 2 && var m := 2 + s[1] as int;
      |s| >= m + 4 && IsDest(s, m + 4, s[m + 3], Serve(s).dest, Serve(s).used)
  {
    var m := GreetingLength(s);
    ReadDestIff(s, m + 4, s[m + 3], Serve(s).dest, Serve(s).used);
  }

  lemma RepliesAnswer(s: seq<byte>, dialed: bool)
    ensures IsAnswer(s, dialed, Replies(Serve(s), Greeted(s), dialed))
  {
    if Greeted(s) && |s| >= GreetingLength(s) + 4 {
      DestThereIff(s, GreetingLength(s) + 4, s[GreetingLength(s) + 3]);
    }
  }

  /** The client's part of the greeting, `c` being what the server sends. */
  datatype Chosen = Rejected | NoAuth | UserPass

  method Handshake(c: Conn, withAuth: bool) returns (r: Chosen)
    requires c.Valid()
    modifies c
    ensures c.Valid()
    ensures c.written == old(c.written) + (if withAuth then [5, 2, 0, 2] else [5, 1, 0]) == old(c.written) + Greeting(withAuth)
    ensures old(c.pos) + 2 > |c.input| ==> r == Rejected
    ensures old(c.pos) + 2 <= |c.input| ==> c.pos == old(c.pos) + 2
    ensures old(c.pos) + 2 <= |c.input| ==>
      r == (if c.input[old(c.pos) + 1] == 2 then UserPass else if c.input[old(c.pos) + 1] == 0 then NoAuth else Rejected)
  {
    var buf: seq<byte> := [0x05, 0x01, 0x00];
    if withAuth {
      buf := [0x05, 0x02, 0x00, 0x02];
    }
    c.Write(buf);
    var resp := c.ReadFull(2);
    if resp == None {
      return Rejected;
    }
    if resp.value[1] == 0x02 {
      return UserPass;
    }
    r := if resp.value[1] != 0x00 then Rejected else NoAuth;
  }

  method HandleConnect(c: Conn, dialed: bool) returns (o: Served)
    requires c.Valid() && c.pos == 0 && c.written == []
    modifies c
    ensures c.Valid() && o == Serve(c.input)
    ensures o.Dial? ==> c.pos == o.used
    ensures c.written == Replies(o, Greeted(c.input), dialed) && IsAnswer(c.input, dialed, c.written)
  {
    RepliesAnswer(c.input, dialed);
    var m := Greet(c);
    if m == None {
      return Dropped;
    }
    var req := c.ReadFull(4);
    if req == None {
      ServedDropped(c.input);
      return Dropped;
    }
    if req.value[0] != 0x05 || req.value[1] != 0x01 {
      ServedRefused(c.input, m.value);
      c.Write([0x05, 0x07] + REPLY_TAIL);
      return NotConnect;
    }
    ServedRequest(c.input, m.value);
    var dest := c.ReadSocks5Addr(req.value[3]);
    if dest == None {
      c.Write([0x05, 0x01] + REPLY_TAIL);
      return BadAddress;
    }
    c.Write([0x05, if dialed then 0x00 else 0x04] + REPLY_TAIL);
    o := Dial(dest.value, c.pos);
  }

  /** What reaches the server of a handshake, read from its beginning as far as it goes. */
  lemma HandshakeFields(withAuth: bool, head: seq<byte>, d: Dest, s: seq<byte>)
    requires IsHost(d.host) && Fits(d) && head == [0x05, 0x01, 0x00, Atyp(d.host)]
    requires Agrees(s, 0, Greeting(withAuth) + (head + DestBytes(d)))
    ensures var n := |Greeting(withAuth)| + 4 + |DestBytes(d)|;
      if |s| < n then !Serve(s).Dial? else Serve(s) == Dial(d, n)
  {
    var g, m := Greeting(withAuth), |Greeting(withAuth)|;
    AgreesInParts(s, 0, g, head + DestBytes(d));
    AgreesInParts(s, m, head, DestBytes(d));
    if |s| >= 2 {
      assert s[0] == g[0] && s[0 + 1] == g[1];
      if |s| >= m + 4 {
        assert s[m] == s[m + 0] == head[0] && s[m + 1] == head[1] && s[m + 3] == head[3];
        ServedRequest(s, m);
        DestReadsBack(d, s, m + 4);
      }
    }
  }

  /** After either greeting the server dials the client's destination, leaving everything behind the request
      to the relayed stream; cut short anywhere, the handshake dials nothing. */
  lemma ConnectRecovered(withAuth: bool, d: Dest, rest: seq<byte>, k: nat)
    requires IsHost(d.host) && Fits(d)
    requires k <= |Greeting(withAuth) + Request(d) + rest|
    ensures var n := |Greeting(withAuth) + Request(d)|; var o := Serve((Greeting(withAuth) + Request(d) + rest)[..k]);
      if k < n then !o.Dial? else o == Dial(d, n)
  {
    var e, s := Greeting(withAuth) + Request(d), Greeting(withAuth) + Request(d) + rest;
    CutAgrees(e, rest, k);
    assert s == e + rest;
    HandshakeFields(withAuth, [0x05, 0x01, 0x00, Atyp(d.host)], d, s[..k]);
  }

  /** And the client is told so: after the choice of no authentication, success or that the host is unreachable. */
  lemma ConnectAnswered(withAuth: bool, d: Dest, rest: seq<byte>, dialed: bool, w: seq<byte>)
    requires IsHost(d.host) && Fits(d) && IsAnswer(Greeting(withAuth) + Request(d) + rest, dialed, w)
    ensures w == [5, 0, 5, if dialed then 0 else 4, 0, 1, 0, 0, 0, 0, 0, 0]
  {
    var s, m := Greeting(withAuth) + Request(d) + rest, |Greeting(withAuth)|;
    ConnectRecovered(withAuth, d, rest, |s|);
    assert s[..|s|] == s;
    assert s[0] == 5 && s[1] as int + 2 == m && s[m] == 5 && s[m + 1] == 1;
    DestThereIff(s, m + 4, s[m + 3]);
    TwelveBytes(w, if dialed then 0 else 4);
  }

  lemma TwelveBytes(w: seq<byte>, code: byte)
    requires |w| == 12 && w[0] == 5 && w[1] == 0 && w[2] == 5 && w[3] == code && w[4] == 0 && w[5] == 1
    requires forall i :: 6 <= i < 12 ==> w[i] == 0
    ensures w == [5, 0, 5, code, 0, 1, 0, 0, 0, 0, 0, 0]
  {
  }

  lemma ServedFits(s: seq<byte>)
    requires Serve(s).Dial?
    ensures Fits(Serve(s).dest)
  {
    ReadFits(s, GreetingLength(s) + 4, s[GreetingLength(s) + 3]);
  }

  /** It is the client's destination exactly when the domain and the port fit their fields. */
  lemma ConnectRecoveredIff(withAuth: bool, d: Dest, s: seq<byte>)
    requires IsHost(d.host) && s == Greeting(withAuth) + Request(d)
    ensures (Serve(s).Dial? && Serve(s).dest == d) <==> Fits(d)
  {
    if Fits(d) {
      ConnectRecovered(withAuth, d, [], |s|);
      assert (Greeting(withAuth) + Request(d) + [])[..|s|] == s;
    } else if Serve(s).Dial? {
      ServedFits(s);
    }
  }

  // ---------- UDP relay header ----------

  function UdpHeader(d: Dest): seq<byte> {
    [0x00, 0x00, Atyp(d.host)] + DestBytes(d)
  }

  method EncodeUdpHeader(host: Host, port: nat) returns (hdr: seq<byte>)
    requires IsHost(host)
    ensures hdr == UdpHeader(Dest(host, port))
  {
    hdr := [0x00, 0x00, 0x00];
    match host {
      case V4(ip) =>
        hdr := hdr[2 := 0x01];
        hdr := hdr + ip;
      case V6(ip) =>
        hdr := hdr[2 := 0x04];
        hdr := hdr + ip;
      case Domain(name) =>
        hdr := hdr[2 := 0x03];
        hdr := hdr + [|name| % 256];
        hdr := hdr + name;
    }
    hdr := hdr + PutU16(port);
  }

  function ParseUdp(buf: seq<byte>): Option<(Dest, seq<byte>)> {
    if |buf| < 4 then None
    else match ReadDest(buf, 3, buf[2])
      case None => None
      case Some((d, off)) => Some((d, buf[off..]))
  }

  method ParseUdpHeader(buf: seq<byte>) returns (r: Option<(Dest, seq<byte>)>)
    ensures r == ParseUdp(buf)
  {
    if |buf| < 4 {
      return None;
    }
    var off := 3;
    var host: Host;
    if buf[2] == 0x01 {
      if |buf| < off + 6 {
        return None;
      }
      host := V4(buf[off..off + 4]);
      off := off + 4;
    } else if buf[2] == 0x04 {
      if |buf| < off + 18 {
        return None;
      }
      host := V6(buf[off..off + 16]);
      off := off + 16;
    } else if buf[2] == 0x03 {
      if |buf| < off + 1 {
        return None;
      }
      var l: int := buf[off];
      off := off + 1;
      if |buf| < off + l + 2 {
        return None;
      }
      host := Domain(buf[off..off + l]);
      off := off + l;
    } else {
      return None;
    }
    if |buf| < off + 2 {
      return None;
    }
    var port := U16At(buf, off);
    off := off + 2;
    r := Some((Dest(host, port), buf[off..]));
  }

  /** The header byte by byte: two zeros, the address type, address and port. */
  lemma UdpLayout(d: Dest)
    ensures UdpHeader(d)[..2] == [0, 0] && UdpHeader(d)[2] == Atyp(d.host) && UdpHeader(d)[3..] == DestBytes(d)
  {
  }

  /** What is accepted: exactly two bytes, a type and a destination of it; what follows is the payload. */
  lemma ParseUdpIff(buf: seq<byte>, d: Dest, payload: seq<byte>)
    ensures ParseUdp(buf) == Some((d, payload)) <==>
      |buf| >= 4 && exists next: nat :: IsDest(buf, 3, buf[2], d, next) && payload == buf[next..]
  {
    if |buf| >= 4 {
      var r := ReadDest(buf, 3, buf[2]);
      if r.Some? {
        ReadDestIff(buf, 3, buf[2], r.value.0, r.value.1);
      }
      forall next: nat | IsDest(buf, 3, buf[2], d, next) ensures ReadDest(buf, 3, buf[2]) == Some((d, next)) {
        ReadDestIff(buf, 3, buf[2], d, next);
      }
    }
  }

  lemma UdpFields(d: Dest, head: seq<byte>, payload: seq<byte>, s: seq<byte>)
    requires IsHost(d.host) && Fits(d) && head == [0x00, 0x00, Atyp(d.host)]
    requires Agrees(s, 0, head + (DestBytes(d) + payload)) && |s| <= 3 + |DestBytes(d)| + |payload|
    ensures var n := 3 + |DestBytes(d)|;
      ParseUdp(s) == if |s| < n then None else Some((d, payload[..|s| - n]))
  {
    var e := DestBytes(d);
    AgreesInParts(s, 0, head, e + payload);
    AgreesInParts(s, 3, e, payload);
    if |s| >= 4 {
      assert s[0 + 2] == head[2];
      DestReadsBack(d, s, 3);
      if |s| >= 3 + |e| {
        LastPart(s, 3 + |e|, payload);
      }
    }
  }

  /** Header and payload of a datagram are separated again, and a datagram cut inside its header is rejected. */
  lemma UdpRecovered(d: Dest, payload: seq<byte>, k: nat)
    requires IsHost(d.host) && Fits(d) && k <= |UdpHeader(d) + payload|
    ensures var n := |UdpHeader(d)|;
      ParseUdp((UdpHeader(d) + payload)[..k]) == if k < n then None else Some((d, payload[..k - n]))
  {
    var head, s := [0x00, 0x00, Atyp(d.host)], UdpHeader(d) + payload;
    Associate(head, DestBytes(d), payload);
    CutAgrees(s, [], k);
    assert s + [] == s;
    UdpFields(d, head, payload, s[..k]);
  }

  /** The header is recovered exactly when the domain and the port fit their fields. */
  lemma UdpRecoveredIff(d: Dest, s: seq<byte>)
    requires IsHost(d.host) && s == UdpHeader(d)
    ensures ParseUdp(s) == Some((d, [])) <==> Fits(d)
  {
    if Fits(d) {
      UdpRecovered(d, [], |s|);
      assert (UdpHeader(d) + [])[..|s|] == s;
    } else if ParseUdp(s).Some? {
      ReadFits(s, 3, s[2]);
    }
  }

  // ---------- FRP header ----------

  function FrpHeader(secret: seq<byte>, port: nat): seq<byte> {
    FrpOf(|secret| % 256, secret, PutU16(port))
  }

  function FrpOf(l: byte, secret: seq<byte>, port: seq<byte>): seq<byte> {
    [0, 0, 0, l] + secret + ([0x01] + port)
  }

  function BigEndian32(b: seq<byte>): nat
    requires |b| == 4
  {
    ((b[0] as int * 256 + b[1]) * 256 + b[2]) * 256 + b[3]
  }

  /** Secret, port, and how many bytes the header takes. */
  function ReadFrp(s: seq<byte>): (r: Option<(seq<byte>, nat, nat)>)
    ensures r.Some? ==> r.value.1 < 65536
  {
    if |s| < 4 then None
    else
      var n := BigEndian32(s[..4]);
      if n > 1024 || |s| < 4 + n + 3 || s[4 + n] != 0x01 then None
      else Some((s[4..4 + n], U16At(s, 5 + n), 7 + n))
  }

  method WriteFrpHeader(c: Conn, secret: seq<byte>, port: nat)
    modifies c`written
    ensures c.written == old(c.written) + FrpHeader(secret, port)
  {
    var buf: seq<byte> := [0, 0, 0, |secret| % 256];
    buf := buf + secret;
    buf := buf + ([0x01] + PutU16(port));
    c.Write(buf);
  }

  method ReadFrpHeader(c: Conn) returns (r: Option<(seq<byte>, nat)>)
    requires c.Valid() && c.pos == 0
    modifies c`pos
    ensures c.Valid()
    ensures match ReadFrp(c.input)
            case Some((secret, port, used)) => r == Some((secret, port)) && c.pos == used
            case None => r == None
  {
    var lenBuf := c.ReadFull(4);
    if lenBuf == None {
      return None;
    }
    assert lenBuf.value == c.input[..4];
    var secretLen := BigEndian32(lenBuf.value);
    if secretLen > 1024 {
      return None;
    }
    var secret: seq<byte> := [];
    if secretLen > 0 {
      var b := c.ReadFull(secretLen);
      if b == None {
        return None;
      }
      secret := b.value;
    }
    assert c.pos == 4 + secretLen && secret == c.input[4..4 + secretLen];
    var tail := c.ReadFull(3);
    if tail == None {
      return None;
    }
    if tail.value[0] != 0x01 {
      return None;
    }
    assert c.input[5 + secretLen] == tail.value[1] && c.input[6 + secretLen] == tail.value[2];
    r := Some((secret, U16At(tail.value, 1)));
  }

  /** The header byte by byte: four bytes of length, of which one is used, the secret, a one, the port. */
  lemma FrpLayout(secret: seq<byte>, port: nat)
    ensures var h, n := FrpHeader(secret, port), |secret|;
      && |h| == 7 + n && h[..4] == [0, 0, 0, n % 256] && h[4..4 + n] == secret
      && h[4 + n] == 1 && IsField(h[5 + n..], port)
  {
    BigEndian(port);
    FrpParts(|secret| % 256, secret, PutU16(port));
  }

  lemma FrpParts(l: byte, secret: seq<byte>, p: seq<byte>)
    requires |p| == 2
    ensures var h, n := FrpOf(l, secret, p), |secret|;
      |h| == 7 + n && h[..4] == [0, 0, 0, l] && h[4..4 + n] == secret && h[4 + n] == 1 && h[5 + n..] == p
  {
  }

  /** What is accepted: exactly a length of at most 1024 in four bytes, high first, as many bytes, a one and two bytes. */
  lemma ReadFrpIff(s: seq<byte>, secret: seq<byte>, port: nat, used: nat)
    ensures var n := |secret|;
      ReadFrp(s) == Some((secret, port, used)) <==>
      && used == 7 + n <= |s| && n <= 1024
      && s[0] as int * 16777216 + s[1] as int * 65536 + s[2] as int * 256 + s[3] as int == n
      && s[4..4 + n] == secret && s[4 + n] == 1 && port < 65536 && IsField(s[5 + n..7 + n], port)
  {
    if 7 + |secret| <= |s| {
      FieldIff(s, 5 + |secret|, port);
    }
  }

  /** The layout of the header, read from its beginning as far as `s` goes. */
  lemma FrpFields(l: byte, secret: seq<byte>, mark: seq<byte>, p: seq<byte>, s: seq<byte>)
    requires |secret| == l && mark == [0x01] && |p| == 2
    requires Agrees(s, 0, [0, 0, 0, l] + (secret + (mark + p)))
    ensures ReadFrp(s) == if |s| < 7 + |secret| then None else Some((secret, U16At(p, 0), 7 + |secret|))
  {
    var n := |secret|;
    AgreesInParts(s, 0, [0, 0, 0, l], secret + (mark + p));
    AgreesInParts(s, 4, secret, mark + p);
    AgreesInParts(s, 4 + n, mark, p);
    AgreesInParts(s, 5 + n, p, []);
    assert p + [] == p;
    if |s| >= 4 {
      assert BigEndian32(s[0..4]) == n && s[..4] == s[0..4];
      if |s| >= 7 + n {
        assert s[4 + n] == s[4 + n + 0] == mark[0];
        U16Copied(s, 5 + n, p);
      }
    }
  }

  lemma FrpPieces(l: byte, secret: seq<byte>, p: seq<byte>, rest: seq<byte>, k: nat)
    requires |secret| == l && |p| == 2 && k <= |FrpOf(l, secret, p) + rest|
    ensures ReadFrp((FrpOf(l, secret, p) + rest)[..k])
         == if k < 7 + |secret| then None else Some((secret, U16At(p, 0), 7 + |secret|))
  {
    Associate([0, 0, 0, l], secret, [0x01] + p);
    CutAgrees(FrpOf(l, secret, p), rest, k);
    FrpFields(l, secret, [0x01], p, (FrpOf(l, secret, p) + rest)[..k]);
  }

  /** Secret and port are recovered, the bytes behind the header are left alone, and a header cut short is rejected. */
  lemma FrpRecovered(secret: seq<byte>, port: nat, rest: seq<byte>, k: nat)
    requires |secret| < 256 && port < 65536 && k <= |FrpHeader(secret, port) + rest|
    ensures ReadFrp((FrpHeader(secret, port) + rest)[..k])
         == if k < |FrpHeader(secret, port)| then None else Some((secret, port, |FrpHeader(secret, port)|))
  {
    U16RoundTrip(port);
    FrpPieces(|secret|, secret, PutU16(port), rest, k);
  }

  /** They are recovered exactly when the secret's length fits its byte and the port its two. */
  lemma FrpRecoveredIff(secret: seq<byte>, port: nat, s: seq<byte>)
    requires s == FrpHeader(secret, port)
    ensures (ReadFrp(s).Some? && ReadFrp(s).value.0 == secret && ReadFrp(s).value.1 == port)
       <==> |secret| < 256 && port < 65536
  {
    if |secret| < 256 && port < 65536 {
      FrpRecovered(secret, port, [], |s|);
      assert (FrpHeader(secret, port) + [])[..|s|] == s;
    } else if |secret| >= 256 && ReadFrp(s).Some? {
      assert s[..4] == [0, 0, 0, |secret| % 256];
    }
  }
}
