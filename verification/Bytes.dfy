/** Bytes, big-endian 16-bit fields, buffers filled in place, and the two binary forms of an IP address.

    Go's `nil` slice and empty slice are both the empty sequence here. The text form `IP.String()` only ever
    serves as a map key or is compared for equality; `Key` stands for it (two addresses have the same
    text exactly when they have the same `Key`). */
module Bytes {
  import Arithmetic

  type byte = x: int | 0 <= x < 256

  type Ip = seq<byte>

  datatype Option<+T> = None | Some(value: T)

  /** The last write of every `uint16(...)` conversion in the program wraps modulo 65536. */
  function PutU16(n: nat): (b: seq<byte>)
    ensures |b| == 2
  {
    [(n / 256) % 256, n % 256]
  }

  function GetU16(hi: byte, lo: byte): nat {
    hi * 256 + lo
  }

  /** The field at `i` of a buffer. */
  function U16At(s: seq<byte>, i: nat): nat
    requires i + 2 <= |s|
  {
    GetU16(s[i], s[i + 1])
  }

  lemma U16RoundTrip(n: nat)
    ensures U16At(PutU16(n), 0) == n % 65536
    ensures n < 65536 ==> U16At(PutU16(n), 0) == n
  {
    var high, low := n / 256, n % 256;
    TwoDigits(n, high, low, high / 256, high % 256);
  }

  /** Two bytes that hold `n` modulo 65536, the high one first. */
  predicate IsField(f: seq<byte>, n: nat) {
    |f| == 2 && f[0] as int * 256 + f[1] as int == n % 65536
  }

  lemma BigEndian(n: nat)
    ensures IsField(PutU16(n), n)
    ensures forall s: seq<byte>, i: nat | i + 2 <= |s| :: U16At(s, i) == s[i] as int * 256 + s[i + 1] as int
  {
    var high, low := n / 256, n % 256;
    TwoDigits(n, high, low, high / 256, high % 256);
  }

  lemma FieldIff(s: seq<byte>, i: nat, n: nat)
    requires i + 2 <= |s|
    ensures U16At(s, i) < 65536
    ensures n < 65536 && IsField(s[i..i + 2], n) <==> U16At(s, i) == n
  {
  }

  lemma TwoDigits(n: nat, high: nat, low: nat, q: nat, r: nat)
    requires n == 256 * high + low && low < 256 && high == 256 * q + r && r < 256
    ensures n % 65536 == r * 256 + low
    ensures n < 65536 ==> n == r * 256 + low
  {
    assert n == 65536 * q + (256 * r + low);
    Arithmetic.DivUnique(n, 65536, q, 256 * r + low);
  }

  /** As much of a sequence as a 16-bit length can announce. */
  function Carried<T>(s: seq<T>): (c: seq<T>)
    ensures |c| == |s| % 65536 && c <= s
  {
    s[..|s| % 65536]
  }

  lemma CarriedIff<T>(s: seq<T>)
    ensures Carried(s) == s <==> |s| < 65536
    ensures Carried(Carried(s)) == Carried(s)
  {
    assert |s| < 65536 ==> s[..|s|] == s;
    assert Carried(s)[..|Carried(s)|] == Carried(s);
  }

  lemma U16Copied(s: seq<byte>, i: nat, field: seq<byte>)
    requires |field| == 2 && i + 2 <= |s| && s[i..i + 2] == field
    ensures U16At(s, i) == U16At(field, 0)
  {
    assert s[i] == s[i..i + 2][0] && s[i + 1] == s[i..i + 2][1];
  }

  /** From `offset` on, `s` starts like `e` as far as it goes. */
  ghost predicate Agrees(s: seq<byte>, offset: nat, e: seq<byte>) {
    forall j :: 0 <= j < |e| && offset + j < |s| ==> s[offset + j] == e[j]
  }

  lemma AgreesInParts(s: seq<byte>, offset: nat, a: seq<byte>, b: seq<byte>)
    requires Agrees(s, offset, a + b)
    ensures Agrees(s, offset, a) && Agrees(s, offset + |a|, b)
    ensures offset + |a| <= |s| ==> s[offset..offset + |a|] == a
  {
    forall j | 0 <= j < |a| && offset + j < |s| ensures s[offset + j] == a[j] {
      assert (a + b)[j] == a[j];
    }
    forall j | 0 <= j < |b| && offset + |a| + j < |s| ensures s[offset + |a| + j] == b[j] {
      assert (a + b)[|a| + j] == b[j];
    }
  }

  /** A string that begins with `e`, cut after `k` bytes. */
  lemma CutAgrees(e: seq<byte>, rest: seq<byte>, k: nat)
    requires k <= |e + rest|
    ensures Agrees((e + rest)[..k], 0, e)
  {
    forall j | 0 <= j < |e| && j < k ensures (e + rest)[..k][j] == e[j] {
    }
  }

  /** What is left of a last part that is cut short. */
  lemma LastPart(s: seq<byte>, offset: nat, a: seq<byte>)
    requires offset <= |s| <= offset + |a| && Agrees(s, offset, a)
    ensures s[offset..] == a[..|s| - offset]
  {
    forall j | 0 <= j < |s| - offset ensures s[offset..][j] == a[..|s| - offset][j] {
      assert s[offset + j] == a[j];
    }
  }

  function Flatten(parts: seq<seq<byte>>): seq<byte> {
    if parts == [] then [] else parts[0] + Flatten(parts[1..])
  }

  lemma {:induction false} FlattenAppend(a: seq<seq<byte>>, b: seq<seq<byte>>)
    ensures Flatten(a + b) == Flatten(a) + Flatten(b)
  {
    if a == [] {
      assert a + b == b;
    } else {
      var ab, fa, fb := a + b, Flatten(a[1..]), Flatten(b);
      FlattenAppend(a[1..], b);
      assert ab[1..] == a[1..] + b && ab[0] == a[0];
      Associate(a[0], fa, fb);
    }
  }

  lemma Associate<T>(a: seq<T>, b: seq<T>, c: seq<T>)
    ensures a + (b + c) == a + b + c
  {
  }

  /** The layouts below are built from the left and read from the left. */
  lemma Nested4(a: seq<byte>, b: seq<byte>, c: seq<byte>, d: seq<byte>)
    ensures a + b + c + d == a + (b + (c + d))
  {
    Associate(a, b, c);
    Associate(a, b + c, d);
    Associate(b, c, d);
  }

  lemma Nested5(a: seq<byte>, b: seq<byte>, c: seq<byte>, d: seq<byte>, e: seq<byte>)
    ensures a + b + c + d + e == a + (b + (c + (d + e)))
  {
    Nested4(a, b, c, d);
    Associate(a, b + (c + d), e);
    Associate(b, c + d, e);
    Associate(c, d, e);
  }

  lemma FlattenFirst(parts: seq<seq<byte>>, n: nat)
    requires n < |parts|
    ensures Flatten(parts[..n + 1]) == parts[0] + Flatten(parts[1..][..n])
  {
    assert parts[..n + 1][1..] == parts[1..][..n];
  }

  lemma FlattenPrefix(parts: seq<seq<byte>>, n: nat)
    requires n <= |parts|
    ensures Flatten(parts[..n]) <= Flatten(parts)
  {
    assert parts == parts[..n] + parts[n..];
    FlattenGrows(parts[..n], parts[n..]);
  }

  lemma FlattenGrows(a: seq<seq<byte>>, b: seq<seq<byte>>)
    ensures Flatten(a) <= Flatten(a + b)
  {
    FlattenAppend(a, b);
  }

  function Zeros(n: nat): (z: seq<byte>)
    ensures |z| == n
  {
    seq(n, _ => 0)
  }

  lemma ZeroGap(s: seq<byte>, at: nat, n: nat)
    requires at + n <= |s| && forall i :: at <= i < at + n ==> s[i] == 0
    ensures s[..at + n] == s[..at] + Zeros(n)
  {
  }

  // The 12 bytes in front of an IPv4 address written in 16 bytes.
  const V4_IN_V6_PREFIX: seq<byte> := Zeros(10) + [255, 255]

  predicate IsV4InV6(ip: Ip) {
    |ip| == 16 && ip[..12] == V4_IN_V6_PREFIX
  }

  function To4(ip: Ip): (v4: Ip)
    ensures |v4| == 4 || v4 == []
  {
    if |ip| == 4 then ip
    else if IsV4InV6(ip) then ip[12..]
    else []
  }

  function To16(ip: Ip): (v6: Ip)
    ensures |v6| == 16 || v6 == []
  {
    if |ip| == 4 then V4_IN_V6_PREFIX + ip
    else if |ip| == 16 then ip
    else []
  }

  /** The bytes the codecs put on the wire: the 4-byte form when there is one, else the 16-byte form. */
  function WireIp(ip: Ip): (w: Ip) {
    if To4(ip) != [] then To4(ip) else To16(ip)
  }

  /** Stands for `ip.String()`. */
  function Key(ip: Ip): (k: Ip) {
    if To4(ip) != [] then To4(ip) else ip
  }

  predicate IsIp(ip: Ip) {
    |ip| == 4 || |ip| == 16
  }

  lemma WireIpPresent(ip: Ip)
    ensures IsIp(ip) <==> WireIp(ip) != []
  {
  }

  lemma WireIpKeepsAddress(ip: Ip)
    requires IsIp(ip)
    ensures IsIp(WireIp(ip)) && Key(WireIp(ip)) == Key(ip) && WireIp(ip) == Key(ip)
  {
  }

  /** The wire form and the key, byte by byte: an IPv4 address written in 16 bytes is ten zeros, two 255 and its four. */
  lemma WireForms(ip: Ip)
    ensures |ip| == 4 ==> WireIp(ip) == Key(ip) == ip
    ensures |ip| == 16 && (forall i :: 0 <= i < 10 ==> ip[i] == 0) && ip[10] == 255 && ip[11] == 255 ==>
      WireIp(ip) == Key(ip) == ip[12..]
    ensures |ip| == 16 && !((forall i :: 0 <= i < 10 ==> ip[i] == 0) && ip[10] == 255 && ip[11] == 255) ==>
      WireIp(ip) == Key(ip) == ip
    ensures |ip| != 4 && |ip| != 16 ==> WireIp(ip) == [] && Key(ip) == ip
  {
    if |ip| == 16 {
      var p := ip[..12];
      assert p == V4_IN_V6_PREFIX <==> (forall i :: 0 <= i < 10 ==> ip[i] == 0) && ip[10] == 255 && ip[11] == 255 by {
        assert forall i :: 0 <= i < 12 ==> p[i] == ip[i];
        assert forall i :: 0 <= i < 10 ==> V4_IN_V6_PREFIX[i] == 0;
        assert V4_IN_V6_PREFIX[10] == 255 && V4_IN_V6_PREFIX[11] == 255;
        if (forall i :: 0 <= i < 10 ==> ip[i] == 0) && ip[10] == 255 && ip[11] == 255 {
          assert p == V4_IN_V6_PREFIX;
        }
      }
    }
  }

  // `net.ParseIP(ip.String())` is the 16-byte form.
  lemma To16KeepsAddress(ip: Ip)
    requires IsIp(ip)
    ensures Key(To16(ip)) == Key(ip) && Key(To16(Key(ip))) == Key(ip)
  {
    if |ip| == 4 {
      assert To16(ip)[..12] == V4_IN_V6_PREFIX && To16(ip)[12..] == ip;
    } else if To4(ip) != [] {
      assert To16(To4(ip))[..12] == V4_IN_V6_PREFIX && To16(To4(ip))[12..] == To4(ip);
    }
  }

  /** `copy(buf[at:], src)` when `src` fits. */
  method Put(buf: array<byte>, at: nat, src: seq<byte>)
    requires at + |src| <= buf.Length
    modifies buf
    ensures buf[..at + |src|] == old(buf[..at]) + src
    ensures buf[at + |src|..] == old(buf[at + |src|..])
  {
    forall i | 0 <= i < |src| {
      buf[at + i] := src[i];
    }
  }
}
