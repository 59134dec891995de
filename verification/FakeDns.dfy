/** The fake-IP allocator (dns/fake.go): a byte counter with carry and wraparound, and two maps. */
module FakeDns {
  import opened Arithmetic
  import opened Bytes

  // ---------- Byte counters ----------

  /** The big-endian value of a byte string. */
  function Value(b: seq<byte>): nat {
    if b == [] then 0 else Value(b[..|b| - 1]) * 256 + b[|b| - 1]
  }

  /** The counter after one step of the carry loop, byte by byte from the right. */
  function Incremented(b: seq<byte>): (r: seq<byte>)
    ensures |r| == |b|
  {
    if b == [] then []
    else
      var init, last := b[..|b| - 1], b[|b| - 1];
      if last == 255 then Incremented(init) + [0] else init + [last + 1]
  }

  lemma {:induction false} ValueBound(b: seq<byte>)
    ensures Value(b) < Pow(256, |b|)
  {
    if b != [] {
      ValueBound(b[..|b| - 1]);
    }
  }

  /** The carry loop is +1, modulo 256 to the number of bytes. */
  lemma {:induction false} CarryIsPlusOne(b: seq<byte>)
    ensures Value(Incremented(b)) == if Value(b) + 1 == Pow(256, |b|) then 0 else Value(b) + 1
  {
    if b != [] {
      var init, last := b[..|b| - 1], b[|b| - 1];
      ValueBound(init);
      if last == 255 {
        CarryIsPlusOne(init);
        assert (Incremented(init) + [0])[..|b| - 1] == Incremented(init);
      } else {
        assert (init + [last + 1])[..|b| - 1] == init;
      }
    }
  }

  /** One digit of the carry, with `zeros` digits already carried over behind it. */
  lemma CarryStep(b: seq<byte>, i: nat, zeros: nat)
    requires i < |b|
    ensures Incremented(b[..i + 1]) + Zeros(zeros)
         == if b[i] == 255 then Incremented(b[..i]) + Zeros(zeros + 1) else b[..i] + [b[i] + 1] + Zeros(zeros)
  {
    var head := b[..i + 1];
    assert head[..i] == b[..i] && head[i] == b[i];
    if b[i] == 255 {
      assert [0] + Zeros(zeros) == Zeros(zeros + 1);
      Associate(Incremented(b[..i]), [0], Zeros(zeros));
    }
  }

  // ---------- Networks ----------

  // `ip` is already masked to `prefix` bits, as `net.ParseCIDR` leaves it.
  datatype Network = Network(ip: Ip, prefix: nat)

  /** How many of the bits of byte `i` belong to the prefix. */
  function PrefixBits(prefix: nat, i: nat): (bits: nat)
    ensures bits <= 8
  {
    if prefix <= 8 * i then 0 else if prefix - 8 * i >= 8 then 8 else prefix - 8 * i
  }

  /** 2 to the power `8 - bits`. */
  function HostSpan(bits: nat): (span: nat)
    requires bits <= 8
    ensures 1 <= span <= 256
  {
    [256, 128, 64, 32, 16, 8, 4, 2, 1][bits]
  }

  /** `x & mask`, for a mask of `bits` leading ones. */
  function Masked(x: byte, bits: nat): byte
    requires bits <= 8
  {
    x - x % HostSpan(bits)
  }

  /** Byte `i` agrees under byte `skipped + i` of the mask. */
  predicate SameAt(x: Ip, y: Ip, prefix: nat, skipped: nat, i: nat)
    requires i < |x| == |y|
  {
    Masked(x[i], PrefixBits(prefix, skipped + i)) == Masked(y[i], PrefixBits(prefix, skipped + i))
  }

  predicate SameNet(x: Ip, y: Ip, prefix: nat, skipped: nat)
    requires |x| == |y|
  {
    forall i :: 0 <= i < |x| ==> SameAt(x, y, prefix, skipped, i)
  }

  /** `net.IPNet.Contains`, which compares 4-byte forms where they exist. */
  predicate Contains(n: Network, ip: Ip) {
    var x, nn := Key(ip), Key(n.ip);
    |x| == |nn| && SameNet(x, nn, n.prefix, |n.ip| - |nn|)
  }

  // ---------- The allocator ----------

  type Domain = string

  datatype State = State(forward: map<Domain, Ip>, reverse: map<Ip, Domain>, next: Ip)

  function WithLast(ip: Ip, x: byte): Ip
    requires ip != []
  {
    ip[|ip| - 1 := x]
  }

  function FirstIp(n: Network): Ip
    requires IsIp(n.ip)
  {
    WithLast(WireIp(n.ip), 3)
  }

  function Gateway(n: Network): Ip
    requires IsIp(n.ip)
  {
    WithLast(WireIp(n.ip), 1)
  }

  function DnsIp(n: Network): Ip
    requires IsIp(n.ip)
  {
    WithLast(WireIp(n.ip), 2)
  }

  function Next(n: Network, ip: Ip): (r: Ip)
    requires 0 < |ip| <= |n.ip|
    ensures |r| == |ip|
  {
    Wrapped(n, ip, Incremented(ip), Contains(n, Incremented(ip)))
  }

  function Wrapped(n: Network, ip: Ip, up: Ip, inside: bool): (r: Ip)
    requires 0 < |ip| == |up| <= |n.ip|
    ensures |r| == |ip|
  {
    if inside then up else WithLast(n.ip[..|ip|], 3)
  }

  function Init(n: Network): State
    requires IsIp(n.ip)
  {
    State(map[], map[], FirstIp(n))
  }

  function Step(n: Network, s: State, d: Domain): State
    requires 0 < |s.next| <= |n.ip|
  {
    Assigned(s, d, Key(s.next), Next(n, s.next))
  }

  function Assigned(s: State, d: Domain, key: Ip, next: Ip): State {
    if d in s.forward then s else State(s.forward[d := s.next], s.reverse[key := d], next)
  }

  /** `Domain`: the domain an address stands for. */
  function Named(s: State, ip: Ip): Option<Domain> {
    if Key(ip) in s.reverse then Some(s.reverse[Key(ip)]) else None
  }

  class FakeDns {
    const network: Network
    const gateway: Ip
    const dnsIp: Ip
    var forward: map<Domain, Ip>
    var reverse: map<Ip, Domain>
    const nextIp: array<byte>

    ghost predicate Valid() {
      0 < nextIp.Length <= |network.ip|
    }

    ghost function Now(): State
      reads this, nextIp
    {
      State(forward, reverse, nextIp[..])
    }

    constructor (network: Network)
      requires IsIp(network.ip)
      ensures Valid() && this.network == network && fresh(nextIp) && Now() == Init(network)
      ensures gateway == Gateway(network) && dnsIp == DnsIp(network)
      ensures var w := WireIp(network.ip); var l := |w| - 1;
        && |gateway| == |dnsIp| == |nextIp[..]| == |w|
        && gateway[..l] == dnsIp[..l] == nextIp[..][..l] == w[..l]
        && gateway[l] == 1 && dnsIp[l] == 2 && nextIp[..][l] == 3
    {
      this.network := network;
      forward := map[];
      reverse := map[];
      var ip := To4(network.ip);
      if ip == [] {
        ip := To16(network.ip);
      }
      gateway := ip[|ip| - 1 := 1];
      dnsIp := ip[|ip| - 1 := 2];
      nextIp := new byte[|ip|](_ => 0);
      new;
      Put(nextIp, 0, ip);
      nextIp[nextIp.Length - 1] := 3;
      assert nextIp[..] == FirstIp(network);
    }

    // The carry loop on the counter, in place.
    method Increment()
      modifies nextIp
      ensures nextIp[..] == Incremented(old(nextIp[..]))
    {
      ghost var was := nextIp[..];
      ghost var n := nextIp.Length;
      var i := nextIp.Length - 1;
      assert was[..n] == was && Incremented(was) + Zeros(0) == Incremented(was);
      while i >= 0
        invariant -1 <= i < n
        invariant nextIp[..] == was[..i + 1] + Zeros(n - 1 - i)
        invariant Incremented(was) == Incremented(was[..i + 1]) + Zeros(n - 1 - i)
        decreases i
      {
        CarryStep(was, i, n - 1 - i);
        var digit: int := nextIp[i];
        nextIp[i] := (digit + 1) % 256;
        if nextIp[i] != 0 {
          break;
        }
        i := i - 1;
      }
    }

    // Carry, range check and wraparound on the counter, in place.
    method Advance()
      requires Valid()
      modifies nextIp
      ensures nextIp[..] == Next(network, old(nextIp[..]))
    {
      Increment();
      if !Contains(network, nextIp[..]) {
        Put(nextIp, 0, network.ip[..nextIp.Length]);
        nextIp[nextIp.Length - 1] := 3;
        assert nextIp[..] == WithLast(network.ip[..nextIp.Length], 3);
      }
    }

    method Allocate(domain: Domain) returns (ip: Ip)
      requires Valid()
      modifies this`forward, this`reverse, nextIp
      ensures Valid() && Now() == Step(network, old(Now()), domain)
      ensures domain in forward && ip == forward[domain]
      ensures ip == if domain in old(forward) then old(forward)[domain] else old(nextIp[..])
    {
      if domain in forward {
        return forward[domain];
      }
      ip := nextIp[..];
      Advance();
      forward := forward[domain := ip];
      reverse := reverse[Key(ip) := domain];
    }

    method DomainOf(ip: Ip) returns (r: Option<Domain>)
      ensures r == Named(Now(), ip)
    {
      if Key(ip) in reverse {
        return Some(reverse[Key(ip)]);
      }
      r := None;
    }
  }

  // ---------- Networks are intervals ----------

  /** A network in its own notation, IPv4 or IPv6 but not IPv4 written as IPv6, with the host bits cleared. */
  predicate IsNet(n: Network) {
    && (|n.ip| == 4 || (|n.ip| == 16 && !IsV4InV6(n.ip)))
    && n.prefix <= 8 * |n.ip| && HostBitsClear(n.ip, n.prefix)
  }

  predicate ClearAt(ip: Ip, prefix: nat, i: nat)
    requires i < |ip|
  {
    Masked(ip[i], PrefixBits(prefix, i)) == ip[i]
  }

  predicate HostBitsClear(ip: Ip, prefix: nat) {
    forall i :: 0 <= i < |ip| ==> ClearAt(ip, prefix, i)
  }

  /** The number of addresses of the network, 2 to the number of host bits. */
  function Size(n: Network): nat
    requires n.prefix <= 8 * |n.ip|
  {
    Pow(2, 8 * |n.ip| - n.prefix)
  }

  lemma {:induction false} PowAdd(a: nat, b: nat)
    ensures Pow(2, a + b) == Pow(2, a) * Pow(2, b)
  {
    if a > 0 {
      PowAdd(a - 1, b);
      Doubled(Pow(2, a - 1), Pow(2, b), Pow(2, a - 1 + b));
    }
  }

  lemma Doubled(x: nat, y: nat, z: nat)
    requires z == x * y
    ensures 2 * z == (2 * x) * y
  {
  }

  lemma SmallPowers(bits: nat)
    requires bits <= 8
    ensures Pow(2, 8 - bits) == HostSpan(bits)
  {
    assert Pow(2, 0) == 1 && Pow(2, 1) == 2 && Pow(2, 2) == 4;
    assert Pow(2, 3) == 8 && Pow(2, 4) == 16 && Pow(2, 5) == 32;
    assert Pow(2, 6) == 64 && Pow(2, 7) == 128 && Pow(2, 8) == 256;
  }

  lemma AlignedMod(x: nat, m: nat, d: nat)
    requires d > 0 && m % d == 0 && 256 % d == 0 && m < 256
    ensures x - x % d == m <==> m <= x < m + d
    ensures m + d <= 256
  {
    MultiplesApart(x, x / d, x % d, m, m / d, d);
    Multiples(d, m / d, 256 / d);
  }

  lemma MultiplesApart(x: nat, j: nat, r: nat, m: nat, k: nat, d: nat)
    requires x == d * j + r && r < d && m == d * k
    ensures x - r == m <==> m <= x < m + d
  {
    Multiples(d, j, k);
    Multiples(d, k, j);
  }

  lemma MaskedIff(x: byte, m: byte, bits: nat)
    requires bits <= 8 && Masked(m, bits) == m
    ensures Masked(x, bits) == m <==> m <= x < m + HostSpan(bits)
    ensures m + HostSpan(bits) <= 256
  {
    assert 256 % 256 == 256 % 128 == 256 % 64 == 256 % 32 == 256 % 16 == 256 % 8 == 256 % 4 == 256 % 2 == 256 % 1 == 0;
    AlignedMod(x, m, HostSpan(bits));
  }

  lemma {:induction false} ValueInjective(a: seq<byte>, b: seq<byte>)
    requires |a| == |b| && Value(a) == Value(b)
    ensures a == b
  {
    if a != [] {
      ValueInjective(a[..|a| - 1], b[..|a| - 1]);
      assert a == a[..|a| - 1] + [a[|a| - 1]] && b == b[..|a| - 1] + [b[|a| - 1]];
    }
  }

  lemma ValuesDiffer(a: seq<byte>, b: seq<byte>)
    requires |a| == |b| && a != b
    ensures Value(a) != Value(b)
  {
    if Value(a) == Value(b) {
      ValueInjective(a, b);
    }
  }

  predicate Within(v: int, base: int, size: int) {
    base <= v < base + size
  }

  lemma Scaled(d: int, l: int, u: int, span: int)
    requires 0 <= l < u
    ensures 0 <= d * u + l < span * u <==> 0 <= d < span
  {
    if d < 0 {
      Increases(u, d, -1);
    } else if d >= span {
      Increases(u, span, d);
    } else {
      Increases(u, d + 1, span);
      Increases(u, 0, d);
    }
  }

  lemma Increases(u: int, a: int, b: int)
    requires 0 <= u && a <= b
    ensures a * u <= b * u
  {
  }

  ghost predicate InRangeAt(m: Ip, x: Ip, span: nat -> nat, i: nat)
    requires i < |m| == |x|
  {
    m[i] <= x[i] < m[i] + span(i)
  }

  /** The ranges of a network's bytes: `span(i)` values from `m[i]` on. */
  ghost predicate InRanges(m: Ip, x: Ip, span: nat -> nat)
    requires |m| == |x|
  {
    forall i :: 0 <= i < |m| ==> InRangeAt(m, x, span, i)
  }

  ghost predicate RangeAt(m: Ip, prefix: nat, span: nat -> nat, i: nat)
    requires i < |m|
  {
    IsRange(m[i], prefix, i, span(i))
  }

  /** Bytes within the prefix are fixed, bytes behind it free, and the one it ends in is bound. */
  ghost predicate AreRanges(m: Ip, prefix: nat, span: nat -> nat) {
    forall i :: 0 <= i < |m| ==> RangeAt(m, prefix, span, i)
  }

  ghost predicate IsRange(m: byte, prefix: nat, i: nat, span: nat) {
    && m as int + span <= 256
    && (prefix <= 8 * i ==> m == 0 && span == 256)
    && (prefix > 8 * i ==> span == if prefix < 8 * i + 8 then Pow(2, 8 * i + 8 - prefix) else 1)
  }

  function Spans(prefix: nat): nat -> nat {
    (i: nat) => HostSpan(PrefixBits(prefix, i))
  }

  lemma ByteRange(m: byte, x: byte, prefix: nat, i: nat)
    requires Masked(m, PrefixBits(prefix, i)) == m
    ensures IsRange(m, prefix, i, Spans(prefix)(i))
    ensures Masked(x, PrefixBits(prefix, i)) == m <==> m <= x < m + Spans(prefix)(i)
  {
    var bits := PrefixBits(prefix, i);
    MaskedIff(x, m, bits);
    SmallPowers(bits);
  }

  lemma NetRanges(m: Ip, x: Ip, prefix: nat) returns (span: nat -> nat)
    requires |m| == |x| && HostBitsClear(m, prefix)
    ensures AreRanges(m, prefix, span)
    ensures SameNet(x, m, prefix, 0) <==> InRanges(m, x, span)
  {
    span := Spans(prefix);
    forall i | 0 <= i < |m|
      ensures RangeAt(m, prefix, span, i)
      ensures SameAt(x, m, prefix, 0, i) <==> InRangeAt(m, x, span, i)
    {
      assert ClearAt(m, prefix, i);
      ByteRange(m[i], x[i], prefix, i);
    }
  }

  lemma LastRange(m: Ip, x: Ip, span: nat -> nat, l: nat)
    requires |m| == |x| == l + 1
    ensures InRanges(m, x, span) <==> InRanges(m[..l], x[..l], span) && InRangeAt(m, x, span, l)
  {
    forall i | 0 <= i < l ensures InRangeAt(m, x, span, i) <==> InRangeAt(m[..l], x[..l], span, i) {
    }
    assert InRanges(m[..l], x[..l], span) <==> forall i :: 0 <= i < l ==> InRangeAt(m[..l], x[..l], span, i);
  }

  lemma InitialRanges(m: Ip, prefix: nat, span: nat -> nat, l: nat, q: nat)
    requires |m| == l + 1 && AreRanges(m, prefix, span) && q == if prefix <= 8 * l then prefix else 8 * l
    ensures AreRanges(m[..l], q, span) && RangeAt(m, prefix, span, l)
  {
    forall i | 0 <= i < l ensures RangeAt(m[..l], q, span, i) {
      assert RangeAt(m, prefix, span, i);
    }
  }

  /** One byte more: free, or bound behind fixed ones. */
  lemma RangeStep(x: nat, m: nat, last: byte, low: byte, prefix: nat, l: nat, span: nat, size: nat, all: nat)
    requires prefix <= 8 * l + 8 && IsRange(low, prefix, l, span) && m + size <= all
    requires size == if prefix <= 8 * l then Pow(2, 8 * l - prefix) else 1
    ensures Within(x, m, size) && low <= last < low + span
       <==> Within(x * 256 + last, m * 256 + low, Pow(2, 8 * l + 8 - prefix))
    ensures m * 256 + low + Pow(2, 8 * l + 8 - prefix) <= 256 * all
  {
    if prefix <= 8 * l {
      PowShift(8 * l - prefix, 8 * l + 8 - prefix);
      FreeByte(x, m, last, size, all);
    } else {
      assert Pow(2, 0) == 1;
      BoundByte(x, m, last, low, span, all);
    }
  }

  /** Byte ranges are an interval of values, whatever the number of bytes. */
  lemma {:induction false} RangesAreInterval(m: Ip, x: Ip, prefix: nat, span: nat -> nat, host: nat)
    requires |m| == |x| && prefix + host == 8 * |m| && AreRanges(m, prefix, span)
    ensures InRanges(m, x, span) <==> Within(Value(x), Value(m), Pow(2, host))
    ensures Value(m) + Pow(2, host) <= Pow(256, |m|)
    decreases |m|
  {
    if m != [] {
      var l := |m| - 1;
      var host' := if prefix <= 8 * l then 8 * l - prefix else 0;
      LastRange(m, x, span, l);
      InitialRanges(m, prefix, span, l, 8 * l - host');
      RangesAreInterval(m[..l], x[..l], 8 * l - host', span, host');
      assert Pow(2, 0) == 1;
      RangeStep(Value(x[..l]), Value(m[..l]), x[l], m[l], prefix, l, span(l), Pow(2, host'), Pow(256, l));
    }
  }

  /** The addresses that agree with a masked one are an interval of values. */
  lemma MaskIsInterval(m: Ip, x: Ip, prefix: nat)
    requires |m| == |x| && prefix <= 8 * |m| && HostBitsClear(m, prefix)
    ensures SameNet(x, m, prefix, 0) <==> Within(Value(x), Value(m), Pow(2, 8 * |m| - prefix))
    ensures Value(m) + Pow(2, 8 * |m| - prefix) <= Pow(256, |m|)
  {
    var span := NetRanges(m, x, prefix);
    RangesAreInterval(m, x, prefix, span, 8 * |m| - prefix);
  }

  lemma PowShift(a: nat, b: nat)
    requires b == 8 + a
    ensures Pow(2, b) == 256 * Pow(2, a)
  {
    PowAdd(8, a);
    SmallPowers(0);
  }

  /** A last byte that is free. */
  lemma FreeByte(x: nat, m: nat, last: nat, size: nat, all: nat)
    requires last < 256 && m + size <= all
    ensures Within(x * 256 + last, m * 256, 256 * size) <==> Within(x, m, size)
    ensures m * 256 + 256 * size <= 256 * all
  {
    Scaled(x - m, last, 256, size);
  }

  /** A last byte that is bound, behind bytes that are fixed. */
  lemma BoundByte(x: nat, m: nat, last: nat, low: nat, span: nat, all: nat)
    requires last < 256 && low + span <= 256 && m + 1 <= all
    ensures Within(x * 256 + last, m * 256 + low, span) <==> x == m && low <= last < low + span
    ensures m * 256 + low + span <= 256 * all
  {
  }

  // ---------- IPv4 addresses among the IPv6 ones ----------

  const ALL_V4 := 0x1_0000_0000

  // The value of ::ffff:0.0.0.0.
  const MAPPED := 0xFFFF_0000_0000

  predicate IsMapped(v: nat) {
    MAPPED <= v < MAPPED + ALL_V4
  }

  lemma {:induction false} ZerosValue(n: nat)
    ensures Value(Zeros(n)) == 0
  {
    if n > 0 {
      ZerosValue(n - 1);
      assert Zeros(n)[..n - 1] == Zeros(n - 1);
    }
  }

  lemma PrefixValue()
    ensures Value(V4_IN_V6_PREFIX) == 0xFFFF
  {
    ZerosValue(10);
    var p := V4_IN_V6_PREFIX;
    assert p[..11][..10] == Zeros(10) && p[..11][10] == 255 && p[11] == 255;
    assert Value(p[..11]) == 255;
  }

  /** The value in terms of the last four bytes. */
  lemma LastFour(b: seq<byte>, l: nat)
    requires |b| == l + 4
    ensures Value(b) == (((Value(b[..l]) * 256 + b[l]) * 256 + b[l + 1]) * 256 + b[l + 2]) * 256 + b[l + 3]
  {
    var b3, b2, b1 := b[..l + 3], b[..l + 2], b[..l + 1];
    assert b3[..l + 2] == b2 && b2[..l + 1] == b1 && b1[..l] == b[..l];
    assert Value(b1) == Value(b[..l]) * 256 + b[l];
    assert Value(b2) == Value(b1) * 256 + b[l + 1];
    assert Value(b3) == Value(b2) * 256 + b[l + 2];
  }

  lemma MappedIff(ip: Ip)
    requires |ip| == 16
    ensures IsV4InV6(ip) <==> IsMapped(Value(ip))
  {
    LastFour(ip, 12);
    PrefixValue();
    if Value(ip[..12]) == 0xFFFF {
      ValueInjective(ip[..12], V4_IN_V6_PREFIX);
    }
  }

  // ---------- The network as the counter sees it ----------

  /** The values of a network of addresses of `width` bytes, of which there are `all`: `size` of them from `base` on,
      which is among the 256 from 256 * `block` on. */
  datatype Shape = Shape(width: nat, all: nat, base: nat, size: nat, block: nat)

  function First(h: Shape): nat {
    256 * h.block + 3
  }

  /** IPv6 addresses that are IPv4 ones are in no IPv6 network. */
  predicate Inside(h: Shape, v: nat) {
    Within(v, h.base, h.size) && !(h.width == 16 && IsMapped(v))
  }

  predicate Consistent(h: Shape) {
    && 256 * h.block <= h.base < 256 * h.block + 256 <= h.all && h.base + h.size <= h.all
    && (h.width == 16 ==> !IsMapped(h.base) && h.all > MAPPED + ALL_V4)
  }

  ghost function ShapeOf(n: Network): Shape
    requires n.ip != [] && n.prefix <= 8 * |n.ip|
  {
    Shape(|n.ip|, Pow(256, |n.ip|), Value(n.ip), Size(n), Value(n.ip[..|n.ip| - 1]))
  }

  ghost predicate HasShape(n: Network, h: Shape) {
    && |n.ip| == h.width && (h.width == 4 || h.width == 16) && h.all == Pow(256, h.width)
    && WireIp(n.ip) == n.ip && Value(n.ip) == h.base && Value(FirstIp(n)) == First(h) && Consistent(h)
    && forall ip: Ip :: |ip| == h.width ==> (Contains(n, ip) <==> Inside(h, Value(ip)))
  }

  lemma WithLastValue(ip: Ip, x: byte)
    requires ip != []
    ensures Value(WithLast(ip, x)) == 256 * Value(ip[..|ip| - 1]) + x
  {
    assert WithLast(ip, x)[..|ip| - 1] == ip[..|ip| - 1];
  }

  lemma SpaceSizes()
    ensures Pow(256, 4) == ALL_V4 && Pow(256, 16) > MAPPED + ALL_V4
  {
    var m := Pow(256, 8);
    assert Pow(256, 4) == ALL_V4;
    assert m == 256 * 256 * 256 * 256 * Pow(256, 4);
    MorePowers(8, 8);
  }

  lemma {:induction false} MorePowers(a: nat, b: nat)
    ensures Pow(256, a + b) >= Pow(256, a)
  {
    if b > 0 {
      MorePowers(a, b - 1);
    }
  }

  lemma NetConsistent(n: Network)
    requires IsNet(n)
    ensures Consistent(ShapeOf(n))
  {
    var l := |n.ip| - 1;
    MaskIsInterval(n.ip, n.ip, n.prefix);
    BlockFits(n.ip, l, Pow(256, l));
    BaseUnmapped(n.ip);
  }

  lemma BaseUnmapped(ip: Ip)
    requires |ip| == 4 || (|ip| == 16 && !IsV4InV6(ip))
    ensures |ip| == 16 ==> !IsMapped(Value(ip)) && Pow(256, 16) > MAPPED + ALL_V4
  {
    SpaceSizes();
    if |ip| == 16 {
      MappedIff(ip);
    }
  }

  lemma BlockFits(ip: Ip, l: nat, all: nat)
    requires |ip| == l + 1 && all == Pow(256, l)
    ensures 256 * Value(ip[..l]) <= Value(ip) < 256 * Value(ip[..l]) + 256 <= 256 * all
  {
    ValueBound(ip[..l]);
  }

  lemma ContainsSame(n: Network, ip: Ip)
    requires IsNet(n) && |ip| == |n.ip|
    ensures Contains(n, ip) <==> SameNet(ip, n.ip, n.prefix, 0) && !(|ip| == 16 && IsV4InV6(ip))
  {
  }

  lemma ContainsIff(n: Network, h: Shape, ip: Ip)
    requires IsNet(n) && |ip| == |n.ip| == h.width
    requires SameNet(ip, n.ip, n.prefix, 0) <==> Within(Value(ip), h.base, h.size)
    ensures Contains(n, ip) <==> Inside(h, Value(ip))
  {
    ContainsSame(n, ip);
    if |ip| == 16 {
      MappedIff(ip);
    }
  }

  lemma ContainsAll(n: Network, h: Shape)
    requires IsNet(n) && h.width == |n.ip| && h.base == Value(n.ip) && h.size == Size(n)
    ensures forall ip: Ip :: |ip| == h.width ==> (Contains(n, ip) <==> Inside(h, Value(ip)))
  {
    forall ip: Ip | |ip| == h.width ensures Contains(n, ip) <==> Inside(h, Value(ip)) {
      MaskIsInterval(n.ip, ip, n.prefix);
      ContainsIff(n, h, ip);
    }
  }

  lemma NetHasShape(n: Network)
    requires IsNet(n)
    ensures HasShape(n, ShapeOf(n))
  {
    NetConsistent(n);
    WithLastValue(n.ip, 3);
    ContainsAll(n, ShapeOf(n));
  }

  /** Whether the first address lies in the network at all: always when the prefix leaves the last byte free,
      else exactly when the network's last byte is 3 with its host bits cleared. */
  lemma FirstIpInsideIff(n: Network)
    requires IsNet(n)
    ensures var l := |n.ip| - 1;
      Contains(n, FirstIp(n)) <==> n.prefix <= 8 * l || n.ip[l] == Masked(3, PrefixBits(n.prefix, l))
  {
    var m, x, l := n.ip, FirstIp(n), |n.ip| - 1;
    if |m| == 16 {
      assert x[..12] == m[..12];
    }
    LastBytesSame(m, x, n.prefix, l);
    assert ClearAt(m, n.prefix, l);
    MaskedIff(3, m[l], PrefixBits(n.prefix, l));
  }

  lemma LastBytesSame(m: Ip, x: Ip, prefix: nat, l: nat)
    requires |m| == |x| == l + 1 && x[..l] == m[..l]
    ensures SameNet(x, m, prefix, 0) <==> Masked(x[l], PrefixBits(prefix, l)) == Masked(m[l], PrefixBits(prefix, l))
  {
    forall i | 0 <= i < l ensures SameAt(x, m, prefix, 0, i) {
      assert x[..l][i] == m[..l][i];
    }
    assert SameNet(x, m, prefix, 0) <==> SameAt(x, m, prefix, 0, l);
  }

  // ---------- The counter ----------

  /** A counter modulo `c`, counted up one by one. */
  ghost function Slot(k: nat, c: nat): (r: nat)
    requires c > 0
    ensures r < c
  {
    if k == 0 then 0
    else
      var r := Slot(k - 1, c);
      if r + 1 == c then 0 else r + 1
  }

  lemma {:induction false} SlotBack(k: nat, c: nat)
    requires c > 0
    ensures Slot(k, c) == k <==> k < c
    ensures k >= c ==> Slot(k, c) == Slot(k - c, c)
  {
    if k > 0 {
      SlotBack(k - 1, c);
    }
  }

  lemma {:induction false} SlotIsMod(k: nat, c: nat)
    requires c > 0
    ensures Slot(k, c) == k % c
  {
    SlotBack(k, c);
    if k >= c {
      SlotIsMod(k - c, c);
      ModBack(k, c);
    } else {
      ModSmall(k, c);
    }
  }

  lemma ModSmall(k: nat, c: nat)
    requires k < c
    ensures k % c == k
  {
  }

  lemma ModBack(k: nat, c: nat)
    requires 0 < c <= k
    ensures k % c == (k - c) % c
  {
    var q, r := (k - c) / c, (k - c) % c;
    assert c * (q + 1) == c * q + c;
    DivUnique(k, c, q + 1, r);
  }

  lemma {:induction false} SlotsApart(j: nat, k: nat, c: nat)
    requires c > 0 && j < k < j + c
    ensures Slot(j, c) != Slot(k, c)
  {
    SlotBack(j, c);
    SlotBack(k, c);
    if j >= c {
      SlotsApart(j - c, k - c, c);
    } else if k >= c {
      SlotBack(k - c, c);
    }
  }

  /** Addition modulo `all`. */
  function Plus(all: nat, a: nat, b: nat): nat {
    if a + b < all then a + b else a + b - all
  }

  /** Where the counter leaves the network: at its end, or at the IPv4 addresses in it. */
  function End(h: Shape): nat {
    if h.width == 16 && h.base <= MAPPED < h.base + h.size then MAPPED else h.base + h.size
  }

  /** How many addresses the counter goes through before it is back at the first: from there to where it leaves the
      network, if the address after the first lies in it at all; in the IPv4 network /0 all there are. */
  function Period(h: Shape): (c: nat)
    ensures c > 0
  {
    if h.width != 16 && h.size == h.all > 0 then h.all
    else if h.base <= First(h) + 1 < End(h) then End(h) - First(h)
    else 1
  }

  ghost function CycleLength(n: Network): (c: nat)
    requires IsNet(n)
    ensures c > 0
  {
    Period(ShapeOf(n))
  }

  /** The `r`-th position of the counter in its cycle. */
  function Position(h: Shape, r: nat): nat {
    Plus(h.all, First(h), r)
  }

  function NextPosition(h: Shape, r: nat): nat {
    if r + 1 == Period(h) then 0 else r + 1
  }

  lemma PeriodBound(h: Shape)
    requires Consistent(h)
    ensures Period(h) <= h.all && First(h) < h.all
  {
  }

  /** One advance, on values: on, or back to the first. */
  lemma PositionAdvances(h: Shape, r: nat, up: nat)
    requires Consistent(h) && r < Period(h)
    requires up == if Position(h, r) + 1 == h.all then 0 else Position(h, r) + 1
    ensures (if Inside(h, up) then up else First(h)) == Position(h, NextPosition(h, r))
  {
  }

  lemma PositionUnmapped(h: Shape, r: nat)
    requires Consistent(h) && h.width == 16 && r < Period(h)
    ensures !IsMapped(Position(h, r))
  {
  }

  lemma NextSteps(n: Network, ip: Ip)
    requires 0 < |ip| == |n.ip| && WireIp(n.ip) == n.ip
    ensures Next(n, ip) == if Contains(n, Incremented(ip)) then Incremented(ip) else FirstIp(n)
  {
    assert n.ip[..|ip|] == n.ip;
  }

  /** One advance: carry, range check and wraparound together. */
  lemma NextValue(n: Network, h: Shape, ip: Ip, r: nat)
    requires HasShape(n, h) && |ip| == h.width && r < Period(h) && Value(ip) == Position(h, r)
    ensures |Next(n, ip)| == h.width && Value(Next(n, ip)) == Position(h, NextPosition(h, r))
  {
    NextSteps(n, ip);
    CarryIsPlusOne(ip);
    PositionAdvances(h, r, Value(Incremented(ip)));
  }

  lemma PositionKey(h: Shape, ip: Ip, r: nat)
    requires Consistent(h) && |ip| == h.width && (h.width == 4 || h.width == 16)
    requires r < Period(h) && Value(ip) == Position(h, r)
    ensures Key(ip) == ip
  {
    if h.width == 16 {
      PositionUnmapped(h, r);
      MappedIff(ip);
    }
  }

  lemma LastIsRange(n: Network, l: nat, last: byte) returns (span: nat)
    requires IsNet(n) && |n.ip| == l + 1 && last == n.ip[l]
    ensures IsRange(last, n.prefix, l, span)
  {
    span := Spans(n.prefix)(l);
    assert ClearAt(n.ip, n.prefix, l);
    ByteRange(last, last, n.prefix, l);
  }

  lemma LastSize(prefix: nat, l: nat, last: byte, span: nat)
    requires prefix <= 8 * l + 8 && IsRange(last, prefix, l, span)
    ensures var size := Pow(2, 8 * l + 8 - prefix);
      && (prefix <= 8 * l ==> last == 0 && size >= 256)
      && (prefix > 8 * l ==> last as int + size <= 256)
      && (prefix <= 8 * l + 6 ==> size >= 4)
  {
    if prefix <= 8 * l {
      PowShift(8 * l - prefix, 8 * l + 8 - prefix);
    } else if prefix <= 8 * l + 6 {
      PowAdd(2, 8 * l + 6 - prefix);
      SmallPowers(6);
    } else {
      SmallPowers(7);
      SmallPowers(8);
    }
  }

  /** All addresses but the network's own, the gateway's and the DNS server's, when the network ends in a zero byte,
      which up to /24 and in IPv6 up to /120 it does, and has an address more; but in an IPv6
      network with the IPv4 addresses in it only those below them. In most of the smallest there is only the first. */
  lemma CycleLengths(n: Network, h: Shape, l: nat, last: byte)
    requires IsNet(n) && h == ShapeOf(n) && |n.ip| == l + 1 && last == n.ip[l] && (|n.ip| == 4 ==> n.prefix > 0)
    ensures n.prefix <= 8 * l ==> last == 0
    ensures last == 0 && n.prefix <= 8 * l + 6 ==>
      CycleLength(n) == if h.width == 16 && h.base <= MAPPED < h.base + h.size then MAPPED - (h.base + 3) else h.size - 3
    ensures last > 4 ==> CycleLength(n) == 1
  {
    NetConsistent(n);
    var span := LastIsRange(n, l, last);
    LastSize(n.prefix, l, last, span);
    NotFull(n);
    LengthOf(h, last);
  }

  lemma LengthOf(h: Shape, last: nat)
    requires Consistent(h) && h.base == 256 * h.block + last && (last > 0 ==> last + h.size <= 256)
    requires h.width != 16 ==> h.size < h.all
    ensures last == 0 && h.size >= 4 ==>
      Period(h) == if h.width == 16 && h.base <= MAPPED < h.base + h.size then MAPPED - (h.base + 3) else h.size - 3
    ensures last > 4 ==> Period(h) == 1
  {
  }

  /** Only /0 has all addresses. */
  lemma FullOnly(n: Network)
    requires IsNet(n) && |n.ip| == 4
    ensures Size(n) == ALL_V4 <==> n.prefix == 0
    ensures Size(n) <= ALL_V4
  {
    SpaceSizes();
    TwoTo32();
    if n.prefix > 0 {
      SmallerPower(32 - n.prefix, 32);
    }
  }

  lemma NotFull(n: Network)
    requires IsNet(n) && (|n.ip| == 4 ==> n.prefix > 0)
    ensures |n.ip| == 4 ==> ShapeOf(n).size < ShapeOf(n).all
  {
    if |n.ip| == 4 {
      FullOnly(n);
      SpaceSizes();
    }
  }

  lemma TwoTo32()
    ensures Pow(2, 32) == ALL_V4
  {
    SmallPowers(0);
    PowAdd(8, 8);
    PowAdd(16, 16);
  }

  lemma {:induction false} SmallerPower(a: nat, b: nat)
    requires a < b
    ensures Pow(2, a) < Pow(2, b)
    decreases b
  {
    if a + 1 < b {
      SmallerPower(a, b - 1);
    }
  }

  /** From any reading of the cycle the counter goes on to the next one. */
  ghost predicate Advances(next: Ip -> Ip, h: Shape) {
    forall ip: Ip, r: nat | |ip| == h.width && r < Period(h) && Value(ip) == Position(h, r) ::
      |next(ip)| == h.width && Value(next(ip)) == Position(h, NextPosition(h, r))
  }

  ghost function Iterate(next: Ip -> Ip, ip: Ip, k: nat): Ip {
    if k == 0 then ip else next(Iterate(next, ip, k - 1))
  }

  lemma {:induction false} IterateValue(next: Ip -> Ip, ip: Ip, h: Shape, k: nat)
    requires Consistent(h) && Advances(next, h) && |ip| == h.width && Value(ip) == First(h)
    ensures |Iterate(next, ip, k)| == h.width && Value(Iterate(next, ip, k)) == Position(h, Slot(k, Period(h)))
  {
    PeriodBound(h);
    if k > 0 {
      IterateValue(next, ip, h, k - 1);
      assert Slot(k, Period(h)) == NextPosition(h, Slot(k - 1, Period(h)));
    }
  }

  /** `c` consecutive addresses are pairwise distinct, and then they recur. */
  ghost predicate IsCycle(addr: nat -> Ip, c: nat) {
    && c > 0
    && (forall j: nat, k: nat | j < k < j + c :: addr(j) != addr(k))
    && (forall j: nat, k: nat | k == j + c :: addr(j) == addr(k))
  }

  /** The sequence counts through the positions of the cycle, again and again. */
  ghost predicate CountsFrom(addr: nat -> Ip, h: Shape) {
    forall k: nat :: |addr(k)| == h.width && Value(addr(k)) == Position(h, Slot(k, Period(h)))
  }

  /** Each reading follows from the one before. */
  ghost predicate Follows(addr: nat -> Ip, next: Ip -> Ip) {
    forall j: nat, k: nat | k == j + 1 :: addr(k) == next(addr(j))
  }

  lemma CountsApart(addr: nat -> Ip, h: Shape, j: nat, k: nat)
    requires Consistent(h) && CountsFrom(addr, h) && j < k < j + Period(h)
    ensures addr(j) != addr(k)
  {
    PeriodBound(h);
    SlotsApart(j, k, Period(h));
    assert Value(addr(j)) == Position(h, Slot(j, Period(h))) && Value(addr(k)) == Position(h, Slot(k, Period(h)));
  }

  lemma CountsRecur(addr: nat -> Ip, h: Shape, j: nat, k: nat)
    requires CountsFrom(addr, h) && k == j + Period(h)
    ensures addr(j) == addr(k)
  {
    SlotBack(k, Period(h));
    assert Value(addr(j)) == Position(h, Slot(j, Period(h))) && Value(addr(k)) == Position(h, Slot(k, Period(h)));
    ValueInjective(addr(j), addr(k));
  }

  lemma CountingCycles(addr: nat -> Ip, h: Shape)
    requires Consistent(h) && CountsFrom(addr, h)
    ensures IsCycle(addr, Period(h))
  {
    var c := Period(h);
    forall j: nat, k: nat | j < k < j + c ensures addr(j) != addr(k) {
      CountsApart(addr, h, j, k);
    }
    forall j: nat, k: nat | k == j + c ensures addr(j) == addr(k) {
      CountsRecur(addr, h, j, k);
    }
  }

  ghost function Iterates(next: Ip -> Ip, ip: Ip): nat -> Ip {
    (k: nat) => Iterate(next, ip, k)
  }

  lemma IteratesCount(next: Ip -> Ip, ip: Ip, h: Shape)
    requires Consistent(h) && Advances(next, h) && |ip| == h.width && Value(ip) == First(h)
    ensures CountsFrom(Iterates(next, ip), h)
  {
    forall k: nat ensures |Iterate(next, ip, k)| == h.width && Value(Iterate(next, ip, k)) == Position(h, Slot(k, Period(h))) {
      IterateValue(next, ip, h, k);
    }
  }

  lemma IteratesFollow(next: Ip -> Ip, ip: Ip)
    ensures Iterates(next, ip)(0) == ip && Follows(Iterates(next, ip), next)
  {
    forall j: nat, k: nat | k == j + 1 ensures Iterates(next, ip)(k) == next(Iterates(next, ip)(j)) {
      assert Iterate(next, ip, k) == next(Iterate(next, ip, j));
    }
  }

  /** Map keys are the addresses themselves. */
  ghost predicate OwnKeys(addr: nat -> Ip) {
    forall k: nat :: Key(addr(k)) == addr(k)
  }

  lemma CountsOwnKeys(addr: nat -> Ip, h: Shape)
    requires Consistent(h) && CountsFrom(addr, h) && (h.width == 4 || h.width == 16)
    ensures OwnKeys(addr)
  {
    forall k: nat ensures Key(addr(k)) == addr(k) {
      PositionKey(h, addr(k), Slot(k, Period(h)));
    }
  }

  /** The counter of a network as a function. */
  function NextIn(n: Network): Ip -> Ip {
    ip => if 0 < |ip| <= |n.ip| then Next(n, ip) else ip
  }

  lemma NetAdvances(n: Network, h: Shape)
    requires HasShape(n, h)
    ensures Advances(NextIn(n), h)
  {
    var next := NextIn(n);
    forall ip: Ip, r: nat | |ip| == h.width && r < Period(h) && Value(ip) == Position(h, r)
      ensures |next(ip)| == h.width && Value(next(ip)) == Position(h, NextPosition(h, r))
    {
      NextValue(n, h, ip, r);
    }
  }

  /** The readings of the counter: the `k`-th is the first plus k modulo the length of the cycle. */
  lemma Readings(n: Network, h: Shape) returns (addr: nat -> Ip)
    requires HasShape(n, h)
    ensures CountsFrom(addr, h) && IsCycle(addr, Period(h)) && OwnKeys(addr)
    ensures addr(0) == FirstIp(n) && Follows(addr, NextIn(n))
  {
    NetAdvances(n, h);
    addr := Iterates(NextIn(n), FirstIp(n));
    IteratesCount(NextIn(n), FirstIp(n), h);
    IteratesFollow(NextIn(n), FirstIp(n));
    CountingCycles(addr, h);
    CountsOwnKeys(addr, h);
  }

  /** A network in IPv4-mapped IPv6 notation wraps to 0.0.0.3: the first four of its sixteen bytes are copied. */
  lemma MappedNetWrapsOutside(n: Network, ip: Ip)
    requires IsV4InV6(n.ip) && |ip| == 4 && !Contains(n, Incremented(ip))
    ensures Next(n, ip) == [0, 0, 0, 3]
  {
    MappedWrapped(n, ip, Incremented(ip));
  }

  lemma MappedWrapped(n: Network, ip: Ip, up: Ip)
    requires IsV4InV6(n.ip) && |ip| == |up| == 4
    ensures Wrapped(n, ip, up, false) == [0, 0, 0, 3]
  {
    assert n.ip[..4] == n.ip[..12][..4] == Zeros(4);
  }

  // ---------- Whole runs ----------

  /** The calls of `Allocate` for the domains `ds`, with `next` advancing the counter. */
  ghost function RunWith(next: Ip -> Ip, s: State, ds: seq<Domain>): State {
    if ds == [] then s
    else
      var t := RunWith(next, s, ds[..|ds| - 1]);
      Assigned(t, ds[|ds| - 1], Key(t.next), next(t.next))
  }

  ghost function Run(n: Network, ds: seq<Domain>): State
    requires IsIp(n.ip)
  {
    RunWith(NextIn(n), Init(n), ds)
  }

  lemma {:induction false} NextInRange(n: Network, ds: seq<Domain>)
    requires IsIp(n.ip)
    ensures 0 < |Run(n, ds).next| <= |n.ip|
  {
    if ds != [] {
      NextInRange(n, ds[..|ds| - 1]);
    } else {
      WireIpPresent(n.ip);
    }
  }

  /** Each call of a run does what the method does. */
  lemma RunSteps(n: Network, ds: seq<Domain>, d: Domain)
    requires IsIp(n.ip)
    ensures 0 < |Run(n, ds).next| <= |n.ip| && Run(n, ds + [d]) == Step(n, Run(n, ds), d)
  {
    NextInRange(n, ds);
    assert (ds + [d])[..|ds + [d]| - 1] == ds;
  }

  /** The distinct domains in the order of their first request. */
  ghost function Distinct(ds: seq<Domain>): (o: seq<Domain>)
    ensures forall d :: d in o <==> d in ds
    ensures forall i, j :: 0 <= i < j < |o| ==> o[i] != o[j]
  {
    if ds == [] then []
    else
      var o, d := Distinct(ds[..|ds| - 1]), ds[|ds| - 1];
      assert ds == ds[..|ds| - 1] + [d];
      if d in o then o else o + [d]
  }

  /** What the two maps and the counter hold once the distinct domains `o` have been requested, when the
      addresses recur after `c`. */
  ghost predicate Tabulates(addr: nat -> Ip, c: nat, s: State, o: seq<Domain>) {
    && s.next == addr(|o|)
    && (forall d :: d in s.forward <==> d in o)
    && (forall k :: 0 <= k < |o| ==> s.forward[o[k]] == addr(k))
    && (forall k :: 0 <= k < |o| <= k + c ==> addr(k) in s.reverse && s.reverse[addr(k)] == o[k])
    && (forall a <- s.reverse :: IsRecent(addr, c, |o|, a))
  }

  /** `a` is one of the last `c` of `m` readings. */
  ghost predicate IsRecent(addr: nat -> Ip, c: nat, m: nat, a: Ip) {
    exists k :: 0 <= k < m <= k + c && a == addr(k)
  }

  lemma FreshStep(addr: nat -> Ip, c: nat, s: State, o: seq<Domain>, d: Domain)
    requires IsCycle(addr, c) && Tabulates(addr, c, s, o) && d !in o
    ensures Tabulates(addr, c, Assigned(s, d, s.next, addr(|o| + 1)), o + [d])
  {
    ForwardKept(addr, c, s, o, d);
    RecentKept(addr, c, s, o, d);
    ReverseRecent(addr, c, s, o, d, Assigned(s, d, s.next, addr(|o| + 1)).reverse);
  }

  lemma ReverseRecent(addr: nat -> Ip, c: nat, s: State, o: seq<Domain>, d: Domain, reverse: map<Ip, Domain>)
    requires IsCycle(addr, c) && Tabulates(addr, c, s, o) && reverse.Keys <= s.reverse.Keys + {s.next}
    ensures forall a <- reverse :: IsRecent(addr, c, |o| + 1, a)
  {
    forall a | a in reverse ensures IsRecent(addr, c, |o| + 1, a) {
      StillRecent(addr, c, |o|, a);
    }
  }

  lemma ForwardKept(addr: nat -> Ip, c: nat, s: State, o: seq<Domain>, d: Domain)
    requires Tabulates(addr, c, s, o) && d !in o
    ensures var f, o' := Assigned(s, d, s.next, addr(|o| + 1)).forward, o + [d];
      && (forall e :: e in f <==> e in o')
      && (forall k :: 0 <= k < |o'| ==> f[o'[k]] == addr(k))
  {
  }

  lemma RecentKept(addr: nat -> Ip, c: nat, s: State, o: seq<Domain>, d: Domain)
    requires IsCycle(addr, c) && Tabulates(addr, c, s, o) && d !in o
    ensures var s' := Assigned(s, d, s.next, addr(|o| + 1));
      forall k :: 0 <= k < |o| + 1 <= k + c ==> addr(k) in s'.reverse && s'.reverse[addr(k)] == (o + [d])[k]
  {
    var m := |o|;
    forall k | 0 <= k < m < k + c ensures addr(k) != addr(m) {
    }
  }

  lemma StillRecent(addr: nat -> Ip, c: nat, m: nat, a: Ip)
    requires IsCycle(addr, c) && (IsRecent(addr, c, m, a) || a == addr(m))
    ensures IsRecent(addr, c, m + 1, a)
  {
    if a == addr(m) {
      assert 0 <= m < m + 1 <= m + c;
    } else {
      var k :| 0 <= k < m <= k + c && a == addr(k);
      assert addr(k + c) == addr(k);
      assert 0 <= k < m + 1 <= k + c;
    }
  }

  lemma {:induction false} RunTabulates(addr: nat -> Ip, c: nat, next: Ip -> Ip, s: State, ds: seq<Domain>)
    requires IsCycle(addr, c) && Follows(addr, next) && OwnKeys(addr)
    requires s == State(map[], map[], addr(0))
    ensures Tabulates(addr, c, RunWith(next, s, ds), Distinct(ds))
  {
    if ds != [] {
      var init, d := ds[..|ds| - 1], ds[|ds| - 1];
      RunTabulates(addr, c, next, s, init);
      var t, o := RunWith(next, s, init), Distinct(init);
      if d !in o {
        FreshStep(addr, c, t, o, d);
        assert addr(|o| + 1) == next(addr(|o|)) == next(t.next) && Key(t.next) == t.next;
      }
    }
  }

  /** The setting of the theorems below. */
  lemma RunShape(n: Network, ds: seq<Domain>) returns (addr: nat -> Ip)
    requires IsNet(n)
    ensures addr(0) == FirstIp(n) && CountsFrom(addr, ShapeOf(n)) && OwnKeys(addr)
    ensures IsCycle(addr, CycleLength(n)) && Tabulates(addr, CycleLength(n), Run(n, ds), Distinct(ds))
  {
    NetHasShape(n);
    addr := Readings(n, ShapeOf(n));
    RunTabulates(addr, CycleLength(n), NextIn(n), Init(n), ds);
  }

  /** The `k`-th distinct domain of any run has the first address plus k modulo the length of the cycle (modulo
      2^32, in the IPv4 network /0); up to a whole cycle of consecutive domains have pairwise distinct addresses. */
  lemma ClosedForm(n: Network, ds: seq<Domain>, k: nat)
    requires IsNet(n) && k < |Distinct(ds)|
    ensures Distinct(ds)[k] in Run(n, ds).forward
    ensures Value(Run(n, ds).forward[Distinct(ds)[k]])
         == Plus(Pow(256, |n.ip|), Value(FirstIp(n)), k % CycleLength(n))
    ensures forall j :: 0 <= j < k < j + CycleLength(n) ==>
      Distinct(ds)[j] in Run(n, ds).forward && Run(n, ds).forward[Distinct(ds)[j]] != Run(n, ds).forward[Distinct(ds)[k]]
  {
    var addr := RunShape(n, ds);
    FirstValue(n);
    TabulatedForm(addr, ShapeOf(n), Run(n, ds), Distinct(ds), k);
  }

  lemma FirstValue(n: Network)
    requires IsNet(n)
    ensures First(ShapeOf(n)) == Value(FirstIp(n)) && ShapeOf(n).all == Pow(256, |n.ip|)
  {
    NetHasShape(n);
  }

  lemma TabulatedForm(addr: nat -> Ip, h: Shape, s: State, o: seq<Domain>, k: nat)
    requires IsCycle(addr, Period(h)) && CountsFrom(addr, h) && Tabulates(addr, Period(h), s, o) && k < |o|
    ensures o[k] in s.forward && Value(s.forward[o[k]]) == Position(h, k % Period(h))
    ensures forall j :: 0 <= j < k < j + Period(h) ==> o[j] in s.forward && s.forward[o[j]] != s.forward[o[k]]
  {
    SlotIsMod(k, Period(h));
    forall j | 0 <= j < k < j + Period(h) ensures o[j] in s.forward && s.forward[o[j]] != s.forward[o[k]] {
      assert addr(j) != addr(k);
    }
  }

  /** An address of the network other than its own, the gateway's and the DNS server's. */
  ghost predicate IsHostOf(n: Network, a: Ip)
    requires IsIp(n.ip)
  {
    Contains(n, a) && a != n.ip && a != Gateway(n) && a != DnsIp(n)
  }

  lemma PositionInside(h: Shape, r: nat)
    requires Consistent(h) && (h.width == 16 || h.size < h.all) && Inside(h, First(h)) && r < Period(h)
    ensures Inside(h, Position(h, r)) && Position(h, r) == First(h) + r
  {
  }

  lemma CycleOfHosts(n: Network, h: Shape, r: nat, a: Ip)
    requires HasShape(n, h) && h.block == Value(n.ip[..|n.ip| - 1]) && (h.width == 16 || h.size < h.all)
    requires Inside(h, First(h)) && First(h) != h.base && r < Period(h) && |a| == h.width && Value(a) == Position(h, r)
    ensures IsHostOf(n, a)
  {
    PositionInside(h, r);
    WithLastValue(n.ip, 1);
    WithLastValue(n.ip, 2);
  }

  /** Every address in use is a reading of the counter. */
  lemma TabulatedAddress(addr: nat -> Ip, h: Shape, s: State, o: seq<Domain>, d: Domain) returns (r: nat)
    requires CountsFrom(addr, h) && Tabulates(addr, Period(h), s, o) && d in s.forward
    ensures r < Period(h) && |s.forward[d]| == h.width && Value(s.forward[d]) == Position(h, r)
  {
    var k :| 0 <= k < |o| && o[k] == d;
    assert s.forward[o[k]] == addr(k);
    r := Slot(k, Period(h));
  }

  lemma FirstIsHost(n: Network, h: Shape)
    requires HasShape(n, h) && Contains(n, FirstIp(n)) && FirstIp(n) != n.ip
    ensures Inside(h, First(h)) && First(h) != h.base
  {
    ValuesDiffer(FirstIp(n), n.ip);
  }

  lemma HostsOnly(n: Network, ds: seq<Domain>, d: Domain)
    requires IsNet(n) && (|n.ip| == 4 ==> n.prefix > 0)
    requires Contains(n, FirstIp(n)) && FirstIp(n) != n.ip && d in Run(n, ds).forward
    ensures IsHostOf(n, Run(n, ds).forward[d])
  {
    NetHasShape(n);
    FirstIsHost(n, ShapeOf(n));
    NotFull(n);
    var addr := RunShape(n, ds);
    var r := TabulatedAddress(addr, ShapeOf(n), Run(n, ds), Distinct(ds), d);
    CycleOfHosts(n, ShapeOf(n), r, Run(n, ds).forward[d]);
  }

  /** Any number of different domains. */
  lemma {:induction false} ManyDomains(k: nat) returns (ds: seq<Domain>)
    ensures |Distinct(ds)| == k && Distinct(ds) == ds && forall d <- ds :: |d| < k
  {
    ds := [];
    if k > 0 {
      var init := ManyDomains(k - 1);
      var d: Domain := seq(k - 1, _ => 'x');
      ds := init + [d];
      assert ds[..|ds| - 1] == init;
    }
  }

  lemma WholeSpace(n: Network)
    requires IsNet(n) && |n.ip| == 4 && n.prefix == 0
    ensures Value(n.ip) == 0 && CycleLength(n) == ALL_V4 == ShapeOf(n).all && First(ShapeOf(n)) < ALL_V4
  {
    NetConsistent(n);
    FullOnly(n);
    SpaceSizes();
  }

  /** In the IPv4 network /0 the counter comes round to the network's own address. */
  lemma WholeSpaceWraps(n: Network) returns (ds: seq<Domain>, d: Domain)
    requires IsNet(n) && |n.ip| == 4 && n.prefix == 0
    ensures d in Run(n, ds).forward && Run(n, ds).forward[d] == n.ip
  {
    WholeSpace(n);
    var k: nat := ALL_V4 - First(ShapeOf(n));
    ds := ManyDomains(k + 1);
    d := ds[k];
    var addr := RunShape(n, ds);
    ReadingWraps(addr, ShapeOf(n), k, n.ip);
  }

  lemma ReadingWraps(addr: nat -> Ip, h: Shape, k: nat, zero: Ip)
    requires Period(h) == h.all && First(h) < h.all && CountsFrom(addr, h) && k == h.all - First(h)
    requires |zero| == h.width && Value(zero) == 0
    ensures addr(k) == zero
  {
    SlotBack(k, h.all);
    ValueInjective(addr(k), zero);
  }

  /** No domain of any run is ever given the network's own, the gateway's or the DNS server's address, or one
      outside the network, if and only if the network is not the IPv4 network /0 and its first address
      lies in it and is not its own. */
  lemma NeverReservedIff(n: Network)
    requires IsNet(n)
    ensures (forall ds, d | d in Run(n, ds).forward :: IsHostOf(n, Run(n, ds).forward[d]))
       <==> (|n.ip| == 4 ==> n.prefix > 0) && Contains(n, FirstIp(n)) && FirstIp(n) != n.ip
  {
    if |n.ip| == 4 && n.prefix == 0 {
      var ds, d := WholeSpaceWraps(n);
      assert !IsHostOf(n, Run(n, ds).forward[d]);
    } else if Contains(n, FirstIp(n)) && FirstIp(n) != n.ip {
      forall ds, d | d in Run(n, ds).forward ensures IsHostOf(n, Run(n, ds).forward[d]) {
        HostsOnly(n, ds, d);
      }
    } else {
      FirstDomain(n, "x");
      assert !IsHostOf(n, Run(n, ["x"]).forward["x"]);
    }
  }

  lemma FirstDomain(n: Network, d: Domain)
    requires IsIp(n.ip)
    ensures d in Run(n, [d]).forward && Run(n, [d]).forward[d] == FirstIp(n)
  {
    assert [d][..0] == [];
    assert Run(n, []) == Init(n);
  }

  ghost predicate HasDomain(s: State, a: Ip) {
    exists d :: d in s.forward && Key(s.forward[d]) == Key(a)
  }

  /** The two maps agree on the address `a`: it is named if some domain has it, and by one that has it. */
  ghost predicate MapsAgree(s: State, a: Ip) {
    && (Named(s, a).Some? <==> HasDomain(s, a))
    && (Named(s, a).Some? ==> Named(s, a).value in s.forward && Key(s.forward[Named(s, a).value]) == Key(a))
  }

  /** In every network, IPv4 or IPv6: after any run exactly the addresses that some domain has are
      named, and each by a domain that has it. */
  lemma ReverseAgrees(n: Network, ds: seq<Domain>, a: Ip)
    requires IsIp(n.ip)
    ensures MapsAgree(Run(n, ds), a)
  {
    RunAgrees(NextIn(n), Init(n), ds, a);
  }

  lemma {:induction false} RunAgrees(next: Ip -> Ip, s: State, ds: seq<Domain>, a: Ip)
    requires MapsAgree(s, a)
    ensures MapsAgree(RunWith(next, s, ds), a)
  {
    if ds != [] {
      RunAgrees(next, s, ds[..|ds| - 1], a);
      var t, d := RunWith(next, s, ds[..|ds| - 1]), ds[|ds| - 1];
      if d !in t.forward {
        AssignAgrees(t, d, next(t.next), a);
      }
    }
  }

  lemma AssignAgrees(s: State, d: Domain, next: Ip, a: Ip)
    requires MapsAgree(s, a) && d !in s.forward
    ensures MapsAgree(Assigned(s, d, Key(s.next), next), a)
  {
    var s' := Assigned(s, d, Key(s.next), next);
    if Key(s.next) == Key(a) {
      assert d in s'.forward && Key(s'.forward[d]) == Key(a);
    } else {
      OldDomains(s, s', d, a);
    }
  }

  lemma OldDomains(s: State, s': State, d: Domain, a: Ip)
    requires d !in s.forward && s'.forward == s.forward[d := s.next] && Key(s.next) != Key(a)
    ensures HasDomain(s', a) <==> HasDomain(s, a)
  {
    if HasDomain(s', a) {
      var e :| e in s'.forward && Key(s'.forward[e]) == Key(a);
      assert e in s.forward && Key(s.forward[e]) == Key(a);
    }
    if HasDomain(s, a) {
      var e :| e in s.forward && Key(s.forward[e]) == Key(a);
      assert e in s'.forward && Key(s'.forward[e]) == Key(a);
    }
  }

  lemma {:induction false} RunKeeps(next: Ip -> Ip, s: State, ds: seq<Domain>, more: seq<Domain>, d: Domain)
    requires d in RunWith(next, s, ds).forward
    ensures var t, t' := RunWith(next, s, ds), RunWith(next, s, ds + more);
      d in t'.forward && t'.forward[d] == t.forward[d]
    decreases |more|
  {
    if more == [] {
      assert ds + more == ds;
    } else {
      RunKeeps(next, s, ds, more[..|more| - 1], d);
      assert (ds + more)[..|ds + more| - 1] == ds + more[..|more| - 1];
    }
  }

  /** A domain keeps its address for the rest of any run. */
  lemma AddressKept(n: Network, ds: seq<Domain>, more: seq<Domain>, d: Domain)
    requires IsIp(n.ip) && d in Run(n, ds).forward
    ensures d in Run(n, ds + more).forward && Run(n, ds + more).forward[d] == Run(n, ds).forward[d]
  {
    RunKeeps(NextIn(n), Init(n), ds, more, d);
  }

  /** The last of `m` readings that equals the `k`-th. */
  lemma LastReading(addr: nat -> Ip, c: nat, k: nat, m: nat) returns (j: nat)
    requires IsCycle(addr, c) && k < m
    ensures k <= j < m <= j + c && addr(j) == addr(k) && (j == k <==> m <= k + c)
    decreases m - k
  {
    j := k;
    if m > k + c {
      assert addr(k + c) == addr(k);
      j := LastReading(addr, c, k + c, m);
    }
  }

  /** What a domain's address names: the domain itself if and only if at most a cycle of distinct domains, it
      included, have come since; otherwise a later domain with the same address. */
  lemma NamedBackIff(n: Network, ds: seq<Domain>, k: nat)
    requires IsNet(n) && k < |Distinct(ds)| && Distinct(ds)[k] in Run(n, ds).forward
    ensures var s, o := Run(n, ds), Distinct(ds);
      && (Named(s, s.forward[o[k]]) == Some(o[k]) <==> |o| <= k + CycleLength(n))
      && exists j :: k <= j < |o| && Named(s, s.forward[o[k]]) == Some(o[j])
  {
    var addr := RunShape(n, ds);
    var j := LastReading(addr, CycleLength(n), k, |Distinct(ds)|);
  }

  ghost predicate Inverses(s: State) {
    forall d <- s.forward :: s.forward[d] in s.reverse && s.reverse[s.forward[d]] == d
  }

  /** The two maps are inverses of each other exactly as long as no more than a cycle of distinct domains
      has been requested. */
  lemma InversesIff(n: Network, ds: seq<Domain>)
    requires IsNet(n)
    ensures Inverses(Run(n, ds)) <==> |Distinct(ds)| <= CycleLength(n)
  {
    var addr := RunShape(n, ds);
    InversesWithin(addr, CycleLength(n), Run(n, ds), Distinct(ds));
  }

  lemma InversesWithin(addr: nat -> Ip, c: nat, s: State, o: seq<Domain>)
    requires IsCycle(addr, c) && Tabulates(addr, c, s, o)
    requires forall i, j :: 0 <= i < j < |o| ==> o[i] != o[j]
    ensures Inverses(s) <==> |o| <= c
  {
    if |o| <= c {
      forall d | d in s.forward ensures s.forward[d] in s.reverse && s.reverse[s.forward[d]] == d {
        var k :| 0 <= k < |o| && o[k] == d;
      }
    } else {
      // The domain a cycle before the last shares its address with the last, which `reverse` names.
      var k := |o| - 1 - c;
      assert addr(k + c) == addr(k);
      assert s.reverse[addr(k + c)] == o[k + c];
      assert o[k] in s.forward && s.forward[o[k]] == addr(k);
    }
  }
}
