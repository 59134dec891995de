/** The pool of virtual IPs. `n2n/supernode.go` and `stunvpv/server.go` each have a copy of it. */
module IpPool {
  import opened Bytes

  // The text of a UDP address, "host:port" or "[host]:port": never longer than 47 bytes.
  type Addr = a: seq<byte> | |a| <= 47

  function Lease(base: Ip, i: byte): (ip: Ip)
    requires IsIp(base)
    ensures IsIp(ip)
  {
    base[|base| - 1 := i]
  }

  /** A host address of the network that `base` is in, from .10 to .254: only the last byte differs from `base`. */
  predicate IsHost(base: Ip, ip: Ip) {
    && 0 < |ip| == |base| && ip[..|ip| - 1] == base[..|base| - 1]
    && 10 <= ip[|ip| - 1] <= 254
  }

  lemma LeaseIsHost(base: Ip, i: byte)
    requires IsIp(base) && 10 <= i < 255
    ensures IsHost(base, Lease(base, i)) && Lease(base, i)[|base| - 1] == i
  {
  }

  lemma HostIsLease(base: Ip, ip: Ip)
    requires IsIp(base) && IsHost(base, ip)
    ensures ip == Lease(base, ip[|ip| - 1])
  {
    assert ip == ip[..|ip| - 1] + [ip[|ip| - 1]];
    assert Lease(base, ip[|ip| - 1]) == base[..|base| - 1] + [ip[|ip| - 1]];
  }

  /** `ip` is the lowest host address not in use. */
  ghost predicate IsLowestFree(base: Ip, used: set<Ip>, ip: Ip) {
    && IsHost(base, ip) && Key(ip) !in used
    && forall lower | IsHost(base, lower) && lower[|lower| - 1] < ip[|ip| - 1] :: Key(lower) in used
  }

  lemma FirstFreeIsLowest(base: Ip, used: set<Ip>)
    requires IsIp(base)
    ensures match FirstFree(base, used, 10)
            case Some(i) => IsLowestFree(base, used, Lease(base, i))
            case None => forall ip | IsHost(base, ip) :: Key(ip) in used
  {
    match FirstFree(base, used, 10)
    case Some(i) =>
      LeaseIsHost(base, i);
      forall ip | IsHost(base, ip) && ip[|ip| - 1] < i ensures Key(ip) in used {
        HostIsLease(base, ip);
        assert LeaseKey(base, ip[|ip| - 1]) in used;
      }
    case None =>
      forall ip | IsHost(base, ip) ensures Key(ip) in used {
        HostIsLease(base, ip);
        assert LeaseKey(base, ip[|ip| - 1]) in used;
      }
  }

  function LeaseKey(base: Ip, i: byte): (k: Ip)
    requires IsIp(base)
  {
    Key(Lease(base, i))
  }

  /** The 245 keys that can ever be leased, `hi` excluded. */
  ghost function PoolTo(base: Ip, hi: int): set<Ip>
    requires IsIp(base) && 10 <= hi <= 255
  {
    set i: byte | 10 <= i < hi :: LeaseKey(base, i)
  }

  ghost function Pool(base: Ip): set<Ip>
    requires IsIp(base)
  {
    PoolTo(base, 255)
  }

  lemma LeaseKeysDiffer(base: Ip, i: byte, j: byte)
    requires IsIp(base) && LeaseKey(base, i) == LeaseKey(base, j)
    ensures i == j
  {
    assert Lease(base, i)[|base| - 1] == i && Lease(base, j)[|base| - 1] == j;
    if |base| == 16 {
      assert Lease(base, i)[12..][3] == i && Lease(base, j)[12..][3] == j;
    }
  }

  lemma PoolGrows(base: Ip, hi: int)
    requires IsIp(base) && 10 < hi <= 255
    ensures PoolTo(base, hi) == PoolTo(base, hi - 1) + {LeaseKey(base, hi - 1)}
    ensures LeaseKey(base, hi - 1) !in PoolTo(base, hi - 1)
  {
    var last := LeaseKey(base, hi - 1);
    forall i: byte | 10 <= i < hi - 1 ensures LeaseKey(base, i) != last {
      if LeaseKey(base, i) == last {
        LeaseKeysDiffer(base, i, hi - 1);
      }
    }
  }

  lemma {:induction false} PoolSize(base: Ip, hi: int)
    requires IsIp(base) && 10 <= hi <= 255
    ensures |PoolTo(base, hi)| == hi - 10
  {
    if hi > 10 {
      PoolSize(base, hi - 1);
      PoolGrows(base, hi);
    } else {
      assert PoolTo(base, hi) == {};
    }
  }

  function FirstFree(base: Ip, used: set<Ip>, i: nat): (r: Option<byte>)
    requires IsIp(base) && 10 <= i <= 255
    ensures r.Some? ==> i <= r.value < 255 && LeaseKey(base, r.value) !in used
    ensures r.Some? ==> forall j: byte :: i <= j < r.value ==> LeaseKey(base, j) in used
    ensures r.None? ==> forall j: byte :: i <= j < 255 ==> LeaseKey(base, j) in used
    decreases 255 - i
  {
    if i == 255 then None
    else if LeaseKey(base, i) !in used then Some(i)
    else FirstFree(base, used, i + 1)
  }

  /** A registration is refused for want of an address exactly when the whole pool is leased. */
  lemma ExhaustedIff(base: Ip, used: set<Ip>)
    requires IsIp(base)
    ensures FirstFree(base, used, 10) == None <==> Pool(base) <= used
  {
    var r := FirstFree(base, used, 10);
    if r.Some? {
      assert LeaseKey(base, r.value) in Pool(base);
    }
  }

  class IpAllocator {
    const base: Ip
    var used: set<Ip>

    constructor (base: Ip)
      ensures this.base == base && used == {}
    {
      this.base := base;
      used := {};
    }

    method Allocate() returns (r: Option<Ip>)
      requires IsIp(base)
      modifies this
      ensures match FirstFree(base, old(used), 10)
              case None => r == None && used == old(used)
              case Some(i) => r == Some(Lease(base, i)) && used == old(used) + {LeaseKey(base, i)}
      ensures r.Some? ==> IsLowestFree(base, old(used), r.value) && used == old(used) + {Key(r.value)}
      ensures r.None? ==> used == old(used) && forall ip | IsHost(base, ip) :: Key(ip) in used
    {
      FirstFreeIsLowest(base, used);
      for i := 10 to 255
        invariant used == old(used)
        invariant FirstFree(base, used, 10) == FirstFree(base, used, i)
      {
        var ip := base[|base| - 1 := i];
        var key := Key(ip);
        if key !in used {
          used := used + {key};
          return Some(ip);
        }
      }
      r := None;
    }

    method Release(ip: Ip)
      modifies this
      ensures used == old(used) - {Key(ip)}
    {
      used := used - {Key(ip)};
    }
  }
}
