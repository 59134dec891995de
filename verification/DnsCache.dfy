/** The DNS cache and the resolver it speeds up (dns/cache.go, dns/resolver.go). */
module DnsCache {
  import opened Bytes

  // Times are in nanoseconds.
  const DEFAULT_TTL := 5 * 60 * 1_000_000_000

  datatype CacheEntry = CacheEntry(ips: seq<Ip>, expiresAt: int)

  // ---------- The cache ----------

  function Stored(entries: map<string, CacheEntry>, ttl: int, key: string, ips: seq<Ip>, now: int): map<string, CacheEntry> {
    entries[key := CacheEntry(ips, now + ttl)]
  }

  function Found(entries: map<string, CacheEntry>, key: string, now: int): Option<seq<Ip>> {
    if key in entries && now <= entries[key].expiresAt then Some(entries[key].ips) else None
  }

  function Cleaned(entries: map<string, CacheEntry>, now: int): map<string, CacheEntry> {
    map k | k in entries && now <= entries[k].expiresAt :: entries[k]
  }

  class Cache {
    var entries: map<string, CacheEntry>
    const ttl: int

    constructor (ttl: int)
      ensures entries == map[] && this.ttl == (if ttl <= 0 then 300_000_000_000 else ttl) && this.ttl > 0
    {
      entries := map[];
      this.ttl := if ttl <= 0 then DEFAULT_TTL else ttl;
    }

    method Set(domain: string, ips: seq<Ip>, now: int)
      modifies this
      ensures entries == Stored(old(entries), ttl, domain, ips, now)
      ensures domain in entries && entries[domain].ips == ips && entries[domain].expiresAt == now + ttl
      ensures forall k :: k != domain ==> (k in entries <==> k in old(entries)) && (k in entries ==> entries[k] == old(entries)[k])
    {
      entries := entries[domain := CacheEntry(ips, now + ttl)];
    }

    method Get(domain: string, now: int) returns (r: Option<seq<Ip>>)
      ensures r == Found(entries, domain, now)
      ensures r.Some? <==> domain in entries && now <= entries[domain].expiresAt
      ensures r.Some? ==> r.value == entries[domain].ips
    {
      if domain !in entries {
        return None;
      }
      var entry := entries[domain];
      if now > entry.expiresAt {
        return None;
      }
      r := Some(entry.ips);
    }

    // One round of the cleanup goroutine.
    method Cleanup(now: int)
      modifies this
      ensures entries == Cleaned(old(entries), now)
      ensures forall k :: k in entries <==> k in old(entries) && now <= old(entries)[k].expiresAt
      ensures forall k <- entries :: entries[k] == old(entries)[k]
    {
      ghost var before := entries;
      var todo := entries.Keys;
      while todo != {}
        invariant todo <= before.Keys
        invariant entries == map k | k in before && (k in todo || now <= before[k].expiresAt) :: before[k]
      {
        var k :| k in todo;
        if now > entries[k].expiresAt {
          entries := entries - {k};
        }
        todo := todo - {k};
      }
    }
  }

  // ---------- Cleanup is invisible ----------

  datatype State = State(entries: map<string, CacheEntry>, now: int)

  datatype Event =
    | Tick(to: int)
    | Set(key: string, ips: seq<Ip>)
    | Get(key: string)
    | Cleanup

  function Apply(ttl: int, s: State, e: Event): State {
    match e
    case Tick(to) => if s.now <= to then s.(now := to) else s
    case Set(key, ips) => s.(entries := Stored(s.entries, ttl, key, ips, s.now))
    case Get(_) => s
    case Cleanup => s.(entries := Cleaned(s.entries, s.now))
  }

  /** The results of the `Get` calls of a run. */
  function Results(ttl: int, s: State, es: seq<Event>): seq<Option<seq<Ip>>>
    decreases es
  {
    if es == [] then []
    else
      (if es[0].Get? then [Found(s.entries, es[0].key, s.now)] else [])
      + Results(ttl, Apply(ttl, s, es[0]), es[1..])
  }

  function WithoutCleanup(es: seq<Event>): seq<Event>
    decreases es
  {
    if es == [] then []
    else if es[0].Cleanup? then WithoutCleanup(es[1..])
    else [es[0]] + WithoutCleanup(es[1..])
  }

  /** Two caches that agree now and from now on, as long as nothing is stored. */
  ghost predicate Agree(s: State, s': State) {
    s.now == s'.now && forall k, t :: s.now <= t ==> Found(s.entries, k, t) == Found(s'.entries, k, t)
  }

  lemma StepsAgree(ttl: int, s: State, s': State, e: Event)
    requires Agree(s, s')
    ensures Agree(Apply(ttl, s, e), Apply(ttl, s', e))
    ensures e.Cleanup? ==> Agree(Apply(ttl, s, e), s')
  {
    match e
    case Set(key, ips) =>
      forall k, t | s.now <= t
        ensures Found(Stored(s.entries, ttl, key, ips, s.now), k, t) == Found(Stored(s'.entries, ttl, key, ips, s.now), k, t)
      {
        assert k != key ==> Found(s.entries, k, t) == Found(s'.entries, k, t);
      }
    case Cleanup =>
      forall k, t | s.now <= t
        ensures Found(Cleaned(s.entries, s.now), k, t) == Found(s.entries, k, t)
        ensures Found(Cleaned(s'.entries, s.now), k, t) == Found(s'.entries, k, t)
      {
      }
    case _ =>
  }

  /** Cleanup rounds, wherever they fall in a run, change no result of `Get`. */
  lemma {:induction false} CleanupInvisible(ttl: int, s: State, s': State, es: seq<Event>)
    requires Agree(s, s')
    ensures Results(ttl, s, es) == Results(ttl, s', WithoutCleanup(es))
    decreases es
  {
    if es != [] {
      var e := es[0];
      StepsAgree(ttl, s, s', e);
      if e.Cleanup? {
        CleanupInvisible(ttl, Apply(ttl, s, e), s', es[1..]);
      } else {
        CleanupInvisible(ttl, Apply(ttl, s, e), Apply(ttl, s', e), es[1..]);
        assert Found(s.entries, if e.Get? then e.key else "", s.now) == Found(s'.entries, if e.Get? then e.key else "", s'.now);
        assert WithoutCleanup(es)[1..] == WithoutCleanup(es[1..]);
      }
    }
  }

  lemma CacheTransparent(ttl: int, s: State, es: seq<Event>)
    ensures Results(ttl, s, es) == Results(ttl, s, WithoutCleanup(es))
  {
    CleanupInvisible(ttl, s, s, es);
  }

  // ---------- Keys ----------

  function Digit(d: nat): (c: char)
    requires d < 10
    ensures c != ':'
  {
    ['0', '1', '2', '3', '4', '5', '6', '7', '8', '9'][d]
  }

  function Decimal(n: nat): (s: string)
    ensures s != [] && ':' !in s
    ensures |s| == 1 <==> n < 10
  {
    if n < 10 then [Digit(n)] else Decimal(n / 10) + [Digit(n % 10)]
  }

  /** The format "%s:%d". */
  function KeyText(domain: string, qtype: nat): string {
    domain + ":" + Decimal(qtype)
  }

  lemma {:induction false} DecimalInjective(m: nat, n: nat)
    requires Decimal(m) == Decimal(n)
    ensures m == n
  {
    var a, b := Decimal(m), Decimal(n);
    assert a[|a| - 1] == Digit(m % 10) && b[|b| - 1] == Digit(n % 10);
    assert m % 10 == n % 10;
    if m >= 10 && n >= 10 {
      assert a[..|a| - 1] == Decimal(m / 10) && b[..|b| - 1] == Decimal(n / 10);
      DecimalInjective(m / 10, n / 10);
    }
  }

  /** The number a string of decimal digits stands for. */
  function Number(s: string): nat {
    if s == [] then 0 else 10 * Number(s[..|s| - 1]) + if '0' <= s[|s| - 1] <= '9' then (s[|s| - 1] - '0') as nat else 0
  }

  /** The query type stands in the key in decimal, without leading zeros. */
  lemma {:induction false} DecimalReadsBack(n: nat)
    ensures Number(Decimal(n)) == n
    ensures forall c <- Decimal(n) :: '0' <= c <= '9'
    ensures Decimal(n)[0] == '0' ==> n == 0
  {
    if n >= 10 {
      DecimalReadsBack(n / 10);
      assert Decimal(n)[..|Decimal(n)| - 1] == Decimal(n / 10);
    }
  }

  /** Domain and query type can both be read off a key, colons in the domain or not. */
  lemma KeyInjective(d1: string, q1: nat, d2: string, q2: nat)
    requires KeyText(d1, q1) == KeyText(d2, q2)
    ensures d1 == d2 && q1 == q2
  {
    var k, a, b := KeyText(d1, q1), Decimal(q1), Decimal(q2);
    ColonPlace(d1, a, d2, b);
    ColonPlace(d2, b, d1, a);
    assert k[..|d1|] == d1 && k[..|d2|] == d2;
    assert k[|d1| + 1..] == a && k[|d2| + 1..] == b;
    DecimalInjective(q1, q2);
  }

  lemma ColonPlace(d: string, a: string, d': string, b: string)
    requires d + ":" + a == d' + ":" + b && ':' !in b
    ensures |d| <= |d'|
  {
    var k := d' + ":" + b;
    assert (d + ":" + a)[|d|] == ':';
    forall i | |d'| < i < |k| ensures k[i] != ':' {
      assert k[i] == b[i - |d'| - 1];
    }
  }

  // ---------- The caching resolver ----------

  /** One successful answer of the inner resolver, with the time it was stored. */
  datatype Answer = Answer(domain: string, qtype: nat, ips: seq<Ip>, at: int)

  /** Resolutions in flight have missed the cache and wait for the inner resolver. `answers` is the history
      of inner answers. */
  datatype Resolver = Resolver(entries: map<string, CacheEntry>, waiting: map<nat, (string, nat)>, answers: seq<Answer>, now: int)

  datatype Step =
    | Pass(to: int)
    | Ask(g: nat, domain: string, qtype: nat)
    | Answered(g: nat, ips: seq<Ip>)
    | Failed(g: nat)
    | Clean

  predicate Enabled(r: Resolver, st: Step) {
    match st
    case Pass(to) => r.now <= to
    case Ask(g, _, _) => g !in r.waiting
    case Answered(g, _) => g in r.waiting
    case Failed(g) => g in r.waiting
    case Clean => true
  }

  function Texts(ips: seq<Ip>): (t: seq<Ip>)
    ensures |t| == |ips| && forall i :: 0 <= i < |ips| ==> t[i] == Key(ips[i])
  {
    seq(|ips|, i requires 0 <= i < |ips| => Key(ips[i]))
  }

  function Parsed(texts: seq<Ip>): (t: seq<Ip>)
    ensures |t| == |texts| && forall i :: 0 <= i < |texts| ==> t[i] == To16(texts[i])
  {
    seq(|texts|, i requires 0 <= i < |texts| => To16(texts[i]))
  }

  /** What `Resolve` returns without asking the inner resolver. */
  function Hit(r: Resolver, domain: string, qtype: nat): Option<seq<Ip>> {
    match Found(r.entries, KeyText(domain, qtype), r.now)
    case Some(texts) => Some(Parsed(texts))
    case None => None
  }

  function Next(ttl: int, r: Resolver, st: Step): Resolver
    requires Enabled(r, st)
  {
    match st
    case Pass(to) => r.(now := to)
    case Ask(g, domain, qtype) =>
      if Hit(r, domain, qtype).Some? then r else r.(waiting := r.waiting[g := (domain, qtype)])
    case Answered(g, ips) =>
      var (domain, qtype) := r.waiting[g];
      Resolver(Stored(r.entries, ttl, KeyText(domain, qtype), Texts(ips), r.now), r.waiting - {g},
               r.answers + [Answer(domain, qtype, ips, r.now)], r.now)
    case Failed(g) => r.(waiting := r.waiting - {g})
    case Clean => r.(entries := Cleaned(r.entries, r.now))
  }

  /** `CacheResolver.Resolve`, with the inner resolver's answer and the times of the two cache accesses given. */
  method Resolve(cache: Cache, domain: string, qtype: nat, inner: Option<seq<Ip>>, asked: int, answered: int)
      returns (r: Option<seq<Ip>>)
    modifies cache
    ensures match Found(old(cache.entries), KeyText(domain, qtype), asked)
            case Some(texts) => r == Some(Parsed(texts)) && cache.entries == old(cache.entries)
            case None =>
              && r == inner
              && cache.entries == match inner
                 case Some(ips) => Stored(old(cache.entries), cache.ttl, KeyText(domain, qtype), Texts(ips), answered)
                 case None => old(cache.entries)
  {
    var key := KeyText(domain, qtype);
    var ips := cache.Get(key, asked);
    if ips.Some? {
      var result: seq<Ip> := [];
      for i := 0 to |ips.value|
        invariant result == Parsed(ips.value)[..i]
      {
        result := result + [To16(ips.value[i])];
      }
      assert Parsed(ips.value)[..|ips.value|] == Parsed(ips.value);
      return Some(result);
    }
    if inner == None {
      return None;
    }
    var strs: seq<Ip> := [];
    for i := 0 to |inner.value|
      invariant strs == Texts(inner.value)[..i]
    {
      strs := strs + [Key(inner.value[i])];
    }
    assert Texts(inner.value)[..|inner.value|] == Texts(inner.value);
    cache.Set(key, strs, answered);
    r := inner;
  }

  /** `a` is the last inner answer for its domain and query type. */
  ghost predicate IsLatest(answers: seq<Answer>, i: int) {
    && 0 <= i < |answers|
    && forall j :: i < j < |answers| ==> answers[j].domain != answers[i].domain || answers[j].qtype != answers[i].qtype
  }

  /** Every entry was made from the latest inner answer for some domain and query type. */
  ghost predicate Traced(ttl: int, r: Resolver) {
    && (forall a <- r.answers :: a.at <= r.now)
    && forall key <- r.entries :: exists i :: IsLatest(r.answers, i) && Backs(ttl, r.answers[i], key, r.entries[key])
  }

  ghost predicate Backs(ttl: int, a: Answer, key: string, e: CacheEntry) {
    key == KeyText(a.domain, a.qtype) && e == CacheEntry(Texts(a.ips), a.at + ttl)
  }

  lemma AnsweredTraced(ttl: int, r: Resolver, st: Step)
    requires Traced(ttl, r) && st.Answered? && Enabled(r, st)
    ensures Traced(ttl, Next(ttl, r, st))
  {
    var r' := Next(ttl, r, st);
    var (domain, qtype) := r.waiting[st.g];
    forall key | key in r'.entries
      ensures exists i :: IsLatest(r'.answers, i) && Backs(ttl, r'.answers[i], key, r'.entries[key])
    {
      if key == KeyText(domain, qtype) {
        assert IsLatest(r'.answers, |r.answers|) && Backs(ttl, r'.answers[|r.answers|], key, r'.entries[key]);
      } else {
        OlderTraced(ttl, r, Answer(domain, qtype, st.ips, r.now), key);
      }
    }
  }

  /** A newer answer under another key leaves the one behind `key` the latest of its kind. */
  lemma OlderTraced(ttl: int, r: Resolver, newer: Answer, key: string)
    requires Traced(ttl, r) && key in r.entries && key != KeyText(newer.domain, newer.qtype)
    ensures exists i :: IsLatest(r.answers + [newer], i) && Backs(ttl, (r.answers + [newer])[i], key, r.entries[key])
  {
    var i :| IsLatest(r.answers, i) && Backs(ttl, r.answers[i], key, r.entries[key]);
    assert (r.answers + [newer])[i] == r.answers[i];
    assert IsLatest(r.answers + [newer], i);
  }

  lemma StepTraced(ttl: int, r: Resolver, st: Step)
    requires Traced(ttl, r) && Enabled(r, st)
    ensures Traced(ttl, Next(ttl, r, st))
  {
    if st.Answered? {
      AnsweredTraced(ttl, r, st);
    }
  }

  ghost predicate Possible(ttl: int, r: Resolver, sts: seq<Step>)
    decreases sts
  {
    sts == [] || (Enabled(r, sts[0]) && Possible(ttl, Next(ttl, r, sts[0]), sts[1..]))
  }

  ghost function After(ttl: int, r: Resolver, sts: seq<Step>): Resolver
    requires Possible(ttl, r, sts)
    decreases sts
  {
    if sts == [] then r else After(ttl, Next(ttl, r, sts[0]), sts[1..])
  }

  lemma {:induction false} RunTraced(ttl: int, r: Resolver, sts: seq<Step>)
    requires Traced(ttl, r) && Possible(ttl, r, sts)
    ensures Traced(ttl, After(ttl, r, sts))
    decreases sts
  {
    if sts != [] {
      StepTraced(ttl, r, sts[0]);
      RunTraced(ttl, Next(ttl, r, sts[0]), sts[1..]);
    }
  }

  /** Whatever runs beside it, a resolution served from the cache returns, address for address, the latest
      answer of the inner resolver for the same domain and query type, at most `ttl` old. */
  lemma HitsAreRecentAnswers(ttl: int, start: int, sts: seq<Step>, domain: string, qtype: nat)
    requires Possible(ttl, Resolver(map[], map[], [], start), sts)
    requires Hit(After(ttl, Resolver(map[], map[], [], start), sts), domain, qtype).Some?
    ensures var r := After(ttl, Resolver(map[], map[], [], start), sts);
      exists i :: IsLatest(r.answers, i) && Serves(ttl, r.answers[i], domain, qtype, r.now, Hit(r, domain, qtype).value)
  {
    var r0 := Resolver(map[], map[], [], start);
    RunTraced(ttl, r0, sts);
    var r := After(ttl, r0, sts);
    var key := KeyText(domain, qtype);
    var i :| IsLatest(r.answers, i) && Backs(ttl, r.answers[i], key, r.entries[key]);
    var a := r.answers[i];
    KeyInjective(domain, qtype, a.domain, a.qtype);
    assert a in r.answers;
    forall j | 0 <= j < |a.ips| && IsIp(a.ips[j]) ensures Key(Hit(r, domain, qtype).value[j]) == Key(a.ips[j]) {
      To16KeepsAddress(a.ips[j]);
    }
    assert Serves(ttl, a, domain, qtype, r.now, Hit(r, domain, qtype).value);
  }

  ghost predicate Serves(ttl: int, a: Answer, domain: string, qtype: nat, now: int, result: seq<Ip>) {
    && a.domain == domain && a.qtype == qtype && a.at <= now <= a.at + ttl
    && |result| == |a.ips|
    && forall j :: 0 <= j < |a.ips| && IsIp(a.ips[j]) ==> Key(result[j]) == Key(a.ips[j])
  }

  lemma {:induction false} TimePasses(ttl: int, r: Resolver, sts: seq<Step>)
    requires Possible(ttl, r, sts)
    ensures r.now <= After(ttl, r, sts).now
    decreases sts
  {
    if sts != [] {
      TimePasses(ttl, Next(ttl, r, sts[0]), sts[1..]);
    }
  }

  /** No inner answer is stored under `key` during the run. */
  ghost predicate Undisturbed(ttl: int, r: Resolver, sts: seq<Step>, key: string)
    requires Possible(ttl, r, sts)
    decreases sts
  {
    sts == [] ||
    (&& (sts[0].Answered? ==> KeyText(r.waiting[sts[0].g].0, r.waiting[sts[0].g].1) != key)
     && Undisturbed(ttl, Next(ttl, r, sts[0]), sts[1..], key))
  }

  lemma {:induction false} EntryKept(ttl: int, r: Resolver, sts: seq<Step>, key: string, e: CacheEntry)
    requires Possible(ttl, r, sts) && Undisturbed(ttl, r, sts, key)
    requires key in r.entries && r.entries[key] == e && After(ttl, r, sts).now <= e.expiresAt
    ensures key in After(ttl, r, sts).entries && After(ttl, r, sts).entries[key] == e
    decreases sts
  {
    if sts != [] {
      TimePasses(ttl, r, sts);
      EntryKept(ttl, Next(ttl, r, sts[0]), sts[1..], key, e);
    }
  }

  /** The other direction: once an inner answer is stored, every resolution of the same domain and query type
      is served from it for `ttl`, through any cleanups, until a newer answer is stored. */
  lemma AnswersAreServed(ttl: int, r: Resolver, g: nat, ips: seq<Ip>, sts: seq<Step>)
    requires Enabled(r, Answered(g, ips)) && Possible(ttl, Next(ttl, r, Answered(g, ips)), sts)
    requires var (domain, qtype) := r.waiting[g];
      Undisturbed(ttl, Next(ttl, r, Answered(g, ips)), sts, KeyText(domain, qtype))
    requires After(ttl, Next(ttl, r, Answered(g, ips)), sts).now <= r.now + ttl
    ensures var (domain, qtype) := r.waiting[g];
      Hit(After(ttl, Next(ttl, r, Answered(g, ips)), sts), domain, qtype) == Some(Parsed(Texts(ips)))
  {
    var (domain, qtype) := r.waiting[g];
    EntryKept(ttl, Next(ttl, r, Answered(g, ips)), sts, KeyText(domain, qtype), CacheEntry(Texts(ips), r.now + ttl));
  }
}
