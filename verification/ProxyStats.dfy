/** Per-proxy traffic counters under concurrent use (web/stats.go).

    A pointer to a counter record is its index in `records`, the sequence of all records ever allocated. */
module ProxyStats {
  import Bytes

  type Name = string

  datatype Counters = Counters(upload: int, download: int, connections: int)

  datatype Add = Up(n: int) | Down(n: int) | Conns(n: int)

  datatype Shared = Shared(stats: map<Name, nat>, records: seq<Counters>)

  /** int64 arithmetic wraps. */
  function Wrap64(x: int): int {
    (x + 0x8000_0000_0000_0000) % 0x1_0000_0000_0000_0000 - 0x8000_0000_0000_0000
  }

  /** The one int64 that differs from `x` by a multiple of 2^64. */
  lemma WrapExact(x: int)
    ensures -0x8000_0000_0000_0000 <= Wrap64(x) < 0x8000_0000_0000_0000
    ensures (x - Wrap64(x)) % 0x1_0000_0000_0000_0000 == 0
  {
    var m := 0x1_0000_0000_0000_0000;
    var q := (x + 0x8000_0000_0000_0000) / m;
    assert x - Wrap64(x) == m * q;
  }

  lemma WrapAdd(a: int, b: int)
    ensures Wrap64(Wrap64(a) + b) == Wrap64(a + b)
  {
    var m := 0x1_0000_0000_0000_0000;
    var q := (a + 0x8000_0000_0000_0000) / m;
    assert Wrap64(a) == a - m * q;
  }

  function Plus(c: Counters, a: Add): Counters {
    match a
    case Up(n) => c.(upload := c.upload + n)
    case Down(n) => c.(download := c.download + n)
    case Conns(n) => c.(connections := c.connections + n)
  }

  /** An atomic add to one of the counters. */
  function Bumped(c: Counters, a: Add): Counters {
    match a
    case Up(n) => c.(upload := Wrap64(c.upload + n))
    case Down(n) => c.(download := Wrap64(c.download + n))
    case Conns(n) => c.(connections := Wrap64(c.connections + n))
  }

  function Wrapped(c: Counters): Counters {
    Counters(Wrap64(c.upload), Wrap64(c.download), Wrap64(c.connections))
  }

  // ---------- The three atomic sections ----------

  /** The write-locked part of `getOrCreate`. */
  function Created(sh: Shared, name: Name): Shared {
    if name in sh.stats then sh
    else Shared(sh.stats[name := |sh.records|], sh.records + [Counters(0, 0, 0)])
  }

  /** An atomic add to one record. */
  function Added(sh: Shared, ref: nat, a: Add): Shared {
    if ref < |sh.records| then sh.(records := sh.records[ref := Bumped(sh.records[ref], a)]) else sh
  }

  /** The record of a name, zero if it has none. */
  function RecordOf(sh: Shared, name: Name): Counters {
    if name in sh.stats && sh.stats[name] < |sh.records| then sh.records[sh.stats[name]] else Counters(0, 0, 0)
  }

  /** `name` has a record, and the other names are as before. */
  ghost predicate OnlyChanges(sh: Shared, sh': Shared, name: Name) {
    && sh'.stats.Keys == sh.stats.Keys + {name}
    && forall n: Name | n != name :: RecordOf(sh', n) == RecordOf(sh, n)
  }

  /** Every name has a record of its own. */
  ghost predicate Apart(sh: Shared) {
    && (forall n <- sh.stats :: sh.stats[n] < |sh.records|)
    && (forall n <- sh.stats, m <- sh.stats :: n != m ==> sh.stats[n] != sh.stats[m])
  }

  lemma CreatedApart(sh: Shared, name: Name)
    requires Apart(sh)
    ensures Apart(Created(sh, name)) && name in Created(sh, name).stats
  {
  }

  lemma CreatedChanges(sh: Shared, name: Name)
    requires forall n <- sh.stats :: sh.stats[n] < |sh.records|
    ensures var sh' := Created(sh, name);
      OnlyChanges(sh, sh', name) && RecordOf(sh', name) == RecordOf(sh, name)
  {
    forall n: Name ensures RecordOf(Created(sh, name), n) == RecordOf(sh, n) {
    }
  }

  lemma AddedChanges(sh: Shared, name: Name, a: Add)
    requires Apart(sh) && name in sh.stats
    ensures var sh', c, c' := Added(sh, sh.stats[name], a), RecordOf(sh, name), RecordOf(Added(sh, sh.stats[name], a), name);
      && Apart(sh') && sh'.stats == sh.stats && OnlyChanges(sh, sh', name)
      && c'.upload == (if a.Up? then Wrap64(c.upload + a.n) else c.upload)
      && c'.download == (if a.Down? then Wrap64(c.download + a.n) else c.download)
      && c'.connections == (if a.Conns? then Wrap64(c.connections + a.n) else c.connections)
  {
  }

  lemma TrafficChanges(sh: Shared, name: Name, up: int, down: int)
    requires Apart(sh)
    ensures var sh0 := Created(sh, name);
      && name in sh0.stats
      && var sh' := Added(Added(sh0, sh0.stats[name], Up(up)), sh0.stats[name], Down(down));
         var c, c' := RecordOf(sh, name), RecordOf(sh', name);
         && OnlyChanges(sh, sh', name) && Apart(sh')
         && c'.upload == Wrap64(c.upload + up) && c'.download == Wrap64(c.download + down)
         && c'.connections == c.connections
  {
    CreatedApart(sh, name);
    CreatedChanges(sh, name);
    var sh0 := Created(sh, name);
    AddedChanges(sh0, name, Up(up));
    AddedChanges(Added(sh0, sh0.stats[name], Up(up)), name, Down(down));
  }

  lemma ConnectionChanges(sh: Shared, name: Name, n: int)
    requires Apart(sh)
    ensures var sh0 := Created(sh, name);
      && name in sh0.stats
      && var sh' := Added(sh0, sh0.stats[name], Conns(n));
         var c, c' := RecordOf(sh, name), RecordOf(sh', name);
         && OnlyChanges(sh, sh', name) && Apart(sh')
         && c'.upload == c.upload && c'.download == c.download && c'.connections == Wrap64(c.connections + n)
  {
    CreatedApart(sh, name);
    CreatedChanges(sh, name);
    AddedChanges(Created(sh, name), name, Conns(n));
  }

  class StatsTracker {
    var stats: map<Name, nat>
    var records: seq<Counters>

    ghost predicate Valid()
      reads this
    {
      && (forall n <- stats :: stats[n] < |records|)
      && (forall n <- stats, m <- stats :: n != m ==> stats[n] != stats[m])
    }

    ghost function Now(): Shared
      reads this
    {
      Shared(stats, records)
    }

    constructor ()
      ensures Valid() && Now() == Shared(map[], [])
    {
      stats := map[];
      records := [];
    }

    // The read-locked lookup.
    method LookUpRecord(name: Name) returns (ref: nat, ok: bool)
      requires Valid()
      ensures ok == (name in stats) && (ok ==> ref == stats[name])
    {
      ref := 0;
      ok := name in stats;
      if ok {
        ref := stats[name];
      }
    }

    // The write-locked section, which looks again before it creates.
    method CreateRecord(name: Name) returns (ref: nat)
      requires Valid()
      modifies this
      ensures Valid() && Now() == Created(old(Now()), name)
      ensures name in stats && ref == stats[name]
    {
      if name in stats {
        return stats[name];
      }
      ref := |records|;
      records := records + [Counters(0, 0, 0)];
      stats := stats[name := ref];
    }

    method GetOrCreate(name: Name) returns (ref: nat)
      requires Valid()
      modifies this
      ensures Valid() && Now() == Created(old(Now()), name)
      ensures name in stats && ref == stats[name]
    {
      var ok: bool;
      ref, ok := LookUpRecord(name);
      if !ok {
        ref := CreateRecord(name);
      }
    }

    method AtomicAdd(ref: nat, a: Add)
      requires Valid() && ref < |records|
      modifies this`records
      ensures Valid() && Now() == Added(old(Now()), ref, a)
    {
      var c := records[ref];
      match a {
        case Up(n) => c := c.(upload := Wrap64(c.upload + n));
        case Down(n) => c := c.(download := Wrap64(c.download + n));
        case Conns(n) => c := c.(connections := Wrap64(c.connections + n));
      }
      records := records[ref := c];
    }

    method RecordTraffic(name: Name, up: int, down: int)
      requires Valid()
      modifies this
      ensures Valid()
      ensures var sh := Created(old(Now()), name);
        name in sh.stats && Now() == Added(Added(sh, sh.stats[name], Up(up)), sh.stats[name], Down(down))
      ensures OnlyChanges(old(Now()), Now(), name)
      ensures var c, c' := RecordOf(old(Now()), name), RecordOf(Now(), name);
        && c'.upload == Wrap64(c.upload + up) && c'.download == Wrap64(c.download + down)
        && c'.connections == c.connections
    {
      TrafficChanges(Now(), name, up, down);
      var ref := GetOrCreate(name);
      AtomicAdd(ref, Up(up));
      AtomicAdd(ref, Down(down));
    }

    method AddConnection(name: Name)
      requires Valid()
      modifies this
      ensures Valid() && var sh := Created(old(Now()), name); Now() == Added(sh, sh.stats[name], Conns(1))
      ensures OnlyChanges(old(Now()), Now(), name)
      ensures var c, c' := RecordOf(old(Now()), name), RecordOf(Now(), name);
        && c'.upload == c.upload && c'.download == c.download
        && c'.connections == Wrap64(c.connections + 1)
    {
      ConnectionChanges(Now(), name, 1);
      var ref := GetOrCreate(name);
      AtomicAdd(ref, Conns(1));
    }

    method RemoveConnection(name: Name)
      requires Valid()
      modifies this
      ensures Valid() && var sh := Created(old(Now()), name); Now() == Added(sh, sh.stats[name], Conns(-1))
      ensures OnlyChanges(old(Now()), Now(), name)
      ensures var c, c' := RecordOf(old(Now()), name), RecordOf(Now(), name);
        && c'.upload == c.upload && c'.download == c.download
        && c'.connections == Wrap64(c.connections - 1)
    {
      ConnectionChanges(Now(), name, -1);
      var ref := GetOrCreate(name);
      AtomicAdd(ref, Conns(-1));
    }

    method GetStats() returns (result: map<Name, Counters>)
      requires Valid()
      ensures result == map n | n in stats :: records[stats[n]]
    {
      result := map[];
      var todo := stats.Keys;
      while todo != {}
        invariant todo <= stats.Keys
        invariant result == map n | n in stats.Keys - todo :: records[stats[n]]
      {
        var name :| name in todo;
        result := result[name := records[stats[name]]];
        todo := todo - {name};
      }
    }
  }

  // ---------- Interleavings ----------

  /** A call in flight: it missed the read-locked lookup, or it has its record and adds still to perform. */
  datatype Call =
    | Missed(name: Name, adds: seq<Add>)
    | Holding(name: Name, ref: nat, adds: seq<Add>)

  datatype State = State(sh: Shared, calls: map<nat, Call>)

  datatype Event =
    | LookUp(g: nat, name: Name, adds: seq<Add>)
    | Create(g: nat)
    | Perform(g: nat)

  const INIT := State(Shared(map[], []), map[])

  predicate Enabled(s: State, e: Event) {
    match e
    case LookUp(g, _, _) => g !in s.calls
    case Create(g) => g in s.calls && s.calls[g].Missed?
    case Perform(g) => g in s.calls && s.calls[g].Holding? && s.calls[g].adds != []
  }

  function Apply(s: State, e: Event): State
    requires Enabled(s, e)
  {
    match e
    case LookUp(g, name, adds) =>
      s.(calls := s.calls[g := if name in s.sh.stats then Holding(name, s.sh.stats[name], adds) else Missed(name, adds)])
    case Create(g) =>
      var c, sh := s.calls[g], Created(s.sh, s.calls[g].name);
      State(sh, s.calls[g := Holding(c.name, sh.stats[c.name], c.adds)])
    case Perform(g) =>
      var c := s.calls[g];
      State(Added(s.sh, c.ref, c.adds[0]), s.calls[g := c.(adds := c.adds[1..])])
  }

  ghost predicate Possible(s: State, es: seq<Event>)
    decreases es
  {
    es == [] || (Enabled(s, es[0]) && Possible(Apply(s, es[0]), es[1..]))
  }

  ghost function After(s: State, es: seq<Event>): State
    requires Possible(s, es)
    decreases es
  {
    if es == [] then s else After(Apply(s, es[0]), es[1..])
  }

  /** What one step adds to the log of completed adds. */
  ghost function Logged(s: State, e: Event): seq<(Name, Add)>
    requires Enabled(s, e)
  {
    if e.Perform? then [(s.calls[e.g].name, s.calls[e.g].adds[0])] else []
  }

  /** The adds completed in a run, each with the proxy name it was called for. */
  ghost function Completed(s: State, es: seq<Event>): seq<(Name, Add)>
    requires Possible(s, es)
    decreases es
  {
    if es == [] then [] else Logged(s, es[0]) + Completed(Apply(s, es[0]), es[1..])
  }

  /** The sum, without any wrapping, of the adds for one name. */
  ghost function Total(log: seq<(Name, Add)>, name: Name): Counters {
    if log == [] then Counters(0, 0, 0)
    else
      var (n, a) := log[|log| - 1];
      var t := Total(log[..|log| - 1], name);
      if n == name then Plus(t, a) else t
  }

  /** The sums of what was added under a name to each of the three counters. */
  ghost function Uploaded(log: seq<(Name, Add)>, name: Name): int {
    if log == [] then 0
    else
      var (n, a) := log[|log| - 1];
      Uploaded(log[..|log| - 1], name) + if n == name && a.Up? then a.n else 0
  }

  ghost function Downloaded(log: seq<(Name, Add)>, name: Name): int {
    if log == [] then 0
    else
      var (n, a) := log[|log| - 1];
      Downloaded(log[..|log| - 1], name) + if n == name && a.Down? then a.n else 0
  }

  ghost function Connected(log: seq<(Name, Add)>, name: Name): int {
    if log == [] then 0
    else
      var (n, a) := log[|log| - 1];
      Connected(log[..|log| - 1], name) + if n == name && a.Conns? then a.n else 0
  }

  lemma {:induction false} TotalSums(log: seq<(Name, Add)>, name: Name)
    ensures Total(log, name).upload == Uploaded(log, name)
    ensures Total(log, name).download == Downloaded(log, name)
    ensures Total(log, name).connections == Connected(log, name)
  {
    if log != [] {
      TotalSums(log[..|log| - 1], name);
    }
  }

  /** One record per name and no others. */
  ghost predicate Indexed(sh: Shared) {
    && (forall n <- sh.stats :: sh.stats[n] < |sh.records|)
    && (forall n <- sh.stats, m <- sh.stats :: n != m ==> sh.stats[n] != sh.stats[m])
    && |sh.records| == |sh.stats|
  }

  /** Each record holds the wrapped sum for its name. */
  ghost predicate Tallied(sh: Shared, log: seq<(Name, Add)>)
    requires Indexed(sh)
  {
    && (forall n <- sh.stats :: sh.records[sh.stats[n]] == Wrapped(Total(log, n)))
    && (forall n :: n !in sh.stats ==> Total(log, n) == Counters(0, 0, 0))
  }

  ghost predicate Inv(s: State, log: seq<(Name, Add)>) {
    && Indexed(s.sh) && Tallied(s.sh, log)
    && (forall g <- s.calls :: s.calls[g].Holding? ==>
          s.calls[g].name in s.sh.stats && s.calls[g].ref == s.sh.stats[s.calls[g].name])
  }

  lemma TotalSnoc(log: seq<(Name, Add)>, n: Name, a: Add, name: Name)
    ensures Total(log + [(n, a)], name) == if n == name then Plus(Total(log, name), a) else Total(log, name)
  {
    assert (log + [(n, a)])[..|log|] == log;
  }

  lemma WrappedPlus(c: Counters, a: Add)
    ensures Bumped(Wrapped(c), a) == Wrapped(Plus(c, a))
  {
    match a
    case Up(n) => WrapAdd(c.upload, n);
    case Down(n) => WrapAdd(c.download, n);
    case Conns(n) => WrapAdd(c.connections, n);
  }

  lemma PerformKeepsInv(s: State, g: nat, log: seq<(Name, Add)>)
    requires Inv(s, log) && Enabled(s, Perform(g))
    ensures Inv(Apply(s, Perform(g)), log + [(s.calls[g].name, s.calls[g].adds[0])])
  {
    var c := s.calls[g];
    forall n ensures Total(log + [(c.name, c.adds[0])], n)
                  == if n == c.name then Plus(Total(log, n), c.adds[0]) else Total(log, n) {
      TotalSnoc(log, c.name, c.adds[0], n);
    }
    WrappedPlus(Total(log, c.name), c.adds[0]);
  }

  lemma CreatedIndexed(sh: Shared, name: Name)
    requires Indexed(sh)
    ensures Indexed(Created(sh, name))
  {
    if name !in sh.stats {
      assert |sh.stats[name := |sh.records|]| == |sh.stats| + 1;
    }
  }

  lemma ZeroWraps()
    ensures Wrapped(Counters(0, 0, 0)) == Counters(0, 0, 0)
  {
  }

  lemma CreatedTallied(sh: Shared, name: Name, log: seq<(Name, Add)>)
    requires Indexed(sh) && Tallied(sh, log) && name !in sh.stats && Indexed(Created(sh, name))
    ensures Tallied(Created(sh, name), log)
  {
    CreatedHolds(sh, name);
    ZeroWraps();
  }

  /** A new name starts at zero and leaves the others as they are. */
  lemma CreatedHolds(sh: Shared, name: Name)
    requires Indexed(sh) && name !in sh.stats
    ensures var sh' := Created(sh, name);
      && sh'.stats.Keys == sh.stats.Keys + {name} && |sh'.records| == |sh.records| + 1
      && sh'.stats[name] == |sh.records| && sh'.records[|sh.records|] == Counters(0, 0, 0)
      && forall n <- sh.stats :: sh'.stats[n] == sh.stats[n] && sh'.records[sh.stats[n]] == sh.records[sh.stats[n]]
  {
  }

  lemma CreateKeepsInv(s: State, g: nat, log: seq<(Name, Add)>)
    requires Inv(s, log) && Enabled(s, Create(g))
    ensures Inv(Apply(s, Create(g)), log)
  {
    CreatedIndexed(s.sh, s.calls[g].name);
    if s.calls[g].name !in s.sh.stats {
      CreatedTallied(s.sh, s.calls[g].name, log);
    }
  }

  lemma StepKeepsInv(s: State, e: Event, log: seq<(Name, Add)>)
    requires Inv(s, log) && Enabled(s, e)
    ensures Inv(Apply(s, e), log + Logged(s, e))
  {
    assert log + [] == log;
    match e
    case LookUp(_, _, _) =>
    case Create(g) => CreateKeepsInv(s, g, log);
    case Perform(g) => PerformKeepsInv(s, g, log);
  }

  lemma {:induction false} RunKeepsInv(s: State, es: seq<Event>, log: seq<(Name, Add)>)
    requires Inv(s, log) && Possible(s, es)
    ensures Inv(After(s, es), log + Completed(s, es))
    decreases es
  {
    if es == [] {
      assert log + [] == log;
    } else {
      var s', logged := Apply(s, es[0]), Logged(s, es[0]);
      StepKeepsInv(s, es[0], log);
      RunKeepsInv(s', es[1..], log + logged);
      Bytes.Associate(log, logged, Completed(s', es[1..]));
    }
  }

  /** No count is lost in any interleaving: there is exactly one record for each name known, and each of its
      counters is the sum of what was added to it for that name (modulo 2^64, as an int64); a name unknown
      has had nothing added. */
  lemma CountsExact(es: seq<Event>, name: Name)
    requires Possible(INIT, es)
    ensures var sh, log := After(INIT, es).sh, Completed(INIT, es);
      && |sh.records| == |sh.stats|
      && (name in sh.stats ==>
            && sh.stats[name] < |sh.records|
            && sh.records[sh.stats[name]].upload == Wrap64(Uploaded(log, name))
            && sh.records[sh.stats[name]].download == Wrap64(Downloaded(log, name))
            && sh.records[sh.stats[name]].connections == Wrap64(Connected(log, name)))
      && (name !in sh.stats ==> Uploaded(log, name) == Downloaded(log, name) == Connected(log, name) == 0)
      && (forall n <- sh.stats :: n != name && name in sh.stats ==> sh.stats[n] != sh.stats[name])
  {
    assert Inv(INIT, []);
    RunKeepsInv(INIT, es, []);
    assert [] + Completed(INIT, es) == Completed(INIT, es);
    TotalSums(Completed(INIT, es), name);
  }

  /** Without overflow the counter is the sum itself, and only then. */
  lemma UnwrappedIff(x: int)
    ensures Wrap64(x) == x <==> -0x8000_0000_0000_0000 <= x < 0x8000_0000_0000_0000
  {
  }

  /** A record, once created for a name, is never replaced. */
  lemma {:induction false} NeverReplaced(s: State, es: seq<Event>, name: Name)
    requires Possible(s, es) && name in s.sh.stats
    ensures name in After(s, es).sh.stats && After(s, es).sh.stats[name] == s.sh.stats[name]
    decreases es
  {
    if es != [] {
      NeverReplaced(Apply(s, es[0]), es[1..], name);
    }
  }

  // ---------- A report read counter by counter ----------

  datatype Field = Upload | Download | Connections

  function Counter(c: Counters, f: Field): int {
    match f
    case Upload => c.upload
    case Download => c.download
    case Connections => c.connections
  }

  /** During `GetStats` one atomic load follows the other, with the steps of other goroutines between them; the
      read lock keeps records from being created. */
  datatype Moment = Load(name: Name, field: Field) | Beside(e: Event)

  ghost predicate PossibleReading(s: State, ms: seq<Moment>)
    decreases ms
  {
    ms == [] ||
    match ms[0]
    case Load(name, _) => name in s.sh.stats && PossibleReading(s, ms[1..])
    case Beside(e) => Enabled(s, e) && !e.Create? && PossibleReading(Apply(s, e), ms[1..])
  }

  ghost function Others(ms: seq<Moment>): seq<Event>
    decreases ms
  {
    if ms == [] then [] else if ms[0].Beside? then [ms[0].e] + Others(ms[1..]) else Others(ms[1..])
  }

  function Loaded(sh: Shared, name: Name, f: Field): int {
    if name in sh.stats && sh.stats[name] < |sh.records| then Counter(sh.records[sh.stats[name]], f) else 0
  }

  /** What the call reports, having collected `r` before. */
  ghost function Report(s: State, ms: seq<Moment>, r: map<(Name, Field), int>): map<(Name, Field), int>
    requires PossibleReading(s, ms)
    decreases ms
  {
    if ms == [] then r
    else
      match ms[0]
      case Load(name, f) => Report(s, ms[1..], r[(name, f) := Loaded(s.sh, name, f)])
      case Beside(e) => Report(Apply(s, e), ms[1..], r)
  }

  ghost function SumOf(log: seq<(Name, Add)>, name: Name, f: Field): int {
    match f
    case Upload => Uploaded(log, name)
    case Download => Downloaded(log, name)
    case Connections => Connected(log, name)
  }

  /** `v` is the sum of the adds for `name` in `log` and those completed in the run `es`. */
  ghost predicate IsSum(s: State, log: seq<(Name, Add)>, es: seq<Event>, name: Name, f: Field, v: int) {
    Possible(s, es) && v == Wrap64(SumOf(log + Completed(s, es), name, f))
  }

  /** `v` is the sum at some moment of the run. */
  ghost predicate WasSum(s: State, log: seq<(Name, Add)>, es: seq<Event>, name: Name, f: Field, v: int) {
    exists k :: 0 <= k <= |es| && IsSum(s, log, es[..k], name, f, v)
  }

  lemma SumNow(s: State, log: seq<(Name, Add)>, es: seq<Event>, name: Name, f: Field)
    requires Inv(s, log) && name in s.sh.stats
    ensures WasSum(s, log, es, name, f, Loaded(s.sh, name, f))
  {
    assert es[..0] == [] && log + [] == log;
    TotalSums(log, name);
    assert IsSum(s, log, es[..0], name, f, Loaded(s.sh, name, f));
  }

  lemma SumLater(s: State, log: seq<(Name, Add)>, e: Event, es: seq<Event>, name: Name, f: Field, v: int)
    requires Enabled(s, e) && WasSum(Apply(s, e), log + Logged(s, e), es, name, f, v)
    ensures WasSum(s, log, [e] + es, name, f, v)
  {
    var s', logged := Apply(s, e), Logged(s, e);
    var k :| 0 <= k <= |es| && IsSum(s', log + logged, es[..k], name, f, v);
    var fs := ([e] + es)[..k + 1];
    assert fs[0] == e && fs[1..] == es[..k];
    Bytes.Associate(log, logged, Completed(s', es[..k]));
    assert IsSum(s, log, fs, name, f, v);
  }

  lemma {:induction false} LoadsAreSums(s: State, log: seq<(Name, Add)>, ms: seq<Moment>, r: map<(Name, Field), int>,
                                        name: Name, f: Field)
    requires Inv(s, log) && PossibleReading(s, ms) && (name, f) in Report(s, ms, r)
    ensures var v := Report(s, ms, r)[(name, f)];
      ((name, f) in r && v == r[(name, f)]) || WasSum(s, log, Others(ms), name, f, v)
    decreases ms
  {
    if ms != [] {
      match ms[0]
      case Load(n, g) =>
        LoadsAreSums(s, log, ms[1..], r[(n, g) := Loaded(s.sh, n, g)], name, f);
        SumNow(s, log, Others(ms), n, g);
      case Beside(e) =>
        StepKeepsInv(s, e, log);
        LoadsAreSums(Apply(s, e), log + Logged(s, e), ms[1..], r, name, f);
        var v := Report(s, ms, r)[(name, f)];
        if WasSum(Apply(s, e), log + Logged(s, e), Others(ms[1..]), name, f, v) {
          SumLater(s, log, e, Others(ms[1..]), name, f, v);
        }
    }
  }

  /** Each number of a report is the sum (modulo 2^64) of all adds for its name completed up to some moment
      during the call, in every interleaving before and during it. */
  lemma ReportExact(es: seq<Event>, ms: seq<Moment>, name: Name, f: Field)
    requires Possible(INIT, es) && PossibleReading(After(INIT, es), ms) && (name, f) in Report(After(INIT, es), ms, map[])
    ensures WasSum(After(INIT, es), Completed(INIT, es), Others(ms), name, f,
                   Report(After(INIT, es), ms, map[])[(name, f)])
  {
    assert Inv(INIT, []);
    RunKeepsInv(INIT, es, []);
    assert [] + Completed(INIT, es) == Completed(INIT, es);
    LoadsAreSums(After(INIT, es), Completed(INIT, es), ms, map[], name, f);
  }
}
