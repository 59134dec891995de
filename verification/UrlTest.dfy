/** The url-test group: probing, marking and picking a proxy (proxy/urltest.go). */
module UrlTest {
  import opened Bytes

  type Name = string

  // One member's outcome in a probe; `failed` stands for a non-nil error.
  datatype Outcome = Outcome(name: Name, latency: int, failed: bool)

  datatype State = State(best: Name, latencies: map<Name, int>, failed: map<Name, bool>)

  predicate IsFailed(s: State, name: Name) {
    name in s.failed && s.failed[name]
  }

  // ---------- Picking ----------

  function FirstUnfailed(proxies: seq<Name>, s: State): (r: Option<Name>)
    ensures r.Some? ==> r.value in proxies && !IsFailed(s, r.value)
    ensures r.None? ==> forall n <- proxies :: IsFailed(s, n)
  {
    if proxies == [] then None
    else if !IsFailed(s, proxies[0]) then Some(proxies[0])
    else FirstUnfailed(proxies[1..], s)
  }

  /** All members configured before the `i`-th have failed, and it has not. */
  ghost predicate IsFirstUnfailed(proxies: seq<Name>, s: State, i: int) {
    && 0 <= i < |proxies| && !IsFailed(s, proxies[i])
    && forall j :: 0 <= j < i ==> IsFailed(s, proxies[j])
  }

  lemma {:induction false} FirstUnfailedIsFirst(proxies: seq<Name>, s: State)
    ensures match FirstUnfailed(proxies, s)
            case Some(n) => exists i :: IsFirstUnfailed(proxies, s, i) && proxies[i] == n
            case None => forall n <- proxies :: IsFailed(s, n)
  {
    if proxies != [] && IsFailed(s, proxies[0]) {
      FirstUnfailedIsFirst(proxies[1..], s);
      if FirstUnfailed(proxies[1..], s).Some? {
        var i :| IsFirstUnfailed(proxies[1..], s, i) && proxies[1..][i] == FirstUnfailed(proxies[1..], s).value;
        assert IsFirstUnfailed(proxies, s, i + 1);
      }
    } else if proxies != [] {
      assert IsFirstUnfailed(proxies, s, 0);
    }
  }

  function Picked(proxies: seq<Name>, s: State): Option<Name> {
    if s.best != "" && !IsFailed(s, s.best) then Some(s.best) else FirstUnfailed(proxies, s)
  }

  // ---------- Probing ----------

  /** The order `sort.Slice` is given. */
  predicate Less(a: Outcome, b: Outcome) {
    !a.failed && (b.failed || a.latency < b.latency)
  }

  /** Any result of sorting, which need not be stable. */
  ghost predicate IsSortOf(sorted: seq<Outcome>, results: seq<Outcome>) {
    multiset(sorted) == multiset(results) && forall i, j :: 0 <= i < j < |sorted| ==> !Less(sorted[j], sorted[i])
  }

  function Recorded(s: State, rs: seq<Outcome>): State
    decreases |rs|
  {
    if rs == [] then s
    else
      var (t, r) := (Recorded(s, rs[..|rs| - 1]), rs[|rs| - 1]);
      t.(latencies := t.latencies[r.name := r.latency], failed := t.failed[r.name := r.failed])
  }

  function FirstSuccess(rs: seq<Outcome>): (r: Option<Outcome>)
    ensures r.Some? ==> r.value in rs && !r.value.failed
    ensures r.None? <==> forall o <- rs :: o.failed
  {
    if rs == [] then None else if !rs[0].failed then Some(rs[0]) else FirstSuccess(rs[1..])
  }

  function Probed(s: State, sorted: seq<Outcome>): State {
    var t := Recorded(s, sorted);
    match FirstSuccess(sorted)
    case Some(r) => t.(best := r.name)
    case None => t
  }

  class Group {
    const proxies: seq<Name>
    var best: Name
    var latencies: map<Name, int>
    var failed: map<Name, bool>

    ghost function Now(): State
      reads this
    {
      State(best, latencies, failed)
    }

    constructor (proxies: seq<Name>)
      ensures this.proxies == proxies && Now() == Initial(proxies)
      ensures best == (if proxies == [] then "" else proxies[0]) && latencies == map[] && failed == map[]
    {
      this.proxies := proxies;
      best := if proxies != [] then proxies[0] else "";
      latencies := map[];
      failed := map[];
    }

    method PickBest() returns (r: Option<Name>)
      modifies this`best
      ensures r == Picked(proxies, old(Now()))
      ensures Now() == if r.Some? then old(Now()).(best := r.value) else old(Now())
      ensures if old(best) != "" && !IsFailed(old(Now()), old(best)) then r == Some(old(best))
              else match r
                case Some(n) => exists i :: IsFirstUnfailed(proxies, old(Now()), i) && proxies[i] == n
                case None => forall n <- proxies :: IsFailed(old(Now()), n)
    {
      FirstUnfailedIsFirst(proxies, Now());
      if best != "" && !(best in failed && failed[best]) {
        return Some(best);
      }
      for i := 0 to |proxies|
        invariant Now() == old(Now())
        invariant FirstUnfailed(proxies, Now()) == FirstUnfailed(proxies[i..], Now())
      {
        var name := proxies[i];
        if !(name in failed && failed[name]) {
          best := name;
          return Some(best);
        }
      }
      r := None;
    }

    method MarkFailed(name: Name)
      modifies this`failed
      ensures Now() == old(Now()).(failed := old(failed)[name := true])
    {
      failed := failed[name := true];
    }

    // The part of a probe after its results are in and sorted.
    method Record(sorted: seq<Outcome>)
      modifies this
      ensures Now() == Probed(old(Now()), sorted)
    {
      for i := 0 to |sorted|
        invariant Now() == Recorded(old(Now()), sorted[..i])
      {
        var r := sorted[i];
        latencies := latencies[r.name := r.latency];
        if r.failed {
          failed := failed[r.name := true];
        } else {
          failed := failed[r.name := false];
        }
        assert sorted[..i + 1][..i] == sorted[..i];
      }
      assert sorted[..|sorted|] == sorted;
      for i := 0 to |sorted|
        invariant Now() == Recorded(old(Now()), sorted)
        invariant FirstSuccess(sorted) == FirstSuccess(sorted[i..])
      {
        if !sorted[i].failed {
          best := sorted[i].name;
          return;
        }
      }
    }
  }

  function Initial(proxies: seq<Name>): State {
    State(if proxies != [] then proxies[0] else "", map[], map[])
  }

  // ---------- What a probe establishes ----------

  /** The position of a name's last outcome, or -1. */
  ghost function LastOf(rs: seq<Outcome>, name: Name): (i: int)
    ensures -1 <= i < |rs|
    ensures i >= 0 ==> rs[i].name == name
    ensures forall j :: i < j < |rs| ==> rs[j].name != name
  {
    if rs == [] then -1
    else if rs[|rs| - 1].name == name then |rs| - 1
    else LastOf(rs[..|rs| - 1], name)
  }

  /** A name's last outcome decides. */
  lemma {:induction false} RecordedAt(s: State, rs: seq<Outcome>, name: Name)
    ensures Recorded(s, rs).best == s.best
    ensures var i := LastOf(rs, name);
      IsFailed(Recorded(s, rs), name) <==> if i >= 0 then rs[i].failed else IsFailed(s, name)
    ensures var i, l := LastOf(rs, name), Recorded(s, rs).latencies;
      if i >= 0 then name in l && l[name] == rs[i].latency
      else (name in l <==> name in s.latencies) && (name in l ==> l[name] == s.latencies[name])
    decreases |rs|
  {
    if rs != [] {
      RecordedAt(s, rs[..|rs| - 1], name);
    }
  }

  /** Errors sort last, so a name is marked failed exactly when one of its outcomes is an error. */
  lemma SortedMarks(s: State, results: seq<Outcome>, sorted: seq<Outcome>, name: Name)
    requires IsSortOf(sorted, results)
    ensures IsFailed(Probed(s, sorted), name) <==> if Reported(results, name) then Erred(results, name) else IsFailed(s, name)
  {
    SameOutcomes(results, sorted);
    RecordedAt(s, sorted, name);
    var i := LastOf(sorted, name);
    forall r | r in results && r.name == name ensures i >= 0 && (r.failed ==> sorted[i].failed) {
      var k :| 0 <= k < |sorted| && sorted[k] == r;
      assert k <= i;
      assert k < i ==> !Less(sorted[i], sorted[k]);
    }
    if i >= 0 {
      assert sorted[i] in results && sorted[i].name == name;
    }
  }

  lemma SameOutcomes(results: seq<Outcome>, sorted: seq<Outcome>)
    requires IsSortOf(sorted, results)
    ensures forall r :: r in sorted <==> r in results
  {
    forall r ensures r in sorted <==> r in results {
      assert r in sorted <==> r in multiset(sorted);
      assert r in results <==> r in multiset(results);
    }
  }

  lemma {:induction false} FirstSuccessLeast(rs: seq<Outcome>)
    requires forall i, j :: 0 <= i < j < |rs| ==> !Less(rs[j], rs[i])
    ensures FirstSuccess(rs).Some? ==> forall r <- rs :: !r.failed ==> FirstSuccess(rs).value.latency <= r.latency
  {
    if rs != [] {
      if rs[0].failed {
        forall r | r in rs ensures r.failed {
          var k :| 0 <= k < |rs| && rs[k] == r;
          assert k > 0 ==> !Less(rs[k], rs[0]);
        }
      } else {
        forall r | r in rs && !r.failed ensures rs[0].latency <= r.latency {
          var k :| 0 <= k < |rs| && rs[k] == r;
          assert k > 0 ==> !Less(rs[k], rs[0]);
        }
      }
    }
  }

  /** The results of a probe, in the order their goroutines appended them: outcomes of members only. The appends
      are not synchronised, so one may be lost. */
  ghost predicate OfMembers(proxies: seq<Name>, results: seq<Outcome>) {
    forall r <- results :: r.name in proxies
  }

  /** No outcome was lost. */
  ghost predicate CoversMembers(proxies: seq<Name>, results: seq<Outcome>) {
    OfMembers(proxies, results) && forall n <- proxies :: Reported(results, n)
  }

  ghost predicate Reported(results: seq<Outcome>, name: Name) {
    exists r :: r in results && r.name == name
  }

  ghost predicate Erred(results: seq<Outcome>, name: Name) {
    exists r :: r in results && r.name == name && r.failed
  }

  /** After a probe a member is failed exactly when an outcome of it is an error, and one whose outcome was lost
      is as it was; so with none lost the failed members are exactly the erring ones. If any outcome
      is a success, `best` is a member with the least latency of the successes; otherwise it is unchanged. */
  lemma ProbeExact(proxies: seq<Name>, s: State, results: seq<Outcome>, sorted: seq<Outcome>)
    requires IsSortOf(sorted, results) && OfMembers(proxies, results)
    ensures var s' := Probed(s, sorted);
      && (forall n :: IsFailed(s', n) <==> if Reported(results, n) then Erred(results, n) else IsFailed(s, n))
      && (CoversMembers(proxies, results) ==> forall n <- proxies :: IsFailed(s', n) <==> Erred(results, n))
      && (if exists r :: r in results && !r.failed
          then exists r :: r in results && !r.failed && r.name == s'.best && s'.best in proxies
                        && forall q <- results :: !q.failed ==> r.latency <= q.latency
          else s'.best == s.best)
  {
    SameOutcomes(results, sorted);
    FirstSuccessLeast(sorted);
    RecordedAt(s, sorted, "");
    var s' := Probed(s, sorted);
    forall n ensures IsFailed(s', n) <==> if Reported(results, n) then Erred(results, n) else IsFailed(s, n) {
      SortedMarks(s, results, sorted, n);
    }
    var f := FirstSuccess(sorted);
    if f.Some? {
      assert f.value in results && !f.value.failed && f.value.name == s'.best;
    } else {
      assert forall r <- results :: r in sorted;
    }
  }

  /** Each member's latency is the one just measured, with each member listed once. */
  lemma LatenciesExact(s: State, results: seq<Outcome>, sorted: seq<Outcome>)
    requires IsSortOf(sorted, results)
    requires forall i, j :: 0 <= i < j < |results| ==> results[i].name != results[j].name
    ensures forall r <- results :: r.name in Probed(s, sorted).latencies && Probed(s, sorted).latencies[r.name] == r.latency
  {
    SameOutcomes(results, sorted);
    forall r | r in results
      ensures r.name in Probed(s, sorted).latencies && Probed(s, sorted).latencies[r.name] == r.latency
    {
      RecordedAt(s, sorted, r.name);
      var k :| 0 <= k < |sorted| && sorted[k] == r;
      var q := sorted[LastOf(sorted, r.name)];
      assert q in results;
      var i :| 0 <= i < |results| && results[i] == q;
      var j :| 0 <= j < |results| && results[j] == r;
    }
  }

  // ---------- Runs ----------

  datatype Event = Pick | Mark(name: Name) | Probe(results: seq<Outcome>, sorted: seq<Outcome>)

  ghost predicate Possible(proxies: seq<Name>, e: Event) {
    e.Probe? ==> IsSortOf(e.sorted, e.results) && OfMembers(proxies, e.results)
  }

  function Apply(proxies: seq<Name>, s: State, e: Event): State {
    match e
    case Pick => (match Picked(proxies, s) case Some(n) => s.(best := n) case None => s)
    case Mark(name) => s.(failed := s.failed[name := true])
    case Probe(_, sorted) => Probed(s, sorted)
  }

  function After(proxies: seq<Name>, s: State, es: seq<Event>): State
    decreases es
  {
    if es == [] then s else After(proxies, Apply(proxies, s, es[0]), es[1..])
  }

  ghost predicate BestIsMember(proxies: seq<Name>, s: State) {
    if proxies == [] then s.best == "" else s.best in proxies
  }

  lemma StepKeepsMember(proxies: seq<Name>, s: State, e: Event)
    requires BestIsMember(proxies, s) && Possible(proxies, e)
    ensures BestIsMember(proxies, Apply(proxies, s, e))
  {
    if e.Probe? {
      ProbeExact(proxies, s, e.results, e.sorted);
    }
  }

  lemma {:induction false} RunKeepsMember(proxies: seq<Name>, s: State, es: seq<Event>)
    requires BestIsMember(proxies, s) && forall e <- es :: Possible(proxies, e)
    ensures BestIsMember(proxies, After(proxies, s, es))
    decreases es
  {
    if es != [] {
      assert es[0] in es;
      StepKeepsMember(proxies, s, es[0]);
      RunKeepsMember(proxies, Apply(proxies, s, es[0]), es[1..]);
    }
  }

  /** At any point of any run of probes, marks and picks `best` is a member, a pick gives a member that is not
      failed, and it errs exactly when all members have failed. */
  lemma PickExact(proxies: seq<Name>, es: seq<Event>)
    requires forall e <- es :: Possible(proxies, e)
    ensures var s := After(proxies, Initial(proxies), es);
      && BestIsMember(proxies, s)
      && (Picked(proxies, s).None? <==> forall n <- proxies :: IsFailed(s, n))
      && (Picked(proxies, s).Some? ==> Picked(proxies, s).value in proxies && !IsFailed(s, Picked(proxies, s).value))
  {
    RunKeepsMember(proxies, Initial(proxies), es);
  }

  /** With each member listed once, a pick right after a probe with any success gives the fastest of them. */
  lemma PickAfterProbe(proxies: seq<Name>, s: State, results: seq<Outcome>, sorted: seq<Outcome>)
    requires IsSortOf(sorted, results) && OfMembers(proxies, results) && "" !in proxies
    requires forall i, j :: 0 <= i < j < |results| ==> results[i].name != results[j].name
    requires exists r :: r in results && !r.failed
    ensures exists r :: r in results && !r.failed && Picked(proxies, Probed(s, sorted)) == Some(r.name)
                     && forall q <- results :: !q.failed ==> r.latency <= q.latency
  {
    ProbeExact(proxies, s, results, sorted);
    var s' := Probed(s, sorted);
    var r :| r in results && !r.failed && r.name == s'.best && forall q <- results :: !q.failed ==> r.latency <= q.latency;
    forall q | q in results && q.name == r.name ensures q == r {
      var i :| 0 <= i < |results| && results[i] == q;
      var j :| 0 <= j < |results| && results[j] == r;
    }
  }
}
