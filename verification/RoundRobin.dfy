/** The round-robin group's ticket counter under concurrent connects (proxy/round_robin.go). */
module RoundRobin {
  import opened Arithmetic

  // An int64 counter; tickets drawn but not yet turned into a choice are held by their goroutines.
  datatype State = State(idx: int, drawn: nat, held: multiset<nat>, chosen: multiset<nat>)

  datatype Event = Draw | Choose(position: nat)

  const INIT := State(0, 0, multiset{}, multiset{})

  const MAX: int := 0x8000_0000_0000_0000

  function Wrap(x: int): int {
    if x >= MAX then x - 2 * MAX else if x < -MAX then x + 2 * MAX else x
  }

  /** `int(i) % len(proxies)`, a negative ticket counting as 0. */
  function Position(ticket: int, n: nat): (p: nat)
    requires n > 0
    ensures p < n
  {
    (if ticket < 0 then 0 else ticket) % n
  }

  predicate Enabled(s: State, e: Event) {
    e.Choose? ==> e.position in s.held
  }

  function Apply(n: nat, s: State, e: Event): State
    requires n > 0 && Enabled(s, e)
  {
    match e
    case Draw =>
      var idx := Wrap(s.idx + 1);
      s.(idx := idx, drawn := s.drawn + 1, held := s.held + multiset{Position(Wrap(idx - 1), n)})
    case Choose(p) => s.(held := s.held - multiset{p}, chosen := s.chosen + multiset{p})
  }

  ghost predicate Possible(n: nat, s: State, es: seq<Event>)
    requires n > 0
    decreases es
  {
    es == [] || (Enabled(s, es[0]) && Possible(n, Apply(n, s, es[0]), es[1..]))
  }

  ghost function After(n: nat, s: State, es: seq<Event>): State
    requires n > 0 && Possible(n, s, es)
    decreases es
  {
    if es == [] then s else After(n, Apply(n, s, es[0]), es[1..])
  }

  class Group {
    const n: nat
    var idx: int

    constructor (n: nat)
      ensures this.n == n && idx == 0
    {
      this.n := n;
      idx := 0;
    }

    /** The member position a connect uses, if there are any members. */
    method Next() returns (ok: bool, position: nat)
      modifies this
      ensures ok == (n > 0)
      ensures ok ==> idx == Wrap(old(idx) + 1) && position == Position(Wrap(idx - 1), n)
      ensures !ok ==> idx == old(idx)
      ensures ok && 0 <= old(idx) < MAX - 1 ==> idx == old(idx) + 1 && position == old(idx) % n
      ensures ok && -MAX <= old(idx) < 0 ==> idx == old(idx) + 1 && position == 0
      ensures ok && old(idx) == MAX - 1 ==> idx == -MAX && position == old(idx) % n
    {
      ok, position := n > 0, 0;
      if !ok {
        return;
      }
      idx := Wrap(idx + 1);
      var i := Wrap(idx - 1);
      if i < 0 {
        i := 0;
      }
      position := i % n;
    }
  }

  /** How many of the tickets 0 to `drawn` - 1 fall on position `p`. */
  ghost function Hits(drawn: nat, n: nat, p: nat): nat
    requires n > 0
  {
    if drawn == 0 then 0
    else Hits(drawn - 1, n, p) + if (drawn - 1) % n == p then 1 else 0
  }

  /** One whole turn hits each position once. */
  lemma {:induction false} HitsClosedForm(drawn: nat, n: nat, p: nat)
    requires p < n
    ensures Hits(drawn, n, p) == drawn / n + if p < drawn % n then 1 else 0
  {
    if drawn > 0 {
      HitsClosedForm(drawn - 1, n, p);
      DivStep(drawn - 1, n);
    } else {
      DivUnique(0, n, 0, 0);
    }
  }

  lemma DivStep(k: nat, n: nat)
    requires n > 0
    ensures k % n + 1 < n ==> (k + 1) / n == k / n && (k + 1) % n == k % n + 1
    ensures k % n + 1 == n ==> (k + 1) / n == k / n + 1 && (k + 1) % n == 0
  {
    var q, r := k / n, k % n;
    if r + 1 < n {
      DivUnique(k + 1, n, q, r + 1);
    } else {
      assert n * (q + 1) == n * q + n;
      DivUnique(k + 1, n, q + 1, 0);
    }
  }

  ghost predicate Inv(n: nat, s: State)
    requires n > 0
  {
    && s.idx == Wrap(s.drawn)
    && (forall p: nat :: (s.held + s.chosen)[p] == Hits(s.drawn, n, p))
  }

  lemma StepKeepsInv(n: nat, s: State, e: Event)
    requires n > 0 && Inv(n, s) && Enabled(s, e) && Apply(n, s, e).drawn <= MAX
    ensures Inv(n, Apply(n, s, e))
  {
    var s' := Apply(n, s, e);
    if e.Draw? {
      assert Wrap(s'.idx - 1) == s.drawn;
      forall p: nat ensures (s'.held + s'.chosen)[p] == Hits(s'.drawn, n, p) {
        assert (s'.held + s'.chosen)[p] == (s.held + s.chosen)[p] + if Position(s.drawn, n) == p then 1 else 0;
      }
    } else {
      assert s'.held + s'.chosen == s.held + s.chosen;
    }
  }

  lemma {:induction false} DrawnGrows(n: nat, s: State, es: seq<Event>)
    requires n > 0 && Possible(n, s, es)
    ensures s.drawn <= After(n, s, es).drawn
    decreases es
  {
    if es != [] {
      DrawnGrows(n, Apply(n, s, es[0]), es[1..]);
    }
  }

  lemma {:induction false} RunKeepsInv(n: nat, s: State, es: seq<Event>)
    requires n > 0 && Inv(n, s) && Possible(n, s, es) && After(n, s, es).drawn <= MAX
    ensures Inv(n, After(n, s, es))
    decreases es
  {
    if es != [] {
      DrawnGrows(n, Apply(n, s, es[0]), es[1..]);
      StepKeepsInv(n, s, es[0]);
      RunKeepsInv(n, Apply(n, s, es[0]), es[1..]);
    }
  }

  /** In any interleaving of up to 2^63 connects: once all have made their choice, every position has been
      chosen the floor or the ceiling of the average number of times, the first positions the ceiling. */
  lemma Fair(n: nat, es: seq<Event>, p: nat)
    requires p < n && Possible(n, INIT, es) && After(n, INIT, es).drawn <= MAX && After(n, INIT, es).held == multiset{}
    ensures var s := After(n, INIT, es);
      s.chosen[p] == s.drawn / n + if p < s.drawn % n then 1 else 0
  {
    assert Inv(n, INIT);
    RunKeepsInv(n, INIT, es);
    var s := After(n, INIT, es);
    assert s.held + s.chosen == s.chosen;
    HitsClosedForm(s.drawn, n, p);
  }
}
