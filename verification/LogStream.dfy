/** The bounded log ring with live subscriptions, and the handler that replays it and then streams
    (web/logs.go, web/handlers.go). No subscription is cancelled. */
module LogStream {
  type LogEntry = string

  const CHANNEL_SIZE := 64
  const REPLAY := 50

  // ---------- The ring ----------

  /** The append of `Write`: the oldest entry goes when the ring is full. */
  function Appended<T>(entries: seq<T>, maxSize: nat, e: T): seq<T> {
    (if |entries| >= maxSize && entries != [] then entries[1..] else entries) + [e]
  }

  function RecentOf<T>(entries: seq<T>, n: int): (r: seq<T>) {
    if n <= 0 || n > |entries| then entries else entries[|entries| - n..]
  }

  /** `entries` is the last min(count, maxSize) of the append history. */
  ghost predicate IsTail<T>(entries: seq<T>, maxSize: nat, history: seq<T>) {
    && |entries| == (if |history| < maxSize then |history| else maxSize)
    && entries == history[|history| - |entries|..]
  }

  lemma AppendKeepsTail<T>(entries: seq<T>, maxSize: nat, history: seq<T>, e: T)
    requires maxSize > 0 && IsTail(entries, maxSize, history)
    ensures IsTail(Appended(entries, maxSize, e), maxSize, history + [e])
  {
    var h := history + [e];
    if |entries| >= maxSize {
      assert entries[1..] + [e] == h[|h| - maxSize..];
    } else {
      assert entries + [e] == h;
    }
  }

  lemma RecentIsTail<T>(entries: seq<T>, maxSize: nat, history: seq<T>, n: int)
    requires IsTail(entries, maxSize, history)
    ensures RecentOf(entries, n) == history[|history| - |RecentOf(entries, n)|..]
    ensures 0 < n <= maxSize ==> |RecentOf(entries, n)| == if |history| < n then |history| else n
  {
  }

  /** A request for none, or for more than the ring holds, gets all there is. */
  lemma RecentAll<T>(entries: seq<T>, maxSize: nat, history: seq<T>, n: int)
    requires IsTail(entries, maxSize, history) && (n <= 0 || n > maxSize)
    ensures RecentOf(entries, n) == entries && |entries| == if |history| < maxSize then |history| else maxSize
  {
  }

  /** A buffer after a non-blocking send. */
  function Sent<T>(queue: seq<T>, e: T): seq<T> {
    if |queue| < CHANNEL_SIZE then queue + [e] else queue
  }

  class Channel {
    var queue: seq<LogEntry>

    constructor ()
      ensures queue == []
    {
      queue := [];
    }

    /** A non-blocking send. */
    method TrySend(e: LogEntry)
      modifies this
      ensures queue == Sent(old(queue), e)
    {
      if |queue| < CHANNEL_SIZE {
        queue := queue + [e];
      }
    }
  }

  ghost predicate NoRepeats<T>(s: seq<T>) {
    forall i, j :: 0 <= i < j < |s| ==> s[i] != s[j]
  }

  lemma NoRepeatsSnoc<T>(s: seq<T>, x: T)
    requires NoRepeats(s) && x !in s
    ensures NoRepeats(s + [x])
  {
  }

  // The sends of `Write`, after the ring's lock is released.
  method Broadcast(snapshot: seq<Channel>, e: LogEntry)
    requires NoRepeats(snapshot)
    modifies snapshot
    ensures forall c <- snapshot :: c.queue == Sent(old(c.queue), e)
  {
    for i := 0 to |snapshot|
      invariant forall k :: i <= k < |snapshot| ==> snapshot[k].queue == old(snapshot[k].queue)
      invariant forall k :: 0 <= k < i ==> snapshot[k].queue == Sent(old(snapshot[k].queue), e)
    {
      snapshot[i].TrySend(e);
    }
  }

  class LogRing {
    var entries: seq<LogEntry>
    const maxSize: nat
    var listeners: seq<Channel>
    ghost var history: seq<LogEntry>

    ghost predicate Valid()
      reads this
    {
      && maxSize > 0 && IsTail(entries, maxSize, history)
      && NoRepeats(listeners)
    }

    constructor (maxSize: int)
      ensures Valid() && history == [] && listeners == []
      ensures this.maxSize == if maxSize <= 0 then 1000 else maxSize
    {
      this.maxSize := if maxSize <= 0 then 1000 else maxSize;
      entries := [];
      listeners := [];
      history := [];
    }

    method Write(e: LogEntry)
      requires Valid()
      modifies this`entries, this`history, listeners
      ensures Valid() && history == old(history) + [e]
      ensures forall c <- listeners ::
        c.queue == if |old(c.queue)| < 64 then old(c.queue) + [e] else old(c.queue)
    {
      AppendEntry(e);
      Broadcast(listeners, e);
    }

    // The part of `Write` under the ring's lock.
    method AppendEntry(e: LogEntry)
      requires maxSize > 0 && IsTail(entries, maxSize, history)
      modifies this`entries, this`history
      ensures IsTail(entries, maxSize, history) && history == old(history) + [e]
    {
      AppendKeepsTail(entries, maxSize, history, e);
      if |entries| >= maxSize {
        entries := entries[1..];
      }
      entries := entries + [e];
      history := history + [e];
    }

    method Subscribe() returns (ch: Channel)
      requires Valid()
      modifies this`listeners
      ensures Valid() && fresh(ch) && ch.queue == [] && listeners == old(listeners) + [ch]
    {
      ch := new Channel();
      NoRepeatsSnoc(listeners, ch);
      listeners := listeners + [ch];
    }

    method Recent(n: int) returns (r: seq<LogEntry>)
      requires Valid()
      ensures r == RecentOf(entries, n) && r == history[|history| - |r|..]
      ensures |r| == var m := if 0 < n <= maxSize then n else maxSize; if |history| < m then |history| else m
    {
      RecentIsTail(entries, maxSize, history, n);
      var m := n;
      if m <= 0 || m > |entries| {
        m := |entries|;
      }
      r := entries[|entries| - m..];
    }
  }

  // ---------- Writers and subscribers interleaved ----------

  /** The place of an entry in the append history stands for the entry.

      `taken` is what the handler has received, `dropped` what a full buffer refused, `since` the length of the
      history at the subscription. */
  datatype Chan = Chan(queue: seq<nat>, taken: seq<nat>, dropped: seq<nat>, since: nat)

  /** A `Write` that has appended its entry and has the channels `todo` still to serve. */
  datatype Writer = Writer(item: nat, todo: seq<nat>)

  datatype State = State(entries: seq<nat>, count: nat, chans: seq<Chan>, writers: map<nat, Writer>)

  datatype Event =
    | Append(g: nat)
    | Deliver(g: nat)
    | Subscribe
    | Receive(c: nat)

  const INIT := State([], 0, [], map[])

  function UpTo(n: nat): (s: seq<nat>)
    ensures |s| == n && forall i :: 0 <= i < n ==> s[i] == i
  {
    seq(n, i => i)
  }

  predicate Enabled(s: State, e: Event) {
    match e
    case Append(g) => g !in s.writers
    case Deliver(g) => g in s.writers && s.writers[g].todo != [] && s.writers[g].todo[0] < |s.chans|
    case Subscribe => true
    case Receive(c) => c < |s.chans| && s.chans[c].queue != []
  }

  function Offered(ch: Chan, item: nat): Chan {
    if Sent(ch.queue, item) != ch.queue then ch.(queue := Sent(ch.queue, item)) else ch.(dropped := ch.dropped + [item])
  }

  function Apply(maxSize: nat, s: State, e: Event): State
    requires Enabled(s, e)
  {
    match e
    case Append(g) =>
      s.(entries := Appended(s.entries, maxSize, s.count), count := s.count + 1,
         writers := s.writers[g := Writer(s.count, UpTo(|s.chans|))])
    case Deliver(g) =>
      var w := s.writers[g];
      var c := w.todo[0];
      s.(chans := s.chans[c := Offered(s.chans[c], w.item)],
         writers := if |w.todo| == 1 then s.writers - {g} else s.writers[g := w.(todo := w.todo[1..])])
    case Subscribe => s.(chans := s.chans + [Chan([], [], [], s.count)])
    case Receive(c) =>
      var ch := s.chans[c];
      s.(chans := s.chans[c := ch.(queue := ch.queue[1..], taken := ch.taken + [ch.queue[0]])])
  }

  ghost predicate Possible(maxSize: nat, s: State, es: seq<Event>)
    decreases es
  {
    es == [] || (Enabled(s, es[0]) && Possible(maxSize, Apply(maxSize, s, es[0]), es[1..]))
  }

  ghost function After(maxSize: nat, s: State, es: seq<Event>): State
    requires Possible(maxSize, s, es)
    decreases es
  {
    if es == [] then s else After(maxSize, Apply(maxSize, s, es[0]), es[1..])
  }

  /** Everything that came to a decision at this channel: received, buffered or dropped. */
  function Settled(ch: Chan): seq<nat> {
    ch.taken + ch.queue + ch.dropped
  }

  ghost predicate Held(s: State, c: nat, i: nat) {
    exists g :: g in s.writers && s.writers[g].item == i && c in s.writers[g].todo
  }

  /** Conservation at one channel: each entry since the subscription is in exactly one place, once. */
  ghost predicate Conserved(s: State, c: nat)
    requires c < |s.chans|
  {
    var ch := s.chans[c];
    && NoRepeats(Settled(ch)) && |ch.queue| <= CHANNEL_SIZE && ch.since <= s.count
    && (forall i :: i in Settled(ch) ==> ch.since <= i < s.count && !Held(s, c, i))
    && (forall i: nat :: Held(s, c, i) ==> ch.since <= i < s.count)
    && (forall i :: ch.since <= i < s.count ==> i in Settled(ch) || Held(s, c, i))
  }

  ghost predicate WritersApart(s: State) {
    && (forall g <- s.writers :: s.writers[g].item < s.count && NoRepeats(s.writers[g].todo)
                              && forall c <- s.writers[g].todo :: c < |s.chans|)
    && (forall g <- s.writers, h <- s.writers :: g != h ==> s.writers[g].item != s.writers[h].item)
  }

  ghost predicate Inv(s: State) {
    WritersApart(s) && forall c :: 0 <= c < |s.chans| ==> Conserved(s, c)
  }

  lemma HeldAfterAppend(maxSize: nat, s: State, e: Event, c: nat, i: nat)
    requires e.Append? && Enabled(s, e) && c < |s.chans|
    ensures Held(Apply(maxSize, s, e), c, i) <==> Held(s, c, i) || i == s.count
  {
    var s' := Apply(maxSize, s, e);
    assert UpTo(|s.chans|)[c] == c;
    assert s'.writers[e.g].item == s.count && c in s'.writers[e.g].todo;
    if Held(s, c, i) {
      var g :| g in s.writers && s.writers[g].item == i && c in s.writers[g].todo;
      assert g in s'.writers && s'.writers[g] == s.writers[g];
    }
  }

  lemma AppendConserves(maxSize: nat, s: State, e: Event, c: nat)
    requires e.Append? && Enabled(s, e) && c < |s.chans| && Conserved(s, c)
    ensures Conserved(Apply(maxSize, s, e), c)
  {
    forall i: nat ensures Held(Apply(maxSize, s, e), c, i) <==> Held(s, c, i) || i == s.count {
      HeldAfterAppend(maxSize, s, e, c, i);
    }
  }

  lemma AppendKeepsInv(maxSize: nat, s: State, e: Event)
    requires Inv(s) && e.Append? && Enabled(s, e)
    ensures Inv(Apply(maxSize, s, e))
  {
    forall c | 0 <= c < |s.chans| ensures Conserved(Apply(maxSize, s, e), c) {
      AppendConserves(maxSize, s, e, c);
    }
  }

  lemma SameHeld(s: State, s': State, c: nat)
    requires s'.writers == s.writers
    ensures forall i: nat :: Held(s', c, i) <==> Held(s, c, i)
  {
  }

  /** A step that leaves the writers alone and this channel settled as it was. */
  lemma StaysConserved(s: State, s': State, c: nat)
    requires c < |s.chans| && c < |s'.chans| && Conserved(s, c)
    requires s'.writers == s.writers && s'.count == s.count
    requires Settled(s'.chans[c]) == Settled(s.chans[c]) && s'.chans[c].since == s.chans[c].since
    requires |s'.chans[c].queue| <= CHANNEL_SIZE
    ensures Conserved(s', c)
  {
    SameHeld(s, s', c);
  }

  lemma NewConserved(s: State, s': State, c: nat)
    requires WritersApart(s) && c == |s.chans| < |s'.chans| && s'.chans[c] == Chan([], [], [], s.count)
    requires s'.writers == s.writers && s'.count == s.count
    ensures Conserved(s', c)
  {
    SameHeld(s, s', c);
    assert Settled(s'.chans[c]) == [];
    forall i: nat ensures !Held(s, c, i) {
    }
  }

  lemma SubscribeKeepsInv(maxSize: nat, s: State)
    requires Inv(s)
    ensures Inv(Apply(maxSize, s, Subscribe))
  {
    var s' := Apply(maxSize, s, Subscribe);
    forall c | 0 <= c < |s'.chans| ensures Conserved(s', c) {
      if c < |s.chans| {
        StaysConserved(s, s', c);
      } else {
        NewConserved(s, s', c);
      }
    }
  }

  lemma ReceiveSettles(ch: Chan)
    requires ch.queue != []
    ensures Settled(ch.(queue := ch.queue[1..], taken := ch.taken + [ch.queue[0]])) == Settled(ch)
  {
    assert ch.taken + [ch.queue[0]] + ch.queue[1..] == ch.taken + ch.queue;
  }

  lemma ReceiveKeepsInv(maxSize: nat, s: State, e: Event)
    requires Inv(s) && e.Receive? && Enabled(s, e)
    ensures Inv(Apply(maxSize, s, e))
  {
    var s' := Apply(maxSize, s, e);
    ReceiveSettles(s.chans[e.c]);
    forall c | 0 <= c < |s'.chans| ensures Conserved(s', c) {
      assert Conserved(s, c);
      StaysConserved(s, s', c);
    }
  }

  lemma HeldAfterDelivery(maxSize: nat, s: State, e: Event, c: nat, i: nat)
    requires WritersApart(s) && e.Deliver? && Enabled(s, e)
    ensures var w := s.writers[e.g];
      Held(Apply(maxSize, s, e), c, i) <==> Held(s, c, i) && !(c == w.todo[0] && i == w.item)
  {
    var s', w := Apply(maxSize, s, e), s.writers[e.g];
    HeldWithout(s, s', e.g, w, c, i);
  }

  /** `s'` has writer `g` served its first channel, or gone when that was its last. */
  lemma HeldWithout(s: State, s': State, g: nat, w: Writer, c: nat, i: nat)
    requires WritersApart(s) && g in s.writers && s.writers[g] == w && w.todo != []
    requires s'.writers == if |w.todo| == 1 then s.writers - {g} else s.writers[g := w.(todo := w.todo[1..])]
    ensures Held(s', c, i) <==> Held(s, c, i) && !(c == w.todo[0] && i == w.item)
  {
    assert w.todo == [w.todo[0]] + w.todo[1..];
    if Held(s', c, i) {
      var h :| h in s'.writers && s'.writers[h].item == i && c in s'.writers[h].todo;
      assert h in s.writers && s.writers[h].item == i && c in s.writers[h].todo;
    }
    if Held(s, c, i) && !(c == w.todo[0] && i == w.item) {
      var h :| h in s.writers && s.writers[h].item == i && c in s.writers[h].todo;
      assert h in s'.writers && s'.writers[h].item == i && c in s'.writers[h].todo;
    }
  }

  lemma OfferSettles(ch: Chan, item: nat)
    requires NoRepeats(Settled(ch)) && item !in Settled(ch)
    ensures NoRepeats(Settled(Offered(ch, item)))
    ensures forall i :: i in Settled(Offered(ch, item)) <==> i in Settled(ch) || i == item
  {
    var a, b := ch.taken + ch.queue, ch.dropped;
    if |ch.queue| < CHANNEL_SIZE {
      assert Settled(Offered(ch, item)) == a + [item] + b;
      NoRepeatsInsert(a, item, b);
    } else {
      assert Settled(Offered(ch, item)) == a + b + [item];
    }
  }

  lemma NoRepeatsInsert(a: seq<nat>, x: nat, b: seq<nat>)
    requires NoRepeats(a + b) && x !in a + b
    ensures NoRepeats(a + [x] + b)
  {
    var q := a + [x] + b;
    assert forall i :: 0 <= i < |a| ==> q[i] == (a + b)[i];
    assert forall i :: |a| < i < |q| ==> q[i] == (a + b)[i - 1];
  }

  lemma DeliverKeepsInv(maxSize: nat, s: State, e: Event)
    requires Inv(s) && e.Deliver? && Enabled(s, e)
    ensures Inv(Apply(maxSize, s, e))
  {
    var s', w := Apply(maxSize, s, e), s.writers[e.g];
    var c0 := w.todo[0];
    forall c | 0 <= c < |s'.chans| ensures Conserved(s', c) {
      assert Conserved(s, c);
      forall i: nat ensures Held(s', c, i) <==> Held(s, c, i) && !(c == c0 && i == w.item) {
        HeldAfterDelivery(maxSize, s, e, c, i);
      }
      if c == c0 {
        assert Held(s, c, w.item);
        OfferSettles(s.chans[c], w.item);
      }
    }
    DeliverKeepsApart(maxSize, s, e);
  }

  lemma DeliverKeepsApart(maxSize: nat, s: State, e: Event)
    requires WritersApart(s) && e.Deliver? && Enabled(s, e)
    ensures WritersApart(Apply(maxSize, s, e))
  {
    var s', w := Apply(maxSize, s, e), s.writers[e.g];
    assert |s'.chans| == |s.chans|;
    forall g | g in s'.writers
      ensures s'.writers[g].item < s'.count && NoRepeats(s'.writers[g].todo)
           && forall c <- s'.writers[g].todo :: c < |s'.chans|
    {
      if g == e.g {
        assert s'.writers[g].todo == w.todo[1..];
        assert forall c :: c in w.todo[1..] ==> c in w.todo;
      }
    }
  }

  lemma StepKeepsInv(maxSize: nat, s: State, e: Event)
    requires Inv(s) && Enabled(s, e)
    ensures Inv(Apply(maxSize, s, e))
  {
    match e
    case Append(_) => AppendKeepsInv(maxSize, s, e);
    case Deliver(_) => DeliverKeepsInv(maxSize, s, e);
    case Subscribe => SubscribeKeepsInv(maxSize, s);
    case Receive(_) => ReceiveKeepsInv(maxSize, s, e);
  }

  lemma {:induction false} RunKeepsInv(maxSize: nat, s: State, es: seq<Event>)
    requires Inv(s) && Possible(maxSize, s, es)
    ensures Inv(After(maxSize, s, es))
    decreases es
  {
    if es != [] {
      StepKeepsInv(maxSize, s, es[0]);
      RunKeepsInv(maxSize, Apply(maxSize, s, es[0]), es[1..]);
    }
  }

  /** A channel's subscription point is fixed, and the history only grows. */
  lemma {:induction false} RunGrows(maxSize: nat, s: State, es: seq<Event>)
    requires Possible(maxSize, s, es)
    ensures var s' := After(maxSize, s, es);
      && s.count <= s'.count && |s.chans| <= |s'.chans|
      && forall c :: 0 <= c < |s.chans| ==> s'.chans[c].since == s.chans[c].since
    decreases es
  {
    if es != [] {
      RunGrows(maxSize, Apply(maxSize, s, es[0]), es[1..]);
    }
  }

  /** What a channel has accepted so far, in order. */
  function Accepted(ch: Chan): seq<nat> {
    ch.taken + ch.queue
  }

  /** `to` has gone on from `from` without forgetting or reordering anything. */
  ghost predicate Extends(from: Chan, to: Chan) {
    from.taken <= to.taken && Accepted(from) <= Accepted(to) && from.dropped <= to.dropped
  }

  lemma StepExtends(maxSize: nat, s: State, e: Event, c: nat)
    requires Enabled(s, e) && c < |s.chans|
    ensures var s' := Apply(maxSize, s, e);
      c < |s'.chans| && Extends(s.chans[c], s'.chans[c])
    ensures |s.chans[c].queue| < CHANNEL_SIZE ==> Apply(maxSize, s, e).chans[c].dropped == s.chans[c].dropped
  {
    var ch, ch' := s.chans[c], Apply(maxSize, s, e).chans[c];
    if e.Deliver? && s.writers[e.g].todo[0] == c && |ch.queue| < CHANNEL_SIZE {
      assert Accepted(ch') == Accepted(ch) + [s.writers[e.g].item];
    } else if e.Receive? && e.c == c {
      assert Accepted(ch') == Accepted(ch);
    }
  }

  /** The buffer of `c` has room at every step of the run. */
  ghost predicate NeverFull(maxSize: nat, s: State, es: seq<Event>, c: nat)
    requires Possible(maxSize, s, es) && c < |s.chans|
    decreases es
  {
    es == [] ||
    (&& |s.chans[c].queue| < 64 && c < |Apply(maxSize, s, es[0]).chans|
     && NeverFull(maxSize, Apply(maxSize, s, es[0]), es[1..], c))
  }

  /** First in, first out: what a handler receives, and what its buffer accepts, only ever grows at the end.
      Nothing is dropped unless the buffer is full. */
  lemma {:induction false} ChannelGrows(maxSize: nat, s: State, es: seq<Event>, c: nat)
    requires Possible(maxSize, s, es) && c < |s.chans|
    ensures var s' := After(maxSize, s, es);
      && c < |s'.chans| && Extends(s.chans[c], s'.chans[c])
      && (NeverFull(maxSize, s, es, c) ==> s'.chans[c].dropped == s.chans[c].dropped)
    decreases es
  {
    if es != [] {
      StepExtends(maxSize, s, es[0], c);
      ChannelGrows(maxSize, Apply(maxSize, s, es[0]), es[1..], c);
    }
  }

  // ---------- Order of arrival ----------

  predicate Increasing(q: seq<nat>) {
    forall i, j :: 0 <= i < j < |q| ==> q[i] < q[j]
  }

  /** What channel `c` has accepted is in the order of the appends, and at most one writer, of a later
      entry than all of that, has yet to serve it. */
  ghost predicate InOrder(s: State, c: nat)
    requires c < |s.chans|
  {
    && Increasing(Accepted(s.chans[c]))
    && (forall i: nat, a | Held(s, c, i) && a in Accepted(s.chans[c]) :: a < i)
    && (forall i: nat, j: nat | Held(s, c, i) && Held(s, c, j) :: i == j)
  }

  ghost predicate Unheld(s: State, c: nat) {
    forall i: nat :: !Held(s, c, i)
  }

  /** `allowed` holds of every step of the run. */
  ghost predicate Throughout(maxSize: nat, allowed: (State, Event) -> bool, s: State, es: seq<Event>)
    requires Possible(maxSize, s, es)
    decreases es
  {
    es == [] || (allowed(s, es[0]) && Throughout(maxSize, allowed, Apply(maxSize, s, es[0]), es[1..]))
  }

  lemma {:induction false} RunInduction(maxSize: nat, kept: State -> bool, allowed: (State, Event) -> bool, s: State, es: seq<Event>)
    requires kept(s) && Possible(maxSize, s, es) && Throughout(maxSize, allowed, s, es)
    requires forall t, e | kept(t) && allowed(t, e) && Enabled(t, e) :: kept(Apply(maxSize, t, e))
    ensures kept(After(maxSize, s, es))
    decreases es
  {
    if es != [] {
      RunInduction(maxSize, kept, allowed, Apply(maxSize, s, es[0]), es[1..]);
    }
  }

  /** Nothing is appended while a writer has yet to serve channel `c`. */
  ghost function OneAtATime(c: nat): (State, Event) -> bool {
    (s: State, e: Event) => e.Append? ==> Unheld(s, c)
  }

  lemma AppendKeepsOrder(maxSize: nat, s: State, e: Event, c: nat)
    requires c < |s.chans| && Conserved(s, c) && InOrder(s, c) && e.Append? && Enabled(s, e)
    requires Unheld(s, c)
    ensures InOrder(Apply(maxSize, s, e), c)
  {
    forall i: nat ensures Held(Apply(maxSize, s, e), c, i) <==> i == s.count {
      HeldAfterAppend(maxSize, s, e, c, i);
    }
    forall a | a in Accepted(s.chans[c]) ensures a < s.count {
      assert a in Settled(s.chans[c]);
    }
  }

  lemma IncreasingSnoc(q: seq<nat>, x: nat)
    requires Increasing(q) && forall a <- q :: a < x
    ensures Increasing(q + [x])
  {
    forall i | 0 <= i < |q| ensures q[i] < x {
      assert q[i] in q;
    }
  }

  lemma DeliverKeepsOrder(maxSize: nat, s: State, e: Event, c: nat)
    requires WritersApart(s) && c < |s.chans| && InOrder(s, c) && e.Deliver? && Enabled(s, e)
    ensures InOrder(Apply(maxSize, s, e), c)
  {
    var s', w := Apply(maxSize, s, e), s.writers[e.g];
    forall i: nat ensures Held(s', c, i) <==> Held(s, c, i) && !(c == w.todo[0] && i == w.item) {
      HeldAfterDelivery(maxSize, s, e, c, i);
    }
    if c == w.todo[0] {
      assert Held(s, c, w.item);
      OfferExtends(s.chans[c], w.item);
      IncreasingSnoc(Accepted(s.chans[c]), w.item);
      assert forall i: nat :: !Held(s', c, i);
    }
  }

  lemma OfferExtends(ch: Chan, item: nat)
    ensures var q := Accepted(Offered(ch, item)); q == Accepted(ch) || q == Accepted(ch) + [item]
  {
    if |ch.queue| < CHANNEL_SIZE {
      assert Accepted(Offered(ch, item)) == Accepted(ch) + [item];
    }
  }

  lemma OtherStepsKeepOrder(maxSize: nat, s: State, e: Event, c: nat)
    requires c < |s.chans| && InOrder(s, c) && Enabled(s, e) && (e.Subscribe? || e.Receive?)
    ensures InOrder(Apply(maxSize, s, e), c)
  {
    var s' := Apply(maxSize, s, e);
    SameHeld(s, s', c);
    if e == Receive(c) {
      assert Accepted(s'.chans[c]) == Accepted(s.chans[c]);
    }
  }

  lemma StepKeepsOrder(maxSize: nat, s: State, e: Event, c: nat)
    requires Inv(s) && c < |s.chans| && InOrder(s, c) && Enabled(s, e)
    requires e.Append? ==> Unheld(s, c)
    ensures InOrder(Apply(maxSize, s, e), c)
  {
    match e
    case Append(_) => AppendKeepsOrder(maxSize, s, e, c);
    case Deliver(_) => DeliverKeepsOrder(maxSize, s, e, c);
    case _ => OtherStepsKeepOrder(maxSize, s, e, c);
  }

  ghost predicate InvInOrder(s: State, c: nat) {
    Inv(s) && c < |s.chans| && InOrder(s, c)
  }

  lemma StepKeepsBoth(maxSize: nat, s: State, e: Event, c: nat)
    requires InvInOrder(s, c) && Enabled(s, e) && OneAtATime(c)(s, e)
    ensures InvInOrder(Apply(maxSize, s, e), c)
  {
    StepKeepsOrder(maxSize, s, e, c);
    StepKeepsInv(maxSize, s, e);
  }

  lemma RunKeepsOrder(maxSize: nat, s: State, es: seq<Event>, c: nat)
    requires InvInOrder(s, c) && Possible(maxSize, s, es) && Throughout(maxSize, OneAtATime(c), s, es)
    ensures ArrivesInOrder(After(maxSize, s, es), c)
  {
    var kept := (t: State) => InvInOrder(t, c);
    forall t, e | kept(t) && OneAtATime(c)(t, e) && Enabled(t, e) ensures kept(Apply(maxSize, t, e)) {
      StepKeepsBoth(maxSize, t, e, c);
    }
    RunInduction(maxSize, kept, OneAtATime(c), s, es);
    TakenInOrder(After(maxSize, s, es), c);
  }

  ghost predicate ArrivesInOrder(s: State, c: nat) {
    c < |s.chans| && Increasing(s.chans[c].taken) && Increasing(Accepted(s.chans[c]))
  }

  lemma TakenInOrder(s: State, c: nat)
    requires InvInOrder(s, c)
    ensures ArrivesInOrder(s, c)
  {
    var ch := s.chans[c];
    assert ch.taken == Accepted(ch)[..|ch.taken|];
  }

  lemma SubscribedInOrder(maxSize: nat, s: State)
    requires Inv(s)
    ensures InvInOrder(Apply(maxSize, s, Subscribe), |s.chans|)
  {
    SubscribeKeepsInv(maxSize, s);
    NewInOrder(s, Apply(maxSize, s, Subscribe), |s.chans|);
  }

  lemma NewInOrder(s: State, s': State, c: nat)
    requires WritersApart(s) && c == |s.chans| < |s'.chans| && s'.chans[c] == Chan([], [], [], s.count)
    requires s'.writers == s.writers
    ensures InOrder(s', c)
  {
    SameHeld(s, s', c);
    forall i: nat ensures !Held(s, c, i) {
    }
  }

  // ---------- Loss of order ----------

  predicate Quiet(es: seq<Event>) {
    forall e <- es :: !e.Append?
  }

  lemma {:induction false} QuietIsAllowed(maxSize: nat, s: State, es: seq<Event>, c: nat)
    requires Possible(maxSize, s, es) && Quiet(es)
    ensures Throughout(maxSize, OneAtATime(c), s, es)
    decreases es
  {
    if es != [] {
      QuietIsAllowed(maxSize, Apply(maxSize, s, es[0]), es[1..], c);
    }
  }

  lemma TailOfSum<T>(a: seq<T>, b: seq<T>)
    requires a != []
    ensures (a + b)[0] == a[0] && (a + b)[1..] == a[1..] + b
  {
  }

  lemma {:induction false} RunsCompose(maxSize: nat, s: State, es: seq<Event>, fs: seq<Event>)
    requires Possible(maxSize, s, es) && Possible(maxSize, After(maxSize, s, es), fs)
    ensures Possible(maxSize, s, es + fs) && After(maxSize, s, es + fs) == After(maxSize, After(maxSize, s, es), fs)
    decreases es
  {
    if es == [] {
      assert es + fs == fs;
    } else {
      RunsCompose(maxSize, Apply(maxSize, s, es[0]), es[1..], fs);
      TailOfSum(es, fs);
    }
  }

  lemma OneStep(maxSize: nat, s: State, e: Event)
    requires Enabled(s, e)
    ensures Possible(maxSize, s, [e]) && After(maxSize, s, [e]) == Apply(maxSize, s, e)
  {
    assert [e][1..] == [];
  }

  /** From `s` to `s'` only deliveries and receptions; the writers but `g` stand as they were, and channel `c`
      has accepted `more`. */
  ghost predicate Leads(maxSize: nat, s: State, es: seq<Event>, s': State, g: nat, c: nat, more: seq<nat>) {
    && Possible(maxSize, s, es) && Quiet(es) && After(maxSize, s, es) == s'
    && |s'.chans| == |s.chans| && c < |s.chans| && Accepted(s'.chans[c]) == Accepted(s.chans[c]) + more
    && forall h <- s.writers :: h != g ==> h in s'.writers && s'.writers[h] == s.writers[h]
  }

  lemma LeadsOn(maxSize: nat, s: State, es: seq<Event>, s1: State, fs: seq<Event>, s2: State, g: nat, c: nat,
                more: seq<nat>, more': seq<nat>)
    requires Leads(maxSize, s, es, s1, g, c, more) && Leads(maxSize, s1, fs, s2, g, c, more')
    ensures Leads(maxSize, s, es + fs, s2, g, c, more + more')
  {
    RunsCompose(maxSize, s, es, fs);
  }

  /** A reception, if the buffer is full. */
  lemma MakeRoom(maxSize: nat, s: State, g: nat, c: nat) returns (es: seq<Event>, s': State)
    requires c < |s.chans| && |s.chans[c].queue| <= CHANNEL_SIZE
    ensures Leads(maxSize, s, es, s', g, c, []) && s'.writers == s.writers && |s'.chans[c].queue| < CHANNEL_SIZE
  {
    es, s' := [], s;
    if |s.chans[c].queue| == CHANNEL_SIZE {
      es, s' := [Receive(c)], Apply(maxSize, s, Receive(c));
      OneStep(maxSize, s, Receive(c));
      assert Accepted(s'.chans[c]) == Accepted(s.chans[c]);
    }
  }

  /** Writer `g` goes on until it has served channel `c`. */
  lemma {:induction false} Serve(maxSize: nat, s: State, g: nat, c: nat) returns (es: seq<Event>, s': State)
    requires WritersApart(s) && g in s.writers && c in s.writers[g].todo
    requires c < |s.chans| && |s.chans[c].queue| < CHANNEL_SIZE
    ensures Leads(maxSize, s, es, s', g, c, [s.writers[g].item])
    decreases |s.writers[g].todo|
  {
    var w, e := s.writers[g], Deliver(g);
    assert w.todo[0] in w.todo;
    var s1 := Apply(maxSize, s, e);
    OneStep(maxSize, s, e);
    if w.todo[0] == c {
      es, s' := [e], s1;
      assert Accepted(s1.chans[c]) == Accepted(s.chans[c]) + [w.item];
    } else {
      DeliverKeepsApart(maxSize, s, e);
      assert s1.writers[g] == w.(todo := w.todo[1..]) && c in w.todo[1..];
      var fs;
      fs, s' := Serve(maxSize, s1, g, c);
      assert Leads(maxSize, s, [e], s1, g, c, []);
      LeadsOn(maxSize, s, [e], s1, fs, s', g, c, [], [w.item]);
      es := [e] + fs;
      assert [] + [w.item] == [w.item];
    }
  }

  /** The entry `i`, held for channel `c`, is the next one it accepts. */
  lemma ServeHeld(maxSize: nat, s: State, c: nat, i: nat) returns (es: seq<Event>, s': State, g: nat)
    requires Inv(s) && c < |s.chans| && Held(s, c, i)
    ensures Leads(maxSize, s, es, s', g, c, [i]) && Inv(s')
    ensures forall j: nat :: Held(s, c, j) && j != i ==> Held(s', c, j)
  {
    g :| g in s.writers && s.writers[g].item == i && c in s.writers[g].todo;
    assert Conserved(s, c);
    var es1, s1 := MakeRoom(maxSize, s, g, c);
    RunKeepsInv(maxSize, s, es1);
    var es2;
    es2, s' := Serve(maxSize, s1, g, c);
    RunKeepsInv(maxSize, s1, es2);
    es := es1 + es2;
    LeadsOn(maxSize, s, es1, s1, es2, s', g, c, [], [i]);
    assert [] + [i] == [i];
    OthersStillHeld(s, s', g, c, i);
  }

  lemma OthersStillHeld(s: State, s': State, g: nat, c: nat, i: nat)
    requires g in s.writers && s.writers[g].item == i
    requires forall h <- s.writers :: h != g ==> h in s'.writers && s'.writers[h] == s.writers[h]
    ensures forall j: nat :: Held(s, c, j) && j != i ==> Held(s', c, j)
  {
    forall j: nat | Held(s, c, j) && j != i ensures Held(s', c, j) {
      var h :| h in s.writers && s.writers[h].item == j && c in s.writers[h].todo;
      assert h in s'.writers && s'.writers[h].item == j && c in s'.writers[h].todo;
    }
  }

  lemma NotIncreasing(q: seq<nat>, a: nat, i: nat)
    requires a in q && i < a
    ensures !Increasing(q + [i])
  {
    var k :| 0 <= k < |q| && q[k] == a;
    assert (q + [i])[k] == a && (q + [i])[|q|] == i;
  }

  /** An entry still held is older than one already accepted: it comes too late. */
  lemma LateEntry(maxSize: nat, s: State, c: nat, i: nat, a: nat) returns (es: seq<Event>, s': State)
    requires Inv(s) && c < |s.chans| && Held(s, c, i) && a in Accepted(s.chans[c]) && i < a
    ensures Possible(maxSize, s, es) && Quiet(es) && After(maxSize, s, es) == s' && !ArrivesInOrder(s', c)
  {
    var g;
    es, s', g := ServeHeld(maxSize, s, c, i);
    NotIncreasing(Accepted(s.chans[c]), a, i);
  }

  /** Two entries held at once: the later one can be served first. */
  lemma Overtaken(maxSize: nat, s: State, c: nat, i: nat, j: nat) returns (es: seq<Event>, s': State)
    requires Inv(s) && c < |s.chans| && Held(s, c, i) && Held(s, c, j) && i < j
    ensures Possible(maxSize, s, es) && Quiet(es) && After(maxSize, s, es) == s' && !ArrivesInOrder(s', c)
  {
    var es1, s1, g := ServeHeld(maxSize, s, c, j);
    var es2;
    es2, s' := LateEntry(maxSize, s1, c, i, j);
    RunsCompose(maxSize, s, es1, es2);
    es := es1 + es2;
  }

  /** Where order is lost already or two entries are on their way, some run without any append shows it. */
  lemma Disorder(maxSize: nat, s: State, c: nat) returns (es: seq<Event>, s': State)
    requires Inv(s) && c < |s.chans| && !InOrder(s, c)
    ensures Possible(maxSize, s, es) && Quiet(es) && After(maxSize, s, es) == s' && !ArrivesInOrder(s', c)
  {
    if !Increasing(Accepted(s.chans[c])) {
      es, s' := [], s;
    } else if i: nat, a :| Held(s, c, i) && a in Accepted(s.chans[c]) && i <= a {
      HeldNotAccepted(s, c, i);
      es, s' := LateEntry(maxSize, s, c, i, a);
    } else {
      var i: nat, j: nat :| Held(s, c, i) && Held(s, c, j) && i != j;
      es, s' := Overtaken(maxSize, s, c, if i < j then i else j, if i < j then j else i);
    }
  }

  lemma HeldNotAccepted(s: State, c: nat, i: nat)
    requires Inv(s) && c < |s.chans| && Held(s, c, i)
    ensures i !in Accepted(s.chans[c])
  {
    assert Conserved(s, c);
    assert i !in Settled(s.chans[c]);
  }

  /** Order at a channel is exactly the absence of overlap: from a state on, all runs without overlapping appends
      bring their entries in the order of the appends if and only if what has been accepted is in
      order and at most one entry, a later one, is on its way. */
  lemma OrderIff(maxSize: nat, s: State, c: nat)
    requires Inv(s) && c < |s.chans|
    ensures (forall es | Possible(maxSize, s, es) && Throughout(maxSize, OneAtATime(c), s, es) ::
               ArrivesInOrder(After(maxSize, s, es), c))
       <==> InOrder(s, c)
  {
    if InOrder(s, c) {
      forall es | Possible(maxSize, s, es) && Throughout(maxSize, OneAtATime(c), s, es)
        ensures ArrivesInOrder(After(maxSize, s, es), c)
      {
        RunKeepsOrder(maxSize, s, es, c);
      }
    } else {
      var es, s' := Disorder(maxSize, s, c);
      QuietIsAllowed(maxSize, s, es, c);
    }
  }

  lemma StaysOrdered(maxSize: nat, s: State, es: seq<Event>, c: nat)
    requires InvInOrder(s, c) && Possible(maxSize, s, es) && Throughout(maxSize, OneAtATime(c), s, es)
    ensures ArrivesInOrder(After(maxSize, s, es), c)
  {
    OrderIff(maxSize, s, c);
  }

  /** And a step keeps a channel so if and only if it is not an append that overlaps. */
  lemma StepKeepsOrderIff(maxSize: nat, s: State, e: Event, c: nat)
    requires Inv(s) && c < |s.chans| && InOrder(s, c) && Enabled(s, e)
    ensures c < |Apply(maxSize, s, e).chans|
    ensures InOrder(Apply(maxSize, s, e), c) <==> OneAtATime(c)(s, e)
  {
    if OneAtATime(c)(s, e) {
      StepKeepsOrder(maxSize, s, e, c);
    } else {
      OverlapBreaksOrder(maxSize, s, e, c);
    }
  }

  lemma OverlapBreaksOrder(maxSize: nat, s: State, e: Event, c: nat)
    requires Inv(s) && c < |s.chans| && e.Append? && Enabled(s, e) && !Unheld(s, c)
    ensures !InOrder(Apply(maxSize, s, e), c)
  {
    var i: nat :| Held(s, c, i);
    assert Conserved(s, c);
    HeldAfterAppend(maxSize, s, e, c, i);
    HeldAfterAppend(maxSize, s, e, c, s.count);
  }

  /** A subscription made at any point of any run gets its entries in the order of the appends, as long as
      nothing is appended while another writer has yet to serve it. */
  lemma EntriesInOrder(maxSize: nat, before: seq<Event>, later: seq<Event>)
    requires Possible(maxSize, INIT, before)
    requires var s0 := Apply(maxSize, After(maxSize, INIT, before), Subscribe);
      Possible(maxSize, s0, later) && Throughout(maxSize, OneAtATime(|s0.chans| - 1), s0, later)
    ensures var s0 := Apply(maxSize, After(maxSize, INIT, before), Subscribe);
      ArrivesInOrder(After(maxSize, s0, later), |s0.chans| - 1)
  {
    RunKeepsInv(maxSize, INIT, before);
    SubscriberOrdered(maxSize, After(maxSize, INIT, before), later);
  }

  lemma SubscriberOrdered(maxSize: nat, s: State, es: seq<Event>)
    requires Inv(s) && Possible(maxSize, Apply(maxSize, s, Subscribe), es)
    requires Throughout(maxSize, OneAtATime(|s.chans|), Apply(maxSize, s, Subscribe), es)
    ensures ArrivesInOrder(After(maxSize, Apply(maxSize, s, Subscribe), es), |s.chans|)
  {
    SubscribedInOrder(maxSize, s);
    StaysOrdered(maxSize, Apply(maxSize, s, Subscribe), es, |s.chans|);
  }

  /** From every reachable state, with any number of listeners: an append that overlaps another at a listener can be
      followed, without any further append, by the entries arriving there in the wrong order. */
  lemma OverlapReorders(maxSize: nat, before: seq<Event>, g: nat, c: nat) returns (es: seq<Event>)
    requires Possible(maxSize, INIT, before)
    requires var s := After(maxSize, INIT, before); c < |s.chans| && !Unheld(s, c) && g !in s.writers
    ensures var s1 := Apply(maxSize, After(maxSize, INIT, before), Append(g));
      Possible(maxSize, s1, es) && Quiet(es) && !ArrivesInOrder(After(maxSize, s1, es), c)
  {
    RunKeepsInv(maxSize, INIT, before);
    var s := After(maxSize, INIT, before);
    OverlapBreaksOrder(maxSize, s, Append(g), c);
    StepKeepsInv(maxSize, s, Append(g));
    var s';
    es, s' := Disorder(maxSize, Apply(maxSize, s, Append(g)), c);
  }

  /** Such states are reached at once: one listener, one write begun. */
  lemma OverlapReached(maxSize: nat)
    ensures var before := [Subscribe, Append(0)];
      Possible(maxSize, INIT, before) && |After(maxSize, INIT, before).chans| == 1 && !Unheld(After(maxSize, INIT, before), 0)
  {
    var s1 := Apply(maxSize, INIT, Subscribe);
    var s2 := Apply(maxSize, s1, Append(0));
    OneStep(maxSize, INIT, Subscribe);
    OneStep(maxSize, s1, Append(0));
    RunsCompose(maxSize, INIT, [Subscribe], [Append(0)]);
    assert [Subscribe] + [Append(0)] == [Subscribe, Append(0)];
    HeldAfterAppend(maxSize, s1, Append(0), 0, 0);
  }

  // ---------- Replay and stream ----------

  lemma AppendKeepsRing(entries: seq<nat>, maxSize: nat, count: nat)
    requires maxSize > 0 && IsTail(entries, maxSize, UpTo(count))
    ensures IsTail(Appended(entries, maxSize, count), maxSize, UpTo(count + 1))
  {
    AppendKeepsTail(entries, maxSize, UpTo(count), count);
    assert UpTo(count) + [count] == UpTo(count + 1);
  }

  lemma {:induction false} RunKeepsRing(maxSize: nat, s: State, es: seq<Event>)
    requires maxSize > 0 && IsTail(s.entries, maxSize, UpTo(s.count)) && Possible(maxSize, s, es)
    ensures var s' := After(maxSize, s, es); IsTail(s'.entries, maxSize, UpTo(s'.count))
    decreases es
  {
    if es != [] {
      if es[0].Append? {
        AppendKeepsRing(s.entries, maxSize, s.count);
      }
      RunKeepsRing(maxSize, Apply(maxSize, s, es[0]), es[1..]);
    }
  }

  /** The ring, in every interleaving: the last min(count, maxSize) entries. */
  lemma RingIsTail(maxSize: nat, es: seq<Event>)
    requires maxSize > 0 && Possible(maxSize, INIT, es)
    ensures var s := After(maxSize, INIT, es); IsTail(s.entries, maxSize, UpTo(s.count))
  {
    RunKeepsRing(maxSize, INIT, es);
  }

  /** `handleLogs`: subscribe after `before`, replay after `between`, then stream through `later`. Every entry
      from the first one replayed to the last one written is replayed, or received, or in the
      buffer, or still held by its writer, or was dropped by a full buffer; an entry after the replay is in
      exactly one of those places, once. The entries replayed that also come by the stream are exactly
      those appended since the subscription. */
  lemma StreamComplete(maxSize: nat, before: seq<Event>, between: seq<Event>, later: seq<Event>, i: nat)
    requires maxSize > 0 && Possible(maxSize, INIT, before)
    requires var s0 := Apply(maxSize, After(maxSize, INIT, before), Subscribe);
      Possible(maxSize, s0, between) && Possible(maxSize, After(maxSize, s0, between), later)
    ensures var s0 := Apply(maxSize, After(maxSize, INIT, before), Subscribe);
      var s1 := After(maxSize, s0, between);
      Streamed(s0.count, s1, After(maxSize, s1, later), |s0.chans| - 1, i)
  {
    RunKeepsInv(maxSize, INIT, before);
    var sb := After(maxSize, INIT, before);
    SubscribeKeepsInv(maxSize, sb);
    ReplaySince(maxSize, before, between, i);
    StreamFrom(maxSize, Apply(maxSize, sb, Subscribe), between, later, i);
  }

  /** What the handler may rely on for entry `i`, having subscribed when there were `since` entries, replayed at `s1`
      and being now at `s2`. */
  ghost predicate Streamed(since: nat, s1: State, s2: State, c: nat, i: nat) {
    var replay := RecentOf(s1.entries, 50);
    && c < |s2.chans| && |s2.chans[c].queue| <= 64 && NoRepeats(Settled(s2.chans[c]))
    && (i in replay <==> s1.count - |replay| <= i < s1.count)
    && (i in replay ==> (i in Settled(s2.chans[c]) || Held(s2, c, i) <==> since <= i))
    && (s1.count <= i < s2.count ==> (i in Settled(s2.chans[c]) <==> !Held(s2, c, i)))
    && (s1.count - |replay| <= i < s2.count ==> i in replay || i in Settled(s2.chans[c]) || Held(s2, c, i))
  }

  /** `i` is replayed at `s` exactly if it is one of the last entries, as many as are replayed. */
  ghost predicate ReplaysTail(s: State, i: nat) {
    var replay := RecentOf(s.entries, REPLAY);
    |replay| <= s.count && (i in replay <==> s.count - |replay| <= i < s.count)
  }

  lemma StreamFrom(maxSize: nat, s0: State, between: seq<Event>, later: seq<Event>, i: nat)
    requires Inv(s0) && s0.chans != [] && s0.chans[|s0.chans| - 1].since == s0.count
    requires Possible(maxSize, s0, between) && Possible(maxSize, After(maxSize, s0, between), later)
    requires ReplaysTail(After(maxSize, s0, between), i)
    ensures var s1 := After(maxSize, s0, between); Streamed(s0.count, s1, After(maxSize, s1, later), |s0.chans| - 1, i)
  {
    var s1, c := After(maxSize, s0, between), |s0.chans| - 1;
    RunKeepsInv(maxSize, s0, between);
    RunGrows(maxSize, s0, between);
    RunKeepsInv(maxSize, s1, later);
    RunGrows(maxSize, s1, later);
    StreamedOnce(s0.count, s1, After(maxSize, s1, later), c, i);
  }

  lemma StreamedOnce(since: nat, s1: State, s2: State, c: nat, i: nat)
    requires Inv(s2) && c < |s2.chans| && s2.chans[c].since == since <= s1.count <= s2.count && ReplaysTail(s1, i)
    ensures Streamed(since, s1, s2, c, i)
  {
    assert Conserved(s2, c);
  }

  lemma ReplaySince(maxSize: nat, before: seq<Event>, between: seq<Event>, i: nat)
    requires maxSize > 0 && Possible(maxSize, INIT, before)
    requires Possible(maxSize, Apply(maxSize, After(maxSize, INIT, before), Subscribe), between)
    ensures ReplaysTail(After(maxSize, Apply(maxSize, After(maxSize, INIT, before), Subscribe), between), i)
  {
    RunKeepsRing(maxSize, INIT, before);
    RunKeepsRing(maxSize, Apply(maxSize, After(maxSize, INIT, before), Subscribe), between);
    TailReplayed(maxSize, After(maxSize, Apply(maxSize, After(maxSize, INIT, before), Subscribe), between), i);
  }

  lemma TailReplayed(maxSize: nat, s: State, i: nat)
    requires IsTail(s.entries, maxSize, UpTo(s.count))
    ensures ReplaysTail(s, i)
  {
    var r := RecentOf(s.entries, REPLAY);
    RecentIsTail(s.entries, maxSize, UpTo(s.count), REPLAY);
    if s.count - |r| <= i < s.count {
      assert r[i - (s.count - |r|)] == UpTo(s.count)[i];
    }
  }
}
