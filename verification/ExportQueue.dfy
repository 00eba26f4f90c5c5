/** The bounded export queue behind spans, logs and AI calls.

    One batch at most is in flight.  While it is, the program goes on enqueuing; when it fails
    it goes back to the front, and whatever exceeds the cap is dropped from the oldest end. */
module ExportQueue {
  import opened Options

  /** What distinguishes the three queues: the cap, the length that triggers a flush on enqueue
      (0 for never), and whether items are refused before the exporter is configured. */
  datatype Policy = Policy(max: nat, flushAt: nat, refuses: bool)

  /** All that the results below ask of a queue. */
  predicate Legal(c: Policy) { 1 <= c.max && c.flushAt <= c.max }

  type LegalPolicy = c: Policy | Legal(c) witness Policy(1, 0, false)

  const SPANS: LegalPolicy := Policy(200, 0, true)
  const LOGS: LegalPolicy := Policy(500, 20, false)
  const AI_CALLS: LegalPolicy := Policy(200, 10, false)

  /** `Fetched` and `Failed` are the two ways the pending `fetch` can settle. */
  datatype Event<T> = Configure(on: bool) | Enqueue(item: T) | Flush | Fetched | Failed

  datatype Queue<T> = Queue(configured: bool, buffer: seq<T>, inFlight: Option<seq<T>>)

  function Last<T>(s: seq<T>, n: nat): seq<T> {
    if |s| <= n then s else s[|s| - n..]
  }

  function Flushed<T>(q: Queue<T>): Queue<T> {
    if !q.configured || q.buffer == [] || q.inFlight.Some? then q
    else q.(buffer := [], inFlight := Some(q.buffer))
  }

  function Accepts<T>(c: Policy, q: Queue<T>): bool { q.configured || !c.refuses }

  function Pushed<T>(c: Policy, q: Queue<T>, x: T): Queue<T>
    requires Legal(c)
  {
    var kept := if |q.buffer| >= c.max then q.buffer[|q.buffer| - c.max + 1..] else q.buffer;
    var next := q.(buffer := kept + [x]);
    if 0 < c.flushAt <= |next.buffer| && q.inFlight.None? then Flushed(next) else next
  }

  function Next<T>(c: Policy, q: Queue<T>, e: Event<T>): Queue<T>
    requires Legal(c)
  {
    match e
    case Configure(on) => q.(configured := on)
    case Enqueue(x) => if Accepts(c, q) then Pushed(c, q, x) else q
    case Flush => Flushed(q)
    case Fetched => q.(inFlight := None)
    case Failed =>
      if q.inFlight.None? then q
      else q.(buffer := Last(q.inFlight.value + q.buffer, c.max), inFlight := None)
  }

  function Run<T>(c: Policy, q: Queue<T>, es: seq<Event<T>>): Queue<T>
    requires Legal(c)
  {
    if es == [] then q else Next(c, Run(c, q, es[..|es| - 1]), es[|es| - 1])
  }

  function Start<T>(): Queue<T> { Queue(false, [], None) }

  // ---------------------------------------------------------------- the queue without a cap

  /** All items not yet acknowledged, and how many of them a batch in flight carries. */
  datatype Backlog<T> = Backlog(configured: bool, pending: seq<T>, taken: Option<nat>)

  function Unsent<T>(b: Backlog<T>): seq<T> {
    if b.taken.Some? && b.taken.value <= |b.pending| then b.pending[b.taken.value..] else b.pending
  }

  function BacklogFlushed<T>(b: Backlog<T>): Backlog<T> {
    if !b.configured || b.pending == [] || b.taken.Some? then b else b.(taken := Some(|b.pending|))
  }

  /** Here a failed batch changes nothing but that it is no longer in flight. */
  function BacklogNext<T>(c: Policy, b: Backlog<T>, e: Event<T>): Backlog<T> {
    match e
    case Configure(on) => b.(configured := on)
    case Enqueue(x) =>
      if !b.configured && c.refuses then b
      else
        var next := b.(pending := b.pending + [x]);
        if 0 < c.flushAt <= |next.pending| && b.taken.None? then BacklogFlushed(next) else next
    case Flush => BacklogFlushed(b)
    case Fetched => Backlog(b.configured, Unsent(b), None)
    case Failed => b.(taken := None)
  }

  function BacklogRun<T>(c: Policy, b: Backlog<T>, es: seq<Event<T>>): Backlog<T> {
    if es == [] then b else BacklogNext(c, BacklogRun(c, b, es[..|es| - 1]), es[|es| - 1])
  }

  function NoBacklog<T>(): Backlog<T> { Backlog(false, [], None) }

  /** The queue holds the newest `max` of what is still unacknowledged: of the batch and of the
      buffer separately while a batch is in flight, of everything together otherwise. */
  ghost predicate Holds<T>(c: Policy, q: Queue<T>, b: Backlog<T>) {
    && q.configured == b.configured
    && match b.taken
       case None => q.inFlight == None && q.buffer == Last(b.pending, c.max)
       case Some(n) =>
         && 1 <= n <= |b.pending|
         && q.inFlight == Some(Last(b.pending[..n], c.max))
         && q.buffer == Last(b.pending[n..], c.max)
  }

  lemma LastAppend<T>(s: seq<T>, t: seq<T>, n: nat)
    ensures Last(Last(s, n) + Last(t, n), n) == Last(s + t, n)
  {
  }

  lemma LastSize<T>(s: seq<T>, n: nat)
    ensures |Last(s, n)| == if |s| <= n then |s| else n
  {
  }

  lemma LastPush<T>(s: seq<T>, n: nat, x: T)
    requires n >= 1
    ensures Last(s + [x], n) == (if |Last(s, n)| >= n then Last(s, n)[|Last(s, n)| - n + 1..] else Last(s, n)) + [x]
  {
  }

  lemma PushHolds<T>(c: Policy, q: Queue<T>, b: Backlog<T>, x: T)
    requires Legal(c) && Holds(c, q, b) && Accepts(c, q)
    ensures Holds(c, Next(c, q, Enqueue(x)), BacklogNext(c, b, Enqueue(x)))
  {
    hide Last;
    LastSize(b.pending, c.max);
    LastSize(b.pending + [x], c.max);
    match b.taken
    case None =>
      LastPush(b.pending, c.max, x);
      var all := b.pending + [x];
      LastSize(all[|all|..], c.max);
      assert all[..|all|] == all && all[|all|..] == [];
    case Some(n) =>
      LastPush(b.pending[n..], c.max, x);
      assert (b.pending + [x])[..n] == b.pending[..n];
      assert (b.pending + [x])[n..] == b.pending[n..] + [x];
  }

  lemma NextHolds<T>(c: Policy, q: Queue<T>, b: Backlog<T>, e: Event<T>)
    requires Legal(c) && Holds(c, q, b)
    ensures Holds(c, Next(c, q, e), BacklogNext(c, b, e))
  {
    match e
    case Configure(_) =>
    case Enqueue(x) => if Accepts(c, q) { PushHolds(c, q, b, x); }
    case Flush => assert b.pending[..|b.pending|] == b.pending && b.pending[|b.pending|..] == [];
    case Fetched =>
    case Failed =>
      if b.taken.Some? {
        var n := b.taken.value;
        LastAppend(b.pending[..n], b.pending[n..], c.max);
        assert b.pending[..n] + b.pending[n..] == b.pending;
      }
  }

  /** Over every run the queue holds the newest `max` items of a backlog in which failures leave no
      trace, however many there were and whatever was enqueued or dropped while batches were in flight. */
  lemma {:induction false} RunHolds<T>(c: Policy, es: seq<Event<T>>)
    requires Legal(c)
    ensures Holds(c, Run(c, Start(), es), BacklogRun(c, NoBacklog(), es))
    decreases |es|
  {
    if es != [] {
      RunHolds(c, es[..|es| - 1]);
      NextHolds(c, Run(c, Start(), es[..|es| - 1]), BacklogRun(c, NoBacklog(), es[..|es| - 1]), es[|es| - 1]);
    }
  }

  function Enqueues<T>(xs: seq<T>): seq<Event<T>> {
    seq(|xs|, i requires 0 <= i < |xs| => Enqueue(xs[i]))
  }

  lemma RunSnoc<T>(c: Policy, es: seq<Event<T>>, e: Event<T>)
    ensures BacklogRun(c, NoBacklog(), es + [e]) == BacklogNext(c, BacklogRun(c, NoBacklog(), es), e)
  {
    assert (es + [e])[..|es|] == es;
  }

  /** Enqueuing extends the backlog the same way whether or not a batch is in flight; without a
      threshold it starts none. */
  lemma {:induction false} EnqueuesOnly<T>(c: Policy, es: seq<Event<T>>, xs: seq<T>)
    ensures var b, a := BacklogRun(c, NoBacklog(), es), BacklogRun(c, NoBacklog(), es + Enqueues(xs));
            && a.configured == b.configured && (c.flushAt == 0 ==> a.taken == b.taken)
            && a.pending == if b.configured || !c.refuses then b.pending + xs else b.pending
    decreases |xs|
  {
    hide BacklogRun;
    var b := BacklogRun(c, NoBacklog(), es);
    if xs == [] {
      assert es + Enqueues(xs) == es;
      assert b.pending + xs == b.pending;
    } else {
      var front, x := xs[..|xs| - 1], xs[|xs| - 1];
      EnqueuesOnly(c, es, front);
      assert es + Enqueues(xs) == es + Enqueues(front) + [Enqueue(x)];
      RunSnoc(c, es + Enqueues(front), Enqueue(x));
      assert b.pending + xs == b.pending + front + [x];
    }
  }

  /** A failed flush is unobservable: with whatever is enqueued before it fails, it leaves exactly the
      queue that would have been left had it not been asked for.  Where enqueuing itself never
      flushes and the queue was idle, that is the queue that enqueuing alone would have left. */
  lemma {:induction false} FailedFlushUnobservable<T>(c: Policy, es: seq<Event<T>>, xs: seq<T>)
    requires Legal(c)
    ensures Run(c, Start(), es + [Flush] + Enqueues(xs) + [Failed]) == Run(c, Start(), es + Enqueues(xs) + [Failed])
    ensures c.flushAt == 0 && Run(c, Start(), es).inFlight.None? ==>
              Run(c, Start(), es + [Flush] + Enqueues(xs) + [Failed]) == Run(c, Start(), es + Enqueues(xs))
  {
    hide BacklogRun, Run, Holds, Enqueues;
    RunHolds(c, es);
    IdleTogether(c, Run(c, Start(), es), BacklogRun(c, NoBacklog(), es));
    RunHolds(c, es + [Flush] + Enqueues(xs) + [Failed]);
    RunHolds(c, es + Enqueues(xs));
    RunHolds(c, es + Enqueues(xs) + [Failed]);
    RunSnoc(c, es, Flush);
    EnqueuesOnly(c, es + [Flush], xs);
    RunSnoc(c, es + [Flush] + Enqueues(xs), Failed);
    EnqueuesOnly(c, es, xs);
    RunSnoc(c, es + Enqueues(xs), Failed);
    var flushed := Run(c, Start(), es + [Flush] + Enqueues(xs) + [Failed]);
    SameBacklogSameQueue(c, flushed, Run(c, Start(), es + Enqueues(xs) + [Failed]),
                         BacklogRun(c, NoBacklog(), es + Enqueues(xs) + [Failed]));
    if c.flushAt == 0 && Run(c, Start(), es).inFlight.None? {
      SameBacklogSameQueue(c, flushed, Run(c, Start(), es + Enqueues(xs)), BacklogRun(c, NoBacklog(), es + Enqueues(xs)));
    }
  }

  lemma SameBacklogSameQueue<T>(c: Policy, p: Queue<T>, q: Queue<T>, b: Backlog<T>)
    requires Holds(c, p, b) && Holds(c, q, b)
    ensures p == q
  {
  }

  lemma IdleTogether<T>(c: Policy, q: Queue<T>, b: Backlog<T>)
    requires Holds(c, q, b)
    ensures q.inFlight.None? <==> b.taken.None?
  {
  }

  /** The buffer and the batch never exceed the cap, and a batch is never empty. */
  lemma {:induction false} Bounded<T>(c: Policy, es: seq<Event<T>>)
    requires Legal(c)
    ensures var q := Run(c, Start(), es);
            |q.buffer| <= c.max && (q.inFlight.Some? ==> 1 <= |q.inFlight.value| <= c.max)
  {
    RunHolds(c, es);
  }

  // ---------------------------------------------------------------- what reaches the collector

  /** A run together with everything accepted so far and everything acknowledged so far, in order. */
  datatype World<T> = World(q: Queue<T>, accepted: seq<T>, acked: seq<T>)

  function Carried<T>(q: Queue<T>): seq<T> {
    if q.inFlight.Some? then q.inFlight.value else []
  }

  function Step<T>(c: Policy, w: World<T>, e: Event<T>): World<T>
    requires Legal(c)
  {
    World(Next(c, w.q, e),
          if e.Enqueue? && Accepts(c, w.q) then w.accepted + [e.item] else w.accepted,
          if e.Fetched? then w.acked + Carried(w.q) else w.acked)
  }

  function Observe<T>(c: Policy, es: seq<Event<T>>): World<T>
    requires Legal(c)
  {
    if es == [] then World(Start(), [], []) else Step(c, Observe(c, es[..|es| - 1]), es[|es| - 1])
  }

  function Known<T>(w: World<T>): seq<T> { w.acked + Carried(w.q) + w.q.buffer }

  /** `s` is picked out of `h` at the increasing positions `at`. */
  ghost predicate Picks<T>(at: seq<int>, s: seq<T>, h: seq<T>) {
    && |at| == |s|
    && (forall i :: 0 <= i < |at| ==> 0 <= at[i] < |h| && h[at[i]] == s[i])
    && (forall i, j :: 0 <= i < j < |at| ==> at[i] < at[j])
  }

  ghost predicate Subsequence<T>(s: seq<T>, h: seq<T>) { exists at :: Picks(at, s, h) }

  lemma SubsequenceCut<T>(a: seq<T>, m: seq<T>, z: seq<T>, h: seq<T>)
    requires Subsequence(a + m + z, h)
    ensures Subsequence(a + z, h)
  {
    var at :| Picks(at, a + m + z, h);
    var cut := at[..|a|] + at[|a| + |m|..];
    var s, t := a + m + z, a + z;
    forall i | 0 <= i < |cut|
      ensures 0 <= cut[i] < |h| && h[cut[i]] == t[i]
    {
      if i >= |a| { assert cut[i] == at[i + |m|] && t[i] == s[i + |m|]; }
      else { assert t[i] == s[i]; }
    }
    assert Picks(cut, t, h);
  }

  lemma SubsequencePush<T>(s: seq<T>, h: seq<T>, x: T)
    requires Subsequence(s, h)
    ensures Subsequence(s + [x], h + [x])
  {
    var at :| Picks(at, s, h);
    assert Picks(at + [|h|], s + [x], h + [x]);
  }

  lemma FlushedKnown<T>(w: World<T>)
    ensures w.acked + Carried(Flushed(w.q)) + Flushed(w.q).buffer == Known(w)
  {
  }

  lemma PushSubsequence<T>(c: Policy, w: World<T>, x: T)
    requires Legal(c) && Subsequence(Known(w), w.accepted) && Accepts(c, w.q)
    ensures Subsequence(Known(Step(c, w, Enqueue(x))), w.accepted + [x])
  {
    hide Subsequence;
    var q := w.q;
    var head, k := w.acked + Carried(q), if |q.buffer| >= c.max then |q.buffer| - c.max + 1 else 0;
    assert Known(w) == head + q.buffer[..k] + q.buffer[k..];
    SubsequenceCut(head, q.buffer[..k], q.buffer[k..], w.accepted);
    SubsequencePush(head + q.buffer[k..], w.accepted, x);
    var next := q.(buffer := q.buffer[k..] + [x]);
    assert head + q.buffer[k..] + [x] == head + next.buffer;
    FlushedKnown(World(next, w.accepted, w.acked));
  }

  lemma FailSubsequence<T>(c: Policy, w: World<T>)
    requires Legal(c) && Subsequence(Known(w), w.accepted) && w.q.inFlight.Some?
    ensures Subsequence(Known(Step(c, w, Failed)), w.accepted)
  {
    hide Subsequence;
    var both := w.q.inFlight.value + w.q.buffer;
    var k := if |both| <= c.max then 0 else |both| - c.max;
    assert Known(w) == w.acked + both[..k] + both[k..];
    SubsequenceCut(w.acked, both[..k], both[k..], w.accepted);
    assert Known(Step(c, w, Failed)) == w.acked + both[k..];
  }

  lemma StepSubsequence<T>(c: Policy, w: World<T>, e: Event<T>)
    requires Legal(c) && Subsequence(Known(w), w.accepted)
    ensures Subsequence(Known(Step(c, w, e)), Step(c, w, e).accepted)
  {
    hide Subsequence;
    match e
    case Configure(_) =>
    case Enqueue(x) => if Accepts(c, w.q) { PushSubsequence(c, w, x); }
    case Flush => FlushedKnown(w);
    case Fetched => assert Known(Step(c, w, e)) == Known(w);
    case Failed => if w.q.inFlight.Some? { FailSubsequence(c, w); }
  }

  /** In every run, what was acknowledged, then what is in flight, then what is buffered is a
      subsequence of what was accepted: nothing is reordered and nothing is delivered twice. */
  lemma {:induction false} RunSubsequence<T>(c: Policy, es: seq<Event<T>>)
    requires Legal(c)
    ensures Subsequence(Known(Observe(c, es)), Observe(c, es).accepted)
    ensures Subsequence(Observe(c, es).acked, Observe(c, es).accepted)
    decreases |es|
  {
    var w := Observe(c, es);
    if es == [] {
      assert Picks([], Known(w), w.accepted);
    } else {
      RunSubsequence(c, es[..|es| - 1]);
      StepSubsequence(c, Observe(c, es[..|es| - 1]), es[|es| - 1]);
    }
    var rest := Carried(w.q) + w.q.buffer;
    assert Known(w) == w.acked + rest + [];
    SubsequenceCut(w.acked, rest, [], w.accepted);
    assert w.acked + [] == w.acked;
  }

  /** If no two accepted items are the same, no two acknowledged items are. */
  lemma {:induction false} NoDuplicates<T>(c: Policy, es: seq<Event<T>>)
    requires Legal(c)
    requires var h := Observe(c, es).accepted; forall i, j :: 0 <= i < j < |h| ==> h[i] != h[j]
    ensures var a := Observe(c, es).acked; forall i, j :: 0 <= i < j < |a| ==> a[i] != a[j]
  {
    RunSubsequence(c, es);
    var w := Observe(c, es);
    var at :| Picks(at, w.acked, w.accepted);
  }

  // ---------------------------------------------------------------- when nothing is lost

  /** The two places where items are dropped. */
  predicate Drops<T>(c: Policy, q: Queue<T>, e: Event<T>) {
    || (e.Enqueue? && Accepts(c, q) && |q.buffer| >= c.max)
    || (e.Failed? && q.inFlight.Some? && |q.inFlight.value| + |q.buffer| > c.max)
  }

  predicate NeverDrops<T>(c: Policy, es: seq<Event<T>>)
    requires Legal(c)
  {
    es == [] || (NeverDrops(c, es[..|es| - 1]) && !Drops(c, Observe(c, es[..|es| - 1]).q, es[|es| - 1]))
  }

  lemma StepLoss<T>(c: Policy, w: World<T>, e: Event<T>)
    requires Legal(c)
    ensures var v := Step(c, w, e);
            && |v.accepted| - |Known(v)| >= |w.accepted| - |Known(w)|
            && (Drops(c, w.q, e) ==> |v.accepted| - |Known(v)| > |w.accepted| - |Known(w)|)
            && (!Drops(c, w.q, e) && Known(w) == w.accepted ==> Known(v) == v.accepted)
  {
    var q := w.q;
    if e.Enqueue? && Accepts(c, q) {
      var kept := if |q.buffer| >= c.max then q.buffer[|q.buffer| - c.max + 1..] else q.buffer;
      FlushedKnown(World(q.(buffer := kept + [e.item]), w.accepted, w.acked));
      assert w.acked + Carried(q) + (q.buffer + [e.item]) == Known(w) + [e.item];
    } else if e.Flush? {
      FlushedKnown(w);
    } else if e.Failed? && q.inFlight.Some? {
      assert w.acked + (q.inFlight.value + q.buffer) == Known(w);
    }
  }

  lemma {:induction false} LossNonNegative<T>(c: Policy, es: seq<Event<T>>)
    requires Legal(c)
    ensures |Known(Observe(c, es))| <= |Observe(c, es).accepted|
    decreases |es|
  {
    if es != [] {
      LossNonNegative(c, es[..|es| - 1]);
      StepLoss(c, Observe(c, es[..|es| - 1]), es[|es| - 1]);
    }
  }

  /** Acknowledged, in flight and buffered together are exactly the enqueue history
      if and only if no enqueue met a full buffer and no failed batch came back to too full a one. */
  lemma {:induction false} LosslessExactly<T>(c: Policy, es: seq<Event<T>>)
    requires Legal(c)
    ensures Known(Observe(c, es)) == Observe(c, es).accepted <==> NeverDrops(c, es)
    decreases |es|
  {
    if es != [] {
      var front, e := es[..|es| - 1], es[|es| - 1];
      LosslessExactly(c, front);
      LossNonNegative(c, front);
      StepLoss(c, Observe(c, front), e);
      if !NeverDrops(c, front) { LossGrows(c, front); }
    }
  }

  lemma {:induction false} LossGrows<T>(c: Policy, es: seq<Event<T>>)
    requires Legal(c) && !NeverDrops(c, es)
    ensures |Known(Observe(c, es))| < |Observe(c, es).accepted|
    decreases |es|
  {
    var front := es[..|es| - 1];
    LossNonNegative(c, front);
    StepLoss(c, Observe(c, front), es[|es| - 1]);
    if !NeverDrops(c, front) { LossGrows(c, front); }
  }

  predicate BacklogFits<T>(c: Policy, es: seq<Event<T>>) {
    |BacklogRun(c, NoBacklog(), es).pending| <= c.max && (es == [] || BacklogFits(c, es[..|es| - 1]))
  }

  lemma {:induction false} ObserveRuns<T>(c: Policy, es: seq<Event<T>>)
    requires Legal(c)
    ensures Observe(c, es).q == Run(c, Start(), es)
    decreases |es|
  {
    if es != [] { ObserveRuns(c, es[..|es| - 1]); }
  }

  lemma {:induction false} FittingNeverDrops<T>(c: Policy, es: seq<Event<T>>)
    requires Legal(c) && BacklogFits(c, es)
    ensures NeverDrops(c, es)
    decreases |es|
  {
    if es != [] {
      var front := es[..|es| - 1];
      FittingNeverDrops(c, front);
      RunHolds(c, front);
      ObserveRuns(c, front);
    }
  }

  /** As long as the unacknowledged items never exceed the cap, nothing is lost. */
  lemma {:induction false} FittingBacklogLosesNothing<T>(c: Policy, es: seq<Event<T>>)
    requires Legal(c) && BacklogFits(c, es)
    ensures Known(Observe(c, es)) == Observe(c, es).accepted
  {
    FittingNeverDrops(c, es);
    LosslessExactly(c, es);
  }

  // ---------------------------------------------------------------- the buffer and the history

  /** How many items had been accepted when the batch last taken was taken, and when the batch last
      acknowledged was. */
  datatype Marks = Marks(taken: nat, since: nat)

  function MarksOf<T>(c: Policy, es: seq<Event<T>>): Marks
    requires Legal(c)
  {
    if es == [] then Marks(0, 0)
    else
      var front, e := es[..|es| - 1], es[|es| - 1];
      var m, w, v := MarksOf(c, front), Observe(c, front), Observe(c, es);
      if w.q.inFlight.None? && v.q.inFlight.Some? then m.(taken := |v.accepted|)
      else if e.Fetched? && w.q.inFlight.Some? then m.(since := m.taken)
      else m
  }

  /** The backlog is what was accepted since the batch last acknowledged was taken. */
  ghost predicate Tracks<T>(b: Backlog<T>, accepted: seq<T>, m: Marks) {
    && m.since <= |accepted| && b.pending == accepted[m.since..]
    && (b.taken.Some? ==> m.since <= m.taken <= |accepted| && b.taken.value == m.taken - m.since)
  }

  lemma {:induction false} RunTracks<T>(c: Policy, es: seq<Event<T>>)
    requires Legal(c)
    ensures Tracks(BacklogRun(c, NoBacklog(), es), Observe(c, es).accepted, MarksOf(c, es))
    decreases |es|
  {
    hide Holds;
    if es != [] {
      var front, e := es[..|es| - 1], es[|es| - 1];
      RunTracks(c, front);
      Together(c, front);
      Together(c, es);
      var b, w := BacklogRun(c, NoBacklog(), front), Observe(c, front);
      var since := MarksOf(c, front).since;
      if e.Enqueue? { assert (w.accepted + [e.item])[since..] == w.accepted[since..] + [e.item]; }
    }
  }

  lemma Together<T>(c: Policy, es: seq<Event<T>>)
    requires Legal(c)
    ensures var q, b := Observe(c, es).q, BacklogRun(c, NoBacklog(), es);
            (q.inFlight.None? <==> b.taken.None?) && q.configured == b.configured
  {
    RunHolds(c, es);
    ObserveRuns(c, es);
  }

  /** Over every run, an idle buffer is the newest `max` of what was accepted since the batch last
      acknowledged was taken, however many flushes failed since and whatever was dropped meanwhile.
      While a batch is in flight, it and the buffer are the newest of what was accepted before and
      after it was taken. */
  lemma {:induction false} BufferIsRecentHistory<T>(c: Policy, es: seq<Event<T>>)
    requires Legal(c)
    ensures var w, m := Observe(c, es), MarksOf(c, es);
            && w.q == Run(c, Start(), es)
            && m.since <= |w.accepted|
            && (w.q.inFlight.None? ==> w.q.buffer == Last(w.accepted[m.since..], c.max))
            && (w.q.inFlight.Some? ==>
                  && m.since < m.taken <= |w.accepted|
                  && w.q.inFlight.value == Last(w.accepted[m.since..m.taken], c.max)
                  && w.q.buffer == Last(w.accepted[m.taken..], c.max))
  {
    hide Run, BacklogRun, MarksOf, Last;
    RunHolds(c, es);
    ObserveRuns(c, es);
    RunTracks(c, es);
    var b, w, m := BacklogRun(c, NoBacklog(), es), Observe(c, es), MarksOf(c, es);
    if b.taken.Some? {
      var n := b.taken.value;
      assert b.pending[..n] == w.accepted[m.since..m.taken] && b.pending[n..] == w.accepted[m.taken..];
    }
  }

  // ---------------------------------------------------------------- that anything is sent

  /** Whether the exporter is configured, by the event that last said so. */
  function ConfiguredBy<T>(es: seq<Event<T>>): bool {
    if es == [] then false
    else if es[|es| - 1].Configure? then es[|es| - 1].on else ConfiguredBy(es[..|es| - 1])
  }

  /** The items enqueued, without those that a refusing queue is given while it is not configured. */
  function Admitted<T>(es: seq<Event<T>>, refuses: bool): seq<T> {
    if es == [] then []
    else
      var front, e := es[..|es| - 1], es[|es| - 1];
      if e.Enqueue? && (ConfiguredBy(front) || !refuses) then Admitted(front, refuses) + [e.item]
      else Admitted(front, refuses)
  }

  /** What is accepted, told from the events alone. */
  lemma {:induction false} AcceptedExactly<T>(c: Policy, es: seq<Event<T>>)
    requires Legal(c)
    ensures Observe(c, es).q.configured == ConfiguredBy(es)
    ensures Observe(c, es).accepted == Admitted(es, c.refuses)
    decreases |es|
  {
    hide Last;
    if es != [] { AcceptedExactly(c, es[..|es| - 1]); }
  }

  /** Asked to flush and then fetched, a configured idle queue has acknowledged its whole buffer; one that is
      not configured, or has a batch in flight, is left as it was by being asked. */
  lemma {:induction false} FlushDelivers<T>(c: Policy, es: seq<Event<T>>)
    requires Legal(c)
    ensures var w, v := Observe(c, es), Observe(c, es + [Flush, Fetched]);
            ConfiguredBy(es) && w.q.inFlight.None? ==>
              && v.acked == w.acked + w.q.buffer && v.accepted == w.accepted
              && v.q == Queue(true, [], None)
    ensures !ConfiguredBy(es) || Observe(c, es).q.inFlight.Some? ==> Observe(c, es + [Flush]) == Observe(c, es)
  {
    AcceptedExactly(c, es);
    assert (es + [Flush, Fetched])[..|es| + 1] == es + [Flush];
    assert (es + [Flush])[..|es|] == es;
  }

  /** An idle configured log queue starts a batch at its 20th item and one of AI calls at its 10th, of all
      that is buffered; the span queue never starts one by itself. */
  lemma {:induction false} Thresholds<T>(q: Queue<T>, x: T)
    requires q.configured && q.inFlight.None?
    ensures var all := q.buffer + [x];
            && (|q.buffer| < 500 ==>
                  Next(LOGS, q, Enqueue(x)) == if |all| >= 20 then Queue(true, [], Some(all)) else Queue(true, all, None))
            && (|q.buffer| < 200 ==>
                  Next(AI_CALLS, q, Enqueue(x)) == if |all| >= 10 then Queue(true, [], Some(all)) else Queue(true, all, None))
            && (|q.buffer| < 200 ==> Next(SPANS, q, Enqueue(x)) == Queue(true, all, None))
  {
  }

  /** The three queues, in numbers: an idle buffer is the newest 200 spans, 500 log records or 200 AI calls
      of those admitted since the batch last acknowledged was taken; only spans are refused before the
      exporter is configured. */
  lemma {:induction false} ThreeQueues<T>(es: seq<Event<T>>)
    ensures Idle(SPANS, es, Admitted(es, true), 200)
    ensures Idle(LOGS, es, Admitted(es, false), 500)
    ensures Idle(AI_CALLS, es, Admitted(es, false), 200)
  {
    hide Observe, MarksOf, Admitted, Last, Run;
    BufferIsRecentHistory(SPANS, es);
    BufferIsRecentHistory(LOGS, es);
    BufferIsRecentHistory(AI_CALLS, es);
    AcceptedExactly(SPANS, es);
    AcceptedExactly(LOGS, es);
    AcceptedExactly(AI_CALLS, es);
  }

  ghost predicate Idle<T>(c: Policy, es: seq<Event<T>>, admitted: seq<T>, most: nat)
    requires Legal(c)
  {
    var q, since := Observe(c, es).q, MarksOf(c, es).since;
    since <= |admitted| && (q.inFlight.None? ==> q.buffer == Last(admitted[since..], most))
  }

  // ---------------------------------------------------------------- the queue as it runs

  /** The module-level state of `span.ts`, `logger.ts` and `ai.ts`; `batch` is the local variable
      that a suspended flush holds on to. */
  class Exporter<T> {
    const policy: Policy
    var configured: bool
    var buffer: seq<T>
    var flushInProgress: bool
    var batch: seq<T>

    ghost predicate Valid() reads this { Legal(policy) && (flushInProgress ==> batch != []) }

    ghost function State(): Queue<T> reads this {
      Queue(configured, buffer, if flushInProgress then Some(batch) else None)
    }

    constructor (policy: Policy)
      requires Legal(policy)
      ensures Valid() && this.policy == policy && State() == Start()
    {
      this.policy := policy;
      configured := false;
      buffer := [];
      flushInProgress := false;
      batch := [];
    }

    method BeginFlush()
      requires Valid()
      modifies this`buffer, this`flushInProgress, this`batch
      ensures Valid() && State() == Next(policy, old(State()), Flush)
    {
      if !configured || |buffer| == 0 || flushInProgress {
        return;
      }
      flushInProgress := true;
      batch := buffer;
      buffer := [];
    }

    method Push(item: T)
      requires Valid()
      modifies this`buffer, this`flushInProgress, this`batch
      ensures Valid() && State() == Next(policy, old(State()), Enqueue(item))
    {
      if policy.refuses && !configured { return; }
      if |buffer| >= policy.max {
        buffer := buffer[|buffer| - policy.max + 1..];
      }
      buffer := buffer + [item];
      if 0 < policy.flushAt <= |buffer| && !flushInProgress {
        BeginFlush();
      }
    }

    method Requeue(failed: seq<T>)
      requires Valid()
      modifies this`buffer
      ensures buffer == if failed == [] then old(buffer) else Last(failed + old(buffer), policy.max)
    {
      if |failed| == 0 { return; }
      buffer := failed + buffer;
      if |buffer| > policy.max {
        buffer := buffer[|buffer| - policy.max..];
      }
    }

    /** The rest of the flush, once `fetch` has settled. */
    method EndFlush(fetched: bool)
      requires Valid() && flushInProgress
      modifies this`buffer, this`flushInProgress
      ensures Valid() && State() == Next(policy, old(State()), if fetched then Fetched else Failed)
    {
      if !fetched {
        Requeue(batch);
      }
      flushInProgress := false;
    }
  }
}
