/** Spans opened by `withChildSpan` under one request span, in every interleaving.

    A call opens its span, runs its body under a store of its own that holds the span's id, and
    settles.  Bodies run concurrently: between any two events of one body others may open, set a
    status or settle.  A body that awaits calls settles after they have, and the handler that awaits
    outermost calls ends the request span after they have.  Ending it exports a snapshot, once. */
module SpanTree {
  import opened Options

  type SpanId = string

  datatype Span = Span(id: SpanId, parent: SpanId, start: nat, end: Option<nat>, status: int)

  /** A call of `withChildSpan`: the body it was made in, whether that body awaits it, the value of
      `parentSpanIdStorage` in its own body, how it settled, and whether anyone set its status. */
  datatype Call = Call(inside: Option<nat>, awaited: bool, store: SpanId, settled: Option<bool>, touched: bool)

  /** The request span: where it came from, when it began and ended, and its status. */
  datatype Request = Request(id: SpanId, incoming: SpanId, begun: nat, ended: Option<nat>, status: int)

  /** `spans[i]` is the record that `calls[i]` pushed; `exports` is what went to the export queue. */
  datatype State = State(now: nat, request: Request, spans: seq<Span>, calls: seq<Call>, exports: seq<seq<Span>>)

  datatype Event =
    | Open(inside: Option<nat>, awaited: bool, id: SpanId, at: nat)
    | Settle(call: nat, ok: bool, at: nat)
    | SetStatus(of: nat, code: int)
    | SetRequestStatus(code: int)
    | EndRequest(at: nat)

  function Start(id: SpanId, incoming: SpanId, now: nat): State {
    State(now, Request(id, incoming, now, None, 0), [], [], [])
  }

  /** `toOtlpExportRequest`: the request span, then the records in the order they were pushed. */
  function Export(s: State): seq<Span> {
    var r := s.request;
    [Span(r.id, r.incoming, r.begun, r.ended, r.status)] + s.spans
  }

  /** What the scheduler and the clock can do next: time does not go back, ids are new, a body that
      awaits has not settled, and a body settles once, after the calls it awaits.  The handler awaits
      outermost calls before it first ends the request span; it may call `end` again. */
  ghost predicate Enabled(s: State, e: Event) {
    match e
    case Open(inside, awaited, id, at) =>
      && s.now <= at
      && id != s.request.id && (forall i :: 0 <= i < |s.spans| ==> s.spans[i].id != id)
      && (inside.Some? ==> inside.value < |s.calls|)
      && (inside.Some? && awaited ==> s.calls[inside.value].settled.None?)
      && (inside.None? && awaited ==> s.request.ended.None?)
    case Settle(c, ok, at) =>
      && s.now <= at && c < |s.calls| && s.calls[c].settled.None?
      && forall k :: 0 <= k < |s.calls| && s.calls[k].inside == Some(c) && s.calls[k].awaited ==> s.calls[k].settled.Some?
    case SetStatus(c, _) => c < |s.calls|
    case SetRequestStatus(_) => true
    case EndRequest(at) =>
      && s.now <= at
      && (s.request.ended.None? ==>
            forall k :: 0 <= k < |s.calls| && s.calls[k].inside.None? && s.calls[k].awaited ==> s.calls[k].settled.Some?)
  }

  /** `parentSpanIdStorage.getStore() ?? spanId` in the body the call is made in. */
  function ParentFor(s: State, inside: Option<nat>): SpanId
    requires inside.Some? ==> inside.value < |s.calls|
  {
    if inside.Some? then s.calls[inside.value].store else s.request.id
  }

  function Next(s: State, e: Event): State
    requires Enabled(s, e) && |s.spans| == |s.calls|
  {
    match e
    case Open(inside, awaited, id, at) =>
      s.(now := at,
         spans := s.spans + [Span(id, ParentFor(s, inside), at, None, 0)],
         calls := s.calls + [Call(inside, awaited, id, None, false)])
    case Settle(c, ok, at) =>
      var span := s.spans[c];
      s.(now := at,
         spans := s.spans[c := span.(end := Some(at), status := if ok then span.status else 2)],
         calls := s.calls[c := s.calls[c].(settled := Some(ok))])
    case SetStatus(c, code) =>
      s.(spans := s.spans[c := s.spans[c].(status := code)],
         calls := s.calls[c := s.calls[c].(touched := true)])
    case SetRequestStatus(code) => s.(request := s.request.(status := code))
    case EndRequest(at) =>
      if s.request.ended.Some? then s
      else
        var t := s.(now := at, request := s.request.(ended := Some(at)));
        t.(exports := t.exports + [Export(t)])
  }

  // ---------------------------------------------------------------- what holds throughout

  /** The span of the body a call was made in, or the request span. */
  function Enclosing(s: State, i: nat): SpanId
    requires i < |s.calls| && |s.spans| == |s.calls|
    requires s.calls[i].inside.Some? ==> s.calls[i].inside.value < |s.calls|
  {
    if s.calls[i].inside.Some? then s.spans[s.calls[i].inside.value].id else s.request.id
  }

  ghost predicate Shape(s: State) {
    && |s.spans| == |s.calls|
    && (forall i :: 0 <= i < |s.calls| && s.calls[i].inside.Some? ==> s.calls[i].inside.value < i)
    && (forall i :: 0 <= i < |s.calls| ==> s.calls[i].store == s.spans[i].id)
  }

  ghost predicate DistinctSpans(s: State) {
    && (forall i :: 0 <= i < |s.spans| ==> s.spans[i].id != s.request.id)
    && (forall i, j :: 0 <= i < j < |s.spans| ==> s.spans[i].id != s.spans[j].id)
  }

  /** Every parent link names the span of the lexically enclosing body. */
  ghost predicate LinksLexical(s: State)
    requires Shape(s)
  {
    forall i :: 0 <= i < |s.spans| ==> s.spans[i].parent == Enclosing(s, i)
  }

  /** A span has ended exactly when its call has settled, and no clock ran backwards. */
  ghost predicate Timed(s: State)
    requires Shape(s)
  {
    && s.request.begun <= s.now
    && (s.request.ended.Some? ==> s.request.begun <= s.request.ended.value <= s.now)
    && forall i :: 0 <= i < |s.spans| ==>
         && s.request.begun <= s.spans[i].start <= s.now
         && (s.spans[i].end.Some? <==> s.calls[i].settled.Some?)
         && (s.spans[i].end.Some? ==> s.spans[i].start <= s.spans[i].end.value <= s.now)
  }

  /** A span starts after the span of the body that opened it, and if that body awaited the call, it
      has ended by the time the body's span has. */
  ghost predicate Contained(s: State)
    requires Shape(s)
  {
    forall i :: 0 <= i < |s.spans| && s.calls[i].inside.Some? ==>
      var p := s.calls[i].inside.value;
      && s.spans[p].start <= s.spans[i].start
      && (s.calls[i].awaited && s.spans[p].end.Some? ==>
            s.spans[i].end.Some? && s.spans[i].end.value <= s.spans[p].end.value)
  }

  /** The same for the request span and the outermost calls its handler awaited. */
  ghost predicate RequestContains(s: State)
    requires Shape(s)
  {
    s.request.ended.Some? ==>
      forall i :: 0 <= i < |s.spans| && s.calls[i].inside.None? && s.calls[i].awaited ==>
        s.spans[i].end.Some? && s.spans[i].end.value <= s.request.ended.value
  }

  /** Where nobody set the status, it is 2 exactly if the body rejected, and 0 otherwise. */
  ghost predicate StatusTells(s: State)
    requires Shape(s)
  {
    forall i :: 0 <= i < |s.spans| && !s.calls[i].touched ==>
      s.spans[i].status == if s.calls[i].settled == Some(false) then 2 else 0
  }

  ghost predicate Good(s: State) {
    Shape(s) && DistinctSpans(s) && LinksLexical(s) && Timed(s) && Contained(s) && RequestContains(s) && StatusTells(s)
  }

  lemma {:induction false} OpenLinks(s: State, e: Event)
    requires Good(s) && Enabled(s, e) && e.Open?
    ensures var t := Next(s, e); Shape(t) && DistinctSpans(t) && LinksLexical(t)
  {
    hide Timed, Contained, RequestContains, StatusTells;
    var t := Next(s, e);
    forall i | 0 <= i < |t.spans|
      ensures t.spans[i].parent == Enclosing(t, i)
    {
      if i < |s.spans| { assert t.spans[i] == s.spans[i] && t.calls[i] == s.calls[i]; }
    }
  }

  lemma {:induction false} OpenTimes(s: State, e: Event)
    requires Good(s) && Enabled(s, e) && e.Open? && Shape(Next(s, e))
    ensures var t := Next(s, e); Timed(t) && StatusTells(t) && RequestContains(t)
  {
    hide Contained, LinksLexical, DistinctSpans;
  }

  lemma {:induction false} OpenContains(s: State, e: Event)
    requires Good(s) && Enabled(s, e) && e.Open? && Shape(Next(s, e))
    ensures Contained(Next(s, e))
  {
    hide StatusTells, RequestContains, LinksLexical, DistinctSpans;
    var t := Next(s, e);
    forall i | 0 <= i < |t.spans| && t.calls[i].inside.Some?
      ensures var p := t.calls[i].inside.value;
              && t.spans[p].start <= t.spans[i].start
              && (t.calls[i].awaited && t.spans[p].end.Some? ==>
                    t.spans[i].end.Some? && t.spans[i].end.value <= t.spans[p].end.value)
    {
      var p := t.calls[i].inside.value;
      assert t.spans[p] == s.spans[p];
      if i < |s.spans| { assert t.spans[i] == s.spans[i] && t.calls[i] == s.calls[i]; }
    }
  }

  lemma {:induction false} OpenKeeps(s: State, e: Event)
    requires Good(s) && Enabled(s, e) && e.Open?
    ensures Good(Next(s, e))
  {
    hide Shape, DistinctSpans, LinksLexical, Timed, Contained, RequestContains, StatusTells, Enabled, Next;
    OpenLinks(s, e);
    OpenTimes(s, e);
    OpenContains(s, e);
  }

  lemma {:induction false} SettleLinks(s: State, e: Event)
    requires Good(s) && Enabled(s, e) && e.Settle?
    ensures var t := Next(s, e); Shape(t) && DistinctSpans(t) && LinksLexical(t)
  {
    hide Timed, Contained, RequestContains, StatusTells;
    var t := Next(s, e);
    assert forall i :: 0 <= i < |s.spans| ==>
      t.spans[i].id == s.spans[i].id && t.spans[i].parent == s.spans[i].parent && t.calls[i].inside == s.calls[i].inside;
    forall i | 0 <= i < |t.spans|
      ensures t.spans[i].parent == Enclosing(t, i)
    {
      assert s.spans[i].parent == Enclosing(s, i);
    }
  }

  lemma {:induction false} SettleTimes(s: State, e: Event)
    requires Good(s) && Enabled(s, e) && e.Settle? && Shape(Next(s, e))
    ensures var t := Next(s, e); Timed(t) && StatusTells(t) && RequestContains(t)
  {
    hide Contained, LinksLexical, DistinctSpans;
  }

  lemma {:induction false} SettleContains(s: State, e: Event)
    requires Good(s) && Enabled(s, e) && e.Settle? && Shape(Next(s, e))
    ensures Contained(Next(s, e))
  {
    hide StatusTells, RequestContains, LinksLexical, DistinctSpans;
  }

  lemma {:induction false} SettleKeeps(s: State, e: Event)
    requires Good(s) && Enabled(s, e) && e.Settle?
    ensures Good(Next(s, e))
  {
    hide Shape, DistinctSpans, LinksLexical, Timed, Contained, RequestContains, StatusTells, Enabled, Next;
    SettleLinks(s, e);
    SettleTimes(s, e);
    SettleContains(s, e);
  }

  lemma {:induction false} SetStatusLinks(s: State, e: Event)
    requires Good(s) && Enabled(s, e) && e.SetStatus?
    ensures var t := Next(s, e); Shape(t) && DistinctSpans(t) && LinksLexical(t)
  {
    hide Timed, Contained, RequestContains, StatusTells;
    var t := Next(s, e);
    assert forall i :: 0 <= i < |s.spans| ==>
      t.spans[i].id == s.spans[i].id && t.spans[i].parent == s.spans[i].parent && t.calls[i].inside == s.calls[i].inside;
    forall i | 0 <= i < |t.spans|
      ensures t.spans[i].parent == Enclosing(t, i)
    {
      assert s.spans[i].parent == Enclosing(s, i);
    }
  }

  lemma {:induction false} SetStatusTimes(s: State, e: Event)
    requires Good(s) && Enabled(s, e) && e.SetStatus? && Shape(Next(s, e))
    ensures var t := Next(s, e); Timed(t) && StatusTells(t) && RequestContains(t)
  {
    hide Contained, LinksLexical, DistinctSpans;
  }

  lemma {:induction false} SetStatusContains(s: State, e: Event)
    requires Good(s) && Enabled(s, e) && e.SetStatus? && Shape(Next(s, e))
    ensures Contained(Next(s, e))
  {
    hide StatusTells, RequestContains, LinksLexical, DistinctSpans;
  }

  lemma {:induction false} SetStatusKeeps(s: State, e: Event)
    requires Good(s) && Enabled(s, e) && e.SetStatus?
    ensures Good(Next(s, e))
  {
    hide Shape, DistinctSpans, LinksLexical, Timed, Contained, RequestContains, StatusTells, Enabled, Next;
    SetStatusLinks(s, e);
    SetStatusTimes(s, e);
    SetStatusContains(s, e);
  }

  lemma {:induction false} RequestKeeps(s: State, e: Event)
    requires Good(s) && Enabled(s, e) && (e.SetRequestStatus? || e.EndRequest?)
    ensures Good(Next(s, e))
  {
    hide StatusTells, LinksLexical, DistinctSpans, Contained;
    var t := Next(s, e);
    assert t.spans == s.spans && t.calls == s.calls && t.request.id == s.request.id;
    assert RequestContains(t);
    SameCalls(s, t);
  }

  /** The claims about the calls do not depend on the clock or on the request's end and status. */
  lemma {:induction false} SameCalls(s: State, t: State)
    requires t.spans == s.spans && t.calls == s.calls && t.request.id == s.request.id
    requires Shape(s) && Shape(t) && DistinctSpans(s) && LinksLexical(s) && Contained(s) && StatusTells(s)
    ensures DistinctSpans(t) && LinksLexical(t) && Contained(t) && StatusTells(t)
  {
    forall i | 0 <= i < |t.spans|
      ensures t.spans[i].parent == Enclosing(t, i)
    {
      assert s.spans[i].parent == Enclosing(s, i);
    }
  }

  /** A run is any sequence of events; one that cannot happen where it stands is passed over. */
  ghost function Run(start: State, es: seq<Event>): (s: State)
    requires |start.spans| == |start.calls|
    ensures |s.spans| == |s.calls|
  {
    if es == [] then start
    else
      var s := Run(start, es[..|es| - 1]);
      if Enabled(s, es[|es| - 1]) then Next(s, es[|es| - 1]) else s
  }

  lemma {:induction false} StepKeeps(s: State, e: Event)
    requires Good(s) && Enabled(s, e)
    ensures Good(Next(s, e))
  {
    hide Good, Enabled, Next;
    match e
    case Open(_, _, _, _) => OpenKeeps(s, e);
    case Settle(_, _, _) => SettleKeeps(s, e);
    case SetStatus(_, _) => SetStatusKeeps(s, e);
    case SetRequestStatus(_) => RequestKeeps(s, e);
    case EndRequest(_) => RequestKeeps(s, e);
  }

  lemma {:induction false} StartIsGood(id: SpanId, incoming: SpanId, now: nat)
    ensures Good(Start(id, incoming, now))
  {
  }

  /** In every interleaving: links name the lexical encloser, awaited spans lie inside the interval
      of the span that awaited them, the request span included, and an untouched status is 2 exactly
      where the body rejected. */
  lemma {:induction false} EveryRunIsGood(id: SpanId, incoming: SpanId, now: nat, es: seq<Event>)
    ensures Good(Run(Start(id, incoming, now), es))
    decreases |es|
  {
    hide Good, Enabled, Next;
    if es == [] {
      StartIsGood(id, incoming, now);
    } else {
      var start := Start(id, incoming, now);
      EveryRunIsGood(id, incoming, now, es[..|es| - 1]);
      var e, s := es[|es| - 1], Run(start, es[..|es| - 1]);
      if Enabled(s, e) { StepKeeps(s, e); }
    }
  }

  // ---------------------------------------------------------------- what the events alone tell

  /** The events of a run that were not passed over. */
  ghost function Happened(start: State, es: seq<Event>): seq<Event>
    requires |start.spans| == |start.calls|
  {
    if es == [] then []
    else
      var before, e := Happened(start, es[..|es| - 1]), es[|es| - 1];
      if Enabled(Run(start, es[..|es| - 1]), e) then before + [e] else before
  }

  /** The calls in the order they opened. */
  function Opened(hs: seq<Event>): seq<Event> {
    if hs == [] then []
    else if hs[|hs| - 1].Open? then Opened(hs[..|hs| - 1]) + [hs[|hs| - 1]] else Opened(hs[..|hs| - 1])
  }

  /** When call `i` settled. */
  function EndOf(hs: seq<Event>, i: nat): Option<nat> {
    if hs == [] then None
    else
      match hs[|hs| - 1]
      case Settle(c, _, at) => if c == i then Some(at) else EndOf(hs[..|hs| - 1], i)
      case _ => EndOf(hs[..|hs| - 1], i)
  }

  /** The code set last on call `i`, by anyone or by its rejection, and 0 if none was. */
  function StatusOf(hs: seq<Event>, i: nat): int {
    if hs == [] then 0
    else
      match hs[|hs| - 1]
      case SetStatus(c, code) => if c == i then code else StatusOf(hs[..|hs| - 1], i)
      case Settle(c, ok, _) => if c == i && !ok then 2 else StatusOf(hs[..|hs| - 1], i)
      case _ => StatusOf(hs[..|hs| - 1], i)
  }

  /** The code set last on the request span, and 0 if none was. */
  function RequestStatusOf(hs: seq<Event>): int {
    if hs == [] then 0
    else if hs[|hs| - 1].SetRequestStatus? then hs[|hs| - 1].code else RequestStatusOf(hs[..|hs| - 1])
  }

  ghost predicate AllOpen(opens: seq<Event>) { forall i :: 0 <= i < |opens| ==> opens[i].Open? }

  /** The id of the span that encloses call `i`. */
  ghost function ParentOf(request: SpanId, opens: seq<Event>, i: nat): SpanId
    requires AllOpen(opens) && i < |opens|
  {
    match opens[i].inside
    case None => request
    case Some(p) => if p < |opens| then opens[p].id else request
  }

  /** The record of call `i`, as the events tell it. */
  ghost function SpanOf(request: SpanId, hs: seq<Event>, i: nat): Span
    requires AllOpen(Opened(hs)) && i < |Opened(hs)|
  {
    var open := Opened(hs)[i];
    Span(open.id, ParentOf(request, Opened(hs), i), open.at, EndOf(hs, i), StatusOf(hs, i))
  }

  /** Nothing happened to a call that has not opened. */
  ghost predicate Quiet(hs: seq<Event>, n: nat) {
    forall i: nat :: i >= n ==> EndOf(hs, i) == None && StatusOf(hs, i) == 0
  }

  /** The calls and their records are what the events tell, and nothing else. */
  ghost predicate ToldByEvents(s: State, hs: seq<Event>) {
    && |Opened(hs)| == |s.spans| == |s.calls| && AllOpen(Opened(hs)) && Quiet(hs, |s.spans|)
    && s.request.status == RequestStatusOf(hs)
    && (forall i :: 0 <= i < |s.calls| ==>
          s.calls[i].inside == Opened(hs)[i].inside && s.calls[i].awaited == Opened(hs)[i].awaited)
    && (forall i :: 0 <= i < |s.spans| ==> s.spans[i] == SpanOf(s.request.id, hs, i))
  }

  lemma {:induction false} EventAdded(hs: seq<Event>, e: Event, i: nat)
    ensures Opened(hs + [e]) == if e.Open? then Opened(hs) + [e] else Opened(hs)
    ensures RequestStatusOf(hs + [e]) == if e.SetRequestStatus? then e.code else RequestStatusOf(hs)
    ensures EndOf(hs + [e], i) == if e.Settle? && e.call == i then Some(e.at) else EndOf(hs, i)
    ensures StatusOf(hs + [e], i) == if e.SetStatus? && e.of == i then e.code
                                     else if e.Settle? && e.call == i && !e.ok then 2 else StatusOf(hs, i)
  {
    assert (hs + [e])[..|hs|] == hs;
  }

  lemma {:induction false} QuietNext(s: State, hs: seq<Event>, e: Event)
    requires Enabled(s, e) && |s.spans| == |s.calls| && Quiet(hs, |s.calls|)
    ensures Quiet(hs + [e], |Next(s, e).calls|)
  {
    forall i: nat | i >= |Next(s, e).calls|
      ensures EndOf(hs + [e], i) == None && StatusOf(hs + [e], i) == 0
    {
      EventAdded(hs, e, i);
    }
  }

  lemma {:induction false} OpenTold(s: State, hs: seq<Event>, e: Event)
    requires Good(s) && Enabled(s, e) && e.Open? && ToldByEvents(s, hs)
    ensures ToldByEvents(Next(s, e), hs + [e])
  {
    hide Opened, EndOf, StatusOf, RequestStatusOf, Quiet, DistinctSpans, LinksLexical, Timed, Contained, RequestContains,
      StatusTells;
    var t := Next(s, e);
    QuietNext(s, hs, e);
    EventAdded(hs, e, 0);
    NothingYetOf(hs, |s.calls|);
    forall i | 0 <= i < |t.spans|
      ensures t.spans[i] == SpanOf(t.request.id, hs + [e], i)
    {
      EventAdded(hs, e, i);
      if i < |s.spans| {
        assert t.spans[i] == s.spans[i];
        assert ParentOf(s.request.id, Opened(hs + [e]), i) == ParentOf(s.request.id, Opened(hs), i);
      } else if e.inside.Some? {
        assert Opened(hs + [e])[e.inside.value] == Opened(hs)[e.inside.value];
        assert s.spans[e.inside.value].id == Opened(hs)[e.inside.value].id;
      }
    }
  }

  lemma {:induction false} NothingYetOf(hs: seq<Event>, n: nat)
    requires Quiet(hs, n)
    ensures EndOf(hs, n) == None && StatusOf(hs, n) == 0
  {
  }

  lemma {:induction false} OtherTold(s: State, hs: seq<Event>, e: Event)
    requires Good(s) && Enabled(s, e) && !e.Open? && ToldByEvents(s, hs)
    ensures ToldByEvents(Next(s, e), hs + [e])
  {
    hide Opened, EndOf, StatusOf, RequestStatusOf, Quiet, DistinctSpans, LinksLexical, Timed, Contained, RequestContains,
      StatusTells;
    var t := Next(s, e);
    QuietNext(s, hs, e);
    EventAdded(hs, e, 0);
    forall i | 0 <= i < |t.spans|
      ensures t.spans[i] == SpanOf(t.request.id, hs + [e], i)
    {
      EventAdded(hs, e, i);
      assert s.spans[i] == SpanOf(s.request.id, hs, i);
    }
  }

  /** Every record, and the request's status, is what the events alone tell. */
  lemma {:induction false} RunTold(id: SpanId, incoming: SpanId, now: nat, es: seq<Event>)
    ensures var start := Start(id, incoming, now); ToldByEvents(Run(start, es), Happened(start, es))
    decreases |es|
  {
    hide Good, Enabled, Next, ToldByEvents;
    var start := Start(id, incoming, now);
    if es == [] {
      NothingTold(id, incoming, now);
    } else {
      var front, e := es[..|es| - 1], es[|es| - 1];
      RunTold(id, incoming, now, front);
      EveryRunIsGood(id, incoming, now, front);
      var s, hs := Run(start, front), Happened(start, front);
      if Enabled(s, e) {
        if e.Open? { OpenTold(s, hs, e); } else { OtherTold(s, hs, e); }
      }
    }
  }

  lemma {:induction false} NothingTold(id: SpanId, incoming: SpanId, now: nat)
    ensures ToldByEvents(Start(id, incoming, now), [])
  {
  }

  // ---------------------------------------------------------------- the exported list

  /** Following parent ids from row `k` leads, by `d` steps through earlier rows, to the first row. */
  ghost predicate Reaches(rows: seq<Span>, k: nat, d: nat)
    requires k < |rows|
    decreases k
  {
    if k == 0 then d == 0
    else d > 0 && exists j: nat :: j < k && rows[j].id == rows[k].parent && Reaches(rows, j, d - 1)
  }

  function Depth(s: State, i: nat): nat
    requires Shape(s) && i < |s.calls|
    decreases i
  {
    if s.calls[i].inside.Some? then 1 + Depth(s, s.calls[i].inside.value) else 1
  }

  lemma {:induction false} RowReaches(s: State, rows: seq<Span>, i: nat)
    requires Good(s) && rows == Export(s) && i < |s.calls|
    ensures Reaches(rows, i + 1, Depth(s, i))
    decreases i
  {
    hide Timed, Contained, RequestContains, StatusTells, DistinctSpans;
    assert rows[i + 1] == s.spans[i];
    match s.calls[i].inside
    case None =>
      assert rows[0].id == rows[i + 1].parent && Reaches(rows, 0, 0);
    case Some(p) =>
      RowReaches(s, rows, p);
      assert rows[p + 1] == s.spans[p];
      assert rows[p + 1].id == rows[i + 1].parent;
  }

  /** Ids are distinct, and every row after the first reaches it by its parent links, each of which
      points to an earlier row, in as many steps as its call was nested. */
  ghost predicate IsTree(s: State, rows: seq<Span>)
    requires Shape(s)
  {
    && |rows| == |s.calls| + 1 && rows[0].id == s.request.id
    && (forall i, j :: 0 <= i < j < |rows| ==> rows[i].id != rows[j].id)
    && (forall i :: 0 <= i < |s.calls| ==> Reaches(rows, i + 1, Depth(s, i)))
  }

  /** The row of the body that made call `i`; the first row is the request span's. */
  function EnclosingRow(s: State, i: nat): (r: nat)
    requires Shape(s) && i < |s.calls|
    ensures r <= i
  {
    if s.calls[i].inside.Some? then s.calls[i].inside.value + 1 else 0
  }

  /** What row `i + 1` says of call `i`: its parent is the row of the body it was made in, it starts no
      earlier, it ended no later if that row ended and the call was awaited, it has ended exactly
      if the call settled, and an untouched status is 2 exactly where the body rejected. */
  ghost predicate RowTells(s: State, rows: seq<Span>, i: nat)
    requires Shape(s) && |rows| == |s.calls| + 1 && i < |s.calls|
  {
    var call, row, up := s.calls[i], rows[i + 1], rows[EnclosingRow(s, i)];
    && row.parent == up.id && up.start <= row.start
    && (call.awaited && up.end.Some? ==> row.end.Some? && row.end.value <= up.end.value)
    && (row.end.Some? <==> call.settled.Some?)
    && (row.end.Some? ==> row.start <= row.end.value)
    && (!call.touched ==> row.status == if call.settled == Some(false) then 2 else 0)
  }

  lemma {:induction false} ExportTells(s: State, i: nat)
    requires Good(s) && i < |s.calls|
    ensures RowTells(s, Export(s), i)
  {
    hide DistinctSpans;
    var rows := Export(s);
    assert rows[i + 1] == s.spans[i] && s.spans[i].parent == Enclosing(s, i);
    if s.calls[i].inside.Some? {
      var p := s.calls[i].inside.value;
      assert rows[p + 1] == s.spans[p];
    }
  }

  /** The call and all those around it were awaited, out to the request's handler. */
  predicate AwaitedThroughout(s: State, i: nat)
    requires Shape(s) && i < |s.calls|
    decreases i
  {
    s.calls[i].awaited && (s.calls[i].inside.Some? ==> AwaitedThroughout(s, s.calls[i].inside.value))
  }

  /** Such a call lies, in the exported rows, inside the request span's interval. */
  lemma {:induction false} AwaitedInsideRequest(s: State, i: nat)
    requires Good(s) && s.request.ended.Some? && i < |s.calls| && AwaitedThroughout(s, i)
    ensures var rows := Export(s);
            && rows[i + 1].end.Some?
            && s.request.begun <= rows[i + 1].start <= rows[i + 1].end.value <= s.request.ended.value
    decreases i
  {
    hide Good;
    ExportTells(s, i);
    var rows := Export(s);
    if s.calls[i].inside.Some? {
      AwaitedInsideRequest(s, s.calls[i].inside.value);
    }
  }

  lemma {:induction false} RunPrefix(start: State, es: seq<Event>, k: nat)
    requires |start.spans| == |start.calls| && k < |es|
    ensures Run(start, es[..k + 1]) ==
            var s := Run(start, es[..k]); if Enabled(s, es[k]) then Next(s, es[k]) else s
  {
    assert es[..k + 1][..k] == es[..k];
  }

  /** The first `end()` in a run whose request span has ended; it alone exported anything. */
  lemma {:induction false} FirstEnd(start: State, es: seq<Event>) returns (k: nat)
    requires |start.spans| == |start.calls| && start.request.ended.None? && start.exports == []
    requires Run(start, es).request.ended.Some?
    ensures k < |es| && es[k].EndRequest? && Run(start, es[..k]).request.ended.None?
    ensures var t := Run(start, es[..k + 1]);
            && t.request == Run(start, es[..k]).request.(ended := Some(es[k].at))
            && t.request.ended == Run(start, es).request.ended
            && t.spans == Run(start, es[..k]).spans
            && Run(start, es).exports == [Export(t)]
    decreases |es|
  {
    hide Enabled;
    var n := |es| - 1;
    assert es[..n + 1] == es;
    RunPrefix(start, es, n);
    var before := Run(start, es[..n]);
    if before.request.ended.Some? {
      k := FirstEnd(start, es[..n]);
      assert es[..n][..k] == es[..k] && es[..n][..k + 1] == es[..k + 1];
    } else {
      k := n;
      NothingYet(start, es[..n]);
    }
  }

  lemma {:induction false} NothingYet(start: State, es: seq<Event>)
    requires |start.spans| == |start.calls| && start.request.ended.None? && start.exports == []
    requires Run(start, es).request.ended.None?
    ensures Run(start, es).exports == []
    decreases |es|
  {
    hide Enabled;
    if es != [] { NothingYet(start, es[..|es| - 1]); }
  }

  /** In every interleaving, `end()` exports once, however often it is called and whatever still runs.
      What it exported is the tree as it stood then, rooted at the request span: each row under the
      row of the body that made the call, in its interval if awaited, telling how the call settled. */
  lemma {:induction false} ExportIsTree(id: SpanId, incoming: SpanId, now: nat, es: seq<Event>) returns (k: nat)
    requires Run(Start(id, incoming, now), es).request.ended.Some?
    ensures k < |es| && es[k].EndRequest? && Run(Start(id, incoming, now), es[..k]).request.ended.None?
    ensures var t := Run(Start(id, incoming, now), es[..k + 1]);
            && Run(Start(id, incoming, now), es).exports == [Export(t)]
            && t.request == Request(id, incoming, now, Some(es[k].at), Run(Start(id, incoming, now), es[..k]).request.status)
            && Shape(t) && IsTree(t, Export(t))
            && (forall i :: 0 <= i < |t.calls| ==> RowTells(t, Export(t), i))
            && (forall i :: 0 <= i < |t.calls| && AwaitedThroughout(t, i) ==>
                  Export(t)[i + 1].end.Some? && now <= Export(t)[i + 1].start && Export(t)[i + 1].end.value <= es[k].at)
  {
    hide Run, RowTells, Reaches;
    var start := Start(id, incoming, now);
    k := FirstEnd(start, es);
    RequestFixed(start, es[..k]);
    EveryRunIsGood(id, incoming, now, es[..k + 1]);
    var t := Run(start, es[..k + 1]);
    GoodTree(t);
    forall i | 0 <= i < |t.calls|
      ensures RowTells(t, Export(t), i)
      ensures AwaitedThroughout(t, i) ==>
                Export(t)[i + 1].end.Some? && now <= Export(t)[i + 1].start && Export(t)[i + 1].end.value <= es[k].at
    {
      ExportTells(t, i);
      if AwaitedThroughout(t, i) { AwaitedInsideRequest(t, i); }
    }
  }

  /** What the first `end()` exports, told from the events before it alone: the request span with the
      time of that `end()` and the status set last, and for each call, in the order they opened, its
      id, the id of the call it was made in, when it opened, when it settled, and the status set last,
      be it by its body or by its rejection. */
  lemma {:induction false} ExportIsTold(id: SpanId, incoming: SpanId, now: nat, es: seq<Event>)
    returns (k: nat, hs: seq<Event>, rows: seq<Span>)
    requires Run(Start(id, incoming, now), es).request.ended.Some?
    ensures k < |es| && es[k].EndRequest? && Run(Start(id, incoming, now), es[..k]).request.ended.None?
    ensures hs == Happened(Start(id, incoming, now), es[..k]) && AllOpen(Opened(hs))
    ensures Run(Start(id, incoming, now), es).exports == [rows] && |rows| == |Opened(hs)| + 1
    ensures rows[0] == Span(id, incoming, now, Some(es[k].at), RequestStatusOf(hs))
    ensures forall i :: 0 <= i < |Opened(hs)| ==> rows[i + 1] == SpanOf(id, hs, i)
  {
    hide Run, Happened, Opened, SpanOf, RequestStatusOf, Quiet;
    var start := Start(id, incoming, now);
    k := FirstEnd(start, es);
    hs := Happened(start, es[..k]);
    rows := Export(Run(start, es[..k + 1]));
    RunTold(id, incoming, now, es[..k]);
    RequestFixed(start, es[..k]);
  }

  lemma {:induction false} GoodTree(s: State)
    requires Good(s)
    ensures IsTree(s, Export(s))
  {
    hide Reaches;
    forall i | 0 <= i < |s.calls|
      ensures Reaches(Export(s), i + 1, Depth(s, i))
    {
      RowReaches(s, Export(s), i);
    }
  }

  lemma {:induction false} RequestFixed(start: State, es: seq<Event>)
    requires |start.spans| == |start.calls|
    ensures var r := Run(start, es).request;
            r.id == start.request.id && r.incoming == start.request.incoming && r.begun == start.request.begun
    decreases |es|
  {
    hide Enabled;
    if es != [] { RequestFixed(start, es[..|es| - 1]); }
  }

  // ---------------------------------------------------------------- the request span as it runs

  /** The closure state of `createRequestSpan`, the calls of `withChildSpan` on it, and what it hands
      to the export queue. */
  class RequestSpan {
    const spanId: SpanId
    const incoming: SpanId
    const started: nat
    var endTime: Option<nat>
    var statusCode: int
    var exported: bool
    var childSpans: seq<Span>
    var enqueued: seq<seq<Span>>
    ghost var calls: seq<Call>
    ghost var now: nat

    ghost predicate Valid() reads this { exported <==> endTime.Some? }

    ghost function Snapshot(): State reads this {
      State(now, Request(spanId, incoming, started, endTime, statusCode), childSpans, calls, enqueued)
    }

    constructor (id: SpanId, incoming: SpanId, now: nat)
      ensures Valid() && Snapshot() == Start(id, incoming, now)
    {
      spanId := id;
      this.incoming := incoming;
      started := now;
      endTime := None;
      statusCode := 0;
      exported := false;
      childSpans := [];
      enqueued := [];
      calls := [];
      this.now := now;
    }

    method ToExportRequest() returns (rows: seq<Span>)
      ensures rows == Export(Snapshot())
    {
      rows := [Span(spanId, incoming, started, endTime, statusCode)] + childSpans;
    }

    /** The request span's own `end`. */
    method EndRequestSpan(at: nat)
      requires Valid() && |childSpans| == |calls| && Enabled(Snapshot(), EndRequest(at))
      modifies this
      ensures Valid() && Snapshot() == Next(old(Snapshot()), EndRequest(at))
    {
      if exported { return; }
      endTime := Some(at);
      exported := true;
      now := at;
      var request := ToExportRequest();
      enqueued := enqueued + [request];
    }

    method SetStatus(code: int)
      requires Valid() && |childSpans| == |calls|
      modifies this`statusCode
      ensures Valid() && Snapshot() == Next(old(Snapshot()), SetRequestStatus(code))
    {
      statusCode := code;
    }

    /** `createChildSpan` with the value of `parentSpanIdStorage` where it is called. */
    method CreateChildSpan(store: Option<SpanId>, id: SpanId, at: nat) returns (child: nat)
      modifies this`childSpans
      ensures child == |old(childSpans)|
      ensures childSpans == old(childSpans) + [Span(id, if store.Some? then store.value else spanId, at, None, 0)]
    {
      child := |childSpans|;
      var parentSpanId := if store.Some? then store.value else spanId;
      childSpans := childSpans + [Span(id, parentSpanId, at, None, 0)];
    }

    method End(child: nat, at: nat)
      requires child < |childSpans|
      modifies this`childSpans
      ensures childSpans == old(childSpans)[child := old(childSpans[child]).(end := Some(at))]
    {
      childSpans := childSpans[child := childSpans[child].(end := Some(at))];
    }

    method SetChildStatus(child: nat, code: int)
      requires child < |childSpans|
      modifies this`childSpans
      ensures childSpans == old(childSpans)[child := old(childSpans[child]).(status := code)]
    {
      childSpans := childSpans[child := childSpans[child].(status := code)];
    }

    /** `setStatus` as anyone but `withChildSpan` calls it on a child span. */
    method SetStatusOf(child: nat, code: int)
      requires Valid() && |childSpans| == |calls| && child < |childSpans|
      modifies this
      ensures Valid() && Snapshot() == Next(old(Snapshot()), Event.SetStatus(child, code))
    {
      SetChildStatus(child, code);
      calls := calls[child := calls[child].(touched := true)];
    }

    /** The first half of `withChildSpan`, up to the start of the body; `store` is what the storage
        holds where it is called, and the result is what it holds in the body. */
    method WithChildSpanOpen(store: Option<SpanId>, ghost inside: Option<nat>, ghost awaited: bool, id: SpanId, at: nat)
      returns (bodyStore: SpanId)
      requires Valid() && Good(Snapshot()) && Enabled(Snapshot(), Open(inside, awaited, id, at))
      requires store == if inside.Some? then Some(calls[inside.value].store) else None
      modifies this
      ensures Valid() && Snapshot() == Next(old(Snapshot()), Open(inside, awaited, id, at))
      ensures bodyStore == calls[|calls| - 1].store
    {
      var child := CreateChildSpan(store, id, at);
      bodyStore := childSpans[child].id;
      calls := calls + [Call(inside, awaited, bodyStore, None, false)];
      now := at;
    }

    /** The second half: the body fulfilled or rejected. */
    method WithChildSpanSettle(child: nat, ok: bool, at: nat)
      requires Valid() && Good(Snapshot()) && Enabled(Snapshot(), Settle(child, ok, at))
      modifies this
      ensures Valid() && Snapshot() == Next(old(Snapshot()), Settle(child, ok, at))
    {
      if !ok {
        SetChildStatus(child, 2);
      }
      End(child, at);
      calls := calls[child := calls[child].(settled := Some(ok))];
      now := at;
    }
  }
}
