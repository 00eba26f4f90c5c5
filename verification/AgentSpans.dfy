/** What the spans of nested agent calls say, under the names that go over the wire. */
module AgentSpans {
  import opened Options
  import opened ActionContext
  import opened SpanAttributes
  import opened AgentGraph

  /** The value under a name: what a collector reads. */
  function Attribute(attrs: Attributes, name: string): Option<string> {
    if attrs == [] then None
    else if Name(attrs[0].0) == name then Some(attrs[0].1) else Attribute(attrs[1..], name)
  }

  ghost predicate OnlyKnown(attrs: Attributes) { forall i :: 0 <= i < |attrs| ==> !attrs[i].0.Other? }

  lemma {:induction false} NamedIs(attrs: Attributes, k: Key)
    requires OnlyKnown(attrs) && !k.Other?
    ensures Attribute(attrs, Name(k)) == Lookup(attrs, k)
    decreases |attrs|
  {
    hide Name;
    if attrs != [] {
      NamedIs(attrs[1..], k);
      if attrs[0].0 != k { NamesDistinct(attrs[0].0, k); }
    }
  }

  /** The span of call `i`: a run's is created in the enclosing context, any other's in its own. */
  function SpanOf(ambient: Option<Context>, calls: seq<Begin>, i: nat, kind: string): Attributes
    requires WellNested(calls) && i < |calls|
  {
    var c := ContextAt(ambient, calls, i);
    if calls[i].kind.OtherAction? then Described(Some(c), c, kind)
    else
      var outer := if calls[i].inside.None? then ambient else Some(ContextAt(ambient, calls, calls[i].inside.value));
      Described(outer, c, "agent.run")
  }

  /** Callers pass no empty strings. */
  ghost predicate NothingEmpty(calls: seq<Begin>) {
    forall i :: 0 <= i < |calls| && calls[i].kind.StartRun? ==>
      calls[i].kind.opts.agentId != "" && calls[i].kind.opts.actorId != Some("")
  }

  ghost predicate NoEmptyPart(c: Context) {
    && c.actionId != "" && c.causedByActionId != Some("") && c.interactionId != Some("")
    && c.agentRunId != Some("") && c.actorId != Some("")
  }

  lemma {:induction false} NoneEmpty(ambient: Option<Context>, calls: seq<Begin>, i: nat)
    requires WellNested(calls) && FreshIds(ambient, calls) && NothingEmpty(calls) && i < |calls|
    requires ambient.Some? ==> NoEmptyPart(ambient.value)
    ensures NoEmptyPart(ContextAt(ambient, calls, i))
    decreases i
  {
    if calls[i].inside.Some? { NoneEmpty(ambient, calls, calls[i].inside.value); }
  }

  lemma {:induction false} LookupOfSpan(ambient: Option<Context>, calls: seq<Begin>, i: nat, kind: string, k: Key)
    requires WellNested(calls) && FreshIds(ambient, calls) && NothingEmpty(calls) && i < |calls|
    requires ambient.Some? ==> NoEmptyPart(ambient.value)
    ensures var c := ContextAt(ambient, calls, i);
            Lookup(SpanOf(ambient, calls, i, kind), k)
            == Own(c, Some(if calls[i].kind.OtherAction? then kind else "agent.run"), k)
  {
    hide Described, Lookup;
    var c := ContextAt(ambient, calls, i);
    NoneEmpty(ambient, calls, i);
    if calls[i].kind.OtherAction? {
      DescribedLookup(Some(c), c, kind, k);
    } else {
      var outer := if calls[i].inside.None? then ambient else Some(ContextAt(ambient, calls, calls[i].inside.value));
      if calls[i].inside.Some? { NoneEmpty(ambient, calls, calls[i].inside.value); }
      DescribedLookup(outer, c, "agent.run", k);
    }
  }

  lemma {:induction false} AttributeOfSpan(ambient: Option<Context>, calls: seq<Begin>, i: nat, kind: string, k: Key)
    requires WellNested(calls) && FreshIds(ambient, calls) && NothingEmpty(calls) && i < |calls| && !k.Other?
    requires ambient.Some? ==> NoEmptyPart(ambient.value)
    ensures var c := ContextAt(ambient, calls, i);
            Attribute(SpanOf(ambient, calls, i, kind), Name(k))
            == Own(c, Some(if calls[i].kind.OtherAction? then kind else "agent.run"), k)
  {
    hide SpanOf, Name, Own;
    var attrs := SpanOf(ambient, calls, i, kind);
    forall j | 0 <= j < |attrs|
      ensures !attrs[j].0.Other?
    {
      if attrs[j].0.Other? {
        LookupOfSpan(ambient, calls, i, kind, attrs[j].0);
        NotOther(ambient, calls, i, kind, attrs[j].0);
      }
    }
    NamedIs(attrs, k);
    LookupOfSpan(ambient, calls, i, kind, k);
  }

  lemma NotOther(ambient: Option<Context>, calls: seq<Begin>, i: nat, kind: string, k: Key)
    requires WellNested(calls) && i < |calls| && k.Other?
    ensures Own(ContextAt(ambient, calls, i), Some(if calls[i].kind.OtherAction? then kind else "agent.run"), k) == None
  {
  }

  /** Over the wire: the span of every call, however nested, carries its own id, the id of the call it was
      made in, the id of the root, its kind and the interaction. */
  lemma {:induction false} SpansTellGraph(ambient: Option<Context>, calls: seq<Begin>, i: nat, kind: string)
    requires WellNested(calls) && FreshIds(ambient, calls) && NothingEmpty(calls) && i < |calls|
    requires ambient.Some? ==> NoEmptyPart(ambient.value)
    ensures var attrs, a := SpanOf(ambient, calls, i, kind), Record(ambient, calls, i);
            && Attribute(attrs, "obs.action.id") == Some(a.id)
            && Attribute(attrs, "obs.action.caused_by_id") == a.causedBy
            && Attribute(attrs, "obs.action.root_id") == Some(Root(ambient, calls, i))
            && Attribute(attrs, "obs.action.kind") == Some(if calls[i].kind.OtherAction? then kind else "agent.run")
            && Attribute(attrs, "obs.interaction.id") == (if ambient.Some? then ambient.value.interactionId else None)
  {
    hide SpanOf, ContextAt, Attribute, FreshIds, WellNested, NothingEmpty;
    NoneEmpty(ambient, calls, i);
    InheritsFromRun(ambient, calls, i);
    AttributeOfSpan(ambient, calls, i, kind, ActionIdKey);
    AttributeOfSpan(ambient, calls, i, kind, CausedByKey);
    AttributeOfSpan(ambient, calls, i, kind, RootIdKey);
    AttributeOfSpan(ambient, calls, i, kind, KindKey);
    AttributeOfSpan(ambient, calls, i, kind, InteractionKey);
  }

  /** It also carries the id and the actor of the innermost run around it, or what the ambient context says
      of them, each under its name and under its alias. */
  lemma {:induction false} SpansTellRun(ambient: Option<Context>, calls: seq<Begin>, i: nat, kind: string)
    requires WellNested(calls) && FreshIds(ambient, calls) && NothingEmpty(calls) && i < |calls|
    requires ambient.Some? ==> NoEmptyPart(ambient.value)
    ensures var attrs, run := SpanOf(ambient, calls, i, kind), NearestRun(calls, i);
            && Attribute(attrs, "obs.agent.run_id")
               == (if run.Some? then Some(calls[run.value].id) else if ambient.Some? then ambient.value.agentRunId else None)
            && Attribute(attrs, "obs.actor.type")
               == Some(if run.Some? then RunActorType(calls[run.value].kind.opts)
                       else if ambient.Some? then ambient.value.actorType else "agent")
            && Attribute(attrs, "obs.actor.id")
               == (if run.Some? then RunActorId(calls[run.value].kind.opts)
                   else if ambient.Some? then ambient.value.actorId else None)
            && Attribute(attrs, "obs.action.agent_run_id") == Attribute(attrs, "obs.agent.run_id")
            && Attribute(attrs, "obs.action.actor_type") == Attribute(attrs, "obs.actor.type")
            && Attribute(attrs, "obs.action.actor_id") == Attribute(attrs, "obs.actor.id")
  {
    hide SpanOf, ContextAt, Attribute, FreshIds, WellNested, NothingEmpty;
    NoneEmpty(ambient, calls, i);
    InheritsFromRun(ambient, calls, i);
    AttributeOfSpan(ambient, calls, i, kind, RunIdKey);
    AttributeOfSpan(ambient, calls, i, kind, RunIdAlias);
    AttributeOfSpan(ambient, calls, i, kind, ActorTypeKey);
    AttributeOfSpan(ambient, calls, i, kind, ActorTypeAlias);
    AttributeOfSpan(ambient, calls, i, kind, ActorIdKey);
    AttributeOfSpan(ambient, calls, i, kind, ActorIdAlias);
  }

  /** The actor that a run's options name. */
  function RunActorType(opts: RunOptions): string { if opts.actorType.Some? then opts.actorType.value else "agent" }
  function RunActorId(opts: RunOptions): Option<string> {
    if opts.actorId.Some? then opts.actorId else Some(opts.agentId)
  }
}
