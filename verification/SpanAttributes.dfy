/** The attribute list of a child span, and the action context stamped on it. */
module SpanAttributes {
  import opened Options
  import opened ActionContext

  datatype Key =
    | ActionIdKey | RootIdKey | CausedByKey | InteractionKey | ActorTypeKey | ActorTypeAlias
    | ActorIdKey | ActorIdAlias | KindKey | RunIdKey | RunIdAlias
    | Other(name: string)

  function Name(k: Key): string {
    match k
    case ActionIdKey => "obs.action.id"
    case RootIdKey => "obs.action.root_id"
    case CausedByKey => "obs.action.caused_by_id"
    case InteractionKey => "obs.interaction.id"
    case ActorTypeKey => "obs.actor.type"
    case ActorTypeAlias => "obs.action.actor_type"
    case ActorIdKey => "obs.actor.id"
    case ActorIdAlias => "obs.action.actor_id"
    case KindKey => "obs.action.kind"
    case RunIdKey => "obs.agent.run_id"
    case RunIdAlias => "obs.action.agent_run_id"
    case Other(n) => n
  }

  /** The constants are pairwise distinct, so that comparing keys is comparing their names. */
  lemma {:induction false} NamesDistinct(k: Key, l: Key)
    requires !k.Other? && !l.Other? && k != l
    ensures Name(k) != Name(l)
  {
    assert "obs.action.root_id"[4] != "obs.interaction.id"[4];
    assert "obs.action.caused_by_id"[11] != "obs.action.agent_run_id"[11];
    assert |Name(k)| != |Name(l)| || Name(k)[4] != Name(l)[4] || (|Name(k)| == 23 && Name(k)[11] != Name(l)[11]);
  }

  type Attributes = seq<(Key, string)>

  function IndexOf(attrs: Attributes, k: Key): (i: nat)
    ensures i <= |attrs|
    ensures i < |attrs| ==> attrs[i].0 == k
    ensures forall j :: 0 <= j < i ==> attrs[j].0 != k
  {
    if attrs == [] || attrs[0].0 == k then 0 else 1 + IndexOf(attrs[1..], k)
  }

  function Lookup(attrs: Attributes, k: Key): Option<string> {
    if IndexOf(attrs, k) < |attrs| then Some(attrs[IndexOf(attrs, k)].1) else None
  }

  /** `setOrReplaceKv` */
  function SetKv(attrs: Attributes, k: Key, v: string): Attributes {
    var i := IndexOf(attrs, k);
    if i < |attrs| then attrs[i := (k, v)] else attrs + [(k, v)]
  }

  ghost predicate UniqueKeys(attrs: Attributes) {
    forall i, j :: 0 <= i < j < |attrs| ==> attrs[i].0 != attrs[j].0
  }

  lemma IndexIs(attrs: Attributes, k: Key, i: nat)
    requires i <= |attrs| && (i < |attrs| ==> attrs[i].0 == k)
    requires forall j :: 0 <= j < i ==> attrs[j].0 != k
    ensures IndexOf(attrs, k) == i
  {
  }

  lemma {:induction false} SetKvFacts(attrs: Attributes, k: Key, v: string, l: Key)
    ensures UniqueKeys(attrs) ==> UniqueKeys(SetKv(attrs, k, v))
    ensures Lookup(SetKv(attrs, k, v), l) == if l == k then Some(v) else Lookup(attrs, l)
  {
    hide IndexOf;
    SetKvIndex(attrs, k, v, l);
  }

  lemma SetKvIndex(attrs: Attributes, k: Key, v: string, l: Key)
    ensures IndexOf(SetKv(attrs, k, v), l)
         == if l == k || IndexOf(attrs, l) < |attrs| then IndexOf(attrs, l) else |SetKv(attrs, k, v)|
  {
    hide IndexOf;
    if l == k || IndexOf(attrs, l) < |attrs| {
      IndexIs(SetKv(attrs, k, v), l, IndexOf(attrs, l));
    } else {
      IndexIs(SetKv(attrs, k, v), l, |SetKv(attrs, k, v)|);
    }
  }

  function SetAll(attrs: Attributes, updates: Attributes): Attributes {
    if updates == [] then attrs
    else
      var u := updates[|updates| - 1];
      SetKv(SetAll(attrs, updates[..|updates| - 1]), u.0, u.1)
  }

  /** The value that the last update of key `l` writes, if any update does. */
  ghost predicate LastWritten(updates: Attributes, l: Key, v: Option<string>) {
    if v.None? then forall i :: 0 <= i < |updates| ==> updates[i].0 != l
    else exists i :: 0 <= i < |updates| && updates[i] == (l, v.value) && forall j :: i < j < |updates| ==> updates[j].0 != l
  }

  /** After many settings, of whatever keys and however often, the last writer of each key wins, keys
      stay unique, and everything else is left alone. */
  lemma {:induction false} SetAllFacts(attrs: Attributes, updates: Attributes, l: Key) returns (v: Option<string>)
    ensures UniqueKeys(attrs) ==> UniqueKeys(SetAll(attrs, updates))
    ensures LastWritten(updates, l, v)
    ensures Lookup(SetAll(attrs, updates), l) == if v.Some? then v else Lookup(attrs, l)
    decreases |updates|
  {
    hide Lookup, UniqueKeys, LastWritten;
    v := None;
    if updates == [] {
      NothingWritten(l);
    } else {
      var front, u := updates[..|updates| - 1], updates[|updates| - 1];
      v := SetAllFacts(attrs, front, l);
      SetKvFacts(SetAll(attrs, front), u.0, u.1, l);
      LastWrittenNext(front, u, l, v);
      assert updates == front + [u];
      if u.0 == l { v := Some(u.1); }
    }
  }

  lemma NothingWritten(l: Key)
    ensures LastWritten([], l, None)
  {
  }

  lemma LastWrittenNext(front: Attributes, u: (Key, string), l: Key, v: Option<string>)
    requires LastWritten(front, l, v)
    ensures LastWritten(front + [u], l, if u.0 == l then Some(u.1) else v)
  {
    var all := front + [u];
    if u.0 == l {
      assert all[|front|] == (l, u.1);
    } else if v.Some? {
      var i :| 0 <= i < |front| && front[i] == (l, v.value) && forall j :: i < j < |front| ==> front[j].0 != l;
      assert all[i] == (l, v.value);
    }
  }

  /** In a list with unique keys the last writer is the only one. */
  lemma LastIsOnly(updates: Attributes, l: Key, v: Option<string>)
    requires UniqueKeys(updates) && LastWritten(updates, l, v)
    ensures Lookup(updates, l) == v
  {
    if v.None? {
      IndexIs(updates, l, |updates|);
    } else {
      var i :| 0 <= i < |updates| && updates[i] == (l, v.value) && forall j :: i < j < |updates| ==> updates[j].0 != l;
      IndexIs(updates, l, i);
    }
  }

  // ---------------------------------------------------------------- stamping a context

  /** The entries that are there, of a list in which some may be missing. */
  function Present(entries: seq<(Key, Option<string>)>): Attributes {
    if entries == [] then []
    else
      var e, front := entries[|entries| - 1], Present(entries[..|entries| - 1]);
      if e.1.Some? then front + [(e.0, e.1.value)] else front
  }

  function Truthful(o: Option<string>): Option<string> { if Set(o) then o else None }

  /** What a span that describes action `c` says under each key. */
  function Own(c: Context, kind: Option<string>, k: Key): Option<string> {
    match k
    case ActionIdKey => Some(c.actionId)
    case RootIdKey => Some(c.rootActionId)
    case CausedByKey => Truthful(c.causedByActionId)
    case InteractionKey => Truthful(c.interactionId)
    case ActorTypeKey => Some(c.actorType)
    case ActorTypeAlias => Some(c.actorType)
    case ActorIdKey => Truthful(c.actorId)
    case ActorIdAlias => Truthful(c.actorId)
    case KindKey => kind
    case RunIdKey => Truthful(c.agentRunId)
    case RunIdAlias => Truthful(c.agentRunId)
    case Other(_) => None
  }

  /** The keys in the order `setActionAttrs` sets them; `createChildSpan` has the same order without the kind. */
  function KeyAt(i: nat): Key
    requires i < 11
  {
    if i == 0 then ActionIdKey else if i == 1 then RootIdKey else if i == 2 then CausedByKey
    else if i == 3 then InteractionKey else if i == 4 then ActorTypeKey else if i == 5 then ActorTypeAlias
    else if i == 6 then ActorIdKey else if i == 7 then ActorIdAlias else if i == 8 then KindKey
    else if i == 9 then RunIdKey else RunIdAlias
  }

  function Entries(c: Context, kind: Option<string>): seq<(Key, Option<string>)> {
    seq(11, i requires 0 <= i < 11 => (KeyAt(i), Own(c, kind, KeyAt(i))))
  }

  /** What `createChildSpan` pushes for the context it is called under. */
  function Stamp(c: Context): Attributes { Present(Entries(c, None)) }

  /** What `setActionAttrs` sets. */
  function ActionUpdates(c: Context, kind: string): Attributes { Present(Entries(c, Some(kind))) }

  ghost predicate DistinctEntries(entries: seq<(Key, Option<string>)>) {
    forall i, j :: 0 <= i < j < |entries| ==> entries[i].0 != entries[j].0
  }

  lemma LookupAppend(a: Attributes, k: Key, v: string, l: Key)
    requires Lookup(a, k).None?
    ensures Lookup(a + [(k, v)], l) == if l == k then Some(v) else Lookup(a, l)
  {
    if l == k { IndexIs(a + [(k, v)], l, |a|); }
    else if IndexOf(a, l) < |a| { IndexIs(a + [(k, v)], l, IndexOf(a, l)); }
    else { IndexIs(a + [(k, v)], l, |a| + 1); }
  }

  lemma UniqueAppend(a: Attributes, k: Key, v: string)
    requires UniqueKeys(a) && Lookup(a, k).None?
    ensures UniqueKeys(a + [(k, v)])
  {
  }

  lemma {:induction false} PresentFacts(entries: seq<(Key, Option<string>)>, l: Key)
    requires DistinctEntries(entries)
    ensures UniqueKeys(Present(entries))
    ensures (forall i :: 0 <= i < |entries| ==> entries[i].0 != l) ==> Lookup(Present(entries), l) == None
    ensures forall i :: 0 <= i < |entries| && entries[i].0 == l ==> Lookup(Present(entries), l) == entries[i].1
    decreases |entries|
  {
    hide Lookup, UniqueKeys;
    LookupNothing(l);
    if entries != [] {
      var front, e := entries[..|entries| - 1], entries[|entries| - 1];
      PresentFacts(front, l);
      PresentFacts(front, e.0);
      if e.1.Some? {
        LookupAppend(Present(front), e.0, e.1.value, l);
        UniqueAppend(Present(front), e.0, e.1.value);
      }
    }
  }

  lemma LookupNothing(l: Key)
    ensures Lookup([], l) == None && UniqueKeys([])
  {
  }

  lemma InOrder(k: Key) returns (i: nat)
    requires !k.Other?
    ensures i < 11 && KeyAt(i) == k
  {
    i := match k
      case ActionIdKey => 0 case RootIdKey => 1 case CausedByKey => 2 case InteractionKey => 3
      case ActorTypeKey => 4 case ActorTypeAlias => 5 case ActorIdKey => 6 case ActorIdAlias => 7
      case KindKey => 8 case RunIdKey => 9 case RunIdAlias => 10;
  }

  lemma OrderDistinct(i: nat, j: nat)
    requires i < j < 11
    ensures KeyAt(i) != KeyAt(j)
  {
  }

  lemma EntriesLookup(c: Context, kind: Option<string>, k: Key)
    ensures UniqueKeys(Present(Entries(c, kind)))
    ensures Lookup(Present(Entries(c, kind)), k) == Own(c, kind, k)
  {
    hide Present, Lookup, UniqueKeys;
    var es := Entries(c, kind);
    forall i, j | 0 <= i < j < |es|
      ensures es[i].0 != es[j].0
    {
      OrderDistinct(i, j);
    }
    PresentFacts(es, k);
    if !k.Other? {
      var i := InOrder(k);
      assert es[i].0 == k;
    }
  }

  // ---------------------------------------------------------------- what the span ends up saying

  /** A span created under `outer` and then given the attributes of `c`. */
  function Described(outer: Option<Context>, c: Context, kind: string): Attributes {
    SetAll(if outer.Some? then Stamp(outer.value) else [], ActionUpdates(c, kind))
  }

  lemma DescribedLookup(outer: Option<Context>, c: Context, kind: string, k: Key)
    ensures UniqueKeys(Described(outer, c, kind))
    ensures Lookup(Described(outer, c, kind), k)
         == if Own(c, Some(kind), k).Some? then Own(c, Some(kind), k)
            else if outer.Some? then Own(outer.value, None, k) else None
  {
    hide Present, Lookup, UniqueKeys, SetAll, Entries;
    LookupNothing(k);
    EntriesLookup(c, Some(kind), k);
    if outer.Some? { EntriesLookup(outer.value, None, k); }
    var v := SetAllFacts(if outer.Some? then Stamp(outer.value) else [], ActionUpdates(c, kind), k);
    LastIsOnly(ActionUpdates(c, kind), k, v);
  }

  ghost predicate DescribesItself(attrs: Attributes, c: Context, kind: string) {
    UniqueKeys(attrs) && forall k :: Lookup(attrs, k) == Own(c, Some(kind), k)
  }

  /** The span of a nested run describes the run, with nothing left over from the enclosing action,
      exactly when the run has an actor id or the enclosing action has none. */
  lemma {:induction false} RunDescribesItselfExactly(id: string, outer: Option<Context>, opts: RunOptions)
    requires id != "" && (outer.Some? ==> Canonical(outer.value))
    ensures var c := RunContext(id, outer, opts);
            DescribesItself(Described(outer, c, "agent.run"), c, "agent.run") <==>
            Set(c.actorId) || outer.None? || !Set(outer.value.actorId)
  {
    hide Described, Lookup, UniqueKeys;
    var c := RunContext(id, outer, opts);
    var attrs := Described(outer, c, "agent.run");
    forall k
      ensures UniqueKeys(attrs)
      ensures Lookup(attrs, k) == if Own(c, Some("agent.run"), k).Some? then Own(c, Some("agent.run"), k)
                                  else if outer.Some? then Own(outer.value, None, k) else None
    {
      DescribedLookup(outer, c, "agent.run", k);
    }
    if !Set(c.actorId) && outer.Some? && Set(outer.value.actorId) {
      assert Lookup(attrs, ActorIdKey) == outer.value.actorId;
      assert Own(c, Some("agent.run"), ActorIdKey) == None;
    } else {
      forall k
        ensures Lookup(attrs, k) == Own(c, Some("agent.run"), k)
      {
        if outer.Some? {
          assert Set(c.causedByActionId) && Set(c.agentRunId);
          assert Own(c, Some("agent.run"), k).None? ==> Own(outer.value, None, k).None?;
        }
      }
      DescribedLookup(outer, c, "agent.run", KindKey);
    }
  }

  /** Such a run: it has no agent id, and its span keeps the actor of the action around it. */
  lemma {:induction false} NamelessRunIsStale(id: string, outer: Context)
    requires id != "" && Canonical(outer) && outer.actorId.Some?
    ensures var c := RunContext(id, Some(outer), RunOptions("", None, None));
            && !Set(c.actorId)
            && Lookup(Described(Some(outer), c, "agent.run"), ActorIdKey) == outer.actorId
            && !DescribesItself(Described(Some(outer), c, "agent.run"), c, "agent.run")
  {
    hide Described, Lookup, UniqueKeys;
    var c := RunContext(id, Some(outer), RunOptions("", None, None));
    DescribedLookup(Some(outer), c, "agent.run", ActorIdKey);
    RunDescribesItselfExactly(id, Some(outer), RunOptions("", None, None));
  }

  /** With a non-empty agent id and no explicit actor id, a nested run's span is never stale. */
  lemma {:induction false} NestedRunDescribesItself(id: string, outer: Context, agentId: string, actorType: Option<string>)
    requires id != "" && agentId != "" && Canonical(outer)
    ensures var c := RunContext(id, Some(outer), RunOptions(agentId, actorType, None));
            DescribesItself(Described(Some(outer), c, "agent.run"), c, "agent.run")
  {
    RunDescribesItselfExactly(id, Some(outer), RunOptions(agentId, actorType, None));
  }

  /** Every other action creates its span under its own context, and always describes itself. */
  lemma {:induction false} StepDescribesItself(c: Context, kind: string)
    ensures DescribesItself(Described(Some(c), c, kind), c, kind)
  {
    hide Described, Lookup, UniqueKeys;
    forall k
      ensures UniqueKeys(Described(Some(c), c, kind))
      ensures Lookup(Described(Some(c), c, kind), k) == Own(c, Some(kind), k)
    {
      DescribedLookup(Some(c), c, kind, k);
    }
    DescribedLookup(Some(c), c, kind, KindKey);
  }

  // ---------------------------------------------------------------- the record as it is written

  class ChildSpanRecord {
    var attributes: Attributes

    /** `createChildSpan`, as far as the attributes go. */
    constructor (agentCtx: Option<Context>)
      ensures attributes == if agentCtx.Some? then Stamp(agentCtx.value) else []
    {
      hide Done, Stamp;
      attributes := [];
      new;
      if agentCtx.Some? {
        var c := agentCtx.value;
        DoneEnds(c, None);
        PushIdentity(c);
        PushActor(c);
        PushRun(c);
      }
    }

    method PushIdentity(c: Context)
      requires attributes == Done(c, None, 0)
      modifies this
      ensures attributes == Done(c, None, 4)
    {
      hide Done;
      PresentNext(c, None, 0);
      PresentNext(c, None, 1);
      PresentNext(c, None, 2);
      PresentNext(c, None, 3);
      Push(ActionIdKey, c.actionId);
      Push(RootIdKey, c.rootActionId);
      if Set(c.causedByActionId) { Push(CausedByKey, c.causedByActionId.value); }
      if Set(c.interactionId) { Push(InteractionKey, c.interactionId.value); }
    }

    method PushActor(c: Context)
      requires attributes == Done(c, None, 4)
      modifies this
      ensures attributes == Done(c, None, 9)
    {
      hide Done;
      PresentNext(c, None, 4);
      PresentNext(c, None, 5);
      PresentNext(c, None, 6);
      PresentNext(c, None, 7);
      PresentNext(c, None, 8);
      Push(ActorTypeKey, c.actorType);
      Push(ActorTypeAlias, c.actorType);
      if Set(c.actorId) {
        Push(ActorIdKey, c.actorId.value);
        Push(ActorIdAlias, c.actorId.value);
      }
    }

    method PushRun(c: Context)
      requires attributes == Done(c, None, 9)
      modifies this
      ensures attributes == Done(c, None, 11)
    {
      hide Done;
      PresentNext(c, None, 9);
      PresentNext(c, None, 10);
      if Set(c.agentRunId) {
        Push(RunIdKey, c.agentRunId.value);
        Push(RunIdAlias, c.agentRunId.value);
      }
    }

    method Push(k: Key, v: string)
      modifies this
      ensures attributes == old(attributes) + [(k, v)]
    {
      attributes := attributes + [(k, v)];
    }

    method SetAttribute(k: Key, v: string)
      modifies this
      ensures attributes == SetKv(old(attributes), k, v)
    {
      var existing := 0;
      while existing < |attributes| && attributes[existing].0 != k
        invariant existing <= |attributes| && attributes == old(attributes)
        invariant forall j :: 0 <= j < existing ==> attributes[j].0 != k
      {
        existing := existing + 1;
      }
      IndexIs(attributes, k, existing);
      if existing == |attributes| {
        attributes := attributes + [(k, v)];
      } else {
        attributes := attributes[existing := (k, v)];
      }
    }

    /** `setActionAttrs`, with its aliases. */
    method SetActionAttrs(c: Context, kind: string)
      modifies this
      ensures attributes == SetAll(old(attributes), ActionUpdates(c, kind))
    {
      hide Done, ActionUpdates, SetAll;
      DoneEnds(c, Some(kind));
      UpdateStart(attributes);
      ghost var was := attributes;
      SetIdentity(c, kind, was);
      SetActor(c, kind, was);
      SetKindAndRun(c, kind, was);
    }

    method SetIdentity(c: Context, kind: string, ghost was: Attributes)
      requires attributes == SetAll(was, Done(c, Some(kind), 0))
      modifies this
      ensures attributes == SetAll(was, Done(c, Some(kind), 4))
    {
      hide Done, SetKv, SetAll;
      UpdateNext(c, Some(kind), 0, was);
      UpdateNext(c, Some(kind), 1, was);
      UpdateNext(c, Some(kind), 2, was);
      UpdateNext(c, Some(kind), 3, was);
      SetAttribute(ActionIdKey, c.actionId);
      SetAttribute(RootIdKey, c.rootActionId);
      if Set(c.causedByActionId) { SetAttribute(CausedByKey, c.causedByActionId.value); }
      if Set(c.interactionId) { SetAttribute(InteractionKey, c.interactionId.value); }
    }

    method SetActor(c: Context, kind: string, ghost was: Attributes)
      requires attributes == SetAll(was, Done(c, Some(kind), 4))
      modifies this
      ensures attributes == SetAll(was, Done(c, Some(kind), 8))
    {
      hide Done, SetKv, SetAll;
      UpdateNext(c, Some(kind), 4, was);
      UpdateNext(c, Some(kind), 5, was);
      UpdateNext(c, Some(kind), 6, was);
      UpdateNext(c, Some(kind), 7, was);
      SetAttribute(ActorTypeKey, c.actorType);
      SetAttribute(ActorTypeAlias, c.actorType);
      if Set(c.actorId) {
        SetAttribute(ActorIdKey, c.actorId.value);
        SetAttribute(ActorIdAlias, c.actorId.value);
      }
    }

    method SetKindAndRun(c: Context, kind: string, ghost was: Attributes)
      requires attributes == SetAll(was, Done(c, Some(kind), 8))
      modifies this
      ensures attributes == SetAll(was, Done(c, Some(kind), 11))
    {
      hide Done, SetKv, SetAll;
      UpdateNext(c, Some(kind), 8, was);
      UpdateNext(c, Some(kind), 9, was);
      UpdateNext(c, Some(kind), 10, was);
      SetAttribute(KindKey, kind);
      if Set(c.agentRunId) {
        SetAttribute(RunIdKey, c.agentRunId.value);
        SetAttribute(RunIdAlias, c.agentRunId.value);
      }
    }
  }

  /** The attributes once the first `i` keys have been dealt with. */
  function Done(c: Context, kind: Option<string>, i: nat): Attributes
    requires i <= 11
  {
    Present(Entries(c, kind)[..i])
  }

  lemma DoneEnds(c: Context, kind: Option<string>)
    ensures Done(c, kind, 0) == []
    ensures kind.None? ==> Done(c, kind, 11) == Stamp(c)
    ensures kind.Some? ==> Done(c, kind, 11) == ActionUpdates(c, kind.value)
  {
    assert Entries(c, kind)[..11] == Entries(c, kind);
  }

  lemma PresentNext(c: Context, kind: Option<string>, i: nat)
    requires i < 11
    ensures Done(c, kind, i + 1)
         == if Own(c, kind, KeyAt(i)).None? then Done(c, kind, i)
            else Done(c, kind, i) + [(KeyAt(i), Own(c, kind, KeyAt(i)).value)]
  {
    var es := Entries(c, kind);
    assert es[..i + 1][..i] == es[..i];
  }

  lemma UpdateStart(was: Attributes)
    ensures SetAll(was, []) == was
  {
  }

  lemma UpdateNext(c: Context, kind: Option<string>, i: nat, was: Attributes)
    requires i < 11
    ensures SetAll(was, Done(c, kind, i + 1))
         == if Own(c, kind, KeyAt(i)).None? then SetAll(was, Done(c, kind, i))
            else SetKv(SetAll(was, Done(c, kind, i)), KeyAt(i), Own(c, kind, KeyAt(i)).value)
  {
    hide Done;
    PresentNext(c, kind, i);
    var done := Done(c, kind, i);
    if Own(c, kind, KeyAt(i)).Some? {
      assert (done + [(KeyAt(i), Own(c, kind, KeyAt(i)).value)])[..|done|] == done;
    }
  }
}
