/** The graph that nested agent calls leave behind, in every interleaving.

    Calls begin one at a time, in any order the scheduler likes.  Each begins inside the body of an
    earlier call, or outside all of them, and reads that body's own async-local context. */
module AgentGraph {
  import opened Options
  import opened Bytes
  import C = ActionContext
  import A = ActionId
  import T = ActionTree

  datatype Kind = StartRun(opts: C.RunOptions) | OtherAction

  /** A call that began: inside which call's body, as what, and the id it created. */
  datatype Begin = Begin(inside: Option<nat>, kind: Kind, id: string, startedAt: int)

  ghost predicate WellNested(calls: seq<Begin>) {
    forall i :: 0 <= i < |calls| && calls[i].inside.Some? ==> calls[i].inside.value < i
  }

  /** The context that the body of call `i` runs under. */
  function ContextAt(ambient: Option<C.Context>, calls: seq<Begin>, i: nat): C.Context
    requires WellNested(calls) && i < |calls|
    decreases i
  {
    var call := calls[i];
    var store := if call.inside.None? then ambient else Some(ContextAt(ambient, calls, call.inside.value));
    if call.kind.StartRun? then C.RunContext(call.id, store, call.kind.opts) else C.StepContext(call.id, store)
  }

  /** Created ids are new: distinct, non-empty, and different from those of the ambient context. */
  ghost predicate FreshIds(ambient: Option<C.Context>, calls: seq<Begin>) {
    && (forall i, j :: 0 <= i < j < |calls| ==> calls[i].id != calls[j].id)
    && (forall i :: 0 <= i < |calls| ==> calls[i].id != "")
    && (ambient.Some? ==> forall i :: 0 <= i < |calls| ==>
          calls[i].id != ambient.value.actionId && calls[i].id != ambient.value.rootActionId)
  }

  /** Ids are fresh as long as no two calls of one millisecond draw the same random bytes, nor a call those
      that made an id of the ambient context. */
  lemma {:induction false} CreatedIdsAreFresh(ambient: Option<C.Context>, calls: seq<Begin>, drawn: seq<Draw>,
                                              action: Draw, root: Draw)
    requires |drawn| == |calls| && forall i :: 0 <= i < |calls| ==> Possible(drawn[i]) && calls[i].id == Created(drawn[i])
    requires forall i, j :: 0 <= i < j < |calls| ==> drawn[i] != drawn[j]
    requires ambient.Some? ==>
               && Possible(action) && ambient.value.actionId == Created(action) && action !in drawn
               && Possible(root) && ambient.value.rootActionId == Created(root) && root !in drawn
    ensures FreshIds(ambient, calls)
  {
    hide Created;
    forall i, j | 0 <= i < j < |calls| ensures calls[i].id != calls[j].id { DrawsDiffer(drawn[i], drawn[j]); }
    forall i | 0 <= i < |calls|
      ensures calls[i].id != ""
      ensures ambient.Some? ==> calls[i].id != ambient.value.actionId && calls[i].id != ambient.value.rootActionId
    {
      DrawsDiffer(drawn[i], drawn[i]);
      assert drawn[i] in drawn;
      if ambient.Some? {
        DrawsDiffer(drawn[i], action);
        DrawsDiffer(drawn[i], root);
      }
    }
  }

  /** What an id is made of: the clock and ten random bytes. */
  datatype Draw = Draw(at: nat, random: seq<byte>)

  ghost predicate Possible(d: Draw) { d.at <= A.MAX_TIME && |d.random| == 10 }

  ghost function Created(d: Draw): string
    requires Possible(d)
  {
    A.ActionIdOf(d.at, d.random)
  }

  lemma {:induction false} DrawsDiffer(d: Draw, e: Draw)
    requires Possible(d) && Possible(e)
    ensures (Created(d) == Created(e) <==> d == e) && Created(d) != ""
  {
    hide A.ActionIdOf;
    A.ActionIdsDiffer(d.at, e.at, d.random, e.random);
    A.RandomSuffix(d.at, d.random);
  }

  /** What the dashboard later reads back about call `i`. */
  function Record(ambient: Option<C.Context>, calls: seq<Begin>, i: nat): T.Action
    requires WellNested(calls) && i < |calls|
  {
    var c := ContextAt(ambient, calls, i);
    T.Action(c.actionId, c.causedByActionId, calls[i].startedAt)
  }

  function Root(ambient: Option<C.Context>, calls: seq<Begin>, i: nat): string
    requires WellNested(calls) && i < |calls|
  {
    ContextAt(ambient, calls, i).rootActionId
  }

  function Depth(calls: seq<Begin>, i: nat): nat
    requires WellNested(calls) && i < |calls|
    decreases i
  {
    if calls[i].inside.None? then 0 else 1 + Depth(calls, calls[i].inside.value)
  }

  lemma {:induction false} IdAt(ambient: Option<C.Context>, calls: seq<Begin>, i: nat)
    requires WellNested(calls) && i < |calls|
    ensures ContextAt(ambient, calls, i).actionId == calls[i].id
  {
  }

  /** Links follow the nesting, so they form a forest: every cause began earlier. */
  lemma {:induction false} LinksFollowNesting(ambient: Option<C.Context>, calls: seq<Begin>, i: nat)
    requires WellNested(calls) && i < |calls|
    ensures var a := Record(ambient, calls, i);
            && a.id == calls[i].id
            && match calls[i].inside
               case Some(p) => p < i && a.causedBy == Some(calls[p].id)
               case None => a.causedBy == if ambient.Some? then Some(ambient.value.actionId) else None
  {
    if calls[i].inside.Some? { IdAt(ambient, calls, calls[i].inside.value); }
  }

  /** The innermost run whose body encloses call `i`, the call itself included. */
  function NearestRun(calls: seq<Begin>, i: nat): (r: Option<nat>)
    requires WellNested(calls) && i < |calls|
    ensures r.Some? ==> r.value <= i && calls[r.value].kind.StartRun?
    decreases i
  {
    if calls[i].kind.StartRun? then Some(i)
    else if calls[i].inside.None? then None
    else NearestRun(calls, calls[i].inside.value)
  }

  /** Every action carries the run id and the actor of the innermost run around it, or what the ambient
      context says when there is none; and the interaction that started it all, however deep. */
  lemma {:induction false} InheritsFromRun(ambient: Option<C.Context>, calls: seq<Begin>, i: nat)
    requires WellNested(calls) && i < |calls|
    ensures var c := ContextAt(ambient, calls, i);
            && c.interactionId == (if ambient.Some? then ambient.value.interactionId else None)
            && match NearestRun(calls, i)
               case Some(r) =>
                 var opts := calls[r].kind.opts;
                 && c.agentRunId == Some(calls[r].id)
                 && c.actorType == (if opts.actorType.Some? then opts.actorType.value else "agent")
                 && c.actorId == (if opts.actorId.Some? then opts.actorId else Some(opts.agentId))
               case None =>
                 && c.agentRunId == (if ambient.Some? then ambient.value.agentRunId else None)
                 && c.actorType == (if ambient.Some? then ambient.value.actorType else "agent")
                 && c.actorId == (if ambient.Some? then ambient.value.actorId else None)
    decreases i
  {
    if calls[i].inside.Some? { InheritsFromRun(ambient, calls, calls[i].inside.value); }
  }

  /** Under an inbound request, an outermost call is caused by the action its headers name, else by their
      root, else by the interaction; and its root, unless it opens one, is the root they name, else
      their action, else the interaction. */
  lemma {:induction false} InboundLinks(h: C.Headers, calls: seq<Begin>, i: nat)
    requires WellNested(calls) && i < |calls| && calls[i].inside.None?
    ensures var ambient := C.InboundContext(h);
            && Record(ambient, calls, i).causedBy
               == (if h.action.Some? then h.action else if h.root.Some? then h.root else h.interaction)
            && (ambient.Some? && calls[i].kind.OtherAction? ==>
                  Some(Root(ambient, calls, i))
                  == (if h.root.Some? then h.root else if h.action.Some? then h.action else h.interaction)
                  && ContextAt(ambient, calls, i).interactionId == h.interaction
                  && ContextAt(ambient, calls, i).actorType == "unknown")
  {
  }

  // ---------------------------------------------------------------- the whole list

  function Below(n: nat): (r: set<nat>)
    ensures forall i :: i in r <==> 0 <= i < n
  {
    if n == 0 then {} else Below(n - 1) + {n - 1}
  }

  /** Any list of exactly these records, in whatever order they arrive. */
  ghost predicate Lists(actions: seq<T.Action>, ambient: Option<C.Context>, calls: seq<Begin>, some: set<nat>)
    requires WellNested(calls) && forall i :: i in some ==> i < |calls|
  {
    && T.DistinctIds(actions)
    && (forall i :: i in some ==> Record(ambient, calls, i) in actions)
    && (forall a :: a in actions ==> exists i :: i in some && Record(ambient, calls, i) == a)
  }

  lemma {:induction false} Listed(actions: seq<T.Action>, ambient: Option<C.Context>, calls: seq<Begin>,
                                  some: set<nat>, i: nat)
    requires WellNested(calls) && FreshIds(ambient, calls)
    requires (forall k :: k in some ==> k < |calls|) && Lists(actions, ambient, calls, some)
    requires i < |calls|
    ensures i in some ==> T.Find(actions, calls[i].id) == Some(Record(ambient, calls, i))
    ensures i !in some ==> T.Find(actions, calls[i].id) == None
  {
    if i in some {
      T.FindIs(actions, Record(ambient, calls, i));
    }
  }

  lemma {:induction false} NotListed(actions: seq<T.Action>, ambient: Option<C.Context>, calls: seq<Begin>,
                                     some: set<nat>)
    requires WellNested(calls) && FreshIds(ambient, calls) && ambient.Some?
    requires (forall k :: k in some ==> k < |calls|) && Lists(actions, ambient, calls, some)
    ensures T.Find(actions, ambient.value.actionId) == None
  {
  }

  /** One step up the list is one step out of the nesting, as long as the encloser is listed. */
  lemma {:induction false} StepUp(actions: seq<T.Action>, ambient: Option<C.Context>, calls: seq<Begin>,
                                  some: set<nat>, i: nat)
    requires WellNested(calls) && FreshIds(ambient, calls)
    requires (forall k :: k in some ==> k < |calls|) && Lists(actions, ambient, calls, some) && i in some
    ensures var a := Record(ambient, calls, i);
            match calls[i].inside
            case None => T.IsRoot(actions, a)
            case Some(p) =>
              if p in some then !T.IsRoot(actions, a) && T.Parent(actions, a) == Record(ambient, calls, p)
              else T.IsRoot(actions, a)
  {
    hide T.Find, Lists, FreshIds;
    LinksFollowNesting(ambient, calls, i);
    match calls[i].inside
    case None => if ambient.Some? { NotListed(actions, ambient, calls, some); }
    case Some(p) =>
      Listed(actions, ambient, calls, some, p);
      NonEmpty(ambient, calls, p);
  }

  lemma {:induction false} NonEmpty(ambient: Option<C.Context>, calls: seq<Begin>, i: nat)
    requires FreshIds(ambient, calls) && i < |calls|
    ensures calls[i].id != ""
  {
  }

  lemma {:induction false} ChainIsDepth(actions: seq<T.Action>, ambient: Option<C.Context>, calls: seq<Begin>,
                                        some: set<nat>, i: nat)
    requires WellNested(calls) && FreshIds(ambient, calls)
    requires some == Below(|calls|)
    requires Lists(actions, ambient, calls, some) && i < |calls|
    ensures T.Chain(actions, Record(ambient, calls, i), Depth(calls, i))
    decreases i
  {
    hide Lists, FreshIds, ContextAt, T.Find;
    StepUp(actions, ambient, calls, some, i);
    ListsHas(actions, ambient, calls, some, i);
    if calls[i].inside.Some? {
      ChainIsDepth(actions, ambient, calls, some, calls[i].inside.value);
    }
  }

  /** End to end: whatever nesting the calls had and in whatever order their records arrive, the
      dashboard shows every action exactly once, at its nesting depth, after the action enclosing it. */
  lemma {:induction false} EveryActionShown(actions: seq<T.Action>, ambient: Option<C.Context>, calls: seq<Begin>)
    requires WellNested(calls) && FreshIds(ambient, calls)
    requires Lists(actions, ambient, calls, Below(|calls|))
    ensures forall i :: 0 <= i < |calls| ==>
              T.Row(Record(ambient, calls, i), Depth(calls, i)) in T.Flattened(actions)
    ensures |T.Flattened(actions)| == |actions|
    ensures T.EachOnce(T.Flattened(actions)) && T.ParentsFirst(actions, T.Flattened(actions), 0)
  {
    hide T.Flattened, T.Chain, FreshIds;
    var some := Below(|calls|);
    T.TreeRows(actions);
    forall i | 0 <= i < |calls|
      ensures T.Row(Record(ambient, calls, i), Depth(calls, i)) in T.Flattened(actions)
    {
      ChainIsDepth(actions, ambient, calls, some, i);
      assert T.Chain(actions, T.Row(Record(ambient, calls, i), Depth(calls, i)).action, Depth(calls, i));
    }
    forall a | a in actions
      ensures T.Rooted(actions, a)
    {
      var i :| i in some && Record(ambient, calls, i) == a;
      ChainIsDepth(actions, ambient, calls, some, i);
    }
    T.ShowsAllExactly(actions);
  }

  // ---------------------------------------------------------------- the actions of one root

  /** Call `t` is the one whose id is the root id: a run, or an outermost call with nothing ambient. */
  predicate IsTop(ambient: Option<C.Context>, calls: seq<Begin>, t: nat)
    requires WellNested(calls) && t < |calls|
  {
    Root(ambient, calls, t) == calls[t].id
  }

  /** Going out from `i`, every call up to `t` has the same root as `t`; `d` is how many steps that takes. */
  predicate Connected(ambient: Option<C.Context>, calls: seq<Begin>, i: nat, t: nat, d: nat)
    requires WellNested(calls) && i < |calls| && t < |calls|
    decreases i
  {
    Root(ambient, calls, i) == Root(ambient, calls, t) &&
    if d == 0 then i == t
    else calls[i].inside.Some? && Connected(ambient, calls, calls[i].inside.value, t, d - 1)
  }

  /** Only tops have a new root id; everyone else has the encloser's, or the ambient one. */
  lemma {:induction false} RootsInherited(ambient: Option<C.Context>, calls: seq<Begin>, i: nat)
    requires WellNested(calls) && FreshIds(ambient, calls) && i < |calls|
    ensures IsTop(ambient, calls, i) <==> calls[i].kind.StartRun? || (calls[i].inside.None? && ambient.None?)
    ensures !IsTop(ambient, calls, i) && calls[i].inside.Some? ==>
              Root(ambient, calls, i) == Root(ambient, calls, calls[i].inside.value)
    ensures !IsTop(ambient, calls, i) && calls[i].inside.None? ==>
              ambient.Some? && Root(ambient, calls, i) == ambient.value.rootActionId
  {
    if calls[i].kind.OtherAction? && calls[i].inside.Some? {
      RootIsOld(ambient, calls, calls[i].inside.value, i);
    }
  }

  /** A root id is the ambient one or the id of a call that began no later. */
  lemma {:induction false} RootIsOld(ambient: Option<C.Context>, calls: seq<Begin>, i: nat, later: nat)
    requires WellNested(calls) && FreshIds(ambient, calls) && i < later < |calls|
    ensures Root(ambient, calls, i) != calls[later].id
    decreases i
  {
    if calls[i].kind.OtherAction? && calls[i].inside.Some? {
      RootIsOld(ambient, calls, calls[i].inside.value, later);
    }
  }

  /** Call `i` belongs to the action that was going on before any of the calls. */
  predicate OfAmbient(ambient: Option<C.Context>, calls: seq<Begin>, i: nat)
    requires WellNested(calls) && i < |calls|
  {
    ambient.Some? && Root(ambient, calls, i) == ambient.value.rootActionId
  }

  /** The actions that share a root id are connected: from each of them, staying inside the group, one
      reaches the action whose id it is.  Where it is the ambient root, whose action is not among the
      calls, one reaches an outermost call, which the ambient action caused. */
  lemma {:induction false} ReachesTop(ambient: Option<C.Context>, calls: seq<Begin>, i: nat) returns (t: nat, d: nat)
    requires WellNested(calls) && FreshIds(ambient, calls) && i < |calls|
    ensures t <= i && Connected(ambient, calls, i, t, d)
    ensures if OfAmbient(ambient, calls, i) then
              calls[t].inside.None? && d == Depth(calls, i)
              && Record(ambient, calls, t).causedBy == Some(ambient.value.actionId)
            else calls[t].id == Root(ambient, calls, i) && IsTop(ambient, calls, t)
    decreases i
  {
    RootsInherited(ambient, calls, i);
    assert OfAmbient(ambient, calls, i) ==> !IsTop(ambient, calls, i);
    if IsTop(ambient, calls, i) {
      t, d := i, 0;
    } else if calls[i].inside.None? {
      t, d := i, 0;
      LinksFollowNesting(ambient, calls, i);
    } else {
      t, d := ReachesTop(ambient, calls, calls[i].inside.value);
      d := d + 1;
    }
  }

  /** The calls that share the root id of `t`. */
  ghost function Group(ambient: Option<C.Context>, calls: seq<Begin>, t: nat): set<nat>
    requires WellNested(calls) && t < |calls|
  {
    set i | 0 <= i < |calls| && Root(ambient, calls, i) == Root(ambient, calls, t)
  }

  lemma {:induction false} GroupChain(actions: seq<T.Action>, ambient: Option<C.Context>, calls: seq<Begin>,
                                      t: nat, i: nat, d: nat)
    requires WellNested(calls) && FreshIds(ambient, calls) && t < |calls| && i < |calls|
    requires IsTop(ambient, calls, t) && Connected(ambient, calls, i, t, d)
    requires Lists(actions, ambient, calls, Group(ambient, calls, t))
    ensures T.Chain(actions, Record(ambient, calls, i), d)
    decreases i
  {
    hide Lists, FreshIds, ContextAt;
    var some := Group(ambient, calls, t);
    StepUp(actions, ambient, calls, some, i);
    ListsHas(actions, ambient, calls, some, i);
    if d == 0 {
      if calls[t].inside.Some? { RootIsOld(ambient, calls, calls[t].inside.value, t); }
    } else {
      GroupChain(actions, ambient, calls, t, calls[i].inside.value, d - 1);
    }
  }

  lemma {:induction false} ListsHas(actions: seq<T.Action>, ambient: Option<C.Context>, calls: seq<Begin>,
                                    some: set<nat>, i: nat)
    requires WellNested(calls) && (forall k :: k in some ==> k < |calls|)
    requires Lists(actions, ambient, calls, some) && i in some
    ensures Record(ambient, calls, i) in actions
  {
  }

  /** A run viewed on its own: given only the actions that share the run's root id, the dashboard
      shows each of them once and nothing else, the run itself at depth 0 and every other at its
      distance from the run. */
  lemma {:induction false} RunShownAlone(actions: seq<T.Action>, ambient: Option<C.Context>, calls: seq<Begin>,
                                         t: nat, i: nat)
    returns (d: nat)
    requires WellNested(calls) && FreshIds(ambient, calls) && t < |calls| && IsTop(ambient, calls, t)
    requires Lists(actions, ambient, calls, Group(ambient, calls, t)) && i in Group(ambient, calls, t)
    ensures Connected(ambient, calls, i, t, d)
    ensures T.Row(Record(ambient, calls, i), d) in T.Flattened(actions)
    ensures |T.Flattened(actions)| == |actions| && T.EachOnce(T.Flattened(actions))
  {
    hide T.Flattened, T.Chain, Lists, ContextAt, T.Rooted, Connected;
    ListsDistinct(actions, ambient, calls, Group(ambient, calls, t));
    T.TreeRows(actions);
    d := RunChain(actions, ambient, calls, t, i);
    var r := T.Row(Record(ambient, calls, i), d);
    assert T.Chain(actions, r.action, r.depth);
    forall a | a in actions
      ensures T.Rooted(actions, a)
    {
      var j := WhichCall(actions, ambient, calls, Group(ambient, calls, t), a);
      var e := RunChain(actions, ambient, calls, t, j);
      ChainRoots(actions, a, e);
    }
    T.ShowsAllExactly(actions);
  }

  lemma {:induction false} RunChain(actions: seq<T.Action>, ambient: Option<C.Context>, calls: seq<Begin>, t: nat, i: nat)
    returns (d: nat)
    requires WellNested(calls) && FreshIds(ambient, calls) && t < |calls| && IsTop(ambient, calls, t)
    requires Lists(actions, ambient, calls, Group(ambient, calls, t)) && i in Group(ambient, calls, t)
    ensures Connected(ambient, calls, i, t, d) && T.Chain(actions, Record(ambient, calls, i), d)
  {
    hide T.Chain, Lists, ContextAt;
    assert ambient.Some? ==> calls[t].id != ambient.value.rootActionId;
    var top;
    top, d := ReachesTop(ambient, calls, i);
    assert top == t;
    GroupChain(actions, ambient, calls, t, i, d);
  }

  lemma {:induction false} ChainRoots(actions: seq<T.Action>, a: T.Action, d: nat)
    requires T.Chain(actions, a, d)
    ensures T.Rooted(actions, a)
  {
  }

  lemma {:induction false} WhichCall(actions: seq<T.Action>, ambient: Option<C.Context>, calls: seq<Begin>,
                                     some: set<nat>, a: T.Action) returns (i: nat)
    requires WellNested(calls) && (forall k :: k in some ==> k < |calls|)
    requires Lists(actions, ambient, calls, some) && a in actions
    ensures i in some && Record(ambient, calls, i) == a
  {
    i :| i in some && Record(ambient, calls, i) == a;
  }

  ghost function AmbientGroup(ambient: Option<C.Context>, calls: seq<Begin>): set<nat>
    requires WellNested(calls)
  {
    set i | 0 <= i < |calls| && OfAmbient(ambient, calls, i)
  }

  lemma {:induction false} AmbientChain(actions: seq<T.Action>, ambient: Option<C.Context>, calls: seq<Begin>, i: nat)
    requires WellNested(calls) && FreshIds(ambient, calls)
    requires Lists(actions, ambient, calls, AmbientGroup(ambient, calls)) && i in AmbientGroup(ambient, calls)
    ensures T.Chain(actions, Record(ambient, calls, i), Depth(calls, i))
    decreases i
  {
    hide Lists, ContextAt, T.Find;
    var some := AmbientGroup(ambient, calls);
    StepUp(actions, ambient, calls, some, i);
    ListsHas(actions, ambient, calls, some, i);
    RootsInherited(ambient, calls, i);
    if calls[i].inside.Some? {
      AmbientChain(actions, ambient, calls, calls[i].inside.value);
    }
  }

  /** The same for what was called under an inbound action and belongs to no run: given only the actions
      that share the ambient root, the dashboard shows each once and nothing else, at its nesting depth. */
  lemma {:induction false} AmbientShownAlone(actions: seq<T.Action>, ambient: Option<C.Context>, calls: seq<Begin>)
    requires WellNested(calls) && FreshIds(ambient, calls)
    requires Lists(actions, ambient, calls, AmbientGroup(ambient, calls))
    ensures forall i :: i in AmbientGroup(ambient, calls) ==>
              T.Row(Record(ambient, calls, i), Depth(calls, i)) in T.Flattened(actions)
    ensures |T.Flattened(actions)| == |actions| && T.EachOnce(T.Flattened(actions))
  {
    hide T.Flattened, T.Chain, Lists, ContextAt, T.Rooted, FreshIds;
    var some := AmbientGroup(ambient, calls);
    ListsDistinct(actions, ambient, calls, some);
    T.TreeRows(actions);
    forall i | i in some
      ensures T.Row(Record(ambient, calls, i), Depth(calls, i)) in T.Flattened(actions)
    {
      AmbientChain(actions, ambient, calls, i);
      assert T.Chain(actions, T.Row(Record(ambient, calls, i), Depth(calls, i)).action, Depth(calls, i));
    }
    forall a | a in actions
      ensures T.Rooted(actions, a)
    {
      var i := WhichCall(actions, ambient, calls, some, a);
      AmbientChain(actions, ambient, calls, i);
      ChainRoots(actions, a, Depth(calls, i));
    }
    T.ShowsAllExactly(actions);
  }

  lemma {:induction false} ListsDistinct(actions: seq<T.Action>, ambient: Option<C.Context>, calls: seq<Begin>,
                                         some: set<nat>)
    requires WellNested(calls) && (forall k :: k in some ==> k < |calls|) && Lists(actions, ambient, calls, some)
    ensures T.DistinctIds(actions)
  {
  }
}
