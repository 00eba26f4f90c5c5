/** The dashboard's walk on any list at all, ids repeated or not: when it ends, and with what rows. */
module ActionWalk {
  import opened Options
  import opened ActionTree

  /** The rows `walk` pushes, provided that its calls nest no deeper than `stack`. */
  function WalkWithin(actions: seq<Action>, a: Action, d: nat, stack: nat): Option<seq<Row>>
    decreases stack, 0
  {
    if stack == 0 then None
    else
      var below := AllWithin(actions, Kids(actions, a.id), d + 1, stack - 1);
      if below.None? then None else Some([Row(a, d)] + below.value)
  }

  function AllWithin(actions: seq<Action>, s: seq<Action>, d: nat, stack: nat): Option<seq<Row>>
    decreases stack, 1 + |s|
  {
    if s == [] then Some([])
    else
      var front, last := AllWithin(actions, s[..|s| - 1], d, stack), WalkWithin(actions, s[|s| - 1], d, stack);
      if front.None? || last.None? then None else Some(front.value + last.value)
  }

  function TreeWithin(actions: seq<Action>, stack: nat): Option<seq<Row>> {
    AllWithin(actions, Roots(actions), 0, stack)
  }

  ghost predicate Ends(actions: seq<Action>) { exists stack: nat :: TreeWithin(actions, stack).Some? }

  // ---------------------------------------------------------------- when it ends

  /** Id `x` leads to id `y` by `n` causes on the list. */
  ghost predicate Leads(actions: seq<Action>, x: Id, y: Id, n: nat)
    decreases n
  {
    if n == 0 then x == y
    else exists k :: k in actions && HasCause(k) && k.causedBy.value == x && Leads(actions, k.id, y, n - 1)
  }

  ghost predicate Loops(actions: seq<Action>, x: Id) { exists n: nat :: n > 0 && Leads(actions, x, x, n) }

  ghost predicate FromRoot(actions: seq<Action>, x: Id) {
    exists r, m: nat :: r in actions && IsRoot(actions, r) && Leads(actions, r.id, x, m)
  }

  /** Some id that a root leads to leads back to itself. */
  ghost predicate RootLoops(actions: seq<Action>) { exists x :: FromRoot(actions, x) && Loops(actions, x) }

  lemma KidsAre(actions: seq<Action>, id: Id)
    ensures forall y :: y in Kids(actions, id) <==> y in actions && HasCause(y) && y.causedBy.value == id
  {
    CausedByFacts(actions, id);
    SortedFacts(CausedBy(actions, id));
  }

  lemma RootsAre(actions: seq<Action>)
    ensures forall y :: y in Roots(actions) <==> y in actions && IsRoot(actions, y)
  {
    RootsAmongFacts(actions, actions);
    SortedFacts(RootsAmong(actions, actions));
  }

  /** Calls from id `x` on nest no deeper than `stack`. */
  predicate Fits(actions: seq<Action>, x: Id, stack: nat)
    decreases stack
  {
    stack > 0 && forall k :: k in Kids(actions, x) ==> Fits(actions, k.id, stack - 1)
  }

  lemma {:induction false} WalkFits(actions: seq<Action>, a: Action, d: nat, stack: nat)
    ensures WalkWithin(actions, a, d, stack).Some? <==> Fits(actions, a.id, stack)
    decreases stack, 0
  {
    hide Kids;
    if stack > 0 { AllFit(actions, Kids(actions, a.id), d + 1, stack - 1); }
  }

  lemma {:induction false} AllFit(actions: seq<Action>, s: seq<Action>, d: nat, stack: nat)
    ensures AllWithin(actions, s, d, stack).Some? <==> forall k :: k in s ==> Fits(actions, k.id, stack)
    decreases stack, 1 + |s|
  {
    hide Fits, WalkWithin;
    if s != [] {
      var front, last := s[..|s| - 1], s[|s| - 1];
      AllFit(actions, front, d, stack);
      WalkFits(actions, last, d, stack);
      assert s == front + [last];
    }
  }

  lemma {:induction false} LeadsFurther(actions: seq<Action>, x: Id, y: Id, n: nat, k: Action)
    requires Leads(actions, x, y, n) && k in actions && HasCause(k) && k.causedBy.value == y
    ensures Leads(actions, x, k.id, n + 1)
    decreases n
  {
    if n == 0 {
      assert Leads(actions, k.id, k.id, 0);
    } else {
      var j :| j in actions && HasCause(j) && j.causedBy.value == x && Leads(actions, j.id, y, n - 1);
      LeadsFurther(actions, j.id, y, n - 1, k);
    }
  }

  /** A walk from `x` is a walk from whatever `x` leads to, with less stack left. */
  lemma {:induction false} FitsAlong(actions: seq<Action>, x: Id, y: Id, n: nat, stack: nat)
    requires Leads(actions, x, y, n) && Fits(actions, x, stack)
    ensures n < stack && Fits(actions, y, stack - n)
    decreases n
  {
    hide Kids;
    if n > 0 {
      var k :| k in actions && HasCause(k) && k.causedBy.value == x && Leads(actions, k.id, y, n - 1);
      KidsAre(actions, x);
      FitsAlong(actions, k.id, y, n - 1, stack - 1);
    }
  }

  lemma {:induction false} LoopNeverFits(actions: seq<Action>, x: Id, stack: nat)
    requires Loops(actions, x)
    ensures !Fits(actions, x, stack)
    decreases stack
  {
    if Fits(actions, x, stack) {
      var n: nat :| n > 0 && Leads(actions, x, x, n);
      FitsAlong(actions, x, x, n, stack);
      LoopNeverFits(actions, x, stack - n);
    }
  }

  function Ids(actions: seq<Action>): set<Id> { set a | a in actions :: a.id }

  /** Every id in `path` leads to `x`. */
  ghost predicate AllLead(actions: seq<Action>, path: set<Id>, x: Id) {
    forall p :: p in path ==> exists n: nat :: n > 0 && Leads(actions, p, x, n)
  }

  lemma AllLeadFurther(actions: seq<Action>, path: set<Id>, x: Id, k: Action)
    requires AllLead(actions, path, x) && k in actions && HasCause(k) && k.causedBy.value == x
    ensures AllLead(actions, path + {x}, k.id)
  {
    forall p | p in path + {x}
      ensures exists n: nat :: n > 0 && Leads(actions, p, k.id, n)
    {
      if p == x {
        LeadsFurther(actions, x, x, 0, k);
      } else {
        var n: nat :| n > 0 && Leads(actions, p, x, n);
        LeadsFurther(actions, p, x, n, k);
      }
    }
  }

  lemma FromRootFurther(actions: seq<Action>, x: Id, k: Action)
    requires FromRoot(actions, x) && k in actions && HasCause(k) && k.causedBy.value == x
    ensures FromRoot(actions, k.id)
  {
    var r, m: nat :| r in actions && IsRoot(actions, r) && Leads(actions, r.id, x, m);
    LeadsFurther(actions, r.id, x, m, k);
  }

  /** Without a loop, the ids on the way down are all different, so there is stack enough for them. */
  lemma {:induction false} NoLoopFits(actions: seq<Action>, x: Id, path: set<Id>)
    requires !RootLoops(actions) && FromRoot(actions, x) && x in Ids(actions)
    requires path <= Ids(actions) && AllLead(actions, path, x)
    ensures Fits(actions, x, |Ids(actions) - path|)
    decreases |Ids(actions) - path|
  {
    hide Kids, Leads, FromRoot;
    var left := Ids(actions) - path;
    assert x !in path;
    assert x in left;
    assert Ids(actions) - (path + {x}) == left - {x};
    forall k | k in Kids(actions, x)
      ensures Fits(actions, k.id, |left| - 1)
    {
      KidsAre(actions, x);
      AllLeadFurther(actions, path, x, k);
      FromRootFurther(actions, x, k);
      NoLoopFits(actions, k.id, path + {x});
    }
  }

  lemma RootFromRoot(actions: seq<Action>, r: Action)
    requires r in actions && IsRoot(actions, r)
    ensures FromRoot(actions, r.id)
  {
    assert Leads(actions, r.id, r.id, 0);
  }

  /** The walk ends exactly if no id that a root leads to leads back to itself; the calls then nest no
      deeper than there are ids. */
  lemma {:induction false} EndsExactly(actions: seq<Action>)
    ensures Ends(actions) <==> !RootLoops(actions)
    ensures Ends(actions) <==> TreeWithin(actions, |Ids(actions)|).Some?
  {
    hide Roots, Leads, Fits, AllWithin, Loops;
    RootsAre(actions);
    var roots := Roots(actions);
    if RootLoops(actions) {
      var x :| FromRoot(actions, x) && Loops(actions, x);
      var r, m: nat :| r in actions && IsRoot(actions, r) && Leads(actions, r.id, x, m);
      forall stack: nat
        ensures TreeWithin(actions, stack).None?
      {
        AllFit(actions, roots, 0, stack);
        if Fits(actions, r.id, stack) {
          FitsAlong(actions, r.id, x, m, stack);
          LoopNeverFits(actions, x, stack - m);
        }
      }
    } else {
      forall r | r in roots
        ensures Fits(actions, r.id, |Ids(actions)|)
      {
        RootFromRoot(actions, r);
        NoLoopFits(actions, r.id, {});
        assert Ids(actions) - {} == Ids(actions);
      }
      AllFit(actions, roots, 0, |Ids(actions)|);
      assert TreeWithin(actions, |Ids(actions)|).Some?;
    }
  }

  /** Two actions of one id, the second caused by it: a list on which the walk never ends. */
  lemma {:induction false} RepeatedIdNeverEnds()
    ensures !Ends([Action("a", None, 0), Action("a", Some("a"), 1)])
  {
    hide Ends, IsRoot;
    var first, second := Action("a", None, 0), Action("a", Some("a"), 1);
    var actions := [first, second];
    assert Leads(actions, "a", "a", 0);
    assert second in actions && HasCause(second);
    LeadsFurther(actions, "a", "a", 0, second);
    assert first in actions && IsRoot(actions, first) by { FirstIsRoot(actions, first); }
    RootFromRoot(actions, first);
    EndsExactly(actions);
  }

  lemma FirstIsRoot(actions: seq<Action>, a: Action)
    requires a.causedBy.None?
    ensures IsRoot(actions, a)
  {
  }

  // ---------------------------------------------------------------- what it shows

  /** Some line of causes leads from `a` up to a root in `d` steps; with repeated ids there may be several. */
  ghost predicate Descends(actions: seq<Action>, a: Action, d: nat)
    decreases d
  {
    a in actions &&
    if d == 0 then IsRoot(actions, a)
    else HasCause(a) && exists p :: p in actions && p.id == a.causedBy.value && Descends(actions, p, d - 1)
  }

  /** `x` is `m` steps below `a`. */
  ghost predicate Below(actions: seq<Action>, a: Action, x: Action, m: nat)
    decreases m
  {
    if m == 0 then x == a
    else exists k :: k in actions && HasCause(k) && k.causedBy.value == a.id && Below(actions, k, x, m - 1)
  }

  /** Row `r` hangs below one of `s`, which stand at depth `d`. */
  ghost predicate BelowSome(actions: seq<Action>, s: seq<Action>, d: nat, r: Row) {
    r.depth >= d && exists k :: k in s && Below(actions, k, r.action, r.depth - d)
  }

  lemma {:induction false} BelowSomeNext(actions: seq<Action>, front: seq<Action>, last: Action, d: nat, r: Row)
    ensures BelowSome(actions, front + [last], d, r) <==>
            BelowSome(actions, front, d, r) || (r.depth >= d && Below(actions, last, r.action, r.depth - d))
  {
    hide Below;
    if BelowSome(actions, front, d, r) {
      var k :| k in front && Below(actions, k, r.action, r.depth - d);
      assert k in front + [last];
    } else if r.depth >= d && Below(actions, last, r.action, r.depth - d) {
      assert last in front + [last];
    }
  }

  lemma {:induction false} WalkShows(actions: seq<Action>, a: Action, d: nat, stack: nat, r: Row)
    requires WalkWithin(actions, a, d, stack).Some?
    ensures r in WalkWithin(actions, a, d, stack).value <==> r.depth >= d && Below(actions, a, r.action, r.depth - d)
    decreases stack, 0
  {
    hide Kids, AllWithin;
    AllShow(actions, Kids(actions, a.id), d + 1, stack - 1, r);
    KidsAre(actions, a.id);
  }

  lemma {:induction false} AllShow(actions: seq<Action>, s: seq<Action>, d: nat, stack: nat, r: Row)
    requires AllWithin(actions, s, d, stack).Some?
    ensures r in AllWithin(actions, s, d, stack).value <==> BelowSome(actions, s, d, r)
    decreases stack, 1 + |s|
  {
    hide Below, WalkWithin;
    if s != [] {
      var front, last := s[..|s| - 1], s[|s| - 1];
      AllShow(actions, front, d, stack, r);
      WalkShows(actions, last, d, stack, r);
      BelowSomeNext(actions, front, last, d, r);
      assert s == front + [last];
    }
  }

  lemma {:induction false} BelowDescends(actions: seq<Action>, a: Action, x: Action, d: nat, m: nat)
    requires Descends(actions, a, d) && Below(actions, a, x, m)
    ensures Descends(actions, x, d + m)
    decreases m
  {
    if m > 0 {
      var k :| k in actions && HasCause(k) && k.causedBy.value == a.id && Below(actions, k, x, m - 1);
      assert Descends(actions, k, d + 1);
      BelowDescends(actions, k, x, d + 1, m - 1);
    }
  }

  lemma {:induction false} DescendsBelow(actions: seq<Action>, x: Action, y: Action, d: nat, m: nat) returns (root: Action)
    requires Descends(actions, x, d) && Below(actions, x, y, m)
    ensures root in actions && IsRoot(actions, root) && Below(actions, root, y, d + m)
    decreases d
  {
    if d == 0 {
      root := x;
    } else {
      var p :| p in actions && p.id == x.causedBy.value && Descends(actions, p, d - 1);
      assert Below(actions, p, y, m + 1);
      root := DescendsBelow(actions, p, y, d - 1, m + 1);
    }
  }

  /** Whatever the list, if the walk ends it shows exactly the actions that hang below a root, at every
      depth at which they do. */
  lemma {:induction false} ShowsWhatDescends(actions: seq<Action>, stack: nat, r: Row)
    requires TreeWithin(actions, stack).Some?
    ensures r in TreeWithin(actions, stack).value <==> Descends(actions, r.action, r.depth)
  {
    hide Roots, IsRoot, AllWithin;
    RootsAre(actions);
    AllShow(actions, Roots(actions), 0, stack, r);
    if r in TreeWithin(actions, stack).value {
      var root :| root in Roots(actions) && Below(actions, root, r.action, r.depth);
      assert Descends(actions, root, 0);
      BelowDescends(actions, root, r.action, 0, r.depth);
    }
    if Descends(actions, r.action, r.depth) {
      assert Below(actions, r.action, r.action, 0);
      var root := DescendsBelow(actions, r.action, r.action, r.depth, 0);
      assert root in Roots(actions);
    }
  }

  // ---------------------------------------------------------------- lists with distinct ids

  lemma {:induction false} ChainAlong(actions: seq<Action>, a: Action, d: nat, y: Id, n: nat) returns (b: Action)
    requires DistinctIds(actions) && Chain(actions, a, d) && Leads(actions, a.id, y, n)
    ensures b.id == y && Chain(actions, b, d + n)
    decreases n
  {
    hide DistinctIds;
    if n == 0 {
      b := a;
    } else {
      var k :| k in actions && HasCause(k) && k.causedBy.value == a.id && Leads(actions, k.id, y, n - 1);
      FindIs(actions, a);
      b := ChainAlong(actions, k, d + 1, y, n - 1);
    }
  }

  /** With distinct ids nothing below a root leads back to itself, whatever cycles there are elsewhere. */
  lemma {:induction false} DistinctEnds(actions: seq<Action>)
    requires DistinctIds(actions)
    ensures !RootLoops(actions)
  {
    hide Leads, IsRoot, DistinctIds, Find;
    if RootLoops(actions) {
      var x :| FromRoot(actions, x) && Loops(actions, x);
      var r, m: nat :| r in actions && IsRoot(actions, r) && Leads(actions, r.id, x, m);
      var n: nat :| n > 0 && Leads(actions, x, x, n);
      var a := ChainAlong(actions, r, 0, x, m);
      var b := ChainAlong(actions, a, m, x, n);
      FindIs(actions, a);
      FindIs(actions, b);
      ChainUnique(actions, a, m, m + n);
    }
  }

  lemma {:induction false} WithinIsWalk(actions: seq<Action>, a: Action, d: nat, stack: nat)
    requires DistinctIds(actions) && Chain(actions, a, d) && WalkWithin(actions, a, d, stack).Some?
    ensures WalkWithin(actions, a, d, stack).value == Walk(actions, a, d)
    decreases stack, 0
  {
    hide Kids, Chain, DistinctIds;
    KidsAt(actions, a, d);
    AllWithinIsWalkAll(actions, Kids(actions, a.id), d + 1, stack - 1);
  }

  lemma {:induction false} AllWithinIsWalkAll(actions: seq<Action>, s: seq<Action>, d: nat, stack: nat)
    requires DistinctIds(actions) && AllAt(actions, s, d) && AllWithin(actions, s, d, stack).Some?
    ensures AllWithin(actions, s, d, stack).value == WalkAll(actions, s, d)
    decreases stack, 1 + |s|
  {
    hide Chain, DistinctIds, WalkWithin;
    if s != [] {
      AllWithinIsWalkAll(actions, s[..|s| - 1], d, stack);
      WithinIsWalk(actions, s[|s| - 1], d, stack);
    }
  }

  /** With distinct ids the walk always ends, with the rows of the tree. */
  lemma {:induction false} DistinctShowsTree(actions: seq<Action>)
    requires DistinctIds(actions)
    ensures TreeWithin(actions, |Ids(actions)|) == Some(Flattened(actions))
  {
    hide DistinctIds, Roots, AllWithin, WalkAll;
    DistinctEnds(actions);
    EndsExactly(actions);
    RootsAt(actions);
    AllWithinIsWalkAll(actions, Roots(actions), 0, |Ids(actions)|);
  }

  // ---------------------------------------------------------------- the tree as it is built

  lemma CausedByNext(actions: seq<Action>, i: nat, id: Id)
    requires i < |actions|
    ensures CausedBy(actions[..i + 1], id)
         == if HasCause(actions[i]) && actions[i].causedBy.value == id then CausedBy(actions[..i], id) + [actions[i]]
            else CausedBy(actions[..i], id)
  {
    assert actions[..i + 1][..i] == actions[..i];
  }

  /** The map holds the non-empty lists of actions by cause. */
  ghost predicate Grouped(m: map<Id, seq<Action>>, actions: seq<Action>) {
    forall id :: if id in m then m[id] == CausedBy(actions, id) else CausedBy(actions, id) == []
  }

  method GroupByCause(actions: seq<Action>) returns (childrenMap: map<Id, seq<Action>>)
    ensures Grouped(childrenMap, actions)
  {
    hide CausedBy;
    childrenMap := map[];
    CausedByNone();
    for i := 0 to |actions|
      invariant Grouped(childrenMap, actions[..i])
    {
      var a := actions[i];
      forall id { CausedByNext(actions, i, id); }
      if HasCause(a) {
        if a.causedBy.value !in childrenMap {
          childrenMap := childrenMap[a.causedBy.value := []];
        }
        childrenMap := childrenMap[a.causedBy.value := childrenMap[a.causedBy.value] + [a]];
      }
    }
    assert actions[..|actions|] == actions;
  }

  lemma CausedByNone()
    ensures forall id :: CausedBy([], id) == []
  {
  }

  /** Sorts every list of the map. */
  method SortLists(groups: map<Id, seq<Action>>) returns (childrenMap: map<Id, seq<Action>>)
    ensures childrenMap.Keys == groups.Keys
    ensures forall id :: id in groups ==> childrenMap[id] == Sorted(groups[id])
  {
    hide Sorted;
    childrenMap := groups;
    var left := groups.Keys;
    while left != {}
      invariant left <= groups.Keys && childrenMap.Keys == groups.Keys
      invariant forall id :: id in groups ==>
                  childrenMap[id] == if id in left then groups[id] else Sorted(groups[id])
      decreases |left|
    {
      var id :| id in left;
      childrenMap := childrenMap[id := Sorted(childrenMap[id])];
      left := left - {id};
    }
  }

  lemma RootsAmongNext(actions: seq<Action>, i: nat)
    requires i < |actions|
    ensures RootsAmong(actions, actions[..i + 1])
         == if IsRoot(actions, actions[i]) then RootsAmong(actions, actions[..i]) + [actions[i]]
            else RootsAmong(actions, actions[..i])
  {
    assert actions[..i + 1][..i] == actions[..i];
  }

  method FindRoots(actions: seq<Action>) returns (roots: seq<Action>)
    ensures roots == Roots(actions)
  {
    hide Sorted, RootsAmong;
    var actionIds := set a | a in actions :: a.id;
    roots := [];
    assert RootsAmong(actions, actions[..0]) == [] by { RootsAmongNone(actions); }
    for i := 0 to |actions|
      invariant roots == RootsAmong(actions, actions[..i])
    {
      RootsAmongNext(actions, i);
      if !HasCause(actions[i]) || actions[i].causedBy.value !in actionIds {
        roots := roots + [actions[i]];
      }
    }
    assert actions[..|actions|] == actions;
    roots := Sorted(roots);
  }

  lemma RootsAmongNone(actions: seq<Action>)
    ensures RootsAmong(actions, actions[..0]) == []
  {
  }

  function KidsIn(childrenMap: map<Id, seq<Action>>, id: Id): seq<Action> {
    if id in childrenMap then childrenMap[id] else []
  }

  ghost predicate SortedGroups(childrenMap: map<Id, seq<Action>>, actions: seq<Action>) {
    forall id :: KidsIn(childrenMap, id) == Kids(actions, id)
  }

  /** `walk`; `stack` is how deep its calls can nest, which nothing in it looks at. */
  method WalkInto(ghost actions: seq<Action>, childrenMap: map<Id, seq<Action>>, node: Action, depth: nat, rows: seq<Row>,
                  ghost stack: nat)
    returns (flattened: seq<Row>)
    requires WalkWithin(actions, node, depth, stack).Some? && SortedGroups(childrenMap, actions)
    ensures flattened == rows + WalkWithin(actions, node, depth, stack).value
    decreases stack
  {
    hide Kids, KidsIn;
    flattened := rows + [Row(node, depth)];
    var kids := KidsIn(childrenMap, node.id);
    assert kids == Kids(actions, node.id);
    ghost var head := flattened;
    assert kids[..|kids|] == kids;
    for i := 0 to |kids|
      invariant AllWithin(actions, kids[..i], depth + 1, stack - 1).Some?
      invariant flattened == head + AllWithin(actions, kids[..i], depth + 1, stack - 1).value
    {
      EachWithin(actions, kids, depth + 1, stack - 1, i);
      flattened := WalkInto(actions, childrenMap, kids[i], depth + 1, flattened, stack - 1);
      assert kids[..i + 1][..i] == kids[..i];
    }
  }

  lemma EachWithin(actions: seq<Action>, s: seq<Action>, d: nat, stack: nat, i: nat)
    requires i < |s| && AllWithin(actions, s, d, stack).Some?
    ensures WalkWithin(actions, s[i], d, stack).Some?
  {
    hide Fits;
    AllFit(actions, s, d, stack);
    WalkFits(actions, s[i], d, stack);
  }

  /** `buildActionTree` on every list on which it ends. */
  method BuildActionTree(actions: seq<Action>) returns (flattened: seq<Row>)
    requires !RootLoops(actions)
    ensures forall r: Row :: r in flattened <==> Descends(actions, r.action, r.depth)
    ensures DistinctIds(actions) ==> flattened == Flattened(actions)
    ensures TreeWithin(actions, |Ids(actions)|) == Some(flattened)
  {
    hide RootLoops, Descends, DistinctIds, Roots, Kids, KidsIn, Sorted, CausedBy, WalkWithin, Ids, Flattened;
    ghost var stack := |Ids(actions)|;
    EndsExactly(actions);
    var groups := GroupByCause(actions);
    var childrenMap := SortLists(groups);
    SortedGroupsAre(actions, groups, childrenMap);
    var roots := FindRoots(actions);
    flattened := [];
    for i := 0 to |roots|
      invariant AllWithin(actions, roots[..i], 0, stack) == Some(flattened)
    {
      EachWithin(actions, roots, 0, stack, i);
      flattened := WalkInto(actions, childrenMap, roots[i], 0, flattened, stack);
      assert roots[..i + 1][..i] == roots[..i];
    }
    assert roots[..|roots|] == roots;
    forall r: Row { ShowsWhatDescends(actions, stack, r); }
    if DistinctIds(actions) { DistinctShowsTree(actions); }
  }

  lemma SortedGroupsAre(actions: seq<Action>, groups: map<Id, seq<Action>>, childrenMap: map<Id, seq<Action>>)
    requires Grouped(groups, actions) && childrenMap.Keys == groups.Keys
    requires forall id :: id in groups ==> childrenMap[id] == Sorted(groups[id])
    ensures SortedGroups(childrenMap, actions)
  {
    forall id
      ensures KidsIn(childrenMap, id) == Kids(actions, id)
    {
      assert id !in groups ==> CausedBy(actions, id) == [];
    }
  }
}
