/** The dashboard's causal tree: a flat list of actions, each naming the action that caused it,
    is turned into rows in depth-first order, each with its depth. */
module ActionTree {
  import opened Options

  type Id = string

  datatype Action = Action(id: Id, causedBy: Option<Id>, startedAt: int)

  datatype Row = Row(action: Action, depth: nat)

  ghost predicate DistinctIds(actions: seq<Action>) {
    forall i, j :: 0 <= i < j < |actions| ==> actions[i].id != actions[j].id
  }

  /** An empty string counts as no cause. */
  predicate HasCause(a: Action) { a.causedBy.Some? && a.causedBy.value != "" }

  function Find(actions: seq<Action>, id: Id): (r: Option<Action>)
    ensures r.Some? ==> r.value in actions && r.value.id == id
    ensures r.None? ==> forall a :: a in actions ==> a.id != id
  {
    if actions == [] then None else if actions[0].id == id then Some(actions[0]) else Find(actions[1..], id)
  }

  lemma FindIs(actions: seq<Action>, a: Action)
    requires DistinctIds(actions) && a in actions
    ensures Find(actions, a.id) == Some(a)
  {
    var b := Find(actions, a.id).value;
    var i :| 0 <= i < |actions| && actions[i] == a;
    var j :| 0 <= j < |actions| && actions[j] == b;
    assert i == j;
  }

  /** A root has no cause, or one that is not on the list. */
  predicate IsRoot(actions: seq<Action>, a: Action) {
    !HasCause(a) || Find(actions, a.causedBy.value).None?
  }

  function Parent(actions: seq<Action>, a: Action): Action
    requires !IsRoot(actions, a)
  {
    Find(actions, a.causedBy.value).value
  }

  /** A root is an action that names no cause, or the empty one, or one that no action on the list has for
      its id; the parent of any other is an action with that id. */
  lemma {:induction false} RootsAndParents(actions: seq<Action>, a: Action)
    ensures IsRoot(actions, a) <==>
            a.causedBy == None || a.causedBy == Some("") || forall p :: p in actions ==> Some(p.id) != a.causedBy
    ensures !IsRoot(actions, a) ==> Parent(actions, a) in actions && Some(Parent(actions, a).id) == a.causedBy
  {
  }

  /** Following causes from `a` takes `d` steps to reach a root. */
  predicate Chain(actions: seq<Action>, a: Action, d: nat)
    decreases d
  {
    a in actions &&
    if d == 0 then IsRoot(actions, a)
    else !IsRoot(actions, a) && Chain(actions, Parent(actions, a), d - 1)
  }

  lemma {:induction false} ChainUnique(actions: seq<Action>, a: Action, d: nat, e: nat)
    requires Chain(actions, a, d) && Chain(actions, a, e)
    ensures d == e
    decreases d
  {
    if d > 0 { ChainUnique(actions, Parent(actions, a), d - 1, e - 1); }
  }

  ghost function Elements(actions: seq<Action>): set<Action> { set a | a in actions }

  lemma {:induction false} ElementCount(actions: seq<Action>)
    ensures |Elements(actions)| <= |actions|
    decreases |actions|
  {
    if actions != [] {
      ElementCount(actions[1..]);
      assert Elements(actions) == {actions[0]} + Elements(actions[1..]);
    }
  }

  ghost predicate Within(actions: seq<Action>, x: Action, d: nat) {
    exists k: nat :: k <= d && Chain(actions, x, k)
  }

  lemma {:induction false} ChainSet(actions: seq<Action>, a: Action, d: nat) returns (path: set<Action>)
    requires Chain(actions, a, d)
    ensures path <= Elements(actions) && |path| == d + 1
    ensures forall x :: x in path ==> Within(actions, x, d)
    decreases d
  {
    if d == 0 {
      path := {a};
      assert Within(actions, a, 0);
    } else {
      var up := ChainSet(actions, Parent(actions, a), d - 1);
      assert a !in up by {
        if a in up {
          var k: nat :| k <= d - 1 && Chain(actions, a, k);
          ChainUnique(actions, a, d, k);
        }
      }
      path := up + {a};
      forall x | x in path
        ensures Within(actions, x, d)
      {
        if x in up {
          var k: nat :| k <= d - 1 && Chain(actions, x, k);
        }
      }
    }
  }

  /** A chain never revisits an action, so it is shorter than the list, cycles or no cycles. */
  lemma {:induction false} ChainBound(actions: seq<Action>, a: Action, d: nat)
    requires Chain(actions, a, d)
    ensures d < |actions|
  {
    var path := ChainSet(actions, a, d);
    ElementCount(actions);
    SubsetSize(path, Elements(actions));
  }

  lemma {:induction false} SubsetSize<T>(a: set<T>, b: set<T>)
    requires a <= b
    ensures |a| <= |b|
    decreases a
  {
    if a != {} {
      var x :| x in a;
      SubsetSize(a - {x}, b - {x});
    }
  }

  // ---------------------------------------------------------------- ordering by start time

  /** Puts `x` after everything that started no later. */
  function Insert(s: seq<Action>, x: Action): seq<Action> {
    if s == [] || s[|s| - 1].startedAt <= x.startedAt then s + [x]
    else Insert(s[..|s| - 1], x) + [s[|s| - 1]]
  }

  /** The stable sort that `Array.prototype.sort` performs. */
  function Sorted(s: seq<Action>): seq<Action> {
    if s == [] then [] else Insert(Sorted(s[..|s| - 1]), s[|s| - 1])
  }

  ghost predicate NoDup(s: seq<Action>) { forall i, j :: 0 <= i < j < |s| ==> s[i] != s[j] }

  /** Where on the list an action stands. */
  function Position(actions: seq<Action>, a: Action): nat {
    if actions == [] || actions[0] == a then 0 else 1 + Position(actions[1..], a)
  }

  /** Started earlier, or at the same time but earlier on the list. */
  predicate Before(actions: seq<Action>, x: Action, y: Action) {
    x.startedAt < y.startedAt || (x.startedAt == y.startedAt && Position(actions, x) < Position(actions, y))
  }

  ghost predicate InOrder(actions: seq<Action>, s: seq<Action>) {
    forall i, j :: 0 <= i < j < |s| ==> Before(actions, s[i], s[j])
  }

  /** The actions of `s` stand on the list in that order. */
  ghost predicate Ascending(actions: seq<Action>, s: seq<Action>) {
    forall i, j :: 0 <= i < j < |s| ==> Position(actions, s[i]) < Position(actions, s[j])
  }

  lemma {:induction false} InsertHas(s: seq<Action>, x: Action)
    ensures forall y :: y in Insert(s, x) <==> y == x || y in s
    decreases |s|
  {
    if s != [] && s[|s| - 1].startedAt > x.startedAt {
      InsertHas(s[..|s| - 1], x);
      assert s == s[..|s| - 1] + [s[|s| - 1]];
    }
  }

  lemma {:induction false} InsertNoDup(s: seq<Action>, x: Action)
    requires NoDup(s) && x !in s
    ensures NoDup(Insert(s, x))
    decreases |s|
  {
    if s != [] && s[|s| - 1].startedAt > x.startedAt {
      var front, last := s[..|s| - 1], s[|s| - 1];
      InsertNoDup(front, x);
      InsertHas(front, x);
      var r := Insert(front, x);
      forall i | 0 <= i < |r|
        ensures r[i] != last
      {
        assert r[i] in r;
        if r[i] in front {
          var k :| 0 <= k < |front| && front[k] == r[i];
          assert s[k] == r[i];
        }
      }
    }
  }

  lemma {:induction false} InsertOrder(actions: seq<Action>, s: seq<Action>, x: Action)
    requires InOrder(actions, s) && forall y :: y in s ==> Position(actions, y) < Position(actions, x)
    ensures InOrder(actions, Insert(s, x))
    decreases |s|
  {
    hide Position;
    if s != [] {
      var front, last := s[..|s| - 1], s[|s| - 1];
      if last.startedAt > x.startedAt {
        InsertOrder(actions, front, x);
        InsertHas(front, x);
        var r := Insert(front, x);
        forall i | 0 <= i < |r|
          ensures Before(actions, r[i], last)
        {
          assert r[i] in r;
          if r[i] in front {
            var k :| 0 <= k < |front| && front[k] == r[i];
            assert s[k] == r[i];
          }
        }
      } else {
        forall i | 0 <= i < |s|
          ensures Before(actions, s[i], x)
        {
          assert s[i] in s;
          assert i < |s| - 1 ==> Before(actions, s[i], last);
        }
      }
    }
  }

  lemma {:induction false} SortedFacts(s: seq<Action>)
    ensures forall y :: y in Sorted(s) <==> y in s
    ensures NoDup(s) ==> NoDup(Sorted(s))
    decreases |s|
  {
    if s != [] {
      var front, last := s[..|s| - 1], s[|s| - 1];
      SortedFacts(front);
      InsertHas(Sorted(front), last);
      if NoDup(s) { InsertNoDup(Sorted(front), last); }
      assert s == front + [last];
    }
  }

  /** Sorting a part of the list by start time keeps the list's order among equals. */
  lemma {:induction false} SortedOrder(actions: seq<Action>, s: seq<Action>)
    requires Ascending(actions, s)
    ensures InOrder(actions, Sorted(s))
    decreases |s|
  {
    hide Position, Insert;
    if s != [] {
      var front, last := s[..|s| - 1], s[|s| - 1];
      SortedOrder(actions, front);
      SortedFacts(front);
      forall y | y in Sorted(front)
        ensures Position(actions, y) < Position(actions, last)
      {
        var k :| 0 <= k < |front| && front[k] == y;
        assert s[k] == y;
      }
      InsertOrder(actions, Sorted(front), last);
    }
  }

  lemma {:induction false} PositionIs(actions: seq<Action>, i: nat)
    requires DistinctIds(actions) && i < |actions|
    ensures Position(actions, actions[i]) == i
    decreases |actions|
  {
    if i > 0 { PositionIs(actions[1..], i - 1); }
  }

  // ---------------------------------------------------------------- children and roots

  function CausedBy(actions: seq<Action>, id: Id): seq<Action> {
    if actions == [] then []
    else
      var a := actions[|actions| - 1];
      var front := CausedBy(actions[..|actions| - 1], id);
      if HasCause(a) && a.causedBy.value == id then front + [a] else front
  }

  function RootsAmong(actions: seq<Action>, some: seq<Action>): seq<Action> {
    if some == [] then []
    else
      var a := some[|some| - 1];
      var front := RootsAmong(actions, some[..|some| - 1]);
      if IsRoot(actions, a) then front + [a] else front
  }

  function Kids(actions: seq<Action>, id: Id): seq<Action> { Sorted(CausedBy(actions, id)) }

  function Roots(actions: seq<Action>): seq<Action> { Sorted(RootsAmong(actions, actions)) }

  lemma {:induction false} CausedByFacts(actions: seq<Action>, id: Id)
    ensures forall y :: y in CausedBy(actions, id) <==> y in actions && HasCause(y) && y.causedBy.value == id
    ensures DistinctIds(actions) ==> NoDup(CausedBy(actions, id))
    decreases |actions|
  {
    if actions != [] {
      var front, last := actions[..|actions| - 1], actions[|actions| - 1];
      CausedByFacts(front, id);
      assert actions == front + [last];
    }
  }

  lemma {:induction false} RootsAmongFacts(actions: seq<Action>, some: seq<Action>)
    ensures forall y :: y in RootsAmong(actions, some) <==> y in some && IsRoot(actions, y)
    ensures DistinctIds(some) ==> NoDup(RootsAmong(actions, some))
    decreases |some|
  {
    if some != [] {
      var front, last := some[..|some| - 1], some[|some| - 1];
      RootsAmongFacts(actions, front);
      assert some == front + [last];
    }
  }

  ghost predicate AllBefore(actions: seq<Action>, s: seq<Action>, n: nat) {
    forall y :: y in s ==> Position(actions, y) < n
  }

  lemma {:induction false} AscendingNext(actions: seq<Action>, s: seq<Action>, n: nat)
    requires DistinctIds(actions) && n < |actions| && Ascending(actions, s) && AllBefore(actions, s, n)
    ensures Ascending(actions, s + [actions[n]]) && AllBefore(actions, s + [actions[n]], n + 1)
  {
    hide Position;
    PositionIs(actions, n);
    forall i | 0 <= i < |s| ensures Position(actions, s[i]) < n { assert s[i] in s; }
  }

  /** Kids and roots are picked in the order of the list. */
  lemma {:induction false} PickedInOrder(actions: seq<Action>, id: Id, n: nat)
    requires DistinctIds(actions) && n <= |actions|
    ensures Ascending(actions, CausedBy(actions[..n], id)) && AllBefore(actions, CausedBy(actions[..n], id), n)
    ensures Ascending(actions, RootsAmong(actions, actions[..n])) && AllBefore(actions, RootsAmong(actions, actions[..n]), n)
    decreases n
  {
    hide Position, Ascending, DistinctIds, IsRoot, HasCause;
    if n == 0 {
      NothingPicked(actions);
    } else {
      PickedInOrder(actions, id, n - 1);
      assert actions[..n][..n - 1] == actions[..n - 1];
      AscendingNext(actions, CausedBy(actions[..n - 1], id), n - 1);
      AscendingNext(actions, RootsAmong(actions, actions[..n - 1]), n - 1);
      assert actions[..n][n - 1] == actions[n - 1];
    }
  }

  lemma NothingPicked(actions: seq<Action>)
    ensures Ascending(actions, []) && AllBefore(actions, [], 0)
  {
  }

  /** The kids of an action on the list are the actions whose parent it is. */
  lemma KidsFacts(actions: seq<Action>, a: Action)
    requires DistinctIds(actions) && a in actions
    ensures forall y :: y in Kids(actions, a.id) <==> y in actions && !IsRoot(actions, y) && Parent(actions, y) == a
    ensures NoDup(Kids(actions, a.id)) && InOrder(actions, Kids(actions, a.id))
  {
    hide Position, Ascending, InOrder;
    CausedByFacts(actions, a.id);
    SortedFacts(CausedBy(actions, a.id));
    FindIs(actions, a);
    PickedInOrder(actions, a.id, |actions|);
    assert actions[..|actions|] == actions;
    SortedOrder(actions, CausedBy(actions, a.id));
  }

  lemma RootsFacts(actions: seq<Action>)
    requires DistinctIds(actions)
    ensures forall y :: y in Roots(actions) <==> y in actions && IsRoot(actions, y)
    ensures NoDup(Roots(actions)) && InOrder(actions, Roots(actions))
  {
    hide Position, Ascending, InOrder;
    RootsAmongFacts(actions, actions);
    SortedFacts(RootsAmong(actions, actions));
    PickedInOrder(actions, "", |actions|);
    assert actions[..|actions|] == actions;
    SortedOrder(actions, RootsAmong(actions, actions));
  }

  // ---------------------------------------------------------------- the walk

  ghost predicate AllAt(actions: seq<Action>, s: seq<Action>, d: nat) {
    forall a :: a in s ==> Chain(actions, a, d)
  }

  lemma KidsAt(actions: seq<Action>, a: Action, d: nat)
    requires DistinctIds(actions) && Chain(actions, a, d)
    ensures AllAt(actions, Kids(actions, a.id), d + 1) && d < |actions| && a in actions
  {
    KidsFacts(actions, a);
    ChainBound(actions, a, d);
  }

  function Walk(actions: seq<Action>, a: Action, d: nat): seq<Row>
    requires DistinctIds(actions) && Chain(actions, a, d)
    decreases |actions| - d, 0
  {
    KidsAt(actions, a, d);
    [Row(a, d)] + WalkAll(actions, Kids(actions, a.id), d + 1)
  }

  function WalkAll(actions: seq<Action>, s: seq<Action>, d: nat): seq<Row>
    requires DistinctIds(actions) && AllAt(actions, s, d)
    decreases |actions| - d, |s|
  {
    if s == [] then [] else WalkAll(actions, s[..|s| - 1], d) + Walk(actions, s[|s| - 1], d)
  }

  lemma RootsAt(actions: seq<Action>)
    requires DistinctIds(actions)
    ensures AllAt(actions, Roots(actions), 0)
  {
    RootsFacts(actions);
  }

  function Flattened(actions: seq<Action>): seq<Row>
    requires DistinctIds(actions)
  {
    RootsAt(actions);
    WalkAll(actions, Roots(actions), 0)
  }

  // ---------------------------------------------------------------- what the rows say

  /** `a` is the ancestor of `x` that is `m` steps up. */
  predicate Above(actions: seq<Action>, x: Action, a: Action, m: nat)
    decreases m
  {
    if m == 0 then x == a else !IsRoot(actions, x) && Above(actions, Parent(actions, x), a, m - 1)
  }

  lemma {:induction false} AboveUnique(actions: seq<Action>, x: Action, a: Action, b: Action, m: nat)
    requires Above(actions, x, a, m) && Above(actions, x, b, m)
    ensures a == b
    decreases m
  {
    if m > 0 { AboveUnique(actions, Parent(actions, x), a, b, m - 1); }
  }

  lemma {:induction false} AboveUp(actions: seq<Action>, x: Action, k: Action, m: nat)
    requires Above(actions, x, k, m) && !IsRoot(actions, k)
    ensures Above(actions, x, Parent(actions, k), m + 1)
    decreases m
  {
    if m > 0 { AboveUp(actions, Parent(actions, x), k, m - 1); }
  }

  /** Row `r` belongs to the subtree of `a`, which stands at depth `d`. */
  ghost predicate Belongs(actions: seq<Action>, r: Row, a: Action, d: nat) {
    r.depth >= d && Chain(actions, r.action, r.depth) && Above(actions, r.action, a, r.depth - d)
  }

  ghost predicate BelongsToSome(actions: seq<Action>, r: Row, s: seq<Action>, d: nat) {
    exists a :: a in s && Belongs(actions, r, a, d)
  }

  lemma BelongsSelf(actions: seq<Action>, a: Action, d: nat)
    requires Chain(actions, a, d)
    ensures Belongs(actions, Row(a, d), a, d)
  {
  }

  lemma BelongsUp(actions: seq<Action>, r: Row, k: Action, d: nat)
    requires Belongs(actions, r, k, d + 1) && !IsRoot(actions, k)
    ensures Belongs(actions, r, Parent(actions, k), d)
  {
    AboveUp(actions, r.action, k, r.depth - d - 1);
  }

  lemma {:induction false} WalkSound(actions: seq<Action>, a: Action, d: nat, r: Row)
    requires DistinctIds(actions) && Chain(actions, a, d) && r in Walk(actions, a, d)
    ensures Belongs(actions, r, a, d)
    decreases |actions| - d, 0
  {
    hide Kids, IsRoot, Parent, Chain, Above, Belongs, WalkAll, DistinctIds;
    KidsAt(actions, a, d);
    var kids := Kids(actions, a.id);
    if r == Row(a, d) {
      BelongsSelf(actions, a, d);
    } else {
      WalkAllSound(actions, kids, d + 1, r);
      var k :| k in kids && Belongs(actions, r, k, d + 1);
      KidsFacts(actions, a);
      BelongsUp(actions, r, k, d);
    }
  }

  lemma {:induction false} WalkAllSound(actions: seq<Action>, s: seq<Action>, d: nat, r: Row)
    requires DistinctIds(actions) && AllAt(actions, s, d) && r in WalkAll(actions, s, d)
    ensures BelongsToSome(actions, r, s, d)
    decreases |actions| - d, |s|
  {
    hide Walk, Chain, Above, Belongs, DistinctIds;
    var front, last := s[..|s| - 1], s[|s| - 1];
    if r in Walk(actions, last, d) {
      WalkSound(actions, last, d, r);
    } else {
      WalkAllSound(actions, front, d, r);
    }
  }

  /** A strict ancestor is reached through one of its kids. */
  lemma {:induction false} AboveDown(actions: seq<Action>, x: Action, a: Action, m: nat) returns (k: Action)
    requires Above(actions, x, a, m) && m > 0 && x in actions
    ensures Above(actions, x, k, m - 1) && k in actions && !IsRoot(actions, k) && Parent(actions, k) == a
    decreases m
  {
    if m == 1 { k := x; } else { k := AboveDown(actions, Parent(actions, x), a, m - 1); }
  }

  lemma {:induction false} WalkComplete(actions: seq<Action>, a: Action, d: nat, r: Row)
    requires DistinctIds(actions) && Chain(actions, a, d) && Belongs(actions, r, a, d)
    ensures r in Walk(actions, a, d)
    decreases |actions| - d, 0
  {
    KidsAt(actions, a, d);
    if r.depth > d {
      var k := AboveDown(actions, r.action, a, r.depth - d);
      KidsFacts(actions, a);
      WalkAllComplete(actions, Kids(actions, a.id), d + 1, r, k);
    }
  }

  lemma {:induction false} WalkAllComplete(actions: seq<Action>, s: seq<Action>, d: nat, r: Row, a: Action)
    requires DistinctIds(actions) && AllAt(actions, s, d) && a in s && Belongs(actions, r, a, d)
    ensures r in WalkAll(actions, s, d)
    decreases |actions| - d, |s|
  {
    var front, last := s[..|s| - 1], s[|s| - 1];
    if a == last {
      WalkComplete(actions, a, d, r);
    } else {
      assert a in front;
      WalkAllComplete(actions, front, d, r, a);
    }
  }

  ghost predicate EachOnce(rows: seq<Row>) {
    forall i, j :: 0 <= i < j < |rows| ==> rows[i].action != rows[j].action
  }

  lemma EachOnceAppend(p: seq<Row>, q: seq<Row>)
    requires EachOnce(p) && EachOnce(q)
    requires forall r, t :: r in p && t in q ==> r.action != t.action
    ensures EachOnce(p + q)
  {
    forall i, j | 0 <= i < j < |p + q|
      ensures (p + q)[i].action != (p + q)[j].action
    {
      if i < |p| && j >= |p| { assert p[i] in p && q[j - |p|] in q; }
    }
  }

  lemma {:induction false} WalkOnce(actions: seq<Action>, a: Action, d: nat)
    requires DistinctIds(actions) && Chain(actions, a, d)
    ensures EachOnce(Walk(actions, a, d))
    decreases |actions| - d, 0
  {
    hide Kids, Chain, Above, WalkAll, DistinctIds;
    KidsAt(actions, a, d);
    KidsFacts(actions, a);
    var kids := Kids(actions, a.id);
    WalkAllOnce(actions, kids, d + 1);
    forall t | t in WalkAll(actions, kids, d + 1)
      ensures t.action != a
    {
      WalkAllSound(actions, kids, d + 1, t);
      if t.action == a { ChainUnique(actions, a, d, t.depth); }
    }
    EachOnceAppend([Row(a, d)], WalkAll(actions, kids, d + 1));
  }

  lemma {:induction false} WalkAllOnce(actions: seq<Action>, s: seq<Action>, d: nat)
    requires DistinctIds(actions) && AllAt(actions, s, d) && NoDup(s)
    ensures EachOnce(WalkAll(actions, s, d))
    decreases |actions| - d, |s|
  {
    hide Walk, Chain, Above, DistinctIds;
    if s != [] {
      var front, last := s[..|s| - 1], s[|s| - 1];
      WalkAllOnce(actions, front, d);
      WalkOnce(actions, last, d);
      forall r, t | r in WalkAll(actions, front, d) && t in Walk(actions, last, d)
        ensures r.action != t.action
      {
        WalkAllSound(actions, front, d, r);
        WalkSound(actions, last, d, t);
        var k :| k in front && Belongs(actions, r, k, d);
        if r.action == t.action {
          ChainUnique(actions, r.action, r.depth, t.depth);
          AboveUnique(actions, r.action, k, last, r.depth - d);
        }
      }
      EachOnceAppend(WalkAll(actions, front, d), Walk(actions, last, d));
    }
  }

  /** Row `i` is the parent's, and every row between it and row `j` is at least as deep as row `j`: going
      up from row `j`, it is the first that is less indented. */
  ghost predicate Heads(actions: seq<Action>, rows: seq<Row>, i: nat, j: nat)
    requires j < |rows| && !IsRoot(actions, rows[j].action) && rows[j].depth > 0
  {
    && i < j && rows[i] == Row(Parent(actions, rows[j].action), rows[j].depth - 1)
    && forall k :: i < k < j ==> rows[k].depth >= rows[j].depth
  }

  /** The action on row `j` hangs below its parent, as the indentation shows. */
  ghost predicate AfterParent(actions: seq<Action>, rows: seq<Row>, j: nat)
    requires j < |rows|
  {
    !IsRoot(actions, rows[j].action) && rows[j].depth > 0 && exists i :: Heads(actions, rows, i, j)
  }

  /** Every row below depth `d` hangs below its parent's row. */
  ghost predicate ParentsFirst(actions: seq<Action>, rows: seq<Row>, d: nat) {
    forall j :: 0 <= j < |rows| && rows[j].depth > d ==> AfterParent(actions, rows, j)
  }

  lemma AfterParentShift(actions: seq<Action>, p: seq<Row>, q: seq<Row>, j: nat)
    requires j < |q| && AfterParent(actions, q, j)
    ensures AfterParent(actions, p + q, |p| + j)
  {
    var i :| Heads(actions, q, i, j);
    var rows := p + q;
    forall k | |p| + i < k < |p| + j ensures rows[k].depth >= rows[|p| + j].depth { assert rows[k] == q[k - |p|]; }
    assert Heads(actions, rows, |p| + i, |p| + j);
  }

  lemma AfterParentExtend(actions: seq<Action>, p: seq<Row>, q: seq<Row>, j: nat)
    requires j < |p| && AfterParent(actions, p, j)
    ensures AfterParent(actions, p + q, j)
  {
    var i :| Heads(actions, p, i, j);
    assert Heads(actions, p + q, i, j);
  }

  lemma ParentsFirstAppend(actions: seq<Action>, p: seq<Row>, q: seq<Row>, d: nat)
    requires ParentsFirst(actions, p, d) && ParentsFirst(actions, q, d)
    ensures ParentsFirst(actions, p + q, d)
  {
    hide AfterParent;
    forall j | 0 <= j < |p + q| && (p + q)[j].depth > d
      ensures AfterParent(actions, p + q, j)
    {
      if j < |p| {
        AfterParentExtend(actions, p, q, j);
      } else {
        AfterParentShift(actions, p, q, j - |p|);
      }
    }
  }

  lemma {:induction false} WalkParents(actions: seq<Action>, a: Action, d: nat)
    requires DistinctIds(actions) && Chain(actions, a, d)
    ensures ParentsFirst(actions, Walk(actions, a, d), d)
    decreases |actions| - d, 0
  {
    hide Kids, Chain, Above, WalkAll, DistinctIds;
    KidsAt(actions, a, d);
    KidsFacts(actions, a);
    var kids := Kids(actions, a.id);
    WalkAllParents(actions, kids, d + 1);
    forall r | r in WalkAll(actions, kids, d + 1)
      ensures r.depth >= d + 1
      ensures r.depth == d + 1 ==> !IsRoot(actions, r.action) && Parent(actions, r.action) == a
    {
      WalkAllSound(actions, kids, d + 1, r);
      var k :| k in kids && Belongs(actions, r, k, d + 1);
      if r.depth == d + 1 { AboveNone(actions, r.action, k); }
    }
    ParentOnTop(actions, a, d, WalkAll(actions, kids, d + 1));
  }

  lemma AboveNone(actions: seq<Action>, x: Action, a: Action)
    requires Above(actions, x, a, 0)
    ensures x == a
  {
  }

  lemma AfterTop(actions: seq<Action>, a: Action, d: nat, below: seq<Row>, j: nat)
    requires j < |below| && below[j].depth == d + 1 && forall r :: r in below ==> r.depth >= d + 1
    requires !IsRoot(actions, below[j].action) && Parent(actions, below[j].action) == a
    ensures AfterParent(actions, [Row(a, d)] + below, 1 + j)
  {
    var rows := [Row(a, d)] + below;
    forall k | 0 < k < 1 + j ensures rows[k].depth >= d + 1 { assert rows[k] == below[k - 1] && below[k - 1] in below; }
    assert Heads(actions, rows, 0, 1 + j);
  }

  lemma ParentOnTop(actions: seq<Action>, a: Action, d: nat, below: seq<Row>)
    requires ParentsFirst(actions, below, d + 1)
    requires forall r :: r in below ==> r.depth >= d + 1
    requires forall r :: r in below && r.depth == d + 1 ==> !IsRoot(actions, r.action) && Parent(actions, r.action) == a
    ensures ParentsFirst(actions, [Row(a, d)] + below, d)
  {
    hide IsRoot, Parent, AfterParent;
    var top := [Row(a, d)];
    forall j | 0 <= j < |top + below| && (top + below)[j].depth > d
      ensures AfterParent(actions, top + below, j)
    {
      assert below[j - 1] in below;
      if below[j - 1].depth == d + 1 {
        AfterTop(actions, a, d, below, j - 1);
      } else {
        AfterParentShift(actions, top, below, j - 1);
      }
    }
  }

  lemma {:induction false} WalkAllParents(actions: seq<Action>, s: seq<Action>, d: nat)
    requires DistinctIds(actions) && AllAt(actions, s, d)
    ensures ParentsFirst(actions, WalkAll(actions, s, d), d)
    decreases |actions| - d, |s|
  {
    if s != [] {
      WalkAllParents(actions, s[..|s| - 1], d);
      WalkParents(actions, s[|s| - 1], d);
      ParentsFirstAppend(actions, WalkAll(actions, s[..|s| - 1], d), Walk(actions, s[|s| - 1], d), d);
    }
  }

  predicate Siblings(actions: seq<Action>, x: Action, y: Action) {
    if IsRoot(actions, x) then IsRoot(actions, y)
    else !IsRoot(actions, y) && Parent(actions, x) == Parent(actions, y)
  }

  ghost predicate SiblingsInOrder(actions: seq<Action>, rows: seq<Row>) {
    forall i, j :: 0 <= i < j < |rows| && Siblings(actions, rows[i].action, rows[j].action) ==>
      Before(actions, rows[i].action, rows[j].action)
  }

  lemma SiblingsLevel(actions: seq<Action>, x: Row, y: Row)
    requires Chain(actions, x.action, x.depth) && Chain(actions, y.action, y.depth)
    requires Siblings(actions, x.action, y.action)
    ensures x.depth == y.depth
  {
    if x.depth > 0 { ChainUnique(actions, Parent(actions, x.action), x.depth - 1, y.depth - 1); }
  }

  /** Siblings in the subtrees of two different actions at depth `d` are those two actions. */
  lemma SiblingsApart(actions: seq<Action>, x: Row, k: Action, y: Row, l: Action, d: nat)
    requires Belongs(actions, x, k, d) && Belongs(actions, y, l, d) && k != l
    requires Siblings(actions, x.action, y.action)
    ensures x.action == k && y.action == l
  {
    SiblingsLevel(actions, x, y);
    if x.depth > d {
      AboveUnique(actions, Parent(actions, x.action), k, l, x.depth - d - 1);
    }
  }

  lemma SiblingsAppend(actions: seq<Action>, p: seq<Row>, q: seq<Row>)
    requires SiblingsInOrder(actions, p) && SiblingsInOrder(actions, q)
    requires forall x, y :: x in p && y in q && Siblings(actions, x.action, y.action) ==>
               Before(actions, x.action, y.action)
    ensures SiblingsInOrder(actions, p + q)
  {
    hide Siblings;
    var s := p + q;
    forall i, j | 0 <= i < j < |s| && Siblings(actions, s[i].action, s[j].action)
      ensures Before(actions, s[i].action, s[j].action)
    {
      if i < |p| && j >= |p| { assert p[i] in p && q[j - |p|] in q; }
    }
  }

  lemma {:induction false} WalkSiblings(actions: seq<Action>, a: Action, d: nat)
    requires DistinctIds(actions) && Chain(actions, a, d)
    ensures SiblingsInOrder(actions, Walk(actions, a, d))
    decreases |actions| - d, 0
  {
    hide Kids, Chain, Above, WalkAll, DistinctIds, Siblings;
    KidsAt(actions, a, d);
    KidsFacts(actions, a);
    var kids := Kids(actions, a.id);
    WalkAllSiblings(actions, kids, d + 1);
    forall y | y in WalkAll(actions, kids, d + 1)
      ensures !Siblings(actions, a, y.action)
    {
      WalkAllSound(actions, kids, d + 1, y);
      if Siblings(actions, a, y.action) { SiblingsLevel(actions, Row(a, d), y); }
    }
    SiblingsAppend(actions, [Row(a, d)], WalkAll(actions, kids, d + 1));
  }

  lemma {:induction false} WalkAllSiblings(actions: seq<Action>, s: seq<Action>, d: nat)
    requires DistinctIds(actions) && AllAt(actions, s, d) && NoDup(s) && InOrder(actions, s)
    ensures SiblingsInOrder(actions, WalkAll(actions, s, d))
    decreases |actions| - d, |s|
  {
    hide Walk, Chain, Above, Belongs, DistinctIds, Siblings;
    if s != [] {
      var front, last := s[..|s| - 1], s[|s| - 1];
      WalkAllSiblings(actions, front, d);
      WalkSiblings(actions, last, d);
      forall x, y | x in WalkAll(actions, front, d) && y in Walk(actions, last, d)
                    && Siblings(actions, x.action, y.action)
        ensures Before(actions, x.action, y.action)
      {
        WalkAllSound(actions, front, d, x);
        WalkSound(actions, last, d, y);
        var k :| k in front && Belongs(actions, x, k, d);
        SiblingsApart(actions, x, k, y, last, d);
      }
      SiblingsAppend(actions, WalkAll(actions, front, d), Walk(actions, last, d));
    }
  }

  lemma {:induction false} AboveRoot(actions: seq<Action>, x: Action, d: nat) returns (root: Action)
    requires Chain(actions, x, d)
    ensures root in actions && IsRoot(actions, root) && Above(actions, x, root, d)
    decreases d
  {
    if d == 0 { root := x; } else { root := AboveRoot(actions, Parent(actions, x), d - 1); }
  }

  lemma ChainBelongs(actions: seq<Action>, r: Row, root: Action)
    requires Chain(actions, r.action, r.depth) && Above(actions, r.action, root, r.depth)
    ensures Belongs(actions, r, root, 0)
  {
  }

  /** Exactly the actions whose chain of causes reaches a root are shown, at the depth that is
      the length of the chain, each once, each below the action that caused it as indentation shows
      it, and siblings in the order they started, or of the list where they started together. */
  lemma {:induction false} TreeRows(actions: seq<Action>)
    requires DistinctIds(actions)
    ensures forall r :: r in Flattened(actions) <==> Chain(actions, r.action, r.depth)
    ensures EachOnce(Flattened(actions))
    ensures ParentsFirst(actions, Flattened(actions), 0)
    ensures SiblingsInOrder(actions, Flattened(actions))
  {
    hide Walk, WalkAll, Roots, Chain, Above, Siblings, AfterParent, DistinctIds;
    RootsAt(actions);
    RootsFacts(actions);
    var roots := Roots(actions);
    forall r | r in Flattened(actions)
      ensures Chain(actions, r.action, r.depth)
    {
      WalkAllSound(actions, roots, 0, r);
    }
    forall r: Row | Chain(actions, r.action, r.depth)
      ensures r in Flattened(actions)
    {
      var root := AboveRoot(actions, r.action, r.depth);
      ChainBelongs(actions, r, root);
      WalkAllComplete(actions, roots, 0, r, root);
    }
    WalkAllSiblings(actions, roots, 0);
    WalkAllOnce(actions, roots, 0);
    WalkAllParents(actions, roots, 0);
  }

  ghost predicate Rooted(actions: seq<Action>, a: Action) { exists d: nat :: Chain(actions, a, d) }

  function Shown(rows: seq<Row>): set<Action> { set r | r in rows :: r.action }

  lemma ShownIsRooted(actions: seq<Action>)
    requires DistinctIds(actions)
    ensures forall a :: a in Shown(Flattened(actions)) <==> a in actions && Rooted(actions, a)
  {
    TreeRows(actions);
    hide Flattened;
    var rows := Flattened(actions);
    forall a
      ensures a in Shown(rows) <==> a in actions && Rooted(actions, a)
    {
      if a in Shown(rows) {
        var r :| r in rows && r.action == a;
        assert Chain(actions, a, r.depth);
      }
      if Rooted(actions, a) {
        var d: nat :| Chain(actions, a, d);
        assert Row(a, d) in rows;
      }
    }
  }

  /** The list is shown in full exactly when no action sits on, or hangs below, a cycle of causes. */
  lemma {:induction false} ShowsAllExactly(actions: seq<Action>)
    requires DistinctIds(actions)
    ensures |Flattened(actions)| == |actions| <==> forall a :: a in actions ==> Rooted(actions, a)
  {
    hide Flattened, Rooted, DistinctIds;
    TreeRows(actions);
    var rows := Flattened(actions);
    ShownIsRooted(actions);
    RowCount(rows);
    DistinctCount(actions);
    assert Shown(rows) <= Elements(actions);
    if |rows| == |actions| {
      SubsetEqual(Shown(rows), Elements(actions));
      assert forall a :: a in actions ==> a in Elements(actions);
    }
    if forall a :: a in actions ==> Rooted(actions, a) {
      assert Shown(rows) == Elements(actions);
    }
  }

  lemma {:induction false} RowCount(rows: seq<Row>)
    requires EachOnce(rows)
    ensures |Shown(rows)| == |rows|
    decreases |rows|
  {
    if rows != [] {
      var front, last := rows[..|rows| - 1], rows[|rows| - 1];
      RowCount(front);
      assert rows == front + [last];
      assert Shown(rows) == Shown(front) + {last.action};
      assert last.action !in Shown(front);
    }
  }

  lemma {:induction false} DistinctCount(actions: seq<Action>)
    requires DistinctIds(actions)
    ensures |Elements(actions)| == |actions|
    decreases |actions|
  {
    if actions != [] {
      DistinctCount(actions[1..]);
      assert Elements(actions) == {actions[0]} + Elements(actions[1..]);
    }
  }

  lemma SubsetEqual<T>(a: set<T>, b: set<T>)
    requires a <= b && |a| == |b|
    ensures a == b
  {
    if !(b <= a) {
      var x :| x in b && x !in a;
      SubsetSize(a, b - {x});
    }
  }
}
