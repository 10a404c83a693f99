/** `resolveIdentity`: a breadth-first walk along lineage that answers which objects
    an identifier names today, and exactly when that answer is right. */
module IdentityWalk {
  import opened Options
  import opened Lineage

  const ROUNDS := 32

  // ---------------------------------------------------------------------
  // The walk
  // ---------------------------------------------------------------------

  function Successors(s: State, id: Id): set<Id> {
    set i | 0 <= i < |s.edges| && s.edges[i].from == id :: s.edges[i].to
  }

  /** What the walk has seen, what it answers so far, and its next frontier. */
  datatype Walk = Walk(seen: set<Id>, listed: set<Id>, next: set<Id>)

  /** One row: listed when it is active or when no successor is left unseen. */
  function Visit(s: State, w: Walk, id: Id): Walk {
    var seen := w.seen + {id};
    var open := Successors(s, id) - seen;
    if IsActive(s, id) || open == {} then Walk(seen, w.listed + {id}, w.next) else Walk(seen, w.listed, w.next + open)
  }

  function VisitAll(s: State, w: Walk, rows: seq<Id>): Walk {
    if rows == [] then w else Visit(s, VisitAll(s, w, rows[..|rows| - 1]), rows[|rows| - 1])
  }

  /** The stored rows of a frontier, in the order the query sorts ids. */
  function Rows(order: seq<Id>, frontier: set<Id>): seq<Id> {
    if order == [] then []
    else Rows(order[..|order| - 1], frontier) + if order[|order| - 1] in frontier then [order[|order| - 1]] else []
  }

  function Round(s: State, order: seq<Id>, w: Walk): Walk {
    VisitAll(s, w.(next := {}), Rows(order, w.next))
  }

  function After(s: State, order: seq<Id>, id: Id, n: nat): Walk {
    if n == 0 then Walk({}, {}, {id}) else Round(s, order, After(s, order, id, n - 1))
  }

  /** The ids the walk answers. `order` lists the objects as their ids sort. */
  function ResolvesTo(s: State, order: seq<Id>, id: Id): set<Id> {
    After(s, order, id, ROUNDS).listed
  }

  /** Every object once. */
  predicate Enumerates(s: State, order: seq<Id>) {
    && (forall i :: 0 <= i < |order| ==> order[i] < |s.objects|)
    && (forall id :: 0 <= id < |s.objects| ==> id in order)
    && forall i, j :: 0 <= i < j < |order| ==> order[i] != order[j]
  }

  /** The walk as written; unknown ids have no answer. */
  method ResolveIdentity(s: State, order: seq<Id>, id: Id) returns (resolvesTo: Option<set<Id>>)
    ensures resolvesTo == if id < |s.objects| then Some(ResolvesTo(s, order, id)) else None
  {
    if id >= |s.objects| {
      return None;
    }
    var w := Walk({}, {}, {id});
    var depth := 0;
    while depth < ROUNDS && w.next != {}
      invariant 0 <= depth <= ROUNDS && w == After(s, order, id, depth)
    {
      var rows := Rows(order, w.next);
      var start := w.(next := {});
      w := start;
      for i := 0 to |rows|
        invariant w == VisitAll(s, start, rows[..i])
      {
        assert rows[..i + 1][..i] == rows[..i];
        var seen := w.seen + {rows[i]};
        var open := Successors(s, rows[i]) - seen;
        if IsActive(s, rows[i]) || open == {} {
          w := Walk(seen, w.listed + {rows[i]}, w.next);
        } else {
          w := Walk(seen, w.listed, w.next + open);
        }
      }
      assert rows[..|rows|] == rows;
      depth := depth + 1;
    }
    if depth < ROUNDS { EmptyFrontierRests(s, order, id, depth, ROUNDS); }
    resolvesTo := Some(w.listed);
  }

  lemma {:induction false} NoRowsWithoutFrontier(order: seq<Id>)
    ensures Rows(order, {}) == []
  {
    if order != [] { NoRowsWithoutFrontier(order[..|order| - 1]); }
  }

  lemma {:induction false} EmptyFrontierRests(s: State, order: seq<Id>, id: Id, n: nat, m: nat)
    requires n <= m && After(s, order, id, n).next == {}
    ensures After(s, order, id, m) == After(s, order, id, n)
    decreases m
  {
    if n < m {
      EmptyFrontierRests(s, order, id, n, m - 1);
      NoRowsWithoutFrontier(order);
    }
  }

  // ---------------------------------------------------------------------
  // Distance
  // ---------------------------------------------------------------------

  /** The objects at most `d` steps along lineage from `id`. */
  function Within(s: State, id: Id, d: nat): set<Id> {
    if d == 0 then {id} else Within(s, id, d - 1) + Targets(s, Within(s, id, d - 1))
  }

  function Targets(s: State, froms: set<Id>): set<Id> {
    set i | 0 <= i < |s.edges| && s.edges[i].from in froms :: s.edges[i].to
  }

  /** The objects whose shortest way from `id` takes exactly `d` steps. */
  function Layer(s: State, id: Id, d: nat): set<Id> {
    if d == 0 then {id} else Within(s, id, d) - Within(s, id, d - 1)
  }

  /** What lies nearer than layer `d`. */
  function Nearer(s: State, id: Id, d: nat): set<Id> {
    if d == 0 then {} else Within(s, id, d - 1)
  }

  lemma {:induction false} PathAppend(s: State, p: seq<nat>, i: nat, a: Id, b: Id)
    requires IsPath(s, p, a, b) && i < |s.edges| && s.edges[i].from == b
    ensures IsPath(s, p + [i], a, s.edges[i].to)
    decreases |p|
  {
    if p == [] {
      assert (p + [i])[1..] == [];
    } else {
      PathAppend(s, p[1..], i, s.edges[p[0]].to, b);
      assert (p + [i])[1..] == p[1..] + [i];
    }
  }

  lemma {:induction false} PathSplit(s: State, p: seq<nat>, a: Id, b: Id)
    requires IsPath(s, p, a, b) && p != []
    ensures var last := p[|p| - 1]; last < |s.edges| && s.edges[last].to == b && IsPath(s, p[..|p| - 1], a, s.edges[last].from)
    decreases |p|
  {
    if |p| > 1 {
      PathSplit(s, p[1..], s.edges[p[0]].to, b);
      assert p[1..][..|p| - 2] == p[..|p| - 1][1..];
    } else {
      assert p[..0] == [];
    }
  }

  lemma {:induction false} WithinHasPath(s: State, id: Id, d: nat, x: Id) returns (p: seq<nat>)
    requires x in Within(s, id, d)
    ensures IsPath(s, p, id, x) && |p| <= d
  {
    if d == 0 {
      p := [];
    } else if x in Within(s, id, d - 1) {
      p := WithinHasPath(s, id, d - 1, x);
    } else {
      var i :| 0 <= i < |s.edges| && s.edges[i].from in Within(s, id, d - 1) && s.edges[i].to == x;
      var q := WithinHasPath(s, id, d - 1, s.edges[i].from);
      PathAppend(s, q, i, id, s.edges[i].from);
      p := q + [i];
    }
  }

  lemma {:induction false} PathIsWithin(s: State, id: Id, d: nat, x: Id, p: seq<nat>)
    requires IsPath(s, p, id, x) && |p| <= d
    ensures x in Within(s, id, d)
  {
    if d > 0 && p != [] {
      PathSplit(s, p, id, x);
      PathIsWithin(s, id, d - 1, s.edges[p[|p| - 1]].from, p[..|p| - 1]);
    } else if d > 0 {
      PathIsWithin(s, id, d - 1, x, p);
    }
  }

  /** "Within `d` steps" means a walk of at most `d` edges. */
  lemma WithinIsWalkable(s: State, id: Id, d: nat, x: Id)
    ensures x in Within(s, id, d) <==> exists p :: IsPath(s, p, id, x) && |p| <= d
  {
    hide Within, IsPath;
    if x in Within(s, id, d) {
      var p := WithinHasPath(s, id, d, x);
    }
    if p :| IsPath(s, p, id, x) && |p| <= d {
      PathIsWithin(s, id, d, x, p);
    }
  }

  // ---------------------------------------------------------------------
  // What a round does, whatever the order
  // ---------------------------------------------------------------------

  lemma {:induction false} RowsAreTheFrontier(order: seq<Id>, frontier: set<Id>)
    ensures forall x :: x in Rows(order, frontier) <==> x in order && x in frontier
  {
    if order != [] {
      RowsAreTheFrontier(order[..|order| - 1], frontier);
      assert order == order[..|order| - 1] + [order[|order| - 1]];
    }
  }

  /** Seen grows by exactly the rows; every successor pushed was unseen; a retired row
      whose successors were not all seen before the round's end pushed those. */
  lemma {:induction false} VisitedRows(s: State, w: Walk, rows: seq<Id>)
    requires w.next == {}
    ensures var v := VisitAll(s, w, rows);
      && v.seen == w.seen + (set x | x in rows)
      && w.listed <= v.listed <= w.listed + (set x | x in rows)
      && v.next <= Targets(s, set x | x in rows) - w.seen
      && (forall x :: x in rows && IsActive(s, x) ==> x in v.listed)
  {
    if rows != [] {
      var front, x := rows[..|rows| - 1], rows[|rows| - 1];
      assert rows == front + [x];
      VisitedRows(s, w, front);
    }
  }

  /** A successor that stays unseen through the round is pushed by its retired row,
      which is not listed in this round. */
  lemma {:induction false} UnseenIsPushed(s: State, w: Walk, rows: seq<Id>, x: Id, y: Id)
    requires w.next == {} && x in rows && !IsActive(s, x) && y in Successors(s, x) && y !in VisitAll(s, w, rows).seen
    ensures y in VisitAll(s, w, rows).next
  {
    var front, last := rows[..|rows| - 1], rows[|rows| - 1];
    assert rows == front + [last];
    if x in front { UnseenIsPushed(s, w, front, x, y); }
  }

  /** The state of the walk after `d` rounds, before round `d`. */
  predicate IsSwept(s: State, id: Id, d: nat, w: Walk) {
    && w.seen == Nearer(s, id, d)
    && Layer(s, id, d) <= w.next <= Within(s, id, d) - (if d < 2 then {} else Within(s, id, d - 2))
    && w.listed <= w.seen
    && (forall x :: x in w.seen && IsActive(s, x) ==> x in w.listed)
  }

  lemma {:induction false} WithinObjects(s: State, id: Id, d: nat)
    requires EdgesJoin(s) && id < |s.objects|
    ensures forall x :: x in Within(s, id, d) ==> x < |s.objects|
  {
    if d > 0 { WithinObjects(s, id, d - 1); }
  }

  lemma RoundRows(s: State, order: seq<Id>, id: Id, d: nat, w: Walk)
    requires Graph(s) && Enumerates(s, order) && id < |s.objects| && IsSwept(s, id, d, w)
    ensures (set x | x in Rows(order, w.next)) == w.next
    ensures Nearer(s, id, d) + w.next == Within(s, id, d)
  {
    WithinObjects(s, id, d);
    RowsAreTheFrontier(order, w.next);
  }

  lemma OutwardEdgeSpansOneLayer(s: State, id: Id, d: nat, x: Id, y: Id)
    requires x in Within(s, id, d) && y in Successors(s, x) && y in Layer(s, id, d + 1)
    ensures x in Layer(s, id, d)
  {}

  lemma RoundSweeps(s: State, order: seq<Id>, id: Id, d: nat, w: Walk)
    requires Graph(s) && Enumerates(s, order) && id < |s.objects| && IsSwept(s, id, d, w)
    ensures IsSwept(s, id, d + 1, Round(s, order, w))
  {
    var rows, start, v := Rows(order, w.next), w.(next := {}), Round(s, order, w);
    RoundRows(s, order, id, d, w);
    VisitedRows(s, start, rows);
    assert v.seen == Within(s, id, d);
    forall y | y in Layer(s, id, d + 1) ensures y in v.next {
      var i :| 0 <= i < |s.edges| && s.edges[i].from in Within(s, id, d) && s.edges[i].to == y;
      var x := s.edges[i].from;
      assert y in Successors(s, x);
      OutwardEdgeSpansOneLayer(s, id, d, x, y);
      UnseenIsPushed(s, start, rows, x, y);
    }
  }

  lemma {:induction false} WalkSweeps(s: State, order: seq<Id>, id: Id, d: nat)
    requires Graph(s) && Enumerates(s, order) && id < |s.objects|
    ensures IsSwept(s, id, d, After(s, order, id, d))
  {
    if d > 0 {
      WalkSweeps(s, order, id, d - 1);
      RoundSweeps(s, order, id, d - 1, After(s, order, id, d - 1));
    }
  }

  /** The active objects answered are exactly those some walk of fewer than 32 edges
      reaches: nothing live is missed while lineage is that short. */
  lemma ActiveAnswersAreTheNearOnes(s: State, order: seq<Id>, id: Id, x: Id)
    requires Graph(s) && Enumerates(s, order) && id < |s.objects| && IsActive(s, x)
    ensures x in ResolvesTo(s, order, id) <==> exists p :: IsPath(s, p, id, x) && |p| < ROUNDS
  {
    WalkSweeps(s, order, id, ROUNDS);
    WithinIsWalkable(s, id, ROUNDS - 1, x);
    assert forall p: seq<nat> :: |p| < ROUNDS <==> |p| <= ROUNDS - 1;
  }

  // ---------------------------------------------------------------------
  // Retired answers
  // ---------------------------------------------------------------------

  predicate OnlyActive(s: State, ids: set<Id>) {
    forall id: Id :: id in ids ==> IsActive(s, id)
  }

  /** Some successor is farther away than `x`, which lies in layer `d`. */
  predicate LeadsOutward(s: State, id: Id, d: nat, x: Id) {
    exists y: Id :: y in Successors(s, x) && y in Layer(s, id, d + 1)
  }

  /** Some object equally far away leads to `x`. */
  predicate IsEnteredSideways(s: State, id: Id, d: nat, x: Id) {
    exists y: Id :: y in Layer(s, id, d) && x in Successors(s, y)
  }

  /** A retired object in layer `d` leads one step farther out and is entered from
      nearer objects only. */
  predicate IsOutwardAt(s: State, id: Id, d: nat) {
    forall x: Id :: x in Layer(s, id, d) && !IsActive(s, x) ==>
      LeadsOutward(s, id, d, x) && (d + 1 < ROUNDS ==> !IsEnteredSideways(s, id, d, x))
  }

  /** The shape of lineage from `id`, as far as the walk goes, that keeps every
      retired object out of the answer. */
  predicate IsOutward(s: State, id: Id) {
    forall d: nat :: d < ROUNDS ==> IsOutwardAt(s, id, d)
  }

  lemma {:induction false} WithUnseenIsUnlisted(s: State, w: Walk, rows: seq<Id>, x: Id, y: Id)
    requires x !in w.listed && !IsActive(s, x) && y in Successors(s, x) && y !in VisitAll(s, w, rows).seen
    ensures x !in VisitAll(s, w, rows).listed
  {
    if rows != [] {
      WithUnseenIsUnlisted(s, w, rows[..|rows| - 1], x, y);
    }
  }

  /** Nothing retired is answered, and no retired object waits to be seen again. */
  predicate IsClean(s: State, id: Id, d: nat, w: Walk) {
    && OnlyActive(s, w.listed)
    && (d < ROUNDS ==> forall x: Id :: x in w.next && !IsActive(s, x) ==> x in Layer(s, id, d))
  }

  lemma RoundStaysClean(s: State, order: seq<Id>, id: Id, d: nat, w: Walk)
    requires Graph(s) && Enumerates(s, order) && id < |s.objects| && d < ROUNDS && IsOutward(s, id)
    requires IsSwept(s, id, d, w) && IsClean(s, id, d, w)
    ensures IsClean(s, id, d + 1, Round(s, order, w))
  {
    var rows, start, v := Rows(order, w.next), w.(next := {}), Round(s, order, w);
    RoundRows(s, order, id, d, w);
    VisitedRows(s, start, rows);
    RoundSweeps(s, order, id, d, w);
    assert IsOutwardAt(s, id, d);
    forall x: Id | x in v.listed ensures IsActive(s, x) {
      if x !in w.listed && !IsActive(s, x) {
        var y: Id :| y in Successors(s, x) && y in Layer(s, id, d + 1);
        WithUnseenIsUnlisted(s, start, rows, x, y);
      }
    }
    forall y: Id | d + 1 < ROUNDS && y in v.next && !IsActive(s, y) ensures y in Layer(s, id, d + 1) {
      var i :| 0 <= i < |s.edges| && s.edges[i].from in w.next && s.edges[i].to == y;
      var x := s.edges[i].from;
      assert x in Layer(s, id, d) && y in Successors(s, x);
      assert y in Layer(s, id, d) ==> IsEnteredSideways(s, id, d, y);
    }
  }

  lemma {:induction false} OutwardStaysClean(s: State, order: seq<Id>, id: Id, d: nat)
    requires Graph(s) && Enumerates(s, order) && id < |s.objects| && IsOutward(s, id) && d <= ROUNDS
    ensures IsClean(s, id, d, After(s, order, id, d))
  {
    if d > 0 {
      OutwardStaysClean(s, order, id, d - 1);
      WalkSweeps(s, order, id, d - 1);
      RoundStaysClean(s, order, id, d - 1, After(s, order, id, d - 1));
    }
  }

  /** The order of ids that puts `x` last. */
  function LastOf(n: nat, x: Id): (order: seq<Id>)
    requires x < n
    ensures |order| == n
  {
    seq(n, i requires 0 <= i < n => if i == n - 1 then x else if i < x then i else i + 1)
  }

  lemma LastOfEnumerates(s: State, x: Id)
    requires x < |s.objects|
    ensures Enumerates(s, LastOf(|s.objects|, x)) && LastOf(|s.objects|, x)[|s.objects| - 1] == x
  {
    var n, order := |s.objects|, LastOf(|s.objects|, x);
    forall id: Id | id < n ensures id in order {
      assert order[if id == x then n - 1 else if id < x then id else id - 1] == id;
    }
  }

  lemma {:induction false} ListedStays(s: State, order: seq<Id>, id: Id, n: nat, m: nat)
    requires n <= m && Graph(s) && Enumerates(s, order) && id < |s.objects|
    ensures After(s, order, id, n).listed <= After(s, order, id, m).listed
    decreases m
  {
    if n < m {
      ListedStays(s, order, id, n, m - 1);
      var w := After(s, order, id, m - 1);
      VisitedRows(s, w.(next := {}), Rows(order, w.next));
    }
  }

  /** Visited last in a round, with nothing left unseen, a retired object is answered. */
  lemma LastIsListed(s: State, order: seq<Id>, id: Id, d: nat, x: Id)
    requires Graph(s) && Enumerates(s, order) && id < |s.objects| && order != [] && order[|order| - 1] == x
    requires x in After(s, order, id, d).next && d < ROUNDS
    requires Successors(s, x) <= Within(s, id, d)
    ensures x in ResolvesTo(s, order, id)
  {
    var w := After(s, order, id, d);
    var rows, start := Rows(order, w.next), w.(next := {});
    WalkSweeps(s, order, id, d);
    RoundRows(s, order, id, d, w);
    var front := rows[..|rows| - 1];
    assert rows[|rows| - 1] == x && rows == front + [x];
    VisitedRows(s, start, front);
    assert Within(s, id, d) <= VisitAll(s, start, front).seen + {x};
    assert x in After(s, order, id, d + 1).listed;
    ListedStays(s, order, id, d + 1, ROUNDS);
  }

  /** Entered sideways and visited last, a retired object is queued once more. */
  lemma LastIsQueuedAgain(s: State, order: seq<Id>, id: Id, d: nat, x: Id, y: Id)
    requires Graph(s) && Enumerates(s, order) && id < |s.objects| && order != [] && order[|order| - 1] == x
    requires x in Layer(s, id, d) && y in Layer(s, id, d) && x in Successors(s, y)
    ensures x in After(s, order, id, d + 1).next
  {
    var w := After(s, order, id, d);
    var rows, start := Rows(order, w.next), w.(next := {});
    WalkSweeps(s, order, id, d);
    RoundRows(s, order, id, d, w);
    var front := rows[..|rows| - 1];
    assert rows[|rows| - 1] == x && rows == front + [x];
    RowsDistinct(order, w.next);
    VisitedRows(s, start, front);
    assert x != y;
    UnseenIsPushed(s, start, front, y, x);
  }

  lemma {:induction false} RowsDistinct(order: seq<Id>, frontier: set<Id>)
    requires forall i, j :: 0 <= i < j < |order| ==> order[i] != order[j]
    ensures forall i, j :: 0 <= i < j < |Rows(order, frontier)| ==> Rows(order, frontier)[i] != Rows(order, frontier)[j]
  {
    if order != [] {
      RowsDistinct(order[..|order| - 1], frontier);
      RowsAreTheFrontier(order[..|order| - 1], frontier);
    }
  }

  lemma SuccessorsAreNext(s: State, id: Id, d: nat, x: Id)
    requires x in Within(s, id, d)
    ensures Successors(s, x) <= Within(s, id, d + 1)
  {}

  lemma NoWayOutIsListed(s: State, order: seq<Id>, id: Id, d: nat, x: Id)
    requires Graph(s) && Enumerates(s, order) && id < |s.objects| && order != [] && order[|order| - 1] == x
    requires d < ROUNDS && x in Layer(s, id, d) && !LeadsOutward(s, id, d, x)
    ensures x in ResolvesTo(s, order, id)
  {
    WalkSweeps(s, order, id, d);
    SuccessorsAreNext(s, id, d, x);
    forall y: Id | y in Successors(s, x) ensures y in Within(s, id, d) {
      assert y in Within(s, id, d + 1) && y !in Layer(s, id, d + 1);
    }
    LastIsListed(s, order, id, d, x);
  }

  lemma SidewaysIsListed(s: State, order: seq<Id>, id: Id, d: nat, x: Id)
    requires Graph(s) && Enumerates(s, order) && id < |s.objects| && order != [] && order[|order| - 1] == x
    requires d + 1 < ROUNDS && x in Layer(s, id, d) && IsEnteredSideways(s, id, d, x)
    ensures x in ResolvesTo(s, order, id)
  {
    hide Graph, Enumerates, After, ResolvesTo, Successors;
    var y: Id :| y in Layer(s, id, d) && x in Successors(s, y);
    LastIsQueuedAgain(s, order, id, d, x, y);
    SuccessorsAreNext(s, id, d, x);
    LastIsListed(s, order, id, d + 1, x);
  }

  /** Where the shape fails, some order of ids makes the walk answer a retired object. */
  lemma SomeOrderAnswersRetired(s: State, id: Id, d: nat, x: Id)
    requires Graph(s) && id < |s.objects| && d < ROUNDS && x in Layer(s, id, d) && x < |s.objects|
    requires !LeadsOutward(s, id, d, x) || (d + 1 < ROUNDS && IsEnteredSideways(s, id, d, x))
    ensures var order := LastOf(|s.objects|, x); Enumerates(s, order) && x in ResolvesTo(s, order, id)
  {
    hide *;
    var order := LastOf(|s.objects|, x);
    LastOfEnumerates(s, x);
    if !LeadsOutward(s, id, d, x) {
      NoWayOutIsListed(s, order, id, d, x);
    } else {
      SidewaysIsListed(s, order, id, d, x);
    }
  }

  /** For every graph: the walk answers active objects only, however ids happen to
      sort, exactly when lineage from `id` is outward. */
  lemma AnswersAreActiveExactly(s: State, id: Id)
    requires Graph(s) && id < |s.objects|
    ensures (forall order :: Enumerates(s, order) ==> OnlyActive(s, ResolvesTo(s, order, id))) <==> IsOutward(s, id)
  {
    if IsOutward(s, id) {
      forall order | Enumerates(s, order) ensures OnlyActive(s, ResolvesTo(s, order, id)) {
        OutwardStaysClean(s, order, id, ROUNDS);
      }
    } else {
      var d: nat :| d < ROUNDS && !IsOutwardAt(s, id, d);
      WithinObjects(s, id, d);
      var x: Id :| x in Layer(s, id, d) && !IsActive(s, x)
        && (!LeadsOutward(s, id, d, x) || (d + 1 < ROUNDS && IsEnteredSideways(s, id, d, x)));
      SomeOrderAnswersRetired(s, id, d, x);
      var order := LastOf(|s.objects|, x);
      assert Enumerates(s, order) && !OnlyActive(s, ResolvesTo(s, order, id));
    }
  }

  /** For a given order, row `k` of round `n` is retired and has nowhere unseen to go. */
  predicate IsStuck(s: State, w: Walk, rows: seq<Id>, k: nat, x: Id) {
    k < |rows| && rows[k] == x && !IsActive(s, x) && Successors(s, x) <= VisitAll(s, w, rows[..k]).seen + {x}
  }

  /** In round `n` a visit to `x` finds every successor of it already seen. */
  ghost predicate GetsStuckIn(s: State, order: seq<Id>, id: Id, n: nat, x: Id) {
    var w := After(s, order, id, n);
    exists k: nat :: IsStuck(s, w.(next := {}), Rows(order, w.next), k, x)
  }

  lemma {:induction false} StuckRowsAreListed(s: State, w: Walk, rows: seq<Id>, x: Id)
    requires !IsActive(s, x)
    ensures x in VisitAll(s, w, rows).listed <==> x in w.listed || exists k: nat :: IsStuck(s, w, rows, k, x)
  {
    if rows != [] {
      var n, front := |rows| - 1, rows[..|rows| - 1];
      StuckRowsAreListed(s, w, front, x);
      forall k: nat | k < n ensures IsStuck(s, w, rows, k, x) <==> IsStuck(s, w, front, k, x) {
        assert rows[..k] == front[..k];
      }
      assert rows[n] == x && Successors(s, x) <= VisitAll(s, w, front).seen + {x} ==> IsStuck(s, w, rows, n, x);
    }
  }

  lemma NextRound(s: State, order: seq<Id>, id: Id, n: nat, w: Walk)
    requires After(s, order, id, n) == w
    ensures After(s, order, id, n + 1) == VisitAll(s, w.(next := {}), Rows(order, w.next))
  {}

  lemma StuckRound(s: State, order: seq<Id>, id: Id, n: nat, x: Id)
    requires !IsActive(s, x)
    ensures x in After(s, order, id, n + 1).listed <==> x in After(s, order, id, n).listed || GetsStuckIn(s, order, id, n, x)
  {
    var w := After(s, order, id, n);
    NextRound(s, order, id, n, w);
    hide After, VisitAll, Rows, IsStuck, IsActive;
    StuckRowsAreListed(s, w.(next := {}), Rows(order, w.next), x);
  }

  lemma {:induction false} StuckSoFar(s: State, order: seq<Id>, id: Id, n: nat, x: Id)
    requires !IsActive(s, x)
    ensures x in After(s, order, id, n).listed <==> exists m: nat :: m < n && GetsStuckIn(s, order, id, m, x)
  {
    hide GetsStuckIn, IsActive;
    if n > 0 {
      StuckSoFar(s, order, id, n - 1, x);
      StuckRound(s, order, id, n - 1, x);
    }
  }

  /** For every graph and order of ids: a retired object is answered exactly when at
      some visit every successor of it had been seen already. */
  lemma RetiredIsAnsweredWhenStuck(s: State, order: seq<Id>, id: Id, x: Id)
    requires !IsActive(s, x)
    ensures x in ResolvesTo(s, order, id) <==> exists n: nat :: n < ROUNDS && GetsStuckIn(s, order, id, n, x)
  {
    StuckSoFar(s, order, id, ROUNDS, x);
  }

  // ---------------------------------------------------------------------
  // When the answer is right
  // ---------------------------------------------------------------------

  ghost predicate Reaches(s: State, id: Id, x: Id) {
    exists p :: IsPath(s, p, id, x)
  }

  /** The answer is the active objects lineage leads to: all of them, nothing else. */
  ghost predicate IsRight(s: State, id: Id, answer: set<Id>) {
    forall x: Id :: x in answer <==> IsActive(s, x) && Reaches(s, id, x)
  }

  /** Every active object lineage leads to is fewer than 32 steps away. */
  ghost predicate EndsAreNear(s: State, id: Id) {
    forall x: Id :: IsActive(s, x) && Reaches(s, id, x) ==> x in Within(s, id, ROUNDS - 1)
  }

  lemma NearIsReached(s: State, id: Id, d: nat, x: Id)
    requires x in Within(s, id, d)
    ensures Reaches(s, id, x)
  {
    WithinIsWalkable(s, id, d, x);
  }

  lemma ActiveAnswers(s: State, order: seq<Id>, id: Id, x: Id)
    requires Graph(s) && Enumerates(s, order) && id < |s.objects| && IsActive(s, x)
    ensures x in ResolvesTo(s, order, id) <==> x in Within(s, id, ROUNDS - 1)
  {
    WalkSweeps(s, order, id, ROUNDS);
  }

  /** For every graph: the walk answers exactly the active objects lineage leads to,
      however ids sort, if and only if lineage is outward and its ends are near. */
  lemma AnswersAreRightExactly(s: State, id: Id)
    requires Graph(s) && id < |s.objects|
    ensures (forall order :: Enumerates(s, order) ==> IsRight(s, id, ResolvesTo(s, order, id)))
      <==> IsOutward(s, id) && EndsAreNear(s, id)
  {
    hide Graph, Enumerates, ResolvesTo, After, Within, IsOutward;
    AnswersAreActiveExactly(s, id);
    forall order, x: Id | Enumerates(s, order) && IsActive(s, x)
      ensures x in ResolvesTo(s, order, id) <==> x in Within(s, id, ROUNDS - 1)
    {
      ActiveAnswers(s, order, id, x);
    }
    forall x: Id | x in Within(s, id, ROUNDS - 1) ensures Reaches(s, id, x) {
      NearIsReached(s, id, ROUNDS - 1, x);
    }
    LastOfEnumerates(s, id);
    var some := LastOf(|s.objects|, id);
    if forall order :: Enumerates(s, order) ==> IsRight(s, id, ResolvesTo(s, order, id)) {
      assert IsRight(s, id, ResolvesTo(s, some, id));
    }
  }

  /** No object is reached by two walks from `id`. */
  ghost predicate WalksNeverMeet(s: State, id: Id) {
    forall p, q, x :: IsPath(s, p, id, x) && IsPath(s, q, id, x) ==> p == q
  }

  lemma OutBeyond(s: State, id: Id, d: nat, x: Id, i: nat)
    requires WalksNeverMeet(s, id) && x in Layer(s, id, d) && i < |s.edges| && s.edges[i].from == x
    ensures s.edges[i].to in Layer(s, id, d + 1)
  {
    var y := s.edges[i].to;
    WithinIsWalkable(s, id, d, x);
    var p :| IsPath(s, p, id, x) && |p| <= d;
    if d > 0 { WithinIsWalkable(s, id, d - 1, x); }
    assert |p| == d;
    PathAppend(s, p, i, id, x);
    WithinIsWalkable(s, id, d + 1, y);
    WithinIsWalkable(s, id, d, y);
    forall q | IsPath(s, q, id, y) ensures |q| == d + 1 {
      assert q == p + [i];
    }
  }

  /** The guard in its plainest form: where no two walks from `id` meet, and none is
      32 long, the answer is right however ids sort. */
  lemma UnmeetingWalksAreAnsweredRight(s: State, order: seq<Id>, id: Id)
    requires Graph(s) && Enumerates(s, order) && id < |s.objects|
    requires WalksNeverMeet(s, id)
    ensures OnlyActive(s, ResolvesTo(s, order, id))
    ensures (forall p, x :: IsPath(s, p, id, x) ==> |p| < ROUNDS) ==> IsRight(s, id, ResolvesTo(s, order, id))
  {
    UnmeetingIsOutward(s, id);
    AnswersAreActiveExactly(s, id);
    if forall p, x :: IsPath(s, p, id, x) ==> |p| < ROUNDS {
      forall x: Id | IsActive(s, x) && Reaches(s, id, x) ensures x in Within(s, id, ROUNDS - 1) {
        WithinIsWalkable(s, id, ROUNDS - 1, x);
      }
      AnswersAreRightExactly(s, id);
    }
  }

  lemma UnmeetingIsOutward(s: State, id: Id)
    requires Graph(s) && id < |s.objects| && WalksNeverMeet(s, id)
    ensures IsOutward(s, id)
  {
    forall d: nat | d < ROUNDS ensures IsOutwardAt(s, id, d) {
      WithinObjects(s, id, d);
      forall x: Id | x in Layer(s, id, d) && !IsActive(s, x)
        ensures LeadsOutward(s, id, d, x) && !IsEnteredSideways(s, id, d, x)
      {
        UnmeetingLeadsOut(s, id, d, x);
      }
    }
  }

  lemma UnmeetingLeadsOut(s: State, id: Id, d: nat, x: Id)
    requires Graph(s) && x < |s.objects| && WalksNeverMeet(s, id) && x in Layer(s, id, d) && !IsActive(s, x)
    ensures LeadsOutward(s, id, d, x) && !IsEnteredSideways(s, id, d, x)
  {
    assert Explained(s, x);
    var i :| 0 <= i < |s.edges| && s.edges[i].from == x;
    OutBeyond(s, id, d, x, i);
    assert s.edges[i].to in Successors(s, x);
    forall y: Id | y in Layer(s, id, d) ensures x !in Successors(s, y) {
      if j: nat :| j < |s.edges| && s.edges[j].from == y && s.edges[j].to == x {
        OutBeyond(s, id, d, y, j);
      }
    }
  }

  // ---------------------------------------------------------------------
  // Two lineages the walk answers wrongly
  // ---------------------------------------------------------------------

  /** One frame is split in two, then the second part is merged into the first. */
  const SPLIT_THEN_MERGE := [
    NewObject(Frame(0, 0)),
    ProposeStep(0, SplitKind, [SplitOp(true, 0, [0, 1])]), CommitStep(0, true),
    ProposeStep(1, MergeKind, [MergeOp(true, AsStored(2), Stored(AsStored(1)))]), CommitStep(1, true)]

  function Rejoined(): State {
    State([Object(Frame(0, 0), Split), Object(Frame(0, 0), Active), Object(Frame(0, 0), Merged)],
      [Edge(0, 1, SplitInto, 0), Edge(0, 2, SplitInto, 0), Edge(2, 1, MergedInto, 1)],
      [Transaction(0, SplitKind, [SplitOp(true, 0, [0, 1])], Committed, [SplitTo(0, [1, 2])]),
       Transaction(1, MergeKind, [MergeOp(true, AsStored(2), Stored(AsStored(1)))], Committed, [MergedTo(2, 1)])])
  }

  lemma RunAppend(s: State, steps: seq<Step>, step: Step)
    ensures Run(s, steps + [step]) == Lineage.After(Run(s, steps), step)
  {
    assert (steps + [step])[..|steps|] == steps;
  }

  lemma OneOperation(p: Progress, op: Operation, tx: nat)
    ensures ApplyAll(p, [op], tx) == ApplyOne(p, op, tx)
  {
    assert [op][..0] == [];
  }

  function Halved(): State {
    State([Object(Frame(0, 0), Split), Object(Frame(0, 0), Active), Object(Frame(0, 0), Active)],
      [Edge(0, 1, SplitInto, 0), Edge(0, 2, SplitInto, 0)],
      [Transaction(0, SplitKind, [SplitOp(true, 0, [0, 1])], Committed, [SplitTo(0, [1, 2])])])
  }

  lemma TwoChildren(s: State, parent: Id, tx: nat)
    requires parent < |s.objects|
    ensures AddChildren(s, parent, tx, 2) == AddChild(AddChild(s, parent, tx), parent, tx)
  {
    assert AddChildren(s, parent, tx, 1) == AddChild(AddChildren(s, parent, tx, 0), parent, tx);
  }

  lemma SplitCommits(s: State)
    requires s == State([Object(Frame(0, 0), Active)], [], [Transaction(0, SplitKind, [SplitOp(true, 0, [0, 1])], Proposed, [])])
    ensures AfterCommit(s, 0, true) == Halved()
  {
    var op := SplitOp(true, 0, [0, 1]);
    OneOperation(Progress(s, None, []), op, 0);
    TwoChildren(s, 0, 0);
    assert Count(1, 2) == [1, 2];
    var split := AfterSplit(s, 0, 0, 2);
    assert split.objects == Halved().objects && split.edges == Halved().edges;
    assert op.partitions == [0, 1] && SplitRefusal(s, true, 0, [0, 1]).None?;
    assert [] + [SplitTo(0, [1, 2])] == [SplitTo(0, [1, 2])];
    assert ApplyOne(Progress(s, None, []), op, 0) == Ok(Progress(split, None, [SplitTo(0, [1, 2])]));
    assert s.transactions[0].operations == [op];
    assert s.transactions[0 := Halved().transactions[0]] == Halved().transactions;
  }

  lemma MergeCommits(s: State)
    requires s.objects == Halved().objects && s.edges == Halved().edges
    requires s.transactions == Halved().transactions + [Transaction(1, MergeKind, [MergeOp(true, AsStored(2), Stored(AsStored(1)))], Proposed, [])]
    ensures AfterCommit(s, 1, true) == Rejoined()
  {
    OneOperation(Progress(s, None, []), MergeOp(true, AsStored(2), Stored(AsStored(1))), 1);
    var merged := AfterMerge(s, 2, 1, 1);
    assert merged.objects == Rejoined().objects && merged.edges == Rejoined().edges;
    assert [] + [MergedTo(2, 1)] == [MergedTo(2, 1)];
    assert ApplyOne(Progress(s, None, []), MergeOp(true, AsStored(2), Stored(AsStored(1))), 1) == Ok(Progress(merged, None, [MergedTo(2, 1)]));
    assert s.transactions[1].operations == [MergeOp(true, AsStored(2), Stored(AsStored(1)))];
    assert s.transactions[1 := Rejoined().transactions[1]] == Rejoined().transactions;
  }

  lemma RejoinedIsReached()
    ensures Run(State([], [], []), SPLIT_THEN_MERGE) == Rejoined()
  {
    var start, steps := State([], [], []), SPLIT_THEN_MERGE;
    RunsInFive(start, steps);
    var s2 := State([Object(Frame(0, 0), Active)], [], [Transaction(0, SplitKind, [SplitOp(true, 0, [0, 1])], Proposed, [])]);
    assert Lineage.After(Lineage.After(start, steps[0]), steps[1]) == s2;
    SplitCommits(s2);
    assert FindKey(Halved().transactions, 1) == None;
    MergeCommits(Lineage.After(Halved(), steps[3]));
  }

  lemma RunsInFive(s: State, steps: seq<Step>)
    requires |steps| == 5
    ensures Run(s, steps) == Lineage.After(Lineage.After(Lineage.After(Lineage.After(Lineage.After(s,
      steps[0]), steps[1]), steps[2]), steps[3]), steps[4])
  {
    RunAppend(s, [], steps[0]);
    RunAppend(s, steps[..1], steps[1]);
    RunAppend(s, steps[..2], steps[2]);
    RunAppend(s, steps[..3], steps[3]);
    RunAppend(s, steps[..4], steps[4]);
    assert steps[..1] == [] + [steps[0]] && steps[..2] == steps[..1] + [steps[1]];
    assert steps[..3] == steps[..2] + [steps[2]] && steps[..4] == steps[..3] + [steps[3]];
    assert steps == steps[..4] + [steps[4]];
  }

  lemma OneRow(s: State, w: Walk, x: Id)
    ensures VisitAll(s, w, [x]) == Visit(s, w, x)
  {
    assert [x][..0] == [];
  }

  lemma TwoRows(s: State, w: Walk, x: Id, y: Id)
    ensures VisitAll(s, w, [x, y]) == Visit(s, Visit(s, w, x), y)
  {
    assert [x, y][..1] == [x];
    OneRow(s, w, x);
  }

  lemma RowsOfThree(a: Id, b: Id, c: Id, frontier: set<Id>)
    ensures Rows([a, b, c], frontier) ==
      (if a in frontier then [a] else []) + (if b in frontier then [b] else []) + (if c in frontier then [c] else [])
  {
    assert [a, b, c][..2] == [a, b] && [a, b][..1] == [a] && [a][..0] == [];
    assert Rows([a], frontier) == if a in frontier then [a] else [];
    assert Rows([a, b], frontier) == Rows([a], frontier) + if b in frontier then [b] else [];
  }

  lemma RejoinedSuccessors()
    ensures Successors(Rejoined(), 0) == {1, 2} && Successors(Rejoined(), 1) == {} && Successors(Rejoined(), 2) == {1}
  {
    var s := Rejoined();
    assert s.edges[0] == Edge(0, 1, SplitInto, 0) && s.edges[1] == Edge(0, 2, SplitInto, 0) && s.edges[2] == Edge(2, 1, MergedInto, 1);
  }

  /** In a store a split and a merge really reach, the same question is answered with
      a retired object beside the active one when ids sort as they were created, and
      rightly when the retired one sorts first. */
  lemma RejoinedAnswersDependOnOrder()
    ensures Run(State([], [], []), SPLIT_THEN_MERGE) == Rejoined() && !IsActive(Rejoined(), 2)
    ensures ResolvesTo(Rejoined(), [0, 1, 2], 0) == {1, 2}
    ensures ResolvesTo(Rejoined(), [0, 2, 1], 0) == {1}
  {
    RejoinedIsReached();
    RejoinedActiveFirst();
    RejoinedActiveLast();
  }

  lemma RejoinedVisits()
    ensures var s := Rejoined();
      && Visit(s, Walk({}, {}, {}), 0) == Walk({0}, {}, {1, 2})
      && Visit(s, Walk({0}, {}, {}), 1) == Walk({0, 1}, {1}, {})
      && Visit(s, Walk({0, 1}, {1}, {}), 2) == Walk({0, 1, 2}, {1, 2}, {})
      && Visit(s, Walk({0}, {}, {}), 2) == Walk({0, 2}, {}, {1})
      && Visit(s, Walk({0, 2}, {}, {1}), 1) == Walk({0, 1, 2}, {1}, {1})
      && Visit(s, Walk({0, 1, 2}, {1}, {}), 1) == Walk({0, 1, 2}, {1}, {})
  {
    RejoinedSuccessors();
    hide Successors;
  }

  lemma RejoinedActiveFirst()
    ensures ResolvesTo(Rejoined(), [0, 1, 2], 0) == {1, 2}
  {
    var s, order := Rejoined(), [0, 1, 2];
    RejoinedVisits();
    hide VisitAll, Rows, Visit, Rejoined;
    assert After(s, order, 0, 0) == Walk({}, {}, {0});
    hide After;
    RowsOfThree(0, 1, 2, {0});
    OneRow(s, Walk({}, {}, {}), 0);
    NextRound(s, order, 0, 0, Walk({}, {}, {0}));
    RowsOfThree(0, 1, 2, {1, 2});
    TwoRows(s, Walk({0}, {}, {}), 1, 2);
    NextRound(s, order, 0, 1, Walk({0}, {}, {1, 2}));
    EmptyFrontierRests(s, order, 0, 2, ROUNDS);
  }

  lemma RejoinedActiveLast()
    ensures ResolvesTo(Rejoined(), [0, 2, 1], 0) == {1}
  {
    var s, order := Rejoined(), [0, 2, 1];
    RejoinedVisits();
    hide VisitAll, Rows, Visit, Rejoined;
    assert After(s, order, 0, 0) == Walk({}, {}, {0});
    hide After;
    RowsOfThree(0, 2, 1, {0});
    OneRow(s, Walk({}, {}, {}), 0);
    NextRound(s, order, 0, 0, Walk({}, {}, {0}));
    RowsOfThree(0, 2, 1, {1, 2});
    TwoRows(s, Walk({0}, {}, {}), 2, 1);
    NextRound(s, order, 0, 1, Walk({0}, {}, {1, 2}));
    RowsOfThree(0, 2, 1, {1});
    OneRow(s, Walk({0, 1, 2}, {1}, {}), 1);
    NextRound(s, order, 0, 2, Walk({0, 1, 2}, {1}, {1}));
    EmptyFrontierRests(s, order, 0, 3, ROUNDS);
  }

  /** The steps that make `n` objects. */
  function NewObjects(n: nat): seq<Step> {
    if n == 0 then [] else NewObjects(n - 1) + [NewObject(Entity(0))]
  }

  function LinkOf(k: nat): Operation {
    MergeOp(false, AsStored(k), Stored(AsStored(k + 1)))
  }

  /** `n + 1` objects, the first `k` of them merged each into the next, one change set
      for each. */
  function ChainSteps(n: nat, k: nat): seq<Step> {
    if k == 0 then NewObjects(n + 1)
    else ChainSteps(n, k - 1) + [ProposeStep(k - 1, MergeKind, [LinkOf(k - 1)])] + [CommitStep(k - 1, true)]
  }

  function Chain(n: nat, k: nat): State {
    Run(State([], [], []), ChainSteps(n, k))
  }

  lemma {:induction false} NewObjectsMake(n: nat)
    ensures Run(State([], [], []), NewObjects(n)) == State(seq(n, _ => Object(Entity(0), Active)), [], [])
  {
    if n > 0 {
      NewObjectsMake(n - 1);
      RunAppend(State([], [], []), NewObjects(n - 1), NewObject(Entity(0)));
    }
  }

  lemma ChainStep(n: nat, k: nat)
    ensures Chain(n, k + 1) ==
      Lineage.After(Lineage.After(Chain(n, k), ProposeStep(k, MergeKind, [LinkOf(k)])), CommitStep(k, true))
  {
    var start, propose := State([], [], []), ProposeStep(k, MergeKind, [LinkOf(k)]);
    RunAppend(start, ChainSteps(n, k), propose);
    RunAppend(start, ChainSteps(n, k) + [propose], CommitStep(k, true));
  }

  predicate IsChain(s: State, n: nat, k: nat) {
    && |s.objects| == n + 1 && |s.edges| == k && |s.transactions| == k
    && (forall i :: 0 <= i <= n ==> s.objects[i] == Object(Entity(0), if i < k then Merged else Active))
    && (forall i :: 0 <= i < k ==> s.edges[i] == Edge(i, i + 1, MergedInto, i))
    && (forall i :: 0 <= i < k ==> s.transactions[i].key == i)
  }

  lemma LinkIsProposed(s: State, n: nat, k: nat)
    requires IsChain(s, n, k)
    ensures |s.transactions| == k
    ensures Lineage.After(s, ProposeStep(k, MergeKind, [LinkOf(k)])) ==
      s.(transactions := s.transactions + [Transaction(k, MergeKind, [LinkOf(k)], Proposed, [])])
  {
    FindKeyFinds(s.transactions, k);
  }

  lemma LinkIsCommitted(s: State, proposed: State, n: nat, k: nat)
    requires k < n && IsChain(s, n, k)
    requires proposed == s.(transactions := s.transactions + [Transaction(k, MergeKind, [LinkOf(k)], Proposed, [])])
    ensures IsChain(AfterCommit(proposed, k, true), n, k + 1)
  {
    OneOperation(Progress(proposed, None, []), LinkOf(k), k);
    assert MergeRefusal(proposed, false, AsStored(k), AsStored(k + 1)).None?;
  }

  lemma {:induction false} ChainIs(n: nat, k: nat)
    requires k <= n
    ensures IsChain(Chain(n, k), n, k)
  {
    if k == 0 {
      NewObjectsMake(n + 1);
    } else {
      ChainIs(n, k - 1);
      LinkChains(n, k - 1);
    }
  }

  lemma LinkChains(n: nat, k: nat)
    requires k < n && IsChain(Chain(n, k), n, k)
    ensures IsChain(Chain(n, k + 1), n, k + 1)
  {
    hide Chain, IsChain, AfterCommit, AfterPropose, LinkOf;
    var s := Chain(n, k);
    ChainStep(n, k);
    LinkIsProposed(s, n, k);
    LinkIsCommitted(s, Lineage.After(s, ProposeStep(k, MergeKind, [LinkOf(k)])), n, k);
    CommitIsStep(Lineage.After(s, ProposeStep(k, MergeKind, [LinkOf(k)])), k);
  }

  lemma CommitIsStep(s: State, k: nat)
    ensures k < |s.transactions| ==> Lineage.After(s, CommitStep(k, true)) == AfterCommit(s, k, true)
  {
    hide AfterCommit;
  }

  lemma {:induction false} StepsWellFormed(n: nat, k: nat)
    ensures forall i :: 0 <= i < |ChainSteps(n, k)| ==> StepWellFormed(ChainSteps(n, k)[i])
  {
    if k == 0 { NewObjectsWellFormed(n + 1); } else { StepsWellFormed(n, k - 1); }
  }

  lemma {:induction false} NewObjectsWellFormed(n: nat)
    ensures forall i :: 0 <= i < |NewObjects(n)| ==> StepWellFormed(NewObjects(n)[i])
  {
    if n > 0 { NewObjectsWellFormed(n - 1); }
  }

  lemma ChainGraph(n: nat, k: nat)
    ensures Graph(Chain(n, k))
  {
    var start, steps := State([], [], []), ChainSteps(n, k);
    StepsWellFormed(n, k);
    FreshStoreIsValid(start);
    hide ChainSteps, Run;
    RunsKeepLineage(start, steps);
  }

  lemma ChainSuccessors(n: nat, d: nat)
    ensures Successors(Chain(n, n), d) == if d < n then {d + 1} else {}
  {
    ChainIs(n, n);
    var s := Chain(n, n);
    if d < n { assert s.edges[d].from == d; }
  }

  lemma {:induction false} ChainWithin(n: nat, d: nat)
    ensures forall x: Id :: x in Within(Chain(n, n), 0, d) <==> x <= d && x <= n
  {
    if d > 0 {
      ChainIs(n, n);
      ChainWithin(n, d - 1);
      var s := Chain(n, n);
      var nearer := Within(s, 0, d - 1);
      forall x: Id | 0 < x <= d && x <= n ensures x in Targets(s, nearer) {
        assert s.edges[x - 1].from in nearer && s.edges[x - 1].to == x;
      }
    }
  }

  lemma ChainLayer(n: nat, d: nat)
    ensures Layer(Chain(n, n), 0, d) == if d <= n then {d} else {}
  {
    ChainWithin(n, d);
    if d > 0 { ChainWithin(n, d - 1); }
  }

  lemma ChainIsOutward(n: nat)
    ensures IsOutward(Chain(n, n), 0)
  {
    var s := Chain(n, n);
    hide Chain, Successors, Layer;
    ChainIs(n, n);
    forall d: nat ensures IsOutwardAt(s, 0, d) {
      ChainLayer(n, d);
      ChainLayer(n, d + 1);
      ChainSuccessors(n, d);
      assert d < n ==> d + 1 in Successors(s, d) && d + 1 in Layer(s, 0, d + 1);
    }
  }

  /** Objects merged one into the next, as a run of change sets from the empty store
      leaves them: the survivor is answered while there are fewer than 32 merges, and
      from 32 on the answer is empty. */
  lemma LongChainsResolveToNothing(n: nat, order: seq<Id>)
    requires Enumerates(Chain(n, n), order)
    ensures Graph(Chain(n, n)) && IsActive(Chain(n, n), n) && Reaches(Chain(n, n), 0, n)
    ensures ResolvesTo(Chain(n, n), order, 0) == if n < ROUNDS then {n} else {}
  {
    var s := Chain(n, n);
    hide Graph, Enumerates, ResolvesTo, Within, Reaches;
    ChainIs(n, n);
    ChainGraph(n, n);
    ChainWithin(n, n);
    NearIsReached(s, 0, n, n);
    ChainIsOutward(n);
    AnswersAreActiveExactly(s, 0);
    ActiveAnswers(s, order, 0, n);
    ChainWithin(n, ROUNDS - 1);
    assert OnlyActive(s, ResolvesTo(s, order, 0));
    forall x: Id | IsActive(s, x) ensures x == n {}
  }
}
