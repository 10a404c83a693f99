/** Belief assessments: an append-only, recorded-time history of verdicts per
    proposition, and the propagation of `UNSUPPORTED` along derivations. */
module Assessments {
  import opened Options

  /** Surrogate identifiers; they are only ever compared. */
  type Id = nat

  datatype Status =
    Candidate | Provisional | Accepted | Contested | Rejected | Superseded | Unsupported | Suppressed

  datatype Row = Row(id: Id, proposition: Id, status: Status, validFrom: Option<int>, validTo: Option<int>,
                     recordedAt: int, supersededAt: Option<int>, transaction: Id)

  // ---------------------------------------------------------------------
  // One verdict
  // ---------------------------------------------------------------------

  predicate IsLiveFor(row: Row, p: Id) {
    row.proposition == p && row.supersededAt.None?
  }

  /** The update that closes the live version of `p`. */
  function Close(rows: seq<Row>, p: Id, now: int): (r: seq<Row>)
    ensures |r| == |rows|
    ensures forall i :: 0 <= i < |rows| ==> r[i] == if IsLiveFor(rows[i], p) then rows[i].(supersededAt := Some(now)) else rows[i]
  {
    seq(|rows|, i requires 0 <= i < |rows| => if IsLiveFor(rows[i], p) then rows[i].(supersededAt := Some(now)) else rows[i])
  }

  predicate NotAhead(rows: seq<Row>, p: Id, now: int) {
    forall i :: 0 <= i < |rows| && IsLiveFor(rows[i], p) ==> rows[i].recordedAt <= now
  }

  /** The table constraints a write must meet: a window never ends before it starts,
      in recorded time or in valid time. */
  predicate Admissible(rows: seq<Row>, p: Id, validFrom: Option<int>, validTo: Option<int>, now: int) {
    && NotAhead(rows, p, now)
    && (validFrom.Some? && validTo.Some? ==> validFrom.value <= validTo.value)
  }

  function Recorded(rows: seq<Row>, row: Row): seq<Row> {
    Close(rows, row.proposition, row.recordedAt) + [row]
  }

  // ---------------------------------------------------------------------
  // The history of one proposition
  // ---------------------------------------------------------------------

  function History(rows: seq<Row>, p: Id): seq<Row> {
    if rows == [] then [] else
      var before, last := History(rows[..|rows| - 1], p), rows[|rows| - 1];
      if last.proposition == p then before + [last] else before
  }

  /** Consecutive windows, the last one open: no gap and no overlap. */
  predicate Tiled(h: seq<Row>) {
    && (forall k :: 0 <= k < |h| - 1 ==> h[k].supersededAt == Some(h[k + 1].recordedAt) && h[k].recordedAt <= h[k + 1].recordedAt)
    && (|h| > 0 ==> h[|h| - 1].supersededAt.None?)
  }

  ghost predicate Valid(rows: seq<Row>) {
    forall p :: Tiled(History(rows, p))
  }

  /** Whether `row` was what the kernel believed at recorded time `t`. */
  predicate InForce(row: Row, t: int) {
    row.recordedAt <= t && (row.supersededAt.None? || t < row.supersededAt.value)
  }

  /** The answer to "what did the kernel believe at `t`". */
  function BelievedAt(h: seq<Row>, t: int): Option<Row> {
    if h == [] then None
    else if InForce(h[|h| - 1], t) then Some(h[|h| - 1])
    else BelievedAt(h[..|h| - 1], t)
  }

  lemma {:induction false} HistoryOfClose(rows: seq<Row>, p: Id, now: int, q: Id)
    ensures History(Close(rows, p, now), q) == if p == q then Close(History(rows, p), p, now) else History(rows, q)
  {
    if rows != [] {
      var n := |rows| - 1;
      HistoryOfClose(rows[..n], p, now, q);
      assert Close(rows, p, now)[..n] == Close(rows[..n], p, now);
      var before := History(rows[..n], p);
      assert Close(before + [rows[n]], p, now) == Close(before, p, now) + Close([rows[n]], p, now);
    }
  }

  lemma {:induction false} HistoryOnly(rows: seq<Row>, p: Id)
    ensures forall k :: 0 <= k < |History(rows, p)| ==> History(rows, p)[k].proposition == p && History(rows, p)[k] in rows
    ensures forall i :: 0 <= i < |rows| && rows[i].proposition == p ==> rows[i] in History(rows, p)
  {
    if rows != [] {
      HistoryOnly(rows[..|rows| - 1], p);
      forall i | 0 <= i < |rows| && rows[i].proposition == p ensures rows[i] in History(rows, p) {
        if i < |rows| - 1 { assert rows[..|rows| - 1][i] == rows[i]; }
      }
    }
  }

  lemma CloseTiled(h: seq<Row>, p: Id, now: int)
    requires Tiled(h) && |h| > 0 && forall k :: 0 <= k < |h| ==> h[k].proposition == p
    ensures Close(h, p, now) == h[..|h| - 1] + [h[|h| - 1].(supersededAt := Some(now))]
  {
    forall k | 0 <= k < |h| - 1 ensures Close(h, p, now)[k] == h[k] {
      assert h[k].supersededAt == Some(h[k + 1].recordedAt);
    }
  }

  /** A verdict closes the last window of its own history and opens the next; every
      other history is untouched. */
  lemma RecordedHistory(rows: seq<Row>, row: Row, q: Id)
    requires Tiled(History(rows, row.proposition))
    ensures var h := History(rows, row.proposition);
            History(Recorded(rows, row), q) ==
              if q != row.proposition then History(rows, q)
              else if h == [] then [row]
              else h[..|h| - 1] + [h[|h| - 1].(supersededAt := Some(row.recordedAt)), row]
  {
    var p, closed := row.proposition, Close(rows, row.proposition, row.recordedAt);
    var h := History(rows, p);
    assert Recorded(rows, row)[..|rows|] == closed;
    HistoryOfClose(rows, p, row.recordedAt, q);
    HistoryOnly(rows, p);
    if q == p && h != [] {
      CloseTiled(h, p, row.recordedAt);
      assert History(closed, p) + [row] == h[..|h| - 1] + [h[|h| - 1].(supersededAt := Some(row.recordedAt)), row];
    }
  }

  lemma NextWindowTiles(h: seq<Row>, row: Row)
    requires Tiled(h) && h != [] && h[|h| - 1].recordedAt <= row.recordedAt && row.supersededAt.None?
    ensures Tiled(h[..|h| - 1] + [h[|h| - 1].(supersededAt := Some(row.recordedAt)), row])
  {
    var next := h[..|h| - 1] + [h[|h| - 1].(supersededAt := Some(row.recordedAt)), row];
    forall k | 0 <= k < |next| - 1
      ensures next[k].supersededAt == Some(next[k + 1].recordedAt) && next[k].recordedAt <= next[k + 1].recordedAt
    {
      if k < |h| - 1 { assert h[k].supersededAt == Some(h[k + 1].recordedAt); }
    }
  }

  lemma LastIsNotAhead(rows: seq<Row>, p: Id, now: int)
    requires Tiled(History(rows, p)) && History(rows, p) != [] && NotAhead(rows, p, now)
    ensures History(rows, p)[|History(rows, p)| - 1].recordedAt <= now
  {
    HistoryOnly(rows, p);
    hide History;
    var last := History(rows, p)[|History(rows, p)| - 1];
    assert IsLiveFor(last, p) && last in rows;
  }

  lemma RecordKeepsTiled(rows: seq<Row>, row: Row, q: Id)
    requires Tiled(History(rows, row.proposition)) && Tiled(History(rows, q))
    requires row.supersededAt.None? && NotAhead(rows, row.proposition, row.recordedAt)
    ensures Tiled(History(Recorded(rows, row), q))
  {
    RecordedHistory(rows, row, q);
    if q == row.proposition && History(rows, q) != [] {
      LastIsNotAhead(rows, q, row.recordedAt);
      NextWindowTiles(History(rows, q), row);
    }
  }

  lemma {:induction false} BelievedInHistory(h: seq<Row>, t: int)
    ensures BelievedAt(h, t).Some? ==> BelievedAt(h, t).value in h && InForce(BelievedAt(h, t).value, t)
    ensures BelievedAt(h, t).None? ==> forall k :: 0 <= k < |h| ==> !InForce(h[k], t)
  {
    if h != [] {
      BelievedInHistory(h[..|h| - 1], t);
      assert forall k :: 0 <= k < |h| - 1 ==> h[..|h| - 1][k] == h[k];
    }
  }

  lemma {:induction false} TiledIsSorted(h: seq<Row>, i: nat, j: nat)
    requires Tiled(h) && i <= j < |h|
    ensures h[i].recordedAt <= h[j].recordedAt
    ensures i < j ==> h[i].supersededAt.Some? && h[i].supersededAt.value <= h[j].recordedAt
    decreases j - i
  {
    if i < j {
      TiledIsSorted(h, i, j - 1);
      assert h[j - 1].recordedAt <= h[j].recordedAt;
    }
  }

  /** From the first verdict on, exactly one row is in force at every instant. */
  lemma WindowsTileTime(h: seq<Row>, t: int)
    requires Tiled(h) && |h| > 0
    ensures t < h[0].recordedAt ==> BelievedAt(h, t).None?
    ensures t >= h[0].recordedAt ==> exists k :: 0 <= k < |h| && InForce(h[k], t)
    ensures forall i, j :: 0 <= i <= j < |h| && InForce(h[i], t) && InForce(h[j], t) ==> i == j
  {
    BelievedInHistory(h, t);
    forall i, j | 0 <= i <= j < |h| && InForce(h[i], t) && InForce(h[j], t) ensures i == j {
      TiledIsSorted(h, i, j);
    }
    forall k | 0 <= k < |h| ensures h[0].recordedAt <= h[k].recordedAt {
      TiledIsSorted(h, 0, k);
    }
    if t >= h[0].recordedAt {
      SomeWindow(h, t, |h| - 1);
    }
  }

  lemma {:induction false} SomeWindow(h: seq<Row>, t: int, k: nat)
    requires Tiled(h) && k < |h| && t >= h[0].recordedAt
    requires forall j :: k < j < |h| ==> t < h[j].recordedAt
    ensures exists i :: 0 <= i < |h| && InForce(h[i], t)
  {
    if t < h[k].recordedAt {
      SomeWindow(h, t, k - 1);
    } else {
      assert k < |h| - 1 ==> t < h[k + 1].recordedAt;
      assert InForce(h[k], t);
    }
  }

  lemma BelievedAppend(h: seq<Row>, row: Row, t: int)
    ensures BelievedAt(h + [row], t) == if InForce(row, t) then Some(row) else BelievedAt(h, t)
  {
    assert (h + [row])[..|h|] == h;
  }

  /** The same row, but for when it was superseded. */
  predicate SameAnswer(a: Option<Row>, b: Option<Row>) {
    a.Some? == b.Some? && (a.Some? ==> a.value.(supersededAt := None) == b.value.(supersededAt := None))
  }

  lemma ClosingKeepsThePast(front: seq<Row>, last: Row, row: Row, t: int)
    requires last.supersededAt.None? && t < row.recordedAt
    ensures SameAnswer(BelievedAt(front + [last], t),
                       BelievedAt(front + [last.(supersededAt := Some(row.recordedAt)), row], t))
  {
    var closed := last.(supersededAt := Some(row.recordedAt));
    assert front + [closed] + [row] == front + [closed, row];
    BelievedAppend(front, last, t);
    BelievedAppend(front, closed, t);
    BelievedAppend(front + [closed], row, t);
  }

  /** A verdict alters no answer about a time before it. */
  lemma OneVerdictKeepsThePast(rows: seq<Row>, row: Row, q: Id, t: int)
    requires Valid(rows) && t < row.recordedAt && row.supersededAt.None?
    ensures SameAnswer(BelievedAt(History(rows, q), t), BelievedAt(History(Recorded(rows, row), q), t))
  {
    var h := History(rows, row.proposition);
    assert Tiled(h);
    RecordedHistory(rows, row, q);
    if q == row.proposition {
      if h == [] {
        BelievedAppend([], row, t);
        assert [] + [row] == [row];
      } else {
        assert h == h[..|h| - 1] + [h[|h| - 1]];
        ClosingKeepsThePast(h[..|h| - 1], h[|h| - 1], row, t);
      }
    }
  }

  // ---------------------------------------------------------------------
  // Runs of verdicts
  // ---------------------------------------------------------------------

  function Record(rows: seq<Row>, row: Row): seq<Row> {
    if Admissible(rows, row.proposition, row.validFrom, row.validTo, row.recordedAt)
    then Recorded(rows, row.(supersededAt := None)) else rows
  }

  function RecordAll(rows: seq<Row>, verdicts: seq<Row>): seq<Row> {
    if verdicts == [] then rows else Record(RecordAll(rows, verdicts[..|verdicts| - 1]), verdicts[|verdicts| - 1])
  }

  lemma RecordKeepsValid(rows: seq<Row>, row: Row)
    requires Valid(rows)
    ensures Valid(Record(rows, row))
  {
    if Admissible(rows, row.proposition, row.validFrom, row.validTo, row.recordedAt) {
      forall q ensures Tiled(History(Record(rows, row), q)) {
        RecordKeepsTiled(rows, row.(supersededAt := None), q);
      }
    }
  }

  /** Over every run from the empty table, each history tiles time, so each assessed
      proposition has exactly one live row. */
  lemma {:induction false} RunsKeepHistory(verdicts: seq<Row>)
    ensures Valid(RecordAll([], verdicts))
  {
    if verdicts == [] {
      forall p ensures Tiled(History([], p)) {}
    } else {
      RunsKeepHistory(verdicts[..|verdicts| - 1]);
      RecordKeepsValid(RecordAll([], verdicts[..|verdicts| - 1]), verdicts[|verdicts| - 1]);
    }
  }

  /** What was believed at a past instant never changes: whatever verdicts on whatever
      propositions are recorded after `t`, the answer about `t` is the one row it was. */
  lemma {:induction false} PastAnswersAreStable(verdicts: seq<Row>, n: nat, q: Id, t: int)
    requires n <= |verdicts| && forall i :: n <= i < |verdicts| ==> t < verdicts[i].recordedAt
    ensures SameAnswer(BelievedAt(History(RecordAll([], verdicts[..n]), q), t), BelievedAt(History(RecordAll([], verdicts), q), t))
    decreases |verdicts|
  {
    if n == |verdicts| {
      assert verdicts[..n] == verdicts;
    } else {
      var front, last := verdicts[..|verdicts| - 1], verdicts[|verdicts| - 1];
      assert front[..n] == verdicts[..n];
      hide History, BelievedAt, Valid, Admissible;
      PastAnswersAreStable(front, n, q, t);
      RunsKeepHistory(front);
      OneVerdictKeepsThePast(RecordAll([], front), last.(supersededAt := None), q, t);
    }
  }

  lemma OneLiveRow(verdicts: seq<Row>, p: Id)
    ensures var h := History(RecordAll([], verdicts), p);
            forall k :: 0 <= k < |h| ==> (h[k].supersededAt.None? <==> k == |h| - 1)
  {
    RunsKeepHistory(verdicts);
    var h := History(RecordAll([], verdicts), p);
    assert Tiled(h);
    forall k | 0 <= k < |h| - 1 ensures h[k].supersededAt.Some? {
      assert h[k].supersededAt == Some(h[k + 1].recordedAt);
    }
  }

  /** One verdict changes an old row by one thing only: its window is closed. */
  lemma RecordIsAppendOnly(rows: seq<Row>, row: Row, i: nat)
    requires i < |rows|
    ensures |rows| <= |Record(rows, row)| <= |rows| + 1
    ensures Record(rows, row)[i] == rows[i] ||
            (rows[i].supersededAt.None? && Record(rows, row)[i] == rows[i].(supersededAt := Some(row.recordedAt)))
  {}

  /** `row` as it was, or the same with its window closed since. */
  predicate IsAsBefore(was: Row, row: Row) {
    row == was || (was.supersededAt.None? && row.supersededAt.Some? && row.(supersededAt := None) == was)
  }

  /** Over every run of verdicts: no row is lost, moved or rewritten; a closed one never
      changes again, an open one only by being closed. */
  lemma {:induction false} RowsAreAppendOnly(verdicts: seq<Row>, n: nat)
    requires n <= |verdicts|
    ensures var was, now := RecordAll([], verdicts[..n]), RecordAll([], verdicts);
      |was| <= |now| && forall i :: 0 <= i < |was| ==> IsAsBefore(was[i], now[i])
    decreases |verdicts|
  {
    if n == |verdicts| {
      assert verdicts[..n] == verdicts;
    } else {
      var front, last := verdicts[..|verdicts| - 1], verdicts[|verdicts| - 1];
      assert front[..n] == verdicts[..n];
      RowsAreAppendOnly(front, n);
      var was, mid, now := RecordAll([], verdicts[..n]), RecordAll([], front), RecordAll([], verdicts);
      hide Record;
      forall i | 0 <= i < |was| ensures i < |now| && IsAsBefore(was[i], now[i]) {
        RecordIsAppendOnly(mid, last, i);
      }
      if |was| > 0 { RecordIsAppendOnly(mid, last, 0); }
    }
  }

  // ---------------------------------------------------------------------
  // Derivations
  // ---------------------------------------------------------------------

  datatype Lifecycle =
    ClaimCandidate | AwaitingInstance | ClaimProvisional | ClaimAccepted | ClaimContested
    | ClaimRejected | ClaimSuperseded | ClaimSuppressed

  predicate InvalidClaim(l: Lifecycle) {
    l.ClaimRejected? || l.ClaimSuperseded? || l.ClaimSuppressed?
  }

  predicate InvalidStatus(s: Status) {
    s.Rejected? || s.Superseded? || s.Suppressed? || s.Unsupported?
  }

  /** How a derived proposition was computed. */
  datatype Dependency = Dependency(derived: Id, claims: set<Id>, propositions: set<Id>)

  /** The tables a reassessment only reads. */
  datatype Graph = Graph(claims: map<Id, Lifecycle>, propositions: set<Id>, dependencies: seq<Dependency>)

  /** The live verdict of each assessed proposition. */
  type Verdicts = map<Id, Status>

  /** An input that no longer carries anything forward: an unknown one, or a known
      one whose own verdict has been withdrawn. */
  predicate DeadClaim(g: Graph, c: Id) {
    c in g.claims ==> InvalidClaim(g.claims[c])
  }

  predicate DeadProposition(g: Graph, v: Verdicts, p: Id) {
    p in g.propositions ==> p in v && InvalidStatus(v[p])
  }

  predicate AllInputsDead(g: Graph, v: Verdicts, d: Dependency) {
    && (forall c :: c in d.claims ==> DeadClaim(g, c))
    && (forall p :: p in d.propositions ==> DeadProposition(g, v, p))
  }

  /** The per-row rule: one derivation with every input dead is enough, whatever
      other derivations the proposition has. */
  predicate Movable(g: Graph, v: Verdicts, p: Id) {
    && p in v && v[p] != Unsupported
    && exists i :: 0 <= i < |g.dependencies| && g.dependencies[i].derived == p && AllInputsDead(g, v, g.dependencies[i])
  }

  /** One `reassessDerivedPropositions`: every candidate found by the query moves. An
      absent or empty candidate list means all. */
  function Reassessed(g: Graph, v: Verdicts, candidates: set<Id>): Verdicts {
    map p | p in v :: if Movable(g, v, p) && (candidates == {} || p in candidates) then Unsupported else v[p]
  }

  predicate Settled(g: Graph, v: Verdicts) {
    forall p :: p in v ==> !Movable(g, v, p)
  }

  /** The verdicts with `moved` withdrawn. */
  function Withdrawn(v: Verdicts, moved: set<Id>): Verdicts {
    map p | p in v :: if p in moved then Unsupported else v[p]
  }

  /** A set of withdrawals that leaves nothing more to withdraw. */
  predicate ClosedUnderRule(g: Graph, v: Verdicts, moved: set<Id>) {
    moved <= v.Keys && Settled(g, Withdrawn(v, moved))
  }

  function RunBatches(g: Graph, v: Verdicts, batches: seq<set<Id>>): Verdicts {
    if batches == [] then v else Reassessed(g, RunBatches(g, v, batches[..|batches| - 1]), batches[|batches| - 1])
  }

  /** What a run withdrew. */
  function Moved(v: Verdicts, after: Verdicts): set<Id> {
    set p | p in v && p in after && v[p] != after[p]
  }

  /** A verdict is either untouched or withdrawn. */
  predicate OnlyWithdraws(v: Verdicts, after: Verdicts) {
    after.Keys == v.Keys && forall p :: p in v ==> after[p] == v[p] || (after[p] == Unsupported && v[p] != Unsupported)
  }

  lemma {:induction false} RunsOnlyWithdraw(g: Graph, v: Verdicts, batches: seq<set<Id>>)
    ensures OnlyWithdraws(v, RunBatches(g, v, batches))
  {
    if batches != [] {
      RunsOnlyWithdraw(g, v, batches[..|batches| - 1]);
    }
  }

  /** More withdrawals keep every dead input dead. */
  lemma DeadStaysDead(g: Graph, v: Verdicts, w: Verdicts, d: Dependency)
    requires v.Keys <= w.Keys && forall p :: p in v && InvalidStatus(v[p]) ==> InvalidStatus(w[p])
    requires AllInputsDead(g, v, d)
    ensures AllInputsDead(g, w, d)
  {}

  lemma MovableGrows(g: Graph, v: Verdicts, w: Verdicts, p: Id)
    requires v.Keys <= w.Keys && forall q :: q in v && InvalidStatus(v[q]) ==> InvalidStatus(w[q])
    requires Movable(g, v, p) && w[p] != Unsupported
    ensures Movable(g, w, p)
  {
    var i :| 0 <= i < |g.dependencies| && g.dependencies[i].derived == p && AllInputsDead(g, v, g.dependencies[i]);
    DeadStaysDead(g, v, w, g.dependencies[i]);
  }

  /** No run withdraws anything outside a closed set. */
  lemma {:induction false} RunsStayInside(g: Graph, v: Verdicts, batches: seq<set<Id>>, closed: set<Id>)
    requires ClosedUnderRule(g, v, closed)
    ensures Moved(v, RunBatches(g, v, batches)) <= closed
  {
    if batches != [] {
      var u := RunBatches(g, v, batches[..|batches| - 1]);
      RunsStayInside(g, v, batches[..|batches| - 1], closed);
      RunsOnlyWithdraw(g, v, batches[..|batches| - 1]);
      forall q | q in u && q !in closed ensures u[q] == v[q] {
        assert q !in Moved(v, u);
      }
      forall p | p in u && Movable(g, u, p) ensures p in closed {
        if p !in closed {
          MovableGrows(g, u, Withdrawn(v, closed), p);
        }
      }
    }
  }

  /** A run that ends with nothing to move has withdrawn the least closed set: it is
      closed, and inside every other closed set. */
  lemma CompleteRunsReachTheLeastSet(g: Graph, v: Verdicts, batches: seq<set<Id>>)
    requires Settled(g, RunBatches(g, v, batches))
    ensures var after := RunBatches(g, v, batches);
            && ClosedUnderRule(g, v, Moved(v, after))
            && after == Withdrawn(v, Moved(v, after))
            && forall closed :: ClosedUnderRule(g, v, closed) ==> Moved(v, after) <= closed
  {
    var after := RunBatches(g, v, batches);
    RunsOnlyWithdraw(g, v, batches);
    assert after == Withdrawn(v, Moved(v, after));
    forall closed | ClosedUnderRule(g, v, closed) ensures Moved(v, after) <= closed {
      RunsStayInside(g, v, batches, closed);
    }
  }

  /** Whatever the batching, complete runs agree. */
  lemma BatchingDoesNotMatter(g: Graph, v: Verdicts, xs: seq<set<Id>>, ys: seq<set<Id>>)
    requires Settled(g, RunBatches(g, v, xs)) && Settled(g, RunBatches(g, v, ys))
    ensures RunBatches(g, v, xs) == RunBatches(g, v, ys)
  {
    CompleteRunsReachTheLeastSet(g, v, xs);
    CompleteRunsReachTheLeastSet(g, v, ys);
  }

  /** A support cycle with no dead outside cause never moves: each of its derivations
      keeps a live claim, or a live member of the cycle. */
  predicate SelfSupporting(g: Graph, v: Verdicts, cycle: set<Id>) {
    && (forall p :: p in cycle ==> p in g.propositions && (p in v ==> !InvalidStatus(v[p])))
    && (forall i :: 0 <= i < |g.dependencies| && g.dependencies[i].derived in cycle ==>
          || (exists c :: c in g.dependencies[i].claims && !DeadClaim(g, c))
          || (exists p :: p in g.dependencies[i].propositions && p in cycle))
  }

  lemma {:induction false} CyclesStandAlone(g: Graph, v: Verdicts, batches: seq<set<Id>>, cycle: set<Id>)
    requires SelfSupporting(g, v, cycle)
    ensures forall p :: p in cycle && p in v ==> p in RunBatches(g, v, batches) && RunBatches(g, v, batches)[p] == v[p]
    ensures SelfSupporting(g, RunBatches(g, v, batches), cycle)
  {
    if batches != [] {
      var u := RunBatches(g, v, batches[..|batches| - 1]);
      CyclesStandAlone(g, v, batches[..|batches| - 1], cycle);
      RunsOnlyWithdraw(g, v, batches[..|batches| - 1]);
      forall p | p in cycle && p in u ensures !Movable(g, u, p) {
        forall i | 0 <= i < |g.dependencies| && g.dependencies[i].derived == p
          ensures !AllInputsDead(g, u, g.dependencies[i])
        {}
      }
    }
  }

  // ---------------------------------------------------------------------
  // Several derivations of one proposition
  // ---------------------------------------------------------------------

  predicate IsDerivation(g: Graph, p: Id, i: nat) {
    i < |g.dependencies| && g.dependencies[i].derived == p
  }

  /** "Every derived proposition whose inputs are all invalidated", read over all of
      its derivations at once. */
  ghost predicate AllDerivationsDead(g: Graph, v: Verdicts, p: Id) {
    && p in v && v[p] != Unsupported && (exists i: nat :: IsDerivation(g, p, i))
    && forall i: nat :: IsDerivation(g, p, i) ==> AllInputsDead(g, v, g.dependencies[i])
  }

  ghost predicate HasMixedDerivations(g: Graph, v: Verdicts, p: Id) {
    && (exists i: nat :: IsDerivation(g, p, i) && AllInputsDead(g, v, g.dependencies[i]))
    && exists j: nat :: IsDerivation(g, p, j) && !AllInputsDead(g, v, g.dependencies[j])
  }

  /** For a proposition not yet withdrawn, the rule and that reading agree exactly
      when it does not have one dead and one live derivation. */
  lemma PerRowRuleAgreesExactly(g: Graph, v: Verdicts, p: Id)
    requires p in v && v[p] != Unsupported
    ensures (Movable(g, v, p) <==> AllDerivationsDead(g, v, p)) <==> !HasMixedDerivations(g, v, p)
  {
    assert Movable(g, v, p) <==> exists i: nat :: IsDerivation(g, p, i) && AllInputsDead(g, v, g.dependencies[i]) by {
      if Movable(g, v, p) {
        var i :| 0 <= i < |g.dependencies| && g.dependencies[i].derived == p && AllInputsDead(g, v, g.dependencies[i]);
        assert IsDerivation(g, p, i);
      }
    }
  }

  /** Proposition 9 has one derivation from a rejected claim and one from an accepted
      claim, and is withdrawn all the same. */
  lemma SecondDerivationDoesNotProtect()
    ensures var g := Graph(map[0 := ClaimRejected, 1 := ClaimAccepted], {}, [Dependency(9, {0}, {}), Dependency(9, {1}, {})]);
      var v: Verdicts := map[9 := Accepted];
      Movable(g, v, 9) && !AllDerivationsDead(g, v, 9) && Reassessed(g, v, {})[9] == Unsupported
  {
    var g := Graph(map[0 := ClaimRejected, 1 := ClaimAccepted], {}, [Dependency(9, {0}, {}), Dependency(9, {1}, {})]);
    var v: Verdicts := map[9 := Accepted];
    assert AllInputsDead(g, v, g.dependencies[0]);
    assert IsDerivation(g, 9, 1) && 1 in g.dependencies[1].claims && !DeadClaim(g, 1);
  }

  // ---------------------------------------------------------------------
  // Termination
  // ---------------------------------------------------------------------

  function DerivedIds(ds: seq<Dependency>): set<Id> {
    set i | 0 <= i < |ds| :: ds[i].derived
  }

  /** The derived propositions that could still move. */
  function Standing(g: Graph, v: Verdicts): set<Id> {
    set p | p in DerivedIds(g.dependencies) && p in v && v[p] != Unsupported
  }

  lemma ProgressShrinks(g: Graph, v: Verdicts)
    requires !Settled(g, v)
    ensures Standing(g, Reassessed(g, v, {})) < Standing(g, v)
  {
    var p :| p in v && Movable(g, v, p);
    assert p in Standing(g, v);
  }

  lemma SubsetSize(a: set<Id>, b: set<Id>)
    requires a < b
    ensures |a| < |b|
  {
    assert a + (b - a) == b;
  }

  function Repeat(n: nat): (bs: seq<set<Id>>)
    ensures |bs| == n
  {
    if n == 0 then [] else Repeat(n - 1) + [{}]
  }

  /** Repeating the unscoped reassessment settles within as many rounds as there are
      derived propositions standing. */
  lemma {:induction false} RepeatingSettles(g: Graph, v: Verdicts, rounds: nat)
    requires rounds >= |Standing(g, v)|
    ensures Settled(g, RunBatches(g, v, Repeat(rounds)))
    decreases rounds
  {
    if rounds == 0 {
      NothingStandingIsSettled(g, v);
    } else {
      FirstRound(g, v, rounds - 1);
      if Settled(g, v) {
        assert Reassessed(g, v, {}) == v;
        SettledStays(g, v, rounds - 1);
      } else {
        ProgressShrinks(g, v);
        SubsetSize(Standing(g, Reassessed(g, v, {})), Standing(g, v));
        RepeatingSettles(g, Reassessed(g, v, {}), rounds - 1);
      }
    }
  }

  lemma NothingStandingIsSettled(g: Graph, v: Verdicts)
    requires |Standing(g, v)| == 0
    ensures Settled(g, v)
  {
    forall p | p in v && v[p] != Unsupported ensures p !in DerivedIds(g.dependencies) {
      assert p !in Standing(g, v);
    }
  }

  lemma {:induction false} SettledStays(g: Graph, v: Verdicts, rounds: nat)
    requires Settled(g, v)
    ensures RunBatches(g, v, Repeat(rounds)) == v
  {
    if rounds > 0 {
      assert Repeat(rounds)[..rounds - 1] == Repeat(rounds - 1);
      SettledStays(g, v, rounds - 1);
      assert Reassessed(g, v, {}) == v;
    }
  }

  lemma LastRound(g: Graph, v: Verdicts, n: nat)
    ensures RunBatches(g, v, Repeat(n + 1)) == Reassessed(g, RunBatches(g, v, Repeat(n)), {})
  {
    hide Reassessed;
    assert Repeat(n + 1) == Repeat(n) + [{}];
    assert Repeat(n + 1)[..n] == Repeat(n);
  }

  lemma {:induction false} FirstRound(g: Graph, v: Verdicts, n: nat)
    ensures RunBatches(g, v, Repeat(n + 1)) == RunBatches(g, Reassessed(g, v, {}), Repeat(n))
  {
    LastRound(g, v, n);
    if n > 0 {
      LastRound(g, Reassessed(g, v, {}), n - 1);
      FirstRound(g, v, n - 1);
      hide *;
    } else {
      hide Reassessed;
    }
  }

  // ---------------------------------------------------------------------
  // The store
  // ---------------------------------------------------------------------

  /** The live verdicts a table holds. */
  function Live(rows: seq<Row>): Verdicts {
    if rows == [] then map[] else
      var before, last := Live(rows[..|rows| - 1]), rows[|rows| - 1];
      if last.supersededAt.None? then before[last.proposition := last.status] else before
  }

  lemma {:induction false} LiveOfClose(rows: seq<Row>, p: Id, now: int)
    ensures Live(Close(rows, p, now)) == Live(rows) - {p}
  {
    if rows != [] {
      var n := |rows| - 1;
      LiveOfClose(rows[..n], p, now);
      assert Close(rows, p, now)[..n] == Close(rows[..n], p, now);
    }
  }

  /** Recording a verdict changes the live verdict of its proposition only. */
  lemma LiveOfRecorded(rows: seq<Row>, row: Row)
    requires row.supersededAt.None?
    ensures Live(Recorded(rows, row)) == Live(rows)[row.proposition := row.status]
  {
    LiveOfClose(rows, row.proposition, row.recordedAt);
    assert Recorded(rows, row)[..|rows|] == Close(rows, row.proposition, row.recordedAt);
  }

  lemma RecordingOthers(rows: seq<Row>, row: Row, p: Id, now: int)
    requires p != row.proposition
    ensures NotAhead(Recorded(rows, row), p, now) <==> NotAhead(rows, p, now)
  {
    var after := Recorded(rows, row);
    if NotAhead(after, p, now) {
      forall i | 0 <= i < |rows| && IsLiveFor(rows[i], p) ensures rows[i].recordedAt <= now {
        assert after[i] == rows[i];
      }
    }
  }

  /** The rows the reassessment query selects. */
  predicate Selected(g: Graph, v: Verdicts, d: Dependency, candidates: set<Id>) {
    && (candidates == {} || d.derived in candidates)
    && AllInputsDead(g, v, d)
    && d.derived in v && v[d.derived] != Unsupported
  }

  /** The distinct derived propositions among the selected rows. */
  function ToMove(g: Graph, v: Verdicts, ds: seq<Dependency>, candidates: set<Id>): set<Id> {
    set i | 0 <= i < |ds| && Selected(g, v, ds[i], candidates) :: ds[i].derived
  }

  predicate NoRepeats(ids: seq<Id>) {
    forall i, j :: 0 <= i < j < |ids| ==> ids[i] != ids[j]
  }

  lemma ReassessedMovesSelection(g: Graph, v: Verdicts, candidates: set<Id>)
    ensures Reassessed(g, v, candidates) == Withdrawn(v, ToMove(g, v, g.dependencies, candidates))
  {
    var moving := ToMove(g, v, g.dependencies, candidates);
    forall p | p in v ensures p in moving <==> Movable(g, v, p) && (candidates == {} || p in candidates) {
      if Movable(g, v, p) && (candidates == {} || p in candidates) {
        var i :| 0 <= i < |g.dependencies| && g.dependencies[i].derived == p && AllInputsDead(g, v, g.dependencies[i]);
        assert Selected(g, v, g.dependencies[i], candidates);
      }
    }
  }

  lemma WithdrawnStep(v: Verdicts, done: set<Id>, p: Id)
    requires p in v
    ensures Withdrawn(v, done)[p := Unsupported] == Withdrawn(v, done + {p})
  {}

  class AssessmentStore {
    var rows: seq<Row>
    var nextId: Id

    constructor ()
      ensures rows == [] && Valid(rows)
    {
      rows := [];
      nextId := 0;
    }

    /** `recordBeliefAssessment`: closes the live row and inserts the new one, or
        changes nothing when a table constraint refuses. */
    method RecordVerdict(p: Id, status: Status, validFrom: Option<int>, validTo: Option<int>, transaction: Id, now: int)
      returns (ok: bool)
      modifies this
      ensures ok <==> Admissible(old(rows), p, validFrom, validTo, now)
      ensures rows == Record(old(rows), Row(old(nextId), p, status, validFrom, validTo, now, None, transaction))
      ensures Valid(old(rows)) ==> Valid(rows)
      ensures ok ==> Live(rows) == Live(old(rows))[p := status]
      ensures nextId == old(nextId) + 1
    {
      var row := Row(nextId, p, status, validFrom, validTo, now, None, transaction);
      nextId := nextId + 1;
      if Valid(rows) {
        RecordKeepsValid(rows, row);
      }
      LiveOfRecorded(rows, row);
      ok := Admissible(rows, p, validFrom, validTo, now);
      if ok {
        rows := Close(rows, p, now);
        rows := rows + [row];
      }
    }

    /** `reassessDerivedPropositions`: select first, then append one `UNSUPPORTED`
        verdict per selected proposition; a refused write aborts them all. */
    method Reassess(g: Graph, candidates: set<Id>, transaction: Id, now: int) returns (moved: Option<seq<Id>>)
      modifies this
      ensures Valid(old(rows)) ==> Valid(rows)
      ensures moved.Some? <==> forall p :: p in ToMove(g, Live(old(rows)), g.dependencies, candidates) ==> NotAhead(old(rows), p, now)
      ensures moved.None? ==> rows == old(rows)
      ensures moved.Some? ==> Live(rows) == Reassessed(g, Live(old(rows)), candidates)
      ensures moved.Some? ==> NoRepeats(moved.value) && |rows| == |old(rows)| + |moved.value|
      ensures moved.Some? ==> (set p | p in moved.value) == ToMove(g, Live(old(rows)), g.dependencies, candidates)
    {
      var ids := SelectIds(g, candidates);
      ReassessedMovesSelection(g, Live(rows), candidates);
      var saved := rows;
      var ok := WithdrawAll(ids, transaction, now);
      if !ok {
        rows := saved;
        return None;
      }
      moved := Some(ids);
    }

    /** The writing loop: one verdict per id, stopping at the first refusal. */
    method WithdrawAll(ids: seq<Id>, transaction: Id, now: int) returns (ok: bool)
      requires NoRepeats(ids) && forall p :: p in ids ==> p in Live(rows)
      modifies this
      ensures Valid(old(rows)) ==> Valid(rows)
      ensures ok <==> forall p :: p in ids ==> NotAhead(old(rows), p, now)
      ensures ok ==> Live(rows) == Withdrawn(Live(old(rows)), set p | p in ids) && |rows| == |old(rows)| + |ids|
    {
      ghost var before := rows;
      ghost var done := {};
      for n := 0 to |ids|
        invariant Valid(before) ==> Valid(rows)
        invariant |rows| == |before| + n
        invariant forall p :: p in done <==> p in ids[..n]
        invariant Live(rows) == Withdrawn(Live(before), done)
        invariant forall k :: n <= k < |ids| ==> (NotAhead(rows, ids[k], now) <==> NotAhead(before, ids[k], now))
        invariant forall p :: p in done ==> NotAhead(before, p, now)
      {
        label L:
        var p := ids[n];
        assert p in ids;
        ghost var row := Row(nextId, p, Unsupported, None, None, now, None, transaction);
        ok := RecordVerdict(p, Unsupported, None, None, transaction, now);
        if !ok {
          return;
        }
        forall k | n < k < |ids| ensures NotAhead(rows, ids[k], now) <==> NotAhead(before, ids[k], now) {
          RecordingOthers(old@L(rows), row, ids[k], now);
        }
        WithdrawnStep(Live(before), done, p);
        done := done + {p};
        assert ids[..n + 1] == ids[..n] + [p];
      }
      assert ids[..|ids|] == ids;
      assert done == set p | p in ids;
      ok := true;
    }

    method SelectIds(g: Graph, candidates: set<Id>) returns (ids: seq<Id>)
      ensures NoRepeats(ids)
      ensures forall p :: p in ids <==> p in ToMove(g, Live(rows), g.dependencies, candidates)
    {
      ids := [];
      var v := Live(rows);
      for i := 0 to |g.dependencies|
        invariant NoRepeats(ids)
        invariant forall p :: p in ids <==> exists j :: 0 <= j < i && Selected(g, v, g.dependencies[j], candidates) && g.dependencies[j].derived == p
      {
        var d := g.dependencies[i];
        if Selected(g, v, d, candidates) && d.derived !in ids {
          ids := ids + [d.derived];
        }
      }
    }
  }
}
