/** The load harness: workers sharing one counter, nearest-rank P95, and a record
    that exists only when every operation succeeded. */
module WorkerPool {
  import opened Options

  datatype Worker = Ready | InFlight | Finished | Failed

  /** `next` is the shared counter; `started` counts the operations begun. */
  datatype Pool = Pool(next: nat, started: nat, workers: seq<Worker>, durations: seq<real>)

  /** A worker evaluates its loop test, or its pending operation settles. */
  datatype Event = Test(w: nat) | Complete(w: nat, duration: real) | Fail(w: nat)

  function Start(sampleCount: nat, concurrency: nat): Pool {
    Pool(0, 0, seq(if concurrency <= sampleCount then concurrency else sampleCount, i => Ready), [])
  }

  /** `while (next++ < sampleCount)`: the counter moves on even when the test fails. */
  function Next(p: Pool, sampleCount: nat, e: Event): Pool {
    match e
    case Test(w) =>
      if w >= |p.workers| || p.workers[w] != Ready then p
      else if p.next < sampleCount then p.(next := p.next + 1, started := p.started + 1, workers := p.workers[w := InFlight])
      else p.(next := p.next + 1, workers := p.workers[w := Finished])
    case Complete(w, duration) =>
      if w >= |p.workers| || p.workers[w] != InFlight then p
      else p.(workers := p.workers[w := Ready], durations := p.durations + [duration])
    case Fail(w) =>
      if w >= |p.workers| || p.workers[w] != InFlight then p else p.(workers := p.workers[w := Failed])
  }

  function Run(p: Pool, sampleCount: nat, events: seq<Event>): Pool {
    if events == [] then p else Next(Run(p, sampleCount, events[..|events| - 1]), sampleCount, events[|events| - 1])
  }

  /** Every worker's promise has settled. */
  predicate Settled(p: Pool) {
    forall i :: 0 <= i < |p.workers| ==> p.workers[i] == Finished || p.workers[i] == Failed
  }

  predicate AnyFailed(p: Pool) {
    exists i :: 0 <= i < |p.workers| && p.workers[i] == Failed
  }

  function Count(ws: seq<Worker>, x: Worker): (n: nat)
    ensures n <= |ws|
  {
    if ws == [] then 0 else Count(ws[..|ws| - 1], x) + if ws[|ws| - 1] == x then 1 else 0
  }

  lemma {:induction false} CountUpdate(ws: seq<Worker>, w: nat, y: Worker, x: Worker)
    requires w < |ws|
    ensures Count(ws[w := y], x) == Count(ws, x) - (if ws[w] == x then 1 else 0) + if y == x then 1 else 0
  {
    var front := ws[..|ws| - 1];
    if w < |front| {
      CountUpdate(front, w, y, x);
      assert ws[w := y][..|ws| - 1] == front[w := y];
    } else {
      assert ws[w := y][..|ws| - 1] == front;
    }
  }

  lemma {:induction false} CountNone(ws: seq<Worker>, x: Worker)
    ensures Count(ws, x) == 0 <==> forall i :: 0 <= i < |ws| ==> ws[i] != x
  {
    if ws != [] { CountNone(ws[..|ws| - 1], x); }
  }

  /** Operations begun are those done, those in flight and those failed; a worker
      finishes only once the counter has reached the sample count. */
  predicate Inv(p: Pool, sampleCount: nat) {
    && p.started == (if p.next < sampleCount then p.next else sampleCount)
    && p.started == |p.durations| + Count(p.workers, InFlight) + Count(p.workers, Failed)
    && (Count(p.workers, Finished) > 0 ==> p.next >= sampleCount)
  }

  lemma NextKeepsInv(p: Pool, sampleCount: nat, e: Event)
    requires Inv(p, sampleCount)
    ensures Inv(Next(p, sampleCount, e), sampleCount) && |Next(p, sampleCount, e).workers| == |p.workers|
  {
    if e.w < |p.workers| {
      var p' := Next(p, sampleCount, e);
      var y := p'.workers[e.w];
      assert p'.workers == p.workers[e.w := y];
      CountUpdate(p.workers, e.w, y, InFlight);
      CountUpdate(p.workers, e.w, y, Failed);
      CountUpdate(p.workers, e.w, y, Finished);
    }
  }

  lemma {:induction false} RunKeepsInv(sampleCount: nat, concurrency: nat, events: seq<Event>)
    ensures var p := Run(Start(sampleCount, concurrency), sampleCount, events);
      Inv(p, sampleCount) && |p.workers| == if concurrency <= sampleCount then concurrency else sampleCount
  {
    var start := Start(sampleCount, concurrency);
    if events == [] {
      CountNone(start.workers, InFlight);
      CountNone(start.workers, Failed);
      CountNone(start.workers, Finished);
    } else {
      RunKeepsInv(sampleCount, concurrency, events[..|events| - 1]);
      NextKeepsInv(Run(start, sampleCount, events[..|events| - 1]), sampleCount, events[|events| - 1]);
    }
  }

  /** At every point of every interleaving, no more operations have begun than asked
      for, and no more are in flight than the smaller of the two limits. */
  lemma NeverTooMany(sampleCount: nat, concurrency: nat, events: seq<Event>)
    ensures var p := Run(Start(sampleCount, concurrency), sampleCount, events);
      && p.started <= sampleCount && |p.durations| <= sampleCount
      && Count(p.workers, InFlight) <= concurrency && Count(p.workers, InFlight) <= sampleCount
  {
    RunKeepsInv(sampleCount, concurrency, events);
  }

  /** When all workers have settled, either some operation failed, or exactly the
      asked number ran and every one of them left a sample. */
  lemma SettledRunsAreComplete(sampleCount: nat, concurrency: nat, events: seq<Event>)
    requires sampleCount >= 1 && concurrency >= 1
    requires Settled(Run(Start(sampleCount, concurrency), sampleCount, events))
    ensures var p := Run(Start(sampleCount, concurrency), sampleCount, events);
      !AnyFailed(p) <==> p.started == |p.durations| == sampleCount
  {
    var p := Run(Start(sampleCount, concurrency), sampleCount, events);
    RunKeepsInv(sampleCount, concurrency, events);
    CountNone(p.workers, InFlight);
    CountNone(p.workers, Failed);
    CountNone(p.workers, Finished);
    assert AnyFailed(p) || p.workers[0] == Finished;
  }

  // ---------------------------------------------------------------------
  // Nearest rank
  // ---------------------------------------------------------------------

  function Insert(x: real, xs: seq<real>): seq<real> {
    if xs == [] then [x] else if x <= xs[0] then [x] + xs else [xs[0]] + Insert(x, xs[1..])
  }

  function Sort(xs: seq<real>): seq<real> {
    if xs == [] then [] else Insert(xs[0], Sort(xs[1..]))
  }

  predicate Ascending(xs: seq<real>) {
    forall i, j :: 0 <= i < j < |xs| ==> xs[i] <= xs[j]
  }

  lemma {:induction false} InsertPermutes(x: real, xs: seq<real>)
    ensures multiset(Insert(x, xs)) == multiset(xs) + multiset{x}
  {
    if xs != [] && x > xs[0] {
      InsertPermutes(x, xs[1..]);
      assert xs == [xs[0]] + xs[1..];
    }
  }

  lemma {:induction false} InsertSorts(x: real, xs: seq<real>)
    requires Ascending(xs)
    ensures Ascending(Insert(x, xs)) && Insert(x, xs) != []
    ensures Insert(x, xs)[0] == x || (xs != [] && Insert(x, xs)[0] == xs[0] < x)
  {
    if xs != [] && x > xs[0] {
      InsertSorts(x, xs[1..]);
      assert Insert(x, xs[1..])[0] >= xs[0];
      PrependAscends(xs[0], Insert(x, xs[1..]));
    } else {
      PrependAscends(x, xs);
    }
  }

  lemma PrependAscends(x: real, xs: seq<real>)
    requires Ascending(xs) && (xs != [] ==> x <= xs[0])
    ensures Ascending([x] + xs)
  {}

  lemma {:induction false} SortSorts(xs: seq<real>)
    ensures Ascending(Sort(xs)) && multiset(Sort(xs)) == multiset(xs) && |Sort(xs)| == |xs|
  {
    if xs != [] {
      SortSorts(xs[1..]);
      InsertSorts(xs[0], Sort(xs[1..]));
      InsertPermutes(xs[0], Sort(xs[1..]));
      assert xs == [xs[0]] + xs[1..];
      assert |multiset(Sort(xs))| == |Sort(xs)|;
    }
  }

  /** `Math.ceil(n * 0.95)`, in exact arithmetic. */
  function Rank(n: nat): nat {
    (95 * n + 99) / 100
  }

  function AtMost(xs: seq<real>, x: real): nat {
    if xs == [] then 0 else AtMost(xs[1..], x) + if xs[0] <= x then 1 else 0
  }

  function Below(xs: seq<real>, x: real): nat {
    if xs == [] then 0 else Below(xs[1..], x) + if xs[0] < x then 1 else 0
  }

  function P95(xs: seq<real>): real
    requires xs != []
  {
    SortSorts(xs);
    Sort(xs)[Rank(|xs|) - 1]
  }

  lemma {:induction false} InsertCounts(v: real, xs: seq<real>, x: real)
    ensures AtMost(Insert(v, xs), x) == AtMost(xs, x) + if v <= x then 1 else 0
    ensures Below(Insert(v, xs), x) == Below(xs, x) + if v < x then 1 else 0
  {
    if xs != [] && v > xs[0] { InsertCounts(v, xs[1..], x); }
  }

  lemma {:induction false} SortKeepsCounts(xs: seq<real>, x: real)
    ensures AtMost(Sort(xs), x) == AtMost(xs, x) && Below(Sort(xs), x) == Below(xs, x)
  {
    if xs != [] {
      SortKeepsCounts(xs[1..], x);
      InsertCounts(xs[0], Sort(xs[1..]), x);
    }
  }

  lemma {:induction false} NoneBelow(xs: seq<real>, x: real)
    requires forall i :: 0 <= i < |xs| ==> x <= xs[i]
    ensures Below(xs, x) == 0
  {
    if xs != [] { NoneBelow(xs[1..], x); }
  }

  lemma {:induction false} CountsAtRank(xs: seq<real>, k: nat)
    requires Ascending(xs) && k < |xs|
    ensures AtMost(xs, xs[k]) >= k + 1 && Below(xs, xs[k]) <= k
  {
    if k == 0 {
      NoneBelow(xs, xs[0]);
    } else {
      CountsAtRank(xs[1..], k - 1);
    }
  }

  /** The rank is in range, at least 95% of the samples are at or under it, and fewer
      than 95% are strictly under it. */
  lemma P95IsNearestRank(xs: seq<real>)
    requires xs != []
    ensures 1 <= Rank(|xs|) <= |xs|
    ensures 100 * AtMost(xs, P95(xs)) >= 95 * |xs| && 100 * Below(xs, P95(xs)) < 95 * |xs|
    ensures P95(xs) in xs
  {
    SortSorts(xs);
    CountsAtRank(Sort(xs), Rank(|xs|) - 1);
    SortKeepsCounts(xs, P95(xs));
    assert P95(xs) in multiset(Sort(xs));
  }

  // ---------------------------------------------------------------------
  // Recording
  // ---------------------------------------------------------------------

  datatype Scenario = EVIDENCE_INGESTION_ACK | TYPED_PROJECTION_READ | CONTEXT_PACKET_ASSEMBLY
  datatype Measurement = Measurement(scenario: Scenario, p95: real, sampleCount: nat, concurrency: nat, samples: seq<real>)
  datatype Outcome = Recorded | ConfigurationInvalid | OperationFailed

  const SCENARIOS := [EVIDENCE_INGESTION_ACK, TYPED_PROJECTION_READ, CONTEXT_PACKET_ASSEMBLY]

  predicate ConfigurationValid(sampleCount: int, concurrency: int) {
    20 <= sampleCount <= 100_000 && 1 <= concurrency <= 128
  }

  /** What one scenario's workers came to, however they interleaved. */
  predicate Ran(p: Pool, sampleCount: nat, concurrency: nat, events: seq<Event>) {
    p == Run(Start(sampleCount, concurrency), sampleCount, events) && Settled(p)
  }

  predicate IsMeasured(m: Measurement, scenario: Scenario, p: Pool, sampleCount: nat, concurrency: nat) {
    && p.durations != []
    && m == Measurement(scenario, P95(p.durations), sampleCount, concurrency, p.durations)
    && |m.samples| == sampleCount
  }

  lemma RanCompletely(p: Pool, sampleCount: nat, concurrency: nat, events: seq<Event>)
    requires ConfigurationValid(sampleCount, concurrency) && Ran(p, sampleCount, concurrency, events)
    ensures !AnyFailed(p) ==> |p.durations| == sampleCount
  {
    SettledRunsAreComplete(sampleCount, concurrency, events);
  }

  class MeasurementStore {
    var rows: seq<Measurement>

    constructor ()
      ensures rows == []
    {
      rows := [];
    }

    /** `pools[i]` is how the i-th scenario's workers settled, after `schedules[i]`. */
    method RecordLoadRun(sampleCount: int, concurrency: int, pools: seq<Pool>, ghost schedules: seq<seq<Event>>) returns (outcome: Outcome)
      requires |pools| == |schedules| == |SCENARIOS|
      requires ConfigurationValid(sampleCount, concurrency) ==>
        forall i :: 0 <= i < |pools| ==> Ran(pools[i], sampleCount, concurrency, schedules[i])
      modifies this
      ensures outcome == ConfigurationInvalid <==> !ConfigurationValid(sampleCount, concurrency)
      ensures outcome == OperationFailed <==>
        ConfigurationValid(sampleCount, concurrency) && exists i :: 0 <= i < |pools| && AnyFailed(pools[i])
      ensures outcome != Recorded ==> rows == old(rows)
      ensures outcome == Recorded ==>
        && |rows| == |old(rows)| + |SCENARIOS| && old(rows) <= rows
        && forall i :: 0 <= i < |SCENARIOS| ==>
             IsMeasured(rows[|old(rows)| + i], SCENARIOS[i], pools[i], sampleCount, concurrency)
    {
      if !ConfigurationValid(sampleCount, concurrency) {
        return ConfigurationInvalid;
      }
      var results := Measure(sampleCount, concurrency, pools, schedules);
      if results.None? {
        return OperationFailed;
      }
      hide IsMeasured, AnyFailed;
      rows := rows + results.value;
      outcome := Recorded;
    }

    /** The three scenarios in turn; the first failure ends the run. */
    static method Measure(sampleCount: nat, concurrency: nat, pools: seq<Pool>, ghost schedules: seq<seq<Event>>) returns (results: Option<seq<Measurement>>)
      requires ConfigurationValid(sampleCount, concurrency) && |pools| == |schedules| == |SCENARIOS|
      requires forall i :: 0 <= i < |pools| ==> Ran(pools[i], sampleCount, concurrency, schedules[i])
      ensures results.None? <==> exists i :: 0 <= i < |pools| && AnyFailed(pools[i])
      ensures results.Some? ==> |results.value| == |SCENARIOS| && forall i :: 0 <= i < |SCENARIOS| ==>
        IsMeasured(results.value[i], SCENARIOS[i], pools[i], sampleCount, concurrency)
    {
      hide Run, Start, Ran, Settled, AnyFailed, Sort, Rank;
      var measured: seq<Measurement> := [];
      for i := 0 to |SCENARIOS|
        invariant |measured| == i
        invariant forall k :: 0 <= k < i ==> !AnyFailed(pools[k])
        invariant forall k :: 0 <= k < i ==> IsMeasured(measured[k], SCENARIOS[k], pools[k], sampleCount, concurrency)
      {
        RanCompletely(pools[i], sampleCount, concurrency, schedules[i]);
        if AnyFailed(pools[i]) {
          return None;
        }
        var values := pools[i].durations;
        measured := measured + [Measurement(SCENARIOS[i], P95(values), sampleCount, concurrency, values)];
      }
      results := Some(measured);
    }
  }
}
