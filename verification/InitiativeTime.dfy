/** The daily run: one per local calendar day, in any time zone whatsoever. */
module InitiativeTime {
  import opened Options

  /** Milliseconds since the epoch. */
  type Instant = int

  /** A local calendar date, as a day number. */
  type Date = int

  /** Minutes after midnight, 0 to 1439; "HH:MM" compares the same way. */
  type LocalTime = nat

  /** Everything the zone says: the local date and time of an instant, and where it
      takes a local date to begin. Nothing is assumed about any of the three. */
  datatype Zone = Zone(dateOf: Instant -> Date, timeOf: Instant -> LocalTime, startOf: Date -> Instant)

  const MINUTES_SCANNED := 28 * 60
  const DAYS_SCANNED := 3
  const MINUTE := 60_000

  function Minute(z: Zone, date: Date, m: nat): Instant {
    z.startOf(date) + m * MINUTE
  }

  /** The scanned minute falls on the date, at or after the configured time. */
  predicate Qualifies(z: Zone, date: Date, at: LocalTime, m: nat) {
    z.dateOf(Minute(z, date, m)) == date && z.timeOf(Minute(z, date, m)) >= at
  }

  /** The first scanned minute that qualifies. */
  predicate IsFirst(z: Zone, date: Date, at: LocalTime, m: nat) {
    m < MINUTES_SCANNED && Qualifies(z, date, at, m) && forall k :: 0 <= k < m ==> !Qualifies(z, date, at, k)
  }

  /** `run` is the one instant at which the date's run is due. */
  ghost predicate IsRunOf(z: Zone, date: Date, at: LocalTime, run: Instant) {
    exists m: nat :: IsFirst(z, date, at, m) && run == Minute(z, date, m)
  }

  lemma RunIsUnique(z: Zone, date: Date, at: LocalTime, a: Instant, b: Instant)
    requires IsRunOf(z, date, at, a) && IsRunOf(z, date, at, b)
    ensures a == b && z.dateOf(a) == date && z.timeOf(a) >= at
  {
    var m: nat :| IsFirst(z, date, at, m) && a == Minute(z, date, m);
    var n: nat :| IsFirst(z, date, at, n) && b == Minute(z, date, n);
    assert m == n;
  }

  /** The date offers no run after the instant. */
  ghost predicate HasPassed(z: Zone, date: Date, at: LocalTime, after: Instant) {
    forall run :: IsRunOf(z, date, at, run) ==> run <= after
  }

  /** `run` is what the scheduler must answer: the run of the earliest of the three
      dates whose run is still to come; or nothing, when none of them has one. */
  ghost predicate IsNext(z: Zone, after: Instant, at: LocalTime, run: Option<Instant>) {
    var today := z.dateOf(after);
    match run
    case None => forall d :: today <= d < today + DAYS_SCANNED ==> HasPassed(z, d, at, after)
    case Some(r) =>
      && r > after && today <= z.dateOf(r) < today + DAYS_SCANNED && IsRunOf(z, z.dateOf(r), at, r)
      && forall d :: today <= d < z.dateOf(r) ==> HasPassed(z, d, at, after)
  }

  /** `None` stands for the scheduler's error. */
  method NextInitiativeRun(z: Zone, after: Instant, at: LocalTime) returns (run: Option<Instant>)
    ensures IsNext(z, after, at, run)
  {
    var today := z.dateOf(after);
    for day := 0 to DAYS_SCANNED
      invariant forall d :: today <= d < today + day ==> HasPassed(z, d, at, after)
    {
      var date := today + day;
      var start := z.startOf(date);
      var found: Option<nat> := None;
      for minute := 0 to MINUTES_SCANNED
        invariant forall k :: 0 <= k < minute ==> !Qualifies(z, date, at, k)
        invariant found.None?
      {
        var instant := start + minute * MINUTE;
        if z.dateOf(instant) != date {
          continue;
        }
        if z.timeOf(instant) < at {
          continue;
        }
        assert IsFirst(z, date, at, minute) && instant == Minute(z, date, minute);
        if instant > after {
          return Some(instant);
        }
        found := Some(minute);
        break;
      }
      forall r | IsRunOf(z, date, at, r) ensures r <= after {
        if found.Some? { RunIsUnique(z, date, at, r, Minute(z, date, found.value)); }
      }
      assert HasPassed(z, date, at, after);
    }
    run := None;
  }

  lemma AnswersAgree(z: Zone, after: Instant, at: LocalTime, a: Option<Instant>, b: Option<Instant>)
    requires IsNext(z, after, at, a) && IsNext(z, after, at, b)
    ensures a == b
  {
    assert a.Some? ==> !HasPassed(z, z.dateOf(a.value), at, after);
    assert b.Some? ==> !HasPassed(z, z.dateOf(b.value), at, after);
    if a.Some? && b.Some? && z.dateOf(a.value) == z.dateOf(b.value) {
      RunIsUnique(z, z.dateOf(a.value), at, a.value, b.value);
    }
  }

  /** The run after a run is on a later local date: the date's one run has passed, and
      neither a repeated hour nor a skipped minute gives it another. */
  lemma NextRunIsOnALaterDate(z: Zone, after: Instant, at: LocalTime, run: Instant, next: Instant)
    requires IsNext(z, after, at, Some(run)) && IsNext(z, run, at, Some(next))
    ensures after < run < next && z.dateOf(after) <= z.dateOf(run) < z.dateOf(next)
  {
    if z.dateOf(next) == z.dateOf(run) {
      RunIsUnique(z, z.dateOf(run), at, run, next);
    }
  }

  /** The instant the i-th run was scheduled from. */
  function Before(after: Instant, runs: seq<Instant>, i: nat): Instant
    requires i < |runs|
  {
    if i == 0 then after else runs[i - 1]
  }

  /** Runs scheduled one from another. */
  ghost predicate Chain(z: Zone, at: LocalTime, after: Instant, runs: seq<Instant>) {
    forall i :: IsLink(z, at, after, runs, i)
  }

  ghost predicate IsLink(z: Zone, at: LocalTime, after: Instant, runs: seq<Instant>, i: nat) {
    i < |runs| ==> IsNext(z, Before(after, runs, i), at, Some(runs[i]))
  }

  lemma ChainStep(z: Zone, at: LocalTime, after: Instant, runs: seq<Instant>, j: nat)
    requires Chain(z, at, after, runs) && 0 < j < |runs|
    ensures runs[j - 1] < runs[j] && z.dateOf(runs[j - 1]) < z.dateOf(runs[j])
  {
    assert IsLink(z, at, after, runs, j - 1) && IsLink(z, at, after, runs, j);
    NextRunIsOnALaterDate(z, Before(after, runs, j - 1), at, runs[j - 1], runs[j]);
  }

  /** Scheduling over and over gives strictly later instants on strictly later local
      dates, so no day runs twice. */
  lemma {:induction false} NoDayRunsTwice(z: Zone, at: LocalTime, after: Instant, runs: seq<Instant>, i: nat, j: nat)
    requires Chain(z, at, after, runs) && i < j < |runs|
    ensures runs[i] < runs[j] && z.dateOf(runs[i]) < z.dateOf(runs[j])
    decreases j
  {
    ChainStep(z, at, after, runs, j);
    if i < j - 1 {
      NoDayRunsTwice(z, at, after, runs, i, j - 1);
    }
  }
}
