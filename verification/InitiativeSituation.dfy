/** What a watched deadline amounts to at an instant: which threshold it has
    reached, whether its support is settled, and when the threshold next changes. */
module InitiativeSituation {
  import opened Options

  type Id = nat

  /** Milliseconds since the epoch. */
  type Instant = int

  const HOUR := 3_600_000
  const IMMINENT_WITHIN := 24 * HOUR
  const UPCOMING_WITHIN := 48 * HOUR
  const MOST_SOURCES := 200

  datatype Predicate = DUE_TIME | OCCURRENCE_TIME | OTHER_PREDICATE
  datatype Certainty = ACCEPTED | PROVISIONAL | CONTESTED | OWNER_OVERLAY

  /** A selection of the context packet. `value` stands for the selected value as a
      whole; `start` and `end` are the instants it reads as. */
  datatype Selection = Selection(
    frame: Id, predicateId: Predicate, isSelected: bool, proposition: Id, value: nat, start: Option<Instant>, end: Option<Instant>,
    certainty: Certainty, ownerAssertionPending: bool, evidence: set<Id>, overlays: seq<Id>)

  /** Partial outcomes settle nothing. */
  datatype Outcome = Partial | Final(code: nat)
  datatype Resolution = Resolution(id: Id, frame: Id, accepted: bool, outcome: Outcome)

  datatype Packet = Packet(selections: seq<Selection>, resolutions: seq<Resolution>, isComplete: bool, conflicts: set<Id>)

  datatype Watch = Watch(
    id: Id, scheduled: Id, prerequisite: Id, sourceItem: Id, enabled: bool, snoozedUntil: Option<Instant>)

  datatype Threshold = UPCOMING | IMMINENT | OVERDUE

  /** What the state digest is taken of; hashing it is taken as one-to-one. */
  datatype Digest = Digest(selected: seq<(Id, nat, Certainty, seq<Id>)>, resolutions: seq<Id>)

  datatype Candidate = Candidate(
    threshold: Threshold, sources: set<Id>, settled: bool, due: Instant, digest: Digest, nextThreshold: Option<Instant>)

  predicate Watches(w: Watch, frame: Id) {
    frame == w.scheduled || frame == w.prerequisite
  }

  function Selected(ss: seq<Selection>, w: Watch): seq<Selection> {
    if ss == [] then []
    else if Watches(w, ss[0].frame) && ss[0].isSelected then [ss[0]] + Selected(ss[1..], w)
    else Selected(ss[1..], w)
  }

  function Resolved(rs: seq<Resolution>, w: Watch): seq<Resolution> {
    if rs == [] then []
    else if Watches(w, rs[0].frame) && rs[0].accepted then [rs[0]] + Resolved(rs[1..], w)
    else Resolved(rs[1..], w)
  }

  predicate Names(ss: seq<Selection>, frame: Id) {
    exists i :: 0 <= i < |ss| && ss[i].frame == frame
  }

  /** The distinct final outcomes accepted for a frame. */
  function FinalCodes(rs: seq<Resolution>, frame: Id): set<nat> {
    set i | 0 <= i < |rs| && rs[i].frame == frame && rs[i].outcome.Final? :: rs[i].outcome.code
  }

  /** The first selection that gives the scheduled frame its time. */
  function TimeOf(ss: seq<Selection>, w: Watch): Option<Selection> {
    if ss == [] then None
    else if ss[0].frame == w.scheduled && ss[0].predicateId != OTHER_PREDICATE then Some(ss[0])
    else TimeOf(ss[1..], w)
  }

  /** An interval is due at its start; a due time with only an end is due then. */
  function DueOf(time: Selection): Option<Instant> {
    if time.predicateId == DUE_TIME && time.start.None? then time.end else time.start
  }

  function SourcesOf(ss: seq<Selection>, w: Watch): set<Id> {
    {w.sourceItem} + set i, id | 0 <= i < |ss| && id in ss[i].evidence :: id
  }

  /** Everything that does not depend on the time of day: the deadline, when the
      watch is still open, its time undisputed and its sources few enough to show. */
  function DeadlineOf(p: Packet, w: Watch): Option<Instant> {
    var selected, resolutions := Selected(p.selections, w), Resolved(p.resolutions, w);
    var time := TimeOf(selected, w);
    if !Names(selected, w.scheduled) || !Names(selected, w.prerequisite) then None
    else if |FinalCodes(resolutions, w.prerequisite)| == 1 || |FinalCodes(resolutions, w.scheduled)| == 1 then None
    else if time.None? || time.value.ownerAssertionPending || |SourcesOf(selected, w)| > MOST_SOURCES then None
    else DueOf(time.value)
  }

  predicate IsSettled(p: Packet, w: Watch) {
    var selected, resolutions := Selected(p.selections, w), Resolved(p.resolutions, w);
    && (forall i :: 0 <= i < |selected| ==> selected[i].certainty == ACCEPTED && !selected[i].ownerAssertionPending)
    && FinalCodes(resolutions, w.prerequisite) == {} && FinalCodes(resolutions, w.scheduled) == {}
    && p.isComplete && w.scheduled !in p.conflicts && w.prerequisite !in p.conflicts
  }

  function DigestOf(p: Packet, w: Watch): Digest {
    var selected, resolutions := Selected(p.selections, w), Resolved(p.resolutions, w);
    Digest(seq(|selected|, i requires 0 <= i < |selected| =>
             (selected[i].proposition, selected[i].value, selected[i].certainty, selected[i].overlays)),
           seq(|resolutions|, i requires 0 <= i < |resolutions| => resolutions[i].id))
  }

  function Situation(p: Packet, w: Watch, now: Instant): Option<Candidate> {
    var due := DeadlineOf(p, w);
    if due.None? || due.value - now > UPCOMING_WITHIN then None
    else
      var remaining := due.value - now;
      Some(Candidate(
        if remaining <= 0 then OVERDUE else if remaining <= IMMINENT_WITHIN then IMMINENT else UPCOMING,
        SourcesOf(Selected(p.selections, w), w), IsSettled(p, w), due.value, DigestOf(p, w),
        if remaining > IMMINENT_WITHIN then Some(due.value - IMMINENT_WITHIN) else if remaining > 0 then Some(due.value) else None))
  }

  /** Each threshold is one window before or after the deadline. */
  lemma ThresholdWindows(p: Packet, w: Watch, now: Instant)
    ensures Situation(p, w, now).Some? <==> DeadlineOf(p, w).Some? && now >= DeadlineOf(p, w).value - UPCOMING_WITHIN
    ensures Situation(p, w, now).Some? ==>
      var c := Situation(p, w, now).value;
      && (c.threshold == UPCOMING <==> now < c.due - IMMINENT_WITHIN)
      && (c.threshold == IMMINENT <==> c.due - IMMINENT_WITHIN <= now < c.due)
      && (c.threshold == OVERDUE <==> c.due <= now)
      && |c.sources| <= MOST_SOURCES && w.sourceItem in c.sources
  {}

  /** A settled candidate rests on accepted, undisputed values only, and on no final
      outcome of either frame. */
  lemma SettledSupport(p: Packet, w: Watch, now: Instant, i: nat)
    requires Situation(p, w, now).Some? && Situation(p, w, now).value.settled
    requires i < |p.selections| && p.selections[i].isSelected && Watches(w, p.selections[i].frame)
    ensures p.selections[i].certainty == ACCEPTED && !p.selections[i].ownerAssertionPending
    ensures p.isComplete && p.selections[i].frame !in p.conflicts
  {
    SelectedHolds(p.selections, w, i);
  }

  lemma {:induction false} SelectedHolds(ss: seq<Selection>, w: Watch, i: nat)
    requires i < |ss| && ss[i].isSelected && Watches(w, ss[i].frame)
    ensures ss[i] in Selected(ss, w)
  {
    if i > 0 { SelectedHolds(ss[1..], w, i - 1); }
  }

  /** With packet and watch fixed, only the threshold and its wake-up move with time:
      a candidate stays one, about the same state, for ever after. */
  lemma StateIsTimeless(p: Packet, w: Watch, now: Instant, later: Instant)
    requires Situation(p, w, now).Some? && now <= later
    ensures Situation(p, w, later).Some?
    ensures Situation(p, w, later).value ==
      Situation(p, w, now).value.(threshold := Situation(p, w, later).value.threshold,
                                  nextThreshold := Situation(p, w, later).value.nextThreshold)
  {}

  /** The wake-up is exact: the threshold holds until `nextThreshold`, differs from
      then on, and without one never changes again. */
  lemma WakeUpIsExact(p: Packet, w: Watch, now: Instant, later: Instant)
    requires Situation(p, w, now).Some? && now <= later
    ensures var c := Situation(p, w, now).value;
      Situation(p, w, later).Some?
      && (Situation(p, w, later).value.threshold == c.threshold <==> c.nextThreshold.None? || later < c.nextThreshold.value)
      && (c.nextThreshold.Some? ==> now < c.nextThreshold.value)
  {}

  /** Entering the 48-hour window is the one change no wake-up announces: a watch that
      is no candidate now becomes one later exactly when it has a deadline and the
      window has not opened yet. */
  lemma EnteringTheWindowIsUnannounced(p: Packet, w: Watch, now: Instant)
    requires Situation(p, w, now).None?
    ensures (exists later :: later > now && Situation(p, w, later).Some?) <==>
      DeadlineOf(p, w).Some? && now < DeadlineOf(p, w).value - UPCOMING_WITHIN
  {
    if DeadlineOf(p, w).Some? && now < DeadlineOf(p, w).value - UPCOMING_WITHIN {
      assert Situation(p, w, DeadlineOf(p, w).value - UPCOMING_WITHIN).Some?;
    }
  }
}
