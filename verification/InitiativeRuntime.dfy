/** The durable initiative scheduler: dispatches fenced by the settings revision, a
    serialized handler that must not repeat a notice, and wake-ups at thresholds. */
module InitiativeRuntime {
  import opened Options
  import opened InitiativeSituation

  datatype Settings = Settings(enabled: bool, revision: nat, prepareDrafts: bool, nextDue: Option<Instant>, marker: Option<nat>)

  datatype Decision = ASK | BATCH | SUPPRESS
  datatype Preparation = NOT_REQUESTED | CAPABILITY_NOT_GRANTED | CONFIRMATION_REQUIRED | POLICY_DENIED | DRAFTED
  datatype PolicyOutcome = ALLOW | DENY | OTHER_OUTCOME

  /** What the ports answer about one candidate: whether its sources are visible, the
      attention decision, the policy verdict, and whether the draft capability is
      granted when asked first and again when the notice is stored. */
  datatype Answers = Answers(
    visible: bool, decision: Decision, granted: bool, outcome: PolicyOutcome, hasPacket: bool, hasPolicyId: bool, stillGranted: bool)

  /** A stored notice, with the circumstances it was stored under. */
  datatype Receipt = Receipt(
    watch: Id, digest: Digest, threshold: Threshold, day: nat, decision: Decision, preparation: Preparation, hasDraft: bool,
    settled: bool, outcome: PolicyOutcome, granted: bool, revision: nat)

  datatype Job = Job(revision: nat, due: Option<Instant>, marker: nat)

  const MOST_WATCHES := 200

  // ---------------------------------------------------------------------
  // One candidate
  // ---------------------------------------------------------------------

  predicate SameNotice(r: Receipt, watch: Id, c: Candidate) {
    r.watch == watch && r.digest == c.digest && r.threshold == c.threshold
  }

  /** Asked before about this state and threshold, or noted today. */
  predicate Existing(rs: seq<Receipt>, watch: Id, c: Candidate, day: nat) {
    exists i :: 0 <= i < |rs| && SameNotice(rs[i], watch, c) && (rs[i].decision == ASK || rs[i].day == day)
  }

  function Prepared(settings: Settings, c: Candidate, a: Answers): Preparation {
    if !settings.prepareDrafts || a.decision != ASK then NOT_REQUESTED
    else if !a.granted then CAPABILITY_NOT_GRANTED
    else if a.outcome == DENY then POLICY_DENIED
    else if a.outcome != ALLOW || !c.settled then CONFIRMATION_REQUIRED
    else DRAFTED
  }

  predicate DraftAttempted(settings: Settings, c: Candidate, a: Answers) {
    Prepared(settings, c, a) == DRAFTED && a.hasPacket && a.hasPolicyId
  }

  /** The receipt stored when the settings then in force are `live`. */
  function ReceiptFor(settings: Settings, live: Settings, watch: Id, c: Candidate, a: Answers, day: nat): Receipt {
    var drafting := DraftAttempted(settings, c, a);
    var preparation :=
      if drafting && !live.prepareDrafts then NOT_REQUESTED
      else if drafting && !a.stillGranted then CAPABILITY_NOT_GRANTED
      else Prepared(settings, c, a);
    Receipt(watch, c.digest, c.threshold, day, a.decision, preparation, drafting && live.prepareDrafts && a.stillGranted,
            c.settled, a.outcome, a.stillGranted, settings.revision)
  }

  predicate Current(w: Watch, at: Instant) {
    w.enabled && (w.snoozedUntil.None? || w.snoozedUntil.value <= at)
  }

  function CurrentOf(ws: seq<Watch>, at: Instant): seq<Watch> {
    if ws == [] then []
    else if Current(ws[0], at) then [ws[0]] + CurrentOf(ws[1..], at)
    else CurrentOf(ws[1..], at)
  }

  function Evaluated(ws: seq<Watch>, at: Instant): seq<Watch> {
    var current := CurrentOf(ws, at);
    if |current| <= MOST_WATCHES then current else current[..MOST_WATCHES]
  }

  function Earlier(a: Option<Instant>, b: Option<Instant>): Option<Instant> {
    if a.None? then b else if b.None? then a else Some(if b.value < a.value then b.value else a.value)
  }

  function WakeUp(p: Packet, w: Watch, at: Instant): Option<Instant> {
    var c := Situation(p, w, at);
    if c.Some? then c.value.nextThreshold else None
  }

  // ---------------------------------------------------------------------
  // The system
  // ---------------------------------------------------------------------

  /** One handler run: the settings, packet and instant it read, the watches it has
      still to consider and those it has, and the earliest wake-up seen. */
  datatype Turn = Turn(settings: Settings, packet: Packet, at: Instant, day: nat, todo: seq<Watch>, done: seq<Watch>, next: Option<Instant>)

  /** The owner's lock admits one handler at a time. */
  datatype Handler = Idle | Running(turn: Turn) | Judged(turn: Turn, candidate: Candidate, answers: Answers)

  datatype State = State(settings: Settings, watches: seq<Watch>, receipts: seq<Receipt>, queue: set<Job>, handler: Handler)

  datatype Event =
    | EditSettings(edited: Settings)
    | EditWatches(watches: seq<Watch>)
    | Dispatch(seen: nat, at: Instant, marker: nat, nextRun: Instant)
    | Begin(revision: nat, packet: Packet, at: Instant, day: nat)
    | Consider(answers: Answers)
    | Store
    | Finish
    | Stop

  function Advance(t: Turn): Turn
    requires t.todo != []
  {
    t.(todo := t.todo[1..], done := t.done + [t.todo[0]])
  }

  predicate IsDue(s: Settings, at: Instant) {
    s.nextDue.Some? && s.nextDue.value <= at
  }

  /** Enqueues at most one job, and only for the revision the caller read. */
  function AfterDispatch(s: State, seen: nat, at: Instant, marker: nat, nextRun: Instant): State {
    if !s.settings.enabled || s.settings.revision != seen then s
    else if !IsDue(s.settings, at) && s.settings.marker == Some(marker) then s
    else s.(queue := s.queue + {Job(seen, if IsDue(s.settings, at) then s.settings.nextDue else None, marker)},
            settings := s.settings.(nextDue := Some(nextRun), marker := Some(marker)))
  }

  function AfterConsider(s: State, t: Turn, a: Answers): State
    requires t.todo != []
  {
    var w := t.todo[0];
    var c := Situation(t.packet, w, t.at);
    if c.None? then s.(handler := Running(Advance(t)))
    else
      var t' := t.(next := Earlier(t.next, c.value.nextThreshold));
      if Existing(s.receipts, w.id, c.value, t.day) || !a.visible then s.(handler := Running(Advance(t')))
      else s.(handler := Judged(t', c.value, a))
  }

  /** The settings and the watch, as they are now, still admit the notice. */
  predicate StillWanted(s: State, t: Turn, watch: Id) {
    && s.settings.enabled && s.settings.revision == t.settings.revision
    && exists i :: 0 <= i < |s.watches| && s.watches[i].id == watch && Current(s.watches[i], t.at)
  }

  /** A duplicate of the stored key fails the insert, and with it the run. */
  function AfterStore(s: State, t: Turn, c: Candidate, a: Answers): State
    requires t.todo != []
  {
    var w := t.todo[0];
    var r := ReceiptFor(t.settings, s.settings, w.id, c, a, t.day);
    if !StillWanted(s, t, w.id) then s.(handler := Running(Advance(t)))
    else if exists i :: 0 <= i < |s.receipts| && SameNotice(s.receipts[i], w.id, c) && s.receipts[i].day == t.day then s.(handler := Idle)
    else s.(receipts := s.receipts + [r], handler := Running(Advance(t)))
  }

  function AfterFinish(s: State, t: Turn): State {
    if t.next.Some? && s.settings.enabled && s.settings.revision == t.settings.revision
    then s.(settings := s.settings.(nextDue := Earlier(s.settings.nextDue, t.next)), handler := Idle)
    else s.(handler := Idle)
  }

  function After(s: State, e: Event): State {
    match e
    case EditSettings(edited) => s.(settings := edited.(revision := s.settings.revision + 1))
    case EditWatches(watches) => s.(watches := watches)
    case Dispatch(seen, at, marker, nextRun) => AfterDispatch(s, seen, at, marker, nextRun)
    case Begin(revision, packet, at, day) =>
      if s.handler != Idle || !s.settings.enabled || s.settings.revision != revision then s
      else s.(handler := Running(Turn(s.settings, packet, at, day, Evaluated(s.watches, at), [], None)))
    case Consider(a) => if s.handler.Running? && s.handler.turn.todo != [] then AfterConsider(s, s.handler.turn, a) else s
    case Store =>
      if s.handler.Judged? && s.handler.turn.todo != [] then AfterStore(s, s.handler.turn, s.handler.candidate, s.handler.answers) else s
    case Finish => if s.handler.Running? && s.handler.turn.todo == [] then AfterFinish(s, s.handler.turn) else s
    case Stop => s.(handler := Idle)
  }

  function Run(s: State, events: seq<Event>): State {
    if events == [] then s else After(Run(s, events[..|events| - 1]), events[|events| - 1])
  }

  // ---------------------------------------------------------------------
  // Notices
  // ---------------------------------------------------------------------

  predicate SameState(a: Receipt, b: Receipt) {
    a.watch == b.watch && a.digest == b.digest && a.threshold == b.threshold
  }

  /** For one watch, state and threshold: nothing follows an ASK, and no day twice. */
  predicate NoticesDistinct(rs: seq<Receipt>) {
    forall i, j :: 0 <= i < j < |rs| && SameState(rs[i], rs[j]) ==> rs[i].decision != ASK && rs[i].day != rs[j].day
  }

  /** A draft exists only beside a request to the owner, on settled support, with an
      allowing verdict and the capability granted when it was stored. */
  predicate DraftsGrounded(rs: seq<Receipt>) {
    forall i :: 0 <= i < |rs| && rs[i].hasDraft ==>
      rs[i].decision == ASK && rs[i].settled && rs[i].outcome == ALLOW && rs[i].granted && rs[i].preparation == DRAFTED
  }

  /** The earliest wake-up seen is no later than any considered watch's own. */
  predicate WakesInTime(t: Turn) {
    forall i :: 0 <= i < |t.done| && WakeUp(t.packet, t.done[i], t.at).Some? ==>
      t.next.Some? && t.next.value <= WakeUp(t.packet, t.done[i], t.at).value
  }

  predicate HandlerSound(s: State) {
    match s.handler
    case Idle => true
    case Running(t) => WakesInTime(t)
    case Judged(t, c, _) =>
      && WakesInTime(t) && t.todo != [] && Situation(t.packet, t.todo[0], t.at) == Some(c)
      && (c.nextThreshold.Some? ==> t.next.Some? && t.next.value <= c.nextThreshold.value)
      && !Existing(s.receipts, t.todo[0].id, c, t.day)
  }

  predicate Inv(s: State) {
    NoticesDistinct(s.receipts) && DraftsGrounded(s.receipts) && HandlerSound(s)
  }

  lemma AppendKeepsDistinct(rs: seq<Receipt>, settings: Settings, live: Settings, watch: Id, c: Candidate, a: Answers, day: nat)
    requires NoticesDistinct(rs) && DraftsGrounded(rs) && !Existing(rs, watch, c, day)
    ensures NoticesDistinct(rs + [ReceiptFor(settings, live, watch, c, a, day)])
    ensures DraftsGrounded(rs + [ReceiptFor(settings, live, watch, c, a, day)])
  {}

  lemma AdvanceKeepsWaking(t: Turn, next: Option<Instant>)
    requires t.todo != [] && WakesInTime(t)
    requires t.next.Some? ==> next.Some? && next.value <= t.next.value
    requires WakeUp(t.packet, t.todo[0], t.at).Some? ==>
      next.Some? && next.value <= WakeUp(t.packet, t.todo[0], t.at).value
    ensures WakesInTime(Advance(t.(next := next)))
  {}

  lemma ConsiderKeepsInv(s: State, t: Turn, a: Answers)
    requires Inv(s) && s.handler == Running(t) && t.todo != []
    ensures Inv(AfterConsider(s, t, a)) && AfterConsider(s, t, a).receipts == s.receipts
  {
    hide Situation, NoticesDistinct, DraftsGrounded;
    var c := Situation(t.packet, t.todo[0], t.at);
    var next := if c.None? then t.next else Earlier(t.next, c.value.nextThreshold);
    AdvanceKeepsWaking(t, next);
    assert WakesInTime(t.(next := next));
    hide WakesInTime;
  }

  lemma StoreKeepsInv(s: State, t: Turn, c: Candidate, a: Answers)
    requires Inv(s) && s.handler == Judged(t, c, a) && t.todo != []
    ensures Inv(AfterStore(s, t, c, a)) && s.receipts <= AfterStore(s, t, c, a).receipts
  {
    AppendKeepsDistinct(s.receipts, t.settings, s.settings, t.todo[0].id, c, a, t.day);
    AdvanceKeepsWaking(t, t.next);
    hide Situation, NoticesDistinct, DraftsGrounded, WakesInTime, ReceiptFor;
  }

  lemma StepKeepsInv(s: State, e: Event)
    requires Inv(s)
    ensures Inv(After(s, e)) && s.receipts <= After(s, e).receipts
  {
    hide NoticesDistinct, DraftsGrounded, Situation, Existing;
    match e
    case Consider(a) =>
      if s.handler.Running? && s.handler.turn.todo != [] { ConsiderKeepsInv(s, s.handler.turn, a); }
    case Store =>
      if s.handler.Judged? && s.handler.turn.todo != [] {
        StoreKeepsInv(s, s.handler.turn, s.handler.candidate, s.handler.answers);
      }
    case _ =>
  }

  lemma {:induction false} RunKeepsInv(s: State, events: seq<Event>)
    requires Inv(s)
    ensures Inv(Run(s, events)) && s.receipts <= Run(s, events).receipts
  {
    if events != [] {
      RunKeepsInv(s, events[..|events| - 1]);
      StepKeepsInv(Run(s, events[..|events| - 1]), events[|events| - 1]);
    }
  }

  function Initial(settings: Settings, watches: seq<Watch>): State {
    State(settings, watches, [], {}, Idle)
  }

  /** Over every interleaving of dispatches, handler runs, edits and snoozes: at most
      one ASK per watch, state and threshold, at most one notice of any kind per such
      triple and local day, and every draft grounded. */
  lemma NoticesNeverRepeat(settings: Settings, watches: seq<Watch>, events: seq<Event>)
    ensures var rs := Run(Initial(settings, watches), events).receipts;
      && NoticesDistinct(rs) && DraftsGrounded(rs)
      && forall i, j :: 0 <= i < j < |rs| && SameState(rs[i], rs[j]) ==> !(rs[i].decision == ASK && rs[j].decision == ASK)
  {
    RunKeepsInv(Initial(settings, watches), events);
  }

  function AsksAbout(rs: seq<Receipt>, watch: Id, digest: Digest, threshold: Threshold): set<nat> {
    set i: nat | i < |rs| && rs[i].watch == watch && rs[i].digest == digest && rs[i].threshold == threshold && rs[i].decision == ASK
  }

  function Asks(rs: seq<Receipt>, watch: Id, digest: Digest): set<nat> {
    set i: nat | i < |rs| && rs[i].watch == watch && rs[i].digest == digest && rs[i].decision == ASK
  }

  lemma OneAskPerThreshold(rs: seq<Receipt>, watch: Id, digest: Digest, threshold: Threshold)
    requires NoticesDistinct(rs)
    ensures |AsksAbout(rs, watch, digest, threshold)| <= 1
  {
    var asks := AsksAbout(rs, watch, digest, threshold);
    if asks != {} {
      var i :| i in asks;
      forall j | j in asks ensures j == i {
        assert SameState(rs[i], rs[j]) && SameState(rs[j], rs[i]);
      }
      assert asks == {i};
    }
  }

  lemma AsksByThreshold(rs: seq<Receipt>, watch: Id, digest: Digest)
    ensures Asks(rs, watch, digest) ==
      AsksAbout(rs, watch, digest, UPCOMING) + AsksAbout(rs, watch, digest, IMMINENT) + AsksAbout(rs, watch, digest, OVERDUE)
  {}

  lemma UnionOfThree(a: set<nat>, b: set<nat>, c: set<nat>)
    requires |a| <= 1 && |b| <= 1 && |c| <= 1
    ensures |a + b + c| <= 3
  {
    assert |a + b| <= |a| + |b|;
  }

  lemma ThreeAsksPerDigest(rs: seq<Receipt>, watch: Id, digest: Digest)
    requires NoticesDistinct(rs)
    ensures |Asks(rs, watch, digest)| <= 3
  {
    OneAskPerThreshold(rs, watch, digest, UPCOMING);
    OneAskPerThreshold(rs, watch, digest, IMMINENT);
    OneAskPerThreshold(rs, watch, digest, OVERDUE);
    AsksByThreshold(rs, watch, digest);
    UnionOfThree(AsksAbout(rs, watch, digest, UPCOMING), AsksAbout(rs, watch, digest, IMMINENT), AsksAbout(rs, watch, digest, OVERDUE));
  }

  /** The owner is asked at most three times about a state that does not change. */
  lemma ThreeAsksPerState(settings: Settings, watches: seq<Watch>, events: seq<Event>, watch: Id, digest: Digest)
    ensures |Asks(Run(Initial(settings, watches), events).receipts, watch, digest)| <= 3
  {
    NoticesNeverRepeat(settings, watches, events);
    ThreeAsksPerDigest(Run(Initial(settings, watches), events).receipts, watch, digest);
  }

  // ---------------------------------------------------------------------
  // Drafts
  // ---------------------------------------------------------------------

  /** What reading the context packet for the declared action comes to: a packet that
      carries the recorded verdict, a refusal, or another failure. A recorded verdict
      always has an id, and none of them is a denial. */
  datatype Reading = Issued(confirmationRequired: bool) | ReadRefused(recorded: bool) | ReadFailed

  datatype Verdict = Verdict(outcome: PolicyOutcome, hasPacket: bool, hasPolicyId: bool)

  /** `evaluateActionBasis`; any other failure ends the run. */
  function BasisVerdict(reading: Reading): (v: Option<Verdict>)
    ensures v.Some? && v.value.outcome == ALLOW ==> v.value.hasPacket && v.value.hasPolicyId
    ensures v.Some? && (!v.value.hasPacket || !v.value.hasPolicyId) ==> v.value.outcome == DENY
  {
    match reading
    case Issued(confirmationRequired) => Some(Verdict(if confirmationRequired then OTHER_OUTCOME else ALLOW, true, true))
    case ReadRefused(recorded) => Some(Verdict(DENY, false, recorded))
    case ReadFailed => None
  }

  /** The answer is one `evaluateActionBasis` can give. */
  ghost predicate FromBasis(a: Answers) {
    exists reading :: BasisVerdict(reading) == Some(Verdict(a.outcome, a.hasPacket, a.hasPolicyId))
  }

  /** Only an allowing answer with no packet or no policy decision, which
      `evaluateActionBasis` never gives, makes a preparation say DRAFTED with no draft. */
  lemma DraftedWithoutDraftExactly(settings: Settings, live: Settings, watch: Id, c: Candidate, a: Answers, day: nat)
    ensures var r := ReceiptFor(settings, live, watch, c, a, day);
      r.preparation == DRAFTED && !r.hasDraft <==>
        Prepared(settings, c, a) == DRAFTED && a.outcome == ALLOW && (!a.hasPacket || !a.hasPolicyId)
  {}

  predicate DraftedMeansDraft(rs: seq<Receipt>) {
    forall i :: 0 <= i < |rs| ==> (rs[i].preparation == DRAFTED <==> rs[i].hasDraft)
  }

  ghost predicate JudgedFromBasis(s: State) {
    s.handler.Judged? ==> FromBasis(s.handler.answers)
  }

  lemma {:induction false} DraftsFollowBasis(s: State, events: seq<Event>)
    requires DraftedMeansDraft(s.receipts) && JudgedFromBasis(s)
    requires forall i :: 0 <= i < |events| && events[i].Consider? ==> FromBasis(events[i].answers)
    ensures DraftedMeansDraft(Run(s, events).receipts) && JudgedFromBasis(Run(s, events))
  {
    if events != [] {
      var front, e := events[..|events| - 1], events[|events| - 1];
      DraftsFollowBasis(s, front);
      var now := Run(s, front);
      hide Situation, Existing, FromBasis, BasisVerdict, NoticesDistinct;
      if e.Store? && now.handler.Judged? && now.handler.turn.todo != [] {
        var t, c, a := now.handler.turn, now.handler.candidate, now.handler.answers;
        DraftOnlyOnContract(a);
        DraftedWithoutDraftExactly(t.settings, now.settings, t.todo[0].id, c, a, t.day);
      }
    }
  }

  lemma DraftOnlyOnContract(a: Answers)
    requires FromBasis(a)
    ensures a.outcome == ALLOW ==> a.hasPacket && a.hasPolicyId
  {}

  /** Over every run whose verdicts come from `evaluateActionBasis`, a stored notice
      says DRAFTED exactly when a draft was stored with it. */
  lemma DraftedExactlyWithDraft(settings: Settings, watches: seq<Watch>, events: seq<Event>)
    requires forall i :: 0 <= i < |events| && events[i].Consider? ==> FromBasis(events[i].answers)
    ensures DraftedMeansDraft(Run(Initial(settings, watches), events).receipts)
  {
    DraftsFollowBasis(Initial(settings, watches), events);
  }

  // ---------------------------------------------------------------------
  // Fences
  // ---------------------------------------------------------------------

  lemma {:induction false} RevisionsClimb(s: State, events: seq<Event>, n: nat)
    requires n <= |events|
    ensures Run(s, events[..n]).settings.revision <= Run(s, events).settings.revision
    ensures n < |events| && events[n].EditSettings? ==> Run(s, events[..n]).settings.revision < Run(s, events).settings.revision
    decreases |events|
  {
    if n == |events| {
      assert events[..n] == events;
    } else {
      var front := events[..|events| - 1];
      assert front[..n] == events[..n];
      RevisionsClimb(s, front, n);
      assert n == |events| - 1 ==> front == events[..n];
    }
  }

  /** Notice `i` was stored by event `n` of the run: settings were enabled then, at the
      revision its handler run was started for, and its watch enabled and not snoozed
      at the instant evaluated. */
  predicate StoredAt(s: State, events: seq<Event>, n: nat, i: nat) {
    n < |events| &&
    var was, next := Run(s, events[..n]), Run(s, events[..n + 1]);
    && was.handler.Judged? && was.handler.turn.todo != []
    && |was.receipts| == i < |next.receipts| && next.receipts[i].revision == was.handler.turn.settings.revision == was.settings.revision
    && was.settings.enabled
    && exists k :: 0 <= k < |was.watches| && was.watches[k].id == next.receipts[i].watch && Current(was.watches[k], was.handler.turn.at)
  }

  lemma StepStores(s: State, e: Event, i: nat)
    requires |s.receipts| <= i < |After(s, e).receipts|
    ensures i == |s.receipts| && StoredAt(s, [e], 0, i)
  {
    hide Situation, Existing, Prepared, Current;
    assert [e][..0] == [] && [e][..1] == [e];
  }

  /** Over every run: a notice is stored only through the fence. So nothing is stored
      while settings are disabled, and nothing is ever stored for an edited revision. */
  lemma {:induction false} NoticesAreFenced(s: State, events: seq<Event>, i: nat)
    requires |s.receipts| <= i < |Run(s, events).receipts|
    ensures exists n: nat :: StoredAt(s, events, n, i) && Run(s, events[..n + 1]).receipts[i] == Run(s, events).receipts[i]
  {
    var m := |events| - 1;
    var front := events[..m];
    hide After, Current;
    ReceiptsGrow(s, events, m);
    if i < |Run(s, front).receipts| {
      NoticesAreFenced(s, front, i);
      var n: nat :| StoredAt(s, front, n, i) && Run(s, front[..n + 1]).receipts[i] == Run(s, front).receipts[i];
      assert front[..n] == events[..n] && front[..n + 1] == events[..n + 1];
      assert StoredAt(s, events, n, i) && Run(s, events[..n + 1]).receipts[i] == Run(s, events).receipts[i];
    } else {
      StepStores(Run(s, front), events[m], i);
      assert [events[m]][..0] == [] && [events[m]][..1] == [events[m]] && events[..m + 1] == events;
      assert StoredAt(s, events, m, i);
    }
  }

  lemma {:induction false} ReceiptsGrow(s: State, events: seq<Event>, n: nat)
    requires n <= |events|
    ensures Run(s, events[..n]).receipts <= Run(s, events).receipts
    decreases |events|
  {
    if n == |events| {
      assert events[..n] == events;
    } else {
      var front := events[..|events| - 1];
      assert front[..n] == events[..n];
      ReceiptsGrow(s, front, n);
      hide Situation, Existing, ReceiptFor, Current;
    }
  }

  /** Event `n` enqueued the job: it was a dispatch that had read the revision then
      enabled, when a run was due or the input had changed, and no other job with it. */
  predicate QueuedAt(s: State, events: seq<Event>, n: nat, job: Job) {
    n < |events| && events[n].Dispatch? &&
    var was, d := Run(s, events[..n]), events[n];
    && was.settings.enabled && was.settings.revision == d.seen == job.revision
    && (IsDue(was.settings, d.at) || was.settings.marker != Some(d.marker))
    && job.marker == d.marker && job.due == (if IsDue(was.settings, d.at) then was.settings.nextDue else None)
    && Run(s, events[..n + 1]).queue == was.queue + {job}
  }

  /** Over every run: a job is enqueued only through the fence, one per dispatch. */
  lemma {:induction false} JobsAreFenced(s: State, events: seq<Event>, job: Job)
    requires job in Run(s, events).queue && job !in s.queue
    ensures exists n: nat :: QueuedAt(s, events, n, job)
  {
    var m := |events| - 1;
    var front := events[..m];
    hide Situation, Existing, ReceiptFor, Current;
    if job in Run(s, front).queue {
      JobsAreFenced(s, front, job);
      var n: nat :| QueuedAt(s, front, n, job);
      assert front[..n] == events[..n] && front[..n + 1] == events[..n + 1];
      assert QueuedAt(s, events, n, job);
    } else {
      assert events[..m + 1] == events;
      assert QueuedAt(s, events, m, job);
    }
  }

  /** A dispatch from settings in force, and any dispatches after it on the same input
      and before the next run, whatever each one read: only the first does anything. */
  lemma {:induction false} DispatchSettles(s: State, first: Event, repeats: seq<Event>)
    requires first.Dispatch? && s.settings.enabled && s.settings.revision == first.seen
    requires IsDue(s.settings, first.at) || s.settings.marker != Some(first.marker)
    requires forall i :: 0 <= i < |repeats| ==>
      repeats[i].Dispatch? && repeats[i].marker == first.marker && repeats[i].at < first.nextRun
    ensures Run(After(s, first), repeats) == After(s, first)
  {
    if repeats != [] { DispatchSettles(s, first, repeats[..|repeats| - 1]); }
  }

  /** Once settings are edited, a job for the revision before does nothing at any later
      time: it starts no run, and a run it had started stores no notice and moves no
      due time. */
  lemma StaleJobsDoNothing(s: State, events: seq<Event>, n: nat, revision: nat, packet: Packet, at: Instant, day: nat)
    requires n < |events| && events[n].EditSettings? && revision <= Run(s, events[..n]).settings.revision
    ensures var later := Run(s, events);
      && After(later, Begin(revision, packet, at, day)) == later
      && (later.handler.Judged? && later.handler.turn.settings.revision == revision ==> After(later, Store).receipts == later.receipts)
      && (later.handler.Running? && later.handler.turn.settings.revision == revision ==> After(later, Finish).settings == later.settings)
  {
    RevisionsClimb(s, events, n);
    hide Run, Situation, Existing, ReceiptFor, Current;
  }

  // ---------------------------------------------------------------------
  // Wake-ups
  // ---------------------------------------------------------------------

  /** The handler run that began as `t0` is still going, and has lost no watch. */
  predicate Continues(s: State, t0: Turn) {
    s.handler != Idle && s.handler.turn.settings == t0.settings && s.handler.turn.packet == t0.packet
    && s.handler.turn.at == t0.at && s.handler.turn.done + s.handler.turn.todo == t0.done + t0.todo
  }

  lemma StepContinues(s: State, e: Event, t0: Turn)
    requires Inv(s) && Continues(s, t0) && !e.Stop? && !e.Finish?
    ensures Continues(After(s, e), t0)
  {
    hide Situation, ReceiptFor, NoticesDistinct, DraftsGrounded, WakesInTime;
    var t := s.handler.turn;
    if t.todo != [] {
      assert Advance(t).done + Advance(t).todo == t.done + t.todo;
    }
  }

  lemma {:induction false} RunContinues(s: State, events: seq<Event>, t0: Turn)
    requires Inv(s) && Continues(s, t0)
    requires forall i :: 0 <= i < |events| ==> !events[i].Stop? && !events[i].Finish?
    ensures Inv(Run(s, events)) && Continues(Run(s, events), t0)
  {
    hide Inv, Continues;
    if events != [] {
      RunContinues(s, events[..|events| - 1], t0);
      StepContinues(Run(s, events[..|events| - 1]), events[|events| - 1], t0);
      StepKeepsInv(Run(s, events[..|events| - 1]), events[|events| - 1]);
    }
  }

  lemma FinishWakes(s: State, t0: Turn, w: Watch)
    requires Inv(s) && Continues(s, t0) && s.handler.Running? && s.handler.turn.todo == [] && w in t0.done + t0.todo
    requires s.settings.enabled && s.settings.revision == t0.settings.revision && WakeUp(t0.packet, w, t0.at).Some?
    ensures var s' := After(s, Finish);
      && s'.handler == Idle && s'.settings.nextDue.Some?
      && s'.settings.nextDue.value <= WakeUp(t0.packet, w, t0.at).value
      && (s.settings.nextDue.Some? ==> s'.settings.nextDue.value <= s.settings.nextDue.value)
  {
    hide Situation, NoticesDistinct, DraftsGrounded;
    assert s.handler.turn.done + s.handler.turn.todo == s.handler.turn.done;
  }

  /** Over every run from the start: when a handler run that nothing stops finishes at
      the revision it began with, still enabled, the next evaluation is due no later
      than the next threshold of any watch current when it began, up to the first 200;
      whatever was dispatched, edited or snoozed while it ran. */
  lemma WakeUpsAreSound(settings: Settings, watches: seq<Watch>, before: seq<Event>, packet: Packet, at: Instant, day: nat,
                        during: seq<Event>, w: Watch)
    requires forall i :: 0 <= i < |during| ==> !during[i].Stop? && !during[i].Finish?
    requires var start := Run(Initial(settings, watches), before);
      start.handler == Idle && start.settings.enabled && w in Evaluated(start.watches, at)
    requires var start := Run(Initial(settings, watches), before);
      var end := Run(After(start, Begin(start.settings.revision, packet, at, day)), during);
      && end.handler.Running? && end.handler.turn.todo == []
      && end.settings.enabled && end.settings.revision == start.settings.revision
    requires WakeUp(packet, w, at).Some?
    ensures var start := Run(Initial(settings, watches), before);
      var end := Run(After(start, Begin(start.settings.revision, packet, at, day)), during);
      var due := After(end, Finish).settings.nextDue;
      && due.Some? && due.value <= WakeUp(packet, w, at).value
      && (end.settings.nextDue.Some? ==> due.value <= end.settings.nextDue.value)
  {
    var start := Run(Initial(settings, watches), before);
    var begin := Begin(start.settings.revision, packet, at, day);
    var begun := After(start, begin);
    RunKeepsInv(Initial(settings, watches), before);
    StepKeepsInv(start, begin);
    hide Inv, Run, WakeUp, Evaluated;
    var t0 := begun.handler.turn;
    assert t0.done + t0.todo == Evaluated(start.watches, at);
    RunContinues(begun, during, t0);
    FinishWakes(Run(begun, during), t0, w);
  }

  // ---------------------------------------------------------------------
  // The handler as written, undisturbed
  // ---------------------------------------------------------------------

  function AfterWatch(rs: seq<Receipt>, settings: Settings, p: Packet, at: Instant, day: nat, w: Watch, a: Answers): seq<Receipt> {
    var c := Situation(p, w, at);
    if c.None? || Existing(rs, w.id, c.value, day) || !a.visible then rs
    else rs + [ReceiptFor(settings, settings, w.id, c.value, a, day)]
  }

  lemma AfterWatchKeeps(rs: seq<Receipt>, settings: Settings, p: Packet, at: Instant, day: nat, w: Watch, a: Answers)
    requires NoticesDistinct(rs) && DraftsGrounded(rs)
    ensures NoticesDistinct(AfterWatch(rs, settings, p, at, day, w, a)) && DraftsGrounded(AfterWatch(rs, settings, p, at, day, w, a))
  {
    var c := Situation(p, w, at);
    if c.Some? && !Existing(rs, w.id, c.value, day) {
      AppendKeepsDistinct(rs, settings, settings, w.id, c.value, a, day);
    }
  }

  function AfterWatches(rs: seq<Receipt>, settings: Settings, p: Packet, at: Instant, day: nat, ws: seq<Watch>, ask: Watch -> Answers): seq<Receipt> {
    if ws == [] then rs
    else AfterWatch(AfterWatches(rs, settings, p, at, day, ws[..|ws| - 1], ask), settings, p, at, day, ws[|ws| - 1], ask(ws[|ws| - 1]))
  }

  function WakeUps(p: Packet, ws: seq<Watch>, at: Instant): (xs: seq<Option<Instant>>)
    ensures |xs| == |ws| && forall i :: 0 <= i < |ws| ==> xs[i] == WakeUp(p, ws[i], at)
  {
    seq(|ws|, i requires 0 <= i < |ws| => WakeUp(p, ws[i], at))
  }

  function Earliest(xs: seq<Option<Instant>>): Option<Instant> {
    if xs == [] then None else Earlier(Earliest(xs[..|xs| - 1]), xs[|xs| - 1])
  }

  /** The least of those there are, and one of them. */
  lemma {:induction false} EarliestIsEarliest(xs: seq<Option<Instant>>)
    ensures forall i :: 0 <= i < |xs| && xs[i].Some? ==> Earliest(xs).Some? && Earliest(xs).value <= xs[i].value
    ensures Earliest(xs).Some? ==> Earliest(xs) in xs
  {
    if xs != [] {
      EarliestIsEarliest(xs[..|xs| - 1]);
      assert xs == xs[..|xs| - 1] + [xs[|xs| - 1]];
    }
  }

  class InitiativeStore {
    var settings: Settings
    var watches: seq<Watch>
    var receipts: seq<Receipt>

    constructor (settings: Settings, watches: seq<Watch>)
      ensures this.settings == settings && this.watches == watches && receipts == []
    {
      this.settings, this.watches, receipts := settings, watches, [];
    }

    /** `ask` stands for what the ports answer about a watch during this run. */
    method Handle(revision: nat, packet: Packet, at: Instant, day: nat, ask: Watch -> Answers)
      requires NoticesDistinct(receipts) && DraftsGrounded(receipts)
      modifies this
      ensures NoticesDistinct(receipts) && DraftsGrounded(receipts) && watches == old(watches)
      ensures var was := old(settings);
        if was.enabled && was.revision == revision then
          && receipts == AfterWatches(old(receipts), was, packet, at, day, Evaluated(watches, at), ask)
          && settings == was.(nextDue := Earlier(was.nextDue, Earliest(WakeUps(packet, Evaluated(watches, at), at))))
        else receipts == old(receipts) && settings == was
    {
      if !settings.enabled || settings.revision != revision {
        return;
      }
      var evaluated := Evaluated(watches, at);
      var nextThreshold: Option<Instant> := None;
      for i := 0 to |evaluated|
        invariant settings == old(settings) && watches == old(watches)
        invariant NoticesDistinct(receipts) && DraftsGrounded(receipts)
        invariant receipts == AfterWatches(old(receipts), settings, packet, at, day, evaluated[..i], ask)
        invariant nextThreshold == Earliest(WakeUps(packet, evaluated[..i], at))
      {
        assert evaluated[..i + 1][..i] == evaluated[..i];
        assert WakeUps(packet, evaluated[..i + 1], at)[..i] == WakeUps(packet, evaluated[..i], at);
        AfterWatchKeeps(receipts, settings, packet, at, day, evaluated[i], ask(evaluated[i]));
        nextThreshold := Consider(packet, at, day, evaluated[i], ask(evaluated[i]), nextThreshold);
      }
      assert evaluated[..|evaluated|] == evaluated;
      if nextThreshold.Some? {
        settings := settings.(nextDue := Earlier(settings.nextDue, nextThreshold));
      }
    }

    method Consider(packet: Packet, at: Instant, day: nat, w: Watch, answers: Answers, earliest: Option<Instant>)
      returns (nextThreshold: Option<Instant>)
      modifies this`receipts
      ensures receipts == AfterWatch(old(receipts), settings, packet, at, day, w, answers)
      ensures nextThreshold == Earlier(earliest, WakeUp(packet, w, at))
    {
      nextThreshold := earliest;
      var candidate := Situation(packet, w, at);
      if candidate.None? {
        return;
      }
      var c := candidate.value;
      if c.nextThreshold.Some? && (nextThreshold.None? || c.nextThreshold.value < nextThreshold.value) {
        nextThreshold := c.nextThreshold;
      }
      if Existing(receipts, w.id, c, day) {
        return;
      }
      if !answers.visible {
        return;
      }
      StoreNotice(settings, w, c, answers, day);
    }

    /** Prepared under the settings the run read, stored under those now in force. */
    method StoreNotice(read: Settings, w: Watch, c: Candidate, a: Answers, day: nat)
      modifies this`receipts
      ensures receipts == old(receipts) + [ReceiptFor(read, settings, w.id, c, a, day)]
    {
      var preparation := NOT_REQUESTED;
      if read.prepareDrafts && a.decision == ASK {
        if !a.granted {
          preparation := CAPABILITY_NOT_GRANTED;
        } else {
          preparation := if a.outcome == DENY then POLICY_DENIED
                         else if a.outcome != ALLOW || !c.settled then CONFIRMATION_REQUIRED
                         else DRAFTED;
        }
      }
      var hasDraft := false;
      if preparation == DRAFTED && a.hasPacket && a.hasPolicyId {
        if !settings.prepareDrafts {
          preparation := NOT_REQUESTED;
        } else if !a.stillGranted {
          preparation := CAPABILITY_NOT_GRANTED;
        } else {
          hasDraft := true;
        }
      }
      receipts := receipts + [Receipt(w.id, c.digest, c.threshold, day, a.decision, preparation, hasDraft,
                                      c.settled, a.outcome, a.stillGranted, read.revision)];
    }
  }
}
