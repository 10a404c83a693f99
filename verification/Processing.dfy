/** Crash-recoverable evidence processing of one source item: a stored status row
    advanced stage by stage, some stages atomic with their effect and others made
    safe to repeat by the processing key. */
module Processing {
  import opened Options
  import opened Text
  import opened Utf8
  import opened Canonicalization

  type Id = nat

  datatype Status = PENDING | EXTRACTED | CANONICALIZED | GOVERNED | SUCCEEDED | NEEDS_REVIEW

  function Rank(s: Status): nat {
    match s
    case PENDING => 0
    case EXTRACTED => 1
    case CANONICALIZED => 2
    case GOVERNED => 3
    case _ => 4
  }

  predicate IsTerminal(s: Status) {
    s == SUCCEEDED || s == NEEDS_REVIEW
  }

  /** The stored intent row. */
  datatype Row = Row(status: Status, run: Option<Id>, unresolved: nat, canonicalized: seq<Assertion>, transaction: Option<Id>)

  /** What one successful extraction stores under the processing key. */
  datatype Extraction = Extraction(run: Id, unknowns: nat)

  datatype Operation = AddSupport(proposition: Id, claim: Id) | AssessProvisional(proposition: Id, validFrom: Option<nat>)

  /** A belief transaction; its id is its place in the store. */
  datatype Transaction = Transaction(key: Text, operations: seq<Operation>, committed: bool)

  /** Everything durable: the row, the stored extraction, the canonicalizations
      applied so far, the belief transactions and the projection replays. */
  datatype Durable = Durable(
    row: Row, extraction: Option<Extraction>, applied: seq<Canonical>, transactions: seq<Transaction>, replays: nat)

  function ProposalOf(a: Assertion): seq<Operation> {
    [AddSupport(a.proposition, a.claim), AssessProvisional(a.proposition, a.validFrom)]
  }

  function OperationsFor(assertions: seq<Assertion>): seq<Operation> {
    if assertions == [] then []
    else OperationsFor(assertions[..|assertions| - 1]) + ProposalOf(assertions[|assertions| - 1])
  }

  function Find(ts: seq<Transaction>, key: Text): Option<Id> {
    if ts == [] then None
    else if Find(ts[..|ts| - 1], key).Some? then Find(ts[..|ts| - 1], key)
    else if ts[|ts| - 1].key == key then Some(|ts| - 1)
    else None
  }

  lemma {:induction false} FindFinds(ts: seq<Transaction>, key: Text)
    ensures Find(ts, key).Some? ==> Find(ts, key).value < |ts| && ts[Find(ts, key).value].key == key
    ensures Find(ts, key).None? ==> forall i :: 0 <= i < |ts| ==> ts[i].key != key
  {
    if ts != [] { FindFinds(ts[..|ts| - 1], key); }
  }

  // ---------------------------------------------------------------------
  // The durable stages
  // ---------------------------------------------------------------------

  /** Extraction keeps the first successful outcome under the key. */
  function Extract(d: Durable, outcome: Extraction): Durable {
    if d.extraction.Some? then d else d.(extraction := Some(outcome))
  }

  function MarkExtracted(d: Durable, e: Extraction): Durable {
    d.(row := d.row.(status := EXTRACTED, run := Some(e.run), unresolved := e.unknowns))
  }

  /** Claims, assertions and status in one transaction. */
  function ApplyCanonical(d: Durable, c: Canonical): Durable {
    d.(row := d.row.(status := CANONICALIZED, canonicalized := c.assertions, unresolved := d.row.unresolved + c.unresolved),
       applied := d.applied + [c])
  }

  /** Proposing finds what the key already names. */
  function Propose(d: Durable, key: Text, operations: seq<Operation>): Durable {
    if Find(d.transactions, key).Some? then d
    else d.(transactions := d.transactions + [Transaction(key, operations, false)])
  }

  function Commit(d: Durable, tx: Id): Durable
    requires tx < |d.transactions|
  {
    d.(transactions := d.transactions[tx := d.transactions[tx].(committed := true)])
  }

  function MarkGoverned(d: Durable, tx: Option<Id>): Durable {
    d.(row := d.row.(status := GOVERNED, transaction := tx))
  }

  /** Replays and the terminal status in one transaction. */
  function Project(d: Durable): Durable {
    d.(row := d.row.(status := if d.row.unresolved > 0 then NEEDS_REVIEW else SUCCEEDED), replays := d.replays + 1)
  }

  // ---------------------------------------------------------------------
  // What is durable at each status
  // ---------------------------------------------------------------------

  const FRESH_ROW := Row(PENDING, None, 0, [], None)

  /** The row a crash-free run ends with. */
  function CrashFree(e: Extraction, c: Canonical, tx: Option<Id>): Row {
    Row(if e.unknowns + c.unresolved > 0 then NEEDS_REVIEW else SUCCEEDED, Some(e.run), e.unknowns + c.unresolved, c.assertions, tx)
  }

  predicate OneTransaction(ts: seq<Transaction>, key: Text) {
    forall i, j :: 0 <= i < j < |ts| && ts[i].key == key ==> ts[j].key != key
  }

  /** Whatever transaction the key names carries the operations of what was
      canonicalized, and there is none to carry when nothing was. */
  predicate ProposalSound(ts: seq<Transaction>, key: Text, c: Canonical) {
    && OneTransaction(ts, key)
    && (Find(ts, key).Some? ==>
          && c.assertions != [] && Find(ts, key).value < |ts|
          && ts[Find(ts, key).value].operations == OperationsFor(c.assertions))
  }

  predicate CommittedAs(ts: seq<Transaction>, key: Text, c: Canonical, tx: Option<Id>) {
    && tx == Find(ts, key) && (tx.None? <==> c.assertions == [])
    && (tx.Some? ==> tx.value < |ts| && ts[tx.value].committed)
  }

  predicate Sound(d: Durable, key: Text) {
    match d.row.status
    case PENDING => d.row == FRESH_ROW && d.applied == [] && Find(d.transactions, key).None? && d.replays == 0
    case EXTRACTED =>
      && d.extraction.Some? && d.applied == [] && Find(d.transactions, key).None? && d.replays == 0
      && d.row == Row(EXTRACTED, Some(d.extraction.value.run), d.extraction.value.unknowns, [], None)
    case CANONICALIZED =>
      && d.extraction.Some? && |d.applied| == 1 && ProposalSound(d.transactions, key, d.applied[0]) && d.replays == 0
      && d.row == Row(CANONICALIZED, Some(d.extraction.value.run), d.extraction.value.unknowns + d.applied[0].unresolved,
                      d.applied[0].assertions, None)
    case GOVERNED =>
      && d.extraction.Some? && |d.applied| == 1 && ProposalSound(d.transactions, key, d.applied[0]) && d.replays == 0
      && CommittedAs(d.transactions, key, d.applied[0], d.row.transaction)
      && d.row == Row(GOVERNED, Some(d.extraction.value.run), d.extraction.value.unknowns + d.applied[0].unresolved,
                      d.applied[0].assertions, d.row.transaction)
    case _ => Finished(d, key)
  }

  /** The durable result of a crash-free run: canonicalization applied once, at most
      one transaction under the key and that one committed, one projection replay,
      and the row to match. */
  predicate Finished(d: Durable, key: Text) {
    && d.extraction.Some? && |d.applied| == 1 && ProposalSound(d.transactions, key, d.applied[0]) && d.replays == 1
    && CommittedAs(d.transactions, key, d.applied[0], d.row.transaction)
    && d.row == CrashFree(d.extraction.value, d.applied[0], d.row.transaction)
  }

  // ---------------------------------------------------------------------
  // Workers
  // ---------------------------------------------------------------------

  /** Where a worker stands inside one `handle`: what it has read and not yet acted
      on. `Idle` holds no lock. */
  datatype Worker =
    | Idle
    | Entered
    | Extracting(row: Row)
    | ExtractedAs(e: Extraction)
    | BeforeCanonical
    | Canonicalizing(row: Row)
    | BeforeGovern
    | Governing(row: Row)
    | ProposedAs(tx: Id, committed: bool)
    | Validated(tx: Id)
    | GovernedAs(transaction: Option<Id>)
    | BeforeProject
    | Projecting(row: Row)
    | Done

  /** Workers are numbered; `lock` is the session lock on the item, which the
      database frees when its holder dies. */
  datatype System = System(durable: Durable, lock: Option<nat>, workers: map<nat, Worker>)

  datatype Event =
    | Acquire(w: nat)
    | Advance(w: nat, outcome: Extraction, canonical: Canonical, committable: bool)
    | Stop(w: nat)
    | OtherTransaction(key: Text, operations: seq<Operation>)

  function At(s: System, w: nat): Worker {
    if w in s.workers then s.workers[w] else Idle
  }

  /** One durable transaction, or one step between two, of a worker that holds the
      lock; a validation that is not committable ends the attempt. */
  function Act(d: Durable, key: Text, at: Worker, outcome: Extraction, canonical: Canonical, committable: bool): (Durable, Worker) {
    match at
    case Idle => (d, Idle)
    case Entered => (d, if IsTerminal(d.row.status) then Done else Extracting(d.row))
    case Extracting(row) =>
      if row.status != PENDING then (d, BeforeCanonical)
      else (Extract(d, outcome), ExtractedAs(if d.extraction.Some? then d.extraction.value else outcome))
    case ExtractedAs(e) => (MarkExtracted(d, e), BeforeCanonical)
    case BeforeCanonical => (d, Canonicalizing(d.row))
    case Canonicalizing(row) => if row.status != EXTRACTED then (d, BeforeGovern) else (ApplyCanonical(d, canonical), BeforeGovern)
    case BeforeGovern => (d, Governing(d.row))
    case Governing(row) =>
      if row.status != CANONICALIZED then (d, BeforeProject)
      else if row.canonicalized == [] then (d, GovernedAs(None))
      else
        var d' := Propose(d, key, OperationsFor(row.canonicalized));
        var tx := Find(d'.transactions, key);
        if tx.None? || tx.value >= |d'.transactions| then (d', Idle)
        else (d', ProposedAs(tx.value, d'.transactions[tx.value].committed))
    case ProposedAs(tx, committed) => if committed || committable then (d, Validated(tx)) else (d, Idle)
    case Validated(tx) => if tx < |d.transactions| then (Commit(d, tx), GovernedAs(Some(tx))) else (d, Idle)
    case GovernedAs(transaction) => (MarkGoverned(d, transaction), BeforeProject)
    case BeforeProject => (d, Projecting(d.row))
    case Projecting(row) => if row.status != GOVERNED then (d, Done) else (Project(d), Done)
    case Done => (d, Idle)
  }

  /** Any worker may take a free lock; only its holder acts; a holder may stop at any
      point, by crash or by a failing checkpoint, and loses lock and memory. */
  function Next(s: System, key: Text, e: Event): System {
    match e
    case Acquire(w) => if s.lock.None? then s.(lock := Some(w), workers := s.workers[w := Entered]) else s
    case Advance(w, outcome, canonical, committable) =>
      if s.lock != Some(w) then s else
        var (d, at) := Act(s.durable, key, At(s, w), outcome, canonical, committable);
        System(d, if at.Idle? then None else s.lock, s.workers[w := at])
    case Stop(w) => System(s.durable, if s.lock == Some(w) then None else s.lock, s.workers[w := Idle])
    case OtherTransaction(k, operations) =>
      if k == key then s
      else s.(durable := s.durable.(transactions := s.durable.transactions + [Transaction(k, operations, true)]))
  }

  function Run(s: System, key: Text, events: seq<Event>): System {
    if events == [] then s else Next(Run(s, key, events[..|events| - 1]), key, events[|events| - 1])
  }

  function Start(others: seq<Transaction>): System {
    System(Durable(FRESH_ROW, None, [], others, 0), None, map[])
  }

  /** What a lock holder remembers is still so. */
  predicate Remembers(d: Durable, key: Text, at: Worker) {
    match at
    case Idle => true
    case Entered => true
    case Extracting(row) => row == d.row
    case ExtractedAs(e) => d.row.status == PENDING && d.extraction == Some(e)
    case BeforeCanonical => d.row.status != PENDING
    case Canonicalizing(row) => d.row.status != PENDING && row == d.row
    case BeforeGovern => Rank(d.row.status) >= 2
    case Governing(row) => Rank(d.row.status) >= 2 && row == d.row
    case ProposedAs(tx, _) => d.row.status == CANONICALIZED && Find(d.transactions, key) == Some(tx)
    case Validated(tx) => d.row.status == CANONICALIZED && Find(d.transactions, key) == Some(tx)
    case GovernedAs(transaction) =>
      d.row.status == CANONICALIZED && |d.applied| == 1 && CommittedAs(d.transactions, key, d.applied[0], transaction)
    case BeforeProject => Rank(d.row.status) >= 3
    case Projecting(row) => Rank(d.row.status) >= 3 && row == d.row
    case Done => IsTerminal(d.row.status)
  }

  ghost predicate Inv(s: System, key: Text) {
    && Sound(s.durable, key)
    && (forall w: nat :: At(s, w) != Idle ==> s.lock == Some(w))
    && (s.lock.Some? ==> Remembers(s.durable, key, At(s, s.lock.value)))
  }

  /** Nothing recorded is revised: the stored extraction stays, canonicalizations are
      only appended, the status never moves back, and a finished row is final. */
  predicate Forward(d: Durable, later: Durable) {
    && Rank(d.row.status) <= Rank(later.row.status)
    && (d.extraction.Some? ==> later.extraction == d.extraction)
    && d.applied <= later.applied
    && |d.transactions| <= |later.transactions|
    && (IsTerminal(d.row.status) ==> later.row == d.row && later.applied == d.applied && later.replays == d.replays)
  }

  lemma ProposeFinds(d: Durable, key: Text, operations: seq<Operation>)
    ensures var d' := Propose(d, key, operations);
      Find(d'.transactions, key) == Some(if Find(d.transactions, key).Some? then Find(d.transactions, key).value else |d.transactions|)
  {
    if Find(d.transactions, key).None? {
      assert Propose(d, key, operations).transactions[..|d.transactions|] == d.transactions;
    }
  }

  lemma {:induction false} FindIgnoresCommitted(ts: seq<Transaction>, us: seq<Transaction>, key: Text)
    requires |ts| == |us| && forall i :: 0 <= i < |ts| ==> us[i].key == ts[i].key
    ensures Find(us, key) == Find(ts, key)
  {
    if ts != [] { FindIgnoresCommitted(ts[..|ts| - 1], us[..|us| - 1], key); }
  }

  /** What a stage inside governance leaves alone. */
  predicate OnlyTransactions(d: Durable, d': Durable) {
    d' == d.(transactions := d'.transactions) && |d.transactions| <= |d'.transactions|
  }

  lemma ProposeKeepsSound(d: Durable, key: Text)
    requires Sound(d, key) && d.row.status == CANONICALIZED && d.row.canonicalized != []
    ensures var d' := Propose(d, key, OperationsFor(d.row.canonicalized));
      && Sound(d', key) && OnlyTransactions(d, d')
      && Find(d'.transactions, key).Some? && Find(d'.transactions, key).value < |d'.transactions|
  {
    ProposeFinds(d, key, OperationsFor(d.row.canonicalized));
    FindFinds(d.transactions, key);
  }

  lemma CommitKeepsSound(d: Durable, key: Text, tx: Id)
    requires Sound(d, key) && d.row.status == CANONICALIZED && Find(d.transactions, key) == Some(tx) && tx < |d.transactions|
    ensures Sound(Commit(d, tx), key) && CommittedAs(Commit(d, tx).transactions, key, d.applied[0], Some(tx))
    ensures OnlyTransactions(d, Commit(d, tx))
  {
    FindIgnoresCommitted(d.transactions, Commit(d, tx).transactions, key);
  }

  lemma GovernKeepsSound(d: Durable, key: Text, transaction: Option<Id>)
    requires Sound(d, key) && d.row.status == CANONICALIZED && CommittedAs(d.transactions, key, d.applied[0], transaction)
    ensures Sound(MarkGoverned(d, transaction), key)
  {}

  lemma CanonicalKeepsSound(d: Durable, key: Text, c: Canonical)
    requires Sound(d, key) && d.row.status == EXTRACTED
    ensures Sound(ApplyCanonical(d, c), key)
  {
    FindFinds(d.transactions, key);
  }

  lemma ProjectKeepsSound(d: Durable, key: Text)
    requires Sound(d, key) && d.row.status == GOVERNED
    ensures Sound(Project(d), key)
  {}

  /** The step leaves the stage sound, the worker's memory true and the past as it was. */
  predicate ActKept(d: Durable, key: Text, at: Worker, outcome: Extraction, canonical: Canonical, committable: bool) {
    var (d', at') := Act(d, key, at, outcome, canonical, committable);
    Sound(d', key) && Remembers(d', key, at') && Forward(d, d')
  }

  predicate IsEarly(at: Worker) {
    at.Idle? || at.Entered? || at.Extracting? || at.ExtractedAs? || at.BeforeCanonical? || at.Canonicalizing?
  }

  predicate IsGoverning(at: Worker) {
    at.BeforeGovern? || at.Governing? || at.ProposedAs? || at.Validated?
  }

  lemma EarlyActKeeps(d: Durable, key: Text, at: Worker, outcome: Extraction, canonical: Canonical, committable: bool)
    requires Sound(d, key) && Remembers(d, key, at) && IsEarly(at)
    ensures ActKept(d, key, at, outcome, canonical, committable)
  {
    if at.Canonicalizing? && at.row.status == EXTRACTED { CanonicalKeepsSound(d, key, canonical); }
  }

  lemma GoverningActKeeps(d: Durable, key: Text, at: Worker, outcome: Extraction, canonical: Canonical, committable: bool)
    requires Sound(d, key) && Remembers(d, key, at) && IsGoverning(at)
    ensures ActKept(d, key, at, outcome, canonical, committable)
  {
    if at.Governing? && at.row.status == CANONICALIZED && at.row.canonicalized != [] { ProposeKeepsSound(d, key); }
    if at.Validated? {
      FindFinds(d.transactions, key);
      CommitKeepsSound(d, key, at.tx);
    }
  }

  lemma LateActKeeps(d: Durable, key: Text, at: Worker, outcome: Extraction, canonical: Canonical, committable: bool)
    requires Sound(d, key) && Remembers(d, key, at) && !IsEarly(at) && !IsGoverning(at)
    ensures ActKept(d, key, at, outcome, canonical, committable)
  {
    if at.GovernedAs? { GovernKeepsSound(d, key, at.transaction); }
    if at.Projecting? && at.row.status == GOVERNED { ProjectKeepsSound(d, key); }
  }

  /** Every step of the lock holder keeps the stage sound and its own memory true. */
  lemma ActKeeps(d: Durable, key: Text, at: Worker, outcome: Extraction, canonical: Canonical, committable: bool)
    requires Sound(d, key) && Remembers(d, key, at)
    ensures ActKept(d, key, at, outcome, canonical, committable)
  {
    if IsEarly(at) {
      EarlyActKeeps(d, key, at, outcome, canonical, committable);
    } else if IsGoverning(at) {
      GoverningActKeeps(d, key, at, outcome, canonical, committable);
    } else {
      LateActKeeps(d, key, at, outcome, canonical, committable);
    }
  }

  lemma OtherKeeps(d: Durable, key: Text, at: Worker, t: Transaction)
    requires Sound(d, key) && Remembers(d, key, at) && t.key != key
    ensures var d' := d.(transactions := d.transactions + [t]); Sound(d', key) && Remembers(d', key, at) && Forward(d, d')
  {
    assert (d.transactions + [t])[..|d.transactions|] == d.transactions;
  }

  lemma NextKeeps(s: System, key: Text, e: Event)
    requires Inv(s, key)
    ensures Inv(Next(s, key, e), key) && Forward(s.durable, Next(s, key, e).durable)
  {
    match e
    case Acquire(w) =>
    case Advance(w, outcome, canonical, committable) =>
      if s.lock == Some(w) { ActKeeps(s.durable, key, At(s, w), outcome, canonical, committable); }
    case Stop(w) =>
    case OtherTransaction(k, operations) =>
      if k != key {
        OtherKeeps(s.durable, key, if s.lock.Some? then At(s, s.lock.value) else Idle, Transaction(k, operations, true));
      }
  }

  lemma ForwardTransitive(a: Durable, b: Durable, c: Durable)
    requires Forward(a, b) && Forward(b, c)
    ensures Forward(a, c)
  {}

  lemma {:induction false} RunKeeps(s: System, key: Text, events: seq<Event>)
    requires Inv(s, key)
    ensures Inv(Run(s, key, events), key) && Forward(s.durable, Run(s, key, events).durable)
  {
    if events != [] {
      var mid := Run(s, key, events[..|events| - 1]);
      RunKeeps(s, key, events[..|events| - 1]);
      NextKeeps(mid, key, events[|events| - 1]);
      ForwardTransitive(s.durable, mid.durable, Run(s, key, events).durable);
    }
  }

  lemma TerminalIsFinished(others: seq<Transaction>, key: Text, events: seq<Event>)
    requires forall i :: 0 <= i < |others| ==> others[i].key != key
    ensures var d := Run(Start(others), key, events).durable; IsTerminal(d.row.status) ==> Finished(d, key)
  {
    FindFinds(others, key);
    RunKeeps(Start(others), key, events);
  }

  /** The status never moves backwards, and a terminal row is never touched again. */
  lemma StatusNeverMovesBack(others: seq<Transaction>, key: Text, events: seq<Event>, more: seq<Event>)
    requires forall i :: 0 <= i < |others| ==> others[i].key != key
    ensures Forward(Run(Start(others), key, events).durable, Run(Run(Start(others), key, events), key, more).durable)
  {
    FindFinds(others, key);
    RunKeeps(Start(others), key, events);
    RunKeeps(Run(Start(others), key, events), key, more);
  }

  /** Over every run: a finished item asks for review exactly when its one stored
      extraction or its one canonicalization left something open. */
  lemma ReviewExactlyWhenUnresolved(others: seq<Transaction>, key: Text, events: seq<Event>)
    requires forall i :: 0 <= i < |others| ==> others[i].key != key
    ensures var d := Run(Start(others), key, events).durable;
      IsTerminal(d.row.status) ==>
        && d.extraction.Some? && |d.applied| == 1
        && d.row.unresolved == d.extraction.value.unknowns + d.applied[0].unresolved
        && (d.row.status == NEEDS_REVIEW <==> d.extraction.value.unknowns > 0 || d.applied[0].unresolved > 0)
  {
    TerminalIsFinished(others, key, events);
  }

  // ---------------------------------------------------------------------
  // Recovery
  // ---------------------------------------------------------------------

  /** How many steps a worker has left when nothing stops it. */
  function StepsLeft(at: Worker): nat {
    match at
    case Idle => 0
    case Done => 1
    case Projecting(_) => 2
    case BeforeProject => 3
    case GovernedAs(_) => 4
    case Validated(_) => 5
    case ProposedAs(_, _) => 6
    case Governing(_) => 7
    case BeforeGovern => 8
    case Canonicalizing(_) => 9
    case BeforeCanonical => 10
    case ExtractedAs(_) => 11
    case Extracting(_) => 12
    case Entered => 13
  }

  lemma UnstoppedActFinishes(d: Durable, key: Text, at: Worker, outcome: Extraction, canonical: Canonical)
    requires Sound(d, key) && Remembers(d, key, at) && at != Idle
    ensures var (d', at') := Act(d, key, at, outcome, canonical, true);
      StepsLeft(at') < StepsLeft(at) && (at' == Idle ==> IsTerminal(d'.row.status))
  {
    hide OneTransaction, OperationsFor;
    FindFinds(d.transactions, key);
    if at.Governing? {
      ProposeFinds(d, key, OperationsFor(at.row.canonicalized));
    }
    hide Find;
  }

  /** Steps taken one after another by the lock holder, none of them stopped. */
  function Unstopped(s: System, key: Text, w: nat, outcome: Extraction, canonical: Canonical, n: nat): System
    decreases n
  {
    if n == 0 then s
    else Unstopped(Next(s, key, Advance(w, outcome, canonical, true)), key, w, outcome, canonical, n - 1)
  }

  lemma {:induction false} UnstoppedReachesEnd(s: System, key: Text, w: nat, outcome: Extraction, canonical: Canonical, n: nat)
    requires Inv(s, key) && n >= StepsLeft(At(s, w))
    requires if At(s, w) == Idle then s.lock != Some(w) && IsTerminal(s.durable.row.status) else s.lock == Some(w)
    ensures var s' := Unstopped(s, key, w, outcome, canonical, n);
      Inv(s', key) && IsTerminal(s'.durable.row.status) && Forward(s.durable, s'.durable)
    decreases n
  {
    if n > 0 {
      var next := Next(s, key, Advance(w, outcome, canonical, true));
      NextKeeps(s, key, Advance(w, outcome, canonical, true));
      if At(s, w) != Idle {
        UnstoppedActFinishes(s.durable, key, At(s, w), outcome, canonical);
      }
      UnstoppedReachesEnd(next, key, w, outcome, canonical, n - 1);
      ForwardTransitive(s.durable, next.durable, Unstopped(next, key, w, outcome, canonical, n - 1).durable);
    }
  }

  /** From wherever earlier attempts left the item, one attempt that nothing stops
      finishes it, with the result of a crash-free run. */
  lemma AnyAttemptCanFinish(s: System, key: Text, w: nat, outcome: Extraction, canonical: Canonical)
    requires Inv(s, key) && s.lock.None?
    ensures var s' := Unstopped(Next(s, key, Acquire(w)), key, w, outcome, canonical, 13);
      Finished(s'.durable, key) && Forward(s.durable, s'.durable)
  {
    NextKeeps(s, key, Acquire(w));
    UnstoppedReachesEnd(Next(s, key, Acquire(w)), key, w, outcome, canonical, 13);
    ForwardTransitive(s.durable, Next(s, key, Acquire(w)).durable,
                      Unstopped(Next(s, key, Acquire(w)), key, w, outcome, canonical, 13).durable);
  }

  // ---------------------------------------------------------------------
  // Crash refinement
  // ---------------------------------------------------------------------

  /** The durable result of the attempt a worker makes on a fresh item, with nothing
      stopping it and nobody else writing. */
  function CrashFreeResult(before: seq<Transaction>, key: Text, w: nat, e: Extraction, c: Canonical): Durable {
    Unstopped(Next(Start(before), key, Acquire(w)), key, w, e, c, 13).durable
  }

  /** What that attempt has written so far is its own. */
  predicate IsOwn(d: Durable, key: Text, before: seq<Transaction>, e: Extraction, c: Canonical) {
    && (d.extraction.Some? ==> d.extraction.value == e)
    && (d.applied == [] || d.applied == [c])
    && (d.transactions == before
        || d.transactions == before + [Transaction(key, OperationsFor(c.assertions), false)]
        || d.transactions == before + [Transaction(key, OperationsFor(c.assertions), true)])
  }

  predicate Foreign(ts: seq<Transaction>, key: Text) {
    forall i :: 0 <= i < |ts| ==> ts[i].key != key
  }

  lemma FindPastForeign(before: seq<Transaction>, t: Transaction, key: Text)
    requires Foreign(before, key) && t.key == key
    ensures Find(before, key) == None && Find(before + [t], key) == Some(|before|)
  {
    FindFinds(before, key);
    assert (before + [t])[..|before|] == before;
  }

  lemma ProposeKeepsOwn(d: Durable, key: Text, before: seq<Transaction>, e: Extraction, c: Canonical)
    requires Foreign(before, key) && IsOwn(d, key, before, e, c)
    ensures IsOwn(Propose(d, key, OperationsFor(c.assertions)), key, before, e, c)
  {
    var ours := Transaction(key, OperationsFor(c.assertions), false);
    FindPastForeign(before, ours, key);
    FindPastForeign(before, ours.(committed := true), key);
    hide OperationsFor, Find;
  }

  lemma LastReplaced(before: seq<Transaction>, t: Transaction, u: Transaction)
    ensures (before + [t])[|before| := u] == before + [u]
  {}

  lemma CommitKeepsOwn(d: Durable, key: Text, tx: Id, before: seq<Transaction>, e: Extraction, c: Canonical)
    requires Foreign(before, key) && IsOwn(d, key, before, e, c) && Find(d.transactions, key) == Some(tx) && tx < |d.transactions|
    ensures IsOwn(Commit(d, tx), key, before, e, c)
  {
    var ours := Transaction(key, OperationsFor(c.assertions), false);
    var done := Transaction(key, OperationsFor(c.assertions), true);
    FindPastForeign(before, ours, key);
    FindPastForeign(before, done, key);
    LastReplaced(before, ours, done);
    LastReplaced(before, done, done);
    hide OperationsFor, Find, Foreign;
    assert d.transactions[tx].(committed := true) == done;
    assert Commit(d, tx).transactions == before + [done];
  }

  lemma ActKeepsOwn(d: Durable, key: Text, at: Worker, before: seq<Transaction>, e: Extraction, c: Canonical)
    requires Foreign(before, key) && Sound(d, key) && Remembers(d, key, at) && IsOwn(d, key, before, e, c)
    ensures IsOwn(Act(d, key, at, e, c, true).0, key, before, e, c)
  {
    hide OneTransaction, OperationsFor, Find, Foreign, CommittedAs;
    if at.Governing? && at.row.status == CANONICALIZED {
      ProposeKeepsOwn(d, key, before, e, c);
      assert at.row.canonicalized == c.assertions;
      hide Propose, IsOwn, Sound;
    } else if at.Validated? && at.tx < |d.transactions| {
      CommitKeepsOwn(d, key, at.tx, before, e, c);
      hide Commit, IsOwn, Sound;
    }
  }

  lemma {:induction false} UnstoppedKeepsOwn(s: System, key: Text, w: nat, before: seq<Transaction>, e: Extraction, c: Canonical, n: nat)
    requires Foreign(before, key) && Inv(s, key) && IsOwn(s.durable, key, before, e, c)
    ensures IsOwn(Unstopped(s, key, w, e, c, n).durable, key, before, e, c)
    decreases n
  {
    if n > 0 {
      var step := Advance(w, e, c, true);
      NextKeeps(s, key, step);
      if s.lock == Some(w) { ActKeepsOwn(s.durable, key, At(s, w), before, e, c); }
      hide Inv, IsOwn, Act, Sound;
      UnstoppedKeepsOwn(Next(s, key, step), key, w, before, e, c, n - 1);
    }
  }

  /** What a crash-free attempt leaves behind, in full. */
  lemma CrashFreeResultIs(before: seq<Transaction>, key: Text, w: nat, e: Extraction, c: Canonical)
    requires Foreign(before, key)
    ensures var tx := if c.assertions == [] then None else Some(|before|);
      CrashFreeResult(before, key, w, e, c) ==
        Durable(CrashFree(e, c, tx), Some(e), [c],
                before + if tx.None? then [] else [Transaction(key, OperationsFor(c.assertions), true)], 1)
  {
    FindFinds(before, key);
    var f := CrashFreeResult(before, key, w, e, c);
    AnyAttemptCanFinish(Start(before), key, w, e, c);
    NextKeeps(Start(before), key, Acquire(w));
    UnstoppedKeepsOwn(Next(Start(before), key, Acquire(w)), key, w, before, e, c, 13);
    var ours := Transaction(key, OperationsFor(c.assertions), false);
    FindPastForeign(before, ours, key);
    FindPastForeign(before, ours.(committed := true), key);
    assert Finished(f, key) && IsOwn(f, key, before, e, c);
    hide OneTransaction, OperationsFor, Find, Unstopped, Next;
  }

  /** The transactions there before the item's own. */
  function Before(d: Durable): seq<Transaction> {
    if d.row.transaction.Some? && d.row.transaction.value <= |d.transactions| then d.transactions[..d.row.transaction.value]
    else d.transactions
  }

  lemma FinishedTransactions(d: Durable, key: Text)
    requires Finished(d, key)
    ensures Foreign(Before(d), key)
    ensures d.applied[0].assertions == [] ==> d.row.transaction == None && Before(d) == d.transactions
    ensures d.applied[0].assertions != [] ==>
      && d.row.transaction == Some(|Before(d)|)
      && Before(d) + [Transaction(key, OperationsFor(d.applied[0].assertions), true)] <= d.transactions
      && Foreign(d.transactions[|Before(d)| + 1..], key)
  {
    FindFinds(d.transactions, key);
    hide OperationsFor;
  }

  /** Crash refinement: however workers compete, crash and fail at checkpoints, an item
      that reaches a terminal status has the durable result of an attempt that nothing
      stopped, started where the item's own transaction stands in the store and given
      the extraction and canonicalization that were stored: the same row, extraction,
      canonicalization and replay, the same transactions, and then only foreign ones. */
  lemma CrashRefinement(others: seq<Transaction>, key: Text, events: seq<Event>, w: nat)
    requires Foreign(others, key)
    requires IsTerminal(Run(Start(others), key, events).durable.row.status)
    ensures var d := Run(Start(others), key, events).durable;
      && d.extraction.Some? && d.applied != []
      && var f := CrashFreeResult(Before(d), key, w, d.extraction.value, d.applied[0]);
         && d == f.(transactions := d.transactions)
         && f.transactions <= d.transactions && Foreign(d.transactions[|f.transactions|..], key)
  {
    TerminalIsFinished(others, key, events);
    var d := Run(Start(others), key, events).durable;
    hide Run, OperationsFor, Find, OneTransaction;
    FinishedTransactions(d, key);
    CrashFreeResultIs(Before(d), key, w, d.extraction.value, d.applied[0]);
    hide Before, CrashFreeResult;
    assert d.applied == [d.applied[0]];
  }

  // ---------------------------------------------------------------------
  // The handler as written
  // ---------------------------------------------------------------------

  /** Places where an attempt may fail: between durable transactions, inside one
      that then rolls back, or in a checkpoint callback. */
  datatype Point =
    | DuringExtraction | AtExtracted | DuringCanonicalization | AtCanonicalized
    | DuringProposal | DuringCommit | AtGoverned | DuringProjection | AtProjected

  class Processor {
    var durable: Durable
    const key: Text

    constructor (key: Text, others: seq<Transaction>)
      requires forall i :: 0 <= i < |others| ==> others[i].key != key
      ensures this.key == key && durable == Start(others).durable && Sound(durable, key)
    {
      this.key := key;
      durable := Durable(FRESH_ROW, None, [], others, 0);
      new;
      FindFinds(others, key);
    }

    /** One claimed job, under the item's lock. An attempt that returns has finished
        the item; one that throws has moved it no further than a sound stage. */
    method Handle(outcome: Extraction, src: Source, claims: seq<Claim>, committable: bool, fails: set<Point>) returns (ok: bool)
      requires Sound(durable, key)
      modifies this`durable
      ensures Sound(durable, key) && Forward(old(durable), durable)
      ensures ok ==> Finished(durable, key)
      ensures committable && fails == {} ==> ok
      ensures IsTerminal(old(durable).row.status) ==> ok && durable == old(durable)
      ensures ok && !IsTerminal(old(durable).row.status) && old(durable).extraction.None? ==> durable.extraction == Some(outcome)
      ensures ok && old(durable).applied == [] ==>
        durable.applied == [Canonical(AllAssertions(src, claims), Unread(src) + |Open(src, claims)|)]
    {
      var row := durable.row;
      if row.status == SUCCEEDED || row.status == NEEDS_REVIEW {
        return true;
      }
      if row.status == PENDING {
        if DuringExtraction in fails {
          return false;
        }
        var result := if durable.extraction.Some? then durable.extraction.value else outcome;
        durable := durable.(extraction := Some(result));
        if AtExtracted in fails {
          return false;
        }
        durable := durable.(row := row.(status := EXTRACTED, run := Some(result.run), unresolved := result.unknowns));
      }
      ok := HandleExtracted(src, claims, committable, fails);
    }

    method HandleExtracted(src: Source, claims: seq<Claim>, committable: bool, fails: set<Point>) returns (ok: bool)
      requires Sound(durable, key) && 1 <= Rank(durable.row.status) <= 3
      modifies this`durable
      ensures Sound(durable, key) && Forward(old(durable), durable)
      ensures ok ==> Finished(durable, key)
      ensures committable && fails == {} ==> ok
      ensures ok && old(durable).applied == [] ==>
        durable.applied == [Canonical(AllAssertions(src, claims), Unread(src) + |Open(src, claims)|)]
    {
      if durable.row.status == EXTRACTED {
        if DuringCanonicalization in fails {
          return false;
        }
        CanonicalizeExtracted(src, claims);
        if AtCanonicalized in fails {
          return false;
        }
      }
      if durable.row.status == CANONICALIZED {
        var governed := Govern(committable, fails);
        if !governed {
          return false;
        }
      }
      if DuringProjection in fails {
        return false;
      }
      ProjectKeepsSound(durable, key);
      var row := durable.row;
      durable := durable.(
        row := row.(status := if row.unresolved > 0 then NEEDS_REVIEW else SUCCEEDED), replays := durable.replays + 1);
      ok := AtProjected !in fails;
    }

    method CanonicalizeExtracted(src: Source, claims: seq<Claim>)
      requires Sound(durable, key) && durable.row.status == EXTRACTED
      modifies this`durable
      ensures Sound(durable, key) && Forward(old(durable), durable) && durable.row.status == CANONICALIZED
      ensures durable.applied == [Canonical(AllAssertions(src, claims), Unread(src) + |Open(src, claims)|)]
    {
      var canonical := Canonicalize(src, claims);
      CanonicalKeepsSound(durable, key, canonical);
      var row := durable.row;
      durable := durable.(
        row := row.(status := CANONICALIZED, canonicalized := canonical.assertions, unresolved := row.unresolved + canonical.unresolved),
        applied := durable.applied + [canonical]);
    }

    /** Propose, validate, commit and mark: four transactions, made safe to repeat by
        the key and by the status written last. */
    method Govern(committable: bool, fails: set<Point>) returns (ok: bool)
      requires Sound(durable, key) && durable.row.status == CANONICALIZED
      modifies this`durable
      ensures Sound(durable, key) && Forward(old(durable), durable) && durable.applied == old(durable).applied
      ensures durable.row.status == if ok then GOVERNED else CANONICALIZED
      ensures committable && fails == {} ==> ok
    {
      var assertions := durable.row.canonicalized;
      var transaction: Option<Id> := None;
      if |assertions| > 0 {
        transaction := CommitProposal(assertions, committable, fails);
        if transaction.None? {
          return false;
        }
      }
      if AtGoverned in fails {
        return false;
      }
      GovernKeepsSound(durable, key, transaction);
      durable := durable.(row := durable.row.(status := GOVERNED, transaction := transaction));
      ok := true;
    }

    method CommitProposal(assertions: seq<Assertion>, committable: bool, fails: set<Point>) returns (transaction: Option<Id>)
      requires Sound(durable, key) && durable.row.status == CANONICALIZED && assertions == durable.row.canonicalized != []
      modifies this`durable
      ensures Sound(durable, key) && OnlyTransactions(old(durable), durable)
      ensures transaction.Some? ==> CommittedAs(durable.transactions, key, durable.applied[0], transaction)
      ensures committable && fails == {} ==> transaction.Some?
    {
      if DuringProposal in fails {
        return None;
      }
      var operations := OperationsOf(assertions);
      ProposeKeepsSound(durable, key);
      durable := Propose(durable, key, operations);
      var tx := Find(durable.transactions, key).value;
      if !durable.transactions[tx].committed && !committable {
        return None;
      }
      if DuringCommit in fails {
        return None;
      }
      CommitKeepsSound(durable, key, tx);
      durable := Commit(durable, tx);
      transaction := Some(tx);
    }

    static method OperationsOf(assertions: seq<Assertion>) returns (operations: seq<Operation>)
      ensures operations == OperationsFor(assertions)
    {
      operations := [];
      for i := 0 to |assertions|
        invariant operations == OperationsFor(assertions[..i])
      {
        assert assertions[..i + 1][..i] == assertions[..i];
        operations := operations + ProposalOf(assertions[i]);
      }
      assert assertions[..|assertions|] == assertions;
    }
  }

  // ---------------------------------------------------------------------
  // Keys and dispatch
  // ---------------------------------------------------------------------

  /** "processing-v1:". */
  const KEY_PREFIX: Text := [112, 114, 111, 99, 101, 115, 115, 105, 110, 103, 45, 118, 49, COLON]

  /** The prefix, the item, a colon and the release. */
  function KeyText(item: Text, release: Text): Text {
    KEY_PREFIX + item + [COLON] + release
  }

  /** SHA-256 is taken as one-to-one, so the key is the bytes it is taken of. */
  function ProcessingKey(item: Text, release: Text): Text {
    Utf8Of(KeyText(item, release))
  }

  function UpToColon(t: Text): Text {
    if t == [] || t[0] == COLON then [] else [t[0]] + UpToColon(t[1..])
  }

  lemma {:induction false} ColonEndsItem(item: Text, rest: Text)
    requires COLON !in item
    ensures UpToColon(item + [COLON] + rest) == item
  {
    if item != [] {
      assert (item + [COLON] + rest)[1..] == item[1..] + [COLON] + rest;
      ColonEndsItem(item[1..], rest);
    }
  }

  lemma KeyTextInjective(item: Text, release: Text, other: Text, otherRelease: Text)
    requires COLON !in item && COLON !in other
    ensures KeyText(item, release) == KeyText(other, otherRelease) <==> item == other && release == otherRelease
  {
    var k, l := KeyText(item, release), KeyText(other, otherRelease);
    assert k[14..] == item + [COLON] + release && l[14..] == other + [COLON] + otherRelease;
    ColonEndsItem(item, release);
    ColonEndsItem(other, otherRelease);
    assert k[14 + |item| + 1..] == release && l[14 + |other| + 1..] == otherRelease;
  }

  lemma {:induction false} RepairAddsNoColon(t: Text)
    requires COLON !in t
    ensures COLON !in Repaired(t)
  {
    if t != [] { RepairAddsNoColon(t[Width(t)..]); }
  }

  lemma KeyTextRepairs(item: Text, release: Text)
    ensures Repaired(KeyText(item, release)) == KeyText(Repaired(item), Repaired(release))
  {
    hide Repaired, IsPaired;
    NoSurrogatesPaired(KEY_PREFIX);
    NoSurrogatesPaired([COLON]);
    PairedIsRepaired(KEY_PREFIX);
    PairedIsRepaired([COLON]);
    RepairedConcat(KEY_PREFIX, item);
    RepairedConcat(KEY_PREFIX + item, [COLON]);
    RepairedConcat(KEY_PREFIX + item + [COLON], release);
  }

  /** Different items, or releases, never share a key: item ids hold no colon. Ids
      count as equal when they differ in unpaired surrogates only. */
  lemma ProcessingKeyInjective(item: Text, release: Text, other: Text, otherRelease: Text)
    requires COLON !in item && COLON !in other
    ensures ProcessingKey(item, release) == ProcessingKey(other, otherRelease) <==>
      Repaired(item) == Repaired(other) && Repaired(release) == Repaired(otherRelease)
  {
    Utf8IsOneToOne(KeyText(item, release), KeyText(other, otherRelease));
    KeyTextRepairs(item, release);
    KeyTextRepairs(other, otherRelease);
    RepairAddsNoColon(item);
    RepairAddsNoColon(other);
    KeyTextInjective(Repaired(item), Repaired(release), Repaired(other), Repaired(otherRelease));
  }

  /** The dispatch half of an intent: its item, the release it is pinned to, and its
      job, ids as their columns give them back. */
  datatype Intent = Intent(item: Text, release: Option<Text>, job: Option<Id>)

  /** Jobs on the durable queue, one per idempotency key. */
  type Queue = seq<Text>

  function FindJob(q: Queue, key: Text): Option<Id> {
    if q == [] then None
    else if FindJob(q[..|q| - 1], key).Some? then FindJob(q[..|q| - 1], key)
    else if q[|q| - 1] == key then Some(|q| - 1)
    else None
  }

  /** An item and a release as the caller writes them. */
  datatype Request = Request(item: Text, release: Text)

  datatype Dispatched = Dispatched(intent: Intent, queue: Queue, job: Option<Id>)

  /** One dispatch: refused (no job) when the stored release is not the one written,
      answered from the intent when it has a job, and otherwise enqueued under the
      processing key of the ids as written. */
  function Dispatch(i: Intent, q: Queue, r: Request): Dispatched {
    if i.release.Some? && i.release.value != r.release then Dispatched(i, q, None)
    else if i.job.Some? then Dispatched(i, q, i.job)
    else
      var key := ProcessingKey(r.item, r.release);
      var found := FindJob(q, key);
      var pinned := i.(release := Some(Lowered(r.release)));
      if found.Some? then Dispatched(pinned.(job := found), q, found)
      else Dispatched(pinned.(job := Some(|q|)), q + [key], Some(|q|))
  }

  /** The owner's intents and the queue they share. */
  datatype Intake = Intake(intents: seq<Intent>, queue: Queue)

  /** The intent of an item, found under any spelling of its id. */
  function FindIntent(intents: seq<Intent>, item: Text): Option<nat> {
    if intents == [] then None
    else if intents[|intents| - 1].item == Lowered(item) then Some(|intents| - 1)
    else FindIntent(intents[..|intents| - 1], item)
  }

  lemma {:induction false} FindIntentFinds(intents: seq<Intent>, item: Text)
    ensures var found := FindIntent(intents, item);
      found.Some? ==> found.value < |intents| && intents[found.value].item == Lowered(item)
    ensures FindIntent(intents, item).None? ==> forall n :: 0 <= n < |intents| ==> intents[n].item != Lowered(item)
  {
    if intents != [] { FindIntentFinds(intents[..|intents| - 1], item); }
  }

  /** An item without an intent is refused. */
  function AfterRequest(s: Intake, r: Request): Intake {
    var n := FindIntent(s.intents, r.item);
    if n.None? || n.value >= |s.intents| then s else
      var d := Dispatch(s.intents[n.value], s.queue, r);
      Intake(s.intents[n.value := d.intent], d.queue)
  }

  function AnswerTo(s: Intake, r: Request): Option<Id> {
    var n := FindIntent(s.intents, r.item);
    if n.None? || n.value >= |s.intents| then None else Dispatch(s.intents[n.value], s.queue, r).job
  }

  function AfterRequests(s: Intake, rs: seq<Request>): Intake {
    if rs == [] then s else AfterRequest(AfterRequests(s, rs[..|rs| - 1]), rs[|rs| - 1])
  }

  /** Item ids are distinct UUIDs as stored: lower case, no colon, no surrogate. */
  predicate ItemsDistinct(s: Intake) {
    && (forall n :: 0 <= n < |s.intents| ==>
          COLON !in s.intents[n].item && IsPaired(s.intents[n].item) && Lowered(s.intents[n].item) == s.intents[n].item)
    && forall n, m :: 0 <= n < m < |s.intents| ==> s.intents[n].item != s.intents[m].item
  }

  /** The key of some way of writing the item and the release. */
  predicate Spells(item: Text, release: Text, i: Intent, key: Text) {
    Lowered(item) == i.item && i.release == Some(Lowered(release)) && key == ProcessingKey(item, release)
  }

  /** A dispatched intent is pinned, and its job is the one under its key. */
  ghost predicate Pinned(i: Intent, q: Queue) {
    i.job.Some? ==> i.release.Some? && i.job.value < |q| && exists item, release :: Spells(item, release, i, q[i.job.value])
  }

  ghost predicate IntakeValid(s: Intake) {
    && ItemsDistinct(s)
    && (forall n :: 0 <= n < |s.intents| ==> Pinned(s.intents[n], s.queue))
    && forall i, j :: 0 <= i < j < |s.queue| ==> s.queue[i] != s.queue[j]
  }

  /** Jobs are only added, and an intent that has its job stays as it is. */
  predicate IntakeKept(s: Intake, later: Intake) {
    && s.queue <= later.queue && |s.intents| == |later.intents|
    && (forall n :: 0 <= n < |s.intents| ==> later.intents[n].item == s.intents[n].item)
    && (forall n :: 0 <= n < |s.intents| && s.intents[n].job.Some? ==> later.intents[n] == s.intents[n])
  }

  lemma {:induction false} FindJobFinds(q: Queue, key: Text)
    ensures FindJob(q, key).Some? ==> FindJob(q, key).value < |q| && q[FindJob(q, key).value] == key
    ensures FindJob(q, key).None? ==> key !in q
  {
    if q != [] {
      FindJobFinds(q[..|q| - 1], key);
      assert q == q[..|q| - 1] + [q[|q| - 1]];
    }
  }

  lemma PinnedStays(i: Intent, q: Queue, later: Queue)
    requires Pinned(i, q) && q <= later
    ensures Pinned(i, later)
  {
    hide Spells;
    if i.job.Some? {
      var item, release :| Spells(item, release, i, q[i.job.value]);
      assert later[i.job.value] == q[i.job.value];
    }
  }

  lemma DispatchPins(i: Intent, q: Queue, r: Request)
    requires Pinned(i, q) && Lowered(r.item) == i.item && forall a, b :: 0 <= a < b < |q| ==> q[a] != q[b]
    ensures var d := Dispatch(i, q, r);
      && Pinned(d.intent, d.queue) && q <= d.queue && d.intent.item == i.item && (i.job.Some? ==> d.intent == i)
      && (forall a, b :: 0 <= a < b < |d.queue| ==> d.queue[a] != d.queue[b])
      && (d.job.Some? ==> d.intent.job == d.job && (i.job.None? ==> d.intent.release == Some(Lowered(r.release))))
  {
    var d, key := Dispatch(i, q, r), ProcessingKey(r.item, r.release);
    FindJobFinds(q, key);
    hide ProcessingKey, FindJob;
    if i.job.None? && d.job.Some? {
      assert d.queue[d.job.value] == key;
      assert Spells(r.item, r.release, d.intent, key);
    }
  }

  lemma RequestKeeps(s: Intake, r: Request)
    requires IntakeValid(s)
    ensures IntakeValid(AfterRequest(s, r)) && IntakeKept(s, AfterRequest(s, r))
  {
    FindIntentFinds(s.intents, r.item);
    var n := FindIntent(s.intents, r.item);
    hide ProcessingKey, IsPaired, Spells, FindIntent;
    if n.Some? {
      DispatchPins(s.intents[n.value], s.queue, r);
      hide Dispatch;
      var s' := AfterRequest(s, r);
      forall m | 0 <= m < |s'.intents| ensures Pinned(s'.intents[m], s'.queue) {
        if m != n.value { PinnedStays(s.intents[m], s.queue, s'.queue); }
      }
      hide Pinned;
    }
  }

  lemma {:induction false} RequestsKeep(s: Intake, rs: seq<Request>)
    requires IntakeValid(s)
    ensures IntakeValid(AfterRequests(s, rs)) && IntakeKept(s, AfterRequests(s, rs))
  {
    hide IntakeValid, AfterRequest;
    if rs != [] {
      RequestsKeep(s, rs[..|rs| - 1]);
      RequestKeeps(AfterRequests(s, rs[..|rs| - 1]), rs[|rs| - 1]);
    }
  }

  lemma ColonFree(t: Text)
    requires COLON !in Lowered(t)
    ensures COLON !in t
  {
    forall i | 0 <= i < |t| ensures t[i] != COLON { assert Lowered(t)[i] == LowerHex(t[i]); }
  }

  lemma {:induction false} PairedHoweverSpelled(t: Text)
    requires IsPaired(Lowered(t))
    ensures IsPaired(t)
    decreases |t|
  {
    if t != [] {
      assert Width(Lowered(t)) == Width(t);
      assert Lowered(t)[Width(t)..] == Lowered(t[Width(t)..]);
      PairedHoweverSpelled(t[Width(t)..]);
    }
  }

  lemma SameKeySameItem(item: Text, release: Text, other: Text, otherRelease: Text)
    requires COLON !in Lowered(item) && COLON !in Lowered(other) && IsPaired(Lowered(item)) && IsPaired(Lowered(other))
    requires ProcessingKey(item, release) == ProcessingKey(other, otherRelease)
    ensures item == other
  {
    ColonFree(item);
    ColonFree(other);
    PairedHoweverSpelled(item);
    PairedHoweverSpelled(other);
    ProcessingKeyInjective(item, release, other, otherRelease);
    PairedIsRepaired(item);
    PairedIsRepaired(other);
  }

  lemma JobsAreSeparate(s: Intake, n: nat, m: nat)
    requires IntakeValid(s) && n < |s.intents| && m < |s.intents| && s.intents[n].job.Some? && s.intents[n].job == s.intents[m].job
    ensures n == m
  {
    hide ProcessingKey, IsPaired;
    var a, b := s.intents[n], s.intents[m];
    assert Pinned(a, s.queue) && Pinned(b, s.queue);
    var x, release :| Spells(x, release, a, s.queue[a.job.value]);
    var y, other :| Spells(y, other, b, s.queue[b.job.value]);
    SameKeySameItem(x, release, y, other);
  }

  lemma PinnedRelease(s: Intake, r: Request)
    requires IntakeValid(s) && AnswerTo(s, r).Some?
    ensures var n := FindIntent(s.intents, r.item);
      && n.Some? && n.value < |s.intents| && AfterRequest(s, r).intents[n.value].job == AnswerTo(s, r)
      && AfterRequest(s, r).intents[n.value].release == Some(Lowered(r.release))
  {
    FindIntentFinds(s.intents, r.item);
    var i := s.intents[FindIntent(s.intents, r.item).value];
    assert Pinned(i, s.queue);
    hide FindJob, ProcessingKey, FindIntent;
    if i.job.Some? {
      var item, release :| Spells(item, release, i, s.queue[i.job.value]);
      LoweredTwice(release);
    }
  }

  lemma SameIntent(s: Intake, later: Intake, item: Text, other: Text)
    requires ItemsDistinct(s) && ItemsDistinct(later) && IntakeKept(s, later) && Lowered(item) == Lowered(other)
    ensures FindIntent(s.intents, item) == FindIntent(later.intents, other)
  {
    FindIntentFinds(s.intents, item);
    FindIntentFinds(later.intents, other);
    hide IsPaired, FindIntent;
  }

  /** Over any dispatches of any of the owner's items, started from nothing queued: once
      an item is answered a job it keeps that job and its release. Asked again, under
      any spelling of the item, it answers that job exactly when the release is written
      as stored, in lower case, and is refused otherwise; asking changes nothing, and no
      other item shares the job. */
  lemma DispatchedOnce(s: Intake, rs: seq<Request>, r: Request, more: seq<Request>, again: Request, m: nat)
    requires ItemsDistinct(s) && s.queue == [] && forall n :: 0 <= n < |s.intents| ==> s.intents[n].job.None?
    requires AnswerTo(AfterRequests(s, rs), r).Some? && Lowered(again.item) == Lowered(r.item)
    ensures var mid := AfterRequests(s, rs);
      var later := AfterRequests(AfterRequest(mid, r), more);
      && AfterRequest(later, again) == later
      && AnswerTo(later, again) == (if again.release == Lowered(r.release) then AnswerTo(mid, r) else None)
      && (again == r ==> (AnswerTo(later, again).Some? <==> Lowered(r.release) == r.release))
      && (m < |later.intents| && later.intents[m].job == AnswerTo(mid, r) ==> FindIntent(later.intents, r.item) == Some(m))
  {
    var mid := AfterRequests(s, rs);
    var next := AfterRequest(mid, r);
    var later := AfterRequests(next, more);
    RequestsKeep(s, rs);
    RequestKeeps(mid, r);
    RequestsKeep(next, more);
    PinnedRelease(mid, r);
    SameIntent(mid, next, r.item, r.item);
    SameIntent(next, later, r.item, again.item);
    SameIntent(next, later, r.item, r.item);
    var n := FindIntent(mid.intents, r.item).value;
    assert later.intents[n] == next.intents[n];
    if m < |later.intents| && later.intents[m].job == AnswerTo(mid, r) { JobsAreSeparate(later, n, m); }
    hide AfterRequests, FindJob, ProcessingKey, FindIntent, IntakeValid, IsPaired;
    assert later.intents[n := later.intents[n]] == later.intents;
  }

  /** A deployment that writes its release in upper case is answered once; asked again
      about the same item it is refused. */
  lemma UpperCaseReleaseIsRefusedAgain(item: Text)
    requires COLON !in item && IsPaired(item) && Lowered(item) == item
    ensures var s, r := Intake([Intent(item, None, None)], []), Request(item, [0x41]);
      AnswerTo(s, r) == Some(0) && AnswerTo(AfterRequest(s, r), r) == None
  {
    var s, r := Intake([Intent(item, None, None)], []), Request(item, [0x41]);
    assert Lowered([0x41])[0] == 0x61;
    FindIntentFinds(s.intents, item);
    DispatchedOnce(s, [], r, [], r, 0);
  }
}
