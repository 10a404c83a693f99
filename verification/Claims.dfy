/** The wrapper's claim ledger: work-item leases held by sessions, an append-only
    audit of releases, and the boot sweep that frees items whose holder died. */
module Claims {
  import opened Options

  /** Surrogate identifiers; they are only ever compared. */
  type Id = nat

  /** What `Date.parse` makes of a stored instant. */
  datatype Instant = At(ms: int) | Unparseable

  datatype Session = Session(id: Id, isOpen: bool, expiresAt: Instant)
  datatype Holder = Holder(workItem: Id, session: Id, claimedAt: int, expiresAt: Instant)
  datatype WorkItem = WorkItem(id: Id, version: nat, holder: Option<Holder>)
  datatype Reason = HolderSessionNotLive | ReleasedByHolder
  datatype ReleaseRecord = ReleaseRecord(workItem: Id, session: Id, releasedAt: int, reason: Reason)
  datatype State = State(sessions: seq<Session>, items: seq<WorkItem>, releases: seq<ReleaseRecord>)

  const EMPTY := State([], [], [])
  const DEFAULT_CLAIM_LEASE_MS := 15 * 60 * 1000

  // ---------------------------------------------------------------------
  // Reads
  // ---------------------------------------------------------------------

  function FindSession(ss: seq<Session>, id: Id): Option<Session> {
    if ss == [] then None else if ss[0].id == id then Some(ss[0]) else FindSession(ss[1..], id)
  }

  /** Known, open, and inside its lease. */
  predicate IsLive(ss: seq<Session>, id: Id, now: int) {
    var found := FindSession(ss, id);
    found.Some? && found.value.isOpen && found.value.expiresAt.At? && found.value.expiresAt.ms > now
  }

  predicate HasItem(items: seq<WorkItem>, id: Id) {
    exists i :: 0 <= i < |items| && items[i].id == id
  }

  /** The stored item, or an unheld one at version 0. */
  function Find(items: seq<WorkItem>, id: Id): WorkItem {
    if items == [] then WorkItem(id, 0, None)
    else if items[0].id == id then items[0]
    else Find(items[1..], id)
  }

  // ---------------------------------------------------------------------
  // Writes
  // ---------------------------------------------------------------------

  function Replace(items: seq<WorkItem>, w: WorkItem): (r: seq<WorkItem>)
    ensures |r| == |items|
    ensures forall i :: 0 <= i < |items| ==> r[i] == if items[i].id == w.id then w else items[i]
  {
    seq(|items|, i requires 0 <= i < |items| => if items[i].id == w.id then w else items[i])
  }

  function Upsert(items: seq<WorkItem>, w: WorkItem): seq<WorkItem> {
    if HasItem(items, w.id) then Replace(items, w) else items + [w]
  }

  function ReplaceSession(ss: seq<Session>, session: Session): seq<Session> {
    if ss == [] then []
    else ReplaceSession(ss[..|ss| - 1], session) + [if ss[|ss| - 1].id == session.id then session else ss[|ss| - 1]]
  }

  function AfterPutSession(s: State, session: Session): State {
    s.(sessions := if FindSession(s.sessions, session.id).Some? then ReplaceSession(s.sessions, session)
                   else s.sessions + [session])
  }

  function AfterRelease(s: State, id: Id, reason: Reason, now: int): State {
    var current := Find(s.items, id);
    if current.holder.None? then s else
      s.(items := Upsert(s.items, WorkItem(id, current.version + 1, None)),
         releases := s.releases + [ReleaseRecord(id, current.holder.value.session, now, reason)])
  }

  /** The clock readings one `claim` takes: liveness check, release stamp, claim
      stamp and lease horizon. */
  datatype Ticks = Ticks(checked: int, released: int, claimed: int, horizon: int)

  predicate Refused(s: State, id: Id, checked: int) {
    var holder := Find(s.items, id).holder;
    holder.Some? && IsLive(s.sessions, holder.value.session, checked)
  }

  function AfterClaim(s: State, id: Id, session: Id, expiresAt: Option<Instant>, leaseMs: int, t: Ticks): State {
    if Refused(s, id, t.checked) then s else
      var freed := AfterRelease(s, id, HolderSessionNotLive, t.released);
      var horizon := if expiresAt.Some? then expiresAt.value else At(t.horizon + leaseMs);
      AfterTake(freed, Holder(id, session, t.claimed, horizon))
  }

  function AfterTake(s: State, holder: Holder): State {
    s.(items := Upsert(s.items, Taken(s.items, holder)))
  }

  function Taken(items: seq<WorkItem>, holder: Holder): WorkItem {
    WorkItem(holder.workItem, Find(items, holder.workItem).version + 1, Some(holder))
  }

  // ---------------------------------------------------------------------
  // The boot sweep, as one simultaneous change
  // ---------------------------------------------------------------------

  predicate IsDead(ss: seq<Session>, w: WorkItem, now: int) {
    w.holder.Some? && !IsLive(ss, w.holder.value.session, now)
  }

  function Cleared(ss: seq<Session>, w: WorkItem, now: int): WorkItem {
    if IsDead(ss, w, now) then WorkItem(w.id, w.version + 1, None) else w
  }

  function Sweep(ss: seq<Session>, items: seq<WorkItem>, now: int): (r: seq<WorkItem>)
    ensures |r| == |items| && forall i :: 0 <= i < |items| ==> r[i] == Cleared(ss, items[i], now)
  {
    seq(|items|, i requires 0 <= i < |items| => Cleared(ss, items[i], now))
  }

  function DeadReleases(ss: seq<Session>, items: seq<WorkItem>, now: int): seq<ReleaseRecord> {
    if items == [] then [] else
      var w, before := items[|items| - 1], DeadReleases(ss, items[..|items| - 1], now);
      if IsDead(ss, w, now) then before + [ReleaseRecord(w.id, w.holder.value.session, now, HolderSessionNotLive)] else before
  }

  /** The ids of the held items whose holder is dead, or is live, in store order. */
  function HeldIds(ss: seq<Session>, items: seq<WorkItem>, now: int, dead: bool): seq<Id> {
    if items == [] then [] else
      var w, before := items[|items| - 1], HeldIds(ss, items[..|items| - 1], now, dead);
      if w.holder.Some? && IsDead(ss, w, now) == dead then before + [w.id] else before
  }

  function AfterBoot(s: State, now: int): State {
    s.(items := Sweep(s.sessions, s.items, now),
       releases := s.releases + DeadReleases(s.sessions, s.items, now))
  }

  // ---------------------------------------------------------------------
  // What every run keeps
  // ---------------------------------------------------------------------

  function ReleaseCount(rs: seq<ReleaseRecord>, id: Id): nat {
    if rs == [] then 0 else ReleaseCount(rs[..|rs| - 1], id) + if rs[|rs| - 1].workItem == id then 1 else 0
  }

  predicate UniqueItems(items: seq<WorkItem>) {
    forall i, j :: 0 <= i < j < |items| ==> items[i].id != items[j].id
  }

  predicate UniqueSessions(ss: seq<Session>) {
    forall i, j :: 0 <= i < j < |ss| ==> ss[i].id != ss[j].id
  }

  /** Every claim and every release bumped the version once. */
  predicate Balanced(s: State, id: Id) {
    var w := Find(s.items, id);
    w.version == 2 * ReleaseCount(s.releases, id) + if w.holder.Some? then 1 else 0
  }

  /** A stored holder names the item it holds. */
  predicate HoldersNamed(items: seq<WorkItem>) {
    forall i :: 0 <= i < |items| && items[i].holder.Some? ==> items[i].holder.value.workItem == items[i].id
  }

  ghost predicate Valid(s: State) {
    && UniqueItems(s.items) && HoldersNamed(s.items)
    && UniqueSessions(s.sessions)
    && forall id :: Balanced(s, id)
  }

  lemma {:induction false} FindAt(items: seq<WorkItem>, i: nat)
    requires i < |items| && UniqueItems(items)
    ensures Find(items, items[i].id) == items[i]
  {
    if i > 0 {
      FindAt(items[1..], i - 1);
    }
  }

  lemma {:induction false} FindMissing(items: seq<WorkItem>, id: Id)
    requires !HasItem(items, id)
    ensures Find(items, id) == WorkItem(id, 0, None)
  {
    if items != [] {
      assert forall i :: 0 <= i < |items[1..]| ==> items[1..][i] == items[i + 1];
      FindMissing(items[1..], id);
    }
  }

  lemma UpsertShape(items: seq<WorkItem>, w: WorkItem)
    requires UniqueItems(items) && HoldersNamed(items)
    requires w.holder.Some? ==> w.holder.value.workItem == w.id
    ensures UniqueItems(Upsert(items, w)) && HoldersNamed(Upsert(items, w))
  {}

  lemma FindUpsert(items: seq<WorkItem>, w: WorkItem, id: Id)
    requires UniqueItems(items)
    ensures Find(Upsert(items, w), id) == if id == w.id then w else Find(items, id)
  {
    var r := Upsert(items, w);
    assert UniqueItems(r);
    if HasItem(items, id) {
      var i :| 0 <= i < |items| && items[i].id == id;
      FindAt(items, i);
      FindAt(r, i);
    } else if id == w.id {
      FindAt(r, |items|);
    } else {
      FindMissing(items, id);
      FindMissing(r, id);
    }
  }

  lemma CountAppend(rs: seq<ReleaseRecord>, r: ReleaseRecord, id: Id)
    ensures ReleaseCount(rs + [r], id) == ReleaseCount(rs, id) + if r.workItem == id then 1 else 0
  {
    assert (rs + [r])[..|rs|] == rs;
  }

  lemma ReleaseBalances(s: State, id: Id, reason: Reason, now: int, x: Id)
    requires UniqueItems(s.items) && Balanced(s, x)
    ensures Balanced(AfterRelease(s, id, reason, now), x)
  {
    var current := Find(s.items, id);
    if current.holder.Some? {
      FindUpsert(s.items, WorkItem(id, current.version + 1, None), x);
      CountAppend(s.releases, ReleaseRecord(id, current.holder.value.session, now, reason), x);
    }
  }

  lemma ReleaseKeepsValid(s: State, id: Id, reason: Reason, now: int)
    requires Valid(s)
    ensures Valid(AfterRelease(s, id, reason, now))
    ensures Find(AfterRelease(s, id, reason, now).items, id).holder.None?
  {
    var current := Find(s.items, id);
    UpsertShape(s.items, WorkItem(id, current.version + 1, None));
    FindUpsert(s.items, WorkItem(id, current.version + 1, None), id);
    forall x ensures Balanced(AfterRelease(s, id, reason, now), x) {
      ReleaseBalances(s, id, reason, now, x);
    }
  }

  /** Taking an unheld item. */
  lemma TakeKeepsValid(s: State, holder: Holder)
    requires Valid(s) && Find(s.items, holder.workItem).holder.None?
    ensures Valid(AfterTake(s, holder))
    ensures Find(AfterTake(s, holder).items, holder.workItem) == Taken(s.items, holder)
  {
    var w := Taken(s.items, holder);
    UpsertShape(s.items, w);
    FindUpsert(s.items, w, w.id);
    forall x ensures Balanced(AfterTake(s, holder), x) {
      assert Balanced(s, x);
      FindUpsert(s.items, w, x);
    }
  }

  lemma ClaimKeepsValid(s: State, id: Id, session: Id, expiresAt: Option<Instant>, leaseMs: int, t: Ticks)
    requires Valid(s)
    ensures Valid(AfterClaim(s, id, session, expiresAt, leaseMs, t))
  {
    if !Refused(s, id, t.checked) {
      var freed := AfterRelease(s, id, HolderSessionNotLive, t.released);
      var horizon := if expiresAt.Some? then expiresAt.value else At(t.horizon + leaseMs);
      ReleaseKeepsValid(s, id, HolderSessionNotLive, t.released);
      TakeKeepsValid(freed, Holder(id, session, t.claimed, horizon));
    }
  }

  lemma FindSessionExists(ss: seq<Session>, id: Id)
    ensures FindSession(ss, id).Some? <==> exists i :: 0 <= i < |ss| && ss[i].id == id
  {
    if ss != [] && ss[0].id != id {
      FindSessionExists(ss[1..], id);
      if i :| 0 <= i < |ss| && ss[i].id == id { assert ss[1..][i - 1].id == id; }
      if i :| 0 <= i < |ss[1..]| && ss[1..][i].id == id { assert ss[i + 1].id == id; }
    }
  }

  lemma {:induction false} ReplacedSessions(ss: seq<Session>, session: Session)
    ensures var r := ReplaceSession(ss, session);
      && |r| == |ss|
      && forall i :: 0 <= i < |ss| ==> r[i] == if ss[i].id == session.id then session else ss[i]
  {
    if ss != [] { ReplacedSessions(ss[..|ss| - 1], session); }
  }

  /** What one lookup finds depends on which entry carries the id first. */
  lemma {:induction false} FindSessionPointwise(a: seq<Session>, b: seq<Session>, id: Id)
    requires |a| == |b| && forall i :: 0 <= i < |a| ==> (a[i].id == id || b[i].id == id ==> a[i] == b[i])
    ensures FindSession(a, id) == FindSession(b, id)
  {
    if a != [] && a[0].id != id { FindSessionPointwise(a[1..], b[1..], id); }
  }

  lemma {:induction false} FindSessionAppended(ss: seq<Session>, session: Session, id: Id)
    ensures FindSession(ss + [session], id) ==
      if FindSession(ss, id).Some? then FindSession(ss, id) else if session.id == id then Some(session) else None
  {
    if ss != [] {
      assert (ss + [session])[1..] == ss[1..] + [session];
      FindSessionAppended(ss[1..], session, id);
    } else {
      assert (ss + [session])[1..] == [];
    }
  }

  lemma {:induction false} FindSessionIsStored(ss: seq<Session>, id: Id, session: Session)
    requires forall i :: 0 <= i < |ss| && ss[i].id == id ==> ss[i] == session
    ensures FindSession(ss, id).Some? ==> FindSession(ss, id) == Some(session)
  {
    if ss != [] && ss[0].id != id { FindSessionIsStored(ss[1..], id, session); }
  }

  /** Recording a session: it is found under its id, every other id reads as before. */
  lemma PutSessionReads(s: State, session: Session, id: Id)
    ensures FindSession(AfterPutSession(s, session).sessions, id) ==
      if id == session.id then Some(session) else FindSession(s.sessions, id)
  {
    var ss, r := s.sessions, ReplaceSession(s.sessions, session);
    ReplacedSessions(ss, session);
    if FindSession(ss, session.id).None? {
      FindSessionAppended(ss, session, id);
    } else if id != session.id {
      FindSessionPointwise(r, ss, id);
    } else {
      FindSessionExists(ss, id);
      var i :| 0 <= i < |ss| && ss[i].id == id;
      assert r[i].id == id;
      FindSessionExists(r, id);
      FindSessionIsStored(r, id, session);
    }
  }

  lemma PutSessionKeepsUnique(s: State, session: Session)
    requires UniqueSessions(s.sessions)
    ensures UniqueSessions(AfterPutSession(s, session).sessions)
  {
    ReplacedSessions(s.sessions, session);
    FindSessionExists(s.sessions, session.id);
  }

  lemma PutSessionKeepsValid(s: State, session: Session)
    requires Valid(s)
    ensures Valid(AfterPutSession(s, session))
    ensures AfterPutSession(s, session).items == s.items && AfterPutSession(s, session).releases == s.releases
  {
    var s' := AfterPutSession(s, session);
    PutSessionKeepsUnique(s, session);
    forall id ensures Balanced(s', id) { assert Balanced(s, id); }
  }

  // ---------------------------------------------------------------------
  // The boot sweep keeps the invariant and is idempotent
  // ---------------------------------------------------------------------

  /** The loop's state before item `n` of the snapshot `items`. */
  function SweptTo(s: State, now: int, n: nat): State
    requires n <= |s.items|
  {
    s.(items := Sweep(s.sessions, s.items[..n], now) + s.items[n..],
       releases := s.releases + DeadReleases(s.sessions, s.items[..n], now))
  }

  lemma UpsertMiddle(front: seq<WorkItem>, w: WorkItem, back: seq<WorkItem>, v: WorkItem)
    requires UniqueItems(front + [w] + back) && v.id == w.id
    ensures Find(front + [w] + back, w.id) == w
    ensures Upsert(front + [w] + back, v) == front + [v] + back
  {
    var items := front + [w] + back;
    assert items[|front|] == w;
    FindAt(items, |front|);
    assert HasItem(items, v.id);
    assert Replace(items, v) == front + [v] + back;
  }

  lemma SweepSplit(ss: seq<Session>, items: seq<WorkItem>, now: int, n: nat)
    requires n < |items|
    ensures items[..n + 1][..n] == items[..n]
    ensures Sweep(ss, items[..n], now) + items[n..] == Sweep(ss, items[..n], now) + [items[n]] + items[n + 1..]
    ensures Sweep(ss, items[..n + 1], now) + items[n + 1..] ==
            Sweep(ss, items[..n], now) + [Cleared(ss, items[n], now)] + items[n + 1..]
  {
    assert items[n..] == [items[n]] + items[n + 1..];
    assert Sweep(ss, items[..n + 1], now) == Sweep(ss, items[..n], now) + [Cleared(ss, items[n], now)];
  }

  /** One round of the loop: the item of the stale snapshot is still what the store
      holds, so releasing it by id clears exactly that item. */
  lemma SweepStep(s: State, now: int, n: nat)
    requires UniqueItems(s.items) && n < |s.items|
    ensures SweptTo(s, now, n + 1) ==
            if IsDead(s.sessions, s.items[n], now)
            then AfterRelease(SweptTo(s, now, n), s.items[n].id, HolderSessionNotLive, now)
            else SweptTo(s, now, n)
  {
    var front, w, back := Sweep(s.sessions, s.items[..n], now), s.items[n], s.items[n + 1..];
    SweepSplit(s.sessions, s.items, now, n);
    assert UniqueItems(front + [w] + back) by {
      var items := front + [w] + back;
      assert forall i :: 0 <= i < |items| ==> items[i].id == s.items[i].id;
    }
    UpsertMiddle(front, w, back, WorkItem(w.id, w.version + 1, None));
  }

  lemma HeldStep(ss: seq<Session>, items: seq<WorkItem>, now: int, dead: bool, n: nat)
    requires n < |items|
    ensures HeldIds(ss, items[..n + 1], now, dead) ==
            HeldIds(ss, items[..n], now, dead) +
            (if items[n].holder.Some? && IsDead(ss, items[n], now) == dead then [items[n].id] else [])
  {
    assert items[..n + 1][..n] == items[..n];
  }

  lemma SweepEnds(s: State, now: int)
    ensures SweptTo(s, now, 0) == s && SweptTo(s, now, |s.items|) == AfterBoot(s, now)
  {
    assert s.items[..|s.items|] == s.items && s.items[..0] == [] && s.items[0..] == s.items;
  }

  /** The loop itself: releases from the live store, one item of the snapshot at a time. */
  function SweptOneByOne(s: State, snapshot: seq<WorkItem>, now: int): State {
    if snapshot == [] then s else
      var before, w := SweptOneByOne(s, snapshot[..|snapshot| - 1], now), snapshot[|snapshot| - 1];
      if IsDead(before.sessions, w, now) then AfterRelease(before, w.id, HolderSessionNotLive, now) else before
  }

  lemma {:induction false} SweptSoFar(s: State, now: int, n: nat)
    requires UniqueItems(s.items) && n <= |s.items|
    ensures SweptOneByOne(s, s.items[..n], now) == SweptTo(s, now, n)
  {
    if n == 0 {
      SweepEnds(s, now);
    } else {
      SweptSoFar(s, now, n - 1);
      SweepStep(s, now, n - 1);
      assert s.items[..n][..n - 1] == s.items[..n - 1];
    }
  }

  /** Releasing item after item from a store that changes underneath the snapshot is
      one simultaneous sweep of the snapshot. */
  lemma LoopIsOneSweep(s: State, now: int)
    requires UniqueItems(s.items)
    ensures SweptOneByOne(s, s.items, now) == AfterBoot(s, now)
  {
    SweptSoFar(s, now, |s.items|);
    SweepEnds(s, now);
    assert s.items[..|s.items|] == s.items;
  }

  lemma {:induction false} SweptToValid(s: State, now: int, n: nat)
    requires Valid(s) && n <= |s.items|
    ensures Valid(SweptTo(s, now, n))
  {
    if n == 0 {
      SweepEnds(s, now);
    } else {
      SweptToValid(s, now, n - 1);
      SweepStep(s, now, n - 1);
      if IsDead(s.sessions, s.items[n - 1], now) {
        ReleaseKeepsValid(SweptTo(s, now, n - 1), s.items[n - 1].id, HolderSessionNotLive, now);
      }
    }
  }

  lemma BootKeepsValid(s: State, now: int)
    requires Valid(s)
    ensures Valid(AfterBoot(s, now))
  {
    SweptToValid(s, now, |s.items|);
    SweepEnds(s, now);
  }

  /** "Running boot twice in a row is safe": no dead holder is left to release. */
  lemma {:induction false} NothingDeadNothingReleased(ss: seq<Session>, items: seq<WorkItem>, now: int)
    requires forall i :: 0 <= i < |items| ==> !IsDead(ss, items[i], now)
    ensures DeadReleases(ss, items, now) == [] && HeldIds(ss, items, now, true) == [] && Sweep(ss, items, now) == items
  {
    if items != [] {
      NothingDeadNothingReleased(ss, items[..|items| - 1], now);
    }
  }

  lemma SecondBootChangesNothing(s: State, now: int)
    ensures AfterBoot(AfterBoot(s, now), now) == AfterBoot(s, now)
    ensures HeldIds(s.sessions, AfterBoot(s, now).items, now, true) == []
  {
    NothingDeadNothingReleased(s.sessions, AfterBoot(s, now).items, now);
  }

  /** Every held item is reported as released if its holder is dead and as retained
      if it is live; one release record per released id, in the same order. */
  lemma {:induction false} BootReportIsExact(ss: seq<Session>, items: seq<WorkItem>, now: int, dead: bool)
    ensures forall id :: id in HeldIds(ss, items, now, dead) <==>
            exists i :: 0 <= i < |items| && items[i].id == id && items[i].holder.Some? && IsDead(ss, items[i], now) == dead
    ensures |DeadReleases(ss, items, now)| == |HeldIds(ss, items, now, true)|
    ensures forall k :: 0 <= k < |DeadReleases(ss, items, now)| ==>
            && DeadReleases(ss, items, now)[k].workItem == HeldIds(ss, items, now, true)[k]
            && DeadReleases(ss, items, now)[k].reason == HolderSessionNotLive
  {
    if items != [] {
      var n := |items| - 1;
      var rest := items[..n];
      BootReportIsExact(ss, rest, now, dead);
      forall id ensures id in HeldIds(ss, items, now, dead) <==>
            exists i :: 0 <= i < |items| && items[i].id == id && items[i].holder.Some? && IsDead(ss, items[i], now) == dead
      {
        if i :| 0 <= i < |items| && items[i].id == id && items[i].holder.Some? && IsDead(ss, items[i], now) == dead {
          assert i < n ==> rest[i] == items[i];
        }
        if i :| 0 <= i < n && rest[i].id == id && rest[i].holder.Some? && IsDead(ss, rest[i], now) == dead {
          assert items[i] == rest[i];
        }
      }
    }
  }

  // ---------------------------------------------------------------------
  // Runs
  // ---------------------------------------------------------------------

  datatype Op =
    | PutSession(session: Session)
    | Claim(item: Id, holder: Id, expiresAt: Option<Instant>, ticks: Ticks)
    | ReleaseOp(item: Id, reason: Reason, now: int)
    | Boot(now: int)

  function Step(s: State, op: Op, leaseMs: int): State {
    match op
    case PutSession(session) => AfterPutSession(s, session)
    case Claim(item, holder, expiresAt, t) => AfterClaim(s, item, holder, expiresAt, leaseMs, t)
    case ReleaseOp(item, reason, now) => AfterRelease(s, item, reason, now)
    case Boot(now) => AfterBoot(s, now)
  }

  function Run(s: State, ops: seq<Op>, leaseMs: int): State {
    if ops == [] then s else Step(Run(s, ops[..|ops| - 1], leaseMs), ops[|ops| - 1], leaseMs)
  }

  lemma StepKeepsValid(s: State, op: Op, leaseMs: int)
    requires Valid(s)
    ensures Valid(Step(s, op, leaseMs))
    ensures s.releases <= Step(s, op, leaseMs).releases
  {
    match op
    case PutSession(session) => PutSessionKeepsValid(s, session);
    case Claim(item, holder, expiresAt, t) => ClaimKeepsValid(s, item, holder, expiresAt, leaseMs, t);
    case ReleaseOp(item, reason, now) => ReleaseKeepsValid(s, item, reason, now);
    case Boot(now) => BootKeepsValid(s, now);
  }

  /** Conservation over every run from the empty store: ids stay unique, and every
      version is twice the item's release records, plus one while it is held. */
  lemma {:induction false} RunConserves(ops: seq<Op>, leaseMs: int)
    ensures Valid(Run(EMPTY, ops, leaseMs))
  {
    if ops == [] {
      forall id ensures Balanced(EMPTY, id) {}
    } else {
      RunConserves(ops[..|ops| - 1], leaseMs);
      StepKeepsValid(Run(EMPTY, ops[..|ops| - 1], leaseMs), ops[|ops| - 1], leaseMs);
    }
  }

  /** Release records are only ever appended. */
  lemma {:induction false} ReleasesOnlyGrow(ops: seq<Op>, leaseMs: int, n: nat)
    requires n <= |ops|
    ensures Run(EMPTY, ops[..n], leaseMs).releases <= Run(EMPTY, ops, leaseMs).releases
    decreases |ops|
  {
    if n < |ops| {
      var before := ops[..|ops| - 1];
      assert before[..n] == ops[..n];
      ReleasesOnlyGrow(before, leaseMs, n);
      RunConserves(before, leaseMs);
      StepKeepsValid(Run(EMPTY, before, leaseMs), ops[|ops| - 1], leaseMs);
    } else {
      assert ops[..n] == ops;
    }
  }

  lemma BalancedParity(s: State, id: Id)
    requires Balanced(s, id)
    ensures Find(s.items, id).holder.Some? <==> Find(s.items, id).version % 2 == 1
  {
    var count := ReleaseCount(s.releases, id);
    assert (2 * count) % 2 == 0;
  }

  /** In any run, an item is held exactly when its version is odd. */
  lemma HeldIffOdd(ops: seq<Op>, leaseMs: int, id: Id)
    ensures var w := Find(Run(EMPTY, ops, leaseMs).items, id); w.holder.Some? <==> w.version % 2 == 1
  {
    RunConserves(ops, leaseMs);
    BalancedParity(Run(EMPTY, ops, leaseMs), id);
  }

  /** `claim` refuses exactly when the holder is live at the check, and then changes
      nothing; otherwise the caller holds the item, at the next version or, after
      taking over from a dead holder, two further with one audit record. */
  lemma ClaimOutcome(s: State, id: Id, session: Id, expiresAt: Option<Instant>, leaseMs: int, t: Ticks)
    requires Valid(s)
    ensures var s' := AfterClaim(s, id, session, expiresAt, leaseMs, t);
            var was, now := Find(s.items, id), Find(s'.items, id);
            if Refused(s, id, t.checked) then s' == s else
              && now.holder.Some? && now.holder.value.session == session && now.holder.value.claimedAt == t.claimed
              && now.version == was.version + (if was.holder.Some? then 2 else 1)
              && s'.releases == s.releases + (if was.holder.Some?
                   then [ReleaseRecord(id, was.holder.value.session, t.released, HolderSessionNotLive)] else [])
              && s'.sessions == s.sessions
              && forall other :: other != id ==> Find(s'.items, other) == Find(s.items, other)
  {
    if !Refused(s, id, t.checked) {
      var was := Find(s.items, id);
      var freed := AfterRelease(s, id, HolderSessionNotLive, t.released);
      var horizon := if expiresAt.Some? then expiresAt.value else At(t.horizon + leaseMs);
      var h := Holder(id, session, t.claimed, horizon);
      ReleaseKeepsValid(s, id, HolderSessionNotLive, t.released);
      FindUpsert(s.items, WorkItem(id, was.version + 1, None), id);
      TakeKeepsValid(freed, h);
      forall other | other != id ensures Find(AfterTake(freed, h).items, other) == Find(s.items, other) {
        FindUpsert(s.items, WorkItem(id, was.version + 1, None), other);
        FindUpsert(freed.items, Taken(freed.items, h), other);
      }
    }
  }

  // ---------------------------------------------------------------------
  // The store
  // ---------------------------------------------------------------------

  datatype Result<+T> = Ok(value: T) | Conflict(workItem: Id, holder: Id)

  class ClaimStore {
    var state: State
    const leaseMs: int

    constructor (initial: State, claimLeaseMs: Option<int>)
      ensures state == initial
      ensures leaseMs == if claimLeaseMs.Some? then claimLeaseMs.value else DEFAULT_CLAIM_LEASE_MS
    {
      state := initial;
      leaseMs := if claimLeaseMs.Some? then claimLeaseMs.value else DEFAULT_CLAIM_LEASE_MS;
    }

    method PutSession(session: Session)
      modifies this`state
      ensures state == Step(old(state), Op.PutSession(session), leaseMs)
      ensures FindSession(state.sessions, session.id) == Some(session)
      ensures forall id :: id != session.id ==> FindSession(state.sessions, id) == FindSession(old(state).sessions, id)
      ensures UniqueSessions(old(state).sessions) ==> UniqueSessions(state.sessions)
      ensures state.items == old(state).items && state.releases == old(state).releases
    {
      var sessions := state.sessions;
      var known := false;
      var replaced: seq<Session> := [];
      for i := 0 to |sessions|
        invariant known <==> exists j :: 0 <= j < i && sessions[j].id == session.id
        invariant replaced == ReplaceSession(sessions[..i], session)
      {
        assert sessions[..i + 1][..i] == sessions[..i];
        known := known || sessions[i].id == session.id;
        replaced := replaced + [if sessions[i].id == session.id then session else sessions[i]];
      }
      assert sessions[..|sessions|] == sessions;
      FindSessionExists(sessions, session.id);
      ghost var was := state;
      state := state.(sessions := if known then replaced else sessions + [session]);
      forall id ensures FindSession(state.sessions, id) ==
        if id == session.id then Some(session) else FindSession(was.sessions, id)
      {
        PutSessionReads(was, session, id);
      }
      if UniqueSessions(was.sessions) { PutSessionKeepsUnique(was, session); }
    }

    method Release(id: Id, reason: Reason, now: int) returns (w: WorkItem)
      modifies this`state
      ensures state == AfterRelease(old(state), id, reason, now)
      ensures w == if Find(old(state).items, id).holder.None? then Find(old(state).items, id)
                   else WorkItem(id, Find(old(state).items, id).version + 1, None)
    {
      var current := Find(state.items, id);
      if current.holder.None? {
        return current;
      }
      w := WorkItem(id, current.version + 1, None);
      var audit := ReleaseRecord(id, current.holder.value.session, now, reason);
      state := state.(items := Upsert(state.items, w), releases := state.releases + [audit]);
    }

    method Claim(id: Id, session: Id, expiresAt: Option<Instant>, t: Ticks) returns (r: Result<WorkItem>)
      requires UniqueItems(state.items)
      modifies this`state
      ensures state == Step(old(state), Op.Claim(id, session, expiresAt, t), leaseMs)
      ensures r.Conflict? <==> Refused(old(state), id, t.checked)
      ensures r.Ok? ==> r.value == Find(state.items, id)
    {
      var current := Find(state.items, id);
      if current.holder.Some? && IsLive(state.sessions, current.holder.value.session, t.checked) {
        return Conflict(id, current.holder.value.session);
      }
      ghost var was := state;
      if current.holder.Some? {
        var _ := Release(id, HolderSessionNotLive, t.released);
      }
      assert state == AfterRelease(was, id, HolderSessionNotLive, t.released);
      var horizon := if expiresAt.Some? then expiresAt.value else At(t.horizon + leaseMs);
      var taken := WorkItem(id, Find(state.items, id).version + 1, Some(Holder(id, session, t.claimed, horizon)));
      assert UniqueItems(state.items);
      FindUpsert(state.items, taken, id);
      state := state.(items := Upsert(state.items, taken));
      r := Ok(taken);
    }

    /** `bootWrapper`: walks a snapshot of the items while releasing from the live
        store, and still changes the store as one simultaneous sweep would. */
    method Boot(now: int) returns (released: seq<Id>, retained: seq<Id>)
      requires UniqueItems(state.items)
      modifies this`state
      ensures state == Step(old(state), Op.Boot(now), leaseMs)
      ensures released == HeldIds(old(state).sessions, old(state).items, now, true)
      ensures retained == HeldIds(old(state).sessions, old(state).items, now, false)
    {
      var snapshot := state.items;
      released, retained := [], [];
      ghost var was := state;
      SweepEnds(was, now);
      for n := 0 to |snapshot|
        invariant state == SweptTo(was, now, n)
        invariant released == HeldIds(was.sessions, snapshot[..n], now, true)
        invariant retained == HeldIds(was.sessions, snapshot[..n], now, false)
      {
        var item := snapshot[n];
        SweepStep(was, now, n);
        HeldStep(was.sessions, snapshot, now, true, n);
        HeldStep(was.sessions, snapshot, now, false, n);
        if item.holder.None? {
          continue;
        }
        assert state.sessions == was.sessions;
        if IsLive(state.sessions, item.holder.value.session, now) {
          retained := retained + [item.id];
          continue;
        }
        var _ := Release(item.id, HolderSessionNotLive, now);
        released := released + [item.id];
      }
      assert snapshot[..|snapshot|] == snapshot;
    }
  }
}
