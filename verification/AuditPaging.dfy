/** Keyset paging over the audit log: newest first, while every read appends an
    event of its own. */
module AuditPaging {
  import opened Options

  type Id = nat

  /** Milliseconds or finer; only compared. */
  type Instant = int

  datatype Event = Event(at: Instant, id: Id, actor: Id, purpose: Id, kind: Id, objects: set<(Id, Id)>)

  /** `createdAt|auditEventId`. */
  datatype Cursor = Cursor(at: Instant, id: Id)

  datatype Query = Query(
    about: Option<(Id, Id)>, actor: Option<Id>, purpose: Option<Id>, kind: Option<Id>, from: Option<Instant>, to: Option<Instant>)

  datatype Page = Page(events: seq<Event>, next: Option<Cursor>)

  const DEFAULT_LIMIT := 50

  function CursorOf(e: Event): Cursor {
    Cursor(e.at, e.id)
  }

  /** `(created_at,id) < (…)`. */
  predicate IsBefore(e: Event, c: Cursor) {
    e.at < c.at || (e.at == c.at && e.id < c.id)
  }

  predicate Older(a: Event, b: Event) {
    IsBefore(a, CursorOf(b))
  }

  predicate Selected(q: Query, e: Event) {
    && (q.about.Some? ==> q.about.value in e.objects)
    && (q.actor.Some? ==> e.actor == q.actor.value) && (q.purpose.Some? ==> e.purpose == q.purpose.value)
    && (q.kind.Some? ==> e.kind == q.kind.value)
    && (q.from.Some? ==> e.at >= q.from.value) && (q.to.Some? ==> e.at < q.to.value)
  }

  // ---------------------------------------------------------------------
  // Newest first
  // ---------------------------------------------------------------------

  function Insert(e: Event, xs: seq<Event>): seq<Event> {
    if xs == [] then [e] else if Older(xs[0], e) then [e] + xs else [xs[0]] + Insert(e, xs[1..])
  }

  /** `ORDER BY created_at DESC, id DESC`. */
  function Newest(log: seq<Event>): seq<Event> {
    if log == [] then [] else Insert(log[|log| - 1], Newest(log[..|log| - 1]))
  }

  predicate Descending(xs: seq<Event>) {
    forall i, j :: 0 <= i < j < |xs| ==> Older(xs[j], xs[i])
  }

  predicate IdsUnique(log: seq<Event>) {
    forall i, j :: 0 <= i < j < |log| ==> log[i].id != log[j].id
  }

  lemma {:induction false} InsertMembers(e: Event, xs: seq<Event>)
    ensures forall x :: x in Insert(e, xs) <==> x == e || x in xs
    ensures |Insert(e, xs)| == |xs| + 1
  {
    if xs != [] && !Older(xs[0], e) {
      InsertMembers(e, xs[1..]);
      assert xs == [xs[0]] + xs[1..];
    }
  }

  lemma {:induction false} InsertDescends(e: Event, xs: seq<Event>)
    requires Descending(xs) && forall i :: 0 <= i < |xs| ==> xs[i].id != e.id
    ensures Descending(Insert(e, xs))
  {
    if xs != [] && !Older(xs[0], e) {
      var rest := Insert(e, xs[1..]);
      InsertDescends(e, xs[1..]);
      InsertMembers(e, xs[1..]);
      forall j | 0 <= j < |rest| ensures Older(rest[j], xs[0]) {
        assert rest[j] in rest;
        if rest[j] != e {
          var k :| 0 <= k < |xs[1..]| && xs[1..][k] == rest[j];
          assert xs[k + 1] == rest[j];
        }
      }
    }
  }

  /** The listing is the log, strictly newest first. */
  lemma {:induction false} NewestIsTheLogInOrder(log: seq<Event>)
    requires IdsUnique(log)
    ensures Descending(Newest(log)) && |Newest(log)| == |log|
    ensures forall x :: x in Newest(log) <==> x in log
  {
    if log != [] {
      var front, last := log[..|log| - 1], log[|log| - 1];
      assert log == front + [last];
      NewestIsTheLogInOrder(front);
      InsertMembers(last, Newest(front));
      forall i | 0 <= i < |Newest(front)| ensures Newest(front)[i].id != last.id {
        assert Newest(front)[i] in front;
      }
      InsertDescends(last, Newest(front));
    }
  }

  /** Events appended later are newer than everything there was. */
  predicate AllNewer(log: seq<Event>, more: seq<Event>) {
    forall i, j :: 0 <= i < |log| && 0 <= j < |more| ==> Older(log[i], more[j])
  }

  lemma {:induction false} InsertIntoFront(e: Event, xs: seq<Event>, ys: seq<Event>)
    requires ys == [] || Older(ys[0], e)
    ensures Insert(e, xs + ys) == Insert(e, xs) + ys
  {
    if xs == [] {
      assert xs + ys == ys;
    } else {
      assert (xs + ys)[1..] == xs[1..] + ys;
      InsertIntoFront(e, xs[1..], ys);
    }
  }

  lemma {:induction false} NewerEventsComeFirst(log: seq<Event>, more: seq<Event>)
    requires IdsUnique(log) && AllNewer(log, more)
    ensures Newest(log + more) == Newest(more) + Newest(log)
  {
    if more == [] {
      assert log + more == log;
    } else {
      var front, last := more[..|more| - 1], more[|more| - 1];
      NewerEventsComeFirst(log, front);
      assert (log + more)[..|log + more| - 1] == log + front;
      NewestIsTheLogInOrder(log);
      assert Newest(log) != [] ==> Newest(log)[0] in log;
      InsertIntoFront(last, Newest(front), Newest(log));
    }
  }

  // ---------------------------------------------------------------------
  // Pages
  // ---------------------------------------------------------------------

  function Matching(xs: seq<Event>, q: Query, before: Option<Cursor>): seq<Event> {
    if xs == [] then []
    else if Selected(q, xs[0]) && (before.Some? ==> IsBefore(xs[0], before.value)) then [xs[0]] + Matching(xs[1..], q, before)
    else Matching(xs[1..], q, before)
  }

  /** One more row than the page holds tells whether there is another page. */
  function PageOf(log: seq<Event>, q: Query, before: Option<Cursor>, limit: nat): Page
    requires limit >= 1
  {
    var rows := Matching(Newest(log), q, before);
    if |rows| > limit then Page(rows[..limit], Some(CursorOf(rows[limit - 1]))) else Page(rows, None)
  }

  lemma {:induction false} MatchingAppend(xs: seq<Event>, ys: seq<Event>, q: Query, before: Option<Cursor>)
    ensures Matching(xs + ys, q, before) == Matching(xs, q, before) + Matching(ys, q, before)
  {
    if xs == [] {
      assert xs + ys == ys;
    } else {
      assert (xs + ys)[1..] == xs[1..] + ys;
      MatchingAppend(xs[1..], ys, q, before);
    }
  }

  lemma {:induction false} NoneMatching(xs: seq<Event>, q: Query, before: Cursor)
    requires forall i :: 0 <= i < |xs| ==> !IsBefore(xs[i], before)
    ensures Matching(xs, q, Some(before)) == []
  {
    if xs != [] { NoneMatching(xs[1..], q, before); }
  }

  lemma {:induction false} AllMatching(xs: seq<Event>, q: Query, before: Cursor)
    requires forall i :: 0 <= i < |xs| ==> IsBefore(xs[i], before)
    ensures Matching(xs, q, Some(before)) == Matching(xs, q, None)
  {
    if xs != [] { AllMatching(xs[1..], q, before); }
  }

  lemma {:induction false} MatchingIsMatching(xs: seq<Event>, q: Query, before: Option<Cursor>, x: Event)
    ensures x in Matching(xs, q, before) <==> x in xs && Selected(q, x) && (before.Some? ==> IsBefore(x, before.value))
  {
    if xs != [] {
      assert xs == [xs[0]] + xs[1..];
      MatchingIsMatching(xs[1..], q, before, x);
    }
  }

  /** A cursor taken from a listing continues it right after that row. */
  lemma {:induction false} CursorContinues(xs: seq<Event>, q: Query, m: nat)
    requires Descending(xs) && 0 < m <= |Matching(xs, q, None)|
    ensures var rows := Matching(xs, q, None); Matching(xs, q, Some(CursorOf(rows[m - 1]))) == rows[m..]
  {
    var rows, rest := Matching(xs, q, None), Matching(xs[1..], q, None);
    if Selected(q, xs[0]) && m == 1 {
      AllMatching(xs[1..], q, CursorOf(xs[0]));
    } else {
      var n := if Selected(q, xs[0]) then m - 1 else m;
      assert rows[m - 1] == rest[n - 1] && rows[m..] == rest[n..];
      MatchingIsMatching(xs[1..], q, None, rest[n - 1]);
      var k :| 0 <= k < |xs[1..]| && xs[1..][k] == rest[n - 1];
      assert Older(xs[k + 1], xs[0]);
      CursorContinues(xs[1..], q, n);
    }
  }

  /** And still does after newer events arrive. */
  lemma CursorIgnoresNewerEvents(log: seq<Event>, more: seq<Event>, q: Query, m: nat)
    requires IdsUnique(log) && AllNewer(log, more) && 0 < m <= |Matching(Newest(log), q, None)|
    ensures var rows := Matching(Newest(log), q, None);
      Matching(Newest(log + more), q, Some(CursorOf(rows[m - 1]))) == rows[m..]
  {
    var rows := Matching(Newest(log), q, None);
    var cursor := CursorOf(rows[m - 1]);
    NewestIsTheLogInOrder(log);
    NewerEventsComeFirst(log, more);
    MatchingAppend(Newest(more), Newest(log), q, Some(cursor));
    MatchingIsMatching(Newest(log), q, None, rows[m - 1]);
    assert rows[m - 1] in log;
    forall i | 0 <= i < |Newest(more)| ensures !IsBefore(Newest(more)[i], cursor) {
      NewestMembers(more);
      assert Newest(more)[i] in more;
    }
    NoneMatching(Newest(more), q, cursor);
    CursorContinues(Newest(log), q, m);
  }

  lemma {:induction false} NewestMembers(log: seq<Event>)
    ensures forall x :: x in Newest(log) <==> x in log
  {
    if log != [] {
      assert log == log[..|log| - 1] + [log[|log| - 1]];
      NewestMembers(log[..|log| - 1]);
      InsertMembers(log[|log| - 1], Newest(log[..|log| - 1]));
    }
  }

  lemma {:induction false} MatchingDescends(xs: seq<Event>, q: Query, before: Option<Cursor>)
    requires Descending(xs)
    ensures Descending(Matching(xs, q, before)) && |Matching(xs, q, before)| <= |xs|
  {
    if xs != [] {
      var rest := Matching(xs[1..], q, before);
      MatchingDescends(xs[1..], q, before);
      forall j | 0 <= j < |rest| ensures Older(rest[j], xs[0]) {
        MatchingIsMatching(xs[1..], q, before, rest[j]);
        var k :| 0 <= k < |xs[1..]| && xs[1..][k] == rest[j];
        assert xs[k + 1] == rest[j];
      }
    }
  }

  lemma FirstOfDescending(rows: seq<Event>, n: nat, x: Event)
    requires Descending(rows) && 0 < n <= |rows|
    ensures x in rows[..n] <==> x in rows && !IsBefore(x, CursorOf(rows[n - 1]))
  {
    var c := CursorOf(rows[n - 1]);
    forall j | 0 <= j < n ensures !IsBefore(rows[j], c) {
      if j < n - 1 { assert Older(rows[n - 1], rows[j]); }
    }
    forall j | n <= j < |rows| ensures IsBefore(rows[j], c) {
      assert Older(rows[j], rows[n - 1]);
    }
    if x in rows && !IsBefore(x, c) {
      var i :| 0 <= i < |rows| && rows[i] == x;
      assert rows[..n][i] == x;
    }
  }

  /** Between the cursor a page continues from and the cursor it hands out. */
  predicate InSpan(x: Event, before: Option<Cursor>, next: Option<Cursor>) {
    (before.Some? ==> IsBefore(x, before.value)) && (next.Some? ==> !IsBefore(x, next.value))
  }

  /** A page is what the log then holds of its span, newest first. */
  lemma PageIsItsSpan(log: seq<Event>, q: Query, before: Option<Cursor>, limit: nat)
    requires IdsUnique(log) && limit >= 1
    ensures var page := PageOf(log, q, before, limit);
      && Descending(page.events)
      && (forall x :: x in page.events <==> x in log && Selected(q, x) && InSpan(x, before, page.next))
      && (page.next.Some? ==> |page.events| == limit && page.next == Some(CursorOf(page.events[limit - 1])))
  {
    var rows, page := Matching(Newest(log), q, before), PageOf(log, q, before, limit);
    NewestIsTheLogInOrder(log);
    MatchingDescends(Newest(log), q, before);
    forall x ensures x in page.events <==> x in log && Selected(q, x) && InSpan(x, before, page.next) {
      MatchingIsMatching(Newest(log), q, before, x);
      if |rows| > limit { FirstOfDescending(rows, limit, x); }
    }
  }

  // ---------------------------------------------------------------------
  // Following cursors
  // ---------------------------------------------------------------------

  /** What one call of the list handler answers from the log it finds. */
  predicate Answers(log: seq<Event>, q: Query, before: Option<Cursor>, limit: nat, page: Page)
    requires limit >= 1
  {
    page == PageOf(log, q, before, limit)
  }

  /** Calls of the list handler, one after another: each but the first with the cursor
      of the one before. Call `k` finds `logs[k]` and appends `records[k]`; anyone may
      append anything between two calls, under whatever times. */
  predicate IsWalk(logs: seq<seq<Event>>, records: seq<Event>, q: Query, limit: nat, pages: seq<Page>)
    requires limit >= 1
  {
    && |logs| == |records| == |pages| > 0 && IdsUnique(logs[|logs| - 1])
    && (forall k :: 0 <= k < |pages| ==> IsRead(logs, q, limit, pages, k))
    && forall k :: 0 <= k < |logs| - 1 ==> logs[k] + [records[k]] <= logs[k + 1]
  }

  predicate IsRead(logs: seq<seq<Event>>, q: Query, limit: nat, pages: seq<Page>, k: nat)
    requires limit >= 1 && k < |pages| == |logs|
  {
    (k > 0 ==> pages[k - 1].next.Some?) && Answers(logs[k], q, From(pages, k), limit, pages[k])
  }

  /** The cursor page `k` continues from. */
  function From(pages: seq<Page>, k: nat): Option<Cursor>
    requires k <= |pages|
  {
    if k == 0 then None else pages[k - 1].next
  }

  lemma {:induction false} LogsGrow(logs: seq<seq<Event>>, records: seq<Event>, i: nat, j: nat)
    requires |logs| == |records| && i <= j < |logs|
    requires forall k :: 0 <= k < |logs| - 1 ==> logs[k] + [records[k]] <= logs[k + 1]
    ensures logs[i] <= logs[j]
    decreases j
  {
    if i < j {
      LogsGrow(logs, records, i, j - 1);
      assert logs[j - 1] + [records[j - 1]] <= logs[j];
    }
  }

  function Concat(pages: seq<Page>): seq<Event> {
    if pages == [] then [] else Concat(pages[..|pages| - 1]) + pages[|pages| - 1].events
  }

  /** `x` was in the log, and asked for, when the walk came past its place. */
  predicate IsPassed(logs: seq<seq<Event>>, q: Query, pages: seq<Page>, k: nat, x: Event) {
    k < |pages| && k < |logs| && x in logs[k] && Selected(q, x) && InSpan(x, From(pages, k), pages[k].next)
  }

  lemma PageOfWalk(logs: seq<seq<Event>>, records: seq<Event>, q: Query, limit: nat, pages: seq<Page>, k: nat)
    requires limit >= 1 && IsWalk(logs, records, q, limit, pages) && k < |pages|
    ensures Descending(pages[k].events)
    ensures forall x :: x in pages[k].events <==> IsPassed(logs, q, pages, k, x)
    ensures pages[k].next.Some? ==> |pages[k].events| == limit && pages[k].next == Some(CursorOf(pages[k].events[limit - 1]))
  {
    assert IsRead(logs, q, limit, pages, k);
    LogsGrow(logs, records, k, |logs| - 1);
    hide IsWalk, PageOf, Selected, IsRead;
    PageIsItsSpan(logs[k], q, From(pages, k), limit);
  }

  lemma DescendingConcat(xs: seq<Event>, ys: seq<Event>, c: Cursor)
    requires Descending(xs) && Descending(ys)
    requires (forall x :: x in xs ==> !IsBefore(x, c)) && forall y :: y in ys ==> IsBefore(y, c)
    ensures Descending(xs + ys)
  {
    var zs := xs + ys;
    forall i, j | 0 <= i < j < |zs| ensures Older(zs[j], zs[i]) {
      if i < |xs| <= j { assert zs[i] in xs && zs[j] in ys; }
    }
  }

  /** The first `n` pages together: in order, each event once, none past the cursor,
      and exactly what the walk came past. */
  lemma {:induction false} WalkSoFar(logs: seq<seq<Event>>, records: seq<Event>, q: Query, limit: nat, pages: seq<Page>, n: nat)
    requires limit >= 1 && IsWalk(logs, records, q, limit, pages) && n <= |pages|
    ensures var c := Concat(pages[..n]);
      && Descending(c)
      && (forall x :: x in c ==> From(pages, n).Some? ==> !IsBefore(x, From(pages, n).value))
      && (forall x :: x in c <==> exists k: nat :: k < n && IsPassed(logs, q, pages, k, x))
    ensures n > 0 ==> |Concat(pages[..n])| >= n - 1
    ensures n > 0 && From(pages, n).Some? ==> |Concat(pages[..n])| >= n
  {
    if n > 0 {
      var c, page := Concat(pages[..n - 1]), pages[n - 1];
      assert pages[..n][..n - 1] == pages[..n - 1];
      WalkSoFar(logs, records, q, limit, pages, n - 1);
      PageOfWalk(logs, records, q, limit, pages, n - 1);
      assert IsRead(logs, q, limit, pages, n - 1);
      CursorsDescend(logs, records, q, limit, pages, n - 1);
      hide IsWalk, IsRead, PageOf, Selected;
      if n > 1 {
        DescendingConcat(c, page.events, From(pages, n - 1).value);
      } else {
        assert c + page.events == page.events;
      }
    }
  }

  /** Each cursor lies before the one it came from. */
  lemma CursorsDescend(logs: seq<seq<Event>>, records: seq<Event>, q: Query, limit: nat, pages: seq<Page>, k: nat)
    requires limit >= 1 && IsWalk(logs, records, q, limit, pages) && k < |pages|
    ensures forall x: Event :: pages[k].next.Some? && From(pages, k).Some? && !IsBefore(x, From(pages, k).value) ==>
      !IsBefore(x, pages[k].next.value)
  {
    PageOfWalk(logs, records, q, limit, pages, k);
    if pages[k].next.Some? && From(pages, k).Some? {
      var last := pages[k].events[limit - 1];
      assert last in pages[k].events;
      assert IsBefore(last, From(pages, k).value);
    }
  }

  /** What was there at the first read is listed, or still ahead of the cursor. */
  lemma {:induction false} NothingIsSkipped(logs: seq<seq<Event>>, records: seq<Event>, q: Query, limit: nat, pages: seq<Page>, n: nat, x: Event)
    requires limit >= 1 && IsWalk(logs, records, q, limit, pages) && 0 < n <= |pages|
    requires x in logs[0] && Selected(q, x)
    ensures x in Concat(pages[..n]) || (From(pages, n).Some? && IsBefore(x, From(pages, n).value))
  {
    assert pages[..n][..n - 1] == pages[..n - 1];
    if n > 1 { NothingIsSkipped(logs, records, q, limit, pages, n - 1, x); }
    LogsGrow(logs, records, 0, n - 1);
    PageOfWalk(logs, records, q, limit, pages, n - 1);
    assert IsPassed(logs, q, pages, n - 1, x) <==> InSpan(x, From(pages, n - 1), pages[n - 1].next);
    hide IsWalk, Selected, IsPassed;
  }

  /** Following cursors to the end, whatever is appended meanwhile and under whatever
      times: newest first, no event twice, no selected event of the first log missed,
      and otherwise only late arrivals, each there when the walk came past its place;
      in at most one page more than the events there are. */
  lemma PagingNeverMissesOrRepeats(logs: seq<seq<Event>>, records: seq<Event>, q: Query, limit: nat, pages: seq<Page>)
    requires limit >= 1 && IsWalk(logs, records, q, limit, pages)
    ensures |pages| <= |logs[|logs| - 1]| + 1
    ensures Descending(Concat(pages))
    ensures forall x :: x in Concat(pages) <==> exists k: nat :: k < |pages| && IsPassed(logs, q, pages, k, x)
    ensures pages[|pages| - 1].next.None? ==> forall x :: x in logs[0] && Selected(q, x) ==> x in Concat(pages)
  {
    var all := logs[|logs| - 1];
    assert pages[..|pages|] == pages;
    WalkSoFar(logs, records, q, limit, pages, |pages|);
    forall x | x in Concat(pages) ensures x in all {
      var k: nat :| k < |pages| && IsPassed(logs, q, pages, k, x);
      LogsGrow(logs, records, k, |logs| - 1);
    }
    DescendingFits(Concat(pages), all);
    if pages[|pages| - 1].next.None? {
      forall x | x in logs[0] && Selected(q, x) ensures x in Concat(pages) {
        NothingIsSkipped(logs, records, q, limit, pages, |pages|, x);
      }
    }
  }

  /** A listing without repeats is no longer than what it lists. */
  lemma {:induction false} DescendingFits(xs: seq<Event>, log: seq<Event>)
    requires Descending(xs) && forall x :: x in xs ==> x in log
    ensures |xs| <= |log|
    decreases |xs|
  {
    if xs != [] {
      var e := xs[0];
      assert e in log;
      var i :| 0 <= i < |log| && log[i] == e;
      var less := log[..i] + log[i + 1..];
      forall x | x in xs[1..] ensures x in less {
        var j :| 0 <= j < |xs[1..]| && xs[1..][j] == x;
        assert Older(xs[j + 1], xs[0]) && x in log;
        var m :| 0 <= m < |log| && log[m] == x;
        assert less[if m < i then m else m - 1] == x;
      }
      DescendingFits(xs[1..], less);
    }
  }

  /** Every later arrival is newer than everything there was at the first read. */
  predicate OnlyNewer(logs: seq<seq<Event>>) {
    logs != [] && forall k :: 0 <= k < |logs| ==> logs[0] <= logs[k] && AllNewer(logs[0], logs[k][|logs[0]|..])
  }

  function Offset(limit: nat, k: nat): (n: nat)
    ensures limit >= 1 ==> n >= k
  {
    if k == 0 then 0 else Offset(limit, k - 1) + limit
  }

  /** The part of a listing from one row on, as a page. */
  predicate IsSlice(rows: seq<Event>, start: nat, limit: nat, page: Page)
    requires limit >= 1
  {
    && start <= |rows|
    && if start + limit < |rows|
       then page == Page(rows[start..start + limit], Some(CursorOf(rows[start + limit - 1])))
       else page == Page(rows[start..], None)
  }

  /** Where arrivals are newer, the k-th page is the k-th slice of what the first read
      could have listed whole. */
  lemma {:induction false} PagesAreSlices(logs: seq<seq<Event>>, records: seq<Event>, q: Query, limit: nat, pages: seq<Page>, k: nat)
    requires limit >= 1 && IsWalk(logs, records, q, limit, pages) && OnlyNewer(logs) && k < |pages|
    ensures IsSlice(Matching(Newest(logs[0]), q, None), Offset(limit, k), limit, pages[k])
    decreases k
  {
    var rows := Matching(Newest(logs[0]), q, None);
    assert IsRead(logs, q, limit, pages, k);
    if k == 0 {
      assert rows[0..] == rows;
    } else {
      PagesAreSlices(logs, records, q, limit, pages, k - 1);
      var start, more := Offset(limit, k), logs[k][|logs[0]|..];
      assert logs[k] == logs[0] + more;
      FirstIdsUnique(logs, records);
      CursorIgnoresNewerEvents(logs[0], more, q, start);
      SliceOfRest(rows, start, limit, pages[k]);
    }
  }

  lemma FirstIdsUnique(logs: seq<seq<Event>>, records: seq<Event>)
    requires |logs| == |records| > 0 && IdsUnique(logs[|logs| - 1])
    requires forall k :: 0 <= k < |logs| - 1 ==> logs[k] + [records[k]] <= logs[k + 1]
    ensures IdsUnique(logs[0])
  {
    LogsGrow(logs, records, 0, |logs| - 1);
  }

  lemma SliceOfRest(rows: seq<Event>, start: nat, limit: nat, page: Page)
    requires limit >= 1 && start <= |rows|
    requires page == if |rows[start..]| > limit then Page(rows[start..][..limit], Some(CursorOf(rows[start..][limit - 1])))
                     else Page(rows[start..], None)
    ensures IsSlice(rows, start, limit, page)
  {}

  /** Where arrivals are newer, the pages together are exactly the selected events of
      the first log, each once and newest first, in at most one page more than those. */
  lemma PagingIsCompleteAndStable(logs: seq<seq<Event>>, records: seq<Event>, q: Query, limit: nat, pages: seq<Page>)
    requires limit >= 1 && IsWalk(logs, records, q, limit, pages) && OnlyNewer(logs)
    ensures |pages| <= |logs[0]| + 1
    ensures pages[|pages| - 1].next.None? ==>
      Descending(Concat(pages)) && forall x :: x in Concat(pages) <==> x in logs[0] && Selected(q, x)
  {
    PagingNeverMissesOrRepeats(logs, records, q, limit, pages);
    forall x | x in Concat(pages) ensures x in logs[0] && Selected(q, x) {
      var k: nat :| k < |pages| && IsPassed(logs, q, pages, k, x);
      PageOfWalk(logs, records, q, limit, pages, k);
      PagesAreSlices(logs, records, q, limit, pages, k);
      SliceIsOfFirst(logs[0], q, Offset(limit, k), limit, pages[k], x);
    }
    assert pages[..|pages|] == pages;
    WalkSoFar(logs, records, q, limit, pages, |pages|);
    DescendingFits(Concat(pages), logs[0]);
  }

  lemma SliceIsOfFirst(log: seq<Event>, q: Query, start: nat, limit: nat, page: Page, x: Event)
    requires limit >= 1 && IsSlice(Matching(Newest(log), q, None), start, limit, page) && x in page.events
    ensures x in log && Selected(q, x)
  {
    NewestMembers(log);
    MatchingIsMatching(Newest(log), q, None, x);
  }

  // ---------------------------------------------------------------------
  // The list handler
  // ---------------------------------------------------------------------

  datatype Clause =
    | HasObject(about: (Id, Id)) | ActorIs(id: Id) | PurposeIs(id: Id) | KindIs(id: Id)
    | NotBefore(at: Instant) | IsEarlier(at: Instant) | OlderThan(cursor: Cursor)

  predicate Holds(c: Clause, e: Event) {
    match c
    case HasObject(about) => about in e.objects
    case ActorIs(id) => e.actor == id
    case PurposeIs(id) => e.purpose == id
    case KindIs(id) => e.kind == id
    case NotBefore(at) => e.at >= at
    case IsEarlier(at) => e.at < at
    case OlderThan(cursor) => IsBefore(e, cursor)
  }

  predicate AllHold(conditions: seq<Clause>, e: Event) {
    forall i :: 0 <= i < |conditions| ==> Holds(conditions[i], e)
  }

  function Satisfying(xs: seq<Event>, conditions: seq<Clause>): seq<Event> {
    if xs == [] then []
    else if AllHold(conditions, xs[0]) then [xs[0]] + Satisfying(xs[1..], conditions)
    else Satisfying(xs[1..], conditions)
  }

  lemma {:induction false} SatisfyingIsMatching(xs: seq<Event>, conditions: seq<Clause>, q: Query, before: Option<Cursor>)
    requires forall e :: Lists(conditions, q, before, e)
    ensures Satisfying(xs, conditions) == Matching(xs, q, before)
  {
    if xs != [] {
      assert Lists(conditions, q, before, xs[0]);
      SatisfyingIsMatching(xs[1..], conditions, q, before);
    }
  }

  lemma AllHoldWith(conditions: seq<Clause>, c: Clause, e: Event)
    ensures AllHold(conditions + [c], e) <==> AllHold(conditions, e) && Holds(c, e)
  {
    var longer := conditions + [c];
    assert longer[|conditions|] == c;
    forall i | 0 <= i < |conditions| ensures longer[i] == conditions[i] {}
  }

  /** A condition joins the list exactly when the query asks for it. */
  predicate Lists(conditions: seq<Clause>, q: Query, before: Option<Cursor>, e: Event) {
    AllHold(conditions, e) <==> Selected(q, e) && (before.Some? ==> IsBefore(e, before.value))
  }

  class AuditLog {
    var events: seq<Event>

    constructor ()
      ensures events == []
    {
      events := [];
    }

    /** Reads a page, then records the read. */
    method List(q: Query, before: Option<Cursor>, limit: Option<nat>, read: Event) returns (page: Page)
      requires limit.Some? ==> limit.value >= 1
      modifies this
      ensures Answers(old(events), q, before, if limit.Some? then limit.value else DEFAULT_LIMIT, page)
      ensures events == old(events) + [read]
    {
      var size := if limit.Some? then limit.value else DEFAULT_LIMIT;
      var conditions := Conditions(q, before);
      SatisfyingIsMatching(Newest(events), conditions, q, before);
      var rows := Satisfying(Newest(events), conditions);
      rows := if |rows| > size + 1 then rows[..size + 1] else rows;
      if |rows| > size {
        page := Page(rows[..size], Some(CursorOf(rows[size - 1])));
      } else {
        page := Page(rows, None);
      }
      events := events + [read];
    }

    static method Conditions(q: Query, before: Option<Cursor>) returns (conditions: seq<Clause>)
      ensures forall e :: Lists(conditions, q, before, e)
    {
      conditions := [];
      ghost var c0 := conditions;
      if q.about.Some? {
        conditions := conditions + [HasObject(q.about.value)];
      }
      ghost var c1 := conditions;
      if q.actor.Some? {
        conditions := conditions + [ActorIs(q.actor.value)];
      }
      ghost var c2 := conditions;
      if q.purpose.Some? {
        conditions := conditions + [PurposeIs(q.purpose.value)];
      }
      ghost var c3 := conditions;
      if q.kind.Some? {
        conditions := conditions + [KindIs(q.kind.value)];
      }
      ghost var c4 := conditions;
      if q.from.Some? {
        conditions := conditions + [NotBefore(q.from.value)];
      }
      ghost var c5 := conditions;
      if q.to.Some? {
        conditions := conditions + [IsEarlier(q.to.value)];
      }
      ghost var c6 := conditions;
      if before.Some? {
        conditions := conditions + [OlderThan(before.value)];
      }
      forall e ensures Lists(conditions, q, before, e) {
        if q.about.Some? { AllHoldWith(c0, HasObject(q.about.value), e); }
        if q.actor.Some? { AllHoldWith(c1, ActorIs(q.actor.value), e); }
        if q.purpose.Some? { AllHoldWith(c2, PurposeIs(q.purpose.value), e); }
        if q.kind.Some? { AllHoldWith(c3, KindIs(q.kind.value), e); }
        if q.from.Some? { AllHoldWith(c4, NotBefore(q.from.value), e); }
        if q.to.Some? { AllHoldWith(c5, IsEarlier(q.to.value), e); }
        if before.Some? { AllHoldWith(c6, OlderThan(before.value), e); }
        hide AllHold;
      }
    }
  }
}
