/** The in-memory evidence ledger: five indexes over one append-only list of
    records, and an ingest whose hook may call the ledger again. */
module EvidenceLedger {
  import opened Options
  import opened Text
  import opened Utf8
  import opened CanonicalJson

  /** Surrogate ids are minted, never derived from content. */
  type Id = nat

  datatype Sensitivity = NORMAL | PRIVATE | RESTRICTED

  datatype Record = Record(
    id: Id, scope: Text, sourceType: Text, connector: Maybe, externalId: Text, actor: Maybe,
    occurredAt: Text, observedAt: Text, contentHash: Text, sensitivity: Sensitivity, purposes: seq<Text>)
  {
    /** The uniqueness tuple. */
    function Tuple(): Identity {
      Identity(scope, connector, sourceType, externalId, contentHash)
    }
  }

  datatype Input = Input(
    scope: Text, sourceType: Text, connector: Maybe, externalId: Text, content: Content, actor: Maybe,
    occurredAt: Text, sensitivity: Option<Sensitivity>, purposes: Option<seq<Text>>, idempotencyKey: Option<Text>)
  {
    /** SHA-256 is taken as one-to-one: the hash is the bytes it was taken of. */
    function Tuple(): Identity {
      Identity(scope, connector, sourceType, externalId, ContentBytes(content))
    }

    function Stored(id: Id, now: Text): Record {
      Record(id, scope, sourceType, connector, externalId, actor, occurredAt, now, ContentBytes(content),
             if sensitivity.Some? then sensitivity.value else PRIVATE,
             if purposes.Some? then purposes.value else [PERSONAL_ASSISTANCE])
    }
  }

  /** "PERSONAL_ASSISTANCE". */
  const PERSONAL_ASSISTANCE: Text := [80, 69, 82, 83, 79, 78, 65, 76, 95, 65, 83, 83, 73, 83, 84, 65, 78, 67, 69]

  datatype Anchor = Anchor(id: Id, evidence: Id, scope: Text, kind: Text, location: Json, text: Maybe, createdAt: Text)

  /** A client key and the record it first resolved to. */
  datatype Binding = Binding(scope: Text, key: Text, record: Record)

  // ---------------------------------------------------------------------
  // The one list, read by linear scan
  // ---------------------------------------------------------------------

  datatype Log = Log(records: seq<Record>, bindings: seq<Binding>, anchors: seq<Anchor>, minted: nat)

  const EMPTY := Log([], [], [], 0)

  /** The first record with this tuple. */
  function FindTuple(rs: seq<Record>, tuple: Identity): Option<Record> {
    if rs == [] then None
    else if FindTuple(rs[..|rs| - 1], tuple).Some? then FindTuple(rs[..|rs| - 1], tuple)
    else if rs[|rs| - 1].Tuple() == tuple then Some(rs[|rs| - 1])
    else None
  }

  function FindId(rs: seq<Record>, id: Id): Option<Record> {
    if rs == [] then None
    else if FindId(rs[..|rs| - 1], id).Some? then FindId(rs[..|rs| - 1], id)
    else if rs[|rs| - 1].id == id then Some(rs[|rs| - 1])
    else None
  }

  /** The first record this key was bound to within the scope. */
  function FindBinding(bs: seq<Binding>, scope: Text, key: Text): Option<Record> {
    if bs == [] then None
    else if FindBinding(bs[..|bs| - 1], scope, key).Some? then FindBinding(bs[..|bs| - 1], scope, key)
    else if bs[|bs| - 1].scope == scope && bs[|bs| - 1].key == key then Some(bs[|bs| - 1].record)
    else None
  }

  function InScope(rs: seq<Record>, scope: Text): seq<Record> {
    if rs == [] then []
    else if rs[|rs| - 1].scope == scope then InScope(rs[..|rs| - 1], scope) + [rs[|rs| - 1]]
    else InScope(rs[..|rs| - 1], scope)
  }

  function AnchorsOf(xs: seq<Anchor>, id: Id): seq<Anchor> {
    if xs == [] then []
    else if xs[|xs| - 1].evidence == id then AnchorsOf(xs[..|xs| - 1], id) + [xs[|xs| - 1]]
    else AnchorsOf(xs[..|xs| - 1], id)
  }

  /** A read of one record; a scope, when given, must be the record's own. */
  function Read(log: Log, id: Id, scope: Option<Text>): Option<Record> {
    var found := FindId(log.records, id);
    if found.Some? && scope.Some? && found.value.scope != scope.value then None else found
  }

  // ---------------------------------------------------------------------
  // Calls
  // ---------------------------------------------------------------------

  /** A call on the ledger. The hook of an ingest is represented by the calls it
      makes; every finite run of a hook makes some such list. */
  datatype Call =
    | Ingest(input: Input, now: Text, hook: seq<Call>)
    | AddAnchor(evidence: Id, kind: Text, location: Json, text: Maybe, at: Text)

  /** What an ingest finds already there: by its key first, then by its tuple. */
  function Known(log: Log, input: Input): Option<Record> {
    if input.idempotencyKey.Some? && FindBinding(log.bindings, input.scope, input.idempotencyKey.value).Some?
    then FindBinding(log.bindings, input.scope, input.idempotencyKey.value)
    else FindTuple(log.records, input.Tuple())
  }

  function Bind(log: Log, input: Input, r: Record): Log {
    if input.idempotencyKey.None? || FindBinding(log.bindings, input.scope, input.idempotencyKey.value).Some? then log
    else log.(bindings := log.bindings + [Binding(input.scope, input.idempotencyKey.value, r)])
  }

  function Persist(log: Log, input: Input, now: Text): Log {
    Bind(log.(records := log.records + [input.Stored(log.minted, now)], minted := log.minted + 1),
         input, input.Stored(log.minted, now))
  }

  function Attach(log: Log, r: Record, kind: Text, location: Json, text: Maybe, at: Text): Log {
    log.(anchors := log.anchors + [Anchor(log.minted, r.id, r.scope, kind, location, text, at)], minted := log.minted + 1)
  }

  /** The record an ingest returns, fixed before its hook runs. */
  function Returned(log: Log, input: Input, now: Text): Record {
    if Known(log, input).Some? then Known(log, input).value else input.Stored(log.minted, now)
  }

  function After(log: Log, call: Call): Log
    decreases call, 0
  {
    match call
    case Ingest(input, now, hook) =>
      if Known(log, input).Some? then Bind(log, input, Known(log, input).value)
      else AfterAll(Persist(log, input, now), hook)
    case AddAnchor(evidence, kind, location, text, at) =>
      var found := FindId(log.records, evidence);
      if found.None? then log else Attach(log, found.value, kind, location, text, at)
  }

  function AfterAll(log: Log, calls: seq<Call>): Log
    decreases calls, 1
  {
    if calls == [] then log else After(AfterAll(log, calls[..|calls| - 1]), calls[|calls| - 1])
  }

  // ---------------------------------------------------------------------
  // What the list keeps
  // ---------------------------------------------------------------------

  predicate IdsUnique(log: Log) {
    && (forall i :: 0 <= i < |log.records| ==> log.records[i].id < log.minted)
    && forall i, j :: 0 <= i < j < |log.records| ==> log.records[i].id != log.records[j].id
  }

  predicate TuplesUnique(log: Log) {
    forall i, j :: 0 <= i < j < |log.records| ==> log.records[i].Tuple() != log.records[j].Tuple()
  }

  predicate BindingsUnique(log: Log) {
    forall i, j :: 0 <= i < j < |log.bindings| ==>
      log.bindings[i].scope != log.bindings[j].scope || log.bindings[i].key != log.bindings[j].key
  }

  /** Every binding names a stored record of its own scope. */
  predicate BindingsRooted(log: Log) {
    forall i :: 0 <= i < |log.bindings| ==>
      log.bindings[i].record in log.records && log.bindings[i].record.scope == log.bindings[i].scope
  }

  /** Every anchor belongs to a stored record of its own scope. */
  predicate AnchorsRooted(log: Log) {
    forall i :: 0 <= i < |log.anchors| ==>
      FindId(log.records, log.anchors[i].evidence).Some?
      && FindId(log.records, log.anchors[i].evidence).value.scope == log.anchors[i].scope
  }

  predicate LogValid(log: Log) {
    IdsUnique(log) && TuplesUnique(log) && BindingsUnique(log) && BindingsRooted(log) && AnchorsRooted(log)
  }

  /** `later` only adds to the end of what `log` holds. */
  predicate Extends(log: Log, later: Log) {
    log.records <= later.records && log.bindings <= later.bindings && log.anchors <= later.anchors && log.minted <= later.minted
  }

  lemma {:induction false} FindTupleFinds(rs: seq<Record>, tuple: Identity)
    ensures FindTuple(rs, tuple).Some? ==> FindTuple(rs, tuple).value in rs && FindTuple(rs, tuple).value.Tuple() == tuple
    ensures FindTuple(rs, tuple).None? ==> forall i :: 0 <= i < |rs| ==> rs[i].Tuple() != tuple
  {
    if rs != [] { FindTupleFinds(rs[..|rs| - 1], tuple); }
  }

  lemma {:induction false} FindIdFinds(rs: seq<Record>, id: Id)
    ensures FindId(rs, id).Some? ==> FindId(rs, id).value in rs && FindId(rs, id).value.id == id
    ensures FindId(rs, id).None? ==> forall i :: 0 <= i < |rs| ==> rs[i].id != id
  {
    if rs != [] { FindIdFinds(rs[..|rs| - 1], id); }
  }

  lemma {:induction false} FindBindingFinds(bs: seq<Binding>, scope: Text, key: Text)
    ensures FindBinding(bs, scope, key).Some? ==> Binding(scope, key, FindBinding(bs, scope, key).value) in bs
    ensures FindBinding(bs, scope, key).None? ==> forall i :: 0 <= i < |bs| ==> bs[i].scope != scope || bs[i].key != key
  {
    if bs != [] { FindBindingFinds(bs[..|bs| - 1], scope, key); }
  }

  // What is found once is found for ever.

  lemma {:induction false} FindTupleStays(rs: seq<Record>, later: seq<Record>, tuple: Identity)
    requires rs <= later && FindTuple(rs, tuple).Some?
    ensures FindTuple(later, tuple) == FindTuple(rs, tuple)
    decreases |later|
  {
    if |rs| < |later| { FindTupleStays(rs, later[..|later| - 1], tuple); } else { assert rs == later; }
  }

  lemma {:induction false} FindIdStays(rs: seq<Record>, later: seq<Record>, id: Id)
    requires rs <= later && FindId(rs, id).Some?
    ensures FindId(later, id) == FindId(rs, id)
    decreases |later|
  {
    if |rs| < |later| { FindIdStays(rs, later[..|later| - 1], id); } else { assert rs == later; }
  }

  lemma {:induction false} FindBindingStays(bs: seq<Binding>, later: seq<Binding>, scope: Text, key: Text)
    requires bs <= later && FindBinding(bs, scope, key).Some?
    ensures FindBinding(later, scope, key) == FindBinding(bs, scope, key)
    decreases |later|
  {
    if |bs| < |later| { FindBindingStays(bs, later[..|later| - 1], scope, key); } else { assert bs == later; }
  }

  lemma KnownIsStored(log: Log, input: Input)
    requires LogValid(log) && Known(log, input).Some?
    ensures Known(log, input).value in log.records && Known(log, input).value.scope == input.scope
  {
    FindTupleFinds(log.records, input.Tuple());
    if input.idempotencyKey.Some? {
      FindBindingFinds(log.bindings, input.scope, input.idempotencyKey.value);
    }
  }

  lemma BindKeepsValid(log: Log, input: Input, r: Record)
    requires LogValid(log) && r in log.records && r.scope == input.scope
    ensures LogValid(Bind(log, input, r)) && Extends(log, Bind(log, input, r))
  {
    if input.idempotencyKey.Some? {
      FindBindingFinds(log.bindings, input.scope, input.idempotencyKey.value);
    }
  }

  lemma PersistKeepsValid(log: Log, input: Input, now: Text)
    requires LogValid(log) && FindTuple(log.records, input.Tuple()).None?
    ensures LogValid(Persist(log, input, now)) && Extends(log, Persist(log, input, now))
  {
    var r := input.Stored(log.minted, now);
    var log' := log.(records := log.records + [r], minted := log.minted + 1);
    FindTupleFinds(log.records, input.Tuple());
    assert r in log'.records by { assert log'.records[|log.records|] == r; }
    assert BindingsRooted(log');
    forall i | 0 <= i < |log'.anchors|
      ensures FindId(log'.records, log'.anchors[i].evidence).Some?
      ensures FindId(log'.records, log'.anchors[i].evidence).value.scope == log'.anchors[i].scope
    {
      FindIdStays(log.records, log'.records, log.anchors[i].evidence);
    }
    BindKeepsValid(log', input, r);
  }

  lemma AttachKeepsValid(log: Log, r: Record, kind: Text, location: Json, text: Maybe, at: Text)
    requires LogValid(log) && FindId(log.records, r.id) == Some(r)
    ensures LogValid(Attach(log, r, kind, location, text, at)) && Extends(log, Attach(log, r, kind, location, text, at))
  {}

  /** Every call, however deeply its hooks call back, keeps the list well formed and
      only adds to it. */
  lemma {:induction false} CallKeepsValid(log: Log, call: Call)
    requires LogValid(log)
    ensures LogValid(After(log, call)) && Extends(log, After(log, call))
    decreases call, 0
  {
    match call
    case Ingest(input, now, hook) =>
      if Known(log, input).Some? {
        KnownIsStored(log, input);
        BindKeepsValid(log, input, Known(log, input).value);
      } else {
        PersistKeepsValid(log, input, now);
        CallsKeepValid(Persist(log, input, now), hook);
      }
    case AddAnchor(evidence, kind, location, text, at) =>
      FindIdFinds(log.records, evidence);
      if FindId(log.records, evidence).Some? {
        AttachKeepsValid(log, FindId(log.records, evidence).value, kind, location, text, at);
      }
  }

  lemma {:induction false} CallsKeepValid(log: Log, calls: seq<Call>)
    requires LogValid(log)
    ensures LogValid(AfterAll(log, calls)) && Extends(log, AfterAll(log, calls))
    decreases calls, 1
  {
    if calls != [] {
      CallsKeepValid(log, calls[..|calls| - 1]);
      CallKeepsValid(AfterAll(log, calls[..|calls| - 1]), calls[|calls| - 1]);
    }
  }

  // ---------------------------------------------------------------------
  // What callers may rely on
  // ---------------------------------------------------------------------

  /** From the moment it is stored, and so already inside its own hook, a record
      answers to its tuple and to the key it came with. */
  lemma PersistedIsKnown(log: Log, input: Input, now: Text)
    requires LogValid(log) && Known(log, input).None?
    ensures var r, next := input.Stored(log.minted, now), Persist(log, input, now);
      && FindTuple(next.records, input.Tuple()) == Some(r)
      && (input.idempotencyKey.Some? ==> FindBinding(next.bindings, input.scope, input.idempotencyKey.value) == Some(r))
  {
    var r, next := input.Stored(log.minted, now), Persist(log, input, now);
    assert next.records[..|next.records| - 1] == log.records;
    if input.idempotencyKey.Some? {
      assert next.bindings[..|next.bindings| - 1] == log.bindings;
    }
  }

  /** At every point of its own hook, whatever the hook has called so far and to any
      depth: the record answers to its tuple and key, and ingesting it again there
      answers it, stores nothing and runs nothing. */
  lemma KnownInsideItsHook(log: Log, input: Input, now: Text, calls: seq<Call>, again: Call)
    requires LogValid(log) && Known(log, input).None?
    requires again.Ingest? && again.input.Tuple() == input.Tuple() && again.input.idempotencyKey == input.idempotencyKey
    ensures var r, inside := input.Stored(log.minted, now), AfterAll(Persist(log, input, now), calls);
      && FindTuple(inside.records, input.Tuple()) == Some(r)
      && (input.idempotencyKey.Some? ==> FindBinding(inside.bindings, input.scope, input.idempotencyKey.value) == Some(r))
      && Returned(inside, again.input, again.now) == r && After(inside, again) == inside
  {
    var stored := Persist(log, input, now);
    PersistedIsKnown(log, input, now);
    FindTupleFinds(log.records, input.Tuple());
    PersistKeepsValid(log, input, now);
    CallsKeepValid(stored, calls);
    FindTupleStays(stored.records, AfterAll(stored, calls).records, input.Tuple());
    if input.idempotencyKey.Some? {
      FindBindingStays(stored.bindings, AfterAll(stored, calls).bindings, input.scope, input.idempotencyKey.value);
    }
  }

  lemma AnsweredIsBound(log: Log, call: Call)
    requires LogValid(log) && call.Ingest?
    ensures var r, next := Returned(log, call.input, call.now), After(log, call);
      && r in next.records
      && (call.input.idempotencyKey.Some? ==>
            FindBinding(next.bindings, call.input.scope, call.input.idempotencyKey.value) == Some(r))
  {
    var input, next := call.input, After(log, call);
    CallKeepsValid(log, call);
    if Known(log, input).Some? {
      KnownIsStored(log, input);
      if input.idempotencyKey.Some? && next != log {
        assert next.bindings[..|next.bindings| - 1] == log.bindings;
      }
    } else {
      PersistedIsKnown(log, input, call.now);
      var stored := Persist(log, input, call.now);
      PersistKeepsValid(log, input, call.now);
      CallsKeepValid(stored, call.hook);
      FindTupleFinds(stored.records, input.Tuple());
      if input.idempotencyKey.Some? {
        FindBindingStays(stored.bindings, next.bindings, input.scope, input.idempotencyKey.value);
      }
    }
  }

  /** A key once answered with a record is answered with that record for ever,
      whatever else the repeat says, and the repeat changes nothing at all. */
  lemma KeysAreWriteOnce(log: Log, first: Call, between: seq<Call>, again: Call)
    requires LogValid(log) && first.Ingest? && again.Ingest? && first.input.idempotencyKey.Some?
    requires again.input.scope == first.input.scope && again.input.idempotencyKey == first.input.idempotencyKey
    ensures var later := AfterAll(After(log, first), between);
      && Returned(later, again.input, again.now) == Returned(log, first.input, first.now)
      && After(later, again) == later
  {
    var next := After(log, first);
    AnsweredIsBound(log, first);
    CallKeepsValid(log, first);
    CallsKeepValid(next, between);
    FindBindingStays(next.bindings, AfterAll(next, between).bindings, first.input.scope, first.input.idempotencyKey.value);
  }

  /** A tuple already stored names its first record for ever: a repeat without a
      bound key of its own gets that record, stores nothing and runs no hook; at
      most a new key is bound to it. */
  lemma TuplesNameOneRecord(log: Log, r: Record, between: seq<Call>, again: Call)
    requires LogValid(log) && FindTuple(log.records, r.Tuple()) == Some(r)
    requires again.Ingest? && again.input.Tuple() == r.Tuple()
    requires var later := AfterAll(log, between);
      again.input.idempotencyKey.Some? ==> FindBinding(later.bindings, again.input.scope, again.input.idempotencyKey.value).None?
    ensures var later := AfterAll(log, between);
      && Returned(later, again.input, again.now) == r
      && After(later, again).records == later.records && After(later, again).anchors == later.anchors
      && After(later, again).bindings == later.bindings +
           if again.input.idempotencyKey.Some? then [Binding(r.scope, again.input.idempotencyKey.value, r)] else []
  {
    CallsKeepValid(log, between);
    FindTupleStays(log.records, AfterAll(log, between).records, r.Tuple());
  }

  /** An ingest that no bound key answers. */
  predicate GoesByTuple(log: Log, input: Input) {
    input.idempotencyKey.Some? ==> FindBinding(log.bindings, input.scope, input.idempotencyKey.value).None?
  }

  lemma ByTupleReturnsTuple(log: Log, input: Input, now: Text)
    requires GoesByTuple(log, input)
    ensures Returned(log, input, now).Tuple() == input.Tuple()
  {
    FindTupleFinds(log.records, input.Tuple());
  }

  lemma UniqueTupleFinds(log: Log, r: Record)
    requires LogValid(log) && r in log.records
    ensures FindTuple(log.records, r.Tuple()) == Some(r)
  {
    FindTupleFinds(log.records, r.Tuple());
  }

  /** Two ingests of one external item get one record exactly when their contents hash
      alike, so structured payloads regardless of the order of their keys; whatever
      their hooks did, and whatever was called between. */
  lemma KeyOrderIsImmaterial(log: Log, first: Call, between: seq<Call>, again: Call)
    requires LogValid(log) && first.Ingest? && again.Ingest?
    requires first.input.scope == again.input.scope && first.input.connector == again.input.connector
    requires first.input.sourceType == again.input.sourceType && first.input.externalId == again.input.externalId
    requires ContentWellFormed(first.input.content) && ContentWellFormed(again.input.content)
    requires GoesByTuple(log, first.input) && GoesByTuple(AfterAll(After(log, first), between), again.input)
    ensures Returned(AfterAll(After(log, first), between), again.input, again.now) == Returned(log, first.input, first.now)
      <==> HashAlike(first.input.content, again.input.content)
    ensures first.input.content.IsStructured() && again.input.content.IsStructured() ==>
      (HashAlike(first.input.content, again.input.content) <==> Same(first.input.content.json, again.input.content.json))
  {
    hide ContentBytes, HashAlike;
    var r, next := Returned(log, first.input, first.now), After(log, first);
    var later := AfterAll(next, between);
    ContentIsCanonicalUpToRawText(first.input.content, again.input.content);
    StructuredHashAlike(first.input.content, again.input.content);
    ByTupleReturnsTuple(log, first.input, first.now);
    ByTupleReturnsTuple(later, again.input, again.now);
    AnsweredIsBound(log, first);
    CallKeepsValid(log, first);
    CallsKeepValid(next, between);
    UniqueTupleFinds(next, r);
    FindTupleStays(next.records, later.records, r.Tuple());
  }

  lemma StructuredHashAlike(a: Content, b: Content)
    requires ContentWellFormed(a) && ContentWellFormed(b)
    ensures a.IsStructured() && b.IsStructured() ==> (HashAlike(a, b) <==> Same(a.json, b.json))
  {}

  /** A read that names a scope sees only that scope. */
  lemma ReadsStayInScope(log: Log, id: Id, scope: Text)
    requires LogValid(log)
    ensures Read(log, id, Some(scope)).Some? <==> exists i :: 0 <= i < |log.records| && log.records[i].id == id && log.records[i].scope == scope
    ensures Read(log, id, Some(scope)).Some? ==>
      Read(log, id, Some(scope)).value.id == id && Read(log, id, Some(scope)).value.scope == scope
  {
    FindIdFinds(log.records, id);
  }

  lemma {:induction false} InScopeMembers(rs: seq<Record>, scope: Text, r: Record)
    ensures r in InScope(rs, scope) <==> r in rs && r.scope == scope
  {
    if rs != [] {
      assert rs == rs[..|rs| - 1] + [rs[|rs| - 1]];
      InScopeMembers(rs[..|rs| - 1], scope, r);
    }
  }

  /** Some ingest, at whatever depth of hooks, names the scope. */
  predicate IngestsInto(call: Call, scope: Text) {
    call.Ingest? && (call.input.scope == scope || exists i :: 0 <= i < |call.hook| && IngestsInto(call.hook[i], scope))
  }

  lemma PersistShowsInScope(log: Log, input: Input, now: Text, scope: Text)
    ensures InScope(Persist(log, input, now).records, scope) ==
      InScope(log.records, scope) + if scope == input.scope then [input.Stored(log.minted, now)] else []
  {
    var next := Persist(log, input, now);
    assert next.records[..|next.records| - 1] == log.records;
  }

  lemma {:induction false} CallKeepsApart(log: Log, call: Call, scope: Text)
    ensures InScope(log.records, scope) <= InScope(After(log, call).records, scope)
    ensures !IngestsInto(call, scope) ==> InScope(After(log, call).records, scope) == InScope(log.records, scope)
    decreases call, 0
  {
    if call.Ingest? && Known(log, call.input).None? {
      PersistShowsInScope(log, call.input, call.now, scope);
      ScopesStayApart(Persist(log, call.input, call.now), call.hook, scope);
    }
  }

  /** Over any calls with any hooks: a scope's listing only grows at its end, and stays
      as it was while nothing is ingested into that scope. */
  lemma {:induction false} ScopesStayApart(log: Log, calls: seq<Call>, scope: Text)
    ensures InScope(log.records, scope) <= InScope(AfterAll(log, calls).records, scope)
    ensures (forall i :: 0 <= i < |calls| ==> !IngestsInto(calls[i], scope)) ==>
      InScope(AfterAll(log, calls).records, scope) == InScope(log.records, scope)
    decreases calls, 1
  {
    if calls != [] {
      ScopesStayApart(log, calls[..|calls| - 1], scope);
      CallKeepsApart(AfterAll(log, calls[..|calls| - 1]), calls[|calls| - 1], scope);
    }
  }

  // ---------------------------------------------------------------------
  // The five indexes
  // ---------------------------------------------------------------------

  /** A JavaScript `Map`: entries in insertion order, reached by key. */
  datatype Store = Store(order: seq<Id>, entries: map<Id, Record>)
  {
    predicate Valid() {
      forall i :: 0 <= i < |order| ==> order[i] in entries
    }

    function Values(): (rs: seq<Record>)
      requires Valid()
      ensures |rs| == |order| && forall i :: 0 <= i < |rs| ==> rs[i] == entries[order[i]]
    {
      seq(|order|, i requires 0 <= i < |order| => entries[order[i]])
    }

    function Set(r: Record): Store {
      Store(if r.id in entries then order else order + [r.id], entries[r.id := r])
    }
  }

  type Stores = map<Text, Store>

  function Stored(byScope: Stores, scope: Text, id: Id): Option<Record> {
    if scope in byScope && id in byScope[scope].entries then Some(byScope[scope].entries[id]) else None
  }

  // Each index agrees with the list at every point it can be asked about.

  predicate ListAgrees(byScope: Stores, rs: seq<Record>, scope: Text) {
    if scope in byScope then byScope[scope].Valid() && byScope[scope].Values() == InScope(rs, scope) else InScope(rs, scope) == []
  }

  predicate EntryAgrees(byScope: Stores, rs: seq<Record>, scope: Text, id: Id) {
    Stored(byScope, scope, id) ==
      if FindId(rs, id).Some? && FindId(rs, id).value.scope == scope then FindId(rs, id) else None
  }

  predicate OwnerAgrees(scopeOf: map<Id, Text>, rs: seq<Record>, id: Id) {
    (id in scopeOf <==> FindId(rs, id).Some?) && (id in scopeOf ==> scopeOf[id] == FindId(rs, id).value.scope)
  }

  predicate TupleAgrees(byDedupeKey: map<Text, Record>, rs: seq<Record>, tuple: Identity) {
    FindTuple(rs, tuple) == if DedupeKey(tuple) in byDedupeKey then Some(byDedupeKey[DedupeKey(tuple)]) else None
  }

  predicate KeyAgrees(byKey: map<Text, Record>, bs: seq<Binding>, scope: Text, key: Text) {
    FindBinding(bs, scope, key) == if ScopedKey(scope, key) in byKey then Some(byKey[ScopedKey(scope, key)]) else None
  }

  predicate AnchorsAgree(anchorsBy: map<Id, seq<Anchor>>, rs: seq<Record>, xs: seq<Anchor>, id: Id) {
    (id in anchorsBy <==> FindId(rs, id).Some?) && (id in anchorsBy ==> anchorsBy[id] == AnchorsOf(xs, id))
  }

  ghost predicate ScopesRead(byScope: Stores, rs: seq<Record>) {
    (forall scope :: ListAgrees(byScope, rs, scope)) && forall scope, id :: EntryAgrees(byScope, rs, scope, id)
  }

  ghost predicate OwnersRead(scopeOf: map<Id, Text>, rs: seq<Record>) {
    forall id :: OwnerAgrees(scopeOf, rs, id)
  }

  ghost predicate TuplesRead(byDedupeKey: map<Text, Record>, rs: seq<Record>) {
    forall tuple :: TupleAgrees(byDedupeKey, rs, tuple)
  }

  ghost predicate KeysRead(byKey: map<Text, Record>, bs: seq<Binding>) {
    forall scope, key :: KeyAgrees(byKey, bs, scope, key)
  }

  ghost predicate AnchorsRead(anchorsBy: map<Id, seq<Anchor>>, rs: seq<Record>, xs: seq<Anchor>) {
    forall id :: AnchorsAgree(anchorsBy, rs, xs, id)
  }

  lemma FindIdAppend(rs: seq<Record>, r: Record, id: Id)
    ensures FindId(rs + [r], id) == if FindId(rs, id).Some? then FindId(rs, id) else if r.id == id then Some(r) else None
  {
    assert (rs + [r])[..|rs|] == rs;
  }

  function WithRecord(byScope: Stores, r: Record): Stores {
    byScope[r.scope := (if r.scope in byScope then byScope[r.scope] else Store([], map[])).Set(r)]
  }

  lemma ScopesKeepReading(byScope: Stores, rs: seq<Record>, r: Record)
    requires ScopesRead(byScope, rs) && FindId(rs, r.id).None?
    ensures ScopesRead(WithRecord(byScope, r), rs + [r])
  {
    var byScope' := WithRecord(byScope, r);
    assert (rs + [r])[..|rs|] == rs;
    assert EntryAgrees(byScope, rs, r.scope, r.id) && ListAgrees(byScope, rs, r.scope);
    forall scope ensures ListAgrees(byScope', rs + [r], scope) {
      assert ListAgrees(byScope, rs, scope);
      if scope == r.scope { assert byScope'[scope].Values() == InScope(rs, scope) + [r]; }
    }
    forall scope, id: Id ensures EntryAgrees(byScope', rs + [r], scope, id) {
      assert EntryAgrees(byScope, rs, scope, id);
      FindIdAppend(rs, r, id);
    }
  }

  lemma OwnersKeepReading(scopeOf: map<Id, Text>, rs: seq<Record>, r: Record)
    requires OwnersRead(scopeOf, rs) && FindId(rs, r.id).None?
    ensures OwnersRead(scopeOf[r.id := r.scope], rs + [r])
  {
    var scopeOf', rs' := scopeOf[r.id := r.scope], rs + [r];
    forall id: Id ensures OwnerAgrees(scopeOf', rs', id) {
      assert OwnerAgrees(scopeOf, rs, id);
      FindIdAppend(rs, r, id);
    }
  }

  lemma TuplesKeepReading(byDedupeKey: map<Text, Record>, rs: seq<Record>, r: Record)
    requires TuplesRead(byDedupeKey, rs) && FindTuple(rs, r.Tuple()).None?
    ensures TuplesRead(byDedupeKey[DedupeKey(r.Tuple()) := r], rs + [r])
  {
    var byDedupeKey', rs' := byDedupeKey[DedupeKey(r.Tuple()) := r], rs + [r];
    assert rs'[..|rs|] == rs;
    forall tuple ensures TupleAgrees(byDedupeKey', rs', tuple) {
      assert TupleAgrees(byDedupeKey, rs, tuple);
      DedupeKeyInjective(tuple, r.Tuple());
    }
  }

  lemma KeysKeepReading(byKey: map<Text, Record>, bs: seq<Binding>, b: Binding)
    requires KeysRead(byKey, bs) && FindBinding(bs, b.scope, b.key).None?
    ensures KeysRead(byKey[ScopedKey(b.scope, b.key) := b.record], bs + [b])
  {
    var byKey', bs' := byKey[ScopedKey(b.scope, b.key) := b.record], bs + [b];
    assert bs'[..|bs|] == bs;
    forall scope, key ensures KeyAgrees(byKey', bs', scope, key) {
      assert KeyAgrees(byKey, bs, scope, key);
      ScopedKeyInjective(scope, key, b.scope, b.key);
    }
  }

  lemma {:induction false} NoAnchorsOf(xs: seq<Anchor>, id: Id)
    requires forall i :: 0 <= i < |xs| ==> xs[i].evidence != id
    ensures AnchorsOf(xs, id) == []
  {
    if xs != [] { NoAnchorsOf(xs[..|xs| - 1], id); }
  }

  lemma AnchorsKeepReading(anchorsBy: map<Id, seq<Anchor>>, log: Log, r: Record)
    requires AnchorsRead(anchorsBy, log.records, log.anchors) && AnchorsRooted(log) && FindId(log.records, r.id).None?
    ensures AnchorsRead(anchorsBy[r.id := []], log.records + [r], log.anchors)
  {
    NoAnchorsOf(log.anchors, r.id);
    var anchorsBy', rs' := anchorsBy[r.id := []], log.records + [r];
    forall id: Id ensures AnchorsAgree(anchorsBy', rs', log.anchors, id) {
      assert AnchorsAgree(anchorsBy, log.records, log.anchors, id);
      FindIdAppend(log.records, r, id);
    }
  }

  lemma AttachKeepsReading(anchorsBy: map<Id, seq<Anchor>>, rs: seq<Record>, xs: seq<Anchor>, x: Anchor)
    requires AnchorsRead(anchorsBy, rs, xs) && x.evidence in anchorsBy
    ensures AnchorsRead(anchorsBy[x.evidence := anchorsBy[x.evidence] + [x]], rs, xs + [x])
  {
    var anchorsBy', xs' := anchorsBy[x.evidence := anchorsBy[x.evidence] + [x]], xs + [x];
    assert xs'[..|xs|] == xs;
    forall id: Id ensures AnchorsAgree(anchorsBy', rs, xs', id) {
      assert AnchorsAgree(anchorsBy, rs, xs, id);
    }
  }

  class EvidenceLedger {
    var byScope: Stores
    var scopeOfEvidence: map<Id, Text>
    var byDedupeKey: map<Text, Record>
    var byIdempotencyKey: map<Text, Record>
    var anchorsByEvidence: map<Id, seq<Anchor>>
    var minted: nat
    ghost var log: Log

    /** The indexes are the one list, read five ways. */
    ghost predicate Valid()
      reads this
    {
      && LogValid(log) && minted == log.minted
      && ScopesRead(byScope, log.records) && OwnersRead(scopeOfEvidence, log.records)
      && TuplesRead(byDedupeKey, log.records) && KeysRead(byIdempotencyKey, log.bindings)
      && AnchorsRead(anchorsByEvidence, log.records, log.anchors)
    }

    constructor ()
      ensures Valid() && log == EMPTY
    {
      byScope, scopeOfEvidence, byDedupeKey, byIdempotencyKey, anchorsByEvidence := map[], map[], map[], map[], map[];
      minted, log := 0, EMPTY;
    }

    method Resolve(id: Id, scope: Option<Text>) returns (found: Option<Record>)
      requires Valid()
      ensures found == Read(log, id, scope)
    {
      assert OwnerAgrees(scopeOfEvidence, log.records, id);
      var owner := if scope.Some? then scope else if id in scopeOfEvidence then Some(scopeOfEvidence[id]) else None;
      if owner.None? {
        return None;
      }
      assert EntryAgrees(byScope, log.records, owner.value, id);
      found := Stored(byScope, owner.value, id);
    }

    method ListEvidence(scope: Text) returns (rs: seq<Record>)
      requires Valid()
      ensures rs == InScope(log.records, scope)
    {
      assert ListAgrees(byScope, log.records, scope);
      if scope !in byScope {
        return [];
      }
      rs := byScope[scope].Values();
    }

    method ListSourceAnchors(id: Id, scope: Option<Text>) returns (xs: seq<Anchor>)
      requires Valid()
      ensures xs == if Read(log, id, scope).Some? then AnchorsOf(log.anchors, id) else []
    {
      var evidence := Resolve(id, scope);
      FindIdFinds(log.records, id);
      assert AnchorsAgree(anchorsByEvidence, log.records, log.anchors, id);
      if evidence.None? {
        return [];
      }
      xs := if evidence.value.id in anchorsByEvidence then anchorsByEvidence[evidence.value.id] else [];
    }

    /** Anchors are refused for evidence the ledger does not hold. */
    method AddSourceAnchor(id: Id, kind: Text, location: Json, text: Maybe, at: Text) returns (anchor: Option<Anchor>)
      requires Valid()
      modifies this
      ensures Valid() && log == After(old(log), AddAnchor(id, kind, location, text, at))
      ensures anchor.Some? <==> FindId(old(log).records, id).Some?
      ensures anchor.Some? ==> log.anchors == old(log).anchors + [anchor.value]
    {
      var evidence := Resolve(id, None);
      FindIdFinds(log.records, id);
      assert AnchorsAgree(anchorsByEvidence, log.records, log.anchors, id);
      if evidence.None? {
        return None;
      }
      var x := Anchor(minted, evidence.value.id, evidence.value.scope, kind, location, text, at);
      AttachKeepsValid(log, evidence.value, kind, location, text, at);
      AttachKeepsReading(anchorsByEvidence, log.records, log.anchors, x);
      anchorsByEvidence := anchorsByEvidence[id := anchorsByEvidence[id] + [x]];
      minted := minted + 1;
      log := Attach(log, evidence.value, kind, location, text, at);
      return Some(x);
    }

    method RememberIdempotencyKey(input: Input, r: Record)
      requires Valid() && r in log.records && r.scope == input.scope
      requires input.idempotencyKey.Some? ==> FindBinding(log.bindings, input.scope, input.idempotencyKey.value).None?
      modifies this`byIdempotencyKey, this`log
      ensures Valid() && log == Bind(old(log), input, r)
    {
      if input.idempotencyKey.None? {
        return;
      }
      var key := input.idempotencyKey.value;
      KeysKeepReading(byIdempotencyKey, log.bindings, Binding(input.scope, key, r));
      BindKeepsValid(log, input, r);
      byIdempotencyKey := byIdempotencyKey[ScopedKey(input.scope, key) := r];
      log := Bind(log, input, r);
    }

    /** Everything a fresh record needs, before any hook sees it. */
    method PersistFresh(input: Input, now: Text) returns (r: Record)
      requires Valid() && Known(log, input).None?
      modifies this
      ensures Valid() && log == Persist(old(log), input, now) && r == input.Stored(old(log).minted, now)
    {
      r := input.Stored(minted, now);
      FindIdFinds(log.records, r.id);
      PersistKeepsValid(log, input.(idempotencyKey := None), now);
      ScopesKeepReading(byScope, log.records, r);
      OwnersKeepReading(scopeOfEvidence, log.records, r);
      TuplesKeepReading(byDedupeKey, log.records, r);
      AnchorsKeepReading(anchorsByEvidence, log, r);
      byScope := WithRecord(byScope, r);
      scopeOfEvidence := scopeOfEvidence[r.id := r.scope];
      byDedupeKey := byDedupeKey[DedupeKey(r.Tuple()) := r];
      anchorsByEvidence := anchorsByEvidence[r.id := []];
      minted := minted + 1;
      log := Persist(log, input.(idempotencyKey := None), now);
      assert log.records[|log.records| - 1] == r;
      RememberIdempotencyKey(input, r);
    }

    method IngestOne(input: Input, now: Text, hook: seq<Call>) returns (r: Record)
      requires Valid()
      modifies this
      ensures Valid() && log == After(old(log), Ingest(input, now, hook)) && r == Returned(old(log), input, now)
      decreases hook, 1
    {
      if input.idempotencyKey.Some? {
        var key := ScopedKey(input.scope, input.idempotencyKey.value);
        assert KeyAgrees(byIdempotencyKey, log.bindings, input.scope, input.idempotencyKey.value);
        if key in byIdempotencyKey {
          return byIdempotencyKey[key];
        }
      }
      var dedupeKey := DedupeKey(input.Tuple());
      assert TupleAgrees(byDedupeKey, log.records, input.Tuple());
      if dedupeKey in byDedupeKey {
        r := byDedupeKey[dedupeKey];
        KnownIsStored(log, input);
        RememberIdempotencyKey(input, r);
        return;
      }
      r := PersistFresh(input, now);
      RunHook(hook);
    }

    /** What a hook does to the ledger, one call after another. */
    method RunHook(calls: seq<Call>)
      requires Valid()
      modifies this
      ensures Valid() && log == AfterAll(old(log), calls)
      decreases calls, 0
    {
      for i := 0 to |calls|
        invariant Valid() && log == AfterAll(old(log), calls[..i])
      {
        assert calls[..i + 1][..i] == calls[..i];
        match calls[i]
        case Ingest(input, now, hook) =>
          var _ := IngestOne(input, now, hook);
        case AddAnchor(evidence, kind, location, text, at) =>
          var _ := AddSourceAnchor(evidence, kind, location, text, at);
      }
      assert calls[..|calls|] == calls;
    }
  }
}
