/** Transactional ingest: one stored item per identity tuple, one item per
    idempotency key, and imports that can be repeated. Each call is one owner
    transaction; a refusal rolls all of it back. */
module Ingest {
  import opened Options
  import opened Text
  import opened Utf8
  import opened CanonicalJson

  /** An item's id is its place in insertion order. */
  type Id = nat

  /** A stored source item: its uniqueness tuple and the key it was inserted under. */
  datatype Item = Item(identity: Identity, key: Text)

  datatype ReceiptKey = ReceiptKey(owner: Text, key: Text)

  /** An anchor's location is kept as its canonical text, because JSON locations
      compare as values. */
  datatype AnchorKey = AnchorKey(item: Id, kind: Text, location: Text)
  datatype Anchor = Anchor(kind: Text, location: Text, text: Maybe)

  /** `minted` counts the private object locations handed out. An object's bytes are
      the ones its hash was taken of. */
  datatype State = State(
    items: seq<Item>, receipts: map<ReceiptKey, Id>, objectKeys: map<Id, nat>, objects: map<Id, Text>,
    anchors: map<AnchorKey, Maybe>, minted: nat)

  const EMPTY := State([], map[], map[], map[], map[], 0)

  /** An identity as its columns give it back: the connector's id in lower case. */
  function Filed(i: Identity): Identity {
    i.(connector := if i.connector.Present? then Present(Lowered(i.connector.text)) else Absent)
  }

  predicate IsAsFiled(i: Identity) {
    Filed(i) == i
  }

  lemma FiledIsAsFiled(i: Identity)
    ensures IsAsFiled(Filed(i))
  {
    if i.connector.Present? { LoweredTwice(i.connector.text); }
  }

  /** What a submission says: its tuple as written, its key, and its anchors.
      SHA-256 is taken as one-to-one, so a hash is the bytes it was taken of. */
  datatype Row = Row(tuple: Identity, key: Text, anchors: seq<Anchor>)
  {
    function Receipt(): ReceiptKey {
      ReceiptKey(tuple.scope, key)
    }
  }

  datatype Code = IDEMPOTENCY_CONFLICT | EVIDENCE_CONFLICT
  datatype Answer<+T> = Accepted(value: T) | Refused(code: Code)
  datatype Stored = Stored(item: Id, isNew: bool)

  // ---------------------------------------------------------------------
  // One submission
  // ---------------------------------------------------------------------

  function FindItem(items: seq<Item>, identity: Identity): Option<Id> {
    if items == [] then None
    else if FindItem(items[..|items| - 1], identity).Some? then FindItem(items[..|items| - 1], identity)
    else if items[|items| - 1].identity == identity then Some(|items| - 1)
    else None
  }

  lemma {:induction false} FindItemFinds(items: seq<Item>, identity: Identity)
    ensures FindItem(items, identity).Some? ==>
      FindItem(items, identity).value < |items| && items[FindItem(items, identity).value].identity == identity
    ensures FindItem(items, identity).None? ==> forall i :: 0 <= i < |items| ==> items[i].identity != identity
  {
    if items != [] { FindItemFinds(items[..|items| - 1], identity); }
  }

  /** The item this key has been accepted for. */
  function Prior(s: State, row: Row): Option<Id> {
    if row.Receipt() in s.receipts then Some(s.receipts[row.Receipt()]) else None
  }

  /** The key was accepted for something else. The stored columns are compared with the
      tuple as written. */
  predicate Conflicts(s: State, row: Row) {
    Prior(s, row).Some? && Prior(s, row).value < |s.items| && s.items[Prior(s, row).value].identity != row.tuple
  }

  function Insert(s: State, row: Row): State {
    State(s.items + [Item(Filed(row.tuple), row.key)], s.receipts[row.Receipt() := |s.items|],
          s.objectKeys[|s.items| := s.minted], s.objects[|s.items| := row.tuple.contentHash], s.anchors, s.minted + 1)
  }

  /** What one submission comes to: a conflicting key changes nothing; a known tuple
      gains at most a receipt; only a new tuple stores an item. */
  function AfterIngest(s: State, row: Row): State {
    if Conflicts(s, row) then s
    else
      var known := FindItem(s.items, Filed(row.tuple));
      if known.Some? then s.(receipts := s.receipts[row.Receipt() := known.value]) else Insert(s, row)
  }

  function AnswerOf(s: State, row: Row): Answer<Stored> {
    if Conflicts(s, row) then Refused(IDEMPOTENCY_CONFLICT)
    else
      var known := FindItem(s.items, Filed(row.tuple));
      if known.Some? then Accepted(Stored(known.value, false)) else Accepted(Stored(|s.items|, true))
  }

  // ---------------------------------------------------------------------
  // Anchors and imports
  // ---------------------------------------------------------------------

  function KeyOf(item: Id, a: Anchor): AnchorKey {
    AnchorKey(item, a.kind, a.location)
  }

  /** An anchor already there is left as it is. */
  function WithAnchors(have: map<AnchorKey, Maybe>, item: Id, more: seq<Anchor>): map<AnchorKey, Maybe> {
    if more == [] then have
    else
      var before, a := WithAnchors(have, item, more[..|more| - 1]), more[|more| - 1];
      if KeyOf(item, a) in before then before else before[KeyOf(item, a) := a.text]
  }

  /** A submission and its anchors. */
  function AfterSubmit(s: State, row: Row): State {
    var next := AfterIngest(s, row);
    if AnswerOf(s, row).Refused? then s else next.(anchors := WithAnchors(next.anchors, AnswerOf(s, row).value.item, row.anchors))
  }

  /** Partial progress through an import, before the transaction commits. */
  datatype Progress = Progress(state: State, imported: seq<Stored>)

  function Imported(s: State, rows: seq<Row>): Answer<Progress> {
    if rows == [] then Accepted(Progress(s, []))
    else
      var before, row := Imported(s, rows[..|rows| - 1]), rows[|rows| - 1];
      if before.Refused? then before
      else if AnswerOf(before.value.state, row).Refused? then Refused(AnswerOf(before.value.state, row).code)
      else Accepted(Progress(AfterSubmit(before.value.state, row),
                             before.value.imported + [AnswerOf(before.value.state, row).value]))
  }

  function AfterImport(s: State, rows: seq<Row>): State {
    var result := Imported(s, rows);
    if result.Accepted? then result.value.state else s
  }

  // ---------------------------------------------------------------------
  // What every sequence of submissions keeps
  // ---------------------------------------------------------------------

  predicate OneItemPerIdentity(s: State) {
    && (forall i, j :: 0 <= i < j < |s.items| ==> s.items[i].identity != s.items[j].identity)
    && forall i :: 0 <= i < |s.items| ==> IsAsFiled(s.items[i].identity)
  }

  predicate ReceiptRooted(s: State, k: ReceiptKey) {
    k in s.receipts ==> s.receipts[k] < |s.items| && s.items[s.receipts[k]].identity.scope == k.owner
  }

  predicate OwnKeyAccepted(s: State, i: Id) {
    i < |s.items| ==> ReceiptKey(s.items[i].identity.scope, s.items[i].key) in s.receipts
  }

  /** Receipts name items of their own owner, and every item's own key is accepted. */
  ghost predicate ReceiptsRooted(s: State) {
    (forall k :: ReceiptRooted(s, k)) && forall i :: OwnKeyAccepted(s, i)
  }

  /** Every item has exactly one private location, no two share one, and the bytes
      kept there are the ones its hash was taken of. */
  ghost predicate OneObjectPerItem(s: State) {
    && (forall i :: i in s.objectKeys <==> 0 <= i < |s.items|)
    && (forall i :: i in s.objectKeys ==> s.objectKeys[i] < s.minted)
    && (forall i, j :: i in s.objectKeys && j in s.objectKeys && s.objectKeys[i] == s.objectKeys[j] ==> i == j)
    && (forall i :: i in s.objects <==> 0 <= i < |s.items|)
    && forall i :: 0 <= i < |s.items| ==> s.objects[i] == s.items[i].identity.contentHash
  }

  predicate AnchorsRooted(s: State) {
    forall k :: k in s.anchors ==> k.item < |s.items|
  }

  ghost predicate Valid(s: State) {
    OneItemPerIdentity(s) && ReceiptsRooted(s) && OneObjectPerItem(s) && AnchorsRooted(s)
  }

  ghost predicate Within<K(!new), V>(a: map<K, V>, b: map<K, V>) {
    forall k :: k in a ==> k in b && b[k] == a[k]
  }

  /** Nothing accepted is lost, rebound or rewritten. */
  ghost predicate Extends(s: State, later: State) {
    && s.items <= later.items && Within(s.receipts, later.receipts) && Within(s.objectKeys, later.objectKeys)
    && Within(s.objects, later.objects) && Within(s.anchors, later.anchors)
  }

  lemma {:induction false} WithAnchorsAdds(have: map<AnchorKey, Maybe>, item: Id, more: seq<Anchor>)
    ensures Within(have, WithAnchors(have, item, more))
    ensures forall k :: k in WithAnchors(have, item, more) <==>
      k in have || exists i :: 0 <= i < |more| && k == KeyOf(item, more[i])
  {
    if more != [] {
      var front := more[..|more| - 1];
      WithAnchorsAdds(have, item, front);
      forall k ensures k in WithAnchors(have, item, more) <==> k in have || exists i :: 0 <= i < |more| && k == KeyOf(item, more[i]) {
        if i :| 0 <= i < |more| && k == KeyOf(item, more[i]) && i < |front| {
          assert k == KeyOf(item, front[i]);
        }
        if i :| 0 <= i < |front| && k == KeyOf(item, front[i]) {
          assert k == KeyOf(item, more[i]);
        }
        assert KeyOf(item, more[|more| - 1]) in WithAnchors(have, item, more);
      }
    }
  }

  lemma {:induction false} PresentAnchorsStay(have: map<AnchorKey, Maybe>, item: Id, more: seq<Anchor>)
    requires forall i :: 0 <= i < |more| ==> KeyOf(item, more[i]) in have
    ensures WithAnchors(have, item, more) == have
  {
    if more != [] { PresentAnchorsStay(have, item, more[..|more| - 1]); }
  }

  lemma IngestKeepsValid(s: State, row: Row)
    requires Valid(s)
    ensures Valid(AfterIngest(s, row)) && Extends(s, AfterIngest(s, row))
    ensures AnswerOf(s, row).Accepted? ==> AnswerOf(s, row).value.item < |AfterIngest(s, row).items|
  {
    FindItemFinds(s.items, Filed(row.tuple));
    assert ReceiptRooted(s, row.Receipt());
    if !Conflicts(s, row) {
      if FindItem(s.items, Filed(row.tuple)).Some? {
        BindKeepsValid(s, row, FindItem(s.items, Filed(row.tuple)).value);
      } else {
        InsertKeepsValid(s, row);
      }
    }
  }

  lemma BindKeepsValid(s: State, row: Row, item: Id)
    requires Valid(s) && item < |s.items| && s.items[item].identity == Filed(row.tuple) && !Conflicts(s, row)
    ensures var s' := s.(receipts := s.receipts[row.Receipt() := item]); Valid(s') && Extends(s, s')
  {
    var s' := s.(receipts := s.receipts[row.Receipt() := item]);
    assert ReceiptRooted(s, row.Receipt());
    assert row.Receipt() in s.receipts ==> s.receipts[row.Receipt()] == item;
    forall k: ReceiptKey ensures ReceiptRooted(s', k) { assert ReceiptRooted(s, k); }
    forall i: Id ensures OwnKeyAccepted(s', i) { assert OwnKeyAccepted(s, i); }
  }

  lemma InsertKeepsValid(s: State, row: Row)
    requires Valid(s) && FindItem(s.items, Filed(row.tuple)).None? && row.Receipt() !in s.receipts
    ensures Valid(Insert(s, row)) && Extends(s, Insert(s, row))
  {
    InsertKeepsReceipts(s, row);
    InsertKeepsObjects(s, row);
    FiledIsAsFiled(row.tuple);
    FindItemFinds(s.items, Filed(row.tuple));
  }

  lemma InsertKeepsReceipts(s: State, row: Row)
    requires ReceiptsRooted(s)
    ensures ReceiptsRooted(Insert(s, row))
  {
    var s' := Insert(s, row);
    forall k: ReceiptKey ensures ReceiptRooted(s', k) { assert ReceiptRooted(s, k); }
    forall i: Id ensures OwnKeyAccepted(s', i) { assert OwnKeyAccepted(s, i); }
  }

  lemma InsertKeepsObjects(s: State, row: Row)
    requires OneObjectPerItem(s)
    ensures OneObjectPerItem(Insert(s, row))
    ensures Within(s.objectKeys, Insert(s, row).objectKeys) && Within(s.objects, Insert(s, row).objects)
  {}

  lemma AnchorsAreSeparate(s: State, anchors: map<AnchorKey, Maybe>)
    requires Valid(s) && forall k :: k in anchors ==> k.item < |s.items|
    ensures Valid(s.(anchors := anchors))
  {
    var s' := s.(anchors := anchors);
    forall k: ReceiptKey ensures ReceiptRooted(s', k) { assert ReceiptRooted(s, k); }
    forall i: Id ensures OwnKeyAccepted(s', i) { assert OwnKeyAccepted(s, i); }
  }

  lemma SubmitKeepsValid(s: State, row: Row)
    requires Valid(s)
    ensures Valid(AfterSubmit(s, row)) && Extends(s, AfterSubmit(s, row))
  {
    IngestKeepsValid(s, row);
    if AnswerOf(s, row).Accepted? {
      var next := AfterIngest(s, row);
      WithAnchorsAdds(next.anchors, AnswerOf(s, row).value.item, row.anchors);
      AnchorsAreSeparate(next, WithAnchors(next.anchors, AnswerOf(s, row).value.item, row.anchors));
    }
  }

  lemma {:induction false} ImportKeepsValid(s: State, rows: seq<Row>)
    requires Valid(s) && Imported(s, rows).Accepted?
    ensures Valid(Imported(s, rows).value.state) && Extends(s, Imported(s, rows).value.state)
    ensures |Imported(s, rows).value.imported| == |rows|
  {
    if rows != [] {
      var front := rows[..|rows| - 1];
      ImportKeepsValid(s, front);
      SubmitKeepsValid(Imported(s, front).value.state, rows[|rows| - 1]);
      ExtendsTransitive(s, Imported(s, front).value.state, Imported(s, rows).value.state);
    }
  }

  lemma ExtendsTransitive(a: State, b: State, c: State)
    requires Extends(a, b) && Extends(b, c)
    ensures Extends(a, c)
  {}

  datatype Step = Submit(row: Row) | Import(rows: seq<Row>)

  function After(s: State, step: Step): State {
    match step
    case Submit(row) => AfterSubmit(s, row)
    case Import(rows) => AfterImport(s, rows)
  }

  function Run(s: State, steps: seq<Step>): State {
    if steps == [] then s else After(Run(s, steps[..|steps| - 1]), steps[|steps| - 1])
  }

  lemma StepKeepsValid(s: State, step: Step)
    requires Valid(s)
    ensures Valid(After(s, step)) && Extends(s, After(s, step))
  {
    match step
    case Submit(row) => SubmitKeepsValid(s, row);
    case Import(rows) =>
      if Imported(s, rows).Accepted? { ImportKeepsValid(s, rows); }
  }

  /** Over every sequence of submissions and imports: one item, one location and one
      body per identity; every accepted key bound to one item; nothing undone. */
  lemma {:induction false} RunsKeepEvidence(s: State, steps: seq<Step>)
    requires Valid(s)
    ensures Valid(Run(s, steps)) && Extends(s, Run(s, steps))
  {
    if steps != [] {
      var front := steps[..|steps| - 1];
      RunsKeepEvidence(s, front);
      StepKeepsValid(Run(s, front), steps[|steps| - 1]);
      ExtendsTransitive(s, Run(s, front), Run(s, steps));
    }
  }

  lemma EmptyStoreIsValid()
    ensures Valid(EMPTY)
  {}

  /** Every store that submissions and imports make of the empty one is valid. */
  lemma ReachedStoresAreValid(steps: seq<Step>, more: seq<Step>)
    ensures Valid(Run(EMPTY, steps)) && Extends(Run(EMPTY, steps), Run(Run(EMPTY, steps), more))
  {
    EmptyStoreIsValid();
    RunsKeepEvidence(EMPTY, steps);
    RunsKeepEvidence(Run(EMPTY, steps), more);
  }

  // ---------------------------------------------------------------------
  // What callers may rely on
  // ---------------------------------------------------------------------

  /** Once accepted, a key names its item for ever. A later submission under it is
      answered that item exactly when it is written as the item is stored, is refused
      otherwise, and changes nothing either way. So a submission can be repeated
      exactly when its connector is written in lower case. */
  lemma AcceptedKeysNameOneItem(s: State, row: Row, steps: seq<Step>, again: Row)
    requires Valid(s) && AnswerOf(s, row).Accepted? && again.Receipt() == row.Receipt()
    ensures var later := Run(AfterIngest(s, row), steps);
      && AfterIngest(later, again) == later
      && AnswerOf(later, again) ==
           (if again.tuple == Filed(row.tuple) then Accepted(Stored(AnswerOf(s, row).value.item, false)) else Refused(IDEMPOTENCY_CONFLICT))
      && (again == row ==> (AnswerOf(later, again).Accepted? <==> IsAsFiled(row.tuple)))
  {
    var next := AfterIngest(s, row);
    IngestKeepsValid(s, row);
    AcceptedIsFiled(s, row);
    RunsKeepEvidence(next, steps);
    FiledKeyAnswers(Run(next, steps), row, AnswerOf(s, row).value.item, again);
  }

  lemma FiledKeyAnswers(s: State, row: Row, item: Id, again: Row)
    requires Valid(s) && item < |s.items| && s.items[item].identity == Filed(row.tuple)
    requires row.Receipt() in s.receipts && s.receipts[row.Receipt()] == item && again.Receipt() == row.Receipt()
    ensures AfterIngest(s, again) == s
    ensures AnswerOf(s, again) == if again.tuple == Filed(row.tuple) then Accepted(Stored(item, false)) else Refused(IDEMPOTENCY_CONFLICT)
  {
    FindItemFinds(s.items, Filed(again.tuple));
    FiledIsAsFiled(row.tuple);
    assert s.receipts[again.Receipt() := item] == s.receipts;
  }

  /** The only refusal is a key accepted before, for a different identity or for one
      whose connector is now written otherwise; it leaves everything as it was. */
  lemma RefusedExactlyOnKeyReuse(s: State, row: Row)
    requires Valid(s)
    ensures AnswerOf(s, row).Refused? <==>
      && row.Receipt() in s.receipts && s.receipts[row.Receipt()] < |s.items|
      && (s.items[s.receipts[row.Receipt()]].identity != Filed(row.tuple) || !IsAsFiled(row.tuple))
    ensures AnswerOf(s, row).Refused? ==> AfterSubmit(s, row) == s
  {
    assert ReceiptRooted(s, row.Receipt());
    assert row.Receipt() in s.receipts ==> IsAsFiled(s.items[s.receipts[row.Receipt()]].identity);
  }

  /** Submitted to the empty store and submitted again, a connector in upper case is
      accepted and then refused. */
  lemma UpperCaseConnectorCannotBeRepeated(scope: Text, sourceType: Text, externalId: Text, hash: Text, key: Text)
    ensures var row := Row(Identity(scope, Present([0x41]), sourceType, externalId, hash), key, []);
      && AnswerOf(EMPTY, row) == Accepted(Stored(0, true))
      && AnswerOf(AfterIngest(EMPTY, row), row) == Refused(IDEMPOTENCY_CONFLICT)
  {
    var row := Row(Identity(scope, Present([0x41]), sourceType, externalId, hash), key, []);
    EmptyStoreIsValid();
    assert Lowered([0x41])[0] == 0x61;
    AcceptedKeysNameOneItem(EMPTY, row, [], row);
  }

  lemma AcceptedIsFiled(s: State, row: Row)
    requires Valid(s) && AnswerOf(s, row).Accepted?
    ensures var next, item := AfterIngest(s, row), AnswerOf(s, row).value.item;
      && item < |next.items| && next.items[item].identity == Filed(row.tuple)
      && row.Receipt() in next.receipts && next.receipts[row.Receipt()] == item
  {
    FindItemFinds(s.items, Filed(row.tuple));
  }

  /** Two accepted submissions are one item exactly when their tuples agree, in
      whatever case each writes its connector. */
  lemma OneItemExactlyPerTuple(s: State, a: Row, b: Row)
    requires Valid(s) && AnswerOf(s, a).Accepted? && AnswerOf(AfterIngest(s, a), b).Accepted?
    ensures AnswerOf(AfterIngest(s, a), b).value.item == AnswerOf(s, a).value.item <==> Filed(a.tuple) == Filed(b.tuple)
  {
    var next := AfterIngest(s, a);
    IngestKeepsValid(s, a);
    AcceptedIsFiled(s, a);
    AcceptedIsFiled(next, b);
    IngestKeepsValid(next, b);
  }

  /** Everything this row asks for is in place. */
  ghost predicate Settled(s: State, row: Row, item: Id) {
    && item < |s.items| && s.items[item].identity == Filed(row.tuple)
    && row.Receipt() in s.receipts && s.receipts[row.Receipt()] == item
    && forall i :: 0 <= i < |row.anchors| ==> KeyOf(item, row.anchors[i]) in s.anchors
  }

  lemma SettledStays(s: State, later: State, row: Row, item: Id)
    requires Settled(s, row, item) && Extends(s, later)
    ensures Settled(later, row, item)
  {}

  lemma SubmittingSettles(s: State, row: Row)
    requires Valid(s) && AnswerOf(s, row).Accepted?
    ensures Settled(AfterSubmit(s, row), row, AnswerOf(s, row).value.item)
  {
    AcceptedIsFiled(s, row);
    WithAnchorsAdds(AfterIngest(s, row).anchors, AnswerOf(s, row).value.item, row.anchors);
  }

  /** An accepted import is an accepted import of the rows before the last, and then
      the last one's submission. */
  lemma ImportedStep(s: State, rows: seq<Row>)
    requires rows != []
    ensures var before, row := Imported(s, rows[..|rows| - 1]), rows[|rows| - 1];
      Imported(s, rows) ==
        if before.Refused? then before
        else if AnswerOf(before.value.state, row).Refused? then Refused(AnswerOf(before.value.state, row).code)
        else Accepted(Progress(AfterSubmit(before.value.state, row),
                               before.value.imported + [AnswerOf(before.value.state, row).value]))
  {}

  ghost predicate AllSettled(s: State, rows: seq<Row>, imported: seq<Stored>) {
    |imported| == |rows| && forall i :: 0 <= i < |rows| ==> Settled(s, rows[i], imported[i].item)
  }

  lemma AllSettledStay(s: State, later: State, rows: seq<Row>, imported: seq<Stored>)
    requires AllSettled(s, rows, imported) && Extends(s, later)
    ensures AllSettled(later, rows, imported)
  {
    hide Settled, Extends;
    forall i | 0 <= i < |rows| ensures Settled(later, rows[i], imported[i].item) {
      SettledStays(s, later, rows[i], imported[i].item);
    }
  }

  lemma AllSettledWith(s: State, rows: seq<Row>, imported: seq<Stored>, row: Row, one: Stored)
    requires AllSettled(s, rows, imported) && Settled(s, row, one.item)
    ensures AllSettled(s, rows + [row], imported + [one])
  {
    hide Settled;
  }

  lemma {:induction false} ImportSettles(s: State, rows: seq<Row>)
    requires Valid(s) && Imported(s, rows).Accepted?
    ensures AllSettled(Imported(s, rows).value.state, rows, Imported(s, rows).value.imported)
  {
    if rows != [] {
      var front, last := rows[..|rows| - 1], rows[|rows| - 1];
      ImportedStep(s, rows);
      hide *;
      var mid := Imported(s, front).value;
      ImportKeepsValid(s, front);
      ImportSettles(s, front);
      SubmitKeepsValid(mid.state, last);
      AllSettledStay(mid.state, AfterSubmit(mid.state, last), front, mid.imported);
      SubmittingSettles(mid.state, last);
      AllSettledWith(AfterSubmit(mid.state, last), front, mid.imported, last, AnswerOf(mid.state, last).value);
      assert rows == front + [last];
    }
  }

  lemma SettledIsUntouched(s: State, row: Row, item: Id)
    requires Valid(s) && Settled(s, row, item)
    ensures AnswerOf(s, row) == if IsAsFiled(row.tuple) then Accepted(Stored(item, false)) else Refused(IDEMPOTENCY_CONFLICT)
    ensures AfterSubmit(s, row) == s
  {
    FindItemFinds(s.items, Filed(row.tuple));
    FiledIsAsFiled(row.tuple);
    assert s.receipts[row.Receipt() := item] == s.receipts;
    PresentAnchorsStay(s.anchors, item, row.anchors);
  }

  predicate AllAsFiled(rows: seq<Row>) {
    forall i :: 0 <= i < |rows| ==> IsAsFiled(rows[i].tuple)
  }

  lemma AllAsFiledStep(rows: seq<Row>)
    requires rows != []
    ensures AllAsFiled(rows) <==> AllAsFiled(rows[..|rows| - 1]) && IsAsFiled(rows[|rows| - 1].tuple)
  {
    hide IsAsFiled;
  }

  predicate NoneNew(imported: seq<Stored>) {
    forall i :: 0 <= i < |imported| ==> !imported[i].isNew
  }

  lemma AllSettledStep(s: State, rows: seq<Row>, imported: seq<Stored>)
    requires rows != [] && AllSettled(s, rows, imported) && NoneNew(imported)
    ensures var n := |rows| - 1;
      && |imported| == n + 1 && AllSettled(s, rows[..n], imported[..n]) && NoneNew(imported[..n])
      && Settled(s, rows[n], imported[n].item) && imported == imported[..n] + [Stored(imported[n].item, false)]
  {
    hide Settled;
  }

  lemma {:induction false} ImportOfSettled(s: State, rows: seq<Row>, imported: seq<Stored>)
    requires Valid(s) && AllSettled(s, rows, imported) && NoneNew(imported)
    ensures Imported(s, rows) == if AllAsFiled(rows) then Accepted(Progress(s, imported)) else Refused(IDEMPOTENCY_CONFLICT)
  {
    if rows != [] {
      ImportedStep(s, rows);
      AllAsFiledStep(rows);
      hide *;
      var n := |rows| - 1;
      AllSettledStep(s, rows, imported);
      ImportOfSettled(s, rows[..n], imported[..n]);
      SettledIsUntouched(s, rows[n], imported[n].item);
    }
  }

  function AsKnown(imported: seq<Stored>): (known: seq<Stored>)
    ensures |known| == |imported| && forall i :: 0 <= i < |known| ==> known[i] == Stored(imported[i].item, false)
  {
    seq(|imported|, i requires 0 <= i < |imported| => Stored(imported[i].item, false))
  }

  /** Importing the same rows again, at any later time, changes nothing. It answers the
      same items, none of them new, exactly when connectors are written in lower case;
      otherwise the repeat is refused. */
  lemma ReimportChangesNothing(s: State, rows: seq<Row>, steps: seq<Step>)
    requires Valid(s) && Imported(s, rows).Accepted?
    ensures var later := Run(AfterImport(s, rows), steps);
      && AfterImport(later, rows) == later
      && Imported(later, rows) ==
           if AllAsFiled(rows) then Accepted(Progress(later, AsKnown(Imported(s, rows).value.imported)))
           else Refused(IDEMPOTENCY_CONFLICT)
  {
    var r := Imported(s, rows).value;
    ImportKeepsValid(s, rows);
    RunsKeepEvidence(r.state, steps);
    var later := Run(r.state, steps);
    ImportSettles(s, rows);
    AllSettledStay(r.state, later, rows, r.imported);
    ImportOfSettled(later, rows, AsKnown(r.imported));
  }

  // ---------------------------------------------------------------------
  // What submissions and parsed payloads are filed under
  // ---------------------------------------------------------------------

  datatype Input = Input(owner: Text, connector: Maybe, sourceType: Text, externalId: Text, content: Json, key: Text)

  function RowOf(input: Input): Row {
    Row(Identity(input.owner, input.connector, input.sourceType, input.externalId, Utf8Of(Print(input.content))), input.key, [])
  }

  /** Submissions of equal tuples share an item exactly when their contents are the
      same JSON value, whatever the order of their keys. */
  lemma SameContentIsOneItem(s: State, a: Input, b: Input)
    requires Valid(s) && AnswerOf(s, RowOf(a)).Accepted? && AnswerOf(AfterIngest(s, RowOf(a)), RowOf(b)).Accepted?
    requires Filed(RowOf(a).tuple).connector == Filed(RowOf(b).tuple).connector
    requires a.owner == b.owner && a.sourceType == b.sourceType && a.externalId == b.externalId
    requires WellFormed(a.content) && WellFormed(b.content)
    ensures AnswerOf(AfterIngest(s, RowOf(a)), RowOf(b)).value.item == AnswerOf(s, RowOf(a)).value.item <==> Same(a.content, b.content)
  {
    PrintedBytesAreCanonical(a.content, b.content);
    OneItemExactlyPerTuple(s, RowOf(a), RowOf(b));
  }

  /** The retry key an import derives: a hash of the tuple's canonical text. */
  function ImportKey(tuple: Identity): Text {
    Utf8Of(DedupeKey(tuple))
  }

  lemma ImportKeyInjective(i: Identity, j: Identity)
    ensures ImportKey(i) == ImportKey(j) <==> i == j
  {
    DedupeKeyIsPaired(i);
    DedupeKeyIsPaired(j);
    PairedIsRepaired(DedupeKey(i));
    PairedIsRepaired(DedupeKey(j));
    Utf8IsOneToOne(DedupeKey(i), DedupeKey(j));
    DedupeKeyInjective(i, j);
  }

  function ImportRow(tuple: Identity, anchors: seq<Anchor>): Row {
    Row(tuple, ImportKey(tuple), anchors)
  }

  predicate FromImport(row: Row) {
    row == ImportRow(row.tuple, row.anchors)
  }

  /** The key was derived from some way of writing the item's tuple. */
  ghost predicate KeyDerived(s: State, k: ReceiptKey) {
    k in s.receipts ==> s.receipts[k] < |s.items| && exists written :: Spells(written, s.items[s.receipts[k]].identity, k.key)
  }

  predicate Spells(written: Identity, identity: Identity, key: Text) {
    Filed(written) == identity && key == ImportKey(written)
  }

  ghost predicate KeysDerived(s: State) {
    forall k :: KeyDerived(s, k)
  }

  lemma DerivedKeyClash(s: State, row: Row)
    requires Valid(s) && KeysDerived(s) && FromImport(row)
    ensures AnswerOf(s, row).Refused? <==> row.Receipt() in s.receipts && !IsAsFiled(row.tuple)
  {
    hide ImportKey;
    assert KeyDerived(s, row.Receipt());
    RefusedExactlyOnKeyReuse(s, row);
    if row.Receipt() in s.receipts {
      var written :| Spells(written, s.items[s.receipts[row.Receipt()]].identity, row.key);
      ImportKeyInjective(written, row.tuple);
    }
  }

  lemma SubmitBinds(s: State, row: Row)
    requires Valid(s) && AnswerOf(s, row).Accepted?
    ensures var s', item := AfterSubmit(s, row), AnswerOf(s, row).value.item;
      && s'.receipts == s.receipts[row.Receipt() := item] && s.items <= s'.items
      && item < |s'.items| && s'.items[item].identity == Filed(row.tuple)
  {
    FindItemFinds(s.items, Filed(row.tuple));
    AcceptedIsFiled(s, row);
  }

  lemma SubmitKeepsKey(s: State, row: Row, k: ReceiptKey)
    requires Valid(s) && KeyDerived(s, k) && FromImport(row) && AnswerOf(s, row).Accepted?
    ensures KeyDerived(AfterSubmit(s, row), k)
  {
    SubmitBinds(s, row);
    assert Spells(row.tuple, Filed(row.tuple), row.key);
    hide ImportKey, Spells, AnswerOf, AfterSubmit, Valid, Filed;
    if k in s.receipts && k != row.Receipt() {
      var written :| Spells(written, s.items[s.receipts[k]].identity, k.key);
    }
  }

  lemma SubmitKeepsDerived(s: State, row: Row)
    requires Valid(s) && KeysDerived(s) && FromImport(row)
    ensures Valid(AfterSubmit(s, row)) && KeysDerived(AfterSubmit(s, row))
    ensures AnswerOf(s, row).Accepted? ==>
      forall k :: k in AfterSubmit(s, row).receipts <==> k in s.receipts || k == row.Receipt()
  {
    SubmitKeepsValid(s, row);
    if AnswerOf(s, row).Accepted? {
      SubmitBinds(s, row);
      hide AnswerOf, Valid, KeyDerived, FromImport, AfterSubmit;
      forall k: ReceiptKey ensures KeyDerived(AfterSubmit(s, row), k) {
        SubmitKeepsKey(s, row, k);
      }
    }
  }

  /** A receipt the store holds or one of the rows asks for. */
  predicate InUse(s: State, rows: seq<Row>, k: ReceiptKey) {
    k in s.receipts || exists i :: 0 <= i < |rows| && rows[i].Receipt() == k
  }

  /** The row is written in lower case, or its key is in use neither in the store nor by
      an earlier row. */
  predicate NoClash(s: State, rows: seq<Row>, i: nat)
    requires i < |rows|
  {
    IsAsFiled(rows[i].tuple) || !InUse(s, rows[..i], rows[i].Receipt())
  }

  predicate NoneClash(s: State, rows: seq<Row>) {
    forall i: nat :: i < |rows| ==> NoClash(s, rows, i)
  }

  lemma InUseStep(s: State, rows: seq<Row>, k: ReceiptKey)
    requires rows != []
    ensures InUse(s, rows, k) <==> InUse(s, rows[..|rows| - 1], k) || k == rows[|rows| - 1].Receipt()
  {
    var n := |rows| - 1;
    assert forall i :: 0 <= i < n ==> rows[..n][i] == rows[i];
    assert rows[n].Receipt() == k ==> InUse(s, rows, k);
  }

  lemma NoClashInFront(s: State, rows: seq<Row>)
    requires rows != []
    ensures NoneClash(s, rows) <==> NoneClash(s, rows[..|rows| - 1]) && NoClash(s, rows, |rows| - 1)
  {
    hide InUse, IsAsFiled;
    var front := rows[..|rows| - 1];
    forall i: nat | i < |front| ensures NoClash(s, front, i) <==> NoClash(s, rows, i) {
      assert front[..i] == rows[..i];
    }
  }

  /** As long as every key was derived, an import is refused exactly when some row
      writes its connector in upper case under a key already in use: derived keys
      never clash otherwise. */
  lemma {:induction false} ImportsConflictExactly(s: State, rows: seq<Row>)
    requires Valid(s) && KeysDerived(s) && forall i :: 0 <= i < |rows| ==> FromImport(rows[i])
    ensures Imported(s, rows).Accepted? <==> NoneClash(s, rows)
    ensures Imported(s, rows).Accepted? ==>
      && Valid(Imported(s, rows).value.state) && KeysDerived(Imported(s, rows).value.state)
      && forall k :: k in Imported(s, rows).value.state.receipts <==> InUse(s, rows, k)
  {
    if rows != [] {
      var n, front := |rows| - 1, rows[..|rows| - 1];
      hide FromImport, Valid, KeysDerived, AnswerOf, AfterSubmit, InUse, IsAsFiled, NoneClash;
      ImportsConflictExactly(s, front);
      NoClashInFront(s, rows);
      if Imported(s, front).Accepted? {
        var mid := Imported(s, front).value.state;
        DerivedKeyClash(mid, rows[n]);
        SubmitKeepsDerived(mid, rows[n]);
        forall k ensures InUse(s, rows, k) <==> InUse(s, front, k) || k == rows[n].Receipt() { InUseStep(s, rows, k); }
      }
    } else {
      assert forall k :: k in s.receipts <==> InUse(s, rows, k);
    }
  }

  // ---------------------------------------------------------------------
  // The transaction as the code performs it
  // ---------------------------------------------------------------------

  /** Either uniqueness constraint of the table. */
  predicate Collides(item: Item, row: Row) {
    item.identity == Filed(row.tuple) || (item.identity.scope == row.tuple.scope && item.key == row.key)
  }

  predicate Insertable(items: seq<Item>, row: Row) {
    forall i :: 0 <= i < |items| ==> !Collides(items[i], row)
  }

  /** Once the key is known not to conflict, the two constraints stop exactly the
      tuples already stored, and a receipt already there names the stored item. */
  lemma ConstraintsAgree(s: State, row: Row)
    requires Valid(s)
    ensures Prior(s, row).Some? ==> Prior(s, row).value < |s.items|
    ensures !Conflicts(s, row) ==> (Insertable(s.items, row) <==> FindItem(s.items, Filed(row.tuple)).None?)
    ensures !Conflicts(s, row) && Prior(s, row).Some? ==> FindItem(s.items, Filed(row.tuple)) == Prior(s, row)
  {
    assert ReceiptRooted(s, row.Receipt());
    FindItemFinds(s.items, Filed(row.tuple));
    if !Conflicts(s, row) && FindItem(s.items, Filed(row.tuple)).None? {
      forall i | 0 <= i < |s.items| ensures !Collides(s.items[i], row) { assert OwnKeyAccepted(s, i); }
    }
  }

  class EvidenceStore {
    var state: State

    constructor ()
      ensures state == EMPTY && Valid(state)
    {
      state := EMPTY;
    }

    /** `INSERT … ON CONFLICT DO NOTHING`: either uniqueness constraint stops it. */
    method InsertItem(row: Row) returns (inserted: Option<Id>)
      modifies this
      ensures inserted.Some? <==> Insertable(old(state).items, row)
      ensures inserted.Some? ==> inserted.value == |old(state).items|
      ensures state == if inserted.Some? then old(state).(items := old(state).items + [Item(Filed(row.tuple), row.key)]) else old(state)
    {
      for i := 0 to |state.items|
        invariant state == old(state)
        invariant forall k :: 0 <= k < i ==> !Collides(state.items[k], row)
      {
        if Collides(state.items[i], row) {
          return None;
        }
      }
      inserted := Some(|state.items|);
      state := state.(items := state.items + [Item(Filed(row.tuple), row.key)]);
    }

    /** Every check the code makes, in its order. Any refusal rolls back; from a
        well-formed store only the first can refuse. */
    method Submit(row: Row) returns (answer: Answer<Stored>)
      modifies this
      ensures answer.Refused? ==> state == old(state)
      ensures Valid(old(state)) ==> state == AfterIngest(old(state), row) && answer == AnswerOf(old(state), row)
    {
      ghost var was := state;
      FindItemFinds(state.items, Filed(row.tuple));
      if Valid(state) {
        ConstraintsAgree(state, row);
      }
      if Conflicts(state, row) {
        return Refused(IDEMPOTENCY_CONFLICT);
      }
      var rollback := state;
      var inserted := InsertItem(row);
      var found := if inserted.Some? then inserted else FindItem(state.items, Filed(row.tuple));
      if found.None? {
        state := rollback;
        return Refused(EVIDENCE_CONFLICT);
      }
      if row.Receipt() !in state.receipts {
        state := state.(receipts := state.receipts[row.Receipt() := found.value]);
      }
      assert Valid(was) && inserted.None? ==> was.receipts[row.Receipt() := found.value] == state.receipts;
      if state.receipts[row.Receipt()] != found.value {
        state := rollback;
        return Refused(IDEMPOTENCY_CONFLICT);
      }
      if inserted.Some? {
        state := state.(objectKeys := state.objectKeys[found.value := state.minted], minted := state.minted + 1);
        state := state.(objects := state.objects[found.value := row.tuple.contentHash]);
      }
      answer := Accepted(Stored(found.value, inserted.Some?));
    }

    method WriteAnchors(item: Id, anchors: seq<Anchor>)
      modifies this
      ensures state == old(state).(anchors := WithAnchors(old(state).anchors, item, anchors))
    {
      for i := 0 to |anchors|
        invariant state == old(state).(anchors := WithAnchors(old(state).anchors, item, anchors[..i]))
      {
        assert anchors[..i + 1][..i] == anchors[..i];
        var key := KeyOf(item, anchors[i]);
        if key !in state.anchors {
          state := state.(anchors := state.anchors[key := anchors[i].text]);
        }
      }
      assert anchors[..|anchors|] == anchors;
    }

    method ImportSource(rows: seq<Row>) returns (answer: Answer<seq<Stored>>)
      requires Valid(state)
      modifies this
      ensures state == AfterImport(old(state), rows) && Valid(state)
      ensures var r := Imported(old(state), rows);
        answer == if r.Accepted? then Accepted(r.value.imported) else Refused(r.code)
    {
      var rollback := state;
      var imported: seq<Stored> := [];
      for i := 0 to |rows|
        invariant Valid(state)
        invariant Imported(old(state), rows[..i]) == Accepted(Progress(state, imported))
      {
        assert rows[..i + 1][..i] == rows[..i];
        SubmitKeepsValid(state, rows[i]);
        IngestKeepsValid(state, rows[i]);
        var result := Submit(rows[i]);
        if result.Refused? {
          state := rollback;
          RefusalStays(state, rows, i + 1);
          return Refused(result.code);
        }
        WriteAnchors(result.value.item, rows[i].anchors);
        imported := imported + [result.value];
      }
      assert rows[..|rows|] == rows;
      answer := Accepted(imported);
    }
  }

  lemma {:induction false} RefusalStays(s: State, rows: seq<Row>, i: nat)
    requires i <= |rows| && Imported(s, rows[..i]).Refused?
    ensures Imported(s, rows) == Imported(s, rows[..i])
    decreases |rows|
  {
    if i == |rows| {
      assert rows[..i] == rows;
    } else {
      assert rows[..|rows| - 1][..i] == rows[..i];
      RefusalStays(s, rows[..|rows| - 1], i);
    }
  }
}
