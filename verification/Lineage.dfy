/** Governed merge and split: planned against active objects, proposed once per
    idempotency key, applied atomically, and recorded as lineage edges that keep
    every old identifier resolvable. */
module Lineage {
  import opened Options

  /** Ids are minted in turn and never reused. */
  type Id = nat

  /** An id as someone wrote it. The store finds an object under any spelling of its
      id, upper case or mixed; the planner compares the texts. The store itself always
      writes spelling 0. */
  datatype Name = Name(id: Id, spelling: nat)

  function AsStored(id: Id): Name {
    Name(id, 0)
  }

  /** What must agree before two objects merge. */
  datatype Shape = Frame(frameType: nat, context: nat) | Entity(kind: nat)

  datatype Lifecycle = Active | Merged | Split
  datatype Object = Object(shape: Shape, lifecycle: Lifecycle)

  datatype EdgeKind = MergedInto | SplitInto
  datatype Edge = Edge(from: Id, to: Id, kind: EdgeKind, transaction: nat)

  /** An id, or the new survivor an earlier operation of the list creates. */
  datatype Ref = Stored(name: Name) | NewSurvivor

  datatype Operation =
    | CreateFrame(frameType: nat, context: nat)
    | MergeOp(frames: bool, target: Name, survivor: Ref)
    | SplitOp(frames: bool, parent: Id, partitions: seq<nat>)

  datatype Kind = MergeKind | SplitKind
  datatype Status = Proposed | Rejected | Committed
  datatype Outcome = Created(id: Id) | MergedTo(from: Id, to: Id) | SplitTo(from: Id, children: seq<Id>)
  datatype Transaction = Transaction(key: nat, kind: Kind, operations: seq<Operation>, status: Status, results: seq<Outcome>)

  datatype State = State(objects: seq<Object>, edges: seq<Edge>, transactions: seq<Transaction>)

  datatype Refusal =
    | NotFound | NotActive | TypeMismatch | ContextMismatch | KindMismatch | SelfMerge | SelfReference
    | SurvivorNotInMerge | InputInvalid | PartitionDuplicate | KeyReused | GovernorRejected | RefUnresolved

  datatype Result<+T> = Ok(value: T) | Refused(why: Refusal)

  // ---------------------------------------------------------------------
  // Applying operations
  // ---------------------------------------------------------------------

  predicate IsObject(s: State, id: Id, frames: bool) {
    id < |s.objects| && s.objects[id].shape.Frame? == frames
  }

  predicate IsActive(s: State, id: Id) {
    id < |s.objects| && s.objects[id].lifecycle == Active
  }

  function ShapeMismatch(a: Shape, b: Shape): Refusal {
    if a.Frame? && b.Frame? then (if a.frameType != b.frameType then TypeMismatch else ContextMismatch) else KindMismatch
  }

  /** Why a merge of `target` into `survivor` is refused at commit. The first check
      compares the texts, the last one the ids of the rows they found. */
  function MergeRefusal(s: State, frames: bool, target: Name, survivor: Name): Option<Refusal> {
    if target == survivor then Some(SelfMerge)
    else if !IsObject(s, target.id, frames) || !IsObject(s, survivor.id, frames) then Some(NotFound)
    else if !IsActive(s, target.id) || !IsActive(s, survivor.id) then Some(NotActive)
    else if s.objects[target.id].shape != s.objects[survivor.id].shape then
      Some(ShapeMismatch(s.objects[target.id].shape, s.objects[survivor.id].shape))
    else if target.id == survivor.id then Some(SelfReference)
    else None
  }

  predicate NoRepeats<T(==)>(ks: seq<T>) {
    forall i, j :: 0 <= i < j < |ks| ==> ks[i] != ks[j]
  }

  function SplitRefusal(s: State, frames: bool, target: Id, partitions: seq<nat>): Option<Refusal> {
    if !NoRepeats(partitions) then Some(PartitionDuplicate)
    else if !IsObject(s, target, frames) then Some(NotFound)
    else if !IsActive(s, target) then Some(NotActive)
    else None
  }

  function Retire(s: State, id: Id, lifecycle: Lifecycle): State
    requires id < |s.objects|
  {
    s.(objects := s.objects[id := s.objects[id].(lifecycle := lifecycle)])
  }

  function AfterMerge(s: State, target: Id, survivor: Id, tx: nat): State
    requires target < |s.objects|
  {
    Retire(s.(edges := s.edges + [Edge(target, survivor, MergedInto, tx)]), target, Merged)
  }

  /** One new object and one edge to it. */
  function AddChild(s: State, parent: Id, tx: nat): State
    requires parent < |s.objects|
  {
    s.(objects := s.objects + [Object(s.objects[parent].shape, Active)],
       edges := s.edges + [Edge(parent, |s.objects|, SplitInto, tx)])
  }

  function AddChildren(s: State, parent: Id, tx: nat, n: nat): (r: State)
    requires parent < |s.objects|
    ensures |r.objects| == |s.objects| + n
  {
    if n == 0 then s else AddChild(AddChildren(s, parent, tx, n - 1), parent, tx)
  }

  function AfterSplit(s: State, target: Id, tx: nat, n: nat): State
    requires target < |s.objects|
  {
    Retire(AddChildren(s, target, tx, n), target, Split)
  }

  function Count(from: nat, n: nat): (ids: seq<nat>)
    ensures |ids| == n
  {
    seq(n, i => from + i)
  }

  /** Partial progress through an operation list. */
  datatype Progress = Progress(state: State, created: Option<Id>, results: seq<Outcome>)

  function ApplyOne(p: Progress, op: Operation, tx: nat): Result<Progress> {
    var s := p.state;
    match op
    case CreateFrame(frameType, context) =>
      Ok(Progress(s.(objects := s.objects + [Object(Frame(frameType, context), Active)]),
                  Some(|s.objects|), p.results + [Created(|s.objects|)]))
    case MergeOp(frames, target, survivor) =>
      if survivor.NewSurvivor? && p.created.None? then Refused(RefUnresolved) else
        var into := if survivor.Stored? then survivor.name else AsStored(p.created.value);
        var why := MergeRefusal(s, frames, target, into);
        if why.Some? then Refused(why.value)
        else Ok(p.(state := AfterMerge(s, target.id, into.id, tx), results := p.results + [MergedTo(target.id, into.id)]))
    case SplitOp(frames, target, partitions) =>
      var why := SplitRefusal(s, frames, target, partitions);
      if why.Some? then Refused(why.value)
      else Ok(p.(state := AfterSplit(s, target, tx, |partitions|),
                 results := p.results + [SplitTo(target, Count(|s.objects|, |partitions|))]))
  }

  function ApplyAll(p: Progress, ops: seq<Operation>, tx: nat): Result<Progress> {
    if ops == [] then Ok(p) else
      var before := ApplyAll(p, ops[..|ops| - 1], tx);
      if before.Refused? then before else ApplyOne(before.value, ops[|ops| - 1], tx)
  }

  // ---------------------------------------------------------------------
  // Proposing and committing
  // ---------------------------------------------------------------------

  function FindKey(ts: seq<Transaction>, key: nat): Option<nat> {
    if ts == [] then None
    else if ts[|ts| - 1].key == key then Some(|ts| - 1)
    else FindKey(ts[..|ts| - 1], key)
  }

  /** A change set is recorded once per key; a second proposal finds the first. */
  function AfterPropose(s: State, key: nat, kind: Kind, ops: seq<Operation>): State {
    if FindKey(s.transactions, key).Some? then s
    else s.(transactions := s.transactions + [Transaction(key, kind, ops, Proposed, [])])
  }

  /** A commit applies every operation or none. A settled transaction answers as it
      did; a governor's refusal settles it. */
  function AfterCommit(s: State, tx: nat, committable: bool): State
    requires tx < |s.transactions|
  {
    var t := s.transactions[tx];
    if t.status != Proposed then s
    else if !committable then s.(transactions := s.transactions[tx := t.(status := Rejected)])
    else
      var applied := ApplyAll(Progress(s, None, []), t.operations, tx);
      if applied.Refused? then s
      else applied.value.state.(transactions := s.transactions[tx := t.(status := Committed, results := applied.value.results)])
  }

  // ---------------------------------------------------------------------
  // What every run keeps
  // ---------------------------------------------------------------------

  /** Edges join existing objects and only leave retired ones. */
  predicate EdgesJoin(s: State) {
    forall i :: 0 <= i < |s.edges| ==>
      s.edges[i].from < |s.objects| && s.edges[i].to < |s.objects| && !IsActive(s, s.edges[i].from)
  }

  /** An edge into an object is older than every edge out of it: nothing is ever
      merged into, or split off from, an object already retired. */
  predicate EdgesOrdered(s: State) {
    forall i, j :: 0 <= i < |s.edges| && 0 <= j < |s.edges| && s.edges[i].to == s.edges[j].from ==> i < j
  }

  /** A retired object has somewhere to go, by edges of its own kind; a merged one
      has exactly one successor. */
  predicate Explained(s: State, id: Id) {
    id < |s.objects| && s.objects[id].lifecycle != Active ==>
      && (exists i :: 0 <= i < |s.edges| && s.edges[i].from == id)
      && (forall i :: 0 <= i < |s.edges| && s.edges[i].from == id ==>
            s.edges[i].kind == if s.objects[id].lifecycle == Merged then MergedInto else SplitInto)
      && (s.objects[id].lifecycle == Merged ==>
            forall i, j :: 0 <= i < |s.edges| && 0 <= j < |s.edges| && s.edges[i].from == s.edges[j].from == id ==> i == j)
  }

  ghost predicate Graph(s: State) {
    EdgesJoin(s) && EdgesOrdered(s) && forall id :: Explained(s, id)
  }

  /** Splits name at least two partitions, as the request schema demands. */
  predicate OpsWellFormed(ops: seq<Operation>) {
    forall i :: 0 <= i < |ops| && ops[i].SplitOp? ==> |ops[i].partitions| >= 2
  }

  ghost predicate Valid(s: State) {
    Graph(s) && forall i :: 0 <= i < |s.transactions| ==> OpsWellFormed(s.transactions[i].operations)
  }

  /** Nothing is removed, reshaped, reactivated or re-explained. */
  predicate Extends(s: State, s': State) {
    && |s.objects| <= |s'.objects| && s.edges <= s'.edges
    && forall id :: 0 <= id < |s.objects| ==>
         && s'.objects[id].shape == s.objects[id].shape
         && (s.objects[id].lifecycle != Active ==> s'.objects[id] == s.objects[id])
  }

  lemma CreateKeepsGraph(s: State, shape: Shape)
    requires Graph(s)
    ensures Graph(s.(objects := s.objects + [Object(shape, Active)]))
  {
    var s' := s.(objects := s.objects + [Object(shape, Active)]);
    forall id: Id ensures Explained(s', id) { assert Explained(s, id); }
  }

  lemma MergeKeepsGraph(s: State, target: Id, survivor: Id, tx: nat)
    requires Graph(s) && target != survivor && IsActive(s, target) && IsActive(s, survivor)
    ensures Graph(AfterMerge(s, target, survivor, tx))
    ensures Extends(s, AfterMerge(s, target, survivor, tx))
  {
    var s' := AfterMerge(s, target, survivor, tx);
    forall id: Id ensures Explained(s', id) {
      assert Explained(s, id);
      if id == target {
        assert s'.edges[|s.edges|].from == target;
      } else if id < |s.objects| && s.objects[id].lifecycle != Active {
        var i :| 0 <= i < |s.edges| && s.edges[i].from == id;
        assert s'.edges[i].from == id;
      }
    }
  }

  /** Mid-split: the parent is still active while its edges accumulate. */
  predicate HalfSplit(s: State, s': State, parent: Id, n: nat)
    requires parent < |s.objects|
  {
    && |s'.objects| == |s.objects| + n && |s'.edges| == |s.edges| + n
    && s.objects <= s'.objects && s.edges <= s'.edges
    && (forall k :: |s.objects| <= k < |s'.objects| ==> s'.objects[k] == Object(s.objects[parent].shape, Active))
    && forall k :: |s.edges| <= k < |s'.edges| ==>
         s'.edges[k].from == parent && s'.edges[k].to == |s.objects| + k - |s.edges| && s'.edges[k].kind == SplitInto
  }

  lemma {:induction false} ChildrenAdded(s: State, parent: Id, tx: nat, n: nat)
    requires parent < |s.objects|
    ensures HalfSplit(s, AddChildren(s, parent, tx, n), parent, n)
  {
    if n > 0 {
      ChildrenAdded(s, parent, tx, n - 1);
    }
  }

  lemma SplitKeepsGraph(s: State, target: Id, tx: nat, n: nat)
    requires Graph(s) && IsActive(s, target) && n >= 1
    ensures Graph(AfterSplit(s, target, tx, n))
    ensures Extends(s, AfterSplit(s, target, tx, n))
  {
    var half, s' := AddChildren(s, target, tx, n), AfterSplit(s, target, tx, n);
    ChildrenAdded(s, target, tx, n);
    forall i | 0 <= i < |s'.edges|
      ensures s'.edges[i].from < |s'.objects| && s'.edges[i].to < |s'.objects| && !IsActive(s', s'.edges[i].from)
    {
      if i < |s.edges| { assert s'.edges[i] == s.edges[i]; }
    }
    forall i, j | 0 <= i < |s'.edges| && 0 <= j < |s'.edges| && s'.edges[i].to == s'.edges[j].from ensures i < j {
      if i < |s.edges| { assert s'.edges[i] == s.edges[i]; }
      if j < |s.edges| { assert s'.edges[j] == s.edges[j]; }
    }
    forall id: Id ensures Explained(s', id) { SplitExplains(s, target, tx, n, id); }
  }

  lemma SplitExplains(s: State, target: Id, tx: nat, n: nat, id: Id)
    requires Graph(s) && IsActive(s, target) && n >= 1
    ensures Explained(AfterSplit(s, target, tx, n), id)
  {
    var s' := AfterSplit(s, target, tx, n);
    ChildrenAdded(s, target, tx, n);
    assert Explained(s, id);
    forall i | 0 <= i < |s.edges| ensures s'.edges[i] == s.edges[i] {}
    if id == target {
      assert s'.edges[|s.edges|].from == target;
    } else if id < |s.objects| && s.objects[id].lifecycle != Active {
      var i :| 0 <= i < |s.edges| && s.edges[i].from == id;
      assert s'.edges[i].from == id;
    }
  }

  lemma ApplyOneKeepsGraph(p: Progress, op: Operation, tx: nat)
    requires Graph(p.state) && OpsWellFormed([op]) && ApplyOne(p, op, tx).Ok?
    ensures Graph(ApplyOne(p, op, tx).value.state) && Extends(p.state, ApplyOne(p, op, tx).value.state)
    ensures ApplyOne(p, op, tx).value.state.transactions == p.state.transactions
  {
    assert [op][0] == op;
    match op
    case CreateFrame(frameType, context) => CreateKeepsGraph(p.state, Frame(frameType, context));
    case MergeOp(_, target, survivor) =>
      MergeKeepsGraph(p.state, target.id, if survivor.Stored? then survivor.name.id else p.created.value, tx);
    case SplitOp(_, target, partitions) =>
      SplitKeepsGraph(p.state, target, tx, |partitions|);
      ChildrenKeepTransactions(p.state, target, tx, |partitions|);
  }

  lemma {:induction false} ChildrenKeepTransactions(s: State, parent: Id, tx: nat, n: nat)
    requires parent < |s.objects|
    ensures AddChildren(s, parent, tx, n).transactions == s.transactions
  {
    if n > 0 { ChildrenKeepTransactions(s, parent, tx, n - 1); }
  }

  lemma ExtendsTransitive(a: State, b: State, c: State)
    requires Extends(a, b) && Extends(b, c)
    ensures Extends(a, c)
  {}

  lemma {:induction false} ApplyAllKeepsGraph(p: Progress, ops: seq<Operation>, tx: nat)
    requires Graph(p.state) && OpsWellFormed(ops) && ApplyAll(p, ops, tx).Ok?
    ensures Graph(ApplyAll(p, ops, tx).value.state) && Extends(p.state, ApplyAll(p, ops, tx).value.state)
    ensures ApplyAll(p, ops, tx).value.state.transactions == p.state.transactions
  {
    if ops != [] {
      var front, last := ops[..|ops| - 1], ops[|ops| - 1];
      assert OpsWellFormed(front) && OpsWellFormed([last]);
      ApplyAllKeepsGraph(p, front, tx);
      var mid := ApplyAll(p, front, tx).value;
      ApplyOneKeepsGraph(mid, last, tx);
      ExtendsTransitive(p.state, mid.state, ApplyOne(mid, last, tx).value.state);
    }
  }

  lemma CommitKeepsValid(s: State, tx: nat, committable: bool)
    requires Valid(s) && tx < |s.transactions|
    ensures Valid(AfterCommit(s, tx, committable)) && Extends(s, AfterCommit(s, tx, committable))
  {
    var t := s.transactions[tx];
    var s' := AfterCommit(s, tx, committable);
    if t.status == Proposed && committable && ApplyAll(Progress(s, None, []), t.operations, tx).Ok? {
      ApplyAllKeepsGraph(Progress(s, None, []), t.operations, tx);
      GraphIgnoresTransactions(ApplyAll(Progress(s, None, []), t.operations, tx).value.state, s');
    } else {
      GraphIgnoresTransactions(s, s');
    }
  }

  lemma GraphIgnoresTransactions(a: State, b: State)
    requires Graph(a) && a.objects == b.objects && a.edges == b.edges
    ensures Graph(b)
  {
    forall id: Id ensures Explained(b, id) { assert Explained(a, id); }
  }

  lemma ProposeKeepsValid(s: State, key: nat, kind: Kind, ops: seq<Operation>)
    requires Valid(s) && OpsWellFormed(ops)
    ensures Valid(AfterPropose(s, key, kind, ops)) && Extends(s, AfterPropose(s, key, kind, ops))
  {
    GraphIgnoresTransactions(s, AfterPropose(s, key, kind, ops));
  }

  // ---------------------------------------------------------------------
  // Following lineage
  // ---------------------------------------------------------------------

  /** A walk along edges, given by their indices. */
  predicate IsPath(s: State, p: seq<nat>, a: Id, b: Id)
    decreases |p|
  {
    if p == [] then a == b
    else p[0] < |s.edges| && s.edges[p[0]].from == a && IsPath(s, p[1..], s.edges[p[0]].to, b)
  }

  predicate Increasing(p: seq<nat>) {
    forall i, j :: 0 <= i < j < |p| ==> p[i] < p[j]
  }

  lemma {:induction false} PathsClimb(s: State, p: seq<nat>, a: Id, b: Id)
    requires EdgesOrdered(s) && IsPath(s, p, a, b) && p != []
    ensures Increasing(p) && p[|p| - 1] < |s.edges| && s.edges[p[|p| - 1]].to == b
    decreases |p|
  {
    var rest := p[1..];
    if rest != [] {
      PathsClimb(s, rest, s.edges[p[0]].to, b);
      assert p[0] < rest[0];
      forall i, j | 0 <= i < j < |p| ensures p[i] < p[j] {
        assert p[j] == rest[j - 1];
        if i > 0 { assert p[i] == rest[i - 1]; }
      }
    }
  }

  lemma {:induction false} ClimbIsShort(p: seq<nat>, n: nat)
    requires Increasing(p) && (p != [] ==> p[|p| - 1] < n)
    ensures |p| <= n
  {
    if p != [] {
      var front := p[..|p| - 1];
      if front != [] { assert front[|front| - 1] < p[|p| - 1]; }
      ClimbIsShort(front, p[|p| - 1]);
    }
  }

  /** The graph is acyclic, and following it ends after at most one step per edge. */
  lemma LineageIsAcyclic(s: State, p: seq<nat>, a: Id, b: Id)
    requires Graph(s) && IsPath(s, p, a, b)
    ensures |p| <= |s.edges|
    ensures p != [] ==> a != b
  {
    if p != [] {
      PathsClimb(s, p, a, b);
      ClimbIsShort(p, |s.edges|);
      assert s.edges[p[|p| - 1]].to == b && s.edges[p[0]].from == a;
    }
  }

  /** Where a walk ends: nothing leads further. */
  predicate IsEnd(s: State, id: Id) {
    forall i :: 0 <= i < |s.edges| ==> s.edges[i].from != id
  }

  /** End points of the graph are exactly the objects still active. */
  lemma EndsAreActive(s: State, id: Id)
    requires Graph(s) && id < |s.objects|
    ensures IsEnd(s, id) <==> IsActive(s, id)
  {
    assert Explained(s, id);
  }

  lemma {:induction false} PathStaysInside(s: State, p: seq<nat>, a: Id, b: Id)
    requires Graph(s) && a < |s.objects| && IsPath(s, p, a, b)
    ensures b < |s.objects|
    decreases |p|
  {
    if p != [] { PathStaysInside(s, p[1..], s.edges[p[0]].to, b); }
  }

  /** A walk to an active object, taking the first edge out every time. */
  ghost function WayOut(s: State, id: Id, k: nat): (p: seq<nat>)
    requires Graph(s) && id < |s.objects|
    requires k <= |s.edges|
    requires forall i :: 0 <= i < |s.edges| && s.edges[i].from == id ==> k <= i
    decreases |s.edges| - k
  {
    if IsActive(s, id) then [] else
      assert Explained(s, id);
      var i :| 0 <= i < |s.edges| && s.edges[i].from == id;
      [i] + WayOut(s, s.edges[i].to, i + 1)
  }

  ghost function WayOutEnd(s: State, p: seq<nat>, id: Id): Id {
    if p == [] || p[|p| - 1] >= |s.edges| then id else s.edges[p[|p| - 1]].to
  }

  lemma {:induction false} WayOutWorks(s: State, id: Id, k: nat)
    requires Graph(s) && id < |s.objects|
    requires k <= |s.edges|
    requires forall i :: 0 <= i < |s.edges| && s.edges[i].from == id ==> k <= i
    ensures var p := WayOut(s, id, k); IsPath(s, p, id, WayOutEnd(s, p, id)) && IsActive(s, WayOutEnd(s, p, id))
    decreases |s.edges| - k
  {
    var p := WayOut(s, id, k);
    if !IsActive(s, id) {
      var i, rest := p[0], p[1..];
      assert s.edges[i].from == id && rest == WayOut(s, s.edges[i].to, i + 1) by { assert Explained(s, id); }
      WayOutWorks(s, s.edges[i].to, i + 1);
      if rest != [] { assert p[|p| - 1] == rest[|rest| - 1]; }
      assert WayOutEnd(s, p, id) == WayOutEnd(s, rest, s.edges[i].to);
    }
  }

  /** Every identifier ever given out leads to some active object, and every walk
      that can go no further has reached one. */
  lemma OldIdsResolve(s: State, id: Id)
    requires Graph(s) && id < |s.objects|
    ensures exists p, end :: IsPath(s, p, id, end) && IsActive(s, end)
    ensures forall p, end :: IsPath(s, p, id, end) && IsEnd(s, end) ==> IsActive(s, end)
  {
    WayOutWorks(s, id, 0);
    forall p, end | IsPath(s, p, id, end) && IsEnd(s, end) ensures IsActive(s, end) {
      PathStaysInside(s, p, id, end);
      EndsAreActive(s, end);
    }
  }

  predicate OnlyMerges(s: State, p: seq<nat>) {
    forall i :: 0 <= i < |p| && p[i] < |s.edges| ==> s.edges[p[i]].kind == MergedInto
  }

  /** When only merges lie on one walk to an active object, it is the only walk. */
  lemma {:induction false} MergesResolveToOne(s: State, p: seq<nat>, q: seq<nat>, id: Id, x: Id, y: Id)
    requires Graph(s) && id < |s.objects|
    requires IsPath(s, p, id, x) && IsActive(s, x) && OnlyMerges(s, p)
    requires IsPath(s, q, id, y) && IsActive(s, y)
    ensures p == q && x == y
    decreases |p|
  {
    assert Explained(s, id);
    if p == [] {
      assert q == [];
    } else {
      assert s.edges[p[0]].kind == MergedInto;
      assert q != [];
      assert p[0] == q[0];
      assert OnlyMerges(s, p[1..]);
      MergesResolveToOne(s, p[1..], q[1..], s.edges[p[0]].to, x, y);
      assert p == [p[0]] + p[1..] && q == [q[0]] + q[1..];
    }
  }

  // ---------------------------------------------------------------------
  // Runs
  // ---------------------------------------------------------------------

  /** Requests overlap, so a plan made earlier may be proposed, and a proposal
      committed, at any later point. Other writers create objects. */
  datatype Step =
    | NewObject(shape: Shape)
    | ProposeStep(key: nat, kind: Kind, operations: seq<Operation>)
    | CommitStep(transaction: nat, committable: bool)

  predicate StepWellFormed(step: Step) {
    step.ProposeStep? ==> OpsWellFormed(step.operations)
  }

  function After(s: State, step: Step): State {
    match step
    case NewObject(shape) => s.(objects := s.objects + [Object(shape, Active)])
    case ProposeStep(key, kind, ops) => AfterPropose(s, key, kind, ops)
    case CommitStep(tx, committable) => if tx < |s.transactions| then AfterCommit(s, tx, committable) else s
  }

  function Run(s: State, steps: seq<Step>): State {
    if steps == [] then s else After(Run(s, steps[..|steps| - 1]), steps[|steps| - 1])
  }

  /** Change sets are never edited, keys never rebound, settled ones never reopened. */
  predicate TransactionsKept(s: State, s': State) {
    && |s.transactions| <= |s'.transactions|
    && forall i :: 0 <= i < |s.transactions| ==>
         && s'.transactions[i].key == s.transactions[i].key && s'.transactions[i].kind == s.transactions[i].kind
         && s'.transactions[i].operations == s.transactions[i].operations
         && (s.transactions[i].status != Proposed ==> s'.transactions[i] == s.transactions[i])
  }

  predicate KeysDistinct(s: State) {
    forall i, j :: 0 <= i < j < |s.transactions| ==> s.transactions[i].key != s.transactions[j].key
  }

  lemma {:induction false} FindKeyFinds(ts: seq<Transaction>, key: nat)
    ensures FindKey(ts, key).Some? ==> FindKey(ts, key).value < |ts| && ts[FindKey(ts, key).value].key == key
    ensures FindKey(ts, key).None? ==> forall i :: 0 <= i < |ts| ==> ts[i].key != key
  {
    if ts != [] && ts[|ts| - 1].key != key {
      FindKeyFinds(ts[..|ts| - 1], key);
    }
  }

  lemma StepKeeps(s: State, step: Step)
    requires Valid(s) && KeysDistinct(s) && StepWellFormed(step)
    ensures Valid(After(s, step)) && KeysDistinct(After(s, step))
    ensures Extends(s, After(s, step)) && TransactionsKept(s, After(s, step))
  {
    match step
    case NewObject(shape) => CreateKeepsGraph(s, shape);
    case ProposeStep(key, kind, ops) =>
      ProposeKeepsValid(s, key, kind, ops);
      FindKeyFinds(s.transactions, key);
    case CommitStep(tx, committable) =>
      if tx < |s.transactions| { CommitKeepsValid(s, tx, committable); }
  }

  /** Over every run: the graph stays well formed, so acyclic and resolvable; no id
      is reused, reshaped or reactivated; and no key is ever bound twice. */
  lemma {:induction false} RunsKeepLineage(s: State, steps: seq<Step>)
    requires Valid(s) && KeysDistinct(s) && forall i :: 0 <= i < |steps| ==> StepWellFormed(steps[i])
    ensures Valid(Run(s, steps)) && KeysDistinct(Run(s, steps))
    ensures Extends(s, Run(s, steps)) && TransactionsKept(s, Run(s, steps))
  {
    if steps != [] {
      var front, last := steps[..|steps| - 1], steps[|steps| - 1];
      RunsKeepLineage(s, front);
      StepKeeps(Run(s, front), last);
      ExtendsTransitive(s, Run(s, front), Run(s, steps));
    }
  }

  /** Before any merge or split: active objects and nothing else. */
  predicate IsFresh(s: State) {
    s.edges == [] && s.transactions == [] && forall i :: 0 <= i < |s.objects| ==> s.objects[i].lifecycle == Active
  }

  lemma FreshStoreIsValid(s: State)
    requires IsFresh(s)
    ensures Valid(s) && KeysDistinct(s)
  {
    forall id: Id ensures Explained(s, id) {}
  }

  /** Every store that runs make of a fresh one is valid, at every point of the run. */
  lemma ReachedStoresAreValid(s: State, steps: seq<Step>, n: nat)
    requires IsFresh(s) && n <= |steps| && forall i :: 0 <= i < |steps| ==> StepWellFormed(steps[i])
    ensures Valid(Run(s, steps[..n])) && KeysDistinct(Run(s, steps[..n])) && Extends(s, Run(s, steps[..n]))
  {
    FreshStoreIsValid(s);
    RunsKeepLineage(s, steps[..n]);
  }

  // ---------------------------------------------------------------------
  // Planning
  // ---------------------------------------------------------------------

  datatype Hint = NoHint | Named(name: Name) | NewInstance

  /** A split's handler lowers the one id it is given, so its spelling never shows. */
  datatype Request =
    | MergeFrames(names: seq<Name>, hint: Hint)
    | MergeEntities(names: seq<Name>, hint: Hint)
    | SplitOf(frames: bool, target: Id, partitions: seq<nat>)
  {
    function Kind(): Kind {
      if SplitOf? then SplitKind else MergeKind
    }
  }

  /** The request schemas' own limits. */
  predicate RequestWellFormed(r: Request) {
    if r.SplitOf? then 2 <= |r.partitions| <= 16
    else 2 <= |r.names| <= 16 && NoRepeats(r.names) && (r.MergeEntities? ==> !r.hint.NewInstance?)
  }

  function Ids(names: seq<Name>): (ids: seq<Id>)
    ensures |ids| == |names| && forall i :: 0 <= i < |ids| ==> ids[i] == names[i].id
  {
    seq(|names|, i requires 0 <= i < |names| => names[i].id)
  }

  /** `ORDER BY created_at,id` as the store finds it: objects of one transaction share
      a time and are told apart by their uuids, so the order is any there may be. */
  type Order = Id -> nat

  /** The first of the named objects in the store's order. */
  function Oldest(order: Order, ids: seq<Id>): (id: Id)
    requires ids != []
    ensures id in ids && forall i :: 0 <= i < |ids| ==> order(id) <= order(ids[i])
  {
    if |ids| == 1 then ids[0]
    else
      var rest := Oldest(order, ids[..|ids| - 1]);
      assert ids == ids[..|ids| - 1] + [ids[|ids| - 1]];
      if order(ids[|ids| - 1]) < order(rest) then ids[|ids| - 1] else rest
  }

  /** One merge per name other than the survivor's, in the order named. */
  function MergeOps(frames: bool, names: seq<Name>, survivor: Ref): seq<Operation> {
    if names == [] then [] else
      var before := MergeOps(frames, names[..|names| - 1], survivor);
      if Stored(names[|names| - 1]) == survivor then before else before + [MergeOp(frames, names[|names| - 1], survivor)]
  }

  predicate AllObjects(s: State, ids: seq<Id>, frames: bool) {
    forall i :: 0 <= i < |ids| ==> IsObject(s, ids[i], frames)
  }

  predicate AllActive(s: State, ids: seq<Id>) {
    forall i :: 0 <= i < |ids| ==> IsActive(s, ids[i])
  }

  predicate SameType(s: State, ids: seq<Id>)
    requires AllObjects(s, ids, true)
  {
    forall i, j :: 0 <= i < |ids| && 0 <= j < |ids| ==> s.objects[ids[i]].shape.frameType == s.objects[ids[j]].shape.frameType
  }

  predicate SameContext(s: State, ids: seq<Id>)
    requires AllObjects(s, ids, true)
  {
    forall i, j :: 0 <= i < |ids| && 0 <= j < |ids| ==> s.objects[ids[i]].shape.context == s.objects[ids[j]].shape.context
  }

  predicate SameKind(s: State, ids: seq<Id>)
    requires AllObjects(s, ids, false)
  {
    forall i, j :: 0 <= i < |ids| && 0 <= j < |ids| ==> s.objects[ids[i]].shape.kind == s.objects[ids[j]].shape.kind
  }

  /** The first check a merge request fails, in the order they are made. Fewer rows
      than names means an id is unknown, or was spelled in two ways. */
  function MergeDenied(s: State, r: Request): Option<Refusal>
    requires !r.SplitOf?
  {
    var ids := Ids(r.names);
    if !AllObjects(s, ids, r.MergeFrames?) || !NoRepeats(ids) then Some(NotFound)
    else if !AllActive(s, ids) then Some(NotActive)
    else if r.MergeFrames? && !SameType(s, ids) then Some(TypeMismatch)
    else if r.MergeFrames? && !SameContext(s, ids) then Some(ContextMismatch)
    else if r.MergeEntities? && !SameKind(s, ids) then Some(KindMismatch)
    else if r.hint.Named? && r.hint.name !in r.names then Some(SurvivorNotInMerge)
    else None
  }

  function SurvivorOf(order: Order, r: Request): Ref
    requires !r.SplitOf? && r.names != []
  {
    match r.hint
    case NewInstance => NewSurvivor
    case Named(name) => Stored(name)
    case NoHint => Stored(AsStored(Oldest(order, Ids(r.names))))
  }

  function Planned(s: State, order: Order, r: Request): Result<seq<Operation>> {
    if !RequestWellFormed(r) then Refused(InputInvalid)
    else if r.SplitOf? then
      if !IsObject(s, r.target, r.frames) then Refused(NotFound)
      else if !IsActive(s, r.target) then Refused(NotActive)
      else Ok([SplitOp(r.frames, r.target, r.partitions)])
    else if MergeDenied(s, r).Some? then Refused(MergeDenied(s, r).value)
    else
      var merges := MergeOps(r.MergeFrames?, r.names, SurvivorOf(order, r));
      if r.MergeFrames? && r.hint.NewInstance? then
        var oldest := s.objects[Oldest(order, Ids(r.names))].shape;
        Ok([CreateFrame(oldest.frameType, oldest.context)] + merges)
      else Ok(merges)
  }

  /** After merging the first `k` named objects into `survivor`: those and only
      those are retired, each by one edge to the survivor. */
  predicate MergedUpTo(s: State, s': State, ids: seq<Id>, survivor: Id) {
    && |s'.objects| == |s.objects|
    && (forall id :: 0 <= id < |s.objects| ==>
          s'.objects[id] == if id in ids && id != survivor then s.objects[id].(lifecycle := Merged) else s.objects[id])
    && s.edges <= s'.edges
    && (forall i :: |s.edges| <= i < |s'.edges| ==> s'.edges[i].from in ids && s'.edges[i].to == survivor)
    && (forall id :: id in ids && id != survivor ==> LeadsTo(s', id, survivor))
  }

  /** `id` was merged into `survivor`. */
  predicate LeadsTo(s: State, id: Id, survivor: Id) {
    exists i :: 0 <= i < |s.edges| && s.edges[i].from == id && s.edges[i].to == survivor && s.edges[i].kind == MergedInto
  }

  lemma OneMoreMerge(s: State, s': State, frames: bool, front: seq<Id>, target: Name, survivor: Name, tx: nat)
    requires MergedUpTo(s, s', front, survivor.id) && target.id !in front && target.id != survivor.id
    requires IsObject(s, target.id, frames) && IsObject(s, survivor.id, frames)
    requires IsActive(s, target.id) && IsActive(s, survivor.id)
    requires s.objects[target.id].shape == s.objects[survivor.id].shape
    ensures MergeRefusal(s', frames, target, survivor).None?
    ensures MergedUpTo(s, AfterMerge(s', target.id, survivor.id, tx), front + [target.id], survivor.id)
  {
    var last, into := target.id, survivor.id;
    assert s'.objects[last] == s.objects[last] && s'.objects[into] == s.objects[into];
    var s'' := AfterMerge(s', last, into, tx);
    forall id | id in front + [last] && id != into ensures LeadsTo(s'', id, into) {
      if id == last {
        assert s''.edges[|s'.edges|].from == id;
      } else {
        assert LeadsTo(s', id, into);
        var i :| 0 <= i < |s'.edges| && s'.edges[i].from == id && s'.edges[i].to == into && s'.edges[i].kind == MergedInto;
        assert s''.edges[i] == s'.edges[i];
      }
    }
  }

  lemma MergeOpsStep(p: Progress, frames: bool, names: seq<Name>, survivor: Ref, tx: nat)
    requires names != []
    ensures var front, last := names[..|names| - 1], names[|names| - 1];
      var before := ApplyAll(p, MergeOps(frames, front, survivor), tx);
      ApplyAll(p, MergeOps(frames, names, survivor), tx) ==
        if Stored(last) == survivor || before.Refused? then before
        else ApplyOne(before.value, MergeOp(frames, last, survivor), tx)
  {
    var ops, front := MergeOps(frames, names, survivor), MergeOps(frames, names[..|names| - 1], survivor);
    if ops != front { assert ops[..|ops| - 1] == front; }
  }

  /** What a list of merges needs to go through. */
  predicate Mergeable(s: State, frames: bool, ids: seq<Id>, into: Id) {
    && NoRepeats(ids) && AllObjects(s, ids, frames) && AllActive(s, ids)
    && IsObject(s, into, frames) && IsActive(s, into)
    && forall i :: 0 <= i < |ids| ==> s.objects[ids[i]].shape == s.objects[into].shape
  }

  /** The object `survivor` stands for. */
  predicate StandsFor(p: Progress, survivor: Ref, into: Id) {
    if survivor.Stored? then survivor.name.id == into else p.created == Some(into)
  }

  /** Wherever the surviving object is named, it is spelled as the survivor is. */
  predicate SpelledAlike(names: seq<Name>, survivor: Ref, into: Id) {
    forall i :: 0 <= i < |names| && names[i].id == into ==> Stored(names[i]) == survivor
  }

  lemma IdsSplit(names: seq<Name>)
    requires names != []
    ensures var front, last := names[..|names| - 1], names[|names| - 1];
      Ids(names) == Ids(front) + [last.id] && Ids(names)[..|names| - 1] == Ids(front)
  {}

  lemma FrontMergeable(s: State, frames: bool, names: seq<Name>, into: Id)
    requires names != [] && Mergeable(s, frames, Ids(names), into)
    ensures var front, last := names[..|names| - 1], names[|names| - 1];
      && Mergeable(s, frames, Ids(front), into) && last.id !in Ids(front)
      && IsObject(s, last.id, frames) && IsActive(s, last.id) && s.objects[last.id].shape == s.objects[into].shape
  {
    IdsSplit(names);
    var ids := Ids(names);
    assert ids[|ids| - 1] == names[|names| - 1].id;
  }

  /** Every merge of a list of distinct, active, like-shaped objects goes through,
      provided the survivor is recognised among them. */
  lemma {:induction false} MergesGoThrough(p: Progress, frames: bool, names: seq<Name>, survivor: Ref, into: Id, tx: nat)
    requires Mergeable(p.state, frames, Ids(names), into)
    requires StandsFor(p, survivor, into) && SpelledAlike(names, survivor, into)
    ensures var r := ApplyAll(p, MergeOps(frames, names, survivor), tx);
      r.Ok? && r.value.created == p.created && MergedUpTo(p.state, r.value.state, Ids(names), into)
  {
    if names != [] {
      var front, last := names[..|names| - 1], names[|names| - 1];
      FrontMergeable(p.state, frames, names, into);
      MergesGoThrough(p, frames, front, survivor, into, tx);
      MergeOpsStep(p, frames, names, survivor, tx);
      IdsSplit(names);
      var before := ApplyAll(p, MergeOps(frames, front, survivor), tx).value.state;
      hide Mergeable, MergeOps, ApplyAll, MergedUpTo;
      if Stored(last) == survivor {
        SurvivorNeedsNoMerge(p.state, before, Ids(front), into);
      } else {
        OneMoreMerge(p.state, before, frames, Ids(front), last, if survivor.Stored? then survivor.name else AsStored(into), tx);
      }
    }
  }

  /** Named in another spelling than the survivor's, the survivor is merged into
      itself, and that merge is refused. */
  lemma {:induction false} SelfMergeStops(p: Progress, frames: bool, names: seq<Name>, survivor: Name, j: nat, tx: nat)
    requires Mergeable(p.state, frames, Ids(names), survivor.id)
    requires j < |names| && names[j].id == survivor.id && names[j] != survivor
    ensures ApplyAll(p, MergeOps(frames, names, Stored(survivor)), tx) == Refused(SelfReference)
  {
    var front, last, into := names[..|names| - 1], names[|names| - 1], survivor.id;
    FrontMergeable(p.state, frames, names, into);
    MergeOpsStep(p, frames, names, Stored(survivor), tx);
    if j < |front| {
      SelfMergeStops(p, frames, front, survivor, j, tx);
    } else {
      NotNamed(front, Stored(survivor), into);
      MergesGoThrough(p, frames, front, Stored(survivor), into, tx);
      hide ApplyAll, MergeOps, Mergeable;
      SelfReferenceRefused(p.state, ApplyAll(p, MergeOps(frames, front, Stored(survivor)), tx).value.state, frames, Ids(front), last, survivor);
    }
  }

  lemma NotNamed(names: seq<Name>, survivor: Ref, into: Id)
    requires into !in Ids(names)
    ensures SpelledAlike(names, survivor, into)
  {
    assert forall i :: 0 <= i < |names| ==> Ids(names)[i] == names[i].id;
  }

  lemma SelfReferenceRefused(s: State, s': State, frames: bool, front: seq<Id>, target: Name, survivor: Name)
    requires MergedUpTo(s, s', front, survivor.id) && target != survivor && target.id == survivor.id
    requires IsObject(s, survivor.id, frames) && IsActive(s, survivor.id)
    ensures MergeRefusal(s', frames, target, survivor) == Some(SelfReference)
  {
    assert s'.objects[survivor.id] == s.objects[survivor.id];
  }

  lemma SurvivorNeedsNoMerge(s: State, s': State, front: seq<Id>, into: Id)
    requires MergedUpTo(s, s', front, into)
    ensures MergedUpTo(s, s', front + [into], into)
  {}

  lemma {:induction false} ApplyAppend(p: Progress, a: seq<Operation>, b: seq<Operation>, tx: nat)
    requires ApplyAll(p, a, tx).Ok?
    ensures ApplyAll(p, a + b, tx) == ApplyAll(ApplyAll(p, a, tx).value, b, tx)
  {
    if b == [] {
      assert a + b == a;
    } else {
      ApplyAppend(p, a, b[..|b| - 1], tx);
      assert (a + b)[..|a + b| - 1] == a + b[..|b| - 1];
    }
  }

  /** The object every merged id is to name. */
  function SurvivingId(s: State, order: Order, r: Request): Id
    requires !r.SplitOf? && r.names != []
  {
    if r.hint.NewInstance? then |s.objects| else SurvivorOf(order, r).name.id
  }

  /** A hint was given, or the oldest named object is spelled as the store spells it. */
  predicate SurvivorRecognised(order: Order, r: Request)
    requires !r.SplitOf? && r.names != []
  {
    !r.hint.NoHint? || AsStored(Oldest(order, Ids(r.names))) in r.names
  }

  /** Of the objects there were, exactly the named ones other than `survivor` are
      now retired, each leading to the survivor; the rest are as they were, and no
      other lineage was written. */
  predicate OnlyMerged(s: State, s': State, ids: seq<Id>, survivor: Id) {
    && |s.objects| <= |s'.objects| && s.edges <= s'.edges
    && (forall i :: |s.edges| <= i < |s'.edges| ==> s'.edges[i].from in ids && s'.edges[i].to == survivor)
    && (forall id :: id in ids && id != survivor ==> LeadsTo(s', id, survivor))
    && forall id :: 0 <= id < |s.objects| ==>
         s'.objects[id] == if id in ids && id != survivor then s.objects[id].(lifecycle := Merged) else s.objects[id]
  }

  lemma NamedOnce(names: seq<Name>, name: Name)
    requires NoRepeats(Ids(names)) && name in names
    ensures SpelledAlike(names, Stored(name), name.id)
  {
    var k :| 0 <= k < |names| && names[k] == name;
    forall i | 0 <= i < |names| && names[i].id == name.id ensures i == k {
      assert Ids(names)[i] == Ids(names)[k];
    }
  }

  lemma PlannedIsMergeable(s: State, order: Order, r: Request)
    requires !r.SplitOf? && Planned(s, order, r).Ok? && !r.hint.NewInstance?
    ensures Mergeable(s, r.MergeFrames?, Ids(r.names), SurvivorOf(order, r).name.id)
  {
    var ids, into := Ids(r.names), SurvivorOf(order, r).name.id;
    assert into in ids by {
      if r.hint.Named? {
        var k :| 0 <= k < |r.names| && r.names[k] == r.hint.name;
        assert ids[k] == into;
      }
    }
    hide Oldest, MergeOps;
  }

  lemma NewSurvivorMergeable(s: State, order: Order, r: Request, tx: nat)
    requires r.MergeFrames? && Planned(s, order, r).Ok? && r.hint.NewInstance?
    ensures var oldest := s.objects[Oldest(order, Ids(r.names))].shape;
      var create := [CreateFrame(oldest.frameType, oldest.context)];
      var made := ApplyAll(Progress(s, None, []), create, tx);
      && Planned(s, order, r).value == create + MergeOps(true, r.names, NewSurvivor)
      && made.Ok? && made.value.created == Some(|s.objects|)
      && made.value.state.objects == s.objects + [Object(oldest, Active)] && made.value.state.edges == s.edges
      && Mergeable(made.value.state, true, Ids(r.names), |s.objects|)
      && SpelledAlike(r.names, NewSurvivor, |s.objects|)
  {
    var ids := Ids(r.names);
    var oldest := s.objects[Oldest(order, ids)].shape;
    var create := [CreateFrame(oldest.frameType, oldest.context)];
    assert create[..0] == [];
    assert ApplyAll(Progress(s, None, []), create, tx) == ApplyOne(Progress(s, None, []), create[0], tx);
    assert forall i :: 0 <= i < |r.names| ==> ids[i] == r.names[i].id;
    hide Oldest, MergeOps;
  }

  /** Committed against the objects it was made for, a planned merge applies exactly
      when a hint was given or the oldest named object is spelled as stored. Then it
      does what was asked: the named objects other than the survivor are retired into
      it, the survivor is active, and nothing else that existed changed. Otherwise the
      oldest is merged into itself, which is refused. */
  lemma PlannedMergeApplies(s: State, order: Order, r: Request, tx: nat)
    requires !r.SplitOf? && Planned(s, order, r).Ok?
    ensures var result := ApplyAll(Progress(s, None, []), Planned(s, order, r).value, tx);
      && (result.Ok? <==> SurvivorRecognised(order, r))
      && (result.Refused? ==> result.why == SelfReference)
      && (result.Ok? ==> IsActive(result.value.state, SurvivingId(s, order, r))
                         && OnlyMerged(s, result.value.state, Ids(r.names), SurvivingId(s, order, r)))
  {
    var p := Progress(s, None, []);
    if r.hint.NewInstance? {
      NewSurvivorMerges(s, order, r, tx);
    } else {
      var survivor := SurvivorOf(order, r).name;
      PlannedIsMergeable(s, order, r);
      if SurvivorRecognised(order, r) {
        NamedOnce(r.names, survivor);
        MergesGoThrough(p, r.MergeFrames?, r.names, Stored(survivor), survivor.id, tx);
      } else {
        var ids := Ids(r.names);
        var j :| 0 <= j < |ids| && ids[j] == survivor.id;
        assert r.names[j].id == survivor.id && r.names[j] != survivor;
        SelfMergeStops(p, r.MergeFrames?, r.names, survivor, j, tx);
      }
    }
  }

  lemma NewSurvivorMerges(s: State, order: Order, r: Request, tx: nat)
    requires !r.SplitOf? && Planned(s, order, r).Ok? && r.hint.NewInstance?
    ensures var result := ApplyAll(Progress(s, None, []), Planned(s, order, r).value, tx);
      && result.Ok? && IsActive(result.value.state, |s.objects|)
      && OnlyMerged(s, result.value.state, Ids(r.names), |s.objects|)
  {
    var p := Progress(s, None, []);
    var oldest := s.objects[Oldest(order, Ids(r.names))].shape;
    var create := [CreateFrame(oldest.frameType, oldest.context)];
    NewSurvivorMergeable(s, order, r, tx);
    hide Planned, Mergeable, MergeOps;
    MergesGoThrough(ApplyAll(p, create, tx).value, true, r.names, NewSurvivor, |s.objects|, tx);
    ApplyAppend(p, create, MergeOps(true, r.names, NewSurvivor), tx);
  }

  /** The parent is retired, exactly `n` fresh active objects of its shape take over,
      each with its own edge from the parent, and nothing else changed. */
  predicate OnlySplit(s: State, s': State, parent: Id, n: nat)
    requires parent < |s.objects|
  {
    && |s'.objects| == |s.objects| + n && |s'.edges| == |s.edges| + n && s.edges <= s'.edges
    && (forall id :: 0 <= id < |s.objects| ==>
          s'.objects[id] == if id == parent then s.objects[id].(lifecycle := Split) else s.objects[id])
    && (forall id :: |s.objects| <= id < |s'.objects| ==> s'.objects[id] == Object(s.objects[parent].shape, Active))
    && forall k :: |s.edges| <= k < |s'.edges| ==>
         s'.edges[k].from == parent && s'.edges[k].to == |s.objects| + k - |s.edges| && s'.edges[k].kind == SplitInto
  }

  /** A planned split is refused at once only for a repeated partition name, and
      otherwise does exactly what was asked. */
  lemma PlannedSplitApplies(s: State, order: Order, r: Request, tx: nat)
    requires r.SplitOf? && Planned(s, order, r).Ok?
    ensures var result := ApplyAll(Progress(s, None, []), Planned(s, order, r).value, tx);
      && (result.Ok? <==> NoRepeats(r.partitions))
      && (result.Ok? ==> OnlySplit(s, result.value.state, r.target, |r.partitions|))
  {
    var ops := Planned(s, order, r).value;
    assert ops[..0] == [];
    assert ApplyAll(Progress(s, None, []), ops, tx) == ApplyOne(Progress(s, None, []), ops[0], tx);
    ChildrenAdded(s, r.target, tx, |r.partitions|);
  }

  lemma PlansAreWellFormed(s: State, order: Order, r: Request)
    requires Planned(s, order, r).Ok?
    ensures OpsWellFormed(Planned(s, order, r).value)
  {
    if !r.SplitOf? { MergeOpsMerge(r.MergeFrames?, r.names, SurvivorOf(order, r)); }
  }

  lemma {:induction false} MergeOpsMerge(frames: bool, names: seq<Name>, survivor: Ref)
    ensures forall i :: 0 <= i < |MergeOps(frames, names, survivor)| ==> MergeOps(frames, names, survivor)[i].MergeOp?
  {
    if names != [] { MergeOpsMerge(frames, names[..|names| - 1], survivor); }
  }

  // ---------------------------------------------------------------------
  // One request, start to finish
  // ---------------------------------------------------------------------

  /** What a commit answers: the stored results, or why there are none. */
  function CommitAnswer(s: State, tx: nat, committable: bool): Result<seq<Outcome>>
    requires tx < |s.transactions|
  {
    var t := AfterCommit(s, tx, committable).transactions[tx];
    match t.status
    case Committed => Ok(t.results)
    case Rejected => Refused(GovernorRejected)
    case Proposed => Refused(ApplyAll(Progress(s, None, []), t.operations, tx).why)
  }

  /** A key already bound to a change set of the other kind is refused; one bound to
      this kind is committed as stored, whatever the request now says; only a new
      key is planned. */
  function AfterRequest(s: State, order: Order, key: nat, r: Request, committable: bool): State {
    var found := FindKey(s.transactions, key);
    if found.Some? then
      FindKeyFinds(s.transactions, key);
      if s.transactions[found.value].kind != r.Kind() then s else AfterCommit(s, found.value, committable)
    else if Planned(s, order, r).Refused? then s
    else AfterCommit(AfterPropose(s, key, r.Kind(), Planned(s, order, r).value), |s.transactions|, committable)
  }

  function Answer(s: State, order: Order, key: nat, r: Request, committable: bool): Result<seq<Outcome>> {
    var found := FindKey(s.transactions, key);
    if found.Some? then
      FindKeyFinds(s.transactions, key);
      if s.transactions[found.value].kind != r.Kind() then Refused(KeyReused) else CommitAnswer(s, found.value, committable)
    else if Planned(s, order, r).Refused? then Refused(Planned(s, order, r).why)
    else CommitAnswer(AfterPropose(s, key, r.Kind(), Planned(s, order, r).value), |s.transactions|, committable)
  }

  lemma FreshRequestCommits(s: State, order: Order, key: nat, r: Request)
    requires FindKey(s.transactions, key).None? && Planned(s, order, r).Ok?
    ensures var proposed, tx := AfterPropose(s, key, r.Kind(), Planned(s, order, r).value), |s.transactions|;
      && tx < |proposed.transactions| && proposed.objects == s.objects && proposed.edges == s.edges
      && AfterRequest(s, order, key, r, true) == AfterCommit(proposed, tx, true) && Answer(s, order, key, r, true) == CommitAnswer(proposed, tx, true)
      && proposed.transactions[tx].status == Proposed && proposed.transactions[tx].operations == Planned(s, order, r).value
  {
    hide Planned, ApplyAll;
  }

  lemma AppliedIsCommitted(s: State, tx: nat)
    requires tx < |s.transactions| && s.transactions[tx].status == Proposed
    requires ApplyAll(Progress(s, None, []), s.transactions[tx].operations, tx).Ok?
    ensures CommitAnswer(s, tx, true).Ok?
    ensures var applied := ApplyAll(Progress(s, None, []), s.transactions[tx].operations, tx).value.state;
      AfterCommit(s, tx, true).objects == applied.objects && AfterCommit(s, tx, true).edges == applied.edges
  {
    hide ApplyAll;
  }

  lemma OnlyMergedReadsTheGraph(s: State, s': State, t: State, t': State, ids: seq<Id>, survivor: Id)
    requires OnlyMerged(s, s', ids, survivor) && s.objects == t.objects && s.edges == t.edges
    requires s'.objects == t'.objects && s'.edges == t'.edges
    ensures OnlyMerged(t, t', ids, survivor)
  {
    forall id | id in ids && id != survivor ensures LeadsTo(t', id, survivor) { assert LeadsTo(s', id, survivor); }
  }

  lemma RefusedIsUncommitted(s: State, tx: nat)
    requires tx < |s.transactions| && s.transactions[tx].status == Proposed
    requires ApplyAll(Progress(s, None, []), s.transactions[tx].operations, tx).Refused?
    ensures AfterCommit(s, tx, true) == s
    ensures CommitAnswer(s, tx, true) == Refused(ApplyAll(Progress(s, None, []), s.transactions[tx].operations, tx).why)
  {
    hide ApplyAll;
  }

  /** A first request for a merge, met by a governor that allows it, is answered with
      results and applied exactly when a hint was given or the oldest named object is
      spelled as stored; otherwise it is refused and merges nothing. */
  lemma FreshMergeIsApplied(s: State, order: Order, key: nat, r: Request)
    requires FindKey(s.transactions, key).None? && !r.SplitOf? && Planned(s, order, r).Ok?
    ensures var s', answer := AfterRequest(s, order, key, r, true), Answer(s, order, key, r, true);
      && (answer.Ok? <==> SurvivorRecognised(order, r))
      && (answer.Ok? ==> IsActive(s', SurvivingId(s, order, r)) && OnlyMerged(s, s', Ids(r.names), SurvivingId(s, order, r)))
      && (answer.Refused? ==> answer.why == SelfReference && s'.objects == s.objects && s'.edges == s.edges)
  {
    var proposed, tx := AfterPropose(s, key, r.Kind(), Planned(s, order, r).value), |s.transactions|;
    PlanIgnoresTransactions(s, proposed, order, r);
    FreshRequestCommits(s, order, key, r);
    hide *;
    PlannedMergeApplies(proposed, order, r, tx);
    if SurvivorRecognised(order, r) {
      AppliedIsCommitted(proposed, tx);
      var applied := ApplyAll(Progress(proposed, None, []), Planned(s, order, r).value, tx).value.state;
      SurvivingReadsTheGraph(s, proposed, applied, AfterRequest(s, order, key, r, true), order, r);
      OnlyMergedReadsTheGraph(proposed, applied, s, AfterRequest(s, order, key, r, true), Ids(r.names), SurvivingId(s, order, r));
    } else {
      RefusedIsUncommitted(proposed, tx);
    }
  }

  lemma SurvivingReadsTheGraph(s: State, proposed: State, applied: State, after: State, order: Order, r: Request)
    requires !r.SplitOf? && r.names != [] && s.objects == proposed.objects && applied.objects == after.objects
    ensures SurvivingId(s, order, r) == SurvivingId(proposed, order, r)
    ensures IsActive(applied, SurvivingId(s, order, r)) ==> IsActive(after, SurvivingId(s, order, r))
  {}

  lemma PlanIgnoresTransactions(s: State, t: State, order: Order, r: Request)
    requires s.objects == t.objects
    ensures Planned(s, order, r) == Planned(t, order, r)
  {
    if !r.SplitOf? {
      var ids := Ids(r.names);
      assert AllObjects(s, ids, r.MergeFrames?) == AllObjects(t, ids, r.MergeFrames?) && AllActive(s, ids) == AllActive(t, ids);
      hide AllObjects, AllActive, NoRepeats, Oldest, MergeOps, Ids;
      assert MergeDenied(s, r) == MergeDenied(t, r);
    }
  }

  /** A request that changes nothing but what its own steps would. */
  lemma RequestIsSteps(s: State, order: Order, key: nat, r: Request, committable: bool)
    requires Valid(s) && KeysDistinct(s)
    ensures var s' := AfterRequest(s, order, key, r, committable);
      Valid(s') && KeysDistinct(s') && Extends(s, s') && TransactionsKept(s, s')
  {
    var found := FindKey(s.transactions, key);
    FindKeyFinds(s.transactions, key);
    if found.Some? {
      StepKeeps(s, CommitStep(found.value, committable));
    } else if Planned(s, order, r).Ok? {
      PlansAreWellFormed(s, order, r);
      var proposed := After(s, ProposeStep(key, r.Kind(), Planned(s, order, r).value));
      StepKeeps(s, ProposeStep(key, r.Kind(), Planned(s, order, r).value));
      StepKeeps(proposed, CommitStep(|s.transactions|, committable));
      ExtendsTransitive(s, proposed, AfterRequest(s, order, key, r, committable));
    }
  }

  lemma KeyFindsItsOwn(s: State, i: nat)
    requires KeysDistinct(s) && i < |s.transactions|
    ensures FindKey(s.transactions, s.transactions[i].key) == Some(i)
  {
    FindKeyFinds(s.transactions, s.transactions[i].key);
  }

  /** The change set a request under `key` commits. */
  function TransactionOf(s: State, key: nat): nat {
    var found := FindKey(s.transactions, key);
    if found.Some? then found.value else |s.transactions|
  }

  predicate IsSettled(s: State, tx: nat, key: nat, kind: Kind, results: seq<Outcome>) {
    && tx < |s.transactions| && s.transactions[tx].status == Committed && s.transactions[tx].key == key
    && s.transactions[tx].kind == kind && s.transactions[tx].results == results
  }

  lemma CommitSettles(s: State, tx: nat, committable: bool)
    requires tx < |s.transactions| && CommitAnswer(s, tx, committable).Ok?
    ensures IsSettled(AfterCommit(s, tx, committable), tx, s.transactions[tx].key, s.transactions[tx].kind,
                      CommitAnswer(s, tx, committable).value)
  {}

  lemma AnsweringSettles(s: State, order: Order, key: nat, r: Request, committable: bool)
    requires Answer(s, order, key, r, committable).Ok?
    ensures IsSettled(AfterRequest(s, order, key, r, committable), TransactionOf(s, key), key, r.Kind(),
                      Answer(s, order, key, r, committable).value)
  {
    FindKeyFinds(s.transactions, key);
    if FindKey(s.transactions, key).Some? {
      CommitSettles(s, TransactionOf(s, key), committable);
    } else {
      CommitSettles(AfterPropose(s, key, r.Kind(), Planned(s, order, r).value), TransactionOf(s, key), committable);
    }
  }

  lemma SettledReplays(s: State, order: Order, tx: nat, key: nat, kind: Kind, results: seq<Outcome>, retry: Request, again: bool)
    requires KeysDistinct(s) && IsSettled(s, tx, key, kind, results)
    ensures AfterRequest(s, order, key, retry, again) == s
    ensures Answer(s, order, key, retry, again) == if retry.Kind() == kind then Ok(results) else Refused(KeyReused)
  {
    KeyFindsItsOwn(s, tx);
  }

  /** Once a request has been answered with results, the same key of the same kind
      is answered with those results for ever, whatever the retry asks for and
      whatever happened between, and changes nothing; the other kind is refused. */
  lemma RetriesReplay(s: State, order: Order, key: nat, r: Request, committable: bool, steps: seq<Step>,
                      laterOrder: Order, retry: Request, again: bool)
    requires Valid(s) && KeysDistinct(s) && Answer(s, order, key, r, committable).Ok?
    requires forall i :: 0 <= i < |steps| ==> StepWellFormed(steps[i])
    ensures var later := Run(AfterRequest(s, order, key, r, committable), steps);
      && AfterRequest(later, laterOrder, key, retry, again) == later
      && Answer(later, laterOrder, key, retry, again) ==
           if retry.Kind() == r.Kind() then Answer(s, order, key, r, committable) else Refused(KeyReused)
  {
    var s' := AfterRequest(s, order, key, r, committable);
    var tx, results := TransactionOf(s, key), Answer(s, order, key, r, committable).value;
    AnsweringSettles(s, order, key, r, committable);
    RequestIsSteps(s, order, key, r, committable);
    RunsKeepLineage(s', steps);
    assert Run(s', steps).transactions[tx] == s'.transactions[tx];
    SettledReplays(Run(s', steps), laterOrder, tx, key, r.Kind(), results, retry, again);
  }

  lemma {:induction false} FindKeyStays(s: State, s': State, key: nat)
    requires KeysDistinct(s') && TransactionsKept(s, s') && FindKey(s.transactions, key).Some?
    ensures FindKey(s'.transactions, key) == FindKey(s.transactions, key)
  {
    FindKeyFinds(s.transactions, key);
    KeyFindsItsOwn(s', FindKey(s.transactions, key).value);
  }

  /** A key once proposed keeps its first plan: any number of steps later, whoever
      proposed or committed meanwhile, a retry of the same kind commits the stored
      operations, and what it asks for is not looked at. */
  lemma RetriesNeverReplan(s: State, order: Order, key: nat, r: Request, retry: Request, committable: bool, steps: seq<Step>)
    requires Valid(s) && KeysDistinct(s) && FindKey(s.transactions, key).Some?
    requires forall i :: 0 <= i < |steps| ==> StepWellFormed(steps[i])
    ensures var later, tx := Run(s, steps), FindKey(s.transactions, key).value;
      && FindKey(later.transactions, key) == Some(tx)
      && tx < |s.transactions| <= |later.transactions| && later.transactions[tx].operations == s.transactions[tx].operations
      && (r.Kind() == retry.Kind() == s.transactions[tx].kind ==>
            && AfterRequest(later, order, key, r, committable) == AfterRequest(later, order, key, retry, committable)
                == AfterCommit(later, tx, committable)
            && Answer(later, order, key, r, committable) == Answer(later, order, key, retry, committable))
  {
    hide Valid, KeysDistinct, AfterCommit, CommitAnswer;
    FindKeyFinds(s.transactions, key);
    RunsKeepLineage(s, steps);
    FindKeyStays(s, Run(s, steps), key);
  }

  // ---------------------------------------------------------------------
  // A survivor spelled unlike its row
  // ---------------------------------------------------------------------

  predicate IsSelfMerge(op: Operation) {
    op.MergeOp? && op.survivor.Stored? && op.target.id == op.survivor.name.id
  }

  /** Whatever the store has become, such a list is refused. */
  lemma {:induction false} SelfMergeNeverApplies(p: Progress, ops: seq<Operation>, i: nat, tx: nat)
    requires i < |ops| && IsSelfMerge(ops[i])
    ensures ApplyAll(p, ops, tx).Refused?
  {
    if i < |ops| - 1 { SelfMergeNeverApplies(p, ops[..|ops| - 1], i, tx); }
  }

  /** A change set that merges an object into itself, so far uncommitted. */
  predicate IsBarred(s: State, tx: nat) {
    && tx < |s.transactions| && s.transactions[tx].status != Committed
    && exists i :: 0 <= i < |s.transactions[tx].operations| && IsSelfMerge(s.transactions[tx].operations[i])
  }

  lemma BarredIsStored(s: State, tx: nat)
    requires IsBarred(s, tx)
    ensures tx < |s.transactions|
  {}

  lemma BarredIsRefused(s: State, tx: nat, committable: bool)
    requires IsBarred(s, tx)
    ensures IsBarred(AfterCommit(s, tx, committable), tx) && CommitAnswer(s, tx, committable).Refused?
    ensures AfterCommit(s, tx, committable).objects == s.objects && AfterCommit(s, tx, committable).edges == s.edges
  {
    var ops := s.transactions[tx].operations;
    var i :| 0 <= i < |ops| && IsSelfMerge(ops[i]);
    SelfMergeNeverApplies(Progress(s, None, []), ops, i, tx);
    hide ApplyAll, IsSelfMerge;
  }

  lemma StepKeepsBarred(s: State, step: Step, tx: nat)
    requires IsBarred(s, tx)
    ensures IsBarred(After(s, step), tx)
  {
    if step.CommitStep? && step.transaction == tx { BarredIsRefused(s, tx, step.committable); }
    hide ApplyAll, IsSelfMerge;
  }

  lemma {:induction false} RunKeepsBarred(s: State, steps: seq<Step>, tx: nat)
    requires IsBarred(s, tx)
    ensures IsBarred(Run(s, steps), tx)
  {
    if steps != [] {
      hide IsBarred, After;
      RunKeepsBarred(s, steps[..|steps| - 1], tx);
      StepKeepsBarred(Run(s, steps[..|steps| - 1]), steps[|steps| - 1], tx);
    }
  }

  lemma {:induction false} MergeOpsHolds(frames: bool, names: seq<Name>, survivor: Ref, j: nat)
    requires j < |names| && Stored(names[j]) != survivor
    ensures MergeOp(frames, names[j], survivor) in MergeOps(frames, names, survivor)
  {
    if j < |names| - 1 { MergeOpsHolds(frames, names[..|names| - 1], survivor, j); }
  }

  lemma UnrecognisedMergesItself(s: State, order: Order, r: Request)
    requires !r.SplitOf? && Planned(s, order, r).Ok? && !SurvivorRecognised(order, r)
    ensures exists i :: 0 <= i < |Planned(s, order, r).value| && IsSelfMerge(Planned(s, order, r).value[i])
  {
    var survivor, ids, ops := SurvivorOf(order, r), Ids(r.names), Planned(s, order, r).value;
    var j :| 0 <= j < |ids| && ids[j] == survivor.name.id;
    assert r.names[j].id == survivor.name.id;
    MergeOpsHolds(r.MergeFrames?, r.names, survivor, j);
    var i :| 0 <= i < |ops| && ops[i] == MergeOp(r.MergeFrames?, r.names[j], survivor);
  }

  lemma FirstRequestBars(s: State, order: Order, key: nat, r: Request, committable: bool)
    requires FindKey(s.transactions, key).None? && !r.SplitOf? && Planned(s, order, r).Ok? && !SurvivorRecognised(order, r)
    ensures var s' := AfterRequest(s, order, key, r, committable);
      IsBarred(s', |s.transactions|) && s'.transactions[|s.transactions|].key == key
  {
    var proposed, tx := AfterPropose(s, key, r.Kind(), Planned(s, order, r).value), |s.transactions|;
    UnrecognisedMergesItself(s, order, r);
    hide Planned, IsSelfMerge, SurvivorRecognised;
    assert IsBarred(proposed, tx);
    BarredIsRefused(proposed, tx, committable);
  }

  lemma BarredKeyRefuses(s: State, order: Order, key: nat, tx: nat, retry: Request, again: bool)
    requires FindKey(s.transactions, key) == Some(tx) && IsBarred(s, tx)
    ensures Answer(s, order, key, retry, again).Refused?
    ensures AfterRequest(s, order, key, retry, again).objects == s.objects && AfterRequest(s, order, key, retry, again).edges == s.edges
  {
    BarredIsRefused(s, tx, again);
    FindKeyFinds(s.transactions, key);
    hide AfterCommit, CommitAnswer, Planned, IsBarred, FindKey;
  }

  /** A merge planned with its oldest object spelled otherwise binds its key to a
      change set that can never commit: whatever happens afterwards, and whatever is
      asked under that key, no request is answered with results, and none changes an
      object or any lineage. */
  lemma UnrecognisedIsRefusedForEver(s: State, order: Order, key: nat, r: Request, committable: bool, steps: seq<Step>,
                                     laterOrder: Order, retry: Request, again: bool)
    requires Valid(s) && KeysDistinct(s) && FindKey(s.transactions, key).None?
    requires !r.SplitOf? && Planned(s, order, r).Ok? && !SurvivorRecognised(order, r)
    requires forall i :: 0 <= i < |steps| ==> StepWellFormed(steps[i])
    ensures var later := Run(AfterRequest(s, order, key, r, committable), steps);
      var after := AfterRequest(later, laterOrder, key, retry, again);
      && FindKey(later.transactions, key) == Some(|s.transactions|)
      && Answer(later, laterOrder, key, retry, again).Refused?
      && after.objects == later.objects && after.edges == later.edges
  {
    var s', tx := AfterRequest(s, order, key, r, committable), |s.transactions|;
    RequestIsSteps(s, order, key, r, committable);
    FirstRequestBars(s, order, key, r, committable);
    BarredIsStored(s', tx);
    hide *;
    RunKeepsBarred(s', steps, tx);
    RunsKeepLineage(s', steps);
    var later := Run(s', steps);
    KeyIsKept(s', later, tx, key);
    BarredKeyRefuses(later, laterOrder, key, tx, retry, again);
  }

  lemma KeyIsKept(s: State, later: State, tx: nat, key: nat)
    requires KeysDistinct(later) && TransactionsKept(s, later) && tx < |s.transactions| && s.transactions[tx].key == key
    ensures FindKey(later.transactions, key) == Some(tx)
  {
    KeyFindsItsOwn(later, tx);
  }

  const TWO_FRAMES := State([Object(Frame(0, 0), Active), Object(Frame(0, 0), Active)], [], [])

  /** A request for both of them, the first in the given spelling. */
  function MergeBoth(spelling: nat): Request {
    MergeFrames([Name(0, spelling), AsStored(1)], NoHint)
  }

  lemma MergeBothPlan(order: Order, spelling: nat)
    requires order(0) < order(1)
    ensures !MergeBoth(spelling).SplitOf? && MergeBoth(spelling).names != []
    ensures Planned(TWO_FRAMES, order, MergeBoth(spelling)) ==
      Ok(if spelling == 0 then [MergeOp(true, AsStored(1), Stored(AsStored(0)))]
         else [MergeOp(true, Name(0, spelling), Stored(AsStored(0))), MergeOp(true, AsStored(1), Stored(AsStored(0)))])
    ensures SurvivorRecognised(order, MergeBoth(spelling)) <==> spelling == 0
  {
    var names, survivor := MergeBoth(spelling).names, Stored(AsStored(0));
    assert Ids(names) == [0, 1];
    assert names[..1] == [Name(0, spelling)] && [Name(0, spelling)][..0] == [];
    assert MergeOps(true, [Name(0, spelling)], survivor) == if spelling == 0 then [] else [MergeOp(true, Name(0, spelling), survivor)];
    assert names[0] == Name(0, spelling) && names[1] == AsStored(1);
    assert MergeOps(true, names, survivor) ==
      if spelling == 0 then [MergeOp(true, AsStored(1), survivor)]
      else [MergeOp(true, Name(0, spelling), survivor), MergeOp(true, AsStored(1), survivor)];
  }

  /** The older of two frames is named in another spelling, with no hint: the request
      is planned, its plan merges that frame into itself, and the commit refuses. In
      the stored spelling the same request is applied. */
  lemma OtherSpellingMergesIntoItself(order: Order, spelling: nat, key: nat)
    requires order(0) < order(1) && spelling != 0
    ensures Planned(TWO_FRAMES, order, MergeBoth(spelling)) ==
      Ok([MergeOp(true, Name(0, spelling), Stored(AsStored(0))), MergeOp(true, AsStored(1), Stored(AsStored(0)))])
    ensures Answer(TWO_FRAMES, order, key, MergeBoth(spelling), true) == Refused(SelfReference)
    ensures Answer(TWO_FRAMES, order, key, MergeBoth(0), true).Ok?
  {
    MergeBothPlan(order, spelling);
    MergeBothAnswer(order, spelling, key);
    MergeBothAnswer(order, 0, key);
  }

  lemma MergeBothAnswer(order: Order, spelling: nat, key: nat)
    requires order(0) < order(1)
    ensures var answer := Answer(TWO_FRAMES, order, key, MergeBoth(spelling), true);
      if spelling == 0 then answer.Ok? else answer == Refused(SelfReference)
  {
    var s, r := TWO_FRAMES, MergeBoth(spelling);
    MergeBothPlan(order, spelling);
    assert FindKey(s.transactions, key).None?;
    hide *;
    FreshMergeIsApplied(s, order, key, r);
  }

  class LineageStore {
    var state: State

    constructor (objects: seq<Object>)
      ensures state == State(objects, [], [])
      ensures IsFresh(state) ==> Valid(state) && KeysDistinct(state)
    {
      state := State(objects, [], []);
      new;
      if IsFresh(state) { FreshStoreIsValid(state); }
    }

    method MergeOperations(frames: bool, names: seq<Name>, survivor: Ref) returns (operations: seq<Operation>)
      ensures operations == MergeOps(frames, names, survivor)
    {
      operations := [];
      for i := 0 to |names|
        invariant operations == MergeOps(frames, names[..i], survivor)
      {
        assert names[..i + 1][..i] == names[..i];
        if Stored(names[i]) != survivor {
          operations := operations + [MergeOp(frames, names[i], survivor)];
        }
      }
      assert names[..|names|] == names;
    }

    method Plan(order: Order, r: Request) returns (planned: Result<seq<Operation>>)
      ensures planned == Planned(state, order, r)
    {
      if !RequestWellFormed(r) {
        return Refused(InputInvalid);
      }
      if r.SplitOf? {
        if !IsObject(state, r.target, r.frames) {
          return Refused(NotFound);
        }
        if !IsActive(state, r.target) {
          return Refused(NotActive);
        }
        return Ok([SplitOp(r.frames, r.target, r.partitions)]);
      }
      var denied := MergeDenied(state, r);
      if denied.Some? {
        return Refused(denied.value);
      }
      var operations: seq<Operation> := [];
      if r.MergeFrames? && r.hint.NewInstance? {
        var oldest := state.objects[Oldest(order, Ids(r.names))].shape;
        operations := [CreateFrame(oldest.frameType, oldest.context)];
      }
      var merges := MergeOperations(r.MergeFrames?, r.names, SurvivorOf(order, r));
      assert operations == [] ==> operations + merges == merges;
      return Ok(operations + merges);
    }

    method Propose(key: nat, kind: Kind, operations: seq<Operation>) returns (tx: nat)
      modifies this
      ensures state == AfterPropose(old(state), key, kind, operations)
      ensures tx < |state.transactions| && state.transactions[tx].key == key
      ensures FindKey(old(state).transactions, key).None? ==> tx == |old(state).transactions|
    {
      FindKeyFinds(state.transactions, key);
      var found := FindKey(state.transactions, key);
      if found.Some? {
        return found.value;
      }
      tx := |state.transactions|;
      state := state.(transactions := state.transactions + [Transaction(key, kind, operations, Proposed, [])]);
    }

    /** Operations are applied in order to working state, which replaces the store
        only when every one of them was. */
    method Commit(tx: nat, committable: bool) returns (answer: Result<seq<Outcome>>)
      requires tx < |state.transactions|
      modifies this
      ensures state == AfterCommit(old(state), tx, committable)
      ensures answer == CommitAnswer(old(state), tx, committable)
    {
      var t := state.transactions[tx];
      if t.status == Committed {
        return Ok(t.results);
      }
      if t.status == Rejected {
        return Refused(GovernorRejected);
      }
      if !committable {
        state := state.(transactions := state.transactions[tx := t.(status := Rejected)]);
        return Refused(GovernorRejected);
      }
      var working := Progress(state, None, []);
      var refused: Option<Refusal> := None;
      var i := 0;
      while i < |t.operations| && refused.None?
        invariant 0 <= i <= |t.operations| && state == old(state)
        invariant ApplyAll(Progress(state, None, []), t.operations[..i], tx) ==
                  if refused.Some? then Refused(refused.value) else Ok(working)
        invariant refused.Some? ==> ApplyAll(Progress(state, None, []), t.operations, tx) == Refused(refused.value)
        decreases |t.operations| - i
      {
        assert t.operations[..i + 1][..i] == t.operations[..i];
        var next := ApplyOne(working, t.operations[i], tx);
        i := i + 1;
        if next.Ok? {
          working := next.value;
        } else {
          refused := Some(next.why);
          RefusalStays(Progress(state, None, []), t.operations, i, tx);
        }
      }
      if refused.Some? {
        return Refused(refused.value);
      }
      assert t.operations[..i] == t.operations;
      state := working.state.(transactions := state.transactions[tx := t.(status := Committed, results := working.results)]);
      return Ok(working.results);
    }

    method CommitOnce(order: Order, key: nat, r: Request, committable: bool) returns (answer: Result<seq<Outcome>>)
      modifies this
      ensures state == AfterRequest(old(state), order, key, r, committable)
      ensures answer == Answer(old(state), order, key, r, committable)
    {
      FindKeyFinds(state.transactions, key);
      var existing := FindKey(state.transactions, key);
      if existing.Some? && state.transactions[existing.value].kind != r.Kind() {
        return Refused(KeyReused);
      }
      var tx;
      if existing.Some? {
        tx := existing.value;
      } else {
        var planned := Plan(order, r);
        if planned.Refused? {
          return Refused(planned.why);
        }
        tx := Propose(key, r.Kind(), planned.value);
      }
      answer := Commit(tx, committable);
    }
  }

  lemma {:induction false} RefusalStays(p: Progress, ops: seq<Operation>, i: nat, tx: nat)
    requires i <= |ops| && ApplyAll(p, ops[..i], tx).Refused?
    ensures ApplyAll(p, ops, tx) == ApplyAll(p, ops[..i], tx)
    decreases |ops|
  {
    if i == |ops| {
      assert ops[..i] == ops;
    } else {
      assert ops[..|ops| - 1][..i] == ops[..i];
      RefusalStays(p, ops[..|ops| - 1], i, tx);
    }
  }
}
