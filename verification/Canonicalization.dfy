/** The accounting of canonicalization: every extracted claim becomes an assertion
    or is counted as unresolved, and a due time no clock can place is counted even
    though its claim was asserted. */
module Canonicalization {
  import opened Options

  datatype SourceType = DOCUMENT | GMAIL | OTHER_SOURCE

  /** Who is said to have written the source. */
  datatype Actor = User(isSubmitter: bool) | External(hasAddress: bool) | OtherActor

  datatype Source = Source(sourceType: SourceType, actor: Actor, contentLength: Option<nat>)

  datatype Match = SAME_INSTANCE | NEW_INSTANCE | POSSIBLE_MATCH | PROBABLE_MATCH

  datatype Assertion = Assertion(proposition: nat, claim: nat, frame: nat, validFrom: Option<nat>)

  /** A claim awaiting canonicalization, with what the classifier and the resolvers
      answer for it. `due` is the assertion its due time would become, when the
      phrase can be placed on a clock. */
  datatype Claim = Claim(
    commitmentFrame: bool, readsAsCommitment: bool, firstPerson: bool, identityEstablished: bool,
    instanceMatch: Match, action: Assertion, hasDueText: bool, due: Option<Assertion>)

  datatype DueTime = NoDueTime | DueTimeUnplaced | DueTimeAsserted(due: Assertion)
  datatype Verdict = Pending | Asserted(action: Assertion, dueTime: DueTime)

  datatype Canonical = Canonical(assertions: seq<Assertion>, unresolved: nat)

  const LONGEST_READ_WHOLE := 8192

  /** Whose words they are is known: the owner's own submission, or mail from an
      address with an established identity. */
  predicate Attributable(src: Source, c: Claim) {
    match src.actor
    case User(isSubmitter) => isSubmitter
    case External(hasAddress) => src.sourceType == GMAIL && hasAddress && c.identityEstablished
    case OtherActor => false
  }

  predicate Supported(src: Source, c: Claim) {
    c.commitmentFrame && src.sourceType != DOCUMENT && c.readsAsCommitment && c.firstPerson
  }

  predicate Unambiguous(c: Claim) {
    c.instanceMatch != POSSIBLE_MATCH && c.instanceMatch != PROBABLE_MATCH
  }

  function Judge(src: Source, c: Claim): Verdict {
    if !Supported(src, c) || !Attributable(src, c) || !Unambiguous(c) then Pending
    else Asserted(c.action, if !c.hasDueText then NoDueTime else if c.due.None? then DueTimeUnplaced else DueTimeAsserted(c.due.value))
  }

  /** Text too long to have been read whole leaves one thing unresolved by itself. */
  function Unread(src: Source): nat {
    if src.contentLength.Some? && src.contentLength.value > LONGEST_READ_WHOLE then 1 else 0
  }

  function AssertionsOf(v: Verdict): seq<Assertion> {
    if v.Pending? then [] else if v.dueTime.DueTimeAsserted? then [v.action, v.dueTime.due] else [v.action]
  }

  predicate LeavesOpen(v: Verdict) {
    v.Pending? || v.dueTime.DueTimeUnplaced?
  }

  /** All assertions, in the order of the claims that made them. */
  function AllAssertions(src: Source, claims: seq<Claim>): seq<Assertion> {
    if claims == [] then []
    else AllAssertions(src, claims[..|claims| - 1]) + AssertionsOf(Judge(src, claims[|claims| - 1]))
  }

  /** The indices of the claims that leave something open. */
  function Open(src: Source, claims: seq<Claim>): set<nat> {
    set i: nat | i < |claims| && LeavesOpen(Judge(src, claims[i]))
  }

  /** The loop over the claims, with its early `continue`s. */
  method Canonicalize(src: Source, claims: seq<Claim>) returns (r: Canonical)
    ensures r.assertions == AllAssertions(src, claims)
    ensures r.unresolved == Unread(src) + |Open(src, claims)|
  {
    var assertions: seq<Assertion> := [];
    var unresolved := Unread(src);
    assert Open(src, claims[..0]) == {};
    for i := 0 to |claims|
      invariant assertions == AllAssertions(src, claims[..i])
      invariant unresolved == Unread(src) + |Open(src, claims[..i])|
    {
      assert claims[..i + 1][..i] == claims[..i];
      OpenGrows(src, claims, i);
      var c := claims[i];
      if !c.commitmentFrame || src.sourceType == DOCUMENT || !c.readsAsCommitment || !c.firstPerson {
        unresolved := unresolved + 1;
        continue;
      }
      if src.actor.User? && src.actor.isSubmitter {
      } else if src.actor.External? && src.sourceType == GMAIL {
        if !src.actor.hasAddress {
          unresolved := unresolved + 1;
          continue;
        }
        if !c.identityEstablished {
          unresolved := unresolved + 1;
          continue;
        }
      } else {
        unresolved := unresolved + 1;
        continue;
      }
      if c.instanceMatch == POSSIBLE_MATCH || c.instanceMatch == PROBABLE_MATCH {
        unresolved := unresolved + 1;
        continue;
      }
      assertions := assertions + [c.action];
      var temporal := if c.hasDueText then c.due else None;
      if temporal.None? {
        if c.hasDueText {
          unresolved := unresolved + 1;
        }
        continue;
      }
      assertions := assertions + [temporal.value];
    }
    assert claims[..|claims|] == claims;
    r := Canonical(assertions, unresolved);
  }

  lemma OpenGrows(src: Source, claims: seq<Claim>, i: nat)
    requires i < |claims|
    ensures |Open(src, claims[..i + 1])| == |Open(src, claims[..i])| + if LeavesOpen(Judge(src, claims[i])) then 1 else 0
  {
    var before, after := Open(src, claims[..i]), Open(src, claims[..i + 1]);
    if LeavesOpen(Judge(src, claims[i])) {
      assert after == before + {i};
    } else {
      assert after == before;
    }
  }

  /** Nothing is lost or moved: each claim's assertions stand at its place among the
      others'. */
  lemma {:induction false} AssertionsStandInPlace(src: Source, claims: seq<Claim>, i: nat)
    requires i < |claims|
    ensures AllAssertions(src, claims) ==
      AllAssertions(src, claims[..i]) + AssertionsOf(Judge(src, claims[i])) + AllAssertions(src, claims[i + 1..])
    decreases |claims|
  {
    hide Judge, AssertionsOf;
    var front, last := claims[..|claims| - 1], claims[|claims| - 1];
    var tail := claims[i + 1..];
    if i < |front| {
      AssertionsStandInPlace(src, front, i);
      assert front[..i] == claims[..i] && front[i + 1..] == tail[..|tail| - 1] && tail[|tail| - 1] == last;
    }
  }

  /** Each claim yields assertions or is open, and is both exactly when only its due
      time could not be placed. */
  lemma EveryClaimIsAccounted(src: Source, claims: seq<Claim>, i: nat)
    requires i < |claims|
    ensures AssertionsOf(Judge(src, claims[i])) != [] || i in Open(src, claims)
    ensures AssertionsOf(Judge(src, claims[i])) != [] && i in Open(src, claims) <==>
      Judge(src, claims[i]) == Asserted(claims[i].action, DueTimeUnplaced)
  {
    assert i in Open(src, claims) <==> LeavesOpen(Judge(src, claims[i]));
  }

  /** Nothing is unresolved exactly when the text was read whole, every claim was
      supported, attributed and unambiguous, and every due time was placed. */
  lemma FullyResolvedExactly(src: Source, claims: seq<Claim>)
    ensures Unread(src) + |Open(src, claims)| == 0 <==>
      && (src.contentLength.Some? ==> src.contentLength.value <= LONGEST_READ_WHOLE)
      && forall i :: 0 <= i < |claims| ==>
           && Supported(src, claims[i]) && Attributable(src, claims[i]) && Unambiguous(claims[i])
           && (claims[i].hasDueText ==> claims[i].due.Some?)
  {
    if Open(src, claims) == {} {
      forall i | 0 <= i < |claims| ensures !LeavesOpen(Judge(src, claims[i])) {
        assert i !in Open(src, claims);
      }
    } else {
      var i :| i in Open(src, claims);
      assert LeavesOpen(Judge(src, claims[i]));
    }
  }

  /** A document's submitter is not taken for its author: nothing in it is asserted. */
  lemma {:induction false} DocumentsAssertNothing(src: Source, claims: seq<Claim>)
    requires src.sourceType == DOCUMENT
    ensures AllAssertions(src, claims) == [] && |Open(src, claims)| == |claims|
  {
    if claims == [] {
      assert Open(src, claims) == {};
    } else {
      DocumentsAssertNothing(src, claims[..|claims| - 1]);
      OpenGrows(src, claims, |claims| - 1);
      assert claims[..|claims|] == claims;
    }
  }
}
