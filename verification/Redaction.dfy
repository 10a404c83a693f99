/** Secret redaction: one left-to-right replacement of an alternation of three
    patterns, each secret by one fixed literal. */
module Redaction {
  import opened Options
  import opened Text

  const SK: Text := [83, 75, 45]
  const ANTHROPIC: Text := [65, 78, 84, 72, 82, 79, 80, 73, 67, 95, 65, 80, 73, 95, 75, 69, 89]
  const OPENAI: Text := [79, 80, 69, 78, 65, 73, 95, 65, 80, 73, 95, 75, 69, 89]
  const AUTHORIZATION: Text := [65, 85, 84, 72, 79, 82, 73, 90, 65, 84, 73, 79, 78]
  const BEARER: Text := [66, 69, 65, 82, 69, 82]

  /** "[REDACTED]". */
  const REDACTED: Text := [91, 82, 69, 68, 65, 67, 84, 69, 68, 93]

  const EQUALS: CodeUnit := 61
  const HYPHEN: CodeUnit := 45

  /** Without the unicode flag, letter case is folded for ASCII letters only. */
  function Upper(u: CodeUnit): CodeUnit {
    if 97 <= u <= 122 then u - 32 else u
  }

  predicate IsWord(u: CodeUnit) {
    48 <= u <= 57 || 65 <= u <= 90 || 97 <= u <= 122 || u == 95
  }

  predicate IsBlank(u: CodeUnit) {
    u == 32 || u == 9
  }

  predicate IsQuote(u: CodeUnit) {
    u == 34 || u == 39
  }

  /** `\s`. */
  predicate IsSpace(u: CodeUnit) {
    9 <= u <= 13 || u == 32 || u == 0xA0 || u == 0x1680 || 0x2000 <= u <= 0x200A || u == 0x2028 || u == 0x2029
    || u == 0x202F || u == 0x205F || u == 0x3000 || u == 0xFEFF
  }

  /** The alternatives: an API-key assignment, a bearer header, a bare key. */
  datatype Rule = Assignment | Header | Key

  predicate IsBody(rule: Rule, u: CodeUnit) {
    match rule
    case Assignment => !IsSpace(u) && !IsQuote(u)
    case Header => !IsSpace(u)
    case Key => IsWord(u) || u == HYPHEN
  }

  // ---------------------------------------------------------------------
  // What a match is
  // ---------------------------------------------------------------------

  predicate Spells(t: Text, i: nat, word: Text) {
    i + |word| <= |t| && forall k :: 0 <= k < |word| ==> Upper(t[i + k]) == word[k]
  }

  predicate BlankRun(t: Text, from: nat, to: nat) {
    from <= to <= |t| && forall k :: from <= k < to ==> IsBlank(t[k])
  }

  /** One way to match the part before the body: where the name ends, where the
      delimiter is, where the blanks after it end, and where the body starts. */
  datatype Lead = Lead(nameEnd: nat, delimiter: nat, blanksEnd: nat, body: nat)

  /** The pattern's own words up to the body, for any choice its repetitions and its
      optional quote allow. `afterWord` tells whether a word character precedes. */
  predicate Opens(afterWord: bool, t: Text, i: nat, rule: Rule, l: Lead) {
    match rule
    case Assignment =>
      && ((Spells(t, i, ANTHROPIC) && l.nameEnd == i + |ANTHROPIC|) || (Spells(t, i, OPENAI) && l.nameEnd == i + |OPENAI|))
      && BlankRun(t, l.nameEnd, l.delimiter) && l.delimiter < |t| && t[l.delimiter] == EQUALS
      && BlankRun(t, l.delimiter + 1, l.blanksEnd)
      && (l.body == l.blanksEnd || (l.body == l.blanksEnd + 1 && l.blanksEnd < |t| && IsQuote(t[l.blanksEnd])))
    case Header =>
      && Spells(t, i, AUTHORIZATION) && l.nameEnd == i + |AUTHORIZATION|
      && BlankRun(t, l.nameEnd, l.delimiter) && l.delimiter < |t| && t[l.delimiter] == COLON
      && BlankRun(t, l.delimiter + 1, l.blanksEnd) && Spells(t, l.blanksEnd, BEARER)
      && BlankRun(t, l.blanksEnd + |BEARER|, l.body) && l.blanksEnd + |BEARER| < l.body
    case Key => !afterWord && Spells(t, i, SK) && l == Lead(i + 2, i + 2, i + 3, i + 3)
  }

  /** The words are followed by a body of at least one unit. */
  predicate Matches(afterWord: bool, t: Text, i: nat, rule: Rule, l: Lead) {
    Opens(afterWord, t, i, rule, l) && l.body < |t| && IsBody(rule, t[l.body])
  }

  function SkipBlanks(t: Text, i: nat): (r: nat)
    requires i <= |t|
    ensures BlankRun(t, i, r) && (r < |t| ==> !IsBlank(t[r]))
    decreases |t| - i
  {
    if i < |t| && IsBlank(t[i]) then SkipBlanks(t, i + 1) else i
  }

  function SkipBody(rule: Rule, t: Text, i: nat): (r: nat)
    requires i <= |t|
    ensures i <= r <= |t| && (r < |t| ==> !IsBody(rule, t[r])) && forall k :: i <= k < r ==> IsBody(rule, t[k])
    decreases |t| - i
  {
    if i < |t| && IsBody(rule, t[i]) then SkipBody(rule, t, i + 1) else i
  }

  /** The greedy match of a rule at the start of the text. */
  function LeadOf(afterWord: bool, t: Text, rule: Rule): Option<Lead> {
    match rule
    case Assignment =>
      if !Spells(t, 0, ANTHROPIC) && !Spells(t, 0, OPENAI) then None else
        var n := if Spells(t, 0, ANTHROPIC) then |ANTHROPIC| else |OPENAI|;
        var d := SkipBlanks(t, n);
        if d >= |t| || t[d] != EQUALS then None else
          var b := SkipBlanks(t, d + 1);
          Some(Lead(n, d, b, if b < |t| && IsQuote(t[b]) then b + 1 else b))
    case Header =>
      if !Spells(t, 0, AUTHORIZATION) then None else
        var d := SkipBlanks(t, |AUTHORIZATION|);
        if d >= |t| || t[d] != COLON then None else
          var b := SkipBlanks(t, d + 1);
          if !Spells(t, b, BEARER) then None else
            var q := SkipBlanks(t, b + |BEARER|);
            if q == b + |BEARER| then None else Some(Lead(|AUTHORIZATION|, d, b, q))
    case Key => if afterWord || !Spells(t, 0, SK) then None else Some(Lead(2, 2, 3, 3))
  }

  /** A found match: the rule, how much of the text survives, and where it ends. */
  datatype Match = Match(rule: Rule, kept: nat, end: nat)

  function RuleAt(afterWord: bool, t: Text, rule: Rule): (m: Option<Match>)
    ensures m.Some? ==> m.value.kept < m.value.end <= |t|
  {
    var l := LeadOf(afterWord, t, rule);
    if l.None? || l.value.body >= |t| || !IsBody(rule, t[l.value.body]) then None
    else Some(Match(rule, if rule == Key then 0 else l.value.body, SkipBody(rule, t, l.value.body)))
  }

  /** The first alternative that matches at the start of the text. */
  function MatchAt(afterWord: bool, t: Text): (m: Option<Match>)
    ensures m.Some? ==> m.value.kept < m.value.end <= |t|
  {
    if RuleAt(afterWord, t, Assignment).Some? then RuleAt(afterWord, t, Assignment)
    else if RuleAt(afterWord, t, Header).Some? then RuleAt(afterWord, t, Header)
    else RuleAt(afterWord, t, Key)
  }

  /** `redactSecrets`, from a point of the text on. */
  function Redact(afterWord: bool, t: Text): Text
    decreases |t|
  {
    if t == [] then []
    else
      var m := MatchAt(afterWord, t);
      if m.None? then [t[0]] + Redact(IsWord(t[0]), t[1..])
      else t[..m.value.kept] + REDACTED + Redact(IsWord(t[m.value.end - 1]), t[m.value.end..])
  }

  // ---------------------------------------------------------------------
  // Matches are unambiguous
  // ---------------------------------------------------------------------

  lemma LeadOfMatches(afterWord: bool, t: Text, rule: Rule)
    requires RuleAt(afterWord, t, rule).Some?
    ensures Matches(afterWord, t, 0, rule, LeadOf(afterWord, t, rule).value)
  {}

  lemma BlankRunUnique(t: Text, from: nat, a: nat, b: nat)
    requires BlankRun(t, from, a) && BlankRun(t, from, b)
    requires a < |t| && !IsBlank(t[a]) && b < |t| && !IsBlank(t[b])
    ensures a == b
  {}

  lemma NamesDiffer(t: Text, i: nat)
    ensures !(Spells(t, i, ANTHROPIC) && Spells(t, i, OPENAI))
    ensures !(Spells(t, i, ANTHROPIC) && Spells(t, i, AUTHORIZATION))
    ensures !(Spells(t, i, OPENAI) && Spells(t, i, AUTHORIZATION))
    ensures !(Spells(t, i, SK) && (Spells(t, i, ANTHROPIC) || Spells(t, i, OPENAI) || Spells(t, i, AUTHORIZATION)))
  {
    assert ANTHROPIC[0] == 65 && OPENAI[0] == 79 && AUTHORIZATION[0] == 65 && SK[0] == 83 && ANTHROPIC[1] == 78 && AUTHORIZATION[1] == 85;
    if i + 1 < |t| {
      assert Spells(t, i, ANTHROPIC) ==> Upper(t[i + 0]) == 65 && Upper(t[i + 1]) == 78;
      assert Spells(t, i, OPENAI) ==> Upper(t[i + 0]) == 79;
      assert Spells(t, i, AUTHORIZATION) ==> Upper(t[i + 0]) == 65 && Upper(t[i + 1]) == 85;
      assert Spells(t, i, SK) ==> Upper(t[i + 0]) == 83;
    }
  }

  lemma FoldedBlank(u: CodeUnit)
    ensures IsBlank(u) ==> Upper(u) == u && IsSpace(u)
    ensures IsQuote(u) ==> Upper(u) == u
  {}

  lemma AssignmentLeadIsUnique(afterWord: bool, t: Text, l: Lead)
    requires Matches(afterWord, t, 0, Assignment, l)
    ensures LeadOf(afterWord, t, Assignment) == Some(l)
  {
    NamesDiffer(t, 0);
    BlankRunUnique(t, l.nameEnd, SkipBlanks(t, l.nameEnd), l.delimiter);
    BlankRunUnique(t, l.delimiter + 1, SkipBlanks(t, l.delimiter + 1), l.blanksEnd);
  }

  lemma HeaderLeadIsUnique(afterWord: bool, t: Text, l: Lead)
    requires Matches(afterWord, t, 0, Header, l)
    ensures LeadOf(afterWord, t, Header) == Some(l)
  {
    BlankRunUnique(t, l.nameEnd, SkipBlanks(t, l.nameEnd), l.delimiter);
    assert Upper(t[l.blanksEnd + 0]) == BEARER[0] == 66;
    BlankRunUnique(t, l.delimiter + 1, SkipBlanks(t, l.delimiter + 1), l.blanksEnd);
    BlankRunUnique(t, l.blanksEnd + |BEARER|, SkipBlanks(t, l.blanksEnd + |BEARER|), l.body);
  }

  /** However the repetitions are split, a match of a rule at a point is the greedy
      one: the same survivor, and a body as long as it can be. */
  lemma LeadIsUnique(afterWord: bool, t: Text, rule: Rule, l: Lead)
    requires Matches(afterWord, t, 0, rule, l)
    ensures LeadOf(afterWord, t, rule) == Some(l)
  {
    match rule
    case Assignment => AssignmentLeadIsUnique(afterWord, t, l);
    case Header => HeaderLeadIsUnique(afterWord, t, l);
    case Key =>
  }

  /** `MatchAt` finds exactly the ways the alternation can match here. */
  lemma MatchAtIsComplete(afterWord: bool, t: Text, rule: Rule, l: Lead)
    requires Matches(afterWord, t, 0, rule, l)
    ensures MatchAt(afterWord, t) == Some(Match(rule, if rule == Key then 0 else l.body, SkipBody(rule, t, l.body)))
  {
    LeadIsUnique(afterWord, t, rule, l);
    NamesDiffer(t, 0);
  }

  lemma MatchAtIsSound(afterWord: bool, t: Text)
    requires MatchAt(afterWord, t).Some?
    ensures var m := MatchAt(afterWord, t).value; var l := LeadOf(afterWord, t, m.rule);
      && l.Some? && Matches(afterWord, t, 0, m.rule, l.value)
      && m == Match(m.rule, if m.rule == Key then 0 else l.value.body, SkipBody(m.rule, t, l.value.body))
  {
    LeadOfMatches(afterWord, t, MatchAt(afterWord, t).value.rule);
  }

  // ---------------------------------------------------------------------
  // What survives, and what is taken out
  // ---------------------------------------------------------------------

  /** A text as redaction reads it: units left alone, and secrets, of which only the
      kept prefix is recorded. */
  datatype Piece = Plain(unit: CodeUnit) | Secret(rule: Rule, kept: Text)

  function Parse(afterWord: bool, t: Text): seq<Piece>
    decreases |t|
  {
    if t == [] then []
    else
      var m := MatchAt(afterWord, t);
      if m.None? then [Plain(t[0])] + Parse(IsWord(t[0]), t[1..])
      else [Secret(m.value.rule, t[..m.value.kept])] + Parse(IsWord(t[m.value.end - 1]), t[m.value.end..])
  }

  /** The removed text beside each piece. */
  function Bodies(afterWord: bool, t: Text): seq<Text>
    decreases |t|
  {
    if t == [] then []
    else
      var m := MatchAt(afterWord, t);
      if m.None? then [[]] + Bodies(IsWord(t[0]), t[1..])
      else [t[m.value.kept..m.value.end]] + Bodies(IsWord(t[m.value.end - 1]), t[m.value.end..])
  }

  /** The output, which can only be made of what was recorded. */
  function Output(ps: seq<Piece>): Text {
    if ps == [] then []
    else (if ps[0].Plain? then [ps[0].unit] else ps[0].kept + REDACTED) + Output(ps[1..])
  }

  /** A text with the same pieces and the given bodies. */
  function Fill(ps: seq<Piece>, bodies: seq<Text>): Text
    requires |bodies| == |ps|
  {
    if ps == [] then []
    else (if ps[0].Plain? then [ps[0].unit] else ps[0].kept + bodies[0]) + Fill(ps[1..], bodies[1..])
  }

  predicate AllBody(rule: Rule, f: Text) {
    forall k :: 0 <= k < |f| ==> IsBody(rule, f[k])
  }

  /** What may stand for a secret's body: anything its rule would take, or the fixed
      literal in place of a bare key. */
  predicate MayFill(rule: Rule, f: Text) {
    match rule
    case Key => f == REDACTED || (|f| > |SK| && Spells(f, 0, SK) && AllBody(Key, f))
    case _ => f != [] && AllBody(rule, f)
  }

  predicate MayFillAll(ps: seq<Piece>, bodies: seq<Text>) {
    |bodies| == |ps| && forall i :: 0 <= i < |ps| && ps[i].Secret? ==> MayFill(ps[i].rule, bodies[i])
  }

  lemma SpellsSlice(t: Text, n: nat, word: Text)
    requires |word| <= n <= |t| && Spells(t, 0, word)
    ensures Spells(t[..n], 0, word)
  {
    forall k | 0 <= k < |word| ensures Upper(t[..n][0 + k]) == word[k] { assert Upper(t[0 + k]) == word[k]; }
  }

  lemma BodyMayFill(afterWord: bool, t: Text)
    requires MatchAt(afterWord, t).Some?
    ensures var m := MatchAt(afterWord, t).value; MayFill(m.rule, t[m.kept..m.end])
  {
    hide MatchAt, LeadOf;
    MatchAtIsSound(afterWord, t);
    var m := MatchAt(afterWord, t).value;
    if m.rule == Key {
      SpellsSlice(t, m.end, SK);
      forall k | 0 <= k < m.end ensures IsBody(Key, t[..m.end][k]) {
        if k < 3 { assert Upper(t[0 + k]) == SK[k]; }
      }
    }
  }

  lemma FillPlain(ps: seq<Piece>, bodies: seq<Text>, u: CodeUnit)
    requires |bodies| == |ps| > 0 && ps[0] == Plain(u)
    ensures Fill(ps, bodies) == [u] + Fill(ps[1..], bodies[1..])
    ensures Fill(ps, bodies)[0] == u && Fill(ps, bodies)[1..] == Fill(ps[1..], bodies[1..])
  {}

  lemma FillSecret(ps: seq<Piece>, bodies: seq<Text>, kept: Text)
    requires |bodies| == |ps| > 0 && ps[0].Secret? && ps[0].kept == kept
    ensures var v, rest, n := Fill(ps, bodies), Fill(ps[1..], bodies[1..]), |kept|;
      && v == kept + bodies[0] + rest && |v| >= n + |bodies[0]|
      && v[..n] == kept && v[n..n + |bodies[0]|] == bodies[0] && v[n + |bodies[0]|..] == rest
  {}

  lemma ParseStep(afterWord: bool, t: Text)
    requires t != []
    ensures var m, ps, bs := MatchAt(afterWord, t), Parse(afterWord, t), Bodies(afterWord, t);
      && |bs| == |ps| > 0
      && (m.None? ==> ps[0] == Plain(t[0]) && ps[1..] == Parse(IsWord(t[0]), t[1..]) && bs[1..] == Bodies(IsWord(t[0]), t[1..]))
      && (m.Some? ==>
            && ps[0] == Secret(m.value.rule, t[..m.value.kept]) && bs[0] == t[m.value.kept..m.value.end]
            && ps[1..] == Parse(IsWord(t[m.value.end - 1]), t[m.value.end..])
            && bs[1..] == Bodies(IsWord(t[m.value.end - 1]), t[m.value.end..]))
  {
    hide MatchAt;
    AsManyBodies(afterWord, t);
  }

  lemma {:induction false} AsManyBodies(afterWord: bool, t: Text)
    ensures |Bodies(afterWord, t)| == |Parse(afterWord, t)|
    decreases |t|
  {
    hide MatchAt;
    if t != [] {
      var m := MatchAt(afterWord, t);
      if m.None? {
        AsManyBodies(IsWord(t[0]), t[1..]);
      } else {
        AsManyBodies(IsWord(t[m.value.end - 1]), t[m.value.end..]);
      }
    }
  }

  lemma MayFillStep(ps: seq<Piece>, bodies: seq<Text>)
    requires |bodies| == |ps| > 0
    ensures MayFillAll(ps, bodies) <==> MayFillAll(ps[1..], bodies[1..]) && (ps[0].Secret? ==> MayFill(ps[0].rule, bodies[0]))
  {
    hide MayFill;
    if MayFillAll(ps[1..], bodies[1..]) && (ps[0].Secret? ==> MayFill(ps[0].rule, bodies[0])) {
      forall i | 0 <= i < |ps| && ps[i].Secret? ensures MayFill(ps[i].rule, bodies[i]) {
        if i > 0 { assert ps[1..][i - 1] == ps[i] && bodies[1..][i - 1] == bodies[i]; }
      }
    }
  }

  lemma NothingIsNothing(afterWord: bool)
    ensures Parse(afterWord, []) == [] && Bodies(afterWord, []) == [] && Fill([], []) == [] && Output([]) == []
    ensures MayFillAll([], []) && Redact(afterWord, []) == []
  {}

  /** Reading loses nothing: the pieces and the bodies are the text. */
  lemma {:induction false} PiecesAndBodiesAreTheText(afterWord: bool, t: Text)
    ensures MayFillAll(Parse(afterWord, t), Bodies(afterWord, t))
    ensures Fill(Parse(afterWord, t), Bodies(afterWord, t)) == t
    decreases |t|
  {
    hide *;
    var ps, bs := Parse(afterWord, t), Bodies(afterWord, t);
    if t == [] {
      NothingIsNothing(afterWord);
    } else {
      ParseStep(afterWord, t);
      MayFillStep(ps, bs);
      var m := MatchAt(afterWord, t);
      if m.None? {
        PiecesAndBodiesAreTheText(IsWord(t[0]), t[1..]);
        FillPlain(ps, bs, t[0]);
        assert t == [t[0]] + t[1..];
      } else {
        PiecesAndBodiesAreTheText(IsWord(t[m.value.end - 1]), t[m.value.end..]);
        BodyMayFill(afterWord, t);
        FillSecret(ps, bs, t[..m.value.kept]);
        assert t == t[..m.value.kept] + t[m.value.kept..m.value.end] + t[m.value.end..];
      }
    }
  }

  // ---------------------------------------------------------------------
  // Where a match can start
  // ---------------------------------------------------------------------

  predicate Lettered(word: Text) {
    forall k :: 0 <= k < |word| ==> word[k] != 83 && (65 <= word[k] <= 90 || word[k] == 95)
  }

  lemma WordsAreLettered()
    ensures Lettered(ANTHROPIC) && Lettered(OPENAI) && Lettered(AUTHORIZATION) && Lettered(BEARER)
  {}

  lemma SpelledUnit(t: Text, i: nat, word: Text, k: nat)
    requires Spells(t, i, word) && Lettered(word) && i <= k < i + |word|
    ensures Upper(t[k]) != 83 && t[k] != 91 && t[k] != EQUALS && t[k] != COLON && !IsBlank(t[k]) && !IsQuote(t[k])
  {
    assert Upper(t[i + (k - i)]) == word[k - i];
  }

  /** Past its first unit, the part before the body holds no S, no bracket, and no
      delimiter but its own. */
  lemma LeadUnits(afterWord: bool, t: Text, i: nat, rule: Rule, l: Lead, k: nat)
    requires Opens(afterWord, t, i, rule, l) && i < k < l.body <= |t|
    ensures Upper(t[k]) != 83 && t[k] != 91
    ensures t[k] == EQUALS || t[k] == COLON ==>
      rule != Key && k == l.delimiter && t[k] == if rule == Assignment then EQUALS else COLON
  {
    WordsAreLettered();
    FoldedBlank(t[k]);
    match rule
    case Assignment =>
      if k < l.nameEnd { SpelledUnit(t, i, if Spells(t, i, ANTHROPIC) && l.nameEnd == i + |ANTHROPIC| then ANTHROPIC else OPENAI, k); }
    case Header =>
      if k < l.nameEnd { SpelledUnit(t, i, AUTHORIZATION, k); }
      if l.blanksEnd <= k < l.blanksEnd + |BEARER| { SpelledUnit(t, l.blanksEnd, BEARER, k); }
    case Key =>
      assert Upper(t[i + (k - i)]) == SK[k - i];
  }

  lemma EndsDiffer(t: Text, i: nat, j: nat)
    requires i + |ANTHROPIC| == j + |OPENAI|
    ensures !(Spells(t, i, ANTHROPIC) && Spells(t, j, OPENAI))
  {
    if j + |OPENAI| <= |t| {
      assert Spells(t, i, ANTHROPIC) ==> Upper(t[i + 8]) == ANTHROPIC[8] == 67;
      assert Spells(t, j, OPENAI) ==> Upper(t[j + 5]) == OPENAI[5] == 73;
    }
  }

  lemma NameEndsInLetter(afterWord: bool, t: Text, i: nat, rule: Rule, l: Lead)
    requires rule != Key && Opens(afterWord, t, i, rule, l)
    ensures i < l.nameEnd <= |t| && !IsBlank(t[l.nameEnd - 1])
  {
    WordsAreLettered();
    SpelledUnit(t, i, if rule == Header then AUTHORIZATION else if Spells(t, i, ANTHROPIC) && l.nameEnd == i + |ANTHROPIC| then ANTHROPIC else OPENAI,
                l.nameEnd - 1);
  }

  /** Read backwards from its delimiter, a match has one possible start. */
  lemma DelimiterFixesStart(a: bool, b: bool, t: Text, i: nat, j: nat, rule: Rule, l: Lead, m: Lead)
    requires rule != Key && Opens(a, t, i, rule, l) && Opens(b, t, j, rule, m) && l.delimiter == m.delimiter
    ensures i == j
  {
    NameEndsInLetter(a, t, i, rule, l);
    NameEndsInLetter(b, t, j, rule, m);
    assert l.nameEnd == m.nameEnd;
    if rule == Assignment {
      if l.nameEnd == i + |ANTHROPIC| && m.nameEnd == j + |OPENAI| { EndsDiffer(t, i, j); }
      if m.nameEnd == j + |ANTHROPIC| && l.nameEnd == i + |OPENAI| { EndsDiffer(t, j, i); }
    }
  }

  /** The part before one body cannot reach over the delimiter of a later match. */
  lemma LeadStopsBeforeLaterDelimiter(a: bool, b: bool, t: Text, i: nat, j: nat, rule: Rule, l: Lead, later: Rule, m: Lead)
    requires i < j && later != Key && Opens(a, t, i, rule, l) && Opens(b, t, j, later, m) && l.body <= |t|
    ensures l.body <= m.delimiter
  {
    NameEndsInLetter(b, t, j, later, m);
    if m.delimiter < l.body {
      LeadUnits(a, t, i, rule, l, m.delimiter);
      DelimiterFixesStart(a, b, t, i, j, rule, l, m);
    }
  }

  /** Every match starts with a letter that every rule's body would take. */
  lemma MatchesStartWithLetter(afterWord: bool, t: Text)
    requires MatchAt(afterWord, t).Some?
    ensures t != [] && (Upper(t[0]) == 65 || Upper(t[0]) == 79 || Upper(t[0]) == 83)
    ensures Upper(t[0]) == 83 <==> MatchAt(afterWord, t).value.rule == Key
    ensures Upper(t[0]) == 65 ==> |t| > 1 && (Upper(t[1]) == 78 || Upper(t[1]) == 85)
    ensures forall rule :: IsBody(rule, t[0])
  {
    MatchAtIsSound(afterWord, t);
    assert Spells(t, 0, ANTHROPIC) ==> Upper(t[0 + 0]) == ANTHROPIC[0] == 65 && Upper(t[0 + 1]) == ANTHROPIC[1] == 78;
    assert Spells(t, 0, OPENAI) ==> Upper(t[0 + 0]) == OPENAI[0] == 79;
    assert Spells(t, 0, AUTHORIZATION) ==> Upper(t[0 + 0]) == AUTHORIZATION[0] == 65 && Upper(t[0 + 1]) == AUTHORIZATION[1] == 85;
    assert Spells(t, 0, SK) ==> Upper(t[0 + 0]) == SK[0] == 83;
  }

  // ---------------------------------------------------------------------
  // Texts with the same pieces
  // ---------------------------------------------------------------------

  predicate AgreeUpTo(t: Text, v: Text, n: nat) {
    n <= |t| && n <= |v| && forall k :: 0 <= k < n ==> t[k] == v[k]
  }

  lemma OpensTransfers(afterWord: bool, t: Text, v: Text, i: nat, rule: Rule, l: Lead, n: nat)
    requires Opens(afterWord, t, i, rule, l) && AgreeUpTo(t, v, n) && l.body <= n
    ensures Opens(afterWord, v, i, rule, l)
  {}

  lemma OpensShifts(afterWord: bool, t: Text, j: nat, rule: Rule, l: Lead)
    requires j <= |t| && Opens(afterWord, t[j..], 0, rule, l)
    ensures Opens(afterWord, t, j, rule, Lead(l.nameEnd + j, l.delimiter + j, l.blanksEnd + j, l.body + j))
  {
    hide Spells, BlankRun;
    var u := t[j..];
    assert l.delimiter < |u| ==> u[l.delimiter] == t[l.delimiter + j];
    assert l.blanksEnd < |u| ==> u[l.blanksEnd] == t[l.blanksEnd + j];
    match rule
    case Assignment =>
      SpellsShifts(t, j, 0, ANTHROPIC);
      SpellsShifts(t, j, 0, OPENAI);
      BlankRunShifts(t, j, l.nameEnd, l.delimiter);
      BlankRunShifts(t, j, l.delimiter + 1, l.blanksEnd);
    case Header =>
      SpellsShifts(t, j, 0, AUTHORIZATION);
      SpellsShifts(t, j, l.blanksEnd, BEARER);
      BlankRunShifts(t, j, l.nameEnd, l.delimiter);
      BlankRunShifts(t, j, l.delimiter + 1, l.blanksEnd);
      BlankRunShifts(t, j, l.blanksEnd + |BEARER|, l.body);
    case Key =>
      SpellsShifts(t, j, 0, SK);
  }

  lemma SpellsShifts(t: Text, j: nat, i: nat, word: Text)
    requires j <= |t|
    ensures Spells(t[j..], i, word) ==> Spells(t, j + i, word)
  {
    if Spells(t[j..], i, word) {
      forall k | 0 <= k < |word| ensures Upper(t[j + i + k]) == word[k] { assert Upper(t[j..][i + k]) == word[k]; }
    }
  }

  lemma BlankRunShifts(t: Text, j: nat, from: nat, to: nat)
    requires j <= |t|
    ensures BlankRun(t[j..], from, to) ==> BlankRun(t, j + from, j + to)
  {
    if BlankRun(t[j..], from, to) {
      forall k | j + from <= k < j + to ensures IsBlank(t[k]) { assert IsBlank(t[j..][k - j]); }
    }
  }

  /** How many units are left alone before the first secret. */
  function PlainRun(afterWord: bool, t: Text): (j: nat)
    ensures j <= |t|
    decreases |t|
  {
    if t == [] || MatchAt(afterWord, t).Some? then 0 else 1 + PlainRun(IsWord(t[0]), t[1..])
  }

  function WordBefore(afterWord: bool, t: Text, k: nat): bool
    requires k <= |t|
  {
    if k == 0 then afterWord else IsWord(t[k - 1])
  }

  function FirstSecret(afterWord: bool, t: Text): Option<Match> {
    var j := PlainRun(afterWord, t);
    MatchAt(WordBefore(afterWord, t, j), t[j..])
  }

  lemma {:induction false} PlainRunEndsAtSecret(afterWord: bool, t: Text)
    ensures PlainRun(afterWord, t) < |t| ==> FirstSecret(afterWord, t).Some?
    ensures t != [] && MatchAt(afterWord, t).None? ==>
      FirstSecret(afterWord, t) == FirstSecret(IsWord(t[0]), t[1..])
    decreases |t|
  {
    hide MatchAt, LeadOf;
    if t != [] {
      if MatchAt(afterWord, t).None? {
        PlainRunEndsAtSecret(IsWord(t[0]), t[1..]);
        var j := PlainRun(IsWord(t[0]), t[1..]);
        assert t[1..][j..] == t[j + 1..];
        assert WordBefore(IsWord(t[0]), t[1..], j) == WordBefore(afterWord, t, j + 1);
      } else {
        assert t[0..] == t;
      }
    }
  }

  /** How far any text with the same pieces agrees with this one: to the first body. */
  function Pinned(afterWord: bool, t: Text): nat {
    var j, m := PlainRun(afterWord, t), FirstSecret(afterWord, t);
    if j == |t| || m.None? then j else j + m.value.kept
  }

  /** What a text with the same pieces shares with this one. */
  predicate Shares(afterWord: bool, t: Text, v: Text) {
    var j, secret := PlainRun(afterWord, t), FirstSecret(afterWord, t);
    && AgreeUpTo(t, v, Pinned(afterWord, t))
    && (j == |t| ==> v == t)
    && (j < |t| ==> secret.Some? && Pinned(afterWord, t) < |v|)
    && (j < |t| && secret.Some? && secret.value.rule == Key ==> j < |v| && (Upper(v[j]) == 83 || v[j] == 91))
  }

  lemma SecretShares(afterWord: bool, t: Text, bodies: seq<Text>)
    requires t != [] && MatchAt(afterWord, t).Some? && MayFillAll(Parse(afterWord, t), bodies)
    ensures Shares(afterWord, t, Fill(Parse(afterWord, t), bodies))
  {
    hide MatchAt;
    var ps, m := Parse(afterWord, t), MatchAt(afterWord, t).value;
    assert t[0..] == t;
    FillSecret(ps, bodies, t[..m.kept]);
    var v := Fill(ps, bodies);
    assert MayFill(m.rule, bodies[0]);
    forall k | 0 <= k < m.kept ensures t[k] == v[k] { assert v[..m.kept][k] == t[..m.kept][k]; }
    if m.rule == Key {
      KeyKeepsNothing(afterWord, t);
      assert v[0..|bodies[0]|][0] == bodies[0][0];
      assert Spells(bodies[0], 0, SK) ==> Upper(bodies[0][0 + 0]) == SK[0] == 83;
    }
  }

  lemma KeyKeepsNothing(afterWord: bool, t: Text)
    requires MatchAt(afterWord, t).Some? && MatchAt(afterWord, t).value.rule == Key
    ensures MatchAt(afterWord, t).value.kept == 0
  {}

  lemma PlainShares(afterWord: bool, t: Text, rest: Text)
    requires t != [] && MatchAt(afterWord, t).None? && Shares(IsWord(t[0]), t[1..], rest)
    ensures Shares(afterWord, t, [t[0]] + rest)
  {
    hide MatchAt;
    PlainRunEndsAtSecret(afterWord, t);
    var v := [t[0]] + rest;
    assert t == [t[0]] + t[1..];
    forall k | 0 <= k < Pinned(afterWord, t) ensures t[k] == v[k] {
      if k > 0 { assert t[1..][k - 1] == rest[k - 1]; }
    }
  }

  lemma {:induction false} FillShares(afterWord: bool, t: Text, bodies: seq<Text>)
    requires MayFillAll(Parse(afterWord, t), bodies)
    ensures Shares(afterWord, t, Fill(Parse(afterWord, t), bodies))
    decreases |t|
  {
    hide MatchAt, Shares;
    if t == [] {
      EmptyShares(afterWord);
    } else if MatchAt(afterWord, t).None? {
      FillPlain(Parse(afterWord, t), bodies, t[0]);
      FillShares(IsWord(t[0]), t[1..], bodies[1..]);
      PlainShares(afterWord, t, Fill(Parse(IsWord(t[0]), t[1..]), bodies[1..]));
    } else {
      SecretShares(afterWord, t, bodies);
    }
  }

  lemma EmptyShares(afterWord: bool)
    ensures Shares(afterWord, [], [])
  {}

  /** Where nothing matches, nothing matches in a text with other bodies either. */
  lemma PlainStaysPlain(afterWord: bool, t: Text, after2: bool, bodies: seq<Text>)
    requires t != [] && MatchAt(afterWord, t).None? && MayFillAll(Parse(afterWord, t), bodies)
    requires afterWord == after2 || Upper(t[0]) != 83
    ensures MatchAt(after2, Fill(Parse(afterWord, t), bodies)).None?
  {
    hide MatchAt, LeadOf;
    var v := Fill(Parse(afterWord, t), bodies);
    var j, n := PlainRun(afterWord, t), Pinned(afterWord, t);
    FillShares(afterWord, t, bodies);
    PlainRunEndsAtSecret(afterWord, t);
    if MatchAt(after2, v).Some? {
      MatchAtIsSound(after2, v);
      MatchesStartWithLetter(after2, v);
      var m := MatchAt(after2, v).value;
      var l := LeadOf(after2, v, m.rule).value;
      if j == |t| {
        SameMatch(afterWord, after2, t, v, m.rule, l, |t|);
      } else {
        BodyStartsEarlier(afterWord, t, after2, v, m.rule, l);
        SameMatch(afterWord, after2, t, v, m.rule, l, n);
      }
    }
  }

  /** A match in `v` whose words lie where the texts agree is a match in `t`. */
  lemma SameMatch(afterWord: bool, after2: bool, t: Text, v: Text, rule: Rule, l: Lead, n: nat)
    requires Matches(after2, v, 0, rule, l) && AgreeUpTo(t, v, n) && l.body <= n && t != [] && v != [] && t[0] == v[0]
    requires l.body < |t| && IsBody(rule, t[l.body])
    requires afterWord == after2 || Upper(t[0]) != 83
    ensures MatchAt(afterWord, t).Some?
  {
    OpensTransfers(after2, v, t, 0, rule, l, n);
    assert rule == Key ==> Upper(t[0 + 0]) == SK[0] == 83;
    assert Opens(afterWord, t, 0, rule, l);
    MatchAtIsComplete(afterWord, t, rule, l);
  }

  /** The first secret of `t`, seen from the start of a text that agrees with it. */
  lemma SecretIsPinned(afterWord: bool, t: Text, v: Text)
    requires Shares(afterWord, t, v) && PlainRun(afterWord, t) < |t| && FirstSecret(afterWord, t).value.rule != Key
    ensures exists before, lead: Lead ::
      Opens(before, v, PlainRun(afterWord, t), FirstSecret(afterWord, t).value.rule, lead) && lead.delimiter < Pinned(afterWord, t)
  {
    hide MatchAt, LeadOf;
    var j, n := PlainRun(afterWord, t), Pinned(afterWord, t);
    var secret, before := FirstSecret(afterWord, t).value, WordBefore(afterWord, t, j);
    MatchAtIsSound(before, t[j..]);
    var lead := LeadOf(before, t[j..], secret.rule).value;
    var shifted := Lead(lead.nameEnd + j, lead.delimiter + j, lead.blanksEnd + j, lead.body + j);
    OpensShifts(before, t, j, secret.rule, lead);
    OpensTransfers(before, t, v, j, secret.rule, shifted, n);
    DelimiterBeforeBody(before, t[j..], secret.rule, lead);
  }

  lemma DelimiterBeforeBody(afterWord: bool, t: Text, rule: Rule, l: Lead)
    requires Opens(afterWord, t, 0, rule, l)
    ensures l.delimiter < l.body
  {}

  lemma LeadStopsBeforeKey(afterWord: bool, t: Text, after2: bool, v: Text, rule: Rule, l: Lead)
    requires Shares(afterWord, t, v) && 0 < PlainRun(afterWord, t) < |t| && FirstSecret(afterWord, t).value.rule == Key
    requires Matches(after2, v, 0, rule, l)
    ensures l.body <= Pinned(afterWord, t) == PlainRun(afterWord, t) && forall r :: IsBody(r, t[PlainRun(afterWord, t)])
  {
    hide MatchAt;
    var j := PlainRun(afterWord, t);
    var before := WordBefore(afterWord, t, j);
    MatchesStartWithLetter(before, t[j..]);
    KeyKeepsNothing(before, t[j..]);
    assert t[j..][0] == t[j];
    if j < l.body { LeadUnits(after2, v, 0, rule, l, j); }
  }

  /** A match in `v` before the first secret of `t` would take its body where `t`
      offers one too. */
  lemma BodyStartsEarlier(afterWord: bool, t: Text, after2: bool, v: Text, rule: Rule, l: Lead)
    requires Shares(afterWord, t, v) && t != [] && MatchAt(afterWord, t).None? && PlainRun(afterWord, t) < |t|
    requires Matches(after2, v, 0, rule, l)
    ensures l.body <= Pinned(afterWord, t) && l.body < |t| && IsBody(rule, t[l.body]) && v != [] && t[0] == v[0]
  {
    hide MatchAt, Opens, IsBody;
    var j, n := PlainRun(afterWord, t), Pinned(afterWord, t);
    if FirstSecret(afterWord, t).value.rule == Key {
      LeadStopsBeforeKey(afterWord, t, after2, v, rule, l);
    } else {
      SecretIsPinned(afterWord, t, v);
      var before, lead: Lead :|
        Opens(before, v, j, FirstSecret(afterWord, t).value.rule, lead) && lead.delimiter < n;
      LeadStopsBeforeLaterDelimiter(after2, before, v, 0, j, rule, l, FirstSecret(afterWord, t).value.rule, lead);
    }
    assert l.body < n ==> t[l.body] == v[l.body];
  }

  lemma SkipBodyIs(rule: Rule, t: Text, i: nat, end: nat)
    requires i <= end <= |t| && (forall k :: i <= k < end ==> IsBody(rule, t[k])) && (end < |t| ==> !IsBody(rule, t[end]))
    ensures SkipBody(rule, t, i) == end
  {}

  /** What follows a secret cannot be part of its body, nor start another. */
  lemma AfterSecret(afterWord: bool, t: Text, bodies: seq<Text>)
    requires t != [] && MatchAt(afterWord, t).Some? && MayFillAll(Parse(afterWord, t), bodies)
    ensures var m := MatchAt(afterWord, t).value; var rest := Fill(Parse(afterWord, t)[1..], bodies[1..]);
      && (m.end == |t| <==> rest == [])
      && (m.end < |t| ==> rest[0] == t[m.end] && !IsBody(m.rule, rest[0]) && Upper(t[m.end]) != 83)
  {
    hide MatchAt, LeadOf;
    MatchAtIsSound(afterWord, t);
    var m := MatchAt(afterWord, t).value;
    var tail, before := t[m.end..], IsWord(t[m.end - 1]);
    assert Parse(afterWord, t)[1..] == Parse(before, tail);
    if tail != [] && MatchAt(before, tail).Some? { MatchesStartWithLetter(before, tail); }
  }

  lemma KeyStaysKey(v: Text, f: Text, rest: Text)
    requires v == f + rest && MayFill(Key, f) && f != REDACTED && (rest == [] || !IsBody(Key, rest[0]))
    ensures MatchAt(false, v) == Some(Match(Key, 0, |f|))
  {
    hide MatchAt;
    forall k | 0 <= k < |SK| ensures Upper(v[0 + k]) == SK[k] { assert Upper(f[0 + k]) == SK[k]; }
    assert v[3] == f[3];
    MatchAtIsComplete(false, v, Key, Lead(2, 2, 3, 3));
    SkipBodyIs(Key, v, 3, |f|);
  }

  lemma OpenedStaysOpened(afterWord: bool, after2: bool, t: Text, v: Text, rule: Rule, l: Lead, f: Text, rest: Text)
    requires rule != Key && Opens(afterWord, t, 0, rule, l) && l.body <= |t| && v == t[..l.body] + f + rest
    requires MayFill(rule, f) && (rest == [] || !IsBody(rule, rest[0]))
    ensures MatchAt(after2, v) == Some(Match(rule, l.body, l.body + |f|))
  {
    hide MatchAt;
    OpensTransfers(afterWord, t, v, 0, rule, l, l.body);
    assert Opens(after2, v, 0, rule, l);
    hide Opens;
    assert v[l.body] == f[0];
    MatchAtIsComplete(after2, v, rule, l);
    forall k | l.body <= k < l.body + |f| ensures IsBody(rule, v[k]) { assert v[k] == f[k - l.body]; }
    SkipBodyIs(rule, v, l.body, l.body + |f|);
  }

  lemma SecretStaysSecret(afterWord: bool, t: Text, after2: bool, v: Text, f: Text, rest: Text)
    requires MatchAt(afterWord, t).Some? && (afterWord == after2 || Upper(t[0]) != 83)
    requires var m := MatchAt(afterWord, t).value;
      v == t[..m.kept] + f + rest && MayFill(m.rule, f) && (rest == [] || !IsBody(m.rule, rest[0])) && (m.rule != Key || f != REDACTED)
    ensures var m := MatchAt(afterWord, t).value; MatchAt(after2, v) == Some(Match(m.rule, m.kept, m.kept + |f|))
  {
    hide MatchAt, LeadOf, MayFill, IsBody, Spells, BlankRun;
    var m := MatchAt(afterWord, t).value;
    MatchAtIsSound(afterWord, t);
    MatchesStartWithLetter(afterWord, t);
    if m.rule == Key {
      assert t[..0] + f == f;
      KeyStaysKey(v, f, rest);
    } else {
      OpenedStaysOpened(afterWord, after2, t, v, m.rule, LeadOf(afterWord, t, m.rule).value, f, rest);
    }
  }

  lemma NoMatchInLiteral(afterWord: bool, k: nat, rest: Text)
    requires k < |REDACTED|
    ensures MatchAt(afterWord, REDACTED[k..] + rest).None?
  {
    hide MatchAt;
    var v := REDACTED[k..] + rest;
    assert v[0] == REDACTED[k];
    assert k + 1 < |REDACTED| ==> v[1] == REDACTED[k + 1];
    if MatchAt(afterWord, v).Some? { MatchesStartWithLetter(afterWord, v); }
  }

  /** The literal itself is left alone wherever it stands. */
  lemma {:induction false} LiteralStays(afterWord: bool, k: nat, rest: Text)
    requires k <= |REDACTED|
    ensures Redact(afterWord, REDACTED[k..] + rest) == REDACTED[k..] + Redact(if k == |REDACTED| then afterWord else false, rest)
    decreases |REDACTED| - k
  {
    hide MatchAt, Redact;
    var v := REDACTED[k..] + rest;
    if k == |REDACTED| {
      assert v == rest;
    } else {
      NoMatchInLiteral(afterWord, k, rest);
      RedactPlain(afterWord, v);
      assert v[0] == REDACTED[k] && v[1..] == REDACTED[k + 1..] + rest;
      LiteralStays(IsWord(v[0]), k + 1, rest);
      assert REDACTED[k..] == [REDACTED[k]] + REDACTED[k + 1..];
    }
  }

  lemma RedactPlain(afterWord: bool, v: Text)
    requires v != [] && MatchAt(afterWord, v).None?
    ensures Redact(afterWord, v) == [v[0]] + Redact(IsWord(v[0]), v[1..])
  {}

  lemma RedactSecret(afterWord: bool, v: Text, kept: nat, end: nat)
    requires v != [] && MatchAt(afterWord, v).Some? && MatchAt(afterWord, v).value.kept == kept && MatchAt(afterWord, v).value.end == end
    ensures Redact(afterWord, v) == v[..kept] + REDACTED + Redact(IsWord(v[end - 1]), v[end..])
  {
    hide MatchAt, IsWord;
    assert MatchAt(afterWord, v) == Some(MatchAt(afterWord, v).value);
  }

  lemma OutputStep(ps: seq<Piece>)
    requires ps != []
    ensures Output(ps) == (if ps[0].Plain? then [ps[0].unit] else ps[0].kept + REDACTED) + Output(ps[1..])
  {}

  lemma {:induction false} RedactIsOutput(afterWord: bool, t: Text)
    ensures Redact(afterWord, t) == Output(Parse(afterWord, t))
    decreases |t|
  {
    hide *;
    if t == [] {
      NothingIsNothing(afterWord);
    } else {
      var m := MatchAt(afterWord, t);
      ParseStep(afterWord, t);
      OutputStep(Parse(afterWord, t));
      if m.None? {
        RedactPlain(afterWord, t);
        RedactIsOutput(IsWord(t[0]), t[1..]);
      } else {
        RedactSecret(afterWord, t, m.value.kept, m.value.end);
        RedactIsOutput(IsWord(t[m.value.end - 1]), t[m.value.end..]);
      }
    }
  }

  /** The secret at the start of a text with the same pieces. */
  lemma SameSecretSameOutput(afterWord: bool, t: Text, after2: bool, f: Text, rest: Text) returns (next: bool)
    requires MatchAt(afterWord, t).Some? && (afterWord == after2 || Upper(t[0]) != 83)
    requires MayFill(MatchAt(afterWord, t).value.rule, f)
    requires rest == [] || !IsBody(MatchAt(afterWord, t).value.rule, rest[0])
    ensures var kept := t[..MatchAt(afterWord, t).value.kept];
      Redact(after2, kept + f + rest) == kept + REDACTED + Redact(next, rest)
  {
    hide *;
    var m := MatchAt(afterWord, t).value;
    var kept := t[..m.kept];
    var v := kept + f + rest;
    if m.rule == Key && f == REDACTED {
      KeyKeepsNothing(afterWord, t);
      assert v == REDACTED[0..] + rest && REDACTED[0..] == REDACTED;
      LiteralStays(after2, 0, rest);
      next := if 0 == |REDACTED| then after2 else false;
    } else {
      SecretStaysSecret(afterWord, t, after2, v, f, rest);
      RedactSecret(after2, v, m.kept, m.kept + |f|);
      assert v[..m.kept] == kept && v[m.kept + |f|..] == rest;
      next := IsWord(v[m.kept + |f| - 1]);
    }
  }

  /** Any text with the same pieces is redacted to the same output. */
  lemma {:induction false} SamePiecesSameOutput(afterWord: bool, t: Text, after2: bool, bodies: seq<Text>)
    requires MayFillAll(Parse(afterWord, t), bodies)
    requires t == [] || afterWord == after2 || Upper(t[0]) != 83
    ensures Redact(after2, Fill(Parse(afterWord, t), bodies)) == Output(Parse(afterWord, t))
    decreases |t|
  {
    var ps := Parse(afterWord, t);
    if t == [] {
      NothingIsNothing(afterWord);
      NothingIsNothing(after2);
    } else {
      ParseStep(afterWord, t);
      MayFillStep(ps, bodies);
      hide *;
      OutputStep(ps);
      if MatchAt(afterWord, t).None? {
        PlainStaysPlain(afterWord, t, after2, bodies);
        FillPlain(ps, bodies, t[0]);
        RedactPlain(after2, Fill(ps, bodies));
        SamePiecesSameOutput(IsWord(t[0]), t[1..], IsWord(t[0]), bodies[1..]);
      } else {
        var end := MatchAt(afterWord, t).value.end;
        AfterSecret(afterWord, t, bodies);
        FillSecret(ps, bodies, t[..MatchAt(afterWord, t).value.kept]);
        var next := SameSecretSameOutput(afterWord, t, after2, bodies[0], Fill(ps[1..], bodies[1..]));
        assert t[end..] != [] ==> t[end..][0] == t[end];
        SamePiecesSameOutput(IsWord(t[end - 1]), t[end..], next, bodies[1..]);
      }
    }
  }

  // ---------------------------------------------------------------------
  // Main results
  // ---------------------------------------------------------------------

  function RedactSecrets(text: Text): Text {
    Redact(false, text)
  }

  /** The output says nothing of what was removed: put any other bodies, of any
      content and length, in place of the secrets' and it is the same. */
  lemma RemovedBodiesLeaveNoTrace(text: Text, bodies: seq<Text>)
    requires MayFillAll(Parse(false, text), bodies)
    ensures RedactSecrets(Fill(Parse(false, text), bodies)) == RedactSecrets(text)
  {
    SamePiecesSameOutput(false, text, false, bodies);
    RedactIsOutput(false, text);
  }

  function Literals(n: nat): (fs: seq<Text>)
    ensures |fs| == n && forall i :: 0 <= i < n ==> fs[i] == REDACTED
  {
    seq(n, i => REDACTED)
  }

  lemma {:induction false} OutputIsFilled(ps: seq<Piece>, fs: seq<Text>)
    requires |fs| == |ps| && forall i :: 0 <= i < |fs| ==> fs[i] == REDACTED
    ensures Fill(ps, fs) == Output(ps) && MayFillAll(ps, fs)
  {
    if ps != [] { OutputIsFilled(ps[1..], fs[1..]); }
  }

  /** Redacting twice is redacting once. */
  lemma RedactionIsIdempotent(text: Text)
    ensures RedactSecrets(RedactSecrets(text)) == RedactSecrets(text)
  {
    var ps := Parse(false, text);
    RedactIsOutput(false, text);
    OutputIsFilled(ps, Literals(|ps|));
    RemovedBodiesLeaveNoTrace(text, Literals(|ps|));
  }

  /** A bare key at a point of a text. */
  predicate KeyAt(afterWord: bool, t: Text, i: nat) {
    i <= |t| && Matches(WordBefore(afterWord, t, i), t, i, Key, Lead(i + 2, i + 2, i + 3, i + 3))
  }

  lemma KeyShifts(afterWord: bool, t: Text, n: nat, i: nat)
    requires n <= i <= |t| && KeyAt(afterWord, t, i)
    ensures KeyAt(WordBefore(afterWord, t, n), t[n..], i - n)
  {
    forall k | 0 <= k < |SK| ensures Upper(t[n..][i - n + k]) == SK[k] { assert Upper(t[i + k]) == SK[k]; }
  }

  lemma NoKeyInHead(kept: Text, o: Text, afterWord: bool, rest: Text, i: nat)
    requires o == kept + REDACTED + rest && forall k :: 0 <= k < |kept| ==> Upper(kept[k]) != 83
    requires KeyAt(afterWord, o, i)
    ensures |kept| + |REDACTED| <= i <= |o|
  {
    var head := kept + REDACTED;
    assert Upper(o[i + 0]) == SK[0] == 83;
    assert forall k :: 0 <= k < |kept| ==> o[k] == kept[k];
    assert forall k :: |kept| <= k < |head| ==> o[k] == REDACTED[k - |kept|];
  }

  /** No bare key is left anywhere in the output. */
  lemma {:induction false} NoKeyIn(afterWord: bool, t: Text, after2: bool, i: nat)
    requires t == [] || afterWord == after2 || Upper(t[0]) != 83
    ensures !KeyAt(after2, Output(Parse(afterWord, t)), i)
    decreases |t|
  {
    hide *;
    var ps := Parse(afterWord, t);
    if t == [] {
      NoKeyInNothing(afterWord, after2, i);
    } else if KeyAt(after2, Output(ps), i) {
      ParseStep(afterWord, t);
      OutputStep(ps);
      if MatchAt(afterWord, t).None? {
        PlainOutputStaysPlain(afterWord, t, after2);
        NoKeyAtStart(after2, Output(ps), i);
        KeyShifts(after2, Output(ps), 1, i);
        assert Output(ps)[1..] == Output(ps[1..]);
        NoKeyIn(IsWord(t[0]), t[1..], IsWord(t[0]), i - 1);
      } else {
        var end := MatchAt(afterWord, t).value.end;
        var next := NoKeyInSecret(afterWord, t, after2, i);
        assert t[end..] != [] ==> t[end..][0] == t[end];
        NoKeyIn(IsWord(t[end - 1]), t[end..], next, i - (MatchAt(afterWord, t).value.kept + |REDACTED|));
      }
    }
  }

  lemma NoKeyInNothing(afterWord: bool, after2: bool, i: nat)
    ensures !KeyAt(after2, Output(Parse(afterWord, [])), i)
  {}

  lemma PlainOutputStaysPlain(afterWord: bool, t: Text, after2: bool)
    requires t != [] && MatchAt(afterWord, t).None? && (afterWord == after2 || Upper(t[0]) != 83)
    ensures MatchAt(after2, Output(Parse(afterWord, t))).None?
  {
    hide MatchAt;
    var ps := Parse(afterWord, t);
    OutputIsFilled(ps, Literals(|ps|));
    PlainStaysPlain(afterWord, t, after2, Literals(|ps|));
  }

  lemma NoKeyInSecret(afterWord: bool, t: Text, after2: bool, i: nat) returns (next: bool)
    requires t != [] && MatchAt(afterWord, t).Some? && KeyAt(after2, Output(Parse(afterWord, t)), i)
    ensures var n := MatchAt(afterWord, t).value.kept + |REDACTED|;
      i >= n && KeyAt(next, Output(Parse(afterWord, t)[1..]), i - n)
    ensures MatchAt(afterWord, t).value.end < |t| ==> Upper(t[MatchAt(afterWord, t).value.end]) != 83
  {
    hide *;
    var ps := Parse(afterWord, t);
    OutputIsFilled(ps, Literals(|ps|));
    var m, o := MatchAt(afterWord, t).value, Output(ps);
    AfterSecret(afterWord, t, Literals(|ps|));
    ParseStep(afterWord, t);
    OutputStep(ps);
    KeptHasNoS(afterWord, t);
    NoKeyInHead(t[..m.kept], o, after2, Output(ps[1..]), i);
    var n := m.kept + |REDACTED|;
    KeyShifts(after2, o, n, i);
    assert o[n..] == Output(ps[1..]);
    next := WordBefore(after2, o, n);
  }

  lemma NoKeyAtStart(afterWord: bool, o: Text, i: nat)
    requires KeyAt(afterWord, o, i) && MatchAt(afterWord, o).None?
    ensures 0 < i <= |o|
    ensures WordBefore(afterWord, o, 1) == IsWord(o[0])
  {
    hide MatchAt;
    if i == 0 { MatchAtIsComplete(afterWord, o, Key, Lead(2, 2, 3, 3)); }
  }

  lemma KeptHasNoS(afterWord: bool, t: Text)
    requires MatchAt(afterWord, t).Some?
    ensures forall k :: 0 <= k < MatchAt(afterWord, t).value.kept ==> Upper(t[k]) != 83
  {
    hide MatchAt, LeadOf;
    MatchAtIsSound(afterWord, t);
    MatchesStartWithLetter(afterWord, t);
    var m := MatchAt(afterWord, t).value;
    forall k | 0 <= k < m.kept ensures Upper(t[k]) != 83 {
      if 0 < k { LeadUnits(afterWord, t, 0, m.rule, LeadOf(afterWord, t, m.rule).value, k); }
    }
  }

  lemma NoKeySurvives(text: Text, i: nat)
    ensures !KeyAt(false, RedactSecrets(text), i)
  {
    RedactIsOutput(false, text);
    NoKeyIn(false, text, false, i);
  }

  /** Text in which nothing matches comes back as it was. */
  lemma {:induction false} CleanTextIsUntouched(afterWord: bool, t: Text)
    requires forall i :: 0 <= i < |t| ==> MatchAt(WordBefore(afterWord, t, i), t[i..]).None?
    ensures Redact(afterWord, t) == t
    decreases |t|
  {
    if t != [] {
      assert t[0..] == t && MatchAt(WordBefore(afterWord, t, 0), t[0..]).None?;
      forall i | 0 <= i < |t[1..]| ensures MatchAt(WordBefore(IsWord(t[0]), t[1..], i), t[1..][i..]).None? {
        assert t[1..][i..] == t[i + 1..];
        assert MatchAt(WordBefore(afterWord, t, i + 1), t[i + 1..]).None?;
      }
      CleanTextIsUntouched(IsWord(t[0]), t[1..]);
    }
  }
}
