/** Canonical JSON text: object keys sorted so that equal payloads print, and
    hash, equally. Text is JSON as in sections 4, 5 and 7 of RFC 8259, escaped as
    `JSON.stringify` escapes it. */
module CanonicalJson {
  import opened Text
  import opened Utf8

  /** Integers that JavaScript prints without an exponent and compares exactly. */
  type SafeInt = n: int | -9_007_199_254_740_991 <= n <= 9_007_199_254_740_991

  /** A value as the program holds it; an object keeps its properties in
      insertion order. */
  datatype Json =
    | Null
    | Bool(truth: bool)
    | Number(n: SafeInt)
    | String(s: Text)
    | Array(items: seq<Json>)
    | Object(entries: seq<Entry>)

  datatype Entry = Entry(key: Text, value: Json)

  function KeyList(es: seq<Entry>): (ks: seq<Text>)
    ensures |ks| == |es| && forall i :: 0 <= i < |es| ==> ks[i] == es[i].key
  {
    seq(|es|, i requires 0 <= i < |es| => es[i].key)
  }

  predicate Has(es: seq<Entry>, k: Text) {
    exists i :: 0 <= i < |es| && es[i].key == k
  }

  predicate Distinct(ks: seq<Text>) {
    forall i, j :: 0 <= i < j < |ks| ==> ks[i] != ks[j]
  }

  /** No object has two properties of one name. */
  predicate WellFormed(j: Json) {
    match j
    case Array(items) => forall i :: 0 <= i < |items| ==> WellFormed(items[i])
    case Object(es) => Distinct(KeyList(es)) && forall i :: 0 <= i < |es| ==> WellFormed(es[i].value)
    case _ => true
  }

  /** `record[k]`. */
  function Lookup(es: seq<Entry>, k: Text): (v: Json)
    requires Has(es, k)
    ensures exists i :: 0 <= i < |es| && es[i].key == k && es[i].value == v
  {
    if es[0].key == k then es[0].value else
      assert Has(es[1..], k) by {
        var i :| 0 <= i < |es| && es[i].key == k;
        assert es[1..][i - 1].key == k;
      }
      var v := Lookup(es[1..], k);
      assert exists i :: 0 <= i < |es| && es[i].key == k && es[i].value == v by {
        var i :| 0 <= i < |es[1..]| && es[1..][i].key == k && es[1..][i].value == v;
        assert es[i + 1].key == k && es[i + 1].value == v;
      }
      v
  }

  /** The same value, with objects read as maps from name to value. */
  predicate Same(a: Json, b: Json) {
    match (a, b)
    case (Array(xs), Array(ys)) =>
      |xs| == |ys| && forall i :: 0 <= i < |xs| ==> Same(xs[i], ys[i])
    case (Object(es), Object(fs)) =>
      && (forall i :: 0 <= i < |es| ==> Has(fs, es[i].key) && Same(es[i].value, Lookup(fs, es[i].key)))
      && (forall i :: 0 <= i < |fs| ==> Has(es, fs[i].key))
    case _ => a == b
  }

  // ---------------------------------------------------------------------
  // Sorting keys
  // ---------------------------------------------------------------------

  predicate StrictlySorted(ks: seq<Text>) {
    forall i, j :: 0 <= i < j < |ks| ==> Less(ks[i], ks[j])
  }

  function Insert(k: Text, ks: seq<Text>): (r: seq<Text>)
    ensures forall x :: x in r <==> x == k || x in ks
  {
    if ks == [] then [k]
    else if Less(k, ks[0]) then [k] + ks
    else [ks[0]] + Insert(k, ks[1..])
  }

  /** `keys.sort()`: ascending by code unit. */
  function Sort(ks: seq<Text>): (r: seq<Text>)
    ensures forall x :: x in r <==> x in ks
  {
    if ks == [] then [] else Insert(ks[0], Sort(ks[1..]))
  }

  lemma {:induction false} InsertSorts(k: Text, ks: seq<Text>)
    requires StrictlySorted(ks) && k !in ks
    ensures StrictlySorted(Insert(k, ks))
  {
    if ks != [] {
      if Less(k, ks[0]) {
        forall j | 0 <= j < |ks| ensures Less(k, ks[j]) {
          if j > 0 { LessTransitive(k, ks[0], ks[j]); }
        }
      } else {
        LessTrichotomous(k, ks[0]);
        InsertSorts(k, ks[1..]);
        var rest := Insert(k, ks[1..]);
        forall j | 0 <= j < |rest| ensures Less(ks[0], rest[j]) {
          assert rest[j] in rest;
          if rest[j] != k {
            var i :| 0 <= i < |ks[1..]| && ks[1..][i] == rest[j];
            assert ks[i + 1] == rest[j];
          }
        }
      }
    }
  }

  lemma {:induction false} SortSorts(ks: seq<Text>)
    requires Distinct(ks)
    ensures StrictlySorted(Sort(ks))
  {
    if ks != [] {
      SortSorts(ks[1..]);
      assert ks[0] !in ks[1..];
      InsertSorts(ks[0], Sort(ks[1..]));
    }
  }

  /** A set of keys has one ascending enumeration. */
  lemma {:induction false} SortedIsUnique(ks: seq<Text>, ls: seq<Text>)
    requires StrictlySorted(ks) && StrictlySorted(ls)
    requires forall x :: x in ks <==> x in ls
    ensures ks == ls
  {
    assert ks != [] ==> ks[0] in ls;
    assert ls != [] ==> ls[0] in ks;
    if ks != [] && ls != [] {
      FirstIsLeast(ks, ls);
      FirstIsLeast(ls, ks);
      LessTrichotomous(ks[0], ls[0]);
      LessIrreflexive(ks[0]);
      if Less(ks[0], ls[0]) && Less(ls[0], ks[0]) { LessTransitive(ks[0], ls[0], ks[0]); }
      assert ks[0] == ls[0];
      forall x ensures x in ks[1..] <==> x in ls[1..] {
        TailMembers(ks, x);
        TailMembers(ls, x);
      }
      SortedIsUnique(ks[1..], ls[1..]);
      assert ks == [ks[0]] + ks[1..] && ls == [ls[0]] + ls[1..];
    }
  }

  lemma FirstIsLeast(ks: seq<Text>, ls: seq<Text>)
    requires ks != [] && ls != [] && StrictlySorted(ks) && forall x :: x in ls ==> x in ks
    ensures ks[0] == ls[0] || Less(ks[0], ls[0])
  {
    assert ls[0] in ks;
    var i :| 0 <= i < |ks| && ks[i] == ls[0];
  }

  lemma TailMembers(ks: seq<Text>, x: Text)
    requires ks != [] && StrictlySorted(ks)
    ensures x in ks[1..] <==> x in ks && x != ks[0]
  {
    LessIrreflexive(ks[0]);
    if x in ks && x != ks[0] {
      var i :| 0 <= i < |ks| && ks[i] == x;
      assert ks[1..][i - 1] == x;
    }
  }

  // ---------------------------------------------------------------------
  // Strings
  // ---------------------------------------------------------------------

  const QUOTE: CodeUnit := 0x22
  const BACKSLASH: CodeUnit := 0x5C
  const COMMA: CodeUnit := 0x2C
  const MINUS: CodeUnit := 0x2D
  const LBRACKET: CodeUnit := 0x5B
  const RBRACKET: CodeUnit := 0x5D
  const LBRACE: CodeUnit := 0x7B
  const RBRACE: CodeUnit := 0x7D

  function HexDigit(d: int): CodeUnit
    requires 0 <= d < 16
  {
    if d < 10 then ZERO + d else 0x61 + d - 10
  }

  /** The letter of a two-character escape, or none. */
  function ShortEscape(u: CodeUnit): Text {
    if u == QUOTE || u == BACKSLASH then [u]
    else if u == 0x08 then [0x62]
    else if u == 0x09 then [0x74]
    else if u == 0x0A then [0x6E]
    else if u == 0x0C then [0x66]
    else if u == 0x0D then [0x72]
    else []
  }

  /** One unit that is not half of a surrogate pair. */
  function Escape(u: CodeUnit): (t: Text)
    ensures |t| > 0
  {
    if ShortEscape(u) != [] then [BACKSLASH] + ShortEscape(u)
    else if u < 0x20 || IsHigh(u) || IsLow(u) then
      [BACKSLASH, 0x75, HexDigit(u / 0x1000), HexDigit(u / 0x100 % 16), HexDigit(u / 0x10 % 16), HexDigit(u % 16)]
    else [u]
  }

  function QuoteBody(s: Text): Text {
    if s == [] then []
    else if StartsWithPair(s) then s[..2] + QuoteBody(s[2..])
    else Escape(s[0]) + QuoteBody(s[1..])
  }

  /** `JSON.stringify` of a string. */
  function Quote(s: Text): Text {
    [QUOTE] + QuoteBody(s) + [QUOTE]
  }

  lemma HexValue(u: CodeUnit)
    ensures u == (u / 0x1000) * 0x1000 + (u / 0x100 % 16) * 0x100 + (u / 0x10 % 16) * 0x10 + u % 16
  {
    assert u / 0x100 == (u / 0x10) / 16;
    assert u / 0x1000 == (u / 0x100) / 16;
  }

  lemma HexUnique(u: CodeUnit, v: CodeUnit)
    requires HexDigit(u / 0x1000) == HexDigit(v / 0x1000) && HexDigit(u / 0x100 % 16) == HexDigit(v / 0x100 % 16)
    requires HexDigit(u / 0x10 % 16) == HexDigit(v / 0x10 % 16) && HexDigit(u % 16) == HexDigit(v % 16)
    ensures u == v
  {
    HexValue(u);
    HexValue(v);
  }

  lemma EscapeUnique(u: CodeUnit, v: CodeUnit, r: Text, s: Text)
    requires Escape(u) + r == Escape(v) + s
    ensures u == v && r == s
  {
    var x, y := Escape(u) + r, Escape(v) + s;
    assert x[0] == Escape(u)[0] && y[0] == Escape(v)[0];
    if x[0] == BACKSLASH {
      assert x[1] == Escape(u)[1] && y[1] == Escape(v)[1];
      if x[1] == 0x75 {
        assert forall i :: 2 <= i < 6 ==> x[i] == Escape(u)[i] && y[i] == Escape(v)[i];
        assert x[2] == y[2] && x[3] == y[3] && x[4] == y[4] && x[5] == y[5];
        HexUnique(u, v);
      }
    }
    assert r == x[|Escape(u)|..] && s == y[|Escape(v)|..];
  }

  /** A quoted body, its closing quote, and what follows. */
  function Closed(a: Text, r: Text): (t: Text)
    ensures |t| > 0
  {
    QuoteBody(a) + [QUOTE] + r
  }

  /** What a quoted body starts with: its closing quote exactly when it is empty,
      and a bare high surrogate exactly for a pair. */
  lemma BodyStart(a: Text, r: Text)
    ensures Closed(a, r)[0] == QUOTE <==> a == []
    ensures IsHigh(Closed(a, r)[0]) <==> StartsWithPair(a)
  {
    if a != [] {
      assert QuoteBody(a)[0] == if StartsWithPair(a) then a[0] else Escape(a[0])[0];
    }
  }

  lemma BodyStep(a: Text, r: Text)
    requires a != []
    ensures Closed(a, r) == if StartsWithPair(a) then a[..2] + Closed(a[2..], r) else Escape(a[0]) + Closed(a[1..], r)
  {
    assert StartsWithPair(a) ==> Closed(a, r) == a[..2] + Closed(a[2..], r);
  }

  /** The closing quote of a string is the first unescaped one. */
  lemma {:induction false} QuoteBodyUnique(a: Text, b: Text, r: Text, s: Text)
    requires Closed(a, r) == Closed(b, s)
    ensures a == b && r == s
    decreases |a|
  {
    BodyStart(a, r);
    BodyStart(b, s);
    if a == [] {
      assert r == Closed(a, r)[1..] && s == Closed(b, s)[1..];
    } else {
      BodyStep(a, r);
      BodyStep(b, s);
      if StartsWithPair(a) {
        var t, u := Closed(a[2..], r), Closed(b[2..], s);
        assert (a[..2] + t)[..2] == a[..2] && (b[..2] + u)[..2] == b[..2];
        assert (a[..2] + t)[2..] == t && (b[..2] + u)[2..] == u;
        QuoteBodyUnique(a[2..], b[2..], r, s);
        assert a == a[..2] + a[2..] && b == b[..2] + b[2..];
      } else {
        EscapeUnique(a[0], b[0], Closed(a[1..], r), Closed(b[1..], s));
        QuoteBodyUnique(a[1..], b[1..], r, s);
        assert a == [a[0]] + a[1..] && b == [b[0]] + b[1..];
      }
    }
  }

  // ---------------------------------------------------------------------
  // Numbers
  // ---------------------------------------------------------------------

  function Decimal(n: nat): (t: Text)
    ensures |t| > 0 && forall i :: 0 <= i < |t| ==> IsDigit(t[i])
  {
    if n < 10 then [ZERO + n] else Decimal(n / 10) + [ZERO + n % 10]
  }

  function Integer(n: int): (t: Text)
    ensures |t| > 0
  {
    if n < 0 then [MINUS] + Decimal(-n) else Decimal(n)
  }

  lemma {:induction false} DecimalDenotes(n: nat)
    ensures Denoted(Decimal(n)) == n
  {
    var t := Decimal(n);
    if n < 10 {
      assert t[..|t| - 1] == [];
    } else {
      DecimalDenotes(n / 10);
      assert t[..|t| - 1] == Decimal(n / 10);
    }
  }

  /** What may follow a value: anything that does not continue a number. */
  predicate Ends(r: Text) {
    r == [] || !IsDigit(r[0])
  }

  /** A run of digits is not cut short by what follows it. */
  lemma DigitsReachAsFar(x: Text, y: Text, r: Text, s: Text)
    requires x + r == y + s && Ends(r) && forall i :: 0 <= i < |y| ==> IsDigit(y[i])
    ensures |y| <= |x|
  {
    assert forall i :: 0 <= i < |y| ==> IsDigit((y + s)[i]);
    assert |r| > 0 ==> (x + r)[|x|] == r[0];
  }

  lemma DecimalUnique(m: nat, n: nat, r: Text, s: Text)
    requires Decimal(m) + r == Decimal(n) + s && Ends(r) && Ends(s)
    ensures m == n && r == s
  {
    DigitsReachAsFar(Decimal(m), Decimal(n), r, s);
    DigitsReachAsFar(Decimal(n), Decimal(m), s, r);
    var x, y := Decimal(m) + r, Decimal(n) + s;
    assert Decimal(m) == x[..|Decimal(m)|] && Decimal(n) == y[..|Decimal(n)|];
    assert r == x[|Decimal(m)|..] && s == y[|Decimal(n)|..];
    DecimalDenotes(m);
    DecimalDenotes(n);
  }

  // ---------------------------------------------------------------------
  // The printer
  // ---------------------------------------------------------------------

  const NULL_TEXT: Text := [0x6E, 0x75, 0x6C, 0x6C]
  const TRUE_TEXT: Text := [0x74, 0x72, 0x75, 0x65]
  const FALSE_TEXT: Text := [0x66, 0x61, 0x6C, 0x73, 0x65]

  /** `parts.join(",")`. */
  function Join(parts: seq<Text>): Text {
    if |parts| == 0 then [] else if |parts| == 1 then parts[0] else parts[0] + [COMMA] + Join(parts[1..])
  }

  function Print(j: Json): (t: Text)
    ensures |t| > 0
    decreases j, 0
  {
    match j
    case Null => NULL_TEXT
    case Bool(b) => if b then TRUE_TEXT else FALSE_TEXT
    case Number(n) => Integer(n)
    case String(s) => Quote(s)
    case Array(items) => [LBRACKET] + Join(PrintAll(items)) + [RBRACKET]
    case Object(es) => [LBRACE] + Join(Members(es, Sort(KeyList(es)))) + [RBRACE]
  }

  function PrintAll(items: seq<Json>): (parts: seq<Text>)
    ensures |parts| == |items|
    decreases items, 0
  {
    if items == [] then [] else [Print(items[0])] + PrintAll(items[1..])
  }

  function Member(k: Text, v: Json): Text
    decreases v, 1
  {
    Quote(k) + [COLON] + Print(v)
  }

  /** Every key names a property. */
  predicate Keyed(es: seq<Entry>, ks: seq<Text>) {
    forall k :: k in ks ==> Has(es, k)
  }

  function Members(es: seq<Entry>, ks: seq<Text>): (parts: seq<Text>)
    requires Keyed(es, ks)
    ensures |parts| == |ks|
    decreases es, |ks|
  {
    if ks == [] then [] else [Member(ks[0], Lookup(es, ks[0]))] + Members(es, ks[1..])
  }

  // ---------------------------------------------------------------------
  // Unique decomposition
  // ---------------------------------------------------------------------

  /** The first unit of a value tells its kind and is never punctuation. */
  lemma FirstUnit(j: Json)
    ensures var u := Print(j)[0];
      && (u == 0x6E <==> j == Null)
      && (u == 0x74 <==> j == Bool(true))
      && (u == 0x66 <==> j == Bool(false))
      && (u == QUOTE <==> j.String?)
      && (u == LBRACKET <==> j.Array?)
      && (u == LBRACE <==> j.Object?)
      && (u == MINUS || IsDigit(u) <==> j.Number?)
      && (u == MINUS <==> j.Number? && j.n < 0)
  {}

  /** Inside brackets, past the opening one. */
  lemma Inside(open: CodeUnit, t: Text, close: CodeUnit, r: Text)
    ensures ([open] + t + [close] + r)[1..] == t + [close] + r
  {}

  lemma MemberOpens(k: Text, v: Json, r: Text)
    ensures (Member(k, v) + r)[1..] == Closed(k, [COLON] + (Print(v) + r))
  {
    var body, p := QuoteBody(k), Print(v);
    assert [QUOTE] + body + [QUOTE] + [COLON] + p + r == [QUOTE] + (body + [QUOTE] + ([COLON] + (p + r)));
  }

  /** What follows the first of several joined parts. */
  function Tail(parts: seq<Text>, close: CodeUnit, r: Text): (t: Text)
    requires |parts| > 0
    ensures |t| > 0 && t[0] == if |parts| == 1 then close else COMMA
  {
    if |parts| == 1 then [close] + r else [COMMA] + (Join(parts[1..]) + [close] + r)
  }

  lemma TailStep(parts: seq<Text>, close: CodeUnit, r: Text)
    requires |parts| > 0
    ensures Tail(parts, close, r)[1..] == if |parts| == 1 then r else Join(parts[1..]) + [close] + r
  {}

  lemma EmptyJoin(close: CodeUnit, r: Text)
    ensures (Join([]) + [close] + r)[1..] == r
  {}

  lemma Regroup(head: Text, rest: Text, close: CodeUnit, r: Text)
    ensures head + [COMMA] + rest + [close] + r == head + ([COMMA] + (rest + [close] + r))
    ensures head + [close] + r == head + ([close] + r)
  {}

  lemma JoinHead(parts: seq<Text>, close: CodeUnit, r: Text)
    requires |parts| > 0
    ensures Join(parts) + [close] + r == parts[0] + Tail(parts, close, r)
  {
    Regroup(parts[0], if |parts| == 1 then [] else Join(parts[1..]), close, r);
  }

  lemma ItemsStart(xs: seq<Json>, r: Text)
    ensures (Join(PrintAll(xs)) + [RBRACKET] + r)[0] == RBRACKET <==> xs == []
  {
    if xs != [] {
      JoinHead(PrintAll(xs), RBRACKET, r);
      FirstUnit(xs[0]);
    }
  }

  lemma MembersStart(es: seq<Entry>, ks: seq<Text>, r: Text)
    requires Keyed(es, ks)
    ensures (Join(Members(es, ks)) + [RBRACE] + r)[0] == RBRACE <==> ks == []
  {
    if ks != [] {
      JoinHead(Members(es, ks), RBRACE, r);
    }
  }

  lemma {:induction false} ItemsUnique(xs: seq<Json>, ys: seq<Json>, r: Text, s: Text)
    requires forall i :: 0 <= i < |xs| ==> WellFormed(xs[i])
    requires forall i :: 0 <= i < |ys| ==> WellFormed(ys[i])
    requires Join(PrintAll(xs)) + [RBRACKET] + r == Join(PrintAll(ys)) + [RBRACKET] + s
    ensures |xs| == |ys| && (forall i :: 0 <= i < |xs| ==> Same(xs[i], ys[i])) && r == s
    decreases xs, 0
  {
    ItemsStart(xs, r);
    ItemsStart(ys, s);
    var p, q := PrintAll(xs), PrintAll(ys);
    if xs == [] {
      EmptyJoin(RBRACKET, r);
      EmptyJoin(RBRACKET, s);
    } else {
      JoinHead(p, RBRACKET, r);
      JoinHead(q, RBRACKET, s);
      PrintUnique(xs[0], ys[0], Tail(p, RBRACKET, r), Tail(q, RBRACKET, s));
      assert p[1..] == PrintAll(xs[1..]) && q[1..] == PrintAll(ys[1..]);
      TailStep(p, RBRACKET, r);
      TailStep(q, RBRACKET, s);
      if |xs| > 1 {
        ItemsUnique(xs[1..], ys[1..], r, s);
        assert forall i :: 1 <= i < |xs| ==> xs[i] == xs[1..][i - 1] && ys[i] == ys[1..][i - 1];
      }
    }
  }

  lemma MemberUnique(k: Text, l: Text, v: Json, w: Json, r: Text, s: Text)
    requires WellFormed(v) && WellFormed(w) && Ends(r) && Ends(s)
    requires Member(k, v) + r == Member(l, w) + s
    ensures k == l && Same(v, w) && r == s
    decreases v, 1
  {
    var t, u := [COLON] + (Print(v) + r), [COLON] + (Print(w) + s);
    MemberOpens(k, v, r);
    MemberOpens(l, w, s);
    QuoteBodyUnique(k, l, t, u);
    assert t[1..] == Print(v) + r && u[1..] == Print(w) + s;
    PrintUnique(v, w, r, s);
  }

  predicate AllWellFormed(es: seq<Entry>) {
    forall i :: 0 <= i < |es| ==> WellFormed(es[i].value)
  }

  lemma MembersFirst(es: seq<Entry>, ks: seq<Text>)
    requires |ks| > 0 && Keyed(es, ks)
    ensures Has(es, ks[0]) && Keyed(es, ks[1..])
    ensures Members(es, ks)[0] == Member(ks[0], Lookup(es, ks[0])) && Members(es, ks)[1..] == Members(es, ks[1..])
  {}

  lemma LookupWellFormed(es: seq<Entry>, k: Text)
    requires Has(es, k) && AllWellFormed(es)
    ensures WellFormed(Lookup(es, k))
  {}

  lemma TailEnds(parts: seq<Text>, r: Text)
    requires |parts| > 0
    ensures Ends(Tail(parts, RBRACE, r))
  {}

  lemma MembersHead(es: seq<Entry>, ks: seq<Text>, fs: seq<Entry>, ls: seq<Text>, r: Text, s: Text)
    requires |ks| > 0 && |ls| > 0
    requires AllWellFormed(es) && AllWellFormed(fs)
    requires Keyed(es, ks) && Keyed(fs, ls)
    requires Join(Members(es, ks)) + [RBRACE] + r == Join(Members(fs, ls)) + [RBRACE] + s
    ensures ks[0] == ls[0] && Same(Lookup(es, ks[0]), Lookup(fs, ls[0]))
    ensures Tail(Members(es, ks), RBRACE, r) == Tail(Members(fs, ls), RBRACE, s)
    decreases es, 0, |ks|, 0
  {
    hide *;
    var p, q := Members(es, ks), Members(fs, ls);
    assert |p| > 0 && |q| > 0;
    TailEnds(p, r);
    TailEnds(q, s);
    MembersFirst(es, ks);
    MembersFirst(fs, ls);
    LookupWellFormed(es, ks[0]);
    LookupWellFormed(fs, ls[0]);
    JoinHead(p, RBRACE, r);
    JoinHead(q, RBRACE, s);
    MemberUnique(ks[0], ls[0], Lookup(es, ks[0]), Lookup(fs, ls[0]), Tail(p, RBRACE, r), Tail(q, RBRACE, s));
  }

  lemma {:induction false} MembersUnique(es: seq<Entry>, ks: seq<Text>, fs: seq<Entry>, ls: seq<Text>, r: Text, s: Text)
    requires AllWellFormed(es) && AllWellFormed(fs)
    requires Keyed(es, ks) && Keyed(fs, ls)
    requires Join(Members(es, ks)) + [RBRACE] + r == Join(Members(fs, ls)) + [RBRACE] + s
    ensures ks == ls && (forall k :: k in ks && k in ls ==> Same(Lookup(es, k), Lookup(fs, k))) && r == s
    decreases es, 0, |ks|
  {
    MembersStart(es, ks, r);
    MembersStart(fs, ls, s);
    if ks == [] {
      EmptyJoin(RBRACE, r);
      EmptyJoin(RBRACE, s);
    } else {
      hide *;
      MembersHead(es, ks, fs, ls, r, s);
      MembersFirst(es, ks);
      MembersFirst(fs, ls);
      TailStep(Members(es, ks), RBRACE, r);
      TailStep(Members(fs, ls), RBRACE, s);
      if |ks| > 1 {
        MembersUnique(es, ks[1..], fs, ls[1..], r, s);
        assert ks == [ks[0]] + ks[1..] && ls == [ls[0]] + ls[1..];
      }
    }
  }

  /** With distinct keys, every property is the one its key finds. */
  lemma LookupAt(es: seq<Entry>, i: nat)
    requires i < |es| && Distinct(KeyList(es))
    ensures Has(es, es[i].key) && Lookup(es, es[i].key) == es[i].value
  {
    var k := es[i].key;
    assert Has(es, k);
    var v := Lookup(es, k);
    var j :| 0 <= j < |es| && es[j].key == k && es[j].value == v;
    assert KeyList(es)[j] == KeyList(es)[i];
  }

  lemma KeysAreKeys(es: seq<Entry>)
    ensures forall k :: k in KeyList(es) <==> Has(es, k)
  {
    forall k ensures k in KeyList(es) <==> Has(es, k) {
      if i :| 0 <= i < |es| && es[i].key == k {
        assert KeyList(es)[i] == k;
      }
    }
  }

  lemma AfterEqualHeads(h: Text, r: Text, s: Text)
    requires h + r == h + s
    ensures r == s
  {
    assert r == (h + r)[|h|..] && s == (h + s)[|h|..];
  }

  lemma MinusOpens(n: int, r: Text)
    requires n < 0
    ensures Integer(n) + r == [MINUS] + (Decimal(-n) + r)
  {
    var t := Decimal(-n);
    assert [MINUS] + t + r == [MINUS] + (t + r);
  }

  lemma IntegerUnique(m: int, n: int, r: Text, s: Text)
    requires (m < 0) == (n < 0)
    requires Integer(m) + r == Integer(n) + s && Ends(r) && Ends(s)
    ensures m == n && r == s
  {
    if m < 0 {
      MinusOpens(m, r);
      MinusOpens(n, s);
      AfterEqualHeads([MINUS], Decimal(-m) + r, Decimal(-n) + s);
      DecimalUnique(-m, -n, r, s);
    } else {
      DecimalUnique(m, n, r, s);
    }
  }

  /** No printed value is read in two ways, whatever follows it. */
  lemma {:induction false} PrintUnique(a: Json, b: Json, r: Text, s: Text)
    requires WellFormed(a) && WellFormed(b) && Ends(r) && Ends(s)
    requires Print(a) + r == Print(b) + s
    ensures Same(a, b) && r == s
    decreases a, 0
  {
    FirstUnit(a);
    FirstUnit(b);
    assert (Print(a) + r)[0] == Print(a)[0] && (Print(b) + s)[0] == Print(b)[0];
    match a {
      case Null => AfterEqualHeads(NULL_TEXT, r, s);
      case Bool(t) => AfterEqualHeads(Print(a), r, s);
      case Number(m) => IntegerUnique(m, b.n, r, s);
      case String(t) =>
        Inside(QUOTE, QuoteBody(t), QUOTE, r);
        Inside(QUOTE, QuoteBody(b.s), QUOTE, s);
        QuoteBodyUnique(t, b.s, r, s);
      case Array(xs) =>
        Inside(LBRACKET, Join(PrintAll(xs)), RBRACKET, r);
        Inside(LBRACKET, Join(PrintAll(b.items)), RBRACKET, s);
        ItemsUnique(xs, b.items, r, s);
      case Object(es) => ObjectUnique(es, b.entries, r, s);
    }
  }

  lemma ObjectUnique(es: seq<Entry>, fs: seq<Entry>, r: Text, s: Text)
    requires WellFormed(Object(es)) && WellFormed(Object(fs)) && Ends(r) && Ends(s)
    requires Print(Object(es)) + r == Print(Object(fs)) + s
    ensures Same(Object(es), Object(fs)) && r == s
    decreases es, 1, 0
  {
    var ks, ls := Sort(KeyList(es)), Sort(KeyList(fs));
    Inside(LBRACE, Join(Members(es, ks)), RBRACE, r);
    Inside(LBRACE, Join(Members(fs, ls)), RBRACE, s);
    MembersUnique(es, ks, fs, ls, r, s);
    SameByKeys(es, fs);
  }

  lemma SameByKeys(es: seq<Entry>, fs: seq<Entry>)
    requires Distinct(KeyList(es)) && Distinct(KeyList(fs))
    requires Sort(KeyList(es)) == Sort(KeyList(fs))
    requires forall k :: k in Sort(KeyList(es)) ==> Has(es, k) && Has(fs, k) && Same(Lookup(es, k), Lookup(fs, k))
    ensures Same(Object(es), Object(fs))
  {
    forall i | 0 <= i < |es| ensures Has(fs, es[i].key) && Same(es[i].value, Lookup(fs, es[i].key)) {
      assert KeyList(es)[i] in Sort(KeyList(es));
      LookupAt(es, i);
    }
    forall i | 0 <= i < |fs| ensures Has(es, fs[i].key) {
      assert KeyList(fs)[i] in Sort(KeyList(fs));
    }
  }

  // ---------------------------------------------------------------------
  // Key order does not matter
  // ---------------------------------------------------------------------

  lemma {:induction false} SamePrints(a: Json, b: Json)
    requires WellFormed(a) && WellFormed(b) && Same(a, b)
    ensures Print(a) == Print(b)
    decreases a
  {
    match a {
      case Array(xs) => SamePrintsAll(xs, b.items);
      case Object(es) =>
        var fs := b.entries;
        var ks, ls := Sort(KeyList(es)), Sort(KeyList(fs));
        KeysAreKeys(es);
        KeysAreKeys(fs);
        SortSorts(KeyList(es));
        SortSorts(KeyList(fs));
        forall k ensures Has(es, k) <==> Has(fs, k) {}
        SortedIsUnique(ks, ls);
        SamePrintsMembers(es, fs, ks);
      case _ =>
    }
  }

  lemma {:induction false} SamePrintsAll(xs: seq<Json>, ys: seq<Json>)
    requires |xs| == |ys|
    requires forall i :: 0 <= i < |xs| ==> WellFormed(xs[i]) && WellFormed(ys[i]) && Same(xs[i], ys[i])
    ensures PrintAll(xs) == PrintAll(ys)
    decreases xs
  {
    if xs != [] {
      SamePrints(xs[0], ys[0]);
      SamePrintsAll(xs[1..], ys[1..]);
    }
  }

  lemma {:induction false} SamePrintsMembers(es: seq<Entry>, fs: seq<Entry>, ks: seq<Text>)
    requires Distinct(KeyList(es)) && Distinct(KeyList(fs))
    requires forall i :: 0 <= i < |es| ==> WellFormed(es[i].value)
    requires forall i :: 0 <= i < |fs| ==> WellFormed(fs[i].value)
    requires Same(Object(es), Object(fs))
    requires forall k :: k in ks ==> Has(es, k) && Has(fs, k)
    ensures Members(es, ks) == Members(fs, ks)
    decreases es, |ks|
  {
    if ks != [] {
      assert Has(es, ks[0]);
      var i :| 0 <= i < |es| && es[i].key == ks[0];
      LookupAt(es, i);
      SamePrints(es[i].value, Lookup(fs, ks[0]));
      SamePrintsMembers(es, fs, ks[1..]);
    }
  }

  /** Canonical text is injective up to key order, and only up to key order. */
  lemma PrintIsCanonical(a: Json, b: Json)
    requires WellFormed(a) && WellFormed(b)
    ensures Print(a) == Print(b) <==> Same(a, b)
  {
    if Print(a) == Print(b) {
      assert Print(a) + [] == Print(b) + [];
      PrintUnique(a, b, [], []);
    }
    if Same(a, b) {
      SamePrints(a, b);
    }
  }

  // ---------------------------------------------------------------------
  // Lookup keys built from JSON text
  // ---------------------------------------------------------------------

  datatype Maybe = Absent | Present(text: Text)

  function MaybeString(m: Maybe): Json {
    if m.Present? then String(m.text) else Null
  }

  /** The uniqueness tuple of an evidence record: scope, connector, source type,
      external id and content hash. */
  datatype Identity = Identity(scope: Text, connector: Maybe, sourceType: Text, externalId: Text, contentHash: Text)

  /** `dedupeKeyOf`. */
  function DedupeKey(i: Identity): Text {
    Print(Array([String(i.scope), MaybeString(i.connector), String(i.sourceType), String(i.externalId), String(i.contentHash)]))
  }

  /** The dedupe key is as good as the tuple. */
  lemma DedupeKeyInjective(i: Identity, j: Identity)
    ensures DedupeKey(i) == DedupeKey(j) <==> i == j
  {
    var x := [String(i.scope), MaybeString(i.connector), String(i.sourceType), String(i.externalId), String(i.contentHash)];
    var y := [String(j.scope), MaybeString(j.connector), String(j.sourceType), String(j.externalId), String(j.contentHash)];
    PrintIsCanonical(Array(x), Array(y));
    if DedupeKey(i) == DedupeKey(j) {
      assert Same(x[0], y[0]) && Same(x[1], y[1]) && Same(x[2], y[2]) && Same(x[3], y[3]) && Same(x[4], y[4]);
    }
  }

  /** `idempotencyKeyOf`. */
  function ScopedKey(scope: Text, key: Text): Text {
    Print(Array([String(scope), String(key)]))
  }

  lemma ScopedKeyInjective(s: Text, k: Text, t: Text, l: Text)
    ensures ScopedKey(s, k) == ScopedKey(t, l) <==> s == t && k == l
  {
    var x, y := [String(s), String(k)], [String(t), String(l)];
    PrintIsCanonical(Array(x), Array(y));
    if ScopedKey(s, k) == ScopedKey(t, l) {
      assert Same(x[0], y[0]) && Same(x[1], y[1]);
    }
  }

  /** A belief slot without its surrogate id; the qualifiers are string-valued
      properties in insertion order. */
  datatype Slot = Slot(frame: Text, predicateId: Text, contextSpace: Text, modality: Text, qualifiers: seq<Entry>)

  predicate IsRecord(es: seq<Entry>) {
    Distinct(KeyList(es)) && forall i :: 0 <= i < |es| ==> es[i].value.String?
  }

  /** The qualifiers as sorted `[key, value]` pairs. */
  function Pairs(es: seq<Entry>, ks: seq<Text>): (ps: seq<Json>)
    requires forall k :: k in ks ==> Has(es, k)
    ensures |ps| == |ks| && forall i :: 0 <= i < |ks| ==> ps[i] == Array([String(ks[i]), Lookup(es, ks[i])])
  {
    seq(|ks|, i requires 0 <= i < |ks| => assert ks[i] in ks; Array([String(ks[i]), Lookup(es, ks[i])]))
  }

  function SortedPairs(es: seq<Entry>): Json {
    Array(Pairs(es, Sort(KeyList(es))))
  }

  function SlotFields(slot: Slot): seq<Json> {
    [String(slot.frame), String(slot.predicateId), String(slot.contextSpace), String(slot.modality),
     SortedPairs(slot.qualifiers)]
  }

  /** `slotKeyOf`. */
  function SlotKey(slot: Slot): Text {
    Print(Array(SlotFields(slot)))
  }

  lemma SamePairsSameRecord(es: seq<Entry>, fs: seq<Entry>)
    requires IsRecord(es) && IsRecord(fs) && Same(SortedPairs(es), SortedPairs(fs))
    ensures Same(Object(es), Object(fs))
  {
    var ks, ls := Sort(KeyList(es)), Sort(KeyList(fs));
    var p, q := Pairs(es, ks), Pairs(fs, ls);
    forall i | 0 <= i < |ks| ensures ks[i] == ls[i] && Same(Lookup(es, ks[i]), Lookup(fs, ls[i])) {
      assert Same(p[i], q[i]);
      assert Same(p[i].items[0], q[i].items[0]) && Same(p[i].items[1], q[i].items[1]);
    }
    assert ks == ls;
    SameByKeys(es, fs);
  }

  lemma SameAtKey(es: seq<Entry>, fs: seq<Entry>, k: Text)
    requires Distinct(KeyList(es)) && Same(Object(es), Object(fs)) && Has(es, k)
    ensures Has(fs, k) && Same(Lookup(es, k), Lookup(fs, k))
  {
    var j :| 0 <= j < |es| && es[j].key == k;
    LookupAt(es, j);
  }

  lemma SameRecordSamePairs(es: seq<Entry>, fs: seq<Entry>)
    requires IsRecord(es) && IsRecord(fs) && Same(Object(es), Object(fs))
    ensures Same(SortedPairs(es), SortedPairs(fs))
  {
    var ks, ls := Sort(KeyList(es)), Sort(KeyList(fs));
    KeysAreKeys(es);
    KeysAreKeys(fs);
    SortSorts(KeyList(es));
    SortSorts(KeyList(fs));
    forall k ensures Has(es, k) <==> Has(fs, k) {}
    SortedIsUnique(ks, ls);
    forall i | 0 <= i < |ks| ensures Same(Pairs(es, ks)[i], Pairs(fs, ls)[i]) {
      SameAtKey(es, fs, ks[i]);
    }
  }

  lemma SlotFieldsSame(a: Slot, b: Slot)
    ensures Same(Array(SlotFields(a)), Array(SlotFields(b))) <==>
            a.(qualifiers := []) == b.(qualifiers := []) && Same(SortedPairs(a.qualifiers), SortedPairs(b.qualifiers))
  {
    var x, y := SlotFields(a), SlotFields(b);
    if Same(Array(x), Array(y)) {
      assert Same(x[0], y[0]) && Same(x[1], y[1]) && Same(x[2], y[2]) && Same(x[3], y[3]) && Same(x[4], y[4]);
    }
  }

  /** Two slots share a lookup key exactly when they agree on every dimension, with
      qualifiers read as a map: the order of qualifiers never shows. */
  lemma SlotKeyIsOrderIndependent(a: Slot, b: Slot)
    requires IsRecord(a.qualifiers) && IsRecord(b.qualifiers)
    ensures SlotKey(a) == SlotKey(b) <==>
            a.(qualifiers := []) == b.(qualifiers := []) && Same(Object(a.qualifiers), Object(b.qualifiers))
  {
    PairsWellFormed(a.qualifiers, Sort(KeyList(a.qualifiers)));
    PairsWellFormed(b.qualifiers, Sort(KeyList(b.qualifiers)));
    PrintIsCanonical(Array(SlotFields(a)), Array(SlotFields(b)));
    SlotFieldsSame(a, b);
    if Same(SortedPairs(a.qualifiers), SortedPairs(b.qualifiers)) {
      SamePairsSameRecord(a.qualifiers, b.qualifiers);
    }
    if Same(Object(a.qualifiers), Object(b.qualifiers)) {
      SameRecordSamePairs(a.qualifiers, b.qualifiers);
    }
  }

  lemma PairsWellFormed(es: seq<Entry>, ks: seq<Text>)
    requires IsRecord(es) && forall k :: k in ks ==> Has(es, k)
    ensures WellFormed(Array(Pairs(es, ks)))
  {
    forall i | 0 <= i < |ks| ensures WellFormed(Pairs(es, ks)[i]) {
      assert ks[i] in ks;
      assert Lookup(es, ks[i]).String?;
    }
  }

  // ---------------------------------------------------------------------
  // Content hashing
  // ---------------------------------------------------------------------

  lemma {:induction false} QuoteBodyIsPaired(s: Text)
    ensures IsPaired(QuoteBody(s))
  {
    if s != [] {
      if StartsWithPair(s) {
        QuoteBodyIsPaired(s[2..]);
        assert (s[..2] + QuoteBody(s[2..]))[2..] == QuoteBody(s[2..]);
      } else {
        QuoteBodyIsPaired(s[1..]);
        NoSurrogatesPaired(Escape(s[0]));
        PairedConcat(Escape(s[0]), QuoteBody(s[1..]));
      }
    }
  }

  lemma QuoteIsPaired(s: Text)
    ensures IsPaired(Quote(s))
  {
    QuoteBodyIsPaired(s);
    NoSurrogatesPaired([QUOTE]);
    PairedConcat([QUOTE], QuoteBody(s));
    PairedConcat([QUOTE] + QuoteBody(s), [QUOTE]);
  }

  lemma {:induction false} JoinIsPaired(parts: seq<Text>)
    requires forall i :: 0 <= i < |parts| ==> IsPaired(parts[i])
    ensures IsPaired(Join(parts))
  {
    if |parts| > 1 {
      JoinIsPaired(parts[1..]);
      NoSurrogatesPaired([COMMA]);
      PairedConcat(parts[0], [COMMA]);
      PairedConcat(parts[0] + [COMMA], Join(parts[1..]));
    }
  }

  lemma BracketedIsPaired(open: CodeUnit, t: Text, close: CodeUnit)
    requires IsPaired(t) && !IsHigh(open) && !IsLow(open) && !IsHigh(close) && !IsLow(close)
    ensures IsPaired([open] + t + [close])
  {
    NoSurrogatesPaired([open]);
    NoSurrogatesPaired([close]);
    PairedConcat([open], t);
    PairedConcat([open] + t, [close]);
  }

  /** Printed text holds no half of a surrogate pair: `JSON.stringify` escapes them. */
  lemma {:induction false} PrintIsPaired(j: Json)
    ensures IsPaired(Print(j))
    decreases j, 1
  {
    match j {
      case String(s) => QuoteIsPaired(s);
      case Array(items) =>
        PrintAllIsPaired(items);
        JoinIsPaired(PrintAll(items));
        BracketedIsPaired(LBRACKET, Join(PrintAll(items)), RBRACKET);
      case Object(es) =>
        var ks := Sort(KeyList(es));
        MembersArePaired(es, ks);
        JoinIsPaired(Members(es, ks));
        BracketedIsPaired(LBRACE, Join(Members(es, ks)), RBRACE);
      case _ => NoSurrogatesPaired(Print(j));
    }
  }

  lemma {:induction false} PrintAllIsPaired(items: seq<Json>)
    ensures forall i :: 0 <= i < |items| ==> IsPaired(PrintAll(items)[i])
    decreases items, 0
  {
    if items != [] {
      PrintIsPaired(items[0]);
      PrintAllIsPaired(items[1..]);
    }
  }

  lemma {:induction false} MembersArePaired(es: seq<Entry>, ks: seq<Text>)
    requires Keyed(es, ks)
    ensures forall i :: 0 <= i < |ks| ==> IsPaired(Members(es, ks)[i])
    decreases es, |ks|
  {
    if ks != [] {
      var v := Lookup(es, ks[0]);
      QuoteIsPaired(ks[0]);
      NoSurrogatesPaired([COLON]);
      PrintIsPaired(v);
      PairedConcat(Quote(ks[0]), [COLON]);
      PairedConcat(Quote(ks[0]) + [COLON], Print(v));
      MembersArePaired(es, ks[1..]);
    }
  }

  lemma DedupeKeyIsPaired(i: Identity)
    ensures IsPaired(DedupeKey(i))
  {
    PrintIsPaired(Array([String(i.scope), MaybeString(i.connector), String(i.sourceType), String(i.externalId), String(i.contentHash)]));
  }

  /** What a connector may hand over: raw bytes, raw text, or a structured payload. */
  datatype Content = Raw(bytes: seq<Byte>) | Value(json: Json)
  {
    predicate IsStructured() { Value? && !json.String? }
  }

  /** The bytes a content hash is taken of; top-level text is not quoted. */
  function ContentBytes(content: Content): seq<Byte> {
    match content
    case Raw(bytes) => bytes
    case Value(json) => Utf8Of(if json.String? then json.s else Print(json))
  }

  predicate ContentWellFormed(content: Content) {
    content.Value? ==> WellFormed(content.json)
  }

  /** The bytes of canonical text are as good as the value. */
  lemma PrintedBytesAreCanonical(a: Json, b: Json)
    requires WellFormed(a) && WellFormed(b)
    ensures Utf8Of(Print(a)) == Utf8Of(Print(b)) <==> Same(a, b)
  {
    PrintIsPaired(a);
    PrintIsPaired(b);
    PairedIsRepaired(Print(a));
    PairedIsRepaired(Print(b));
    Utf8IsOneToOne(Print(a), Print(b));
    PrintIsCanonical(a, b);
  }

  /** Across all content, exactly which pairs hash equally: the same structured value;
      texts that differ at most in unpaired surrogates; a text that spells a payload
      out; bytes that encode the other. */
  predicate HashAlike(a: Content, b: Content) {
    if a.Raw? || b.Raw? then ContentBytes(a) == ContentBytes(b)
    else if a.json.String? && b.json.String? then Repaired(a.json.s) == Repaired(b.json.s)
    else if a.json.String? then Repaired(a.json.s) == Print(b.json)
    else if b.json.String? then Repaired(b.json.s) == Print(a.json)
    else Same(a.json, b.json)
  }

  lemma ContentIsCanonicalUpToRawText(a: Content, b: Content)
    requires ContentWellFormed(a) && ContentWellFormed(b)
    ensures ContentBytes(a) == ContentBytes(b) <==> HashAlike(a, b)
  {
    if a.Value? && b.Value? {
      PrintIsPaired(a.json);
      PrintIsPaired(b.json);
      PairedIsRepaired(Print(a.json));
      PairedIsRepaired(Print(b.json));
      Utf8IsOneToOne(if a.json.String? then a.json.s else Print(a.json), if b.json.String? then b.json.s else Print(b.json));
      PrintIsCanonical(a.json, b.json);
    }
  }

  /** The text `[]` and the empty array hash equally. */
  lemma RawTextSpellsPayload()
    ensures ContentBytes(Value(String([LBRACKET, RBRACKET]))) == ContentBytes(Value(Array([])))
    ensures !Same(String([LBRACKET, RBRACKET]), Array([]))
  {
    assert Print(Array([])) == [LBRACKET] + Join([]) + [RBRACKET];
  }

  /** A lone half of a surrogate pair hashes as the replacement character. */
  lemma LoneSurrogateHashesAsReplacement()
    ensures ContentBytes(Value(String([0xD800]))) == ContentBytes(Value(String([REPLACEMENT])))
    ensures !Same(String([0xD800]), String([REPLACEMENT]))
  {
    assert Repaired([0xD800]) == [REPLACEMENT] + Repaired([]) == Repaired([REPLACEMENT]);
    Utf8IsOneToOne([0xD800], [REPLACEMENT]);
  }
}
