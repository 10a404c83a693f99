/** Strings as JavaScript has them: sequences of UTF-16 code units, compared
    unit by unit, and the fixed-width digit fields that occur in stamps, escapes
    and numbers. */
module Text {
  /** One UTF-16 code unit. */
  type CodeUnit = u: int | 0 <= u < 0x1_0000

  type Text = seq<CodeUnit>

  /** The lexicographic order of `<` and `Array.prototype.sort` on strings. */
  predicate Less(a: seq<int>, b: seq<int>) {
    |b| > 0 && (|a| == 0 || a[0] < b[0] || (a[0] == b[0] && Less(a[1..], b[1..])))
  }

  lemma {:induction false} LessIrreflexive(a: seq<int>)
    ensures !Less(a, a)
  {
    if a != [] {
      LessIrreflexive(a[1..]);
    }
  }

  lemma {:induction false} LessTransitive(a: seq<int>, b: seq<int>, c: seq<int>)
    requires Less(a, b) && Less(b, c)
    ensures Less(a, c)
  {
    if a != [] && a[0] == b[0] == c[0] {
      LessTransitive(a[1..], b[1..], c[1..]);
    }
  }

  lemma {:induction false} LessTrichotomous(a: seq<int>, b: seq<int>)
    ensures Less(a, b) || Less(b, a) || a == b
  {
    if a != [] && b != [] && a[0] == b[0] {
      LessTrichotomous(a[1..], b[1..]);
      assert a == [a[0]] + a[1..] && b == [b[0]] + b[1..];
    }
  }

  /** Equal lengths: the first difference decides. */
  lemma LessHead(a: seq<int>, b: seq<int>)
    requires |a| == |b| && Less(a, b)
    ensures |a| > 0 && (a[0] < b[0] || (a[0] == b[0] && |a| > 1 && Less(a[1..], b[1..])))
  {
    assert |b| == 1 ==> |b[1..]| == 0;
  }

  /** Fields of equal width compare before whatever follows them. */
  lemma {:induction false} LessConcat(a: seq<int>, b: seq<int>, c: seq<int>, d: seq<int>)
    requires |a| == |c|
    ensures Less(a + b, c + d) <==> Less(a, c) || (a == c && Less(b, d))
  {
    if a == [] {
      assert a + b == b && c + d == d;
    } else {
      assert (a + b)[1..] == a[1..] + b && (c + d)[1..] == c[1..] + d;
      LessConcat(a[1..], b, c[1..], d);
      assert a == [a[0]] + a[1..] && c == [c[0]] + c[1..];
    }
  }

  const COLON: CodeUnit := 0x3A

  predicate IsHigh(u: int) { 0xD800 <= u < 0xDC00 }
  predicate IsLow(u: int) { 0xDC00 <= u < 0xE000 }

  predicate StartsWithPair(s: Text) {
    |s| >= 2 && IsHigh(s[0]) && IsLow(s[1])
  }

  // ---------------------------------------------------------------------
  // Uuids as text
  // ---------------------------------------------------------------------

  function LowerHex(u: CodeUnit): CodeUnit {
    if 0x41 <= u <= 0x46 then u + 0x20 else u
  }

  /** A uuid as a `uuid` column gives it back: its letters in lower case. The request
      schemas accept either case. */
  function Lowered(t: Text): (l: Text)
    ensures |l| == |t| && forall i :: 0 <= i < |t| ==> l[i] == LowerHex(t[i])
  {
    seq(|t|, i requires 0 <= i < |t| => LowerHex(t[i]))
  }

  lemma LoweredTwice(t: Text)
    ensures Lowered(Lowered(t)) == Lowered(t)
  {}

  // ---------------------------------------------------------------------
  // Decimal digits
  // ---------------------------------------------------------------------

  const ZERO: CodeUnit := 0x30

  predicate IsDigit(u: int) {
    ZERO <= u < ZERO + 10
  }

  function Pow10(width: nat): (p: nat)
    ensures p >= 1
  {
    if width == 0 then 1 else 10 * Pow10(width - 1)
  }

  /** `n` in decimal, zero-padded to exactly `width` digits. */
  function Padded(n: nat, width: nat): (t: Text)
    ensures |t| == width
    ensures forall i :: 0 <= i < width ==> IsDigit(t[i])
    decreases width
  {
    if width == 0 then [] else Padded(n / 10, width - 1) + [ZERO + n % 10]
  }

  /** The number a digit string denotes. */
  function Denoted(t: seq<int>): (n: nat)
    requires forall i :: 0 <= i < |t| ==> IsDigit(t[i])
  {
    if t == [] then 0 else
      assert IsDigit(t[|t| - 1]);
      10 * Denoted(t[..|t| - 1]) + (t[|t| - 1] - ZERO)
  }

  lemma {:induction false} PaddedDenotes(n: nat, width: nat)
    requires n < Pow10(width)
    ensures Denoted(Padded(n, width)) == n
    decreases width
  {
    if width > 0 {
      PaddedDenotes(n / 10, width - 1);
      var t := Padded(n, width);
      assert t[..width - 1] == Padded(n / 10, width - 1);
    }
  }

  /** Zero-padding makes the numeric order the text order. */
  lemma {:induction false} PaddedOrder(m: nat, n: nat, width: nat)
    requires m < n < Pow10(width)
    ensures Less(Padded(m, width), Padded(n, width))
    decreases width
  {
    if width > 0 {
      LessConcat(Padded(m / 10, width - 1), [ZERO + m % 10], Padded(n / 10, width - 1), [ZERO + n % 10]);
      if m / 10 < n / 10 {
        PaddedOrder(m / 10, n / 10, width - 1);
      }
    }
  }
}
