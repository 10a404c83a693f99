/** UTF-8 as `Buffer.from(text, "utf8")` writes it: section 3 of RFC 3629, with each
    unpaired surrogate replaced. */
module Utf8 {
  import opened Text

  type Byte = b: int | 0 <= b < 0x100

  const REPLACEMENT: CodeUnit := 0xFFFD

  /** How many units the first character takes, and which character it is. */
  function Width(t: Text): (w: nat)
    ensures t != [] ==> 1 <= w <= |t|
  {
    if StartsWithPair(t) then 2 else 1
  }

  function CodePoint(t: Text): (c: int)
    requires t != []
    ensures 0 <= c < 0x11_0000
  {
    if StartsWithPair(t) then 0x1_0000 + (t[0] - 0xD800) * 0x400 + (t[1] - 0xDC00)
    else if IsHigh(t[0]) || IsLow(t[0]) then REPLACEMENT
    else t[0]
  }

  function Encode(c: int): (bytes: seq<Byte>)
    requires 0 <= c < 0x11_0000
    ensures |bytes| > 0
  {
    if c < 0x80 then [c]
    else if c < 0x800 then [0xC0 + c / 0x40, 0x80 + c % 0x40]
    else if c < 0x1_0000 then [0xE0 + c / 0x1000, 0x80 + c / 0x40 % 0x40, 0x80 + c % 0x40]
    else [0xF0 + c / 0x4_0000, 0x80 + c / 0x1000 % 0x40, 0x80 + c / 0x40 % 0x40, 0x80 + c % 0x40]
  }

  function Utf8Of(t: Text): seq<Byte> {
    if t == [] then [] else Encode(CodePoint(t)) + Utf8Of(t[Width(t)..])
  }

  /** The first character's units, repaired. */
  function FirstUnits(t: Text): (u: Text)
    requires t != []
    ensures |u| == Width(t)
  {
    if StartsWithPair(t) then t[..2] else [CodePoint(t)]
  }

  /** The text with every unpaired surrogate replaced. */
  function Repaired(t: Text): Text {
    if t == [] then [] else FirstUnits(t) + Repaired(t[Width(t)..])
  }

  /** Surrogates occur in pairs only. */
  predicate IsPaired(t: Text) {
    t == [] || if StartsWithPair(t) then IsPaired(t[2..]) else !IsHigh(t[0]) && !IsLow(t[0]) && IsPaired(t[1..])
  }

  lemma {:induction false} PairedIsRepaired(t: Text)
    requires IsPaired(t)
    ensures Repaired(t) == t
  {
    if t != [] {
      PairedIsRepaired(t[Width(t)..]);
      assert t == t[..Width(t)] + t[Width(t)..];
    }
  }

  lemma {:induction false} NoSurrogatesPaired(t: Text)
    requires forall i :: 0 <= i < |t| ==> !IsHigh(t[i]) && !IsLow(t[i])
    ensures IsPaired(t)
  {
    if t != [] { NoSurrogatesPaired(t[1..]); }
  }

  lemma {:induction false} PairedConcat(a: Text, b: Text)
    requires IsPaired(a) && IsPaired(b)
    ensures IsPaired(a + b)
    decreases |a|
  {
    if a == [] {
      assert a + b == b;
    } else {
      PairedConcat(a[Width(a)..], b);
      assert (a + b)[Width(a)..] == a[Width(a)..] + b;
    }
  }

  predicate CutsNoPair(a: Text, b: Text) {
    a == [] || b == [] || !IsHigh(a[|a| - 1]) || !IsLow(b[0])
  }

  lemma DropFront(a: Text, b: Text, w: nat)
    requires w <= |a| && CutsNoPair(a, b)
    ensures (a + b)[w..] == a[w..] + b && CutsNoPair(a[w..], b)
  {}

  /** Repair is piecewise wherever no pair straddles the cut. */
  lemma {:induction false} RepairedConcat(a: Text, b: Text)
    requires CutsNoPair(a, b)
    ensures Repaired(a + b) == Repaired(a) + Repaired(b)
    decreases |a|
  {
    if a == [] {
      assert a + b == b;
    } else {
      SameFirstUnits(a, b);
      RepairedStep(a);
      RepairedStep(a + b);
      hide *;
      var rest := a[Width(a)..];
      DropFront(a, b, Width(a));
      RepairedConcat(rest, b);
      Associates(FirstUnits(a), Repaired(rest), Repaired(b));
    }
  }

  lemma RepairedStep(t: Text)
    requires t != []
    ensures Repaired(t) == FirstUnits(t) + Repaired(t[Width(t)..])
  {}

  lemma Associates(a: Text, b: Text, c: Text)
    ensures a + (b + c) == a + b + c
  {}

  lemma SameFirstUnits(a: Text, b: Text)
    requires a != [] && CutsNoPair(a, b)
    ensures Width(a + b) == Width(a) && FirstUnits(a + b) == FirstUnits(a)
  {
    assert StartsWithPair(a + b) <==> StartsWithPair(a);
    assert StartsWithPair(a) ==> (a + b)[..2] == a[..2];
  }

  // ---------------------------------------------------------------------
  // One-to-one, up to repair
  // ---------------------------------------------------------------------

  lemma Sextets(c: int)
    requires 0 <= c
    ensures c == (c / 0x40) * 0x40 + c % 0x40
    ensures c == (c / 0x1000) * 0x1000 + (c / 0x40 % 0x40) * 0x40 + c % 0x40
    ensures c == (c / 0x4_0000) * 0x4_0000 + (c / 0x1000 % 0x40) * 0x1000 + (c / 0x40 % 0x40) * 0x40 + c % 0x40
  {
    assert c / 0x1000 == (c / 0x40) / 0x40;
    assert c / 0x4_0000 == (c / 0x1000) / 0x40;
  }

  /** The first byte tells how many follow. */
  lemma FirstByte(c: int)
    requires 0 <= c < 0x11_0000
    ensures var n, b := |Encode(c)|, Encode(c)[0];
      && (n == 1 <==> b < 0x80) && (n == 2 <==> 0xC0 <= b < 0xE0) && (n == 3 <==> 0xE0 <= b < 0xF0) && (n == 4 <==> 0xF0 <= b)
  {}

  lemma SameBytesSameCharacter(c: int, d: int)
    requires 0 <= c < 0x11_0000 && 0 <= d < 0x11_0000 && Encode(c) == Encode(d)
    ensures c == d
  {
    FirstByte(c);
    FirstByte(d);
    Sextets(c);
    Sextets(d);
    var x, y := Encode(c), Encode(d);
    assert x[0] == y[0];
    assert |x| > 1 ==> x[1] == y[1];
    assert |x| > 2 ==> x[2] == y[2];
    assert |x| > 3 ==> x[3] == y[3];
  }

  /** No character's bytes start another's. */
  lemma EncodeUnique(c: int, d: int, r: seq<Byte>, s: seq<Byte>)
    requires 0 <= c < 0x11_0000 && 0 <= d < 0x11_0000 && Encode(c) + r == Encode(d) + s
    ensures c == d && r == s
  {
    var x, y := Encode(c) + r, Encode(d) + s;
    FirstByte(c);
    FirstByte(d);
    assert x[0] == Encode(c)[0] && y[0] == Encode(d)[0];
    assert x[..|Encode(c)|] == Encode(c) && y[..|Encode(d)|] == Encode(d);
    assert r == x[|Encode(c)|..] && s == y[|Encode(d)|..];
    SameBytesSameCharacter(c, d);
  }

  lemma SameCharacterSameUnits(a: Text, b: Text)
    requires a != [] && b != [] && CodePoint(a) == CodePoint(b)
    ensures Width(a) == Width(b) && FirstUnits(a) == FirstUnits(b)
  {
    if StartsWithPair(a) {
      assert a[0] == b[0] && a[1] == b[1];
    }
  }

  lemma {:induction false} SameBytesSameRepair(a: Text, b: Text)
    requires Utf8Of(a) == Utf8Of(b)
    ensures Repaired(a) == Repaired(b)
    decreases |a|
  {
    if a != [] && b != [] {
      EncodeUnique(CodePoint(a), CodePoint(b), Utf8Of(a[Width(a)..]), Utf8Of(b[Width(b)..]));
      SameCharacterSameUnits(a, b);
      SameBytesSameRepair(a[Width(a)..], b[Width(b)..]);
    }
  }

  lemma {:induction false} RepairKeepsBytes(t: Text)
    ensures Utf8Of(Repaired(t)) == Utf8Of(t)
  {
    if t != [] {
      var rest := t[Width(t)..];
      RepairKeepsBytes(rest);
      var r := Repaired(t);
      assert r[Width(t)..] == Repaired(rest);
      assert Width(r) == Width(t) && CodePoint(r) == CodePoint(t);
    }
  }

  /** Two texts have the same bytes exactly when they differ at most in unpaired
      surrogates: on well-formed text UTF-8 is one-to-one. */
  lemma Utf8IsOneToOne(a: Text, b: Text)
    ensures Utf8Of(a) == Utf8Of(b) <==> Repaired(a) == Repaired(b)
  {
    if Utf8Of(a) == Utf8Of(b) { SameBytesSameRepair(a, b); }
    RepairKeepsBytes(a);
    RepairKeepsBytes(b);
  }
}
