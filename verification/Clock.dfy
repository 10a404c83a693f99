/** The recording clock: a millisecond instant becomes an ISO-8601 stamp of one
    fixed shape, as `Date.prototype.toISOString` renders it. */
module Clock {
  import opened Options
  import opened Text
  import opened Calendar
  import opened FixedWidth

  // ---------------------------------------------------------------------
  // Stamps
  // ---------------------------------------------------------------------

  const DASH: CodeUnit := 0x2D
  const PLUS: CodeUnit := 0x2B
  const POINT: CodeUnit := 0x2E
  const TEE: CodeUnit := 0x54
  const ZED: CodeUnit := 0x5A

  const BELOW_YEAR: Layout :=
    [Slot(2, DASH), Slot(2, TEE), Slot(2, COLON), Slot(2, COLON), Slot(2, POINT), Slot(3, ZED)]

  /** `dddd-dd-ddTdd:dd:dd.dddZ`. */
  const RECORDED_SHAPE: Layout := [Slot(4, DASH)] + BELOW_YEAR
  /** The expanded year of section 21.4.1.32 of ECMA-262, after its sign. */
  const EXPANDED_SHAPE: Layout := [Slot(6, DASH)] + BELOW_YEAR

  /** `new Date(t).toISOString()`. */
  function ToIsoString(t: TimeValue): Text {
    var y := YearAt(t);
    if 0 <= y <= 9999 then Render([y] + Below(t), RECORDED_SHAPE)
    else if y < 0 then [DASH] + Render([-y] + Below(t), EXPANDED_SHAPE)
    else [PLUS] + Render([y] + Below(t), EXPANDED_SHAPE)
  }

  predicate HasFourDigitYear(t: int) {
    FIRST_STAMPED <= t <= LAST_STAMPED
  }

  lemma FourDigitYears(t: int)
    ensures HasFourDigitYear(t) <==> 0 <= YearAt(t) <= 9999
  {
    var day := t / MS_PER_DAY;
    var y := YearOf(day);
    assert DayFromYear(0) * MS_PER_DAY == FIRST_STAMPED;
    assert DayFromYear(10000) * MS_PER_DAY == LAST_STAMPED + 1;
    if y + 1 < 0 { YearsIncrease(y + 1, 0); }
    if 0 < y { YearsIncrease(0, y); }
    if y + 1 < 10000 { YearsIncrease(y + 1, 10000); }
    if 10000 < y { YearsIncrease(10000, y); }
  }

  lemma StampFits(t: int)
    requires HasFourDigitYear(t)
    ensures 0 <= YearAt(t) <= 9999 && Fits([YearAt(t)] + Below(t), RECORDED_SHAPE)
  {
    FourDigitYears(t);
    assert Pow10(2) == 100 && Pow10(3) == 1000 by { assert Pow10(1) == 10; }
    assert Pow10(4) == 10_000;
  }

  /** A rendering has the recorded shape exactly when its year has four digits. */
  lemma ShapeOfRendering(t: TimeValue)
    ensures Matches(ToIsoString(t), RECORDED_SHAPE) <==> HasFourDigitYear(t)
  {
    FourDigitYears(t);
    if HasFourDigitYear(t) {
      StampFits(t);
      RenderMatches([YearAt(t)] + Below(t), RECORDED_SHAPE);
    } else {
      assert !IsDigit(ToIsoString(t)[0]);
    }
  }

  /** "Stamps compare, sort and hash lexicographically": on every instant the
      shape admits, the order of texts is the order of time. */
  lemma StampOrder(a: TimeValue, b: TimeValue)
    requires HasFourDigitYear(a) && HasFourDigitYear(b)
    ensures a < b <==> Less(ToIsoString(a), ToIsoString(b))
    ensures a == b <==> ToIsoString(a) == ToIsoString(b)
  {
    LessIrreflexive(ToIsoString(a));
    if a < b { StampsIncrease(a, b); }
    if b < a {
      StampsIncrease(b, a);
      if Less(ToIsoString(a), ToIsoString(b)) {
        LessTransitive(ToIsoString(a), ToIsoString(b), ToIsoString(a));
      }
    }
  }

  lemma StampsIncrease(a: TimeValue, b: TimeValue)
    requires HasFourDigitYear(a) && HasFourDigitYear(b) && a < b
    ensures Less(ToIsoString(a), ToIsoString(b)) && ToIsoString(a) != ToIsoString(b)
  {
    StampFits(a);
    StampFits(b);
    FieldsOrder(a, b);
    RenderOrder([YearAt(a)] + Below(a), [YearAt(b)] + Below(b), RECORDED_SHAPE);
    LessIrreflexive(ToIsoString(a));
  }

  // ---------------------------------------------------------------------
  // Recognizing a stamp
  // ---------------------------------------------------------------------

  /** `isRecordedAt` over a given `Date.parse`, where `None` stands for `NaN`. */
  predicate IsRecordedAt(value: Text, parse: Text -> Option<TimeValue>) {
    && Matches(value, RECORDED_SHAPE)
    && parse(value).Some?
    && ToIsoString(parse(value).value) == value
  }

  /** The parser reads back what the renderer wrote. */
  ghost predicate Inverts(parse: Text -> Option<TimeValue>) {
    forall t: TimeValue :: HasFourDigitYear(t) ==> parse(ToIsoString(t)) == Some(t)
  }

  /** One instant has one recorded spelling, and nothing else is accepted. */
  lemma RecognizerIsExact(value: Text, parse: Text -> Option<TimeValue>)
    requires Inverts(parse)
    ensures IsRecordedAt(value, parse) <==>
            exists t: TimeValue :: HasFourDigitYear(t) && ToIsoString(t) == value
  {
    if IsRecordedAt(value, parse) {
      ShapeOfRendering(parse(value).value);
    }
    if t: TimeValue :| HasFourDigitYear(t) && ToIsoString(t) == value {
      ShapeOfRendering(t);
    }
  }

  /** A parser that reads the calendar fields and lets days overflow, as a lenient
      engine does. */
  function LenientParse(value: Text): Option<TimeValue> {
    if !Matches(value, RECORDED_SHAPE) then None else
      var key := Fields(value, RECORDED_SHAPE);
      if !(1 <= key[1] <= 12) then None else
        var t := Instant(key[0], key[1..]);
        if -MAX_TIME_VALUE <= t <= MAX_TIME_VALUE then Some(t) else None
  }

  /** The assumption on parsers can be met, by one that shifts impossible dates. */
  lemma LenientParseInverts()
    ensures Inverts(LenientParse)
  {
    forall t: TimeValue | HasFourDigitYear(t)
      ensures LenientParse(ToIsoString(t)) == Some(t)
    {
      StampFits(t);
      RenderMatches([YearAt(t)] + Below(t), RECORDED_SHAPE);
      InstantRoundTrip(t);
      assert ([YearAt(t)] + Below(t))[1..] == Below(t);
    }
  }

  // ---------------------------------------------------------------------
  // Stamping a millisecond source
  // ---------------------------------------------------------------------

  /** What a millisecond source may answer. */
  datatype Number = NaN | PositiveInfinity | NegativeInfinity | Finite(value: real)

  datatype Stamped = Stamp(text: Text) | NotRepresentable | OutsideFourDigitYears

  /** `Math.trunc`: towards zero. */
  function Trunc(r: real): int {
    if r >= 0.0 then r.Floor else -((-r).Floor)
  }

  function Format(milliseconds: Number): Stamped {
    if !milliseconds.Finite? || milliseconds.value > MAX_TIME_VALUE as real || milliseconds.value < -MAX_TIME_VALUE as real then
      NotRepresentable
    else
      var iso := ToIsoString(Trunc(milliseconds.value));
      if !Matches(iso, RECORDED_SHAPE) then OutsideFourDigitYears else Stamp(iso)
  }

  /** A source is stamped exactly when its truncation has a four-digit year, and
      then with the one spelling of that instant. */
  lemma FormatIsExact(r: real)
    ensures Format(Finite(r)).Stamp? <==>
            FIRST_STAMPED as real - 1.0 < r < LAST_STAMPED as real + 1.0
    ensures Format(Finite(r)).Stamp? ==>
            HasFourDigitYear(Trunc(r)) && Format(Finite(r)).text == ToIsoString(Trunc(r))
    ensures Format(Finite(r)).NotRepresentable? <==> r > MAX_TIME_VALUE as real || r < -MAX_TIME_VALUE as real
  {
    if -MAX_TIME_VALUE as real <= r <= MAX_TIME_VALUE as real {
      ShapeOfRendering(Trunc(r));
    }
  }

  /** "A fractional source must not stamp a future millisecond" holds exactly for
      sources that are not negative fractions; below zero, truncation goes forward. */
  lemma TruncationNeverInFuture(r: real)
    ensures Trunc(r) as real <= r <==> r >= 0.0 || r == r.Floor as real
  {
    var down, up := r.Floor, -((-r).Floor);
    assert down as real <= r <= up as real;
    assert (up - 1) as real < r;
    if up as real <= r {
      assert down == up;
    }
  }

  /** -0.5 ms is stamped as the later instant 1970-01-01T00:00:00.000Z. */
  lemma TruncationGoesForwardBelowZero()
    ensures Format(Finite(-0.5)) == Stamp(ToIsoString(0)) && -0.5 < 0 as real
  {
    ShapeOfRendering(0);
  }
}
