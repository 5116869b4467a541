/**
 `format_time`: a whole number of seconds broken into years, days, hours,
 minutes and seconds, largest unit first, keeping only the non-zero parts.
 */
module TimeFormat {
  import opened Text

  type Positive = n: nat | n > 0 witness 1

  datatype Interval = Interval(name: string, count: Positive)

  /** The units in the order the loop visits them, with their lengths in seconds. */
  const Intervals: seq<Interval> := [
    Interval("years", 60 * 60 * 24 * 365),
    Interval("days", 60 * 60 * 24),
    Interval("hours", 60 * 60),
    Interval("minutes", 60),
    Interval("seconds", 1)
  ]

  /** One emitted part: a non-zero quotient and the index of its unit in `Intervals`. */
  datatype Part = Part(value: nat, unit: nat)

  predicate ValidParts(parts: seq<Part>) {
    forall j :: 0 <= j < |parts| ==> parts[j].unit < |Intervals|
  }

  /** Units strictly increase along the parts, so they follow the order of `Intervals`. */
  predicate InUnitOrder(parts: seq<Part>) {
    forall j, k :: 0 <= j < k < |parts| ==> parts[j].unit < parts[k].unit
  }

  /** Number of seconds the parts stand for. */
  function Recombine(parts: seq<Part>): nat
    requires ValidParts(parts)
  {
    if parts == [] then 0
    else parts[0].value * Intervals[parts[0].unit].count + Recombine(parts[1..])
  }

  /** The loop of `format_time` from unit `i` on, with `seconds` the value left
      over by the earlier units: emit the quotient when it is non-zero, carry on
      with the remainder. */
  function EmitFrom(seconds: nat, i: nat): (parts: seq<Part>)
    requires i <= |Intervals|
    ensures ValidParts(parts) && InUnitOrder(parts)
    ensures forall p :: p in parts ==> i <= p.unit < |Intervals| && p.value > 0
    decreases |Intervals| - i
  {
    if i == |Intervals| then []
    else
      var count := Intervals[i].count;
      var value := seconds / count;
      var rest := EmitFrom(seconds % count, i + 1);
      if value > 0 then [Part(value, i)] + rest else rest
  }

  /** Round trip: the emitted parts recombine to the value the loop started
      from, once that value is below the previous unit. */
  lemma {:induction false} EmitFromRecombines(seconds: nat, i: nat)
    requires i <= |Intervals|
    requires 0 < i ==> seconds < Intervals[i - 1].count
    ensures Recombine(EmitFrom(seconds, i)) == seconds
    decreases |Intervals| - i
  {
    if i < |Intervals| {
      var count := Intervals[i].count;
      var value := seconds / count;
      var rest := EmitFrom(seconds % count, i + 1);
      EmitFromRecombines(seconds % count, i + 1);
      DivMod(seconds, count);
      if value > 0 {
        assert ([Part(value, i)] + rest)[1..] == rest;
      }
    }
  }

  /** Euclidean division of a natural by a positive count. */
  lemma DivMod(s: nat, c: Positive)
    ensures s == (s / c) * c + s % c
    ensures 0 <= s / c && 0 <= s % c < c
    ensures s / c == 0 ==> s % c == s
  {
  }

  /** The parts `format_time` joins, for a whole number of seconds. */
  function Parts(seconds: nat): (parts: seq<Part>)
    ensures ValidParts(parts) && InUnitOrder(parts)
    ensures Recombine(parts) == seconds
  {
    EmitFromRecombines(seconds, 0);
    EmitFrom(seconds, 0)
  }

  /** Python's `f"{int(value)} {name}"`: the text splits at its last space
      into the decimal digits of the value and the unit's name. */
  function Render(p: Part): (text: string)
    requires p.unit < |Intervals|
    ensures var name := Intervals[p.unit].name;
      var k := |text| - |name| - 1;
      && 0 < k && text[k] == ' ' && text[k + 1..] == name
      && (forall i :: 0 <= i < k ==> IsDigitChar(text[i]))
      && DigitsValue(text[..k]) == p.value
  {
    var digits := NatToString(p.value);
    var text := digits + " " + Intervals[p.unit].name;
    NatToStringRoundTrip(p.value);
    assert text[..|digits|] == digits;
    text
  }

  function RenderAll(parts: seq<Part>): (texts: seq<string>)
    requires ValidParts(parts)
    ensures |texts| == |parts|
    ensures forall j :: 0 <= j < |parts| ==> texts[j] == Render(parts[j])
  {
    if parts == [] then [] else [Render(parts[0])] + RenderAll(parts[1..])
  }

  /** The text of a non-empty list of parts starts with a non-zero digit. */
  lemma JoinedStartsNonZero(parts: seq<Part>)
    requires ValidParts(parts) && parts != []
    requires parts[0].value > 0
    ensures var text := Join(RenderAll(parts), ", ");
      |text| > 0 && text[0] != '0'
  {
    var first := Render(parts[0]);
    assert first[0] == NatToString(parts[0].value)[0];
  }

  /** `format_time` on whole seconds. */
  function FormatTime(seconds: nat): (text: string)
    ensures text == "0 seconds" <==> seconds == 0
  {
    var parts := Parts(seconds);
    NoPartsIffZero(seconds);
    if parts == [] then "0 seconds"
    else
      JoinedStartsNonZero(parts);
      Join(RenderAll(parts), ", ")
  }

  /** The units run from years down to seconds, each a whole multiple of the
      next, and the last is one second. */
  lemma IntervalsShape()
    ensures |Intervals| == 5
    ensures Intervals[0].name == "years" && Intervals[1].name == "days"
      && Intervals[2].name == "hours" && Intervals[3].name == "minutes"
      && Intervals[4].name == "seconds"
    ensures forall i :: 0 < i < |Intervals| ==> Intervals[i - 1].count % Intervals[i].count == 0
    ensures forall i :: 0 < i < |Intervals| ==> Intervals[i - 1].count > Intervals[i].count
    ensures Intervals[|Intervals| - 1].count == 1
  {
  }

  /** The value at the start of the loop's `i`-th round, in closed form: the
      input itself before the first unit, the remainder modulo the previous
      unit afterwards. */
  function Remaining(seconds: nat, i: nat): (r: nat)
    requires i <= |Intervals|
    ensures 0 < i ==> r < Intervals[i - 1].count
  {
    if i == 0 then seconds else seconds % Intervals[i - 1].count
  }

  /** The quotient for unit `i`, in closed form. */
  function Quotient(seconds: nat, i: nat): nat
    requires i < |Intervals|
  {
    Remaining(seconds, i) / Intervals[i].count
  }

  /** Seconds left after the years, taken modulo a day, are the input
      modulo a day. */
  lemma ModYearThenDay(s: nat)
    ensures (s % 31536000) % 86400 == s % 86400
  {
    var q, r := s / 31536000, s % 31536000;
    assert s == 31536000 * q + r && 0 <= r < 31536000;
    var q2, r2 := r / 86400, r % 86400;
    assert r == 86400 * q2 + r2 && 0 <= r2 < 86400;
    var m := 365 * q + q2;
    assert s == 86400 * m + r2;
    assert s / 86400 == m;
  }

  lemma ModDayThenHour(s: nat)
    ensures (s % 86400) % 3600 == s % 3600
  {
    var q, r := s / 86400, s % 86400;
    assert s == 86400 * q + r && 0 <= r < 86400;
    var q2, r2 := r / 3600, r % 3600;
    assert r == 3600 * q2 + r2 && 0 <= r2 < 3600;
    var m := 24 * q + q2;
    assert s == 3600 * m + r2;
    assert s / 3600 == m;
  }

  lemma ModHourThenMinute(s: nat)
    ensures (s % 3600) % 60 == s % 60
  {
    var q, r := s / 3600, s % 3600;
    assert s == 3600 * q + r && 0 <= r < 3600;
    var q2, r2 := r / 60, r % 60;
    assert r == 60 * q2 + r2 && 0 <= r2 < 60;
    var m := 60 * q + q2;
    assert s == 60 * m + r2;
    assert s / 60 == m;
  }

  /** The loop's value at round `i + 1` is the closed form `Remaining`: each
      unit's length is a whole multiple of the next one's, so reducing modulo
      the larger and then the smaller unit is reducing modulo the smaller. */
  lemma RemainingStep(seconds: nat, i: nat)
    requires i < |Intervals|
    ensures Remaining(seconds, i) % Intervals[i].count == Remaining(seconds, i + 1)
  {
    if i == 1 {
      ModYearThenDay(seconds);
    } else if i == 2 {
      ModDayThenHour(seconds);
    } else if i == 3 {
      ModHourThenMinute(seconds);
    }
  }

  /** From round `i` on, every part the loop emits carries the closed-form
      quotient of its unit. */
  lemma {:induction false} EmitFromValues(seconds: nat, i: nat)
    requires i <= |Intervals|
    ensures forall p :: p in EmitFrom(Remaining(seconds, i), i) ==>
      p.value == Quotient(seconds, p.unit)
    decreases |Intervals| - i
  {
    if i < |Intervals| {
      RemainingStep(seconds, i);
      EmitFromValues(seconds, i + 1);
      var parts := EmitFrom(Remaining(seconds, i), i);
      var rest := EmitFrom(Remaining(seconds, i + 1), i + 1);
      if Quotient(seconds, i) > 0 {
        assert parts == [Part(Quotient(seconds, i), i)] + rest;
      } else {
        assert parts == rest;
      }
    }
  }

  /** From round `i` on, every unit with a non-zero closed-form quotient is
      emitted with that quotient. */
  lemma {:induction false} EmitFromComplete(seconds: nat, i: nat)
    requires i <= |Intervals|
    ensures forall u :: i <= u < |Intervals| && Quotient(seconds, u) > 0 ==>
      Part(Quotient(seconds, u), u) in EmitFrom(Remaining(seconds, i), i)
    decreases |Intervals| - i
  {
    if i < |Intervals| {
      RemainingStep(seconds, i);
      EmitFromComplete(seconds, i + 1);
      var parts := EmitFrom(Remaining(seconds, i), i);
      var rest := EmitFrom(Remaining(seconds, i + 1), i + 1);
      if Quotient(seconds, i) > 0 {
        assert parts == [Part(Quotient(seconds, i), i)] + rest;
      } else {
        assert parts == rest;
      }
    }
  }

  /** What `format_time` emits for a whole number of seconds: the non-zero
      quotients and only those, each with its value, largest unit first, and
      together standing for the input. */
  lemma PartsMeaning(seconds: nat)
    ensures var parts := Parts(seconds);
      && ValidParts(parts) && InUnitOrder(parts)
      && Recombine(parts) == seconds
      && (forall p :: p in parts ==> p.value > 0 && p.value == Quotient(seconds, p.unit))
      && (forall u :: 0 <= u < |Intervals| && Quotient(seconds, u) > 0 ==>
            Part(Quotient(seconds, u), u) in parts)
  {
    EmitFromValues(seconds, 0);
    EmitFromComplete(seconds, 0);
    EmitFromRecombines(seconds, 0);
  }

  /** Nothing is emitted exactly when the input is under one second. */
  lemma NoPartsIffZero(seconds: nat)
    ensures Parts(seconds) == [] <==> seconds == 0
  {
    EmitFromRecombines(seconds, 0);
    var parts := Parts(seconds);
    if parts != [] {
      assert parts[0] in parts;
      var count := Intervals[parts[0].unit].count;
      PositiveProduct(parts[0].value, count);
    }
  }

  lemma PositiveProduct(a: nat, b: nat)
    requires a > 0 && b > 0
    ensures a * b > 0
  {
  }

  /** Nothing is emitted exactly when every quotient is 0. */
  lemma NoPartsIffNoQuotient(seconds: nat)
    ensures Parts(seconds) == [] <==> forall u :: 0 <= u < |Intervals| ==> Quotient(seconds, u) == 0
  {
    EmitFromValues(seconds, 0);
    EmitFromComplete(seconds, 0);
    var parts := Parts(seconds);
    if parts != [] {
      assert parts[0] in parts;
    }
  }

  /** After the years, every quotient is below the size of the next larger
      unit: fewer than 365 days, 24 hours, 60 minutes and 60 seconds. */
  lemma QuotientBounds(seconds: nat)
    ensures Quotient(seconds, 1) < 365
    ensures Quotient(seconds, 2) < 24
    ensures Quotient(seconds, 3) < 60
    ensures Quotient(seconds, 4) < 60
  {
  }

  lemma FormatTimeZero()
    ensures FormatTime(0) == "0 seconds"
  {
  }

  /** One year's worth of seconds is rendered as a single unit. */
  lemma FormatTimeOneYear()
    ensures FormatTime(31536000) == "1 years"
  {
    assert EmitFrom(0, 1) == [] by {
      assert EmitFrom(0, 5) == [];
      assert EmitFrom(0, 4) == [];
      assert EmitFrom(0, 3) == [];
      assert EmitFrom(0, 2) == [];
    }
    assert Parts(31536000) == [Part(1, 0)];
  }

  /** One round of the loop, with the unit's length given as a number. */
  lemma EmitStep(seconds: nat, i: nat, count: nat, value: nat, rest: nat)
    requires i < |Intervals| && Intervals[i].count == count
    requires value == seconds / count && rest == seconds % count
    ensures EmitFrom(seconds, i) == (if value > 0 then [Part(value, i)] else []) + EmitFrom(rest, i + 1)
  {
  }

  lemma PartsOfMinuteSecond()
    ensures Parts(61) == [Part(1, 3), Part(1, 4)]
  {
    EmitStep(0, 4, 1, 0, 0);
    EmitStep(1, 4, 1, 1, 0);
    EmitStep(61, 3, 60, 1, 1);
    EmitStep(61, 2, 3600, 0, 61);
    EmitStep(61, 1, 86400, 0, 61);
    EmitStep(61, 0, 31536000, 0, 61);
  }

  lemma RenderMinuteSecond()
    ensures Join(RenderAll([Part(1, 3), Part(1, 4)]), ", ") == "1 minutes, 1 seconds"
  {
    MinuteSecondTexts();
    JoinPair("1 minutes", "1 seconds", ", ");
    assert "1 minutes" + ", " + "1 seconds" == "1 minutes, 1 seconds";
  }

  /** The two parts of 61 seconds render one by one. */
  lemma MinuteSecondTexts()
    ensures RenderAll([Part(1, 3), Part(1, 4)]) == ["1 minutes", "1 seconds"]
  {
    RenderAllPair(Part(1, 3), Part(1, 4));
    RenderOne(3);
    RenderOne(4);
    assert Intervals[3].name == "minutes" && Intervals[4].name == "seconds";
    assert Render(Part(1, 3)) == "1 minutes" && Render(Part(1, 4)) == "1 seconds";
  }

  /** Two parts render as the list of their two texts. */
  lemma RenderAllPair(p: Part, q: Part)
    requires p.unit < |Intervals| && q.unit < |Intervals|
    ensures RenderAll([p, q]) == [Render(p), Render(q)]
  {
    assert [p, q][1..] == [q];
    assert [q][1..] == [];
  }

  /** A value of one renders as "1", a space and the unit's name. */
  lemma RenderOne(unit: nat)
    requires unit < |Intervals|
    ensures Render(Part(1, unit)) == "1 " + Intervals[unit].name
  {
    assert NatToString(1) == "1";
  }

  /** A minute and a second: two parts, smaller unit last, joined by ", ". */
  lemma FormatTimeMinuteSecond()
    ensures FormatTime(61) == "1 minutes, 1 seconds"
  {
    PartsOfMinuteSecond();
    RenderMinuteSecond();
  }
}
