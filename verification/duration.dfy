/** The duration engine: the elapsed time between two clock readings rounded
    to the nearest five minutes and rendered as "{h}h {m}m" (or "{m}m" below
    an hour), and the reading of such a string back into minutes. */
module Duration {
  import opened Text

  const MsPerMinute := 60000
  /** One rounding step, five minutes, in milliseconds. */
  const MsPerStep := 300000
  /** Half a rounding step, two and a half minutes, in milliseconds. */
  const HalfStepMs := 150000

  /** The characters the duration reader splits on. */
  const UnitLetters: set<char> := {'h', 'm'}

  /** `Math.round(elapsedMs / 60000 / 5) * 5` for a non-negative elapsed time:
      the whole minutes, rounded to the nearest multiple of five, halves up. */
  function RoundedMinutes(elapsedMs: nat): (t: nat)
    ensures t % 5 == 0
    ensures elapsedMs - HalfStepMs < t * MsPerMinute <= elapsedMs + HalfStepMs
  {
    (elapsedMs + HalfStepMs) / MsPerStep * 5
  }

  /** The bounds above pin the rounded value down: no other multiple of five
      lies within two and a half minutes (halves up) of the elapsed time. */
  lemma RoundedMinutesUnique(elapsedMs: nat, t: int)
    requires t % 5 == 0
    requires elapsedMs - HalfStepMs < t * MsPerMinute <= elapsedMs + HalfStepMs
    ensures t == RoundedMinutes(elapsedMs)
  {
    var k := t / 5;
    var q := (elapsedMs + HalfStepMs) / MsPerStep;
    assert t * MsPerMinute == k * MsPerStep;
    assert q * MsPerStep <= elapsedMs + HalfStepMs < q * MsPerStep + MsPerStep;
    StepsCompare(k, q);
  }

  lemma StepsCompare(k: int, q: int)
    requires k * MsPerStep <= q * MsPerStep + MsPerStep - 1
    requires q * MsPerStep < k * MsPerStep + MsPerStep
    ensures k == q
  {
  }

  /** The rendering of a total number of minutes: "{h}h {m}m" with
      h = total div 60 and m = total mod 60, or "{m}m" when h is 0. */
  function FormatMinutes(total: nat): (s: string)
    ensures 0 < |s| && s[|s| - 1] == 'm'
    ensures 'h' in s <==> total >= 60
  {
    var hours := total / 60;
    var minutes := total % 60;
    NotALetter(NatToString(hours));
    NotALetter(NatToString(minutes));
    if hours == 0 then NatToString(minutes) + "m"
    else
      var s := NatToString(hours) + "h " + NatToString(minutes) + "m";
      assert s[|NatToString(hours)|] == 'h';
      s
  }

  lemma NotALetter(digits: string)
    requires AllDigits(digits)
    ensures NoneIn(digits, UnitLetters)
    ensures 'h' !in digits
  {
  }

  /** `calculateDuration(start, end)` on two clock readings in milliseconds. */
  function CalculateDuration(startMs: int, endMs: int): (d: string)
    requires startMs <= endMs
    ensures ParseMinutes(d) == RoundedMinutes(endMs - startMs)
    ensures 'h' in d <==> RoundedMinutes(endMs - startMs) >= 60
  {
    FormatRoundTrip(RoundedMinutes(endMs - startMs));
    FormatMinutes(RoundedMinutes(endMs - startMs))
  }

  lemma CalculateDurationFormats(startMs: int, endMs: int)
    requires startMs <= endMs
    ensures CalculateDuration(startMs, endMs) == FormatMinutes(RoundedMinutes(endMs - startMs))
  {
  }

  lemma CalculateDurationReads(startMs: int, endMs: int)
    requires startMs <= endMs
    ensures ParseMinutes(CalculateDuration(startMs, endMs)) == RoundedMinutes(endMs - startMs)
  {
    FormatRoundTrip(RoundedMinutes(endMs - startMs));
  }

  /** The pieces a rendered duration splits into at its unit letters. */
  lemma FormatPieces(total: nat)
    ensures total < 60 ==>
      Split(FormatMinutes(total), UnitLetters) == [NatToString(total), ""]
    ensures total >= 60 ==>
      Split(FormatMinutes(total), UnitLetters) == [NatToString(total / 60), " " + NatToString(total % 60), ""]
  {
    if total < 60 {
      HourlessPieces(total);
    } else {
      HourlyPieces(total);
    }
  }

  lemma HourlessPieces(total: nat)
    requires total < 60
    ensures Split(FormatMinutes(total), UnitLetters) == [NatToString(total), ""]
  {
    var m := NatToString(total);
    NotALetter(m);
    assert total / 60 == 0 && total % 60 == total;
    assert FormatMinutes(total) == m + "m";
    assert m + "m" == m + ['m'] + "";
    SplitAtSeparator(m, 'm', "", UnitLetters);
  }

  lemma HourlyPieces(total: nat)
    requires total >= 60
    ensures Split(FormatMinutes(total), UnitLetters) == [NatToString(total / 60), " " + NatToString(total % 60), ""]
  {
    var h := NatToString(total / 60);
    var m := NatToString(total % 60);
    NotALetter(h);
    NotALetter(m);
    var tail := (" " + m) + ['m'] + "";
    assert FormatMinutes(total) == h + ['h'] + tail;
    assert NoneIn(" " + m, UnitLetters);
    SplitAtSeparator(" " + m, 'm', "", UnitLetters);
    assert Split(tail, UnitLetters) == [" " + m, ""];
    SplitAtSeparator(h, 'h', tail, UnitLetters);
  }

  // ---------------------------------------------------------------------------
  // Reading a duration back
  // ---------------------------------------------------------------------------

  /** The reader as the page writes it: split on 'h' and 'm', take the first
      piece as hours and the second (if any) as minutes, each through
      `Number(piece) || 0`. It reads positionally, so an hour-less "{m}m" is
      read with m in the hours slot. */
  function ParseMinutesAsWritten(d: string): (r: nat)
    ensures NoneIn(d, UnitLetters) ==> r == 60 * NumberOrZero(d)
  {
    var parts := Split(d, UnitLetters);
    NumberOrZero(parts[0]) * 60 + (if |parts| > 1 then NumberOrZero(parts[1]) else 0)
  }

  /** The reader as evidently intended: a duration without an 'h' is a count
      of minutes; one with an 'h' is read as above. */
  function ParseMinutes(d: string): (r: nat)
    ensures NoneIn(d, UnitLetters) ==> r == NumberOrZero(d)
    ensures 'h' in d ==> r == ParseMinutesAsWritten(d)
  {
    if 'h' in d then ParseMinutesAsWritten(d)
    else NumberOrZero(Split(d, UnitLetters)[0])
  }

  /** The page's reader on any "{H}h {M}m": H hours and M minutes, whatever
      the sizes of H and M. */
  lemma ParseHoursMinutes(hours: nat, minutes: nat)
    ensures ParseMinutesAsWritten(NatToString(hours) + "h " + NatToString(minutes) + "m") == hours * 60 + minutes
  {
    HoursMinutesPieces(hours, minutes);
    ReadHourlyPieces(NatToString(hours) + "h " + NatToString(minutes) + "m", hours, minutes);
  }

  /** A string whose pieces are an hours number and a blank-led minutes
      number is read as their total in minutes. */
  lemma ReadHourlyPieces(d: string, hours: nat, minutes: nat)
    requires Split(d, UnitLetters) == [NatToString(hours), " " + NatToString(minutes), ""]
    ensures ParseMinutesAsWritten(d) == hours * 60 + minutes
  {
    var parts := Split(d, UnitLetters);
    assert parts[0] == "" + NatToString(hours);
    NumberOrZeroReadsRendered("", hours);
    NumberOrZeroReadsRendered(" ", minutes);
  }

  lemma HoursMinutesPieces(hours: nat, minutes: nat)
    ensures Split(NatToString(hours) + "h " + NatToString(minutes) + "m", UnitLetters) ==
      [NatToString(hours), " " + NatToString(minutes), ""]
  {
    var h, m := NatToString(hours), NatToString(minutes);
    NotALetter(h);
    NotALetter(m);
    var tail := (" " + m) + ['m'] + "";
    assert h + "h " + m + "m" == h + ['h'] + tail;
    assert NoneIn(" " + m, UnitLetters);
    SplitAtSeparator(" " + m, 'm', "", UnitLetters);
    SplitAtSeparator(h, 'h', tail, UnitLetters);
  }

  /** The page's reader on any hour-less "{N}m": N lands in the hours slot. */
  lemma ParseMinutesOnly(n: nat)
    ensures ParseMinutesAsWritten(NatToString(n) + "m") == 60 * n
  {
    var m := NatToString(n);
    NotALetter(m);
    assert m + "m" == m + ['m'] + "";
    SplitAtSeparator(m, 'm', "", UnitLetters);
    var parts := Split(m + "m", UnitLetters);
    assert parts == [m, ""];
    assert parts[0] == "" + m;
    NumberOrZeroReadsRendered("", n);
  }

  /** The as-written reader recovers a rendered total exactly when the total is
      0 or at least an hour; a total strictly between reads sixty times too big. */
  lemma FormatRoundTripAsWritten(total: nat)
    ensures ParseMinutesAsWritten(FormatMinutes(total)) == total <==> total == 0 || total >= 60
    ensures 0 < total < 60 ==> ParseMinutesAsWritten(FormatMinutes(total)) == 60 * total
  {
    if total < 60 {
      HourlessReadAsWritten(total);
    } else {
      HourlyRead(total);
    }
  }

  lemma HourlessReadAsWritten(total: nat)
    requires total < 60
    ensures ParseMinutesAsWritten(FormatMinutes(total)) == 60 * total
  {
    var parts := Split(FormatMinutes(total), UnitLetters);
    FormatPieces(total);
    assert parts[0] == "" + NatToString(total);
    NumberOrZeroReadsRendered("", total);
  }

  lemma HourlyRead(total: nat)
    requires total >= 60
    ensures ParseMinutesAsWritten(FormatMinutes(total)) == total
  {
    var h, m := total / 60, total % 60;
    assert FormatMinutes(total) == NatToString(h) + "h " + NatToString(m) + "m";
    ParseHoursMinutes(h, m);
  }

  /** Forty-five minutes, as `calculateDuration` renders them, are read as
      forty-five hours. */
  lemma MinutesOnlyMisread()
    ensures FormatMinutes(45) == "45m"
    ensures ParseMinutesAsWritten("45m") == 2700
    ensures ParseMinutes("45m") == 45
  {
    assert NatToString(45) == "45" by {
      assert NatToString(4) == "4";
      assert NatToString(45) == NatToString(4) + [DigitChar(5)];
    }
    FormatRoundTripAsWritten(45);
    FormatRoundTrip(45);
  }

  /** The corrected reader recovers every rendered total. */
  lemma FormatRoundTrip(total: nat)
    ensures ParseMinutes(FormatMinutes(total)) == total
  {
    FormatPieces(total);
    FormatRoundTripAsWritten(total);
    if total < 60 {
      NumberOrZeroReadsRendered("", total);
      assert "" + NatToString(total) == NatToString(total);
    }
  }

  /** Two worked examples: 47 minutes rounds to "45m" and 132 minutes to "2h 10m". */
  lemma CalculateDurationExamples()
    ensures CalculateDuration(0, 2820000) == "45m"
    ensures CalculateDuration(0, 7920000) == "2h 10m"
  {
    assert RoundedMinutes(2820000) == 45;
    assert RoundedMinutes(7920000) == 130;
    assert NatToString(45) == "45" by {
      assert NatToString(4) == "4";
    }
    assert FormatMinutes(45) == "45m";
    assert NatToString(2) == "2";
    assert NatToString(10) == "10" by {
      assert NatToString(1) == "1";
      assert NatToString(0) == "0";
    }
    assert FormatMinutes(130) == "2h 10m";
  }
}
