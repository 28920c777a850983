/** The totals `renderSessions` computes over the stored sessions: the weekly
    minutes, the per-date minutes that feed the chart (dates in the order they
    were first seen), and the weekly summary's hours and remaining minutes.

    The totals are stated for any reader of duration strings: the page reads
    them with `Duration.ParseMinutesAsWritten`, and `Duration.ParseMinutes` is
    the corrected reader. */
module Aggregation {
  import opened Duration
  import opened Sessions

  /** The minutes a session adds to both totals: none when its duration is
      empty (falsy), otherwise what `read` makes of the duration. */
  function Contribution(s: Session, read: string -> nat): nat {
    if s.duration == "" then 0 else read(s.duration)
  }

  /** `weeklyMinutes` once the loop over the sessions, in storage order, is done. */
  function WeeklyMinutes(sessions: seq<Session>, read: string -> nat): nat {
    if |sessions| == 0 then 0
    else WeeklyMinutes(sessions[..|sessions| - 1], read) + Contribution(sessions[|sessions| - 1], read)
  }

  // ---------------------------------------------------------------------------
  // Per-date totals
  // ---------------------------------------------------------------------------

  /** One entry of `dailyDurations`. */
  datatype DayTotal = DayTotal(date: string, minutes: nat)

  function Dates(days: seq<DayTotal>): (ds: seq<string>)
    ensures |ds| == |days|
    ensures forall i :: 0 <= i < |days| ==> ds[i] == days[i].date
  {
    if |days| == 0 then [] else [days[0].date] + Dates(days[1..])
  }

  predicate Distinct(xs: seq<string>) {
    forall i, j :: 0 <= i < j < |xs| ==> xs[i] != xs[j]
  }

  function SumMinutes(days: seq<DayTotal>): nat {
    if |days| == 0 then 0 else days[0].minutes + SumMinutes(days[1..])
  }

  /** `dailyDurations[date] = (dailyDurations[date] || 0) + m` on an object
      whose (non-numeric) keys keep their insertion order: an existing date
      grows in place, a new date is added at the end. */
  function AddToDay(days: seq<DayTotal>, date: string, m: nat): seq<DayTotal> {
    if |days| == 0 then [DayTotal(date, m)]
    else if days[0].date == date then [DayTotal(date, days[0].minutes + m)] + days[1..]
    else [days[0]] + AddToDay(days[1..], date, m)
  }

  /** `dailyDurations` once the loop over the sessions, in storage order, is done. */
  function DailyTotals(sessions: seq<Session>, read: string -> nat): seq<DayTotal> {
    if |sessions| == 0 then []
    else
      var prev := DailyTotals(sessions[..|sessions| - 1], read);
      var s := sessions[|sessions| - 1];
      if s.duration == "" then prev else AddToDay(prev, s.date, read(s.duration))
  }

  /** Adding to a date already present keeps the list of dates; adding to a
      new date appends it. */
  lemma {:induction false} AddToDayDates(days: seq<DayTotal>, date: string, m: nat)
    ensures Dates(AddToDay(days, date, m)) == if date in Dates(days) then Dates(days) else Dates(days) + [date]
    decreases |days|
  {
    if |days| > 0 {
      var ds := Dates(days);
      assert ds == [days[0].date] + Dates(days[1..]);
      var r := AddToDay(days, date, m);
      if days[0].date == date {
        assert r[1..] == days[1..];
        assert Dates(r) == [date] + Dates(r[1..]);
      } else {
        var rest := AddToDay(days[1..], date, m);
        AddToDayDates(days[1..], date, m);
        assert r[1..] == rest;
        assert Dates(r) == [days[0].date] + Dates(rest);
        assert date in ds <==> date in Dates(days[1..]);
      }
    }
  }

  /** The total across dates grows by exactly the minutes added. */
  lemma {:induction false} AddToDaySum(days: seq<DayTotal>, date: string, m: nat)
    ensures SumMinutes(AddToDay(days, date, m)) == SumMinutes(days) + m
    decreases |days|
  {
    if |days| > 0 {
      var r := AddToDay(days, date, m);
      if days[0].date == date {
        assert r[1..] == days[1..];
      } else {
        AddToDaySum(days[1..], date, m);
        assert r[1..] == AddToDay(days[1..], date, m);
      }
    }
  }

  /** With distinct dates, the entry of `date` grows by the minutes added and
      every other entry stays as it was, in place. */
  lemma {:induction false} AddToDayEntry(days: seq<DayTotal>, date: string, m: nat, i: nat)
    requires Distinct(Dates(days)) && i < |days|
    ensures i < |AddToDay(days, date, m)|
    ensures AddToDay(days, date, m)[i] ==
      DayTotal(days[i].date, days[i].minutes + (if days[i].date == date then m else 0))
    decreases i
  {
    var r := AddToDay(days, date, m);
    var ds := Dates(days);
    if days[0].date == date {
      if i > 0 {
        assert ds[0] != ds[i];
        assert r[i] == days[1..][i - 1];
      }
    } else if i > 0 {
      assert Distinct(Dates(days[1..])) by {
        assert Dates(days[1..]) == ds[1..];
      }
      AddToDayEntry(days[1..], date, m, i - 1);
      assert r[1..] == AddToDay(days[1..], date, m);
    }
  }

  /** A date not yet present enters at the end with the minutes added. */
  lemma {:induction false} AddToDayNew(days: seq<DayTotal>, date: string, m: nat)
    requires date !in Dates(days)
    ensures AddToDay(days, date, m) == days + [DayTotal(date, m)]
    decreases |days|
  {
    if |days| > 0 {
      var ds := Dates(days);
      assert ds[0] == days[0].date;
      assert Dates(days[1..]) == ds[1..];
      AddToDayNew(days[1..], date, m);
      assert days == [days[0]] + days[1..];
    }
  }

  // ---------------------------------------------------------------------------
  // Reference definitions
  // ---------------------------------------------------------------------------

  /** The sessions that count towards the totals: those with a duration. */
  function Counted(sessions: seq<Session>): seq<Session> {
    if |sessions| == 0 then []
    else
      var p := Counted(sessions[..|sessions| - 1]);
      if sessions[|sessions| - 1].duration == "" then p else p + [sessions[|sessions| - 1]]
  }

  /** The dates of the counted sessions, in storage order, repeats included. */
  function CountedDates(sessions: seq<Session>): seq<string> {
    if |sessions| == 0 then []
    else
      var p := CountedDates(sessions[..|sessions| - 1]);
      var s := sessions[|sessions| - 1];
      if s.duration == "" then p else p + [s.date]
  }

  /** `xs` with every repeat of an earlier element dropped. */
  function FirstSeen(xs: seq<string>): (r: seq<string>)
    ensures Distinct(r)
    ensures forall x :: x in r <==> x in xs
  {
    if |xs| == 0 then []
    else
      var p := FirstSeen(xs[..|xs| - 1]);
      var x := xs[|xs| - 1];
      assert xs == xs[..|xs| - 1] + [x];
      if x in p then p else p + [x]
  }

  /** The minutes the sessions of one date add up to. */
  function DayMinutes(sessions: seq<Session>, date: string, read: string -> nat): nat {
    if |sessions| == 0 then 0
    else
      var s := sessions[|sessions| - 1];
      DayMinutes(sessions[..|sessions| - 1], date, read) + (if s.date == date then Contribution(s, read) else 0)
  }

  // ---------------------------------------------------------------------------
  // Properties
  // ---------------------------------------------------------------------------

  /** The dates of the per-date totals are the dates of the counted sessions,
      each once, in the order each was first seen. */
  lemma {:induction false} DailyTotalsDates(sessions: seq<Session>, read: string -> nat)
    ensures Dates(DailyTotals(sessions, read)) == FirstSeen(CountedDates(sessions))
    ensures Distinct(Dates(DailyTotals(sessions, read)))
    decreases |sessions|
  {
    if |sessions| > 0 {
      var p := sessions[..|sessions| - 1];
      var s := sessions[|sessions| - 1];
      DailyTotalsDates(p, read);
      if s.duration != "" {
        AddToDayDates(DailyTotals(p, read), s.date, read(s.duration));
        var cd := CountedDates(sessions);
        assert cd[..|cd| - 1] == CountedDates(p);
      }
    }
  }

  /** `days` holds, for each of its dates, the minutes of that date's
      sessions, and every date it lacks has none. */
  ghost predicate TotalsMatch(sessions: seq<Session>, days: seq<DayTotal>, read: string -> nat) {
    && (forall i :: 0 <= i < |days| ==> days[i].minutes == DayMinutes(sessions, days[i].date, read))
    && (forall d :: d !in Dates(days) ==> DayMinutes(sessions, d, read) == 0)
  }

  /** Each per-date total is the sum of that date's counted sessions, and a
      date missing from the list has no counted session at all. */
  lemma {:induction false} DailyTotalsMinutes(sessions: seq<Session>, read: string -> nat)
    ensures TotalsMatch(sessions, DailyTotals(sessions, read), read)
    decreases |sessions|
  {
    if |sessions| > 0 {
      var p := sessions[..|sessions| - 1];
      var s := sessions[|sessions| - 1];
      DailyTotalsMinutes(p, read);
      DailyTotalsDates(p, read);
      assert p + [s] == sessions;
      if s.duration == "" {
        NoDurationStep(p, s, read);
      } else {
        DurationStep(p, s, read);
      }
    }
  }

  lemma DayMinutesStep(p: seq<Session>, s: Session, d: string, read: string -> nat)
    ensures DayMinutes(p + [s], d, read) == DayMinutes(p, d, read) + (if s.date == d then Contribution(s, read) else 0)
  {
    assert (p + [s])[..|p|] == p;
  }

  lemma NoDurationStep(p: seq<Session>, s: Session, read: string -> nat)
    requires s.duration == ""
    requires TotalsMatch(p, DailyTotals(p, read), read)
    ensures TotalsMatch(p + [s], DailyTotals(p + [s], read), read)
  {
    assert (p + [s])[..|p|] == p;
    var prev := DailyTotals(p, read);
    assert DailyTotals(p + [s], read) == prev;
    forall d
      ensures DayMinutes(p + [s], d, read) == DayMinutes(p, d, read)
    {
      DayMinutesStep(p, s, d, read);
    }
  }

  lemma DurationStep(p: seq<Session>, s: Session, read: string -> nat)
    requires s.duration != ""
    requires Distinct(Dates(DailyTotals(p, read)))
    requires TotalsMatch(p, DailyTotals(p, read), read)
    ensures TotalsMatch(p + [s], DailyTotals(p + [s], read), read)
  {
    var sessions := p + [s];
    assert sessions[..|p|] == p;
    var prev := DailyTotals(p, read);
    var m := read(s.duration);
    var r := AddToDay(prev, s.date, m);
    assert DailyTotals(sessions, read) == r;
    AddToDayDates(prev, s.date, m);
    forall i | 0 <= i < |r|
      ensures r[i].minutes == DayMinutes(sessions, r[i].date, read)
    {
      ListedDateStep(p, s, read, prev, i);
    }
    forall d | d !in Dates(r)
      ensures DayMinutes(sessions, d, read) == 0
    {
      DayMinutesStep(p, s, d, read);
    }
  }

  /** One entry of the per-date totals after a session with a duration. */
  lemma ListedDateStep(p: seq<Session>, s: Session, read: string -> nat, prev: seq<DayTotal>, i: nat)
    requires s.duration != "" && Distinct(Dates(prev))
    requires i < |prev| ==> prev[i].minutes == DayMinutes(p, prev[i].date, read)
    requires s.date !in Dates(prev) ==> DayMinutes(p, s.date, read) == 0
    requires i < |AddToDay(prev, s.date, read(s.duration))|
    ensures var r := AddToDay(prev, s.date, read(s.duration));
      r[i].minutes == DayMinutes(p + [s], r[i].date, read)
  {
    var m := read(s.duration);
    var r := AddToDay(prev, s.date, m);
    if i < |prev| {
      AddToDayEntry(prev, s.date, m, i);
      DayMinutesStep(p, s, prev[i].date, read);
    } else {
      AddToDayDates(prev, s.date, m);
      assert s.date !in Dates(prev);
      AddToDayNew(prev, s.date, m);
      assert r[i] == DayTotal(s.date, m);
      DayMinutesStep(p, s, s.date, read);
    }
  }

  lemma {:induction false} SumOfDailyTotals(sessions: seq<Session>, read: string -> nat)
    ensures SumMinutes(DailyTotals(sessions, read)) == WeeklyMinutes(sessions, read)
    decreases |sessions|
  {
    if |sessions| > 0 {
      var p := sessions[..|sessions| - 1];
      var s := sessions[|sessions| - 1];
      SumOfDailyTotals(p, read);
      if s.duration != "" {
        AddToDaySum(DailyTotals(p, read), s.date, read(s.duration));
      }
    }
  }

  /** Sessions without a duration contribute to neither total: dropping them
      leaves both totals as they were. */
  lemma {:induction false} EmptyDurationsIgnored(sessions: seq<Session>, read: string -> nat)
    ensures WeeklyMinutes(Counted(sessions), read) == WeeklyMinutes(sessions, read)
    ensures DailyTotals(Counted(sessions), read) == DailyTotals(sessions, read)
    decreases |sessions|
  {
    if |sessions| > 0 {
      var p := sessions[..|sessions| - 1];
      var s := sessions[|sessions| - 1];
      EmptyDurationsIgnored(p, read);
      if s.duration != "" {
        var c := Counted(sessions);
        assert c[..|c| - 1] == Counted(p);
      }
    }
  }

  /** The weekly summary's hours and remaining minutes: `Math.floor(w / 60)`
      and `w % 60` on a non-negative total. */
  function WeeklySummary(weeklyMinutes: nat): (r: (nat, nat))
    ensures r.0 * 60 + r.1 == weeklyMinutes && r.1 < 60
  {
    (weeklyMinutes / 60, weeklyMinutes % 60)
  }

  /** A pause adds the rounded length of the finished session to the weekly
      total as the corrected reader sees it. The page's own reader agrees
      when that length is 0 or at least an hour, and otherwise adds sixty
      times too much. */
  lemma PauseAddsRoundedMinutes(t: Tracker, now: int, loc: Locale)
    requires t.current.Some? && t.current.value.startMs <= now
    ensures var after := Pause(t, now, loc).after.sessions;
      var rounded := RoundedMinutes(now - t.current.value.startMs);
      && WeeklyMinutes(after, ParseMinutes) == WeeklyMinutes(t.sessions, ParseMinutes) + rounded
      && WeeklyMinutes(after, ParseMinutesAsWritten) ==
           WeeklyMinutes(t.sessions, ParseMinutesAsWritten) + (if 0 < rounded < 60 then 60 * rounded else rounded)
  {
    var record := Completed(t.current.value, now, loc);
    var after := Pause(t, now, loc).after.sessions;
    var rounded := RoundedMinutes(now - t.current.value.startMs);
    assert after == t.sessions + [record] by {
      PauseStores(t, now, loc);
    }
    assert WeeklyMinutes(after, ParseMinutes) == WeeklyMinutes(t.sessions, ParseMinutes) + rounded by {
      RecordContribution(t.current.value, now, loc);
      WeeklyMinutesAppend(t.sessions, record, ParseMinutes);
    }
    assert WeeklyMinutes(after, ParseMinutesAsWritten) ==
           WeeklyMinutes(t.sessions, ParseMinutesAsWritten) + (if 0 < rounded < 60 then 60 * rounded else rounded) by {
      RecordContribution(t.current.value, now, loc);
      WeeklyMinutesAppend(t.sessions, record, ParseMinutesAsWritten);
    }
  }

  lemma RecordContribution(cur: ActiveSession, now: int, loc: Locale)
    requires cur.startMs <= now
    ensures var rounded := RoundedMinutes(now - cur.startMs);
      && Contribution(Completed(cur, now, loc), ParseMinutes) == rounded
      && Contribution(Completed(cur, now, loc), ParseMinutesAsWritten) ==
           (if 0 < rounded < 60 then 60 * rounded else rounded)
  {
    var rounded := RoundedMinutes(now - cur.startMs);
    var d := FormatMinutes(rounded);
    CalculateDurationFormats(cur.startMs, now);
    assert Completed(cur, now, loc).duration == d;
    assert d != "";
    FormatRoundTrip(rounded);
    FormatRoundTripAsWritten(rounded);
    assert Contribution(Completed(cur, now, loc), ParseMinutes) == ParseMinutes(d);
    assert Contribution(Completed(cur, now, loc), ParseMinutesAsWritten) == ParseMinutesAsWritten(d);
  }

  lemma WeeklyMinutesAppend(sessions: seq<Session>, s: Session, read: string -> nat)
    ensures WeeklyMinutes(sessions + [s], read) == WeeklyMinutes(sessions, read) + Contribution(s, read)
  {
    assert (sessions + [s])[..|sessions|] == sessions;
  }
}
