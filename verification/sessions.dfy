/** The session lifecycle: the Start, Pause and Clear Data buttons as
    transitions of a tracker state that holds at most one in-flight session
    and the list of completed sessions the page keeps in storage. */
module Sessions {
  import opened Wrappers
  import opened Duration

  /** A completed session as stored: display strings only. An empty end time
      or duration stands for a missing (falsy) field. */
  datatype Session = Session(date: string, startTime: string, endTime: string, duration: string)

  /** The session in flight: its start as a clock reading in milliseconds and
      the display date taken at that instant. */
  datatype ActiveSession = ActiveSession(startMs: int, date: string)

  /** What the page remembers: the current-session slot and the stored list. */
  datatype Tracker = Tracker(current: Option<ActiveSession>, sessions: seq<Session>)

  /** The two alerts a misplaced click raises. */
  datatype Warning = AlreadyActive | NoActiveSession

  /** A transition's outcome: the new state and the alert raised, if any. */
  datatype Step = Step(after: Tracker, warning: Option<Warning>)

  /** The locale formatting the page applies to a clock reading; its output
      depends on the runtime's locale tables and is taken as given. */
  datatype Locale = Locale(formatDate: int -> string, formatTime: int -> string)

  const Empty := Tracker(None, [])

  /** The Start button at clock reading `now`. */
  function Start(t: Tracker, now: int, loc: Locale): (r: Step)
    ensures t.current.Some? ==> r.after == t && r.warning == Some(AlreadyActive)
    ensures t.current.None? ==> r.warning.None?
    ensures t.current.None? ==>
      r.after.current == Some(ActiveSession(now, loc.formatDate(now)))
    ensures r.after.sessions == t.sessions
  {
    if t.current.Some? then Step(t, Some(AlreadyActive))
    else Step(Tracker(Some(ActiveSession(now, loc.formatDate(now))), t.sessions), None)
  }

  /** The completed-session record the Pause button builds. */
  function Completed(cur: ActiveSession, now: int, loc: Locale): Session
    requires cur.startMs <= now
  {
    Session(cur.date, loc.formatTime(cur.startMs), loc.formatTime(now),
            CalculateDuration(cur.startMs, now))
  }

  /** A completed record's duration reads back as the rounded elapsed minutes. */
  lemma CompletedReads(cur: ActiveSession, now: int, loc: Locale)
    requires cur.startMs <= now
    ensures ParseMinutes(Completed(cur, now, loc).duration) == RoundedMinutes(now - cur.startMs)
  {
    CalculateDurationReads(cur.startMs, now);
  }

  /** `saveSession`: read the stored list, push one record, write it back. */
  function SaveSession(stored: seq<Session>, s: Session): (r: seq<Session>)
    ensures |r| == |stored| + 1
    ensures r[..|stored|] == stored && r[|stored|] == s
  {
    stored + [s]
  }

  /** The Pause button at clock reading `now`; the clock is taken not to run
      backwards past the start of the session in flight. */
  function Pause(t: Tracker, now: int, loc: Locale): (r: Step)
    requires t.current.Some? ==> t.current.value.startMs <= now
    ensures t.current.None? ==> r.after == t && r.warning == Some(NoActiveSession)
    ensures t.current.Some? ==> r.warning.None? && r.after.current.None?
    ensures t.current.Some? ==>
      var cur, n := t.current.value, |t.sessions|;
      && |r.after.sessions| == n + 1
      && r.after.sessions[..n] == t.sessions
      && r.after.sessions[n].date == cur.date
      && r.after.sessions[n].startTime == loc.formatTime(cur.startMs)
      && r.after.sessions[n].endTime == loc.formatTime(now)
      && r.after.sessions[n].duration == CalculateDuration(cur.startMs, now)
  {
    if t.current.None? then Step(t, Some(NoActiveSession))
    else
      var cur := t.current.value;
      var record := Completed(cur, now, loc);
      var stored := SaveSession(t.sessions, record);
      assert stored[|t.sessions|] == record;
      Step(Tracker(None, stored), None)
  }

  /** A pause from a session in flight stores exactly the completed record. */
  lemma PauseStores(t: Tracker, now: int, loc: Locale)
    requires t.current.Some? && t.current.value.startMs <= now
    ensures Pause(t, now, loc).after.sessions == t.sessions + [Completed(t.current.value, now, loc)]
  {
  }

  /** The Clear Data button, with the user's answer to the confirmation. */
  function Clear(t: Tracker, confirmed: bool): (r: Step)
    ensures r.warning.None?
    ensures confirmed ==> r.after.current.None? && r.after.sessions == []
    ensures !confirmed ==> r.after == t
  {
    if confirmed then Step(Empty, None) else Step(t, None)
  }

  // ---------------------------------------------------------------------------
  // Runs of button presses
  // ---------------------------------------------------------------------------

  datatype Action = StartAt(now: int) | PauseAt(now: int) | ClearData(confirmed: bool)

  /** A press the tracker can take in state `t`: a Pause finds the clock at or
      past the start of the session in flight. */
  predicate Pressable(t: Tracker, a: Action) {
    a.PauseAt? && t.current.Some? ==> t.current.value.startMs <= a.now
  }

  function Apply(t: Tracker, a: Action, loc: Locale): Step
    requires Pressable(t, a)
  {
    match a
    case StartAt(now) => Start(t, now, loc)
    case PauseAt(now) => Pause(t, now, loc)
    case ClearData(confirmed) => Clear(t, confirmed)
  }

  /** Every press of `acts`, taken in order from `t`, is pressable in the
      state it meets. The clock may be set back between sessions. */
  predicate CanRun(t: Tracker, acts: seq<Action>, loc: Locale)
    decreases |acts|
  {
    |acts| == 0 || (Pressable(t, acts[0]) && CanRun(Apply(t, acts[0], loc).after, acts[1..], loc))
  }

  /** The state after pressing the buttons in `acts` in order. */
  function Run(t: Tracker, acts: seq<Action>, loc: Locale): Tracker
    requires CanRun(t, acts, loc)
    decreases |acts|
  {
    if |acts| == 0 then t
    else Run(Apply(t, acts[0], loc).after, acts[1..], loc)
  }

  /** Stored sessions are only ever appended to: a run without a confirmed
      clear keeps every earlier record, in place. */
  lemma {:induction false} RunAppendOnly(t: Tracker, acts: seq<Action>, loc: Locale)
    requires CanRun(t, acts, loc)
    requires forall i :: 0 <= i < |acts| ==> acts[i] != ClearData(true)
    ensures |t.sessions| <= |Run(t, acts, loc).sessions|
    ensures Run(t, acts, loc).sessions[..|t.sessions|] == t.sessions
    decreases |acts|
  {
    if |acts| > 0 {
      var u := Apply(t, acts[0], loc).after;
      assert u.sessions[..|t.sessions|] == t.sessions;
      RunAppendOnly(u, acts[1..], loc);
      var final := Run(u, acts[1..], loc);
      assert final.sessions[..|t.sessions|] == final.sessions[..|u.sessions|][..|t.sessions|];
    }
  }

  /** A confirmed clear anywhere in a run wipes everything stored before it:
      what the run ends with is what the presses after the clear produce from
      an empty tracker. */
  lemma {:induction false} RunAfterClear(t: Tracker, before: seq<Action>, after: seq<Action>, loc: Locale)
    requires CanRun(t, before + [ClearData(true)] + after, loc)
    ensures CanRun(Empty, after, loc)
    ensures Run(t, before + [ClearData(true)] + after, loc) == Run(Empty, after, loc)
    decreases |before|
  {
    var acts := before + [ClearData(true)] + after;
    if |before| == 0 {
      assert acts[1..] == after;
    } else {
      assert acts[1..] == before[1..] + [ClearData(true)] + after;
      RunAfterClear(Apply(t, acts[0], loc).after, before[1..], after, loc);
    }
  }

  /** No clock reading in `acts` is earlier than `t`. */
  predicate NotBefore(t: int, acts: seq<Action>) {
    forall i :: 0 <= i < |acts| ==> acts[i].ClearData? || t <= acts[i].now
  }

  /** The clock readings in `acts` never decrease. */
  predicate ClockOrdered(acts: seq<Action>) {
    forall i, j :: 0 <= i < j < |acts| ==>
      acts[i].ClearData? || acts[j].ClearData? || acts[i].now <= acts[j].now
  }

  /** A run whose clock never runs backwards, also relative to the start of
      the session in flight when it begins. */
  predicate WellTimed(t: Tracker, acts: seq<Action>) {
    && ClockOrdered(acts)
    && (t.current.Some? ==> NotBefore(t.current.value.startMs, acts))
  }

  /** A clock that never runs backwards is enough for a run to go through. */
  lemma {:induction false} WellTimedCanRun(t: Tracker, acts: seq<Action>, loc: Locale)
    requires WellTimed(t, acts)
    ensures CanRun(t, acts, loc)
    decreases |acts|
  {
    if |acts| > 0 {
      assert Pressable(t, acts[0]);
      var u := Apply(t, acts[0], loc).after;
      var rest := acts[1..];
      forall i, j | 0 <= i < j < |rest|
        ensures rest[i].ClearData? || rest[j].ClearData? || rest[i].now <= rest[j].now
      {
        assert rest[i] == acts[i + 1] && rest[j] == acts[j + 1];
      }
      if u.current.Some? {
        forall i | 0 <= i < |rest| && !rest[i].ClearData?
          ensures u.current.value.startMs <= rest[i].now
        {
          assert rest[i] == acts[i + 1];
        }
      }
      WellTimedCanRun(u, rest, loc);
    }
  }

  /** A start-pause cycle from idle, followed by any further presses: the run
      goes through exactly when the further presses go through from the state
      the cycle leaves, and ends where they lead. */
  lemma CycleThen(t: Tracker, s: int, e: int, rest: seq<Action>, loc: Locale)
    requires t.current.None? && s <= e
    ensures var w := Tracker(None, t.sessions + [Completed(ActiveSession(s, loc.formatDate(s)), e, loc)]);
      && (CanRun(t, [StartAt(s), PauseAt(e)] + rest, loc) <==> CanRun(w, rest, loc))
      && (CanRun(w, rest, loc) ==> Run(t, [StartAt(s), PauseAt(e)] + rest, loc) == Run(w, rest, loc))
  {
    var acts := [StartAt(s), PauseAt(e)] + rest;
    var u := Start(t, s, loc).after;
    var w := Pause(u, e, loc).after;
    assert acts[1..] == [PauseAt(e)] + rest;
    assert acts[1..][1..] == rest;
    assert w == Tracker(None, t.sessions + [Completed(ActiveSession(s, loc.formatDate(s)), e, loc)]);
  }

  lemma SetBackNotWellTimed(acts: seq<Action>, i: nat, j: nat)
    requires i < j < |acts| && !acts[i].ClearData? && !acts[j].ClearData? && acts[j].now < acts[i].now
    ensures !WellTimed(Empty, acts)
  {
  }

  /** A start from idle followed by a pause at a later reading stores exactly
      one record, for the interval between the two readings. */
  lemma StartPauseCycle(t: Tracker, s: int, e: int, loc: Locale)
    requires t.current.None? && s <= e
    ensures CanRun(t, [StartAt(s), PauseAt(e)], loc)
    ensures Run(t, [StartAt(s), PauseAt(e)], loc) ==
      Tracker(None, t.sessions + [Session(loc.formatDate(s), loc.formatTime(s), loc.formatTime(e), CalculateDuration(s, e))])
  {
    var w := Tracker(None, t.sessions + [Completed(ActiveSession(s, loc.formatDate(s)), e, loc)]);
    assert [StartAt(s), PauseAt(e)] == [StartAt(s), PauseAt(e)] + [];
    assert CanRun(w, [], loc) && Run(w, [], loc) == w;
    CycleThen(t, s, e, [], loc);
  }

  /** The clock may be set back between sessions: a second session that
      starts before the first one ended still goes through, and both are
      stored, in order. Such a run is not one whose clock never runs
      backwards. */
  lemma ClockSetBack(s1: int, e1: int, s2: int, e2: int, loc: Locale)
    requires s1 <= e1 && s2 <= e2 && s2 < e1
    ensures var acts := [StartAt(s1), PauseAt(e1), StartAt(s2), PauseAt(e2)];
      && !WellTimed(Empty, acts)
      && CanRun(Empty, acts, loc)
      && Run(Empty, acts, loc).sessions ==
           [Completed(ActiveSession(s1, loc.formatDate(s1)), e1, loc),
            Completed(ActiveSession(s2, loc.formatDate(s2)), e2, loc)]
  {
    var acts := [StartAt(s1), PauseAt(e1), StartAt(s2), PauseAt(e2)];
    SetBackNotWellTimed(acts, 1, 2);
    var second := [StartAt(s2), PauseAt(e2)];
    var w1 := Tracker(None, [Completed(ActiveSession(s1, loc.formatDate(s1)), e1, loc)]);
    StartPauseCycle(w1, s2, e2, loc);
    assert acts == [StartAt(s1), PauseAt(e1)] + second;
    CycleThen(Empty, s1, e1, second, loc);
  }

  /** A second start while a session is in flight changes nothing and warns. */
  lemma StartTwiceWarns(t: Tracker, s1: int, s2: int, loc: Locale)
    requires t.current.None?
    ensures
      var first := Start(t, s1, loc).after;
      Start(first, s2, loc) == Step(first, Some(AlreadyActive))
  {
  }
}
