/** The text of the Export CSV button's download: a fixed header row, then one
    row per stored session in storage order, fields joined by ',' and rows by
    a newline, with no quoting. */
module CsvExport {
  import opened Text
  import opened Sessions

  const Header: seq<string> := ["Date", "Start Time", "End Time", "Duration"]

  /** `field || "--"`: a missing (empty) field is shown as "--". */
  function OrDash(field: string): (r: string)
    ensures field != "" ==> r == field
    ensures field == "" ==> r == "--"
  {
    if field == "" then "--" else field
  }

  /** The four fields of one session's row. */
  function Row(s: Session): seq<string> {
    [s.date, s.startTime, OrDash(s.endTime), OrDash(s.duration)]
  }

  /** Each row joined by ',': the header first, then the sessions. */
  function Lines(sessions: seq<Session>): (lines: seq<string>)
    ensures |lines| == |sessions| + 1
    ensures lines[0] == Join(Header, ',')
    ensures forall i :: 0 <= i < |sessions| ==> lines[i + 1] == Join(Row(sessions[i]), ',')
  {
    [Join(Header, ',')] + seq(|sessions|, i requires 0 <= i < |sessions| => Join(Row(sessions[i]), ','))
  }

  /** The header line as it appears in the file. */
  lemma HeaderText()
    ensures Join(Header, ',') == "Date,Start Time,End Time,Duration"
  {
  }

  /** The exported text. */
  function ExportCsv(sessions: seq<Session>): string {
    Join(Lines(sessions), '\n')
  }

  // ---------------------------------------------------------------------------
  // Properties
  // ---------------------------------------------------------------------------

  /** No field of any session holds the character `c`. */
  predicate FieldsFree(sessions: seq<Session>, c: char) {
    forall i :: 0 <= i < |sessions| ==>
      var s := sessions[i];
      NoneIn(s.date, {c}) && NoneIn(s.startTime, {c}) && NoneIn(s.endTime, {c}) && NoneIn(s.duration, {c})
  }

  lemma JoinFree(parts: seq<string>, sep: char, c: char)
    requires c != sep
    requires forall i :: 0 <= i < |parts| ==> NoneIn(parts[i], {c})
    ensures NoneIn(Join(parts, sep), {c})
    decreases |parts|
  {
    if |parts| > 1 {
      JoinFree(parts[1..], sep, c);
    }
  }

  /** A row holds `c` only where a field does or where the joiner is `c`. */
  lemma RowLineFree(s: Session, c: char)
    requires c != ',' && c != '-'
    requires NoneIn(s.date, {c}) && NoneIn(s.startTime, {c}) && NoneIn(s.endTime, {c}) && NoneIn(s.duration, {c})
    ensures NoneIn(Join(Row(s), ','), {c})
  {
    assert NoneIn("--", {c});
    JoinFree(Row(s), ',', c);
  }

  lemma HeaderFree()
    ensures NoneIn(Join(Header, ','), {'\n'})
  {
    assert forall k :: 0 <= k < |Header| ==> NoneIn(Header[k], {'\n'});
    JoinFree(Header, ',', '\n');
  }

  lemma LinesFree(sessions: seq<Session>)
    requires FieldsFree(sessions, '\n')
    ensures forall k :: 0 <= k < |Lines(sessions)| ==> NoneIn(Lines(sessions)[k], {'\n'})
  {
    var lines := Lines(sessions);
    forall k | 0 <= k < |lines|
      ensures NoneIn(lines[k], {'\n'})
    {
      if k == 0 {
        HeaderFree();
      } else {
        var s := sessions[k - 1];
        assert NoneIn(s.date, {'\n'}) && NoneIn(s.startTime, {'\n'});
        assert NoneIn(s.endTime, {'\n'}) && NoneIn(s.duration, {'\n'});
        RowLineFree(s, '\n');
        assert lines[(k - 1) + 1] == Join(Row(s), ',');
      }
    }
  }

  /** When no field holds a newline, the export splits into exactly one line
      more than there are sessions: the header, then each session's fields
      joined by ',', in storage order. An empty list exports the header alone. */
  lemma ExportLines(sessions: seq<Session>)
    requires FieldsFree(sessions, '\n')
    ensures Split(ExportCsv(sessions), {'\n'}) == Lines(sessions)
    ensures var lines := Split(ExportCsv(sessions), {'\n'});
      && |lines| == |sessions| + 1
      && lines[0] == "Date,Start Time,End Time,Duration"
      && forall i :: 0 <= i < |sessions| ==> lines[i + 1] == Join(Row(sessions[i]), ',')
    ensures sessions == [] ==> ExportCsv(sessions) == "Date,Start Time,End Time,Duration"
  {
    LinesFree(sessions);
    SplitJoin(Lines(sessions), '\n');
    HeaderText();
  }

  /** When moreover no field holds a comma, every session's line splits back
      into its four fields, "--" standing for a missing end time or duration. */
  lemma ExportFields(sessions: seq<Session>, i: nat)
    requires FieldsFree(sessions, '\n') && FieldsFree(sessions, ',')
    requires i < |sessions|
    ensures var lines := Split(ExportCsv(sessions), {'\n'});
      |lines| == |sessions| + 1 && Split(lines[i + 1], {','}) == Row(sessions[i])
  {
    var s := sessions[i];
    assert NoneIn(s.date, {','}) && NoneIn(s.startTime, {','});
    assert NoneIn(s.endTime, {','}) && NoneIn(s.duration, {','});
    RowRoundTrip(s);
    ExportLines(sessions);
    assert Split(ExportCsv(sessions), {'\n'})[i + 1] == Join(Row(s), ',');
  }

  lemma RowRoundTrip(s: Session)
    requires NoneIn(s.date, {','}) && NoneIn(s.startTime, {','})
    requires NoneIn(s.endTime, {','}) && NoneIn(s.duration, {','})
    ensures Split(Join(Row(s), ','), {','}) == Row(s)
  {
    var row := Row(s);
    assert NoneIn("--", {','});
    assert forall k :: 0 <= k < |row| ==> NoneIn(row[k], {','});
    SplitJoin(row, ',');
  }
}
