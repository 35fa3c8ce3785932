/** Properties across the files: a tag's `M:SS` time, written by the browser and read back
    by `transform_csv.py`, and the "Events" sheet's columns as `transform_csv.py` looks them
    up. */
module Pipeline {
  import opened Wrappers
  import opened Text
  import opened TimeFormat
  import opened ExcelExport
  import opened TransformCsv

  /** `parse_time_to_seconds(formatTime(t), "")` is the whole seconds of `t`, for every
      non-negative position: the minutes and the two seconds digits come back as
      `M*60 + SS`. */
  lemma FormattedTimeParsesBack(t: real)
    requires 0.0 <= t
    ensures ParseTimeToSeconds(FormatTime(t), "") == Success(t.Floor as real)
  {
    var p := FormatTimeMatches(t);
    ParseOfMatch(FormatTime(t), p);
  }

  /** The rendering of a non-negative position matches the time pattern with no fraction,
      and the matched fields are worth its whole seconds. */
  lemma FormatTimeMatches(t: real) returns (p: TimeParts)
    requires 0.0 <= t
    ensures WellFormedParts(p) && p.fraction.None?
    ensures MatchTime(FormatTime(t)) == Some(p)
    ensures PartsValue(p) == t.Floor as real
  {
    var mm, ss := FormatTimeFields(t);
    p := TimeParts(mm, ss, None);
    DigitsAroundColon(mm, ss);
    assert PartsText(p) == mm + ":" + ss;
    MatchTimeComplete(FormatTime(t), p);
  }

  /** Text the time pattern matches, with no timestamp beside it, parses to the value of
      the matched fields. */
  lemma ParseOfMatch(r: string, p: TimeParts)
    requires WellFormedParts(p) && MatchTime(r) == Some(p)
    ensures ParseTimeToSeconds(r, "") == Success(PartsValue(p))
  {
    MatchTimeSound(r);
  }

  /** Digits around a colon have no whitespace to strip. */
  lemma DigitsAroundColon(mm: string, ss: string)
    requires |mm| > 0 && AllDigits(mm) && |ss| > 0 && AllDigits(ss)
    ensures Strip(mm + ":" + ss) == mm + ":" + ss
  {
    var r := mm + ":" + ss;
    assert r[0] == mm[0] && r[|r| - 1] == ss[|ss| - 1];
    StripIdentity(r);
  }

  /** A row of the "Events" sheet read back by `csv.DictReader`: every cell as text under
      its column name. How a number is rendered in a cell is not modelled, so the id and
      timestamp cells are given as text. */
  function ReadBack(r: EventRow, idText: string, timestampText: string): (row: Row)
    ensures row.Keys == set c | c in EventColumns
  {
    map[EventColumns[0] := Some(idText), EventColumns[1] := Some(timestampText),
        EventColumns[2] := Some(r.time), EventColumns[3] := Some(r.eventType),
        EventColumns[4] := Some(r.player), EventColumns[5] := Some(r.outcome),
        EventColumns[6] := Some(r.videoId)]
  }

  /** "Timestamp (seconds)" is none of the timestamp aliases, so `first` finds no
      timestamp and the time is taken from the "Time" column. */
  lemma ReadBackTimeColumns(r: EventRow, idText: string, timestampText: string)
    ensures First(ReadBack(r, idText, timestampText), TimestampAliases) == Some("")
    ensures First(ReadBack(r, idText, timestampText), TimeAliases) == Some(r.time)
  {
    var row := ReadBack(r, idText, timestampText);
    FirstNoAlias(row, TimestampAliases);
    FirstPresentAlias(row, TimeAliases, 0);
  }

  /** A tag whose `time` is `formatTime(timestamp)`, as the tag panel builds it, exported
      and read back, gets the whole seconds of its timestamp as its time: the fraction of
      a second is lost on the way. */
  lemma ExportedTagTime(e: Event, idText: string, timestampText: string)
    requires 0.0 <= e.timestamp && e.time == FormatTime(e.timestamp)
    ensures var row := ReadBack(EventRowOf(e), idText, timestampText);
      && First(row, TimeAliases).Some? && First(row, TimestampAliases).Some?
      && ParseTimeToSeconds(First(row, TimeAliases).value, First(row, TimestampAliases).value)
           == Success(e.timestamp.Floor as real)
  {
    ReadBackTimeColumns(EventRowOf(e), idText, timestampText);
    FormattedTimeParsesBack(e.timestamp);
  }
}
