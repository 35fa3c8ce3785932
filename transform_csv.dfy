/** backend/scripts/transform_csv.py: normalisation of the exported tag CSV into the
    manifest the clip extractor reads. CSV reading and writing are not modelled: the input
    is the sequence of rows `csv.DictReader` yields, the output the sequence of rows handed
    to `DictWriter.writerow`. */
module TransformCsv {
  import opened Wrappers
  import opened Text
  import opened Numeric
  import opened Counting

  /** A row as `csv.DictReader` yields it, header to field. A header whose field is missing
      on a short line maps to `None` (DictReader's `restval`). */
  type Row = map<string, Option<string>>

  /** The aliases under which each input column is looked up, in order of preference. The
      second timestamp alias is spelled "Timestamq" in the source and is kept so. */
  const EventIdAliases: seq<string> := ["Event ID", "event_id", "id"]
  const TimestampAliases: seq<string> := ["Timestamp", "Timestamq", "timestamp"]
  const TimeAliases: seq<string> := ["Time", "time"]
  const EventTypeAliases: seq<string> := ["Event Type", "Action", "event_type"]
  const PlayerAliases: seq<string> := ["Player", "player", "athlete"]
  const OutcomeAliases: seq<string> := ["Outcome", "outcome", "result"]
  const VideoIdAliases: seq<string> := ["Video ID", "video_id", "video"]

  /** Python's `str(b)` of a bool. */
  function PyStrBool(b: bool): string {
    if b then "True" else "False"
  }

  /** `first(row, names)`: the field under the first alias present in the row, or "" when
      none is. The blank test wraps the comparison in `str(...)`, which is never empty, so a
      blank field is returned like any other. A `None` field makes `.strip()` raise; that
      exception is `None` here. */
  function First(row: Row, names: seq<string>): Option<string> {
    if names == [] then Some("")
    else
      var later := First(row, names[1..]);
      if names[0] in row then
        match row[names[0]]
        case None => None
        case Some(v) => if PyStrBool(Strip(v) != "") != "" then Some(v) else later
      else later
  }

  /** `first` answers with the field of the first alias the row has, blank or not. */
  lemma {:induction false} FirstPresentAlias(row: Row, names: seq<string>, k: nat)
    requires k < |names| && names[k] in row
    requires forall j :: 0 <= j < k ==> names[j] !in row
    ensures First(row, names) == row[names[k]]
    decreases k
  {
    if k > 0 {
      FirstPresentAlias(row, names[1..], k - 1);
    }
  }

  /** `first` answers "" when the row has none of the aliases. */
  lemma {:induction false} FirstNoAlias(row: Row, names: seq<string>)
    requires forall j :: 0 <= j < |names| ==> names[j] !in row
    ensures First(row, names) == Some("")
    decreases |names|
  {
    if names != [] {
      FirstNoAlias(row, names[1..]);
    }
  }

  /** The groups of `^\s*(\d+):(\d+)(?:\.(\d+))?\s*$`. */
  datatype TimeParts = TimeParts(minutes: string, seconds: string, fraction: Option<string>)

  predicate WellFormedParts(p: TimeParts) {
    && |p.minutes| > 0 && AllDigits(p.minutes)
    && |p.seconds| > 0 && AllDigits(p.seconds)
    && (p.fraction.Some? ==> |p.fraction.value| > 0 && AllDigits(p.fraction.value))
  }

  /** The text the groups were matched from, without the surrounding whitespace. */
  function PartsText(p: TimeParts): string {
    p.minutes + ":" + p.seconds + (if p.fraction.Some? then "." + p.fraction.value else "")
  }

  /** The pattern between the surrounding `\s*`: digits ':' digits, optionally '.' digits. */
  function MatchText(t: string): Option<TimeParts> {
    var mm := BeforeFirst(t, ':');
    if mm == t then None
    else
      var rest := t[|mm| + 1..];
      var ss := BeforeFirst(rest, '.');
      var p := TimeParts(mm, ss, if ss == rest then None else Some(rest[|ss| + 1..]));
      if WellFormedParts(p) then Some(p) else None
  }

  /** `_TIME.match(s)`: the whitespace at either end is what `\s*` consumes. */
  function MatchTime(s: string): Option<TimeParts> {
    MatchText(Strip(s))
  }

  /** What matches has the shape of the pattern, and its groups spell out the text. */
  lemma MatchTimeSound(s: string)
    requires MatchTime(s).Some?
    ensures WellFormedParts(MatchTime(s).value) && PartsText(MatchTime(s).value) == Strip(s)
  {
    MatchTextSound(Strip(s));
  }

  lemma MatchTextSound(t: string)
    requires MatchText(t).Some?
    ensures WellFormedParts(MatchText(t).value) && PartsText(MatchText(t).value) == t
  {
    var mm := BeforeFirst(t, ':');
    BeforeFirstSplit(t, ':');
    var rest := t[|mm| + 1..];
    var ss := BeforeFirst(rest, '.');
    if ss != rest {
      BeforeFirstSplit(rest, '.');
    }
  }

  /** The other direction: every text of that shape matches, with exactly its groups. */
  lemma MatchTimeComplete(s: string, p: TimeParts)
    requires WellFormedParts(p) && Strip(s) == PartsText(p)
    ensures MatchTime(s) == Some(p)
  {
    MatchTextComplete(Strip(s), p);
  }

  lemma MatchTextComplete(t: string, p: TimeParts)
    requires WellFormedParts(p) && t == PartsText(p)
    ensures MatchText(t) == Some(p)
  {
    var tail := p.seconds + (if p.fraction.Some? then "." + p.fraction.value else "");
    assert t == p.minutes + [':'] + tail;
    SplitAtFirst(p.minutes, ':', tail);
    if p.fraction.Some? {
      assert tail == p.seconds + ['.'] + p.fraction.value;
      SplitAtFirst(p.seconds, '.', p.fraction.value);
    } else {
      BeforeFirstWithout(p.seconds, '.');
    }
  }

  lemma SplitAtFirst(a: string, c: char, b: string)
    requires c !in a
    ensures BeforeFirst(a + [c] + b, c) == a
    ensures (a + [c] + b)[|a| + 1..] == b
  {
    BeforeFirstOfAppend(a, c, b);
  }

  /** `int(mm)*60 + int(ss) + (float(f"0.{ms}") if ms else 0.0)`. */
  function PartsValue(p: TimeParts): real
    requires WellFormedParts(p)
  {
    (DigitsValue(p.minutes) * 60 + DigitsValue(p.seconds)) as real
    + (if p.fraction.Some? then FractionValue(p.fraction.value) else 0.0)
  }

  const UnparsableTime: string := "Unparsable time"

  /** `parse_time_to_seconds(time_str, ts_value)`: a non-empty timestamp that parses as a
      number wins; then the `M:SS[.frac]` pattern on the time text; then the time text as a
      number; otherwise ValueError("Unparsable time"). */
  function ParseTimeToSeconds(timeStr: string, tsValue: string): Result<real, string> {
    if tsValue != "" && ParseFloat(tsValue).Some? then Success(ParseFloat(tsValue).value)
    else if timeStr != "" then
      match MatchTime(timeStr)
      case Some(p) =>
        MatchTimeSound(timeStr);
        Success(PartsValue(p))
      case None =>
        match ParseFloat(timeStr)
        case Some(v) => Success(v)
        case None => Failure(UnparsableTime)
    else Failure(UnparsableTime)
  }

  /** A usable timestamp takes priority over the time text, and the call fails, always
      with "Unparsable time", exactly when neither the timestamp, nor the pattern, nor the
      time text as a number gives a value. */
  lemma ParseTimeToSecondsCases(timeStr: string, tsValue: string)
    ensures tsValue != "" && ParseFloat(tsValue).Some? ==>
              ParseTimeToSeconds(timeStr, tsValue) == Success(ParseFloat(tsValue).value)
    ensures ParseTimeToSeconds(timeStr, tsValue).Failure? <==>
              && (tsValue == "" || ParseFloat(tsValue).None?)
              && (timeStr == "" || (MatchTime(timeStr).None? && ParseFloat(timeStr).None?))
    ensures ParseTimeToSeconds(timeStr, tsValue).Failure? ==>
              ParseTimeToSeconds(timeStr, tsValue).error == UnparsableTime
  {
  }

  /** With no timestamp, digits ':' digits parse to M*60 + SS; the seconds field is not
      bounded by 60, so "1:75" is 135 seconds. */
  lemma ParseMinutesSeconds(s: string, mm: string, ss: string)
    requires |mm| > 0 && AllDigits(mm) && |ss| > 0 && AllDigits(ss)
    requires Strip(s) == mm + ":" + ss
    ensures ParseTimeToSeconds(s, "") == Success((DigitsValue(mm) * 60 + DigitsValue(ss)) as real)
  {
    var p := TimeParts(mm, ss, None);
    assert PartsText(p) == mm + ":" + ss;
    MatchTimeComplete(s, p);
    assert s != "";
    assert PartsValue(p) == (DigitsValue(mm) * 60 + DigitsValue(ss)) as real;
  }

  /** `ACTION_MAP.get(k)`. */
  function ActionMap(k: string): Option<string> {
    if k == "hit" || k == "attack" then Some("spike")
    else if k == "assist" then Some("set")
    else if k == "receive" then Some("pass")
    else None
  }

  /** `canonicalize_action(raw)`: strip, lower-case, then the synonyms of ACTION_MAP. The
      result is always stripped and lower-case, and is never itself a synonym. */
  function CanonicalizeAction(raw: string): (a: string)
    ensures NoEdgeSpace(a) && Lower(a) == a
    ensures ActionMap(Lower(Strip(raw))).None? ==> a == Lower(Strip(raw))
    ensures ActionMap(Lower(Strip(raw))).Some? ==> a == ActionMap(Lower(Strip(raw))).value
    ensures ActionMap(a).None?
  {
    var k := Lower(Strip(raw));
    LowerKeepsEdges(Strip(raw));
    LowerIdempotent(Strip(raw));
    match ActionMap(k)
    case Some(v) => v
    case None => k
  }

  /** Canonical names are fixed points: canonicalising twice is canonicalising once. */
  lemma CanonicalizeActionIdempotent(raw: string)
    ensures CanonicalizeAction(CanonicalizeAction(raw)) == CanonicalizeAction(raw)
  {
    var a := CanonicalizeAction(raw);
    StripIdentity(a);
    assert Lower(Strip(a)) == a;
    if ActionMap(Lower(Strip(raw))).Some? {
      assert a == "spike" || a == "set" || a == "pass";
    }
    assert ActionMap(a).None?;
  }

  const SuccessWords: set<string> := {"successful", "success", "true", "1", "yes", "made", "win", "won"}
  const FailureWords: set<string> := {"failure", "fail", "false", "0", "no", "miss", "lost"}

  /** `normalize_outcome(raw)`: 1 for the success words after strip and lower-case, 0 for
      everything else (the failure words and unknown text alike). */
  function NormalizeOutcome(raw: string): (o: nat)
    ensures o <= 1
    ensures o == 1 <==> Lower(Strip(raw)) in SuccessWords
  {
    var k := Lower(Strip(raw));
    if k in SuccessWords then 1
    else if k in FailureWords then 0
    else 0
  }

  /** A character `\w` matches, restricted to ASCII. */
  predicate IsWordChar(c: char) {
    IsAsciiAlnum(c) || c == '_'
  }

  /** `\.(mp4|mov|m4v)\b` (case-insensitive) matches at `i`. */
  predicate ExtensionAt(s: string, i: nat) {
    && i + 4 <= |s|
    && s[i] == '.'
    && Lower(s[i + 1..i + 4]) in {"mp4", "mov", "m4v"}
    && (i + 4 == |s| || !IsWordChar(s[i + 4]))
  }

  /** The leftmost position at or after `from` where the extension matches, or `|s|`. */
  function SearchExtension(s: string, from: nat): (i: nat)
    requires from <= |s|
    ensures from <= i <= |s|
    ensures i < |s| ==> ExtensionAt(s, i)
    ensures forall j :: from <= j < i ==> !ExtensionAt(s, j)
    decreases |s| - from
  {
    if from == |s| then |s|
    else if ExtensionAt(s, from) then from
    else SearchExtension(s, from + 1)
  }

  /** `video_id_to_filename(video_id)`: the stripped id, cut right after the leftmost
      recognised video extension when there is one. */
  function VideoIdToFilename(videoId: string): (f: string)
    ensures StartsWith(Strip(videoId), f)
    ensures (forall j :: 0 <= j < |Strip(videoId)| ==> !ExtensionAt(Strip(videoId), j)) ==> f == Strip(videoId)
    ensures f != Strip(videoId) ==>
              && |f| >= 4 && ExtensionAt(Strip(videoId), |f| - 4)
              && forall j :: 0 <= j < |f| - 4 ==> !ExtensionAt(Strip(videoId), j)
  {
    var s := Strip(videoId);
    var i := SearchExtension(s, 0);
    if i < |s| then s[..i + 4] else s
  }

  /** The clean video name: every "video_" removed, cut at the first '_', and one trailing
      ".mp4" removed. */
  function CleanVideoName(vidId: string): (name: string)
    ensures '_' !in name
    ensures !Contains(name, "video_")
    ensures StartsWith(ReplaceAll(vidId, "video_", ""), name)
    ensures var rest := ReplaceAll(vidId, "video_", "");
            || name == rest || (|name| < |rest| && rest[|name|] == '_')
            || (|name| + 4 <= |rest| && rest[|name|..|name| + 4] == ".mp4"
                && (|name| + 4 == |rest| || rest[|name| + 4] == '_'))
    ensures var cut := BeforeFirst(ReplaceAll(vidId, "video_", ""), '_');
            if EndsWith(cut, ".mp4") then name + ".mp4" == cut else name == cut
  {
    var c := BeforeFirst(ReplaceAll(vidId, "video_", ""), '_');
    var name := if EndsWith(c, ".mp4") then c[..|c| - 4] else c;
    assert StartsWith(c, name);
    NoUnderscoreNoVideoPrefix(name);
    name
  }

  lemma NoUnderscoreNoVideoPrefix(s: string)
    requires '_' !in s
    ensures !Contains(s, "video_")
  {
    forall at: nat | at <= |s| ensures !OccursAt(s, "video_", at) {
      if at + 6 <= |s| {
        assert s[at..at + 6][5] != '_';
      }
    }
  }

  /** The clean file name: the clean name with ".mp4" put back. */
  function CleanFilename(name: string): (f: string)
    ensures EndsWith(f, ".mp4") && f[..|f| - 4] == name
  {
    name + ".mp4"
  }

  /** What a row parses into before the duplicate check. */
  datatype Parsed = Parsed(videoName: string, tSec: real, action: string, player: string, outcome: nat)

  /** The duplicate key `(clean_video_name, round(t_sec, 3), action, player)`; the rounded
      time is kept as the integer number of milliseconds it stands for. */
  datatype Key = Key(videoName: string, tMillis: int, action: string, player: string)

  function KeyOf(p: Parsed): Key {
    Key(p.videoName, RoundHalfEven(p.tSec * 1000.0), p.action, p.player)
  }

  const NoneHasNoStrip: string := "'NoneType' object has no attribute 'strip'"

  /** The body of the `try` up to the duplicate check: the seven look-ups (a `None` field
      raises), the time, the action, the outcome and the clean name. */
  function ProcessRow(row: Row): Result<Parsed, string> {
    var eventId := First(row, EventIdAliases);
    var tsVal := First(row, TimestampAliases);
    var timeStr := First(row, TimeAliases);
    var rawAct := First(row, EventTypeAliases);
    var player := First(row, PlayerAliases);
    var outc := First(row, OutcomeAliases);
    var vidId := First(row, VideoIdAliases);
    if eventId.None? || tsVal.None? || timeStr.None? || rawAct.None? || player.None? || outc.None? || vidId.None? then
      Failure(NoneHasNoStrip)
    else
      match ParseTimeToSeconds(timeStr.value, tsVal.value)
      case Failure(e) => Failure(e)
      case Success(t) =>
        Success(Parsed(CleanVideoName(vidId.value), t, CanonicalizeAction(rawAct.value), player.value,
                       NormalizeOutcome(outc.value)))
  }

  /** A row that parses carries the canonical action, a 0/1 outcome and a clean name
      without '_'; a row that does not fails with the `None` field error or with
      "Unparsable time". */
  lemma ProcessRowFields(row: Row)
    ensures ProcessRow(row).Success? ==>
              && First(row, EventTypeAliases).Some? && First(row, PlayerAliases).Some?
              && ProcessRow(row).value.action == CanonicalizeAction(First(row, EventTypeAliases).value)
              && ProcessRow(row).value.player == First(row, PlayerAliases).value
              && ProcessRow(row).value.outcome <= 1
              && '_' !in ProcessRow(row).value.videoName
    ensures ProcessRow(row).Failure? ==> ProcessRow(row).error == NoneHasNoStrip || ProcessRow(row).error == UnparsableTime
  {
    var outc := First(row, OutcomeAliases);
    var vidId := First(row, VideoIdAliases);
    var tsVal := First(row, TimestampAliases);
    var timeStr := First(row, TimeAliases);
    if tsVal.Some? && timeStr.Some? {
      ParseTimeToSecondsCases(timeStr.value, tsVal.value);
    }
  }

  /** A row of the manifest: event_id, video_id, video_filename, t_event_sec, action,
      player, outcome. */
  datatype OutRow = OutRow(
    eventId: nat,
    videoId: string,
    videoFilename: string,
    tEventSec: real,
    action: string,
    player: string,
    outcome: nat)

  function OutRowOf(eventId: nat, p: Parsed): OutRow {
    OutRow(eventId, p.videoName, CleanFilename(p.videoName), p.tSec, p.action, p.player, p.outcome)
  }

  function RowKey(o: OutRow): Key {
    Key(o.videoId, RoundHalfEven(o.tEventSec * 1000.0), o.action, o.player)
  }

  /** The actions of the written rows, in order. */
  function Actions(out: seq<OutRow>): (acts: seq<string>)
    ensures |acts| == |out|
  {
    if out == [] then [] else Actions(out[..|out| - 1]) + [out[|out| - 1].action]
  }

  /** The loop's variables. */
  datatype State = State(
    total: nat,
    written: nat,
    skipped: nat,
    counts: map<string, nat>,
    seen: set<Key>,
    out: seq<OutRow>,
    eventCounter: nat)

  const Initial: State := State(0, 0, 0, map[], {}, [], 1)

  /** One iteration of the loop over the rows, given what the `try` body made of the row. */
  function Step(st: State, r: Result<Parsed, string>): State {
    match r
    case Failure(_) => st.(total := st.total + 1, skipped := st.skipped + 1)
    case Success(p) =>
      if KeyOf(p) in st.seen then st.(total := st.total + 1, skipped := st.skipped + 1)
      else
        st.(total := st.total + 1,
            seen := st.seen + {KeyOf(p)},
            out := st.out + [OutRowOf(st.eventCounter, p)],
            written := st.written + 1,
            eventCounter := st.eventCounter + 1,
            counts := st.counts[p.action := Get(st.counts, p.action) + 1])
  }

  /** The state after the loop has seen `rows`, `parse` standing for the body of the `try`
      up to the duplicate check. */
  function Transform(parse: Row -> Result<Parsed, string>, rows: seq<Row>): State {
    if rows == [] then Initial else Step(Transform(parse, rows[..|rows| - 1]), parse(rows[|rows| - 1]))
  }

  /** The written rows are numbered 1, 2, ... in order. */
  predicate Numbered(out: seq<OutRow>) {
    forall i :: 0 <= i < |out| ==> out[i].eventId == i + 1
  }

  /** The `seen` set holds exactly the keys of the written rows. */
  ghost predicate SeenIsKeys(seen: set<Key>, out: seq<OutRow>) {
    forall k :: k in seen <==> exists i :: 0 <= i < |out| && RowKey(out[i]) == k
  }

  /** No two written rows share a key. */
  predicate KeysDistinct(out: seq<OutRow>) {
    forall i, j :: 0 <= i < j < |out| ==> RowKey(out[i]) != RowKey(out[j])
  }

  /** `counts` tallies the actions of the written rows. */
  ghost predicate CountsTally(counts: map<string, nat>, out: seq<OutRow>) {
    forall a :: Get(counts, a) == Count(Actions(out), a)
  }

  /** What the loop keeps true: every row is counted once as written or skipped, the
      written rows are numbered 1..written, the `seen` set holds exactly their keys, no two
      of them share a key, and `counts` tallies their actions. */
  ghost predicate Consistent(st: State) {
    && st.written + st.skipped == st.total
    && |st.out| == st.written
    && st.eventCounter == st.written + 1
    && Numbered(st.out)
    && SeenIsKeys(st.seen, st.out)
    && KeysDistinct(st.out)
    && CountsTally(st.counts, st.out)
  }

  lemma AppendKeys(seen: set<Key>, out: seq<OutRow>, o: OutRow)
    requires SeenIsKeys(seen, out) && KeysDistinct(out) && RowKey(o) !in seen
    ensures SeenIsKeys(seen + {RowKey(o)}, out + [o]) && KeysDistinct(out + [o])
  {
    var out' := out + [o];
    forall k ensures k in seen + {RowKey(o)} <==> exists i :: 0 <= i < |out'| && RowKey(out'[i]) == k {
      if k in seen {
        var i :| 0 <= i < |out| && RowKey(out[i]) == k;
        assert out'[i] == out[i];
      }
      if k == RowKey(o) {
        assert out'[|out|] == o;
      }
      if exists i :: 0 <= i < |out'| && RowKey(out'[i]) == k {
        var i :| 0 <= i < |out'| && RowKey(out'[i]) == k;
        if i < |out| {
          assert out'[i] == out[i];
        }
      }
    }
    forall i, j | 0 <= i < j < |out'| ensures RowKey(out'[i]) != RowKey(out'[j]) {
      assert out'[i] == out[i];
      if j < |out| {
        assert out'[j] == out[j];
      }
    }
  }

  lemma AppendCounts(counts: map<string, nat>, out: seq<OutRow>, o: OutRow)
    requires CountsTally(counts, out)
    ensures CountsTally(counts[o.action := Get(counts, o.action) + 1], out + [o])
  {
    assert (out + [o])[..|out|] == out;
    assert Actions(out + [o]) == Actions(out) + [o.action];
    forall a ensures Get(counts[o.action := Get(counts, o.action) + 1], a) == Count(Actions(out + [o]), a) {
      CountSnoc(Actions(out), o.action, a);
    }
  }

  lemma StepConsistent(st: State, r: Result<Parsed, string>)
    requires Consistent(st)
    ensures Consistent(Step(st, r))
    ensures Step(st, r).total == st.total + 1
  {
    if r.Success? && KeyOf(r.value) !in st.seen {
      var o := OutRowOf(st.eventCounter, r.value);
      assert RowKey(o) == KeyOf(r.value);
      AppendKeys(st.seen, st.out, o);
      AppendCounts(st.counts, st.out, o);
      assert Numbered(st.out + [o]) by {
        assert forall i :: 0 <= i < |st.out| ==> (st.out + [o])[i] == st.out[i];
      }
    }
  }

  /** The loop's invariant holds after any number of rows, and `total` counts them all,
      whatever the rows parse to. */
  lemma {:induction false} TransformConsistent(parse: Row -> Result<Parsed, string>, rows: seq<Row>)
    ensures Consistent(Transform(parse, rows))
    ensures Transform(parse, rows).total == |rows|
    decreases |rows|
  {
    if rows != [] {
      TransformConsistent(parse, rows[..|rows| - 1]);
      StepConsistent(Transform(parse, rows[..|rows| - 1]), parse(rows[|rows| - 1]));
    }
  }

  /** The printed action counts add up to the number of rows written. */
  lemma TransformCountsSum(parse: Row -> Result<Parsed, string>, rows: seq<Row>)
    ensures var st := Transform(parse, rows);
            SumCounts(Distinct(Actions(st.out)), Actions(st.out)) == st.written
  {
    TransformConsistent(parse, rows);
    SumCountsOfDistinct(Actions(Transform(parse, rows).out));
  }

  lemma {:induction false} SeenGrows(parse: Row -> Result<Parsed, string>, rows: seq<Row>, n: nat)
    requires n <= |rows|
    ensures Transform(parse, rows[..n]).seen <= Transform(parse, rows).seen
    decreases |rows| - n
  {
    if n < |rows| {
      var m := |rows| - 1;
      assert rows[..m][..n] == rows[..n];
      SeenGrows(parse, rows[..m], n);
    }
    assert rows[..|rows|] == rows;
  }

  /** Nothing that parses is lost: the key of every parseable row belongs to a written row,
      whether that row was written for it or for an earlier duplicate. */
  lemma TransformComplete(parse: Row -> Result<Parsed, string>, rows: seq<Row>, k: nat)
    requires k < |rows| && parse(rows[k]).Success?
    ensures exists i :: 0 <= i < |Transform(parse, rows).out|
                        && RowKey(Transform(parse, rows).out[i]) == KeyOf(parse(rows[k]).value)
  {
    assert rows[..k + 1][..k] == rows[..k];
    assert KeyOf(parse(rows[k]).value) in Transform(parse, rows[..k + 1]).seen;
    SeenGrows(parse, rows, k + 1);
    TransformConsistent(parse, rows);
  }

  /** Nothing is invented: the i-th written row is built, with id i + 1, from a row that
      parsed. */
  lemma {:induction false} TransformSound(parse: Row -> Result<Parsed, string>, rows: seq<Row>, i: nat)
    requires i < |Transform(parse, rows).out|
    ensures exists k :: 0 <= k < |rows| && parse(rows[k]).Success?
                        && Transform(parse, rows).out[i] == OutRowOf(i + 1, parse(rows[k]).value)
    decreases |rows|
  {
    var m := |rows| - 1;
    var before := Transform(parse, rows[..m]);
    TransformConsistent(parse, rows[..m]);
    if i < |before.out| {
      TransformSound(parse, rows[..m], i);
      var k :| 0 <= k < m && parse(rows[..m][k]).Success?
               && before.out[i] == OutRowOf(i + 1, parse(rows[..m][k]).value);
      assert rows[..m][k] == rows[k];
    } else {
      assert parse(rows[m]).Success?;
    }
  }

  /** Every manifest row has a 0/1 outcome, a clean name without '_', and that name with
      ".mp4" as its file name. */
  lemma TransformCsvRowsClean(rows: seq<Row>, i: nat)
    requires i < |Transform(ProcessRow, rows).out|
    ensures var o := Transform(ProcessRow, rows).out[i];
            && o.outcome <= 1 && '_' !in o.videoId && o.videoFilename == o.videoId + ".mp4"
            && o.eventId == i + 1
  {
    TransformSound(ProcessRow, rows, i);
    var k :| 0 <= k < |rows| && ProcessRow(rows[k]).Success?
             && Transform(ProcessRow, rows).out[i] == OutRowOf(i + 1, ProcessRow(rows[k]).value);
    ProcessRowFields(rows[k]);
  }

  lemma StepAppends(st: State, p: Parsed)
    requires KeyOf(p) !in st.seen
    ensures Step(st, Success(p)) ==
              State(st.total + 1, st.written + 1, st.skipped, st.counts[p.action := Get(st.counts, p.action) + 1],
                    st.seen + {KeyOf(p)}, st.out + [OutRowOf(st.eventCounter, p)], st.eventCounter + 1)
  {
  }

  lemma TransformSnoc(parse: Row -> Result<Parsed, string>, rows: seq<Row>, n: nat)
    requires n < |rows|
    ensures Transform(parse, rows[..n + 1]) == Step(Transform(parse, rows[..n]), parse(rows[n]))
  {
    assert rows[..n + 1][..n] == rows[..n];
  }

  /** The loop of `transform_csv` with the body of its `try` as `parse`: the manifest rows
      and the counters it reports are those of the loop specification, and they are
      consistent: written + skipped == total == the number of rows, ids are 1..written, no
      two written rows share a key. */
  method TransformRows(parse: Row -> Result<Parsed, string>, rows: seq<Row>)
    returns (out: seq<OutRow>, total: nat, written: nat, skipped: nat, counts: map<string, nat>)
    ensures out == Transform(parse, rows).out && counts == Transform(parse, rows).counts
    ensures total == |rows| && written + skipped == total && |out| == written
    ensures forall i :: 0 <= i < |out| ==> out[i].eventId == i + 1
    ensures forall i, j :: 0 <= i < j < |out| ==> RowKey(out[i]) != RowKey(out[j])
  {
    total, written, skipped := 0, 0, 0;
    counts := map[];
    var seen: set<Key> := {};
    out := [];
    var eventCounter: nat := 1;
    for n := 0 to |rows|
      invariant State(total, written, skipped, counts, seen, out, eventCounter) == Transform(parse, rows[..n])
    {
      ghost var before := State(total, written, skipped, counts, seen, out, eventCounter);
      TransformSnoc(parse, rows, n);
      total := total + 1;
      var r := parse(rows[n]);
      if r.Failure? {
        skipped := skipped + 1;
        continue;
      }
      var p := r.value;
      var key := KeyOf(p);
      if key in seen {
        skipped := skipped + 1;
        continue;
      }
      seen := seen + {key};
      out := out + [OutRowOf(eventCounter, p)];
      written := written + 1;
      eventCounter := eventCounter + 1;
      counts := counts[p.action := Get(counts, p.action) + 1];
      StepAppends(before, p);
    }
    assert rows[..|rows|] == rows;
    TransformConsistent(parse, rows);
  }

  /** `transform_csv`: the loop with the row parser of this module. */
  method TransformCsv(rows: seq<Row>)
    returns (out: seq<OutRow>, total: nat, written: nat, skipped: nat, counts: map<string, nat>)
    ensures out == Transform(ProcessRow, rows).out && counts == Transform(ProcessRow, rows).counts
    ensures total == |rows| && written + skipped == total && |out| == written
    ensures forall i :: 0 <= i < |out| ==> out[i].eventId == i + 1
    ensures forall i, j :: 0 <= i < j < |out| ==> RowKey(out[i]) != RowKey(out[j])
  {
    out, total, written, skipped, counts := TransformRows(ProcessRow, rows);
  }
}
