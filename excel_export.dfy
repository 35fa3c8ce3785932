/** frontend/src/util/exportHelper.ts: the rows of the three sheets of the spreadsheet export
    ("Events", "Player Statistics", "Summary"), the file-name token cut out of the video key,
    and the download name. Sheets are sequences of rows; the XLSX library that serialises
    them is not part of this model. */
module ExcelExport {
  import opened Wrappers
  import opened Text
  import opened Counting
  import opened VideoStorage

  /** An event as the export receives it. */
  datatype Event = Event(
    videoId: string,
    id: int,
    timestamp: real,
    eventType: string,
    player: string,
    outcome: string,
    time: string)

  /** A row of the "Events" sheet; its columns are Event ID, Timestamp (seconds), Time,
      Event Type, Player, Outcome, Video ID. */
  datatype EventRow = EventRow(
    eventId: int,
    timestampSeconds: real,
    time: string,
    eventType: string,
    player: string,
    outcome: string,
    videoId: string)

  /** The column names of the "Events" sheet, in the order of the row object's keys. */
  const EventColumns: seq<string> :=
    ["Event ID", "Timestamp (seconds)", "Time", "Event Type", "Player", "Outcome", "Video ID"]

  /** A counter cell of the aggregation map. */
  datatype Stats = Stats(total: int, successful: int, failure: int)

  /** `aggregatedStats[player]`, its event types in the order `for ... in` visits them. */
  datatype ActionStats = ActionStats(eventType: string, stats: Stats)
  datatype PlayerStats = PlayerStats(player: string, actions: seq<ActionStats>)

  /** A row of the "Player Statistics" sheet. The success rate is the exact ratio
      `successful / total * 100` (`None` where the division is by zero). */
  datatype StatsRow = StatsRow(
    player: string,
    action: string,
    totalAttempts: int,
    successful: int,
    failed: int,
    successRate: Option<real>)

  datatype SummaryValue = TextValue(text: string) | CountValue(count: int)

  /** A row of the "Summary" sheet: a Metric and a Value column. */
  datatype SummaryRow = SummaryRow(metric: string, value: SummaryValue)

  datatype Sheet =
    | EventsSheet(eventRows: seq<EventRow>)
    | StatsSheet(statsRows: seq<StatsRow>)
    | SummarySheet(summaryRows: seq<SummaryRow>)

  datatype NamedSheet = NamedSheet(name: string, sheet: Sheet)

  /** What `exportCurrentVideoToExcel` returns: the workbook and the file-name token. */
  datatype Export = Export(workbook: seq<NamedSheet>, filename: string)

  const NoVideoLoaded: string := "No video loaded"

  /** The error `JSON.parse` throws for a stored value that is not JSON; the browser's own
      message text is not modelled. */
  const UnreadableRecord: string := "SyntaxError"

  /** `videoId.replace("video_", "").split("_")[0]`: the first "video_" is removed and the
      rest is cut at its first '_'. */
  function FilenameToken(videoId: string): (token: string)
    ensures '_' !in token
    ensures StartsWith(ReplaceFirst(videoId, "video_", ""), token)
    ensures var rest := ReplaceFirst(videoId, "video_", "");
            token == rest || (|token| < |rest| && rest[|token|] == '_')
  {
    BeforeFirst(ReplaceFirst(videoId, "video_", ""), '_')
  }

  /** For a key made by `generateVideoKey`, the token is the file name up to its first '_'
      (the whole name when it has none). */
  lemma TokenOfGeneratedKey(name: string, size: nat, lastModified: nat)
    ensures FilenameToken(GenerateVideoKey(name, size, lastModified)) == BeforeFirst(name, '_')
  {
    var tail := NatToString(size) + "_" + NatToString(lastModified);
    var rest := name + "_" + tail;
    assert GenerateVideoKey(name, size, lastModified) == KeyPrefix + rest;
    ReplaceFirstAtStart(KeyPrefix, rest, "");
    assert ReplaceFirst(GenerateVideoKey(name, size, lastModified), "video_", "") == rest;
    assert rest == name + ['_'] + tail;
    BeforeFirstAppend(name, '_', tail);
  }

  /** One row of the "Events" sheet: every field of the event, copied. */
  function EventRowOf(e: Event): EventRow {
    EventRow(e.id, e.timestamp, e.time, e.eventType, e.player, e.outcome, e.videoId)
  }

  /** `events.map(...)`: one row per event, in the order of the events, each field copied. */
  function EventsRows(events: seq<Event>): (rows: seq<EventRow>)
    ensures |rows| == |events|
    ensures forall i :: 0 <= i < |events| ==>
              && rows[i].eventId == events[i].id
              && rows[i].timestampSeconds == events[i].timestamp
              && rows[i].time == events[i].time
              && rows[i].eventType == events[i].eventType
              && rows[i].player == events[i].player
              && rows[i].outcome == events[i].outcome
              && rows[i].videoId == events[i].videoId
  {
    seq(|events|, i requires 0 <= i < |events| => EventRowOf(events[i]))
  }

  /** `(stats.successful / stats.total) * 100`, before `toFixed(1)`. */
  function SuccessRate(s: Stats): (rate: Option<real>)
    ensures rate.None? <==> s.total == 0
    ensures rate.Some? ==> rate.value * s.total as real == s.successful as real * 100.0
  {
    if s.total == 0 then None else Some(s.successful as real / s.total as real * 100.0)
  }

  /** The "Player Statistics" row of one (player, event type) cell. */
  function StatsRowOf(player: string, a: ActionStats): StatsRow {
    StatsRow(player, a.eventType, a.stats.total, a.stats.successful, a.stats.failure, SuccessRate(a.stats))
  }

  /** The rows one player contributes, in the order of its event types. */
  function PlayerRows(p: PlayerStats): (rows: seq<StatsRow>)
    ensures |rows| == |p.actions|
    ensures forall j :: 0 <= j < |rows| ==> rows[j] == StatsRowOf(p.player, p.actions[j])
  {
    seq(|p.actions|, j requires 0 <= j < |p.actions| => StatsRowOf(p.player, p.actions[j]))
  }

  /** All rows of the "Player Statistics" sheet: the players in order, each with its cells. */
  function StatsRowsOf(agg: seq<PlayerStats>): seq<StatsRow> {
    if agg == [] then [] else StatsRowsOf(agg[..|agg| - 1]) + PlayerRows(agg[|agg| - 1])
  }

  /** The number of (player, event type) cells of the players before index `p`. */
  function CellsBefore(agg: seq<PlayerStats>, p: nat): nat
    requires p <= |agg|
  {
    if p == 0 then 0 else CellsBefore(agg, p - 1) + |agg[p - 1].actions|
  }

  lemma {:induction false} CellsBeforePrefix(agg: seq<PlayerStats>, q: nat, p: nat)
    requires p <= q <= |agg|
    ensures CellsBefore(agg[..q], p) == CellsBefore(agg, p)
    decreases p
  {
    if p > 0 {
      CellsBeforePrefix(agg, q, p - 1);
    }
  }

  /** "Player Statistics" has one row per cell of the aggregation map. */
  lemma {:induction false} StatsRowsOfLength(agg: seq<PlayerStats>)
    ensures |StatsRowsOf(agg)| == CellsBefore(agg, |agg|)
    decreases |agg|
  {
    if agg != [] {
      var n := |agg| - 1;
      StatsRowsOfLength(agg[..n]);
      CellsBeforePrefix(agg, n, n);
    }
  }

  /** The cell (p, a) of the aggregation map is the row at offset `CellsBefore(agg, p) + a`,
      with Total Attempts, Successful and Failed copied from total, successful and failure. */
  lemma {:induction false} StatsRowAt(agg: seq<PlayerStats>, p: nat, a: nat)
    requires p < |agg| && a < |agg[p].actions|
    ensures CellsBefore(agg, p) + a < |StatsRowsOf(agg)|
    ensures StatsRowsOf(agg)[CellsBefore(agg, p) + a] == StatsRowOf(agg[p].player, agg[p].actions[a])
    decreases |agg|
  {
    var n := |agg| - 1;
    var init := agg[..n];
    StatsRowsOfLength(init);
    CellsBeforePrefix(agg, n, n);
    if p < n {
      StatsRowAt(init, p, a);
      CellsBeforePrefix(agg, n, p);
      CellsBeforeMonotone(agg, p + 1, n);
    }
  }

  lemma {:induction false} CellsBeforeMonotone(agg: seq<PlayerStats>, p: nat, q: nat)
    requires p <= q <= |agg|
    ensures CellsBefore(agg, p) <= CellsBefore(agg, q)
    decreases q - p
  {
    if p < q {
      CellsBeforeMonotone(agg, p, q - 1);
    }
  }

  /** The nested `for ... in` loops that push one row per cell into `playerStatsData`. */
  method BuildPlayerStats(agg: seq<PlayerStats>) returns (rows: seq<StatsRow>)
    ensures rows == StatsRowsOf(agg)
  {
    rows := [];
    for i := 0 to |agg|
      invariant rows == StatsRowsOf(agg[..i])
    {
      var p := agg[i];
      for j := 0 to |p.actions|
        invariant rows == StatsRowsOf(agg[..i]) + PlayerRows(p)[..j]
      {
        var stats := p.actions[j].stats;
        rows := rows + [StatsRow(p.player, p.actions[j].eventType, stats.total, stats.successful,
                                 stats.failure, SuccessRate(stats))];
        assert PlayerRows(p)[..j + 1] == PlayerRows(p)[..j] + [PlayerRows(p)[j]];
      }
      assert PlayerRows(p)[..|p.actions|] == PlayerRows(p);
      assert agg[..i + 1][..i] == agg[..i];
    }
    assert agg[..|agg|] == agg;
  }

  /** The event types of the events, in order. */
  function EventTypes(events: seq<Event>): (types: seq<string>)
    ensures |types| == |events|
    ensures forall i :: 0 <= i < |events| ==> types[i] == events[i].eventType
  {
    if events == [] then [] else EventTypes(events[..|events| - 1]) + [events[|events| - 1].eventType]
  }

  /** The `reduce` that counts events per event type into an object: `types` is the object's
      key order (first occurrence), and every type's count is the number of events of that
      type. */
  method CountEventTypes(events: seq<Event>) returns (types: seq<string>, counts: map<string, nat>)
    ensures types == Distinct(EventTypes(events))
    ensures forall t :: t in counts <==> t in types
    ensures forall t :: Get(counts, t) == Count(EventTypes(events), t)
  {
    types := [];
    counts := map[];
    for i := 0 to |events|
      invariant types == Distinct(EventTypes(events[..i]))
      invariant forall t :: t in counts <==> t in types
      invariant forall t :: Get(counts, t) == Count(EventTypes(events[..i]), t)
    {
      var t := events[i].eventType;
      var types' := if t in counts then types else types + [t];
      var counts' := counts[t := Get(counts, t) + 1];
      EventTypesSnoc(events, i);
      CountTypeStep(EventTypes(events[..i]), t, types, counts, types', counts');
      types, counts := types', counts';
    }
    assert events[..|events|] == events;
  }

  /** One step of the reduce: the accumulator keeps the key order and the counts of the
      event types seen so far. */
  lemma CountTypeStep(before: seq<string>, t: string, types: seq<string>, counts: map<string, nat>,
                      types': seq<string>, counts': map<string, nat>)
    requires types == Distinct(before)
    requires forall u :: u in counts <==> u in types
    requires forall u :: Get(counts, u) == Count(before, u)
    requires types' == if t in counts then types else types + [t]
    requires counts' == counts[t := Get(counts, t) + 1]
    ensures types' == Distinct(before + [t])
    ensures forall u :: u in counts' <==> u in types'
    ensures forall u :: Get(counts', u) == Count(before + [t], u)
  {
    DistinctSnoc(before, t);
    assert t in counts <==> t in Distinct(before);
    forall u
      ensures Get(counts', u) == Count(before + [t], u)
    {
      CountSnoc(before, t, u);
      assert Get(counts', u) == Get(counts, u) + (if t == u then 1 else 0);
    }
    forall u
      ensures u in counts' <==> u in types'
    {
      assert u in counts' <==> u in counts || u == t;
    }
  }

  lemma EventTypesSnoc(events: seq<Event>, i: nat)
    requires i < |events|
    ensures EventTypes(events[..i + 1]) == EventTypes(events[..i]) + [events[i].eventType]
  {
    assert events[..i + 1][..i] == events[..i];
  }

  /** The per-type counts of the Summary sheet add up to the number of events. */
  lemma TypeCountsSum(events: seq<Event>)
    ensures SumCounts(Distinct(EventTypes(events)), EventTypes(events)) == |events|
  {
    SumCountsOfDistinct(EventTypes(events));
  }

  /** The Event Type Breakdown rows, one per type in key order. */
  function BreakdownRows(types: seq<string>, counts: map<string, nat>): (rows: seq<SummaryRow>)
    ensures |rows| == |types|
  {
    seq(|types|, i requires 0 <= i < |types| => SummaryRow(types[i], CountValue(Get(counts, types[i]))))
  }

  /** The Summary sheet: Video File, Total Events, Export Date, an empty row, the breakdown
      header, then the breakdown. */
  function SummaryRows(filename: string, totalEvents: int, exportDate: string,
                       types: seq<string>, counts: map<string, nat>): (rows: seq<SummaryRow>)
    ensures |rows| == 5 + |types|
    ensures rows[0] == SummaryRow("Video File", TextValue(filename))
    ensures rows[1] == SummaryRow("Total Events", CountValue(totalEvents))
    ensures rows[2] == SummaryRow("Export Date", TextValue(exportDate))
    ensures rows[3] == SummaryRow("", TextValue(""))
    ensures rows[4] == SummaryRow("Event Type Breakdown", TextValue(""))
    ensures rows[5..] == BreakdownRows(types, counts)
  {
    [ SummaryRow("Video File", TextValue(filename)),
      SummaryRow("Total Events", CountValue(totalEvents)),
      SummaryRow("Export Date", TextValue(exportDate)),
      SummaryRow("", TextValue("")),
      SummaryRow("Event Type Breakdown", TextValue("")) ]
    + BreakdownRows(types, counts)
  }

  /** The "Summary" sheet of the export: the file token, the number of events, the export
      date, a blank row, the breakdown heading, then one row per distinct event type in
      first-occurrence order with its number of events. */
  predicate IsSummarySheet(s: NamedSheet, videoId: string, events: seq<Event>, exportDate: string) {
    && s.name == "Summary" && s.sheet.SummarySheet?
    && var summary := s.sheet.summaryRows;
       var types := Distinct(EventTypes(events));
       && |summary| == 5 + |types|
       && summary[0] == SummaryRow("Video File", TextValue(FilenameToken(videoId)))
       && summary[1] == SummaryRow("Total Events", CountValue(|events|))
       && summary[2] == SummaryRow("Export Date", TextValue(exportDate))
       && summary[3] == SummaryRow("", TextValue(""))
       && summary[4] == SummaryRow("Event Type Breakdown", TextValue(""))
       && (forall i :: 0 <= i < |types| ==>
             summary[5 + i] == SummaryRow(types[i], CountValue(Count(EventTypes(events), types[i]))))
  }

  /** `exportCurrentVideoToExcel(videoId, events)` with the aggregation map `sumActions(events)`
      and the export date (`new Date().toLocaleDateString()`) as inputs, and `storedParses`
      telling whether `JSON.parse` accepts the text stored under `videoId` (a missing item
      reads as "{}", which it accepts). An empty video id fails before any sheet is built;
      a stored value that is not JSON makes the export throw; otherwise the workbook holds the
      three sheets in order.
      The Summary has a row per distinct event type, in first-occurrence order, whose counts
      are the numbers of events of each type. */
  method ExportCurrentVideoToExcel(videoId: string, events: seq<Event>, aggregatedStats: seq<PlayerStats>,
                                   exportDate: string, storedParses: bool)
    returns (r: Result<Export, string>)
    ensures r.Failure? <==> videoId == "" || !storedParses
    ensures videoId == "" ==> r == Failure(NoVideoLoaded)
    ensures videoId != "" && !storedParses ==> r == Failure(UnreadableRecord)
    ensures r.Success? ==> r.value.filename == FilenameToken(videoId)
    ensures r.Success? ==> |r.value.workbook| == 3
    ensures r.Success? ==> r.value.workbook[0] == NamedSheet("Events", EventsSheet(EventsRows(events)))
    ensures r.Success? ==> r.value.workbook[1] == NamedSheet("Player Statistics", StatsSheet(StatsRowsOf(aggregatedStats)))
    ensures r.Success? ==> IsSummarySheet(r.value.workbook[2], videoId, events, exportDate)
  {
    if videoId == "" {
      return Failure(NoVideoLoaded);
    }
    if !storedParses {
      return Failure(UnreadableRecord);
    }
    var filename := BeforeFirst(ReplaceFirst(videoId, "video_", ""), '_');
    var workbook: seq<NamedSheet> := [];

    var eventsData := seq(|events|, i requires 0 <= i < |events| => EventRowOf(events[i]));
    workbook := workbook + [NamedSheet("Events", EventsSheet(eventsData))];

    var playerStatsData := BuildPlayerStats(aggregatedStats);
    workbook := workbook + [NamedSheet("Player Statistics", StatsSheet(playerStatsData))];

    var types, counts := CountEventTypes(events);
    var summaryData := SummaryRows(filename, |events|, exportDate, types, counts);
    workbook := workbook + [NamedSheet("Summary", SummarySheet(summaryData))];

    forall i | 0 <= i < |types|
      ensures summaryData[5 + i] == SummaryRow(types[i], CountValue(Count(EventTypes(events), types[i])))
    {
      assert summaryData[5..][i] == BreakdownRows(types, counts)[i];
    }
    r := Success(Export(workbook, filename));
  }

  /** The date part of `new Date().toISOString()`, which is passed in. */
  function IsoDate(isoTimestamp: string): (date: string)
    ensures 'T' !in date && StartsWith(isoTimestamp, date)
    ensures date == isoTimestamp || (|date| < |isoTimestamp| && isoTimestamp[|date|] == 'T')
  {
    BeforeFirst(isoTimestamp, 'T')
  }

  /** The download name `${filename}-analysis-${date}.xlsx`. */
  function DownloadFileName(filename: string, isoTimestamp: string): (name: string)
    ensures |name| == |filename| + 15 + |IsoDate(isoTimestamp)|
    ensures StartsWith(name, filename + "-analysis-")
    ensures EndsWith(name, ".xlsx")
    ensures name[|filename| + 10..|name| - 5] == IsoDate(isoTimestamp)
  {
    var name := filename + "-analysis-" + IsoDate(isoTimestamp) + ".xlsx";
    assert name[..|filename| + 10] == filename + "-analysis-";
    name
  }

  /** What `downloadCurrentVideoExcelExport` ends in: a download, or the alert shown when
      the export throws. */
  datatype Download = Downloaded(fileName: string, workbook: seq<NamedSheet>) | Alerted(message: string)

  const ExportAlert: string := "Error exporting Excel file. Please try again."

  /** `downloadCurrentVideoExcelExport`: the export is run, and its error becomes the alert;
      otherwise the workbook is offered under the download name. */
  method DownloadCurrentVideoExcelExport(videoId: string, events: seq<Event>, aggregatedStats: seq<PlayerStats>,
                                         exportDate: string, isoTimestamp: string, storedParses: bool)
    returns (d: Download)
    ensures d.Alerted? <==> videoId == "" || !storedParses
    ensures d.Alerted? ==> d.message == ExportAlert
    ensures d.Downloaded? ==> d.fileName == DownloadFileName(FilenameToken(videoId), isoTimestamp)
    ensures d.Downloaded? ==> |d.workbook| == 3
    ensures d.Downloaded? ==> d.workbook[0] == NamedSheet("Events", EventsSheet(EventsRows(events)))
    ensures d.Downloaded? ==>
              d.workbook[1] == NamedSheet("Player Statistics", StatsSheet(StatsRowsOf(aggregatedStats)))
    ensures d.Downloaded? ==> IsSummarySheet(d.workbook[2], videoId, events, exportDate)
  {
    var r := ExportCurrentVideoToExcel(videoId, events, aggregatedStats, exportDate, storedParses);
    match r {
      case Failure(_) =>
        d := Alerted(ExportAlert);
      case Success(ex) =>
        d := Downloaded(DownloadFileName(ex.filename, isoTimestamp), ex.workbook);
    }
  }
}
