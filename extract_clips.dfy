/** The clip extractor of the back end: file-name sanitising, clip names, the clip window
    around an event, and the manifest loop with its overall and per-action limits.
    File existence and ffmpeg's exit status are inputs of the model. */
module ExtractClips {
  import opened Wrappers
  import opened Text
  import opened Numeric
  import opened Counting
  import opened Slices

  // ---------------------------------------------------------------- sanitize

  /** The characters a sanitised chunk keeps: ASCII letters and digits, '_', '-' and '.'. */
  predicate IsSafeChar(c: char) {
    IsAsciiAlnum(c) || c == '_' || c == '-' || c == '.'
  }

  predicate AllSafe(s: string) {
    forall i :: 0 <= i < |s| ==> IsSafeChar(s[i])
  }

  /** `s.replace(" ", "_")`: every space becomes one underscore, nothing else moves. */
  function SpacesToUnderscores(s: string): (r: string)
    ensures |r| == |s|
    ensures forall i :: 0 <= i < |s| ==> r[i] == if s[i] == ' ' then '_' else s[i]
  {
    seq(|s|, i requires 0 <= i < |s| => if s[i] == ' ' then '_' else s[i])
  }

  /** The safe characters of `s`, in order: each safe character is kept as often as it
      occurs, and every other character is dropped. */
  function KeepSafe(s: string): (r: string)
    ensures AllSafe(r)
    ensures |r| <= |s|
  {
    if s == [] then []
    else KeepSafe(s[..|s| - 1]) + (if IsSafeChar(s[|s| - 1]) then [s[|s| - 1]] else [])
  }

  /** Each safe character is kept as often as it occurs in `s`; no other character is. */
  lemma {:induction false} KeepSafeCounts(s: string, c: char)
    ensures multiset(KeepSafe(s))[c] == if IsSafeChar(c) then multiset(s)[c] else 0
    decreases |s|
  {
    if s != [] {
      KeepSafeCounts(s[..|s| - 1], c);
      assert s == s[..|s| - 1] + [s[|s| - 1]];
    }
  }

  lemma {:induction false} KeepSafeOfSafe(s: string)
    requires AllSafe(s)
    ensures KeepSafe(s) == s
    decreases |s|
  {
    if s != [] {
      KeepSafeOfSafe(s[..|s| - 1]);
      assert s[..|s| - 1] + [s[|s| - 1]] == s;
    }
  }

  /** Filtering keeps the order: the safe characters of a concatenation are those of each
      part, one after the other. */
  lemma {:induction false} KeepSafeAppend(a: string, b: string)
    ensures KeepSafe(a + b) == KeepSafe(a) + KeepSafe(b)
    decreases |b|
  {
    if b == [] {
      assert a + b == a;
    } else {
      var b' := b[..|b| - 1];
      assert (a + b)[..|a + b| - 1] == a + b';
      assert (a + b)[|a + b| - 1] == b[|b| - 1];
      KeepSafeAppend(a, b');
    }
  }

  /** `sanitize(s, maxlen)`: strip, one underscore per space, keep the safe characters,
      cut to `maxlen` with Python's slice, and fall back to "na" when nothing is left. */
  function Sanitized(s: string, maxlen: int): (r: string)
    ensures r != [] && AllSafe(r)
    ensures r == "na" || (0 <= maxlen ==> |r| <= maxlen)
    ensures var kept := KeepSafe(SpacesToUnderscores(Strip(s)));
            && (kept == [] || maxlen == 0 ==> r == "na")
            && (r != "na" ==> r <= kept)
            && (0 < maxlen && kept != [] ==> r <= kept && |r| == if |kept| <= maxlen then |kept| else maxlen)
  {
    var kept := KeepSafe(SpacesToUnderscores(Strip(s)));
    var cut := PyTake(kept, maxlen);
    assert kept == [] || maxlen == 0 ==> cut == [] by {
      if kept == [] || maxlen == 0 { PyTakeEmpty(kept, maxlen); }
    }
    assert 0 < maxlen ==> cut == if maxlen <= |kept| then kept[..maxlen] else kept by {
      if 0 < maxlen { PyTakeNonNegative(kept, maxlen); }
    }
    assert AllSafe(cut) by {
      forall i | 0 <= i < |cut| ensures IsSafeChar(cut[i]) {
        assert cut[i] == kept[i];
      }
    }
    if cut == [] then "na" else cut
  }

  /** The loop of `sanitize`, appending each safe character to `out`. */
  method Sanitize(s: string, maxlen: int) returns (r: string)
    ensures r == Sanitized(s, maxlen)
  {
    var t := SpacesToUnderscores(Strip(s));
    var out: string := [];
    for i := 0 to |t|
      invariant out == KeepSafe(t[..i])
    {
      assert t[..i + 1][..i] == t[..i];
      if IsSafeChar(t[i]) {
        out := out + [t[i]];
      }
    }
    assert t[..|t|] == t;
    var cut := PyTake(out, maxlen);
    r := if cut == [] then "na" else cut;
  }

  lemma SafeHasNoSpace(s: string)
    requires AllSafe(s)
    ensures NoEdgeSpace(s) && ' ' !in s
  {
    assert forall i :: 0 <= i < |s| ==> s[i] != ' ' && !IsSpace(s[i]);
  }

  /** On text made only of safe characters, sanitising is just the cut to `maxlen`. */
  lemma SanitizedOfSafe(s: string, maxlen: int)
    requires s != [] && AllSafe(s) && 0 < maxlen
    ensures Sanitized(s, maxlen) == if |s| <= maxlen then s else s[..maxlen]
  {
    SafeHasNoSpace(s);
    StripIdentity(s);
    assert SpacesToUnderscores(s) == s;
    KeepSafeOfSafe(s);
    PyTakeNonNegative(s, maxlen);
  }

  /** Sanitising twice with a bound of at least 2 changes nothing more. */
  lemma SanitizedIdempotent(s: string, maxlen: int)
    requires 2 <= maxlen
    ensures Sanitized(Sanitized(s, maxlen), maxlen) == Sanitized(s, maxlen)
  {
    var r := Sanitized(s, maxlen);
    SanitizedOfSafe(r, maxlen);
  }

  /** Spaces are not collapsed: each inner space of a short, otherwise safe text becomes
      its own underscore, so the length is kept. */
  lemma SanitizedKeepsEverySpace(s: string, maxlen: int)
    requires s != [] && NoEdgeSpace(s) && |s| <= maxlen
    requires forall i :: 0 <= i < |s| ==> IsSafeChar(s[i]) || s[i] == ' '
    ensures Sanitized(s, maxlen) == SpacesToUnderscores(s)
    ensures |Sanitized(s, maxlen)| == |s|
  {
    StripIdentity(s);
    var u := SpacesToUnderscores(s);
    assert AllSafe(u);
    KeepSafeOfSafe(u);
    PyTakeNonNegative(u, maxlen);
  }

  // ---------------------------------------------------------------- clip names

  /** Text pathlib leaves aside at the end of a path: '/' separators and "." parts. */
  predicate IgnoredTail(s: string) {
    forall i :: 0 <= i < |s| && s[i] != '/' ==>
      s[i] == '.' && (i == 0 || s[i - 1] == '/') && (i + 1 == |s| || s[i + 1] == '/')
  }

  /** `Path(p).name`: the last part of the path, where pathlib drops empty parts (a trailing
      or doubled '/') and "." parts; "" when no other part is left. */
  function BaseName(p: string): (name: string)
    ensures '/' !in name && name != "."
    decreases |p|
  {
    if p == [] then []
    else if p[|p| - 1] == '/' then BaseName(p[..|p| - 1])
    else
      var j := LastIndexOf(p, '/');
      if p[j + 1..] == "." then BaseName(p[..j + 1]) else p[j + 1..]
  }

  lemma IgnoredTailSlash(s: string)
    requires IgnoredTail(s)
    ensures IgnoredTail(s + "/")
  {
  }

  lemma IgnoredTailDot(s: string)
    requires IgnoredTail(s) && (s == [] || s[|s| - 1] == '/')
    ensures IgnoredTail(s + ".")
  {
  }

  /** `name` is the part of `p` that ends at `k`, and only text pathlib drops follows it. */
  predicate LastPartAt(p: string, name: string, k: int) {
    && |name| <= k <= |p| && p[k - |name|..k] == name
    && (k == |name| || p[k - |name| - 1] == '/')
    && (k == |p| || p[k] == '/') && IgnoredTail(p[k..])
  }

  lemma LastPartSlash(q: string, name: string, k: int)
    requires LastPartAt(q, name, k)
    ensures LastPartAt(q + "/", name, k)
  {
    var p := q + "/";
    assert p[k..] == q[k..] + "/";
    IgnoredTailSlash(q[k..]);
    assert p[k - |name|..k] == q[k - |name|..k];
  }

  lemma LastPartDot(q: string, name: string, k: int)
    requires name != [] && '/' !in name && q != [] && q[|q| - 1] == '/'
    requires LastPartAt(q, name, k)
    ensures LastPartAt(q + ".", name, k)
  {
    var p := q + ".";
    assert p[k..] == q[k..] + ".";
    IgnoredTailDot(q[k..]);
    assert p[k - |name|..k] == q[k - |name|..k];
  }

  /** The name is a whole part of the path (a '/' or the start before it, a '/' or the end
      after it), and everything after it is only what pathlib drops; the name is "" only
      when the whole path is such text. */
  lemma {:induction false} BaseNameIsLastPart(p: string)
    ensures BaseName(p) == [] ==> IgnoredTail(p)
    ensures BaseName(p) != [] ==> exists k :: LastPartAt(p, BaseName(p), k)
    decreases |p|
  {
    var name := BaseName(p);
    if p == [] {
    } else if p[|p| - 1] == '/' {
      var q := p[..|p| - 1];
      assert p == q + "/";
      BaseNameIsLastPart(q);
      if name == [] {
        IgnoredTailSlash(q);
      } else {
        var k :| LastPartAt(q, name, k);
        LastPartSlash(q, name, k);
      }
    } else {
      var j := LastIndexOf(p, '/');
      if p[j + 1..] == "." {
        var q := p[..j + 1];
        assert p == q + ".";
        BaseNameIsLastPart(q);
        if name == [] {
          IgnoredTailDot(q);
        } else {
          var k :| LastPartAt(q, name, k);
          LastPartDot(q, name, k);
        }
      } else {
        assert LastPartAt(p, name, |p|);
      }
    }
  }

  /** `Path(p).stem`: the name without its last suffix, where a suffix is a '.' that is
      neither the first nor the last character of the name. */
  function Stem(p: string): (stem: string)
    ensures '/' !in stem
    ensures StartsWith(BaseName(p), stem)
    ensures stem == BaseName(p) || BaseName(p)[|stem|] == '.'
    ensures var name := BaseName(p);
            stem != name ==> 0 < |stem| < |name| - 1 && '.' !in name[|stem| + 1..]
    ensures var name := BaseName(p);
            stem == name ==> forall i :: 0 < i < |name| - 1 && name[i] == '.' ==> '.' in name[i + 1..]
  {
    var name := BaseName(p);
    var i := LastIndexOf(name, '.');
    if 0 < i < |name| - 1 then name[..i] else name
  }

  /** The stem of a file name `base.ext` in any directory is `base`. */
  lemma StemOfFile(dir: string, base: string, ext: string)
    requires base != [] && ext != []
    requires '/' !in base && '/' !in ext && '.' !in ext
    ensures Stem(dir + "/" + base + "." + ext) == base
  {
    var name := base + "." + ext;
    assert dir + "/" + base + "." + ext == dir + ['/'] + name;
    assert '/' !in name;
    LastIndexOfAppend(dir, '/', name);
    assert (dir + ['/'] + name)[|dir| + 1..] == name;
    assert BaseName(dir + "/" + base + "." + ext) == name;
    LastIndexOfAppend(base, '.', ext);
  }

  /** The same for a bare file name such as the manifest's `<name>.mp4`: its stem is `name`. */
  lemma StemOfBareFile(base: string, ext: string)
    requires base != [] && ext != []
    requires '/' !in base && '/' !in ext && '.' !in ext
    ensures Stem(base + "." + ext) == base
  {
    var name := base + "." + ext;
    assert '/' !in name;
    assert LastIndexOf(name, '/') == -1;
    assert name[0..] == name;
    assert BaseName(name) == name;
    LastIndexOfAppend(base, '.', ext);
  }

  function OutcomeTag(outcome: string): (tag: string)
    ensures tag == "succ" <==> outcome == "1"
    ensures tag == "succ" || tag == "fail"
  {
    if outcome == "1" then "succ" else "fail"
  }

  /** The event time in whole milliseconds, as `int(round(t_sec * 1000))` writes it. */
  function MillisText(t: real): (s: string)
    ensures AllSafe(s)
  {
    var s := IntToString(RoundHalfEven(t * 1000.0));
    assert forall i :: 0 <= i < |s| ==> s[i] == '-' || IsDigit(s[i]);
    s
  }

  /** The clip name before the final sanitising. */
  function RawOutName(eventId: string, player: string, action: string, outcome: string,
                      videoFilename: string, t: real): string
  {
    Stem(videoFilename) + "_" + action + "_" + OutcomeTag(outcome) + "_" + Sanitized(player, 40)
      + "_" + MillisText(t) + "_" + eventId + ".mp4"
  }

  /** `build_out_name`: a safe, non-empty name of at most 80 characters. */
  function BuildOutName(eventId: string, player: string, action: string, outcome: string,
                        videoFilename: string, t: real): (name: string)
    ensures name != [] && AllSafe(name) && |name| <= 80
  {
    Sanitized(RawOutName(eventId, player, action, outcome, videoFilename, t), 80)
  }

  lemma AllSafeConcat(a: string, b: string)
    requires AllSafe(a) && AllSafe(b)
    ensures AllSafe(a + b)
  {
  }

  /** When the parts are already safe, the clip name is the raw name cut to 80 characters:
      it keeps its ".mp4" ending only when the raw name fits. */
  lemma BuildOutNameOfSafeParts(eventId: string, player: string, action: string,
                                outcome: string, videoFilename: string, t: real)
    requires AllSafe(Stem(videoFilename)) && AllSafe(action) && AllSafe(eventId)
    ensures var raw := RawOutName(eventId, player, action, outcome, videoFilename, t);
      BuildOutName(eventId, player, action, outcome, videoFilename, t)
        == if |raw| <= 80 then raw else raw[..80]
    ensures var raw := RawOutName(eventId, player, action, outcome, videoFilename, t);
      |raw| <= 80 ==> EndsWith(BuildOutName(eventId, player, action, outcome, videoFilename, t), ".mp4")
  {
    var raw := RawOutName(eventId, player, action, outcome, videoFilename, t);
    RawOutNameSafe(eventId, player, action, outcome, videoFilename, t);
    SanitizedOfSafe(raw, 80);
  }

  lemma RawOutNameSafe(eventId: string, player: string, action: string,
                       outcome: string, videoFilename: string, t: real)
    requires AllSafe(Stem(videoFilename)) && AllSafe(action) && AllSafe(eventId)
    ensures AllSafe(RawOutName(eventId, player, action, outcome, videoFilename, t))
  {
    var tag := OutcomeTag(outcome);
    assert AllSafe(tag);
    SafeJoin(Stem(videoFilename), action, tag, Sanitized(player, 40), MillisText(t), eventId);
  }

  /** Safe fields joined by underscores, with ".mp4" after the last, are safe. */
  lemma SafeJoin(a: string, b: string, c: string, d: string, e: string, f: string)
    requires AllSafe(a) && AllSafe(b) && AllSafe(c) && AllSafe(d) && AllSafe(e) && AllSafe(f)
    ensures AllSafe(a + "_" + b + "_" + c + "_" + d + "_" + e + "_" + f + ".mp4")
  {
    assert AllSafe("_") && AllSafe(".mp4");
    AllSafeConcat(a, "_");
    AllSafeConcat(a + "_", b);
    AllSafeConcat(a + "_" + b, "_");
    AllSafeConcat(a + "_" + b + "_", c);
    AllSafeConcat(a + "_" + b + "_" + c, "_");
    AllSafeConcat(a + "_" + b + "_" + c + "_", d);
    AllSafeConcat(a + "_" + b + "_" + c + "_" + d, "_");
    AllSafeConcat(a + "_" + b + "_" + c + "_" + d + "_", e);
    AllSafeConcat(a + "_" + b + "_" + c + "_" + d + "_" + e, "_");
    AllSafeConcat(a + "_" + b + "_" + c + "_" + d + "_" + e + "_", f);
    AllSafeConcat(a + "_" + b + "_" + c + "_" + d + "_" + e + "_" + f, ".mp4");
  }

  // ---------------------------------------------------------------- clip window

  datatype Window = Window(pre: real, post: real, start: real, dur: real)

  /** The clip window around an event at `t`: `pre` and `post` clamped at 0, the start
      clamped at 0, and the duration lengthened when the start was clamped so that the
      clip still ends `post` seconds after the event. */
  function ClipWindow(t: real, preArg: real, postArg: real): (w: Window)
    ensures w.pre == Max(0.0, preArg) && w.post == Max(0.0, postArg)
    ensures w.start >= 0.0
    ensures w.start + w.dur == t + w.post
    ensures t - w.pre >= 0.0 ==> w.start == t - w.pre && w.dur == w.pre + w.post
    ensures t - w.pre < 0.0 ==> w.start == 0.0
  {
    var pre := Max(0.0, preArg);
    var post := Max(0.0, postArg);
    var start := Max(0.0, t - pre);
    var dur := if t - pre < 0.0 then t + post else pre + post;
    Window(pre, post, start, dur)
  }

  // ---------------------------------------------------------------- the manifest loop

  /** A manifest row: the six columns the extractor reads, as text. */
  datatype ManifestRow = ManifestRow(
    eventId: string, videoFilename: string, tEventSec: string,
    action: string, player: string, outcome: string)

  const RequiredHeaders: set<string> :=
    {"event_id", "video_filename", "t_event_sec", "action", "player", "outcome"}

  /** The required columns the manifest's header lacks. */
  function MissingHeaders(fieldnames: seq<string>): (missing: set<string>)
    ensures forall h :: h in missing <==> h in RequiredHeaders && h !in fieldnames
  {
    set h | h in RequiredHeaders && h !in fieldnames
  }

  /** Command-line settings: `--pre`, `--post`, `--limit`, `--per-action-limit`,
      `--overwrite`, and the output directory. */
  datatype Config = Config(pre: real, post: real, limit: int, perActionLimit: int,
                           overwrite: bool, outDir: string)

  /** The outside world: the videos under the video root, the files already in the output
      directory, and the exit status ffmpeg gives for the clip of the n-th manifest row. */
  datatype Env = Env(available: set<string>, existing: set<string>, ffmpeg: nat -> int)

  /** A clip request: the parsed event time and the clip's file name. */
  datatype Clip = Clip(t: real, name: string)

  /** What the loop reads from one row: the normalised action, the stripped video name,
      and the clip, absent when the time does not parse. */
  datatype Prepared = Prepared(action: string, video: string, clip: Option<Clip>)

  function PrepareRow(row: ManifestRow): (p: Prepared)
    ensures p.action == Lower(Strip(row.action)) && p.video == Strip(row.videoFilename)
    ensures p.clip.Some? <==> ParseFloat(row.tEventSec).Some?
    ensures p.clip.Some? ==> p.clip.value.name != [] && |p.clip.value.name| <= 80
    ensures p.clip.Some? ==> && p.clip.value.t == ParseFloat(row.tEventSec).value
                             && p.clip.value.name == BuildOutName(row.eventId, row.player, p.action,
                                                                  row.outcome, p.video, p.clip.value.t)
  {
    var action := Lower(Strip(row.action));
    var video := Strip(row.videoFilename);
    match ParseFloat(row.tEventSec)
    case None => Prepared(action, video, None)
    case Some(t) =>
      Prepared(action, video, Some(Clip(t, BuildOutName(row.eventId, row.player, action, row.outcome, video, t))))
  }

  /** `cut_clip_ffmpeg`'s exit status: 0 without running ffmpeg when the clip exists and
      `--overwrite` is off, ffmpeg's own status otherwise. */
  function CutClipExit(files: set<string>, dst: string, overwrite: bool, ffmpegExit: int): (code: int)
    ensures dst in files && !overwrite ==> code == 0
    ensures !(dst in files && !overwrite) ==> code == ffmpegExit
  {
    if dst in files && !overwrite then 0 else ffmpegExit
  }

  /** One line of `clips_index.csv`. */
  datatype IndexRow = IndexRow(
    clipPath: string, videoFilename: string, tEventSec: real, pre: real, post: real,
    action: string, outcome: string, player: string, eventId: string)

  datatype State = State(
    totalIn: nat, totalOut: nat,
    perAction: map<string, nat>, perVideoMissing: map<string, nat>, perVideoOk: map<string, nat>,
    index: seq<IndexRow>, files: set<string>, stopped: bool)

  function Initial(env: Env): State {
    State(0, 0, map[], map[], map[], [], env.existing, false)
  }

  /** One pass of the loop body on the n-th row; once the limit has stopped the loop,
      later rows change nothing. */
  function Step(cfg: Config, env: Env, st: State, n: nat, row: ManifestRow, p: Prepared): State {
    if st.stopped then st
    else
      var st1 := st.(totalIn := st.totalIn + 1);
      if cfg.limit != 0 && st.totalOut >= cfg.limit then st1.(stopped := true)
      else Visit(cfg, env, st1, n, row, p)
  }

  /** The rest of the loop body once the row is counted and the limit has not stopped the loop. */
  function Visit(cfg: Config, env: Env, st: State, n: nat, row: ManifestRow, p: Prepared): (r: State)
    ensures r.totalIn == st.totalIn && r.stopped == st.stopped
    ensures |r.index| == |st.index| || |r.index| == |st.index| + 1
  {
    // reading a defaultdict entry inserts it
    var pa := if cfg.perActionLimit != 0 then st.perAction[p.action := Get(st.perAction, p.action)]
              else st.perAction;
    var st2 := st.(perAction := pa);
    if cfg.perActionLimit != 0 && Get(pa, p.action) >= cfg.perActionLimit then st2
    else if p.video !in env.available then
      st2.(perVideoMissing := st2.perVideoMissing[p.video := Get(st2.perVideoMissing, p.video) + 1])
    else
      match p.clip
      case None => st2
      case Some(c) =>
        var w := ClipWindow(c.t, cfg.pre, cfg.post);
        var dst := cfg.outDir + "/" + c.name;
        if CutClipExit(st2.files, dst, cfg.overwrite, env.ffmpeg(n)) != 0 then st2
        else Written(st2, IndexRow(dst, p.video, c.t, w.pre, w.post, p.action,
                                   row.outcome, row.player, row.eventId))
  }

  /** `per_video_missing`: a row that passes the per-action limit but names a video that is
      not available adds one to that video's missing count and indexes nothing; every other
      row leaves the missing counts as they were. */
  lemma VisitCountsMissing(cfg: Config, env: Env, st: State, n: nat, row: ManifestRow, p: Prepared)
    ensures var r := Visit(cfg, env, st, n, row, p);
            var capped := cfg.perActionLimit != 0 && Get(st.perAction, p.action) >= cfg.perActionLimit;
            var missing := !capped && p.video !in env.available;
            && (forall v :: Get(r.perVideoMissing, v)
                              == Get(st.perVideoMissing, v) + (if missing && v == p.video then 1 else 0))
            && (missing ==> r.index == st.index && r.totalOut == st.totalOut)
  {
  }

  /** The state after the clip of index line `e` has been cut and logged. */
  function Written(st: State, e: IndexRow): State {
    st.(index := st.index + [e],
        files := st.files + {e.clipPath},
        totalOut := st.totalOut + 1,
        perAction := st.perAction[e.action := Get(st.perAction, e.action) + 1],
        perVideoOk := st.perVideoOk[e.videoFilename := Get(st.perVideoOk, e.videoFilename) + 1])
  }

  /** A loop over the first `n` rows from `init`, with `step` as its body. */
  function Fold(step: (State, nat, ManifestRow) -> State, init: State, rows: seq<ManifestRow>, n: nat): State
    requires n <= |rows|
  {
    if n == 0 then init
    else step(Fold(step, init, rows, n - 1), n - 1, rows[n - 1])
  }

  /** The loop body of `main`, with each row read by `prepare`. */
  function StepWith(cfg: Config, env: Env, prepare: ManifestRow -> Prepared): (State, nat, ManifestRow) -> State {
    (st: State, k: nat, row: ManifestRow) => Step(cfg, env, st, k, row, prepare(row))
  }

  /** The loop over the first `n` manifest rows, each read with `prepare`. */
  function RunPrefix(cfg: Config, env: Env, prepare: ManifestRow -> Prepared, rows: seq<ManifestRow>, n: nat): State
    requires n <= |rows|
  {
    Fold(StepWith(cfg, env, prepare), Initial(env), rows, n)
  }

  /** The loop over the whole manifest. */
  function Run(cfg: Config, env: Env, prepare: ManifestRow -> Prepared, rows: seq<ManifestRow>): State {
    RunPrefix(cfg, env, prepare, rows, |rows|)
  }

  /** The action column of the index, in order. */
  function IndexActions(index: seq<IndexRow>): (acts: seq<string>)
    ensures |acts| == |index|
  {
    if index == [] then [] else IndexActions(index[..|index| - 1]) + [index[|index| - 1].action]
  }

  /** The video column of the index, in order. */
  function IndexVideos(index: seq<IndexRow>): (vids: seq<string>)
    ensures |vids| == |index|
  {
    if index == [] then [] else IndexVideos(index[..|index| - 1]) + [index[|index| - 1].videoFilename]
  }

  /** The counter a `defaultdict(int)` holds after counting `xs` one by one. */
  function Tally(xs: seq<string>): map<string, nat> {
    if xs == [] then map[]
    else
      var m := Tally(xs[..|xs| - 1]);
      m[xs[|xs| - 1] := Get(m, xs[|xs| - 1]) + 1]
  }

  lemma {:induction false} TallyCounts(xs: seq<string>, a: string)
    ensures Get(Tally(xs), a) == Count(xs, a)
    decreases |xs|
  {
    if xs != [] {
      TallyCounts(xs[..|xs| - 1], a);
    }
  }

  lemma TallySnoc(xs: seq<string>, x: string)
    ensures Tally(xs + [x]) == Tally(xs)[x := Get(Tally(xs), x) + 1]
  {
    assert (xs + [x])[..|xs|] == xs;
  }

  /** The entries of a counter that are not zero: reading a `defaultdict` inserts zeros. */
  function NonZero(m: map<string, nat>): map<string, nat> {
    map k | k in m && m[k] != 0 :: m[k]
  }

  lemma NonZeroGet(m: map<string, nat>, a: string)
    ensures Get(NonZero(m), a) == Get(m, a)
  {
  }

  lemma NonZeroTouch(m: map<string, nat>, x: string)
    ensures NonZero(m[x := Get(m, x)]) == NonZero(m)
  {
  }

  lemma NonZeroIncrement(m: map<string, nat>, x: string)
    ensures NonZero(m[x := Get(m, x) + 1]) == NonZero(m)[x := Get(NonZero(m), x) + 1]
  {
  }

  /** One index line per clip written, and the counters tally the index. */
  ghost predicate Tallied(st: State) {
    && |st.index| == st.totalOut
    && NonZero(st.perAction) == Tally(IndexActions(st.index))
    && st.perVideoOk == Tally(IndexVideos(st.index))
  }

  /** The overall and per-action limits hold, and a stop happens only at the limit. */
  ghost predicate WithinLimits(cfg: Config, st: State) {
    && (cfg.limit > 0 ==> st.totalOut <= cfg.limit)
    && (cfg.limit > 0 && st.stopped ==> st.totalOut == cfg.limit)
    && (st.stopped ==> cfg.limit != 0)
    && (cfg.perActionLimit > 0 ==> forall a :: Get(st.perAction, a) <= cfg.perActionLimit)
  }

  /** Every indexed clip names an available video and a file that exists. */
  ghost predicate IndexSound(env: Env, st: State) {
    forall i :: 0 <= i < |st.index| ==>
      st.index[i].videoFilename in env.available && st.index[i].clipPath in st.files
  }

  /** What the loop keeps true. */
  ghost predicate Consistent(cfg: Config, env: Env, st: State) {
    Tallied(st) && WithinLimits(cfg, st) && IndexSound(env, st)
  }

  lemma IndexSnoc(index: seq<IndexRow>, e: IndexRow)
    ensures IndexActions(index + [e]) == IndexActions(index) + [e.action]
    ensures IndexVideos(index + [e]) == IndexVideos(index) + [e.videoFilename]
  {
    assert (index + [e])[..|index|] == index;
  }

  /** Writing the clip `e` keeps the tallies. */
  lemma TalliedAppend(st: State, e: IndexRow)
    requires Tallied(st)
    ensures Tallied(Written(st, e))
  {
    IndexSnoc(st.index, e);
    TallySnoc(IndexActions(st.index), e.action);
    TallySnoc(IndexVideos(st.index), e.videoFilename);
    NonZeroIncrement(st.perAction, e.action);
  }

  /** A row that writes nothing keeps the tallies, even when it inserts a zero counter. */
  lemma TalliedKeep(st: State, st': State)
    requires Tallied(st)
    requires st'.index == st.index && st'.totalOut == st.totalOut && st'.perVideoOk == st.perVideoOk
    requires NonZero(st'.perAction) == NonZero(st.perAction)
    ensures Tallied(st')
  {
  }

  lemma StepTallied(cfg: Config, env: Env, st: State, n: nat, row: ManifestRow, p: Prepared)
    requires Tallied(st)
    ensures Tallied(Step(cfg, env, st, n, row, p))
  {
    var st' := Step(cfg, env, st, n, row, p);
    if st.stopped {
      assert st' == st;
    } else if cfg.limit != 0 && st.totalOut >= cfg.limit {
      TalliedKeep(st, st');
    } else {
      var st1 := st.(totalIn := st.totalIn + 1);
      var pa := if cfg.perActionLimit != 0 then st1.perAction[p.action := Get(st1.perAction, p.action)]
                else st1.perAction;
      var st2 := st1.(perAction := pa);
      NonZeroTouch(st.perAction, p.action);
      TalliedKeep(st, st2);
      if cfg.perActionLimit != 0 && Get(pa, p.action) >= cfg.perActionLimit {
        assert st' == st2;
      } else if p.video !in env.available {
        TalliedKeep(st2, st');
      } else if p.clip.None? {
        assert st' == st2;
      } else {
        var c := p.clip.value;
        var w := ClipWindow(c.t, cfg.pre, cfg.post);
        var dst := cfg.outDir + "/" + c.name;
        if CutClipExit(st2.files, dst, cfg.overwrite, env.ffmpeg(n)) != 0 {
          assert st' == st2;
        } else {
          var e := IndexRow(dst, p.video, c.t, w.pre, w.post, p.action, row.outcome, row.player, row.eventId);
          assert st' == Written(st2, e);
          TalliedAppend(st2, e);
        }
      }
    }
  }

  lemma StepWithinLimits(cfg: Config, env: Env, st: State, n: nat, row: ManifestRow, p: Prepared)
    requires WithinLimits(cfg, st)
    ensures WithinLimits(cfg, Step(cfg, env, st, n, row, p))
  {
    var st' := Step(cfg, env, st, n, row, p);
    if st.stopped {
      assert st' == st;
    } else if cfg.limit != 0 && st.totalOut >= cfg.limit {
      assert st' == st.(totalIn := st.totalIn + 1, stopped := true);
    } else {
      var st1 := st.(totalIn := st.totalIn + 1);
      var pa := if cfg.perActionLimit != 0 then st1.perAction[p.action := Get(st1.perAction, p.action)]
                else st1.perAction;
      var st2 := st1.(perAction := pa);
      assert forall a :: Get(pa, a) == Get(st.perAction, a);
      assert WithinLimits(cfg, st2);
      if cfg.perActionLimit != 0 && Get(pa, p.action) >= cfg.perActionLimit {
        assert st' == st2;
      } else if p.video !in env.available {
        assert st'.totalOut == st2.totalOut && st'.perAction == st2.perAction && !st'.stopped;
      } else if p.clip.None? {
        assert st' == st2;
      } else {
        var c := p.clip.value;
        var w := ClipWindow(c.t, cfg.pre, cfg.post);
        var dst := cfg.outDir + "/" + c.name;
        if CutClipExit(st2.files, dst, cfg.overwrite, env.ffmpeg(n)) != 0 {
          assert st' == st2;
        } else {
          var e := IndexRow(dst, p.video, c.t, w.pre, w.post, p.action, row.outcome, row.player, row.eventId);
          assert st' == Written(st2, e);
          assert cfg.perActionLimit > 0 ==> Get(pa, p.action) < cfg.perActionLimit;
          assert cfg.limit > 0 ==> st.totalOut < cfg.limit;
          if cfg.perActionLimit > 0 {
            forall a ensures Get(st'.perAction, a) <= cfg.perActionLimit {
              if a != p.action {
                assert Get(st'.perAction, a) == Get(pa, a);
              }
            }
          }
        }
      }
    }
  }

  lemma StepIndexSound(cfg: Config, env: Env, st: State, n: nat, row: ManifestRow, p: Prepared)
    requires IndexSound(env, st)
    ensures IndexSound(env, Step(cfg, env, st, n, row, p))
  {
  }

  lemma StepConsistent(cfg: Config, env: Env, st: State, n: nat, row: ManifestRow, p: Prepared)
    requires Consistent(cfg, env, st)
    ensures Consistent(cfg, env, Step(cfg, env, st, n, row, p))
  {
    StepTallied(cfg, env, st, n, row, p);
    StepWithinLimits(cfg, env, st, n, row, p);
    StepIndexSound(cfg, env, st, n, row, p);
  }

  /** A loop body that keeps `Consistent` keeps it over any number of rows. */
  lemma {:induction false} FoldConsistent(cfg: Config, env: Env, step: (State, nat, ManifestRow) -> State,
                                          init: State, rows: seq<ManifestRow>, n: nat)
    requires n <= |rows| && Consistent(cfg, env, init)
    requires forall st, k, row :: Consistent(cfg, env, st) ==> Consistent(cfg, env, step(st, k, row))
    ensures Consistent(cfg, env, Fold(step, init, rows, n))
    decreases n
  {
    if n > 0 {
      FoldConsistent(cfg, env, step, init, rows, n - 1);
    }
  }

  lemma RunConsistent(cfg: Config, env: Env, prepare: ManifestRow -> Prepared,
                      rows: seq<ManifestRow>, n: nat)
    requires n <= |rows|
    ensures Consistent(cfg, env, RunPrefix(cfg, env, prepare, rows, n))
  {
    var step := StepWith(cfg, env, prepare);
    forall st, k: nat, row | Consistent(cfg, env, st)
      ensures Consistent(cfg, env, step(st, k, row))
    {
      StepConsistent(cfg, env, st, k, row, prepare(row));
    }
    FoldConsistent(cfg, env, step, Initial(env), rows, n);
  }

  /** A loop body that counts each row it reads, and leaves a stopped state alone. */
  ghost predicate Scans(st: State, st': State) {
    && (st.stopped ==> st' == st)
    && (!st.stopped ==> st'.totalIn == st.totalIn + 1)
  }

  lemma StepScans(cfg: Config, env: Env, st: State, n: nat, row: ManifestRow, p: Prepared)
    ensures Scans(st, Step(cfg, env, st, n, row, p))
  {
  }

  lemma {:induction false} FoldScans(step: (State, nat, ManifestRow) -> State, init: State,
                                     rows: seq<ManifestRow>, n: nat)
    requires n <= |rows| && init.totalIn == 0 && !init.stopped
    requires forall st, k, row :: Scans(st, step(st, k, row))
    ensures var st := Fold(step, init, rows, n);
      st.totalIn <= n && (!st.stopped ==> st.totalIn == n)
    decreases n
  {
    if n > 0 {
      FoldScans(step, init, rows, n - 1);
      var prev := Fold(step, init, rows, n - 1);
      assert Scans(prev, step(prev, n - 1, rows[n - 1]));
    }
  }

  /** Every row is scanned until the limit stops the loop; after that nothing changes. */
  lemma RunScansRows(cfg: Config, env: Env, prepare: ManifestRow -> Prepared,
                     rows: seq<ManifestRow>, n: nat)
    requires n <= |rows|
    ensures var st := RunPrefix(cfg, env, prepare, rows, n);
      st.totalIn <= n && (!st.stopped ==> st.totalIn == n)
    ensures RunPrefix(cfg, env, prepare, rows, n).stopped ==> cfg.limit != 0
  {
    var step := StepWith(cfg, env, prepare);
    forall st, k: nat, row ensures Scans(st, step(st, k, row)) {
      StepScans(cfg, env, st, k, row, prepare(row));
    }
    FoldScans(step, Initial(env), rows, n);
    RunConsistent(cfg, env, prepare, rows, n);
  }

  /** The limits of the command line: at most `limit` clips in all and at most
      `per-action-limit` clips per action, and the per-action counters add up to the
      number of clips written. */
  lemma RunLimits(cfg: Config, env: Env, prepare: ManifestRow -> Prepared, rows: seq<ManifestRow>)
    ensures var st := Run(cfg, env, prepare, rows);
      && |st.index| == st.totalOut
      && (cfg.limit > 0 ==> st.totalOut <= cfg.limit)
      && (cfg.perActionLimit > 0 ==> forall a :: Get(st.perAction, a) <= cfg.perActionLimit)
      && (forall a :: Get(st.perAction, a) == Count(IndexActions(st.index), a))
      && (forall v :: Get(st.perVideoOk, v) == Count(IndexVideos(st.index), v))
      && SumCounts(Distinct(IndexActions(st.index)), IndexActions(st.index)) == st.totalOut
  {
    RunConsistent(cfg, env, prepare, rows, |rows|);
    var st := Run(cfg, env, prepare, rows);
    forall a ensures Get(st.perAction, a) == Count(IndexActions(st.index), a) {
      NonZeroGet(st.perAction, a);
      TallyCounts(IndexActions(st.index), a);
    }
    forall v ensures Get(st.perVideoOk, v) == Count(IndexVideos(st.index), v) {
      TallyCounts(IndexVideos(st.index), v);
    }
    SumCountsOfDistinct(IndexActions(st.index));
  }

  /** A row adds an index line only when its video exists, its time parses, and its clip
      exists already (without `--overwrite`) or ffmpeg succeeds on it. */
  lemma StepWritesOnlyOnSuccess(cfg: Config, env: Env, st: State, n: nat, row: ManifestRow, p: Prepared)
    requires Step(cfg, env, st, n, row, p).index != st.index
    ensures p.video in env.available && p.clip.Some?
    ensures var dst := cfg.outDir + "/" + p.clip.value.name;
      (dst in st.files && !cfg.overwrite) || env.ffmpeg(n) == 0
  {
  }

  /** A stopped loop stays stopped: the rows after the break change nothing. */
  lemma {:induction false} FoldAfterStop(step: (State, nat, ManifestRow) -> State, init: State,
                                         rows: seq<ManifestRow>, m: nat, n: nat)
    requires m <= n <= |rows| && Fold(step, init, rows, m).stopped
    requires forall st, k, row :: Scans(st, step(st, k, row))
    ensures Fold(step, init, rows, n) == Fold(step, init, rows, m)
    decreases n
  {
    if m < n {
      FoldAfterStop(step, init, rows, m, n - 1);
      var prev := Fold(step, init, rows, n - 1);
      assert Scans(prev, step(prev, n - 1, rows[n - 1]));
    }
  }

  lemma RunAfterStop(cfg: Config, env: Env, prepare: ManifestRow -> Prepared,
                     rows: seq<ManifestRow>, m: nat, n: nat)
    requires m <= n <= |rows| && RunPrefix(cfg, env, prepare, rows, m).stopped
    ensures RunPrefix(cfg, env, prepare, rows, n) == RunPrefix(cfg, env, prepare, rows, m)
  {
    var step := StepWith(cfg, env, prepare);
    forall st, k: nat, row ensures Scans(st, step(st, k, row)) {
      StepScans(cfg, env, st, k, row, prepare(row));
    }
    FoldAfterStop(step, Initial(env), rows, m, n);
  }

  /** The loop body after the limit check: the per-action limit, the missing video, the
      unparsable time and a failed cut each end the row with `continue`. */
  method VisitRow(cfg: Config, env: Env, n: nat, row: ManifestRow, p: Prepared, st: State)
    returns (st': State)
    ensures st' == Visit(cfg, env, st, n, row, p)
  {
    st' := st;
    if cfg.perActionLimit != 0 {
      var current := Get(st'.perAction, p.action);
      st' := st'.(perAction := st'.perAction[p.action := current]);
      if current >= cfg.perActionLimit {
        return;
      }
    }
    if p.video !in env.available {
      st' := st'.(perVideoMissing := st'.perVideoMissing[p.video := Get(st'.perVideoMissing, p.video) + 1]);
      return;
    }
    if p.clip.None? {
      return;
    }
    var c := p.clip.value;
    var w := ClipWindow(c.t, cfg.pre, cfg.post);
    var dst := cfg.outDir + "/" + c.name;
    var code := CutClipExit(st'.files, dst, cfg.overwrite, env.ffmpeg(n));
    if code != 0 {
      return;
    }
    var entry := IndexRow(dst, p.video, c.t, w.pre, w.post, p.action, row.outcome, row.player, row.eventId);
    st' := st'.(files := st'.files + {dst},
                index := st'.index + [entry],
                totalOut := st'.totalOut + 1,
                perAction := st'.perAction[p.action := Get(st'.perAction, p.action) + 1],
                perVideoOk := st'.perVideoOk[p.video := Get(st'.perVideoOk, p.video) + 1]);
  }

  /** The row at which the overall limit is reached ends the loop. */
  lemma RunBreak(cfg: Config, env: Env, prepare: ManifestRow -> Prepared, rows: seq<ManifestRow>, n: nat)
    requires n < |rows|
    requires var st := RunPrefix(cfg, env, prepare, rows, n); !st.stopped && cfg.limit != 0 && st.totalOut >= cfg.limit
    ensures Run(cfg, env, prepare, rows)
         == RunPrefix(cfg, env, prepare, rows, n).(totalIn := RunPrefix(cfg, env, prepare, rows, n).totalIn + 1, stopped := true)
  {
    RunAfterStop(cfg, env, prepare, rows, n + 1, |rows|);
  }

  /** Below the overall limit, a row goes through the rest of the loop body. */
  lemma RunVisit(cfg: Config, env: Env, prepare: ManifestRow -> Prepared, rows: seq<ManifestRow>, n: nat)
    requires n < |rows|
    requires var st := RunPrefix(cfg, env, prepare, rows, n); !st.stopped && !(cfg.limit != 0 && st.totalOut >= cfg.limit)
    ensures var st := RunPrefix(cfg, env, prepare, rows, n);
      RunPrefix(cfg, env, prepare, rows, n + 1)
        == Visit(cfg, env, st.(totalIn := st.totalIn + 1), n, rows[n], prepare(rows[n]))
  {
  }

  /** The loop of `main` over the manifest rows, with `break` at the overall limit; the
      loop's counters, index lines and output files are kept together in `st`, whose
      `stopped` flag records that the loop ended with `break`. */
  method ExtractRows(cfg: Config, env: Env, prepare: ManifestRow -> Prepared, rows: seq<ManifestRow>)
    returns (st: State)
    ensures st == Run(cfg, env, prepare, rows)
  {
    st := Initial(env);
    for n := 0 to |rows|
      invariant st == RunPrefix(cfg, env, prepare, rows, n) && !st.stopped
    {
      if cfg.limit != 0 && st.totalOut >= cfg.limit {
        RunBreak(cfg, env, prepare, rows, n);
        st := st.(totalIn := st.totalIn + 1, stopped := true);
        return;
      }
      RunVisit(cfg, env, prepare, rows, n);
      st := VisitRow(cfg, env, n, rows[n], prepare(rows[n]), st.(totalIn := st.totalIn + 1));
    }
  }

  /** `main`: exit status 2 before any row is read when a required column is missing,
      otherwise the loop over the manifest with the row reader of this module. */
  method ExtractClips(cfg: Config, env: Env, fieldnames: seq<string>, rows: seq<ManifestRow>)
    returns (exit: int, st: State)
    ensures exit == 2 <==> MissingHeaders(fieldnames) != {}
    ensures exit != 2 ==> exit == 0
    ensures exit == 2 ==> st == Initial(env)
    ensures exit == 0 ==> st == Run(cfg, env, PrepareRow, rows)
  {
    if MissingHeaders(fieldnames) != {} {
      return 2, Initial(env);
    }
    exit := 0;
    st := ExtractRows(cfg, env, PrepareRow, rows);
  }
}
