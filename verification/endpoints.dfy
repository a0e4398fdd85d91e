/**
 The update run: `download_and_extract`, `process_cpes` and `update_cpes`
 under its `record_stats` wrapper. What the download, the extraction, the
 feed parse and each store write and send do is given by a `World`; the
 clock readings the wrapper takes are parameters. The run is recorded as the
 trace of the steps it takes, in order.
 */
module Endpoints {
  import opened Wrappers
  import opened Records
  import opened Crud
  import Downloader

  // ---------------------------------------------------------------------------
  // Paths

  /** A file-system path as the sequence of its names. */
  type Path = seq<string>

  /** The last name of a path (`Path.name`); empty for the empty path. */
  function Name(p: Path): string
  {
    if p == [] then "" else p[|p| - 1]
  }

  /** `p / name`. */
  function Child(p: Path, name: string): (q: Path)
    ensures |q| == |p| + 1 && Name(q) == name && q[..|p|] == p
  {
    p + [name]
  }

  /** `str.rfind`: the position of the last `c` in `s`, if any. */
  function RFind(s: string, c: char): (r: Option<nat>)
    ensures r.None? <==> c !in s
    ensures r.Some? ==> r.value < |s| && s[r.value] == c && c !in s[r.value + 1..]
  {
    if |s| == 0 then None
    else if s[|s| - 1] == c then Some(|s| - 1)
    else
      var r := RFind(s[..|s| - 1], c);
      if r.Some? then
        assert s[r.value + 1..] == s[..|s| - 1][r.value + 1..] + [s[|s| - 1]];
        r
      else
        assert s == s[..|s| - 1] + [s[|s| - 1]];
        r
  }

  /** Where `pathlib` splits a name into stem and suffix: at its last dot,
      provided that dot is neither the first nor the last character. */
  function SuffixStart(name: string): Option<nat>
  {
    match RFind(name, '.')
    case Some(i) => if 0 < i < |name| - 1 then Some(i) else None
    case None => None
  }

  /** `PurePath.stem` of a name. */
  function Stem(name: string): (s: string)
    ensures s <= name
    ensures s == name <==> SuffixStart(name).None?
  {
    match SuffixStart(name)
    case Some(i) => name[..i]
    case None => name
  }

  /** `PurePath.suffix` of a name. */
  function Suffix(name: string): (x: string)
    ensures Stem(name) + x == name
    ensures x == [] || (|x| >= 2 && x[0] == '.' && '.' !in x[1..])
  {
    match SuffixStart(name)
    case Some(i) => name[i..]
    case None => ""
  }

  /** A name is its stem followed by its suffix. The suffix is empty or a
      dot followed by at least one character and no further dot, and a
      non-empty suffix leaves a non-empty stem. */
  lemma StemSuffix(name: string)
    ensures Stem(name) + Suffix(name) == name
    ensures Suffix(name) == [] || (|Suffix(name)| >= 2 && Suffix(name)[0] == '.' && '.' !in Suffix(name)[1..])
    ensures Suffix(name) != [] ==> |Stem(name)| >= 1
  {
    match SuffixStart(name)
    case Some(i) =>
      assert name[i..][1..] == name[i + 1..];
    case None =>
  }

  /** Removing the last suffix: the stem of `base.ext` is `base` whenever
      `base` is not empty and `ext` is a non-empty run without dots. */
  lemma StemOfDotted(base: string, ext: string)
    requires |base| >= 1 && |ext| >= 1 && '.' !in ext
    ensures Stem(base + "." + ext) == base
    ensures Suffix(base + "." + ext) == "." + ext
  {
    var name := base + "." + ext;
    assert name[|base|] == '.';
    assert name[|base| + 1..] == ext;
    assert RFind(name, '.') == Some(|base|);
    assert name[..|base|] == base;
    assert name[|base|..] == "." + ext;
  }

  /** The file inside the archive, and the archive `update_cpes` downloads. */
  const FeedFileName: string := "official-cpe-dictionary_v2.3.xml"
  const ArchiveExtension: string := "zip"
  const ArchiveName: string := FeedFileName + "." + ArchiveExtension

  /** The archive's stem is the feed file's name: `.zip` is dropped and the
      inner `.xml` is kept. */
  lemma ArchiveStem()
    ensures Stem(ArchiveName) == FeedFileName
  {
    assert '.' !in ArchiveExtension by {
      assert ArchiveExtension == ['z', 'i', 'p'];
    }
    StemOfDotted(FeedFileName, ArchiveExtension);
  }

  // ---------------------------------------------------------------------------
  // The outside world and the trace of a run

  /** What the services outside the model do during one run: each download
      attempt, whether `extract_zip` returns, what the feed parse returns
      (`None` where it raises), and each store write and Kafka send. */
  datatype World = World(
    download: nat -> Downloader.AttemptEvent,
    extracts: bool,
    parsed: Option<seq<CpeRecord>>,
    store: StoreEnv)

  /** The steps of a run, as they happen. */
  datatype Step =
    | ResetStep
    | DownloadStep(url: string, dest: Path, attempts: nat)
    | ExtractStep(archive: Path, into: Path)
    | ParseStep(file: Path)
    | UpsertStep(record: CpeRecord)

  /** The exception a run ends with, as the wrapper logs it. */
  datatype RunError =
    | DownloadFailed(error: Downloader.DownloadError)
    | ExtractFailed
    | ParseFailed
    | UpsertFailed

  /** The position of a step in the fixed order of a run. */
  function Phase(s: Step): nat
  {
    match s
    case ResetStep => 0
    case DownloadStep(_, _, _) => 1
    case ExtractStep(_, _) => 2
    case ParseStep(_) => 3
    case UpsertStep(_) => 4
  }

  /** Steps follow the run order, and every step but an upsert happens at
      most once. */
  predicate Ordered(t: seq<Step>)
  {
    forall i, j :: 0 <= i < j < |t| ==> Phase(t[i]) < Phase(t[j]) || (t[i].UpsertStep? && t[j].UpsertStep?)
  }

  /** One upsert step per record, in order. */
  function UpsertSteps(cpes: seq<CpeRecord>): (t: seq<Step>)
    ensures |t| == |cpes|
    ensures forall i :: 0 <= i < |t| ==> t[i] == UpsertStep(cpes[i])
  {
    if cpes == [] then [] else [UpsertStep(cpes[0])] + UpsertSteps(cpes[1..])
  }

  /** A stage of the run: the state it leaves, the steps it took and its
      result or the exception it raised. */
  datatype Stage<T> = Stage(state: State, trace: seq<Step>, result: Result<T, RunError>)

  // ---------------------------------------------------------------------------
  // download_and_extract

  /** `download_and_extract(url, zip_path, extract_to)`: reset the stats,
      download, extract, and return `extract_to / zip_path.stem`. A download
      failure stops it before extraction; an extraction failure stops it
      before it returns. The store is untouched and the stats are the
      initial ones whatever happens. */
  function DownloadAndExtract(s: State, url: string, zipPath: Path, extractTo: Path, w: World): (r: Stage<Path>)
    ensures r.state == ResetStats(s)
    ensures |r.trace| >= 2 && r.trace[0] == ResetStep && r.trace[1].DownloadStep?
    ensures r.trace[1].url == url && r.trace[1].dest == zipPath
    ensures Ordered(r.trace)
    ensures forall i :: 0 <= i < |r.trace| ==> Phase(r.trace[i]) <= 2
    ensures Downloader.DownloadFile(w.download).result.Failure? ==>
              |r.trace| == 2 && r.result == Failure(DownloadFailed(Downloader.DownloadFile(w.download).result.error))
    ensures Downloader.DownloadFile(w.download).result.Success? ==>
              r.trace == r.trace[..2] + [ExtractStep(zipPath, extractTo)]
    ensures r.result.Success? <==> Downloader.DownloadFile(w.download).result.Success? && w.extracts
    ensures r.result.Success? ==> r.result.value == Child(extractTo, Stem(Name(zipPath)))
  {
    var reset := ResetStats(s);
    var d := Downloader.DownloadFile(w.download);
    var t := [ResetStep, DownloadStep(url, zipPath, d.attempts)];
    if d.result.Failure? then
      Stage(reset, t, Failure(DownloadFailed(d.result.error)))
    else
      var t' := t + [ExtractStep(zipPath, extractTo)];
      if !w.extracts then Stage(reset, t', Failure(ExtractFailed))
      else Stage(reset, t', Success(Child(extractTo, Stem(Name(zipPath)))))
  }

  // ---------------------------------------------------------------------------
  // process_cpes

  /** `process_cpes(xml_file_path)`: parse the feed file, then upsert every
      record in order when there is at least one. An empty feed performs no
      upsert. Every upsert runs even when an earlier one raised, and the call
      raises if any did. */
  function ProcessCpes(s: State, file: Path, w: World): (r: Stage<()>)
    ensures |r.trace| >= 1 && r.trace[0] == ParseStep(file)
    ensures w.parsed.None? ==> r == Stage(s, [ParseStep(file)], Failure(ParseFailed))
    ensures w.parsed.Some? ==> r.trace[1..] == UpsertSteps(w.parsed.value)
    ensures forall i :: 1 <= i < |r.trace| ==> r.trace[i].UpsertStep?
    ensures w.parsed.Some? ==> r.state == UpsertAll(s, w.parsed.value, w.store).state
    ensures w.parsed.Some? ==> (r.result == Failure(UpsertFailed) <==> UpsertAll(s, w.parsed.value, w.store).raised)
    ensures r.result.Failure? ==> r.result.error in {ParseFailed, UpsertFailed}
    ensures w.parsed.Some? ==> (r.result.Failure? <==> UpsertAll(s, w.parsed.value, w.store).raised)
    ensures w.parsed.None? <==> r.result == Failure(ParseFailed)
  {
    var t := [ParseStep(file)];
    match w.parsed
    case None => Stage(s, t, Failure(ParseFailed))
    case Some(cpes) =>
      if cpes == [] then
        assert UpsertSteps(cpes) == [];
        Stage(s, t, Success(()))
      else
        var f := UpsertAll(s, cpes, w.store);
        assert (t + UpsertSteps(cpes))[1..] == UpsertSteps(cpes);
        Stage(f.state, t + UpsertSteps(cpes), if f.raised then Failure(UpsertFailed) else Success(()))
  }

  /** An empty feed leaves the store and the counters as they were and
      takes no upsert step. */
  lemma EmptyFeedNoUpsert(s: State, file: Path, w: World)
    requires w.parsed == Some([])
    ensures ProcessCpes(s, file, w).state == s
    ensures ProcessCpes(s, file, w).trace == [ParseStep(file)]
    ensures ProcessCpes(s, file, w).result.Success?
  {
    assert UpsertAll(s, [], w.store).state == s;
  }

  /** Every record is upserted exactly once: the upsert steps of the trace
      are the parsed records, in order, and the counters grow by one insert
      or update per successful write and one error per failed write or send. */
  lemma OneUpsertPerRecord(s: State, file: Path, w: World)
    requires w.parsed.Some?
    ensures var r := ProcessCpes(s, file, w);
            var cpes := w.parsed.value;
            && |r.trace| == |cpes| + 1
            && (forall i :: 0 <= i < |cpes| ==> r.trace[i + 1] == UpsertStep(cpes[i]))
            && r.state.stats.inserted + r.state.stats.updated
               == s.stats.inserted + s.stats.updated + WriteCount(w.store, |cpes|)
            && r.state.stats.errors == s.stats.errors + ErrorCount(w.store, |cpes|)
  {
    var r := ProcessCpes(s, file, w);
    var cpes := w.parsed.value;
    assert |r.trace[1..]| == |cpes|;
    forall i | 0 <= i < |cpes|
      ensures r.trace[i + 1] == UpsertStep(cpes[i])
    {
      assert r.trace[1..][i] == r.trace[i + 1];
    }
  }

  // ---------------------------------------------------------------------------
  // update_cpes

  /** The paths `update_cpes` derives from the files base directory. */
  function DownloadDir(base: Path): Path { Child(base, "downloaded") }
  function ExtractDir(base: Path): Path { Child(DownloadDir(base), "extracted_files") }
  function ArchivePath(base: Path): Path { Child(DownloadDir(base), ArchiveName) }

  /** How a run ends: the state and trace it leaves, the exception the
      `record_stats` wrapper logged in place of raising it, if any, and the
      number of error lines the whole run logged. Those come from three
      places: each `ClientError` the download handler sees, each error
      `create_or_update_cpe` counts (every counted error is logged once), and
      the wrapper's own line for the exception it swallows. The endpoint
      itself returns normally either way. */
  datatype UpdateRun = UpdateRun(state: State, trace: seq<Step>, swallowed: Option<RunError>, errorLogs: nat)

  /** `update_cpes()` under `record_stats()`: download and extract into the
      base directory, then process the extracted feed file; an exception from
      either is logged and swallowed, and the start time and duration are
      recorded in the stats in all cases. */
  function UpdateCpes(s: State, base: Path, url: string, start: nat, elapsed: nat, w: World): (run: UpdateRun)
    ensures Ordered(run.trace)
    ensures |run.trace| >= 2 && run.trace[0] == ResetStep && run.trace[1] == DownloadStep(url, ArchivePath(base), Downloader.DownloadFile(w.download).attempts)
    ensures run.state.stats.lastCalled == Some(start)
    ensures run.state.stats.durations == Some(HumanDuration(elapsed))
    ensures run.errorLogs == Downloader.DownloadFile(w.download).logged + run.state.stats.errors + (if run.swallowed.Some? then 1 else 0)
    ensures run.swallowed.None? <==>
              && Downloader.DownloadFile(w.download).result.Success?
              && w.extracts
              && w.parsed.Some?
              && !UpsertAll(ResetStats(s), w.parsed.value, w.store).raised
    ensures Downloader.DownloadFile(w.download).result.Success? && w.extracts && w.parsed.Some? ==>
              var done := UpsertAll(ResetStats(s), w.parsed.value, w.store).state;
              && run.state.store == done.store
              && run.state.stats.inserted == done.stats.inserted
              && run.state.stats.updated == done.stats.updated
              && run.state.stats.errors == done.stats.errors
    ensures !(Downloader.DownloadFile(w.download).result.Success? && w.extracts && w.parsed.Some?) ==>
              && run.state.store == s.store
              && run.state.stats.inserted == 0
              && run.state.stats.updated == 0
              && run.state.stats.errors == 0
  {
    var de := DownloadAndExtract(s, url, ArchivePath(base), ExtractDir(base), w);
    match de.result
    case Failure(e) =>
      var wrapped := RecordStats<()>(de.state, Raises, start, elapsed);
      var logs := Downloader.DownloadFile(w.download).logged + de.state.stats.errors + 1;
      UpdateRun(wrapped.state, de.trace, Some(e), logs)
    case Success(file) =>
      var pc := ProcessCpes(de.state, file, w);
      var call: Call<()> := if pc.result.Success? then Returns(()) else Raises;
      var wrapped := RecordStats(pc.state, call, start, elapsed);
      var t := de.trace + pc.trace;
      OrderedThenProcess(de.trace, pc.trace);
      var logs := Downloader.DownloadFile(w.download).logged + pc.state.stats.errors + (if pc.result.Success? then 0 else 1);
      UpdateRun(wrapped.state, t, match pc.result case Success(_) => None case Failure(e) => Some(e), logs)
  }

  /** A download-and-extract trace followed by a process trace is in run
      order. */
  lemma OrderedThenProcess(a: seq<Step>, b: seq<Step>)
    requires Ordered(a) && forall i :: 0 <= i < |a| ==> Phase(a[i]) <= 2
    requires |b| >= 1 && b[0].ParseStep? && forall i :: 1 <= i < |b| ==> b[i].UpsertStep?
    ensures Ordered(a + b)
  {
    var t := a + b;
    forall i, j | 0 <= i < j < |t|
      ensures Phase(t[i]) < Phase(t[j]) || (t[i].UpsertStep? && t[j].UpsertStep?)
    {
      if j >= |a| {
        assert t[j] == b[j - |a|];
        if i < |a| {
          assert t[i] == a[i];
        } else {
          assert t[i] == b[i - |a|];
        }
      } else {
        assert t[i] == a[i] && t[j] == a[j];
      }
    }
  }

  /** The feed file `update_cpes` processes is the archive's stem inside the
      extraction directory: `…/downloaded/extracted_files/official-cpe-dictionary_v2.3.xml`. */
  lemma ProcessesExtractedFeed(s: State, base: Path, url: string, start: nat, elapsed: nat, w: World)
    requires Downloader.DownloadFile(w.download).result.Success? && w.extracts
    ensures var run := UpdateCpes(s, base, url, start, elapsed, w);
            && |run.trace| >= 4
            && run.trace[2] == ExtractStep(ArchivePath(base), ExtractDir(base))
            && run.trace[3] == ParseStep(Child(ExtractDir(base), FeedFileName))
  {
    ArchiveStem();
  }

  /** A failed download ends the run before extraction: nothing is parsed or
      written, the store is unchanged and the counters are the reset ones;
      the failure is logged, not raised. */
  lemma DownloadFailureStopsRun(s: State, base: Path, url: string, start: nat, elapsed: nat, w: World)
    requires Downloader.DownloadFile(w.download).result.Failure?
    ensures var run := UpdateCpes(s, base, url, start, elapsed, w);
            && |run.trace| == 2
            && run.state.store == s.store
            && run.state.stats.inserted == 0 && run.state.stats.updated == 0 && run.state.stats.errors == 0
            && run.swallowed == Some(DownloadFailed(Downloader.DownloadFile(w.download).result.error))
  {
  }

  /** A clean run over a non-failing store: every parsed record is counted
      as exactly one insert or update, starting from reset counters, no error
      is counted, the wrapper swallows nothing, and the only error lines
      logged are those of download attempts the retry recovered from. */
  lemma CleanRunCounts(s: State, base: Path, url: string, start: nat, elapsed: nat, w: World)
    requires Downloader.DownloadFile(w.download).result.Success? && w.extracts && w.parsed.Some?
    requires forall i :: 0 <= i < |w.parsed.value| ==> w.store.write(i).Written? && w.store.send(i).Sent?
    ensures var run := UpdateCpes(s, base, url, start, elapsed, w);
            && run.state.stats.inserted + run.state.stats.updated == |w.parsed.value|
            && run.state.stats.errors == 0
            && run.swallowed.None?
            && run.errorLogs == Downloader.DownloadFile(w.download).logged
  {
    CountsFromReset(s, w.parsed.value, w.store);
  }

  /** A run logs no error line at all iff the first download attempt gets a
      response below 400 and saves it, the extraction and the parse succeed,
      and every write and every send succeeds. */
  lemma QuietRun(s: State, base: Path, url: string, start: nat, elapsed: nat, w: World)
    ensures var run := UpdateCpes(s, base, url, start, elapsed, w);
            run.errorLogs == 0 <==>
              && w.download(0).Response? && w.download(0).status < Downloader.FirstErrorStatus
              && w.extracts
              && w.parsed.Some?
              && forall i :: 0 <= i < |w.parsed.value| ==> w.store.write(i).Written? && w.store.send(i).Sent?
  {
    var run := UpdateCpes(s, base, url, start, elapsed, w);
    var d := Downloader.DownloadFile(w.download);
    Downloader.QuietDownload(w.download);
    if d.result.Success? && w.extracts && w.parsed.Some? {
      var cpes := w.parsed.value;
      NoErrors(w.store, |cpes|);
      RunErrorsCounted(s, base, url, start, elapsed, w);
    }
  }

  /** After a successful download, extraction and parse, the run's error
      counter is the number of upserts whose write or send raised. */
  lemma RunErrorsCounted(s: State, base: Path, url: string, start: nat, elapsed: nat, w: World)
    requires Downloader.DownloadFile(w.download).result.Success? && w.extracts && w.parsed.Some?
    ensures UpdateCpes(s, base, url, start, elapsed, w).state.stats.errors == ErrorCount(w.store, |w.parsed.value|)
  {
  }
}
