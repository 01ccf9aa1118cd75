/** The run orchestrator (`handler`) and the upload step of `uploadToS3`:
    scan, export only a non-empty result, and hand the list or the error to
    the caller. The bucket is an object store whose `objects` field is the
    log of everything `putObject` wrote. */
module Orchestrator {
  import opened Wrappers
  import opened Age
  import opened Suppression
  import opened Scanner
  import opened Report

  /** Configuration read once at start-up (`UnusedDays`, `BucketName`). */
  datatype Config = Config(maxUnusedDays: int, bucketName: string)

  /** What one invocation sees of its collaborators and clock. */
  datatype Invocation = Invocation(
    suppressionParameter: Result<Option<string>>,  // getParameter: its value, or the error it throws
    source: Source,                                // listSecrets, by continuation token
    now: int,                                      // the time getDaysUnused reads
    exportTime: int,                               // the time the object key is built from
    iso: IsoRenderer,                              // Date.toISOString
    deadline: nat,                                 // listSecrets requests the run may make
    sinkOutage: Option<Error>)                     // the error putObject throws, if any

  datatype StoredObject = StoredObject(bucket: string, key: string, body: Table, contentType: string)

  /** The `putObject` parameters for a list of candidates. */
  function ReportObject(cfg: Config, unused: seq<Candidate>, exportTime: int, iso: IsoRenderer): StoredObject
  {
    StoredObject(cfg.bucketName, ReportKey(iso(exportTime)), BuildTable(unused, iso), ContentType)
  }

  /** The storage sink: every object written, in order. */
  class ObjectStore {
    var objects: seq<StoredObject>

    constructor ()
      ensures objects == []
    {
      objects := [];
    }

    /** `s3.putObject`: stores the object, or throws `outage` and stores
        nothing. */
    method PutObject(obj: StoredObject, outage: Option<Error>) returns (outcome: Outcome)
      modifies this
      ensures outcome == if outage.Some? then Fail(outage.value) else Pass
      ensures objects == if outage.Some? then old(objects) else old(objects) + [obj]
    {
      if outage.Some? {
        return Fail(outage.value);
      }
      objects := objects + [obj];
      return Pass;
    }
  }

  /** What an invocation reports to its callback and what it leaves in the
      bucket. */
  datatype RunOutcome = RunOutcome(result: Result<seq<Candidate>>, uploads: seq<StoredObject>)

  function Run(cfg: Config, inv: Invocation): RunOutcome
  {
    match ScanResult(inv.suppressionParameter, inv.source, cfg.maxUnusedDays, inv.now, inv.deadline)
    case Failure(e) => RunOutcome(Failure(e), [])
    case Success(unused) =>
      if |unused| == 0 then RunOutcome(Success(unused), [])
      else if inv.sinkOutage.Some? then RunOutcome(Failure(inv.sinkOutage.value), [])
      else RunOutcome(Success(unused), [ReportObject(cfg, unused, inv.exportTime, inv.iso)])
  }

  /** A run writes at most one object, and writes one exactly when the scan
      found something and the upload went through. */
  lemma ExportOnlyWhenNonEmpty(cfg: Config, inv: Invocation)
    ensures var scan := ScanResult(inv.suppressionParameter, inv.source, cfg.maxUnusedDays, inv.now, inv.deadline);
      |Run(cfg, inv).uploads| <= 1 &&
      (|Run(cfg, inv).uploads| == 1 <==> scan.Success? && |scan.value| > 0 && inv.sinkOutage.None?)
  {
  }

  /** A successful run returns the scanned list; a failed one returns the
      failure of the first step that threw and writes nothing. */
  lemma RunReportsScanOrFirstError(cfg: Config, inv: Invocation)
    ensures var scan := ScanResult(inv.suppressionParameter, inv.source, cfg.maxUnusedDays, inv.now, inv.deadline);
      var run := Run(cfg, inv);
      (run.result.Success? ==> scan.Success? && run.result.value == scan.value) &&
      (scan.Failure? ==> run.result == Failure(scan.error)) &&
      (run.result.Failure? ==>
        run.uploads == [] && (scan.Failure? || (|scan.value| > 0 && inv.sinkOutage == Some(run.result.error))))
  {
  }

  /** The exported object: the configured bucket, the key of the export
      time, a text/csv body with the fixed header and one row per returned
      candidate, in order. */
  lemma ExportedObjectDescribesResult(cfg: Config, inv: Invocation, i: nat)
    requires |Run(cfg, inv).uploads| == 1
    ensures var run := Run(cfg, inv);
      var obj := run.uploads[0];
      run.result.Success? &&
      obj.bucket == cfg.bucketName && obj.key == ReportKey(inv.iso(inv.exportTime)) &&
      obj.contentType == "text/csv" && obj.body.header == ["Name", "LastAccessedDate", "DaysUnused"] &&
      |obj.body.rows| == |run.result.value| &&
      (i < |run.result.value| ==> obj.body.rows[i] == ProjectRow(run.result.value[i], inv.iso))
  {
  }

  /** The upload step of `uploadToS3`: render the rows and put one object
      under the key of the export time. */
  method UploadToS3(cfg: Config, unused: seq<Candidate>, inv: Invocation, store: ObjectStore) returns (outcome: Outcome)
    modifies store
    ensures outcome == if inv.sinkOutage.Some? then Fail(inv.sinkOutage.value) else Pass
    ensures store.objects == old(store.objects) +
      if inv.sinkOutage.Some? then [] else [ReportObject(cfg, unused, inv.exportTime, inv.iso)]
  {
    var table := BuildTable(unused, inv.iso);
    var key := ReportKey(inv.iso(inv.exportTime));
    outcome := store.PutObject(StoredObject(cfg.bucketName, key, table, ContentType), inv.sinkOutage);
  }

  /** `handler`: scan, upload when something was found, then pass the list
      or the error to the callback (the returned value). */
  method Handler(cfg: Config, inv: Invocation, store: ObjectStore) returns (result: Result<seq<Candidate>>)
    modifies store
    ensures result == Run(cfg, inv).result
    ensures store.objects == old(store.objects) + Run(cfg, inv).uploads
  {
    var unusedSecrets := GetUnusedSecrets(inv.suppressionParameter, inv.source, cfg.maxUnusedDays, inv.now, inv.deadline);
    if unusedSecrets.Failure? {
      return Failure(unusedSecrets.error);
    }
    if |unusedSecrets.value| > 0 {
      var uploaded := UploadToS3(cfg, unusedSecrets.value, inv, store);
      if uploaded.Fail? {
        return Failure(uploaded.error);
      }
    }
    return Success(unusedSecrets.value);
  }

  /** 2024-06-01T00:00:00Z, 2024-01-01T00:00:00Z and 2024-05-20T00:00:00Z in
      milliseconds. */
  const June1: int := 1717200000000
  const January1: int := 1704067200000
  const May20: int := 1716163200000

  function OnePage(entries: seq<Entry>): Source
  {
    token => if token == None then Success(Page(Some(entries), None)) else Failure(ListSecretsFailed("unknown token"))
  }

  /** A one-page inventory is scanned in a single request. */
  lemma OnePageScan(entries: seq<Entry>, value: Option<string>, threshold: int, now: int, budget: nat)
    requires budget >= 1
    ensures ScanResult(Success(value), OnePage(entries), threshold, now, budget) ==
      Success(Select(entries, SuppressionList(value), threshold, now))
  {
    var page := Page(Some(entries), None);
    assert Walk(OnePage(entries), None, budget) == Success([page]);
    assert [page][..0] == [];
    assert Flatten([page]) == entries;
  }

  const StaleFreshAndNever: seq<Entry> := [Entry("A", Some(January1)), Entry("B", None), Entry("C", Some(May20))]

  lemma SelectOnlyStale()
    ensures Select(StaleFreshAndNever, [""], 90, June1) == [Candidate("A", Some(January1), Some(152))]
  {
    var entries := StaleFreshAndNever;
    DaysUnusedWholeDays(January1, June1, 152);
    DaysUnusedWholeDays(May20, June1, 12);
    assert Flagged(entries[0], [""], 90, June1);
    assert !Flagged(entries[1], [""], 90, June1);
    assert !Flagged(entries[2], [""], 90, June1);
    assert entries[1..][1..] == [Entry("C", Some(May20))];
    assert Select(entries[1..][1..], [""], 90, June1) == [];
    assert Select(entries[1..], [""], 90, June1) == [];
  }

  /** Threshold 90, no suppressions: A (152 days), B (never accessed) and
      C (12 days). Only A is reported, with 152 days, in one object. */
  lemma ScenarioOnlyStaleSecretReported(iso: IsoRenderer, exportTime: int)
    ensures var inv := Invocation(Success(None), OnePage(StaleFreshAndNever), June1, exportTime, iso, 5, None);
      var run := Run(Config(90, "bucket"), inv);
      run.result == Success([Candidate("A", Some(January1), Some(152))]) &&
      |run.uploads| == 1 && run.uploads[0].body.rows == [Row("A", iso(January1), "152")]
  {
    OnePageScan(StaleFreshAndNever, None, 90, June1, 5);
    assert SuppressionList(None) == [""];
    SelectOnlyStale();
    assert DecimalString(152) == "152";
  }

  /** Threshold 30, D accessed 40 days ago but suppressed: nothing is
      reported and nothing is written. */
  lemma ScenarioSuppressedSecretNotReported(iso: IsoRenderer, exportTime: int)
    ensures var inv := Invocation(Success(Some("D")),
        OnePage([Entry("D", Some(June1 - 40 * MillisPerDay))]),
        June1, exportTime, iso, 5, None);
      Run(Config(30, "bucket"), inv) == RunOutcome(Success([]), [])
  {
    OnePageScan([Entry("D", Some(June1 - 40 * MillisPerDay))], Some("D"), 30, June1, 5);
    SplitJoin(["D"]);
    assert SuppressionList(Some("D")) == ["D"];
  }

  /** An inventory error on the second page fails the run: the first page's
      candidates are neither returned nor exported. */
  lemma SecondPageFailureFailsRun(cfg: Config, inv: Invocation, value: Option<string>, first: Page, e: Error)
    requires inv.suppressionParameter == Success(value) && inv.deadline >= 2
    requires inv.source(None) == Success(first) && EntriesOf(first) != [] && Truthy(first.nextToken)
    requires inv.source(first.nextToken) == Failure(e)
    ensures Run(cfg, inv) == RunOutcome(Failure(e), [])
  {
    SecondPageFailureAbortsScan(value, inv.source, cfg.maxUnusedDays, inv.now, inv.deadline, first, e);
  }
}
