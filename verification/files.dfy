/** Validation of an uploaded assignment file: its extension, the totality
    check of every asset it names, and the combined verdict. */
module Files {
  import opened Wrappers
  import opened Seqs
  import opened Models
  import opened Assets
  import opened Timeline
  import opened Totality

  // ---------------------------------------------------------------------------
  // The file extension
  // ---------------------------------------------------------------------------

  /** Why a file name was refused. */
  datatype ExtensionError =
    | NoExtension   // no "." anywhere in the name
    | NotCsv        // the text after the last "." is not "csv"

  /** `__file_extension_validation`: `None` accepts the name. */
  function FileExtensionValidation(name: string): (r: Option<ExtensionError>)
    ensures r == Some(NoExtension) <==> '.' !in name
    ensures r == Some(NotCsv) <==> '.' in name && LastSegment(name, '.') != "csv"
    ensures r == None <==> '.' in name && LastSegment(name, '.') == "csv"
  {
    if '.' !in name then Some(NoExtension)
    else if LastSegment(name, '.') != "csv" then Some(NotCsv)
    else None
  }

  /** A name is accepted exactly when it ends in ".csv", in lower case. */
  lemma ExtensionIffCsvSuffix(name: string)
    ensures FileExtensionValidation(name) == None <==> |name| >= 4 && name[|name| - 4..] == ".csv"
  {
    if |name| >= 4 && name[|name| - 4..] == ".csv" {
      var prefix := name[..|name| - 4];
      assert name == prefix + ['.'] + "csv";
      LastSegmentAfter(prefix, '.', "csv");
      assert name[|name| - 4] == '.';
    }
  }

  /** A name without any "." and names whose last segment is not exactly
      "csv" are refused. */
  lemma RefusedNames()
    ensures FileExtensionValidation("assets") == Some(NoExtension)
    ensures FileExtensionValidation("data.csv.txt") == Some(NotCsv)
    ensures FileExtensionValidation("data.CSV") == Some(NotCsv)
  {
    ExtensionIffCsvSuffix("data.csv.txt");
    ExtensionIffCsvSuffix("data.CSV");
  }

  /** "assets.csv" is accepted, and so is ".csv", a name with nothing before
      the extension. */
  lemma AcceptedNames()
    ensures FileExtensionValidation("assets.csv") == None
    ensures FileExtensionValidation(".csv") == None
  {
    ExtensionIffCsvSuffix("assets.csv");
    ExtensionIffCsvSuffix(".csv");
  }

  // ---------------------------------------------------------------------------
  // The totality check over the whole file
  // ---------------------------------------------------------------------------

  /** The rows of the file that name asset `id`. */
  function RowsFor(rows: seq<UploadRow>, id: AssetId): (r: seq<UploadRow>)
    ensures forall x :: x in r <==> x in rows && x.assetId == id
  {
    Filter((x: UploadRow) => x.assetId == id, rows)
  }

  /** The ownership records of asset `id`. */
  function HistoryOf(history: seq<AssetOwnerHistory>, id: AssetId): (r: seq<AssetOwnerHistory>)
    ensures forall h :: h in r <==> h in history && h.asset == Some(id)
  {
    Filter((h: AssetOwnerHistory) => h.asset == Some(id), history)
  }

  /** The timeline of one asset at instant `now`: the file's rows for it and
      its records still open at `now`. */
  function AssetTimeline(rows: seq<UploadRow>, history: seq<AssetOwnerHistory>, now: Instant, id: AssetId): seq<Unit> {
    CreateTimeline(RowsFor(rows, id), OpenAt(HistoryOf(history, id), now))
  }

  /** The stored asset passes its totality check at instant `now`. */
  predicate AssetPasses(a: Asset, rows: seq<UploadRow>, history: seq<AssetOwnerHistory>, now: Instant) {
    TotalityOk(a.quantity, DayOf(now), AssetTimeline(rows, history, now, a.id))
  }

  /** Every asset id names a stored asset. */
  predicate AllKnown(t: Table, ids: seq<AssetId>) {
    forall k :: 0 <= k < |ids| ==> GetAssetById(t, ids[k]).Some?
  }

  /** The work of one iteration of the check: a stored asset and its
      timeline. */
  datatype Job = Job(asset: Asset, timeline: seq<Unit>)

  /** The job for asset `id`, which must be stored. */
  function JobOf(t: Table, rows: seq<UploadRow>, history: seq<AssetOwnerHistory>, now: Instant, id: AssetId): (j: Job)
    requires GetAssetById(t, id).Some?
    ensures j.asset == GetAssetById(t, id).value && j.asset.id == id
    ensures j.timeline == AssetTimeline(rows, history, now, id)
  {
    Job(GetAssetById(t, id).value, AssetTimeline(rows, history, now, id))
  }

  /** The jobs for the asset ids, in order. */
  function JobsOf(t: Table, rows: seq<UploadRow>, history: seq<AssetOwnerHistory>, now: Instant,
                  ids: seq<AssetId>): (r: seq<Job>)
    requires AllKnown(t, ids)
    ensures |r| == |ids|
    ensures forall k :: 0 <= k < |ids| ==> r[k] == JobOf(t, rows, history, now, ids[k])
  {
    seq(|ids|, k requires 0 <= k < |ids| => JobOf(t, rows, history, now, ids[k]))
  }

  /** The job's asset passes its totality check on day `today`. */
  predicate JobPasses(j: Job, today: Day) {
    TotalityOk(j.asset.quantity, today, j.timeline)
  }

  /** The error entries of the jobs, concatenated in order. */
  function AllViolations(jobs: seq<Job>, today: Day): seq<Violation> {
    if |jobs| == 0 then []
    else
      var j := jobs[|jobs| - 1];
      AllViolations(jobs[..|jobs| - 1], today) + Violations(j.asset.id, j.asset.quantity, today, j.timeline)
  }

  /** The concatenated error entries are empty exactly when every job
      passes. */
  lemma {:induction false} AllViolationsEmptyIff(jobs: seq<Job>, today: Day)
    ensures AllViolations(jobs, today) == [] <==> forall k :: 0 <= k < |jobs| ==> JobPasses(jobs[k], today)
  {
    if |jobs| > 0 {
      var n := |jobs| - 1;
      var j := jobs[n];
      assert forall k :: 0 <= k < n ==> jobs[..n][k] == jobs[k];
      AllViolationsEmptyIff(jobs[..n], today);
      ViolationsEmptyIff(j.asset.id, j.asset.quantity, today, j.timeline);
      ConcatEmpty(AllViolations(jobs[..n], today), Violations(j.asset.id, j.asset.quantity, today, j.timeline));
    }
  }

  /** An asset id of the file that names no stored asset: the source reads
      the quantity of `None` and raises. */
  datatype TotalityError = UnknownAsset(id: AssetId)

  /** The position of the first asset id that names no stored asset. */
  function FirstUnknown(t: Table, ids: seq<AssetId>): (r: Option<nat>)
    ensures r.None? <==> AllKnown(t, ids)
    ensures r.Some? ==> r.value < |ids| && GetAssetById(t, ids[r.value]).None? && AllKnown(t, ids[..r.value])
  {
    if |ids| == 0 then None
    else if GetAssetById(t, ids[0]).None? then Some(0)
    else
      match FirstUnknown(t, ids[1..])
      case None => None
      case Some(k) => Some(k + 1)
  }

  /** One more job appends its own error entries. */
  lemma AllViolationsStep(jobs: seq<Job>, i: nat, today: Day)
    requires i < |jobs|
    ensures var j := jobs[i];
            AllViolations(jobs[..i + 1], today)
            == AllViolations(jobs[..i], today) + Violations(j.asset.id, j.asset.quantity, today, j.timeline)
  {
    assert jobs[..i + 1][..i] == jobs[..i];
  }

  /** Runs the totality check of every job in turn. */
  method CheckJobs(jobs: seq<Job>, today: Day) returns (ok: bool, messages: seq<Violation>)
    ensures ok <==> forall k :: 0 <= k < |jobs| ==> JobPasses(jobs[k], today)
    ensures messages == AllViolations(jobs, today)
  {
    ok := true;
    messages := [];
    var i := 0;
    while i < |jobs|
      invariant 0 <= i <= |jobs|
      invariant messages == AllViolations(jobs[..i], today)
      invariant ok <==> messages == []
    {
      var j := jobs[i];
      var pass, errs := RunTotalityCheck(j.asset.id, j.asset.quantity, today, j.timeline);
      AllViolationsStep(jobs, i, today);
      ConcatEmpty(messages, errs);
      if !pass {
        messages := messages + errs;
        ok := false;
      } else {
        assert messages + errs == messages;
      }
      i := i + 1;
    }
    assert jobs[..|jobs|] == jobs;
    AllViolationsEmptyIff(jobs, today);
  }

  /** The jobs of stored assets pass exactly when those assets do. */
  lemma JobsPass(t: Table, rows: seq<UploadRow>, history: seq<AssetOwnerHistory>, now: Instant, ids: seq<AssetId>)
    requires AllKnown(t, ids)
    ensures var jobs := JobsOf(t, rows, history, now, ids);
            (forall k :: 0 <= k < |jobs| ==> JobPasses(jobs[k], DayOf(now)))
            <==> forall k :: 0 <= k < |ids| ==> AssetPasses(GetAssetById(t, ids[k]).value, rows, history, now)
  {
    var jobs := JobsOf(t, rows, history, now, ids);
    forall k | 0 <= k < |ids|
      ensures JobPasses(jobs[k], DayOf(now)) <==> AssetPasses(GetAssetById(t, ids[k]).value, rows, history, now)
    {
      JobPassesIff(t, rows, history, now, ids[k]);
    }
  }

  /** The job of a stored asset passes exactly when the asset does. */
  lemma JobPassesIff(t: Table, rows: seq<UploadRow>, history: seq<AssetOwnerHistory>, now: Instant, id: AssetId)
    requires GetAssetById(t, id).Some?
    ensures JobPasses(JobOf(t, rows, history, now, id), DayOf(now)) <==> AssetPasses(GetAssetById(t, id).value, rows, history, now)
  {
    var j := JobOf(t, rows, history, now, id);
    assert j.timeline == AssetTimeline(rows, history, now, j.asset.id);
  }

  /** `__check_file_in_totality`: runs the totality check of every asset id
      in turn. The verdict holds when every asset passes (so also when there
      are none); the error entries of the failing assets are concatenated in
      the order the ids are visited. The first id that names no stored asset
      makes the check raise, whatever came before it. */
  method CheckFileInTotality(t: Table, rows: seq<UploadRow>, history: seq<AssetOwnerHistory>, now: Instant,
                             ids: seq<AssetId>)
    returns (r: Result<(bool, seq<Violation>), TotalityError>)
    ensures r.Failure? <==> !AllKnown(t, ids)
    ensures r.Failure? ==> r.error.id in ids && GetAssetById(t, r.error.id).None?
    ensures r.Success? ==> (r.value.0 <==> forall k :: 0 <= k < |ids| ==> AssetPasses(GetAssetById(t, ids[k]).value, rows, history, now))
    ensures r.Success? ==> r.value.1 == AllViolations(JobsOf(t, rows, history, now, ids), DayOf(now))
    ensures r.Success? ==> (r.value.0 <==> r.value.1 == [])
  {
    match FirstUnknown(t, ids)
    case Some(k) =>
      return Failure(UnknownAsset(ids[k]));
    case None =>
      var jobs := JobsOf(t, rows, history, now, ids);
      var ok, messages := CheckJobs(jobs, DayOf(now));
      JobsPass(t, rows, history, now, ids);
      AllViolationsEmptyIff(jobs, DayOf(now));
      return Success((ok, messages));
  }

  /** With a non-negative stock, an asset's verdict does not depend on the
      file's rows at all: only its open records can make it fail. */
  lemma UploadRowsNeverDecide(a: Asset, rows: seq<UploadRow>, history: seq<AssetOwnerHistory>, now: Instant)
    requires a.quantity >= 0
    ensures AssetPasses(a, rows, history, now) <==> AssetPasses(a, [], history, now)
  {
    RowsNeverDecide(a.quantity, DayOf(now), RowsFor(rows, a.id), OpenAt(HistoryOf(history, a.id), now));
    assert RowsFor([], a.id) == [];
  }

  // ---------------------------------------------------------------------------
  // The verdict on the whole file
  // ---------------------------------------------------------------------------

  /** The outcome of `validate_file`. */
  datatype UploadVerdict =
    | BadExtension(reason: ExtensionError)           // answered with a 400
    | TotalityFailed(error: TotalityError)           // the check raised
    | Checked(status: bool, totalityOk: bool, messages: seq<Violation>)

  /** The asset ids of the rows, each once. The source builds a set and
      iterates over it in hash order; order of first occurrence is this
      model's choice, and it fixes the order of the concatenated messages. */
  function AssetIds(rows: seq<UploadRow>): (r: seq<AssetId>)
    ensures NoDuplicates(r)
    ensures forall id :: id in r <==> exists x :: x in rows && x.assetId == id
  {
    var all := Map((x: UploadRow) => x.assetId, rows);
    assert forall id :: id in all <==> exists x :: x in rows && x.assetId == id by {
      forall id ensures id in all <==> exists x :: x in rows && x.assetId == id {
        if id in all {
          var k :| 0 <= k < |rows| && all[k] == id;
          assert rows[k] in rows;
        }
        if exists x :: x in rows && x.assetId == id {
          var x :| x in rows && x.assetId == id;
          var k :| 0 <= k < |rows| && rows[k] == x;
          assert all[k] == id;
        }
      }
    }
    Distinct(all)
  }

  /** Every row names a stored asset. */
  predicate RowsKnown(t: Table, rows: seq<UploadRow>) {
    forall x :: x in rows ==> GetAssetById(t, x.assetId).Some?
  }

  /** Every row names a stored asset that passes its totality check. */
  predicate FilePasses(t: Table, rows: seq<UploadRow>, history: seq<AssetOwnerHistory>, now: Instant) {
    forall x :: x in rows ==> GetAssetById(t, x.assetId).Some? && AssetPasses(GetAssetById(t, x.assetId).value, rows, history, now)
  }

  /** A property holds of every distinct asset id exactly when it holds of
      the asset id of every row. */
  lemma EachIdEachRow(rows: seq<UploadRow>, p: AssetId -> bool)
    ensures (forall k :: 0 <= k < |AssetIds(rows)| ==> p(AssetIds(rows)[k])) <==> forall x :: x in rows ==> p(x.assetId)
  {
    var ids := AssetIds(rows);
    if forall k :: 0 <= k < |ids| ==> p(ids[k]) {
      forall x | x in rows ensures p(x.assetId) {
        assert x.assetId in ids;
      }
    }
    if forall x :: x in rows ==> p(x.assetId) {
      forall k | 0 <= k < |ids| ensures p(ids[k]) {
        assert ids[k] in ids;
      }
    }
  }

  /** Every distinct asset id names a stored asset exactly when every row
      does. */
  lemma DistinctIdsKnown(t: Table, rows: seq<UploadRow>)
    ensures AllKnown(t, AssetIds(rows)) <==> RowsKnown(t, rows)
  {
    EachIdEachRow(rows, (id: AssetId) => GetAssetById(t, id).Some?);
  }

  /** Checking each distinct asset id once decides the same as checking the
      asset of every row. */
  lemma DistinctIdsSuffice(t: Table, rows: seq<UploadRow>, history: seq<AssetOwnerHistory>, now: Instant)
    requires RowsKnown(t, rows)
    ensures AllKnown(t, AssetIds(rows))
    ensures (forall k :: 0 <= k < |AssetIds(rows)| ==> AssetPasses(GetAssetById(t, AssetIds(rows)[k]).value, rows, history, now))
            <==> FilePasses(t, rows, history, now)
  {
    DistinctIdsKnown(t, rows);
    EachIdEachRow(rows, (id: AssetId) => GetAssetById(t, id).Some? && AssetPasses(GetAssetById(t, id).value, rows, history, now));
  }

  /** `FileService.validate_file` over `run_validations`: a refused name ends
      the validation; otherwise the overall status is the row-wise verdict
      (an input here) and the totality verdict together, the totality check
      running over the distinct asset ids of the rows. A false row-wise
      verdict is modelled by its evident intent: the totality check still
      runs over the uploaded rows. */
  method ValidateFile(name: string, rowWiseOk: bool, t: Table, rows: seq<UploadRow>,
                      history: seq<AssetOwnerHistory>, now: Instant)
    returns (v: UploadVerdict)
    ensures v.BadExtension? <==> FileExtensionValidation(name).Some?
    ensures v.BadExtension? ==> v.reason == FileExtensionValidation(name).value
    ensures v.TotalityFailed? <==> FileExtensionValidation(name).None? && !RowsKnown(t, rows)
    ensures v.TotalityFailed? ==> exists x :: x in rows && x.assetId == v.error.id && GetAssetById(t, x.assetId).None?
    ensures v.Checked? ==> (v.status <==> rowWiseOk && v.totalityOk)
    ensures v.Checked? ==> (v.totalityOk <==> FilePasses(t, rows, history, now))
    ensures v.Checked? ==> (v.totalityOk <==> v.messages == [])
  {
    var bad := FileExtensionValidation(name);
    if bad.Some? {
      return BadExtension(bad.value);
    }
    var ids := AssetIds(rows);
    DistinctIdsKnown(t, rows);
    if RowsKnown(t, rows) {
      DistinctIdsSuffice(t, rows, history, now);
    }
    var r := CheckFileInTotality(t, rows, history, now, ids);
    match r
    case Failure(e) =>
      return TotalityFailed(e);
    case Success((ok, messages)) =>
      return Checked(rowWiseOk && ok, ok, messages);
  }
}
