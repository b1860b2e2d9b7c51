/** The per-file medallion pipeline (Bronze upload, Silver refinement,
    Gold aggregation, validation read from the bucket) and the batch loop
    over every listed file. Local files and bucket objects are maps from
    path or key to content; every outside effect that can fail is a
    parameter of the environment. */
module Pipeline {
  import opened Results
  import opened Paths
  import opened Tables
  import opened Lister
  import opened Naming
  import Silver
  import Gold

  /** The directory the pipeline reads its input from. */
  const InputDir := "data"

  /** Content of a local file or bucket object: one the pipeline did not
      write (identified only by an id), or a parquet artifact it wrote.
      Writing a parquet file and reading it back gives the same table. */
  datatype Blob = Original(id: nat) | SilverFile(table: Frame<string>) | GoldFile(summary: Gold.Summary)

  /** The local disk, keyed by path text (so two paths naming one file,
      through a link, are two entries), and the bucket, keyed by object key. */
  datatype Store = Store(disk: map<string, Blob>, bucket: map<string, Blob>)

  /** Why a stage failed: the local file is gone, the CSV reader found
      nothing to parse, or anything else (storage access, serialisation). */
  datatype StageError = MissingFile | EmptyData | Failure

  /** The outside world. `readCsv` is the CSV reader applied to a file's
      content; `stampOf` is the text of the clock reading taken when a file
      enters Silver; the three `...Fails` say which writes, uploads (local
      path, key) and bucket reads fail. */
  datatype Env = Env(
    readCsv: Blob -> Result<Frame<Value>, StageError>,
    stampOf: string -> string,
    writeFails: string -> bool,
    uploadFails: (string, string) -> bool,
    remoteReadFails: string -> bool)

  /** What a stage returns (a path or key, or an error) and the state of
      the world after it, failure or not. */
  datatype Step = Step(out: Result<string, StageError>, store: Store)

  /** `upload_file(local, bucket, key)`: the object becomes a copy of the
      local file, replacing any earlier one. */
  function Upload(s: Store, env: Env, local: string, key: string): Step {
    if local !in s.disk then Step(Err(MissingFile), s)
    else if env.uploadFails(local, key) then Step(Err(Failure), s)
    else Step(Ok(key), s.(bucket := s.bucket[key := s.disk[local]]))
  }

  /** Writing a parquet file locally, replacing any file at that path. */
  function WriteLocal(s: Store, env: Env, path: string, blob: Blob): Step {
    if env.writeFails(path) then Step(Err(Failure), s)
    else Step(Ok(path), s.(disk := s.disk[path := blob]))
  }

  /** Bronze: the file, unchanged, to `raw/<name>`. */
  function IngestBronze(s: Store, env: Env, path: string, name: string): Step {
    Upload(s, env, path, RawKey(name))
  }

  /** Silver: read the CSV, refine it, write the parquet beside the input
      and upload it to `silver/<name>`; returns the local parquet path. */
  function ProcessSilver(s: Store, env: Env, path: string): Step {
    if path !in s.disk then Step(Err(MissingFile), s)
    else
      match env.readCsv(s.disk[path])
      case Err(e) => Step(Err(e), s)
      case Ok(raw) =>
        var name := SilverName(Basename(path));
        var local := Join(Dirname(path), name);
        var written := WriteLocal(s, env, local, SilverFile(Silver.Transform(raw, env.stampOf(path))));
        if written.out.Err? then written
        else
          var uploaded := Upload(written.store, env, local, SilverKey(name));
          if uploaded.out.Err? then uploaded else Step(Ok(local), uploaded.store)
  }

  /** Gold: read the Silver parquet back from the local disk, aggregate it,
      write the result beside it and upload it to `gold/<name>`; returns the
      local Gold path. */
  function ProcessGold(s: Store, env: Env, silverPath: string): Step {
    if silverPath !in s.disk then Step(Err(MissingFile), s)
    else if !s.disk[silverPath].SilverFile? then Step(Err(Failure), s)
    else
      var name := GoldName(Basename(silverPath));
      var local := Join(Dirname(silverPath), name);
      var written := WriteLocal(s, env, local, GoldFile(Gold.Aggregate(s.disk[silverPath].table)));
      if written.out.Err? then written
      else
        var uploaded := Upload(written.store, env, local, GoldKey(name));
        if uploaded.out.Err? then uploaded else Step(Ok(local), uploaded.store)
  }

  /** Result of the validation read. */
  datatype Check = NotAttempted | Unreadable | Readable(rows: nat)

  /** Rows of a parquet object, if it is one. */
  function ParquetRows(b: Blob): Check {
    match b
    case Original(_) => Unreadable
    case SilverFile(t) => Readable(|t.rows|)
    case GoldFile(g) => Readable(Gold.GoldRows(g))
  }

  /** The validation read of `key` straight from the bucket. Its failure is
      reported and goes no further. */
  function ValidateCloud(s: Store, env: Env, key: string): (c: Check)
    ensures c != NotAttempted
  {
    if key !in s.bucket || env.remoteReadFails(key) then Unreadable
    else ParquetRows(s.bucket[key])
  }

  datatype Stage = BronzeStage | SilverStage | GoldStage

  /** How the pipeline went for one file: stopped by the failure of one
      stage, or through Gold, with the validation result. */
  datatype Outcome =
    | Aborted(stage: Stage, error: StageError)
    | Completed(silverPath: string, goldPath: string, validation: Check)

  datatype FileReport = FileReport(file: string, outcome: Outcome)

  /** One file through the four stages in order; the first failing stage
      ends that file's run. Gold runs on whatever path Silver returned;
      validation runs only when Gold returned a non-empty path. */
  function ProcessFile(s: Store, env: Env, path: string): (r: (FileReport, Store))
    ensures r.0.file == path
  {
    var bronze := IngestBronze(s, env, path, Basename(path));
    if bronze.out.Err? then (FileReport(path, Aborted(BronzeStage, bronze.out.error)), bronze.store)
    else
      var silver := ProcessSilver(bronze.store, env, path);
      if silver.out.Err? then (FileReport(path, Aborted(SilverStage, silver.out.error)), silver.store)
      else
        var gold := ProcessGold(silver.store, env, silver.out.value);
        if gold.out.Err? then (FileReport(path, Aborted(GoldStage, gold.out.error)), gold.store)
        else
          var goldPath := gold.out.value;
          var validation := if goldPath != "" then ValidateCloud(gold.store, env, GoldKey(Basename(goldPath))) else NotAttempted;
          (FileReport(path, Completed(silver.out.value, goldPath, validation)), gold.store)
  }

  datatype Batch = Batch(reports: seq<FileReport>, store: Store)

  /** What is done to one file: a report and the state it leaves. */
  type FileStep = (Store, string) -> (FileReport, Store)

  /** The pipeline for one file, in a given environment. */
  function FilePipeline(env: Env): FileStep {
    (st: Store, path: string) => ProcessFile(st, env, path)
  }

  /** The files processed one after the other, each from the state the
      previous ones left, whatever became of them. */
  function RunFiles(s: Store, step: FileStep, files: seq<string>): Batch
    decreases |files|
  {
    if files == [] then Batch([], s)
    else
      var before := RunFiles(s, step, files[..|files| - 1]);
      var after := step(before.store, files[|files| - 1]);
      Batch(before.reports + [after.0], after.1)
  }

  /** The whole run: list the input directory, stop at once when it holds
      no file, and otherwise take every file through the pipeline, a
      failing file never stopping the ones after it. */
  method RunPipeline(d: Directory, env: Env, s0: Store) returns (reports: seq<FileReport>, s: Store)
    ensures Batch(reports, s) == RunFiles(s0, FilePipeline(env), Listed(InputDir, d))
    ensures Listed(InputDir, d) == [] ==> reports == [] && s == s0
  {
    var files := ListFiles(InputDir, d);
    reports, s := [], s0;
    if files == [] {
      return;
    }
    for i := 0 to |files|
      invariant Batch(reports, s) == RunFiles(s0, FilePipeline(env), files[..i])
    {
      assert files[..i + 1][..i] == files[..i];
      var done := ProcessFile(s, env, files[i]);
      reports, s := reports + [done.0], done.1;
    }
    assert files[..|files|] == files;
  }

  // ---------------------------------------------------------------------
  // Properties of one file's run

  /** Bronze succeeds exactly when the file exists and its upload goes
      through, and then only adds the raw copy. */
  lemma BronzeResult(s: Store, env: Env, path: string, name: string)
    ensures IngestBronze(s, env, path, name).out.Ok? <==> path in s.disk && !env.uploadFails(path, RawKey(name))
    ensures IngestBronze(s, env, path, name).store ==
      if IngestBronze(s, env, path, name).out.Ok? then s.(bucket := s.bucket[RawKey(name) := s.disk[path]]) else s
  {
  }

  /** Silver succeeds exactly when the file exists, parses, and its parquet
      is written and uploaded; it then writes the refined table beside the
      input and uploads it under `silver/`. */
  lemma SilverResult(s: Store, env: Env, path: string)
    ensures ProcessSilver(s, env, path).out.Ok? <==>
      && path in s.disk && env.readCsv(s.disk[path]).Ok?
      && !env.writeFails(SilverPath(path))
      && !env.uploadFails(SilverPath(path), SilverKey(SilverName(Basename(path))))
    ensures ProcessSilver(s, env, path).out.Ok? ==>
      var t := Silver.Transform(env.readCsv(s.disk[path]).value, env.stampOf(path));
      ProcessSilver(s, env, path) == Step(Ok(SilverPath(path)),
        Store(s.disk[SilverPath(path) := SilverFile(t)], s.bucket[SilverKey(SilverName(Basename(path))) := SilverFile(t)]))
    ensures ProcessSilver(s, env, path).out.Err? ==>
      ProcessSilver(s, env, path).store.bucket == s.bucket && SameExcept(s.disk, ProcessSilver(s, env, path).store.disk, SilverPath(path))
  {
  }

  /** Gold succeeds exactly when the Silver parquet is there and the Gold
      parquet is written and uploaded; it then writes the summary beside the
      Silver file and uploads it under `gold/`. On failure it uploaded
      nothing and wrote at most the Gold parquet. */
  lemma GoldResult(s: Store, env: Env, sp: string)
    ensures ProcessGold(s, env, sp).out.Ok? <==>
      && sp in s.disk && s.disk[sp].SilverFile?
      && !env.writeFails(GoldPath(sp))
      && !env.uploadFails(GoldPath(sp), GoldKey(GoldName(Basename(sp))))
    ensures ProcessGold(s, env, sp).out.Ok? ==>
      var g := GoldFile(Gold.Aggregate(s.disk[sp].table));
      ProcessGold(s, env, sp) == Step(Ok(GoldPath(sp)),
        Store(s.disk[GoldPath(sp) := g], s.bucket[GoldKey(GoldName(Basename(sp))) := g]))
    ensures ProcessGold(s, env, sp).out.Err? ==>
      ProcessGold(s, env, sp).store.bucket == s.bucket && SameExcept(s.disk, ProcessGold(s, env, sp).store.disk, GoldPath(sp))
  {
  }

  /** Every outside step a file needs succeeds. */
  predicate StagesSucceed(s: Store, env: Env, path: string) {
    var sp := SilverPath(path);
    var gp := GoldPath(sp);
    && path in s.disk
    && !env.uploadFails(path, RawKey(Basename(path)))
    && env.readCsv(s.disk[path]).Ok?
    && !env.writeFails(sp)
    && !env.uploadFails(sp, SilverKey(SilverName(Basename(path))))
    && !env.writeFails(gp)
    && !env.uploadFails(gp, GoldKey(GoldName(Basename(sp))))
  }

  /** A file goes through Gold exactly when every outside step it needs
      succeeds; the validation read plays no part. */
  lemma CompletesIff(s: Store, env: Env, path: string)
    ensures ProcessFile(s, env, path).0.outcome.Completed? <==> StagesSucceed(s, env, path)
  {
    var bronze := IngestBronze(s, env, path, Basename(path));
    BronzeResult(s, env, path, Basename(path));
    if bronze.out.Ok? {
      SilverResult(bronze.store, env, path);
      var silver := ProcessSilver(bronze.store, env, path);
      if silver.out.Ok? {
        GoldResult(silver.store, env, silver.out.value);
      }
    }
  }

  /** What a successful run of one file leaves behind: the Silver parquet
      and then the Gold parquet on disk (the later write winning where the
      two paths coincide), the raw copy, the Silver table and the Gold
      summary in the bucket, and a validation read of exactly the key the
      Gold summary was uploaded under. */
  lemma CompletedEffects(s: Store, env: Env, path: string)
    requires StagesSucceed(s, env, path)
    ensures
      var t := Silver.Transform(env.readCsv(s.disk[path]).value, env.stampOf(path));
      var summary := Gold.Aggregate(t);
      var sp := SilverPath(path);
      var gp := GoldPath(sp);
      var goldKey := GoldKey(GoldName(Basename(sp)));
      var after := Store(
        s.disk[sp := SilverFile(t)][gp := GoldFile(summary)],
        s.bucket[RawKey(Basename(path)) := s.disk[path]]
                [SilverKey(SilverName(Basename(path))) := SilverFile(t)]
                [goldKey := GoldFile(summary)]);
      var validation :=
        if gp == "" then NotAttempted
        else if env.remoteReadFails(goldKey) then Unreadable
        else Readable(Gold.GoldRows(summary));
      ProcessFile(s, env, path) == (FileReport(path, Completed(sp, gp, validation)), after)
  {
    var sp := SilverPath(path);
    BronzeOnSuccess(s, env, path);
    SilverOnSuccess(s, env, path);
    GoldOnSuccess(s, env, path);
    ComposeStages(s, env, path, AfterBronze(s, path), AfterSilver(s, env, path), AfterGold(s, env, path));
    ValidationOnSuccess(s, env, path);
  }

  lemma ValidationOnSuccess(s: Store, env: Env, path: string)
    requires path in s.disk && env.readCsv(s.disk[path]).Ok?
    ensures
      var summary := Gold.Aggregate(Silver.Transform(env.readCsv(s.disk[path]).value, env.stampOf(path)));
      var sp := SilverPath(path);
      var goldKey := GoldKey(GoldName(Basename(sp)));
      GoldKey(Basename(GoldPath(sp))) == goldKey &&
      ValidateCloud(AfterGold(s, env, path), env, goldKey) ==
        if env.remoteReadFails(goldKey) then Unreadable else Readable(Gold.GoldRows(summary))
  {
    GoldKeyAgrees(SilverPath(path));
  }

  /** The states a successful run passes through: after Bronze, Silver and
      Gold. */
  function AfterBronze(s: Store, path: string): Store
    requires path in s.disk
  {
    Store(s.disk, s.bucket[RawKey(Basename(path)) := s.disk[path]])
  }

  function AfterSilver(s: Store, env: Env, path: string): Store
    requires path in s.disk && env.readCsv(s.disk[path]).Ok?
  {
    var t := Silver.Transform(env.readCsv(s.disk[path]).value, env.stampOf(path));
    var s1 := AfterBronze(s, path);
    Store(s1.disk[SilverPath(path) := SilverFile(t)], s1.bucket[SilverKey(SilverName(Basename(path))) := SilverFile(t)])
  }

  function AfterGold(s: Store, env: Env, path: string): Store
    requires path in s.disk && env.readCsv(s.disk[path]).Ok?
  {
    var t := Silver.Transform(env.readCsv(s.disk[path]).value, env.stampOf(path));
    var summary := Gold.Aggregate(t);
    var sp := SilverPath(path);
    var s2 := AfterSilver(s, env, path);
    Store(s2.disk[GoldPath(sp) := GoldFile(summary)], s2.bucket[GoldKey(GoldName(Basename(sp))) := GoldFile(summary)])
  }

  lemma BronzeOnSuccess(s: Store, env: Env, path: string)
    requires StagesSucceed(s, env, path)
    ensures IngestBronze(s, env, path, Basename(path)) == Step(Ok(RawKey(Basename(path))), AfterBronze(s, path))
  {
    BronzeResult(s, env, path, Basename(path));
  }

  lemma SilverOnSuccess(s: Store, env: Env, path: string)
    requires StagesSucceed(s, env, path)
    ensures ProcessSilver(AfterBronze(s, path), env, path) == Step(Ok(SilverPath(path)), AfterSilver(s, env, path))
  {
    SilverResult(AfterBronze(s, path), env, path);
  }

  lemma GoldOnSuccess(s: Store, env: Env, path: string)
    requires StagesSucceed(s, env, path)
    ensures ProcessGold(AfterSilver(s, env, path), env, SilverPath(path)) ==
      Step(Ok(GoldPath(SilverPath(path))), AfterGold(s, env, path))
  {
    GoldResult(AfterSilver(s, env, path), env, SilverPath(path));
  }

  /** One file's run when each stage hands the next the state given. */
  lemma ComposeStages(s: Store, env: Env, path: string, s1: Store, s2: Store, s3: Store)
    requires IngestBronze(s, env, path, Basename(path)) == Step(Ok(RawKey(Basename(path))), s1)
    requires ProcessSilver(s1, env, path) == Step(Ok(SilverPath(path)), s2)
    requires ProcessGold(s2, env, SilverPath(path)) == Step(Ok(GoldPath(SilverPath(path))), s3)
    ensures var gp := GoldPath(SilverPath(path));
      var validation := if gp != "" then ValidateCloud(s3, env, GoldKey(Basename(gp))) else NotAttempted;
      ProcessFile(s, env, path) == (FileReport(path, Completed(SilverPath(path), gp, validation)), s3)
  {
  }

  /** None of `prefix`'s objects changed between `a` and `b`. */
  ghost predicate Untouched(a: map<string, Blob>, b: map<string, Blob>, prefix: string) {
    forall k :: StartsWith(k, prefix) ==> (k in a <==> k in b) && (k in a ==> a[k] == b[k])
  }

  /** `a` and `b` agree on every path except possibly `q`. */
  ghost predicate SameExcept(a: map<string, Blob>, b: map<string, Blob>, q: string) {
    forall k :: k != q ==> (k in a <==> k in b) && (k in a ==> a[k] == b[k])
  }

  /** `a` and `b` agree on every path except possibly `p` and `q`. */
  ghost predicate SameExceptBoth(a: map<string, Blob>, b: map<string, Blob>, p: string, q: string) {
    forall k :: k != p && k != q ==> (k in a <==> k in b) && (k in a ==> a[k] == b[k])
  }

  /** A Bronze failure changes nothing. */
  lemma BronzeFailureChangesNothing(s: Store, env: Env, path: string)
    ensures var r := ProcessFile(s, env, path);
      r.0.outcome.Aborted? && r.0.outcome.stage == BronzeStage ==> r.1 == s
  {
    BronzeResult(s, env, path, Basename(path));
  }

  /** After a Silver failure no Silver or Gold object was uploaded and at
      most the Silver parquet was written. */
  lemma SilverFailureSkipsUploads(s: Store, env: Env, path: string)
    ensures var r := ProcessFile(s, env, path);
      r.0.outcome.Aborted? && r.0.outcome.stage == SilverStage ==>
        && Untouched(s.bucket, r.1.bucket, SilverPrefix)
        && Untouched(s.bucket, r.1.bucket, GoldPrefix)
        && SameExcept(s.disk, r.1.disk, SilverPath(path))
  {
    KeysDistinct(Basename(path), Basename(path), Basename(path));
    var bronze := IngestBronze(s, env, path, Basename(path));
    BronzeResult(s, env, path, Basename(path));
    if bronze.out.Ok? {
      SilverResult(bronze.store, env, path);
    }
  }

  /** After a Gold failure no Gold object was uploaded, and at most the
      Silver and the Gold parquet were written. */
  lemma GoldFailureSkipsUpload(s: Store, env: Env, path: string)
    ensures var r := ProcessFile(s, env, path);
      r.0.outcome.Aborted? && r.0.outcome.stage == GoldStage ==>
        && Untouched(s.bucket, r.1.bucket, GoldPrefix)
        && SameExceptBoth(s.disk, r.1.disk, SilverPath(path), GoldPath(SilverPath(path)))
  {
    GoldFailureBucket(s, env, path);
    GoldFailureDisk(s, env, path);
  }

  lemma GoldFailureBucket(s: Store, env: Env, path: string)
    ensures var r := ProcessFile(s, env, path);
      r.0.outcome.Aborted? && r.0.outcome.stage == GoldStage ==> Untouched(s.bucket, r.1.bucket, GoldPrefix)
  {
    var bronze := IngestBronze(s, env, path, Basename(path));
    BronzeResult(s, env, path, Basename(path));
    if bronze.out.Ok? {
      var silver := ProcessSilver(bronze.store, env, path);
      SilverResult(bronze.store, env, path);
      if silver.out.Ok? {
        GoldResult(silver.store, env, silver.out.value);
        KeysDistinct(Basename(path), SilverName(Basename(path)), Basename(path));
        assert Untouched(s.bucket, silver.store.bucket, GoldPrefix);
      }
    }
  }

  lemma GoldFailureDisk(s: Store, env: Env, path: string)
    ensures var r := ProcessFile(s, env, path);
      r.0.outcome.Aborted? && r.0.outcome.stage == GoldStage ==>
        SameExceptBoth(s.disk, r.1.disk, SilverPath(path), GoldPath(SilverPath(path)))
  {
    var bronze := IngestBronze(s, env, path, Basename(path));
    BronzeResult(s, env, path, Basename(path));
    if bronze.out.Ok? {
      var silver := ProcessSilver(bronze.store, env, path);
      SilverResult(bronze.store, env, path);
      if silver.out.Ok? {
        GoldResult(silver.store, env, silver.out.value);
      }
    }
  }

  /** After any failure no Gold object was uploaded. */
  lemma FailureSkipsGold(s: Store, env: Env, path: string)
    ensures var r := ProcessFile(s, env, path);
      r.0.outcome.Aborted? ==> Untouched(s.bucket, r.1.bucket, GoldPrefix)
  {
    BronzeFailureChangesNothing(s, env, path);
    SilverFailureSkipsUploads(s, env, path);
    GoldFailureSkipsUpload(s, env, path);
  }

  /** Uploading the same file to the same key twice, each attempt free to
      succeed or fail on its own: when both go through, the bucket is as
      one upload leaves it (the object is replaced, not added to); in every
      case the object is the one of the last upload that went through. */
  lemma UploadIdempotent(s: Store, first: Env, second: Env, local: string, key: string)
    ensures var once := Upload(s, first, local, key);
      !first.uploadFails(local, key) && !second.uploadFails(local, key) ==>
        Upload(once.store, second, local, key).store == once.store
    ensures var once := Upload(s, first, local, key);
      var twice := Upload(once.store, second, local, key);
      twice.store == if twice.out.Ok? then Upload(s, second, local, key).store else once.store
  {
  }

  /** A file the CSV reader finds empty stops in Silver with that error: it
      keeps its raw copy, and nothing of Gold happens for it. */
  lemma EmptyInputStopsInSilver(s: Store, env: Env, path: string)
    requires path in s.disk && env.readCsv(s.disk[path]) == Err(EmptyData)
    requires !env.uploadFails(path, RawKey(Basename(path)))
    ensures ProcessFile(s, env, path).0.outcome == Aborted(SilverStage, EmptyData)
    ensures ProcessFile(s, env, path).1 == s.(bucket := s.bucket[RawKey(Basename(path)) := s.disk[path]])
  {
  }

  // ---------------------------------------------------------------------
  // Properties of files taken from the input directory

  /** A listed path is `data/<name>`: its base name is the entry's name and
      it holds no doubled separator. */
  lemma ListedPathShape(name: string)
    requires ValidName(name)
    ensures Join(InputDir, name) == InputDir + [Sep] + name
    ensures Basename(Join(InputDir, name)) == name
    ensures NoDoubleSep(Join(InputDir, name))
  {
    var p := Join(InputDir, name);
    assert name[0] in name;
    assert p == InputDir + [Sep] + name;
    BasenameOfJoin(InputDir, name);
    assert forall k :: 0 <= k < |p| && k != 4 ==> p[k] != Sep by {
      forall k | 0 <= k < |p| && k != 4 ensures p[k] != Sep {
        if k > 4 {
          assert p[k] == name[k - 5];
        }
      }
    }
  }

  /** For an input taken from the directory, the base name holds no `.csv`
      exactly when its Silver parquet is written over the input file
      itself. When such a file goes all the way through, the input is then
      replaced by the Silver table, or, when its name holds no `.parquet`
      either, by the Gold summary, which lands on the same path. */
  lemma ListedInputOverwritten(s: Store, env: Env, name: string)
    requires ValidName(name)
    ensures SilverPath(Join(InputDir, name)) == Join(InputDir, name) <==> !Contains(name, CsvExt)
    ensures var path := Join(InputDir, name);
      !Contains(name, CsvExt) && StagesSucceed(s, env, path) ==>
        var t := Silver.Transform(env.readCsv(s.disk[path]).value, env.stampOf(path));
        ProcessFile(s, env, path).1.disk[path] ==
          if Contains(name, ParquetExt) then SilverFile(t) else GoldFile(Gold.Aggregate(t))
  {
    var path := Join(InputDir, name);
    ListedPathShape(name);
    SilverPathIsInputIff(path);
    if !Contains(name, CsvExt) && StagesSucceed(s, env, path) {
      CompletedEffects(s, env, path);
      GoldPathIsSilverIff(path);
    }
  }

  /** An input taken from the directory that goes through Gold always has
      its Gold artifact read back: the Gold path is never empty. */
  lemma ListedInputValidated(s: Store, env: Env, name: string)
    requires ValidName(name)
    requires StagesSucceed(s, env, Join(InputDir, name))
    ensures ProcessFile(s, env, Join(InputDir, name)).0.outcome.validation != NotAttempted
  {
    var path := Join(InputDir, name);
    ListedPathShape(name);
    GoldPathNonEmpty(path);
    BronzeOnSuccess(s, env, path);
    SilverOnSuccess(s, env, path);
    GoldOnSuccess(s, env, path);
    ComposeStages(s, env, path, AfterBronze(s, path), AfterSilver(s, env, path), AfterGold(s, env, path));
  }

  // ---------------------------------------------------------------------
  // Properties of the batch

  /** One report per file, in file order, and the report for each file is
      that file's run from the state the earlier files left: whatever
      happened to them, every later file is still processed in full. */
  lemma {:induction false} RunFilesEach(s: Store, step: FileStep, files: seq<string>)
    ensures |RunFiles(s, step, files).reports| == |files|
    ensures forall i :: 0 <= i < |files| ==>
      RunFiles(s, step, files).reports[i] == step(RunFiles(s, step, files[..i]).store, files[i]).0
  {
    RunFilesLength(s, step, files);
    forall i | 0 <= i < |files|
      ensures RunFiles(s, step, files).reports[i] == step(RunFiles(s, step, files[..i]).store, files[i]).0
    {
      RunFilesAt(s, step, files, i);
    }
  }

  lemma {:induction false} RunFilesLength(s: Store, step: FileStep, files: seq<string>)
    ensures |RunFiles(s, step, files).reports| == |files|
    decreases |files|
  {
    if files != [] {
      RunFilesLength(s, step, files[..|files| - 1]);
    }
  }

  lemma {:induction false} RunFilesAt(s: Store, step: FileStep, files: seq<string>, i: nat)
    requires i < |files|
    ensures i < |RunFiles(s, step, files).reports|
    ensures RunFiles(s, step, files).reports[i] == step(RunFiles(s, step, files[..i]).store, files[i]).0
    decreases |files|
  {
    var n := |files| - 1;
    var init := files[..n];
    RunFilesLength(s, step, init);
    var before := RunFiles(s, step, init);
    assert RunFiles(s, step, files).reports == before.reports + [step(before.store, files[n]).0];
    if i < n {
      RunFilesAt(s, step, init, i);
      assert files[..i] == init[..i];
      assert files[i] == init[i];
    }
  }

  /** The report of a file with its validation result left out. */
  function WithoutValidation(r: FileReport): FileReport {
    match r.outcome
    case Completed(sp, gp, _) => FileReport(r.file, Completed(sp, gp, NotAttempted))
    case Aborted(_, _) => r
  }

  /** Two per-file steps that leave the same state and agree on every
      report but its validation result give batches that do too. */
  lemma {:induction false} RunFilesAgree(s: Store, p: FileStep, q: FileStep, files: seq<string>)
    requires forall st, f :: p(st, f).1 == q(st, f).1 && WithoutValidation(p(st, f).0) == WithoutValidation(q(st, f).0)
    ensures var a := RunFiles(s, p, files);
      var b := RunFiles(s, q, files);
      && a.store == b.store
      && |a.reports| == |b.reports|
      && forall i :: 0 <= i < |a.reports| ==> WithoutValidation(a.reports[i]) == WithoutValidation(b.reports[i])
    decreases |files|
  {
    if files != [] {
      RunFilesAgree(s, p, q, files[..|files| - 1]);
    }
  }

  /** How the validation read of a file turns out changes nothing else
      about that file's run. */
  lemma ValidationIsolated(s: Store, env: Env, path: string, readFails: string -> bool)
    ensures var a := ProcessFile(s, env, path);
      var b := ProcessFile(s, env.(remoteReadFails := readFails), path);
      a.1 == b.1 && WithoutValidation(a.0) == WithoutValidation(b.0)
  {
    var env' := env.(remoteReadFails := readFails);
    var bronze := IngestBronze(s, env, path, Basename(path));
    assert IngestBronze(s, env', path, Basename(path)) == bronze;
    if bronze.out.Ok? {
      var silver := ProcessSilver(bronze.store, env, path);
      SilverIgnoresReads(bronze.store, env, path, readFails);
      if silver.out.Ok? {
        GoldIgnoresReads(silver.store, env, silver.out.value, readFails);
      }
    }
  }

  lemma SilverIgnoresReads(s: Store, env: Env, path: string, readFails: string -> bool)
    ensures ProcessSilver(s, env.(remoteReadFails := readFails), path) == ProcessSilver(s, env, path)
  {
  }

  lemma GoldIgnoresReads(s: Store, env: Env, sp: string, readFails: string -> bool)
    ensures ProcessGold(s, env.(remoteReadFails := readFails), sp) == ProcessGold(s, env, sp)
  {
  }

  /** A validation failure never propagates: with any other outcome of the
      validation reads the batch leaves the same state and the same
      reports, validation results aside. */
  lemma ValidationNeverPropagates(s: Store, env: Env, files: seq<string>, readFails: string -> bool)
    ensures var a := RunFiles(s, FilePipeline(env), files);
      var b := RunFiles(s, FilePipeline(env.(remoteReadFails := readFails)), files);
      && a.store == b.store
      && |a.reports| == |b.reports|
      && forall i :: 0 <= i < |a.reports| ==> WithoutValidation(a.reports[i]) == WithoutValidation(b.reports[i])
  {
    forall st, f
      ensures FilePipeline(env)(st, f).1 == FilePipeline(env.(remoteReadFails := readFails))(st, f).1
      ensures WithoutValidation(FilePipeline(env)(st, f).0) == WithoutValidation(FilePipeline(env.(remoteReadFails := readFails))(st, f).0)
    {
      ValidationIsolated(st, env, f, readFails);
    }
    RunFilesAgree(s, FilePipeline(env), FilePipeline(env.(remoteReadFails := readFails)), files);
  }
}
