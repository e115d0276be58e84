/** The per-database pipeline of src/backup.ts: `dumpToFile`, `uploadToS3`,
    `deleteFile` and the body `backup` runs for each configured database.
    The processes, the bucket and the clock are outside the model: their
    results are parameters, and the host's observable state is a class. */
module Pipeline {
  import opened Naming

  // ---------------------------------------------------------------------------
  // `String.prototype.trimEnd`
  // ---------------------------------------------------------------------------

  /** ECMAScript WhiteSpace and LineTerminator code points. */
  predicate IsJsSpace(c: char) {
    c == '\t' || c == '\n' || c == '\U{B}' || c == '\U{C}' || c == '\r' || c == ' ' ||
    c == '\U{A0}' || c == '\U{1680}' || ('\U{2000}' <= c <= '\U{200A}') ||
    c == '\U{2028}' || c == '\U{2029}' || c == '\U{202F}' || c == '\U{205F}' ||
    c == '\U{3000}' || c == '\U{FEFF}'
  }

  /** The longest prefix of `s` that does not end in white space: what is cut
      off is all white space, and what is kept ends in a non-space. */
  function TrimEnd(s: string): (r: string)
    ensures r <= s
    ensures r == [] || !IsJsSpace(r[|r| - 1])
    ensures forall i :: |r| <= i < |s| ==> IsJsSpace(s[i])
  {
    if s != [] && IsJsSpace(s[|s| - 1]) then TrimEnd(s[..|s| - 1]) else s
  }

  // ---------------------------------------------------------------------------
  // External results, outcomes and the trace of external calls
  // ---------------------------------------------------------------------------

  /** What the shell pipeline `pg_dump <url> --format=tar | gzip > <path>`
      reports to the `exec` callback, and how many bytes the follow-up
      `gzip -cd <path> | head -c1` printed. */
  datatype DumpRun = DumpRun(failed: bool, stderr: string, prefixLength: nat)

  datatype DumpError =
    | ToolFailure(stderr: string)   // rejected with the end-trimmed stderr
    | InvalidArchive                // "Backup archive file is invalid or empty"

  /** How the promise of `dumpToFile` settles; `warned` is whether the
      "Potential warnings detected" notice was printed. */
  datatype DumpOutcome = Dumped(warned: bool) | DumpRejected(reason: DumpError)

  /** The external operations the pipeline invokes, in the order it invokes them. */
  datatype Call =
    | MakeDir(dir: string)
    | RunDump(url: string, path: string)
    | CheckArchive(path: string)
    | Upload(key: string, path: string)
    | Unlink(path: string)

  /** The state of a promise; once settled, later `resolve`/`reject` calls are ignored. */
  datatype Promise = Pending | Fulfilled | Rejected

  function Settle(p: Promise, to: Promise): Promise {
    if p.Pending? then to else p
  }

  /** The first `resolve` or `reject` of a pending promise decides it: any
      later call, whichever it is, leaves it as the first one settled it. */
  lemma FirstSettleWins(first: Promise, later: Promise)
    requires !first.Pending?
    ensures Settle(Settle(Pending, first), later) == first
  {
  }

  /** One entry of the validated configuration. */
  datatype Target = Target(url: string, name: string)

  /** Everything outside the process that decides one job: the time the job
      read from the clock (`new Date().toISOString()`), the dump's results,
      whether the upload succeeds, and whether `unlink` fails. */
  datatype JobInput = JobInput(isoDate: string, run: DumpRun, uploadOk: bool, unlinkFails: bool)

  /** How the promise of one job settles. */
  datatype JobOutcome = Completed | DumpFailed(reason: DumpError) | UploadFailed

  datatype Stage = DumpStage | UploadStage | DeleteStage

  /** The stage a call belongs to, if it is one of the three. */
  function StageOf(c: Call): seq<Stage> {
    match c
    case RunDump(_, _) => [DumpStage]
    case Upload(_, _) => [UploadStage]
    case Unlink(_) => [DeleteStage]
    case _ => []
  }

  /** The three stages, read off a trace of calls. */
  function Stages(calls: seq<Call>): seq<Stage>
  {
    if calls == [] then [] else StageOf(calls[0]) + Stages(calls[1..])
  }

  lemma {:induction false} StagesAppend(a: seq<Call>, b: seq<Call>)
    ensures Stages(a + b) == Stages(a) + Stages(b)
    decreases |a|
  {
    if a == [] {
      assert a + b == b;
    } else {
      assert (a + b)[0] == a[0] && (a + b)[1..] == a[1..] + b;
      StagesAppend(a[1..], b);
    }
  }

  lemma StagesSingle(c: Call)
    ensures Stages([c]) == StageOf(c)
  {
    assert [c][1..] == [];
  }

  /** The calls `dumpToFile` makes hold exactly one dump stage. */
  lemma DumpCallStages(mkdir: seq<Call>, url: string, path: string, check: seq<Call>)
    requires mkdir == [] || (|mkdir| == 1 && mkdir[0].MakeDir?)
    requires check == [] || check == [CheckArchive(path)]
    ensures Stages(mkdir + [RunDump(url, path)] + check) == [DumpStage]
  {
    StagesAppend(mkdir + [RunDump(url, path)], check);
    StagesAppend(mkdir, [RunDump(url, path)]);
    StagesSingle(RunDump(url, path));
    if mkdir != [] {
      assert mkdir == [mkdir[0]];
      StagesSingle(mkdir[0]);
    }
    if check != [] {
      StagesSingle(CheckArchive(path));
    }
  }

  /** The file name, local path and key of a job (src/backup.ts:104-106, 30). */
  function JobPath(t: Target, isoDate: string): string {
    LocalPath(t.name, FileName(Sanitize(isoDate)))
  }

  function JobKey(t: Target, isoDate: string): string {
    ObjectKey(t.name, FileName(Sanitize(isoDate)))
  }

  lemma JobPathShape(t: Target, isoDate: string)
    requires Slash !in isoDate
    ensures Dir(JobPath(t, isoDate)) == "/tmp/" + t.name
    ensures JobPath(t, isoDate) == "/tmp/" + JobKey(t, isoDate)
  {
    SanitizeKeepsNoSlash(isoDate);
    FileNameParts(Sanitize(isoDate));
    LocalPathParts(t.name, FileName(Sanitize(isoDate)));
  }

  /** How a job settles: the dump's rejection, then the upload's, else success. */
  function ExpectedOutcome(input: JobInput): (o: JobOutcome)
    ensures o == DumpFailed(ToolFailure(TrimEnd(input.run.stderr))) <==> input.run.failed
    ensures o == DumpFailed(InvalidArchive) <==> !input.run.failed && input.run.prefixLength != 1
    ensures o == UploadFailed <==> !o.DumpFailed? && !input.uploadOk
    ensures o.Completed? <==> !input.run.failed && input.run.prefixLength == 1 && input.uploadOk
  {
    if input.run.failed then DumpFailed(ToolFailure(TrimEnd(input.run.stderr)))
    else if input.run.prefixLength != 1 then DumpFailed(InvalidArchive)
    else if !input.uploadOk then UploadFailed
    else Completed
  }

  /** The stages a job with outcome `o` invokes, in order. */
  function StagesRun(o: JobOutcome): seq<Stage> {
    match o
    case DumpFailed(_) => [DumpStage]
    case UploadFailed => [DumpStage, UploadStage]
    case Completed => [DumpStage, UploadStage, DeleteStage]
  }

  /** Stages run strictly in the order dump, upload, delete: upload is
      invoked exactly when the dump resolved, delete exactly when the upload
      resolved too, and each stage at most once. */
  lemma StagesInOrder(o: JobOutcome)
    ensures StagesRun(o) <= [DumpStage, UploadStage, DeleteStage]
    ensures StagesRun(o)[0] == DumpStage
    ensures UploadStage in StagesRun(o) <==> !o.DumpFailed?
    ensures DeleteStage in StagesRun(o) <==> o.Completed?
  {
  }

  /** The stages of several jobs, one after another. */
  function AllStages(outcomes: seq<JobOutcome>): seq<Stage>
  {
    if outcomes == [] then []
    else AllStages(outcomes[..|outcomes| - 1]) + StagesRun(outcomes[|outcomes| - 1])
  }

  function Count(stages: seq<Stage>, s: Stage): nat
  {
    if stages == [] then 0 else Indicator(stages[0] == s) + Count(stages[1..], s)
  }

  function Indicator(b: bool): nat {
    if b then 1 else 0
  }

  lemma {:induction false} CountAppend(a: seq<Stage>, b: seq<Stage>, s: Stage)
    ensures Count(a + b, s) == Count(a, s) + Count(b, s)
    decreases |a|
  {
    if a == [] {
      assert a + b == b;
    } else {
      assert (a + b)[0] == a[0] && (a + b)[1..] == a[1..] + b;
      CountAppend(a[1..], b, s);
    }
  }

  lemma CountRun(o: JobOutcome)
    ensures Count(StagesRun(o), DumpStage) == 1
    ensures Count(StagesRun(o), UploadStage) == Indicator(!o.DumpFailed?)
  {
    match o
    case DumpFailed(_) =>
      assert [DumpStage][1..] == [];
    case UploadFailed =>
      var r := [DumpStage, UploadStage];
      assert r[1..] == [UploadStage] && r[1..][1..] == [];
    case Completed =>
      var r := [DumpStage, UploadStage, DeleteStage];
      assert r[1..] == [UploadStage, DeleteStage] && r[1..][1..] == [DeleteStage] && r[1..][1..][1..] == [];
  }

  /** The jobs whose dump resolved, which are exactly those that upload. */
  function DumpedCount(outcomes: seq<JobOutcome>): nat
  {
    if outcomes == [] then 0
    else DumpedCount(outcomes[..|outcomes| - 1]) + Indicator(!outcomes[|outcomes| - 1].DumpFailed?)
  }

  /** Across jobs: exactly one dump per configured database, and one upload per
      job whose dump resolved, none for a job whose dump was rejected. */
  lemma {:induction false} StageCounts(outcomes: seq<JobOutcome>)
    ensures Count(AllStages(outcomes), DumpStage) == |outcomes|
    ensures Count(AllStages(outcomes), UploadStage) == DumpedCount(outcomes)
    decreases |outcomes|
  {
    if outcomes != [] {
      var init, last := outcomes[..|outcomes| - 1], outcomes[|outcomes| - 1];
      StageCounts(init);
      CountAppend(AllStages(init), StagesRun(last), DumpStage);
      CountAppend(AllStages(init), StagesRun(last), UploadStage);
      CountRun(last);
    }
  }

  /** The calls `dumpToFile` makes for a job. */
  function DumpCalls(t: Target, input: JobInput, dirExisted: bool): seq<Call> {
    var path := JobPath(t, input.isoDate);
    (if dirExisted then [] else [MakeDir("/tmp/" + t.name)]) + [RunDump(t.url, path)]
      + (if input.run.failed then [] else [CheckArchive(path)])
  }

  /** The calls one job makes, given whether its directory existed. */
  function JobCalls(t: Target, input: JobInput, o: JobOutcome, dirExisted: bool): seq<Call> {
    var path := JobPath(t, input.isoDate);
    var dump := DumpCalls(t, input, dirExisted);
    match o
    case DumpFailed(_) => dump
    case UploadFailed => dump + [Upload(JobKey(t, input.isoDate), path)]
    case Completed => dump + [Upload(JobKey(t, input.isoDate), path)] + [Unlink(path)]
  }

  /** The local entries after one job: its directory (with any missing
      ancestors) and its archive are created, and the archive is removed again
      only when the job completed and `unlink` succeeded. */
  function JobEntries(before: set<string>, t: Target, input: JobInput, o: JobOutcome): set<string> {
    var dir, path := "/tmp/" + t.name, JobPath(t, input.isoDate);
    var created := before + (if dir in before then {} else Lineage(dir)) + {path};
    if o.Completed? && !input.unlinkFails then created - {path} else created
  }

  /** Within one job the stages run in the order dump, upload, delete, each
      rejection skipping the stages after it. */
  lemma JobStages(t: Target, input: JobInput, o: JobOutcome, dirExisted: bool)
    ensures Stages(JobCalls(t, input, o, dirExisted)) == StagesRun(o)
  {
    var path := JobPath(t, input.isoDate);
    var dump := DumpCalls(t, input, dirExisted);
    DumpCallStages(if dirExisted then [] else [MakeDir("/tmp/" + t.name)], t.url, path,
      if input.run.failed then [] else [CheckArchive(path)]);
    var up := Upload(JobKey(t, input.isoDate), path);
    StagesSingle(up);
    StagesSingle(Unlink(path));
    StagesAppend(dump, [up]);
    StagesAppend(dump + [up], [Unlink(path)]);
  }

  /** Which calls a job makes: mkdir exactly when its directory was missing,
      always the dump, the archive check exactly when the dump tool did not
      fail, the upload exactly when the dump resolved, and the unlink exactly
      when the upload resolved too. */
  lemma JobCallsMembers(t: Target, input: JobInput, o: JobOutcome, dirExisted: bool)
    ensures var calls, path := JobCalls(t, input, o, dirExisted), JobPath(t, input.isoDate);
      && (MakeDir("/tmp/" + t.name) in calls <==> !dirExisted)
      && RunDump(t.url, path) in calls
      && (CheckArchive(path) in calls <==> !input.run.failed)
      && (Upload(JobKey(t, input.isoDate), path) in calls <==> !o.DumpFailed?)
      && (Unlink(path) in calls <==> o.Completed?)
  {
  }

  /** The local entries after the first jobs, `outcomes` being their
      outcomes: each job acts on the entries the previous ones left. */
  function RunEntries(before: set<string>, targets: seq<Target>, inputs: seq<JobInput>, outcomes: seq<JobOutcome>): set<string>
    requires |outcomes| <= |targets| && |outcomes| <= |inputs|
  {
    if outcomes == [] then before
    else
      var n := |outcomes| - 1;
      JobEntries(RunEntries(before, targets, inputs, outcomes[..n]), targets[n], inputs[n], outcomes[n])
  }

  /** The calls of the first jobs, in order; whether a job's directory existed
      is read off the entries the previous jobs left. */
  function RunCalls(before: set<string>, targets: seq<Target>, inputs: seq<JobInput>, outcomes: seq<JobOutcome>): seq<Call>
    requires |outcomes| <= |targets| && |outcomes| <= |inputs|
  {
    if outcomes == [] then []
    else
      var n := |outcomes| - 1;
      RunCalls(before, targets, inputs, outcomes[..n])
        + JobCalls(targets[n], inputs[n], outcomes[n], "/tmp/" + targets[n].name in RunEntries(before, targets, inputs, outcomes[..n]))
  }

  lemma RunStep(before: set<string>, targets: seq<Target>, inputs: seq<JobInput>, outcomes: seq<JobOutcome>, o: JobOutcome)
    requires |outcomes| < |targets| && |outcomes| < |inputs|
    ensures var n, prior := |outcomes|, RunEntries(before, targets, inputs, outcomes);
      && RunEntries(before, targets, inputs, outcomes + [o]) == JobEntries(prior, targets[n], inputs[n], o)
      && RunCalls(before, targets, inputs, outcomes + [o])
         == RunCalls(before, targets, inputs, outcomes) + JobCalls(targets[n], inputs[n], o, "/tmp/" + targets[n].name in prior)
  {
    assert (outcomes + [o])[..|outcomes|] == outcomes;
  }

  /** The calls of a run hold the stages of its jobs, job after job. */
  lemma {:induction false} RunStages(before: set<string>, targets: seq<Target>, inputs: seq<JobInput>, outcomes: seq<JobOutcome>)
    requires |outcomes| <= |targets| && |outcomes| <= |inputs|
    ensures Stages(RunCalls(before, targets, inputs, outcomes)) == AllStages(outcomes)
    decreases |outcomes|
  {
    if outcomes != [] {
      var n := |outcomes| - 1;
      var init := outcomes[..n];
      RunStages(before, targets, inputs, init);
      var dirExisted := "/tmp/" + targets[n].name in RunEntries(before, targets, inputs, init);
      JobStages(targets[n], inputs[n], outcomes[n], dirExisted);
      TraceStep(RunCalls(before, targets, inputs, init), JobCalls(targets[n], inputs[n], outcomes[n], dirExisted), init, outcomes[n]);
      SnocWhole(outcomes);
    }
  }

  /** The calls of the first `i` jobs begin the calls of the whole run. */
  lemma {:induction false} RunCallsPrefix(before: set<string>, targets: seq<Target>, inputs: seq<JobInput>, outcomes: seq<JobOutcome>, i: nat)
    requires |outcomes| <= |targets| && |outcomes| <= |inputs|
    requires i <= |outcomes|
    ensures RunCalls(before, targets, inputs, outcomes[..i]) <= RunCalls(before, targets, inputs, outcomes)
    decreases |outcomes|
  {
    if i < |outcomes| {
      var n := |outcomes| - 1;
      assert outcomes[..n][..i] == outcomes[..i];
      RunCallsPrefix(before, targets, inputs, outcomes[..n], i);
    } else {
      assert outcomes[..i] == outcomes;
    }
  }

  /** Every job's own calls appear in the calls of the run: a job whose dump
      resolved uploads its archive under its key, and a completed job
      unlinks its archive. */
  lemma RunCallsOfJob(before: set<string>, targets: seq<Target>, inputs: seq<JobInput>, outcomes: seq<JobOutcome>, k: nat)
    requires |outcomes| <= |targets| && |outcomes| <= |inputs|
    requires k < |outcomes|
    ensures var run, path := RunCalls(before, targets, inputs, outcomes), JobPath(targets[k], inputs[k].isoDate);
      && (!outcomes[k].DumpFailed? ==> Upload(JobKey(targets[k], inputs[k].isoDate), path) in run)
      && (outcomes[k].Completed? ==> Unlink(path) in run)
  {
    var prior := RunEntries(before, targets, inputs, outcomes[..k]);
    var jc := JobCalls(targets[k], inputs[k], outcomes[k], "/tmp/" + targets[k].name in prior);
    var run, head := RunCalls(before, targets, inputs, outcomes), RunCalls(before, targets, inputs, outcomes[..k + 1]);
    assert head == RunCalls(before, targets, inputs, outcomes[..k]) + jc by {
      RunStep(before, targets, inputs, outcomes[..k], outcomes[k]);
      SnocSlice(outcomes, k);
    }
    RunCallsPrefix(before, targets, inputs, outcomes, k + 1);
    JobCallsMembers(targets[k], inputs[k], outcomes[k], "/tmp/" + targets[k].name in prior);
    var path := JobPath(targets[k], inputs[k].isoDate);
    if !outcomes[k].DumpFailed? {
      InPrefix(Upload(JobKey(targets[k], inputs[k].isoDate), path), RunCalls(before, targets, inputs, outcomes[..k]), jc, run);
    }
    if outcomes[k].Completed? {
      InPrefix(Unlink(path), RunCalls(before, targets, inputs, outcomes[..k]), jc, run);
    }
  }

  lemma SnocSlice(s: seq<JobOutcome>, k: nat)
    requires k < |s|
    ensures s[..k] + [s[k]] == s[..k + 1]
  {
  }

  lemma SnocWhole(s: seq<JobOutcome>)
    requires s != []
    ensures s[..|s| - 1] + [s[|s| - 1]] == s
  {
  }

  lemma InPrefix(c: Call, a: seq<Call>, b: seq<Call>, s: seq<Call>)
    requires c in b && a + b <= s
    ensures c in s
  {
    var i :| 0 <= i < |b| && b[i] == c;
    assert s[|a| + i] == (a + b)[|a| + i];
  }

  /** The archive of a job that did not complete, or whose `unlink` failed,
      is still on disk after the run, unless a later job wrote the same path. */
  lemma {:induction false} ArchiveLeftBehind(before: set<string>, targets: seq<Target>, inputs: seq<JobInput>, outcomes: seq<JobOutcome>, k: nat)
    requires |outcomes| <= |targets| && |outcomes| <= |inputs|
    requires k < |outcomes|
    requires !outcomes[k].Completed? || inputs[k].unlinkFails
    requires forall j :: k < j < |outcomes| ==> JobPath(targets[j], inputs[j].isoDate) != JobPath(targets[k], inputs[k].isoDate)
    ensures JobPath(targets[k], inputs[k].isoDate) in RunEntries(before, targets, inputs, outcomes)
    decreases |outcomes|
  {
    var n := |outcomes| - 1;
    var prior := RunEntries(before, targets, inputs, outcomes[..n]);
    if k < n {
      ArchiveLeftBehind(before, targets, inputs, outcomes[..n], k);
      assert JobPath(targets[k], inputs[k].isoDate) in prior;
    } else {
      JobEntriesEffect(prior, targets[n], inputs[n], outcomes[n]);
    }
  }

  /** After a job its directory exists; its archive is left behind exactly
      when the job did not complete or `unlink` failed; no other path changes
      except the ancestors `mkdir` created. */
  lemma JobEntriesEffect(before: set<string>, t: Target, input: JobInput, o: JobOutcome)
    ensures "/tmp/" + t.name in JobEntries(before, t, input, o)
    ensures JobPath(t, input.isoDate) in JobEntries(before, t, input, o) <==> !o.Completed? || input.unlinkFails
    ensures var touched := {JobPath(t, input.isoDate)} + Lineage("/tmp/" + t.name);
      JobEntries(before, t, input, o) - touched == before - touched
  {
    var path := JobPath(t, input.isoDate);
    assert path != "/tmp/" + t.name by {
      assert |path| > |"/tmp/" + t.name|;
    }
  }

  lemma TraceStep(done: seq<Call>, jc: seq<Call>, outcomes: seq<JobOutcome>, o: JobOutcome)
    requires Stages(done) == AllStages(outcomes)
    requires Stages(jc) == StagesRun(o)
    ensures Stages(done + jc) == AllStages(outcomes + [o])
  {
    StagesAppend(done, jc);
    var next := outcomes + [o];
    assert next[..|next| - 1] == outcomes;
    assert next[|next| - 1] == o;
    assert AllStages(next) == AllStages(outcomes) + StagesRun(o);
  }

  /** The keys stored by the jobs that completed, `outcomes` being the outcomes
      of the first jobs. */
  function UploadedKeys(targets: seq<Target>, inputs: seq<JobInput>, outcomes: seq<JobOutcome>): set<string>
    requires |outcomes| <= |targets| && |outcomes| <= |inputs|
  {
    if outcomes == [] then {}
    else
      var n := |outcomes| - 1;
      UploadedKeys(targets, inputs, outcomes[..n])
        + if outcomes[n].Completed? then {JobKey(targets[n], inputs[n].isoDate)} else {}
  }

  /** A key is stored exactly when some job that completed derived it. */
  lemma {:induction false} UploadedKeysMembers(targets: seq<Target>, inputs: seq<JobInput>, outcomes: seq<JobOutcome>, key: string)
    requires |outcomes| <= |targets| && |outcomes| <= |inputs|
    ensures key in UploadedKeys(targets, inputs, outcomes) <==>
      exists k :: 0 <= k < |outcomes| && outcomes[k].Completed? && key == JobKey(targets[k], inputs[k].isoDate)
    decreases |outcomes|
  {
    if outcomes != [] {
      var n := |outcomes| - 1;
      UploadedKeysMembers(targets, inputs, outcomes[..n], key);
      if key in UploadedKeys(targets, inputs, outcomes[..n]) {
        var k :| 0 <= k < n && outcomes[..n][k].Completed? && key == JobKey(targets[k], inputs[k].isoDate);
        assert outcomes[k] == outcomes[..n][k];
      }
      if exists k :: 0 <= k < |outcomes| && outcomes[k].Completed? && key == JobKey(targets[k], inputs[k].isoDate) {
        var k :| 0 <= k < |outcomes| && outcomes[k].Completed? && key == JobKey(targets[k], inputs[k].isoDate);
        if k < n {
          assert outcomes[..n][k] == outcomes[k];
        }
      }
    }
  }

  lemma UploadedStep(targets: seq<Target>, inputs: seq<JobInput>, outcomes: seq<JobOutcome>, o: JobOutcome)
    requires |outcomes| < |targets| && |outcomes| < |inputs|
    ensures UploadedKeys(targets, inputs, outcomes + [o]) ==
      UploadedKeys(targets, inputs, outcomes)
        + if o.Completed? then {JobKey(targets[|outcomes|], inputs[|outcomes|].isoDate)} else {}
  {
    assert (outcomes + [o])[..|outcomes|] == outcomes;
  }

  lemma OutcomeStep(inputs: seq<JobInput>, outcomes: seq<JobOutcome>, o: JobOutcome, ok: bool)
    requires |outcomes| < |inputs|
    requires forall k :: 0 <= k < |outcomes| ==> outcomes[k] == ExpectedOutcome(inputs[k])
    requires o == ExpectedOutcome(inputs[|outcomes|])
    requires ok <==> forall k :: 0 <= k < |outcomes| ==> outcomes[k].Completed?
    ensures forall k :: 0 <= k < |outcomes| + 1 ==> (outcomes + [o])[k] == ExpectedOutcome(inputs[k])
    ensures (ok && o.Completed?) <==> forall k :: 0 <= k < |outcomes| + 1 ==> (outcomes + [o])[k].Completed?
  {
    assert forall k :: 0 <= k < |outcomes| ==> (outcomes + [o])[k] == outcomes[k];
  }

  // ---------------------------------------------------------------------------
  // The host: local filesystem, bucket contents and the call trace
  // ---------------------------------------------------------------------------

  class Host {
    /** Paths that exist on the local filesystem, files and directories alike. */
    var entries: set<string>
    /** Keys stored in the bucket. */
    var objects: set<string>
    /** External operations invoked so far. */
    var calls: seq<Call>

    constructor (existing: set<string>)
      ensures entries == existing && objects == {} && calls == []
    {
      entries := existing;
      objects := {};
      calls := [];
    }

    /** `dumpToFile`: create the parent directory only if it is missing, run the
        dump into `filePath`, and check that the archive decompresses to at
        least one byte, which is skipped when the dump tool failed. */
    method DumpToFile(filePath: string, url: string, run: DumpRun) returns (o: DumpOutcome)
      requires Dir(filePath) != ""
      modifies this`entries, this`calls
      ensures var dir := Dir(filePath);
        && calls == old(calls) + (if dir in old(entries) then [] else [MakeDir(dir)])
                     + [RunDump(url, filePath)] + (if run.failed then [] else [CheckArchive(filePath)])
        && entries == old(entries) + (if dir in old(entries) then {} else Lineage(dir)) + {filePath}
      ensures Dir(filePath) in entries && filePath in entries
      ensures run.failed ==> o == DumpRejected(ToolFailure(TrimEnd(run.stderr)))
      ensures !run.failed && run.prefixLength != 1 ==> o == DumpRejected(InvalidArchive)
      ensures !run.failed && run.prefixLength == 1 ==> o == Dumped(run.stderr != "")
    {
      var dir := Dir(filePath);
      var dirExists := dir in entries;
      if !dirExists {
        calls := calls + [MakeDir(dir)];
        entries := entries + Lineage(dir);
      }
      // the shell opens `> filePath` for gzip whether or not pg_dump succeeds
      calls := calls + [RunDump(url, filePath)];
      entries := entries + {filePath};
      if run.failed {
        o := DumpRejected(ToolFailure(TrimEnd(run.stderr)));
        return;
      }
      calls := calls + [CheckArchive(filePath)];
      var isValidArchive := run.prefixLength == 1;
      if !isValidArchive {
        o := DumpRejected(InvalidArchive);
        return;
      }
      o := Dumped(run.stderr != "");
    }

    /** `uploadToS3`: put the file under `${prefix}/${name}`. */
    method UploadToS3(name: string, prefix: string, filePath: string, uploadOk: bool) returns (ok: bool)
      modifies this`objects, this`calls
      ensures ok == uploadOk
      ensures calls == old(calls) + [Upload(ObjectKey(prefix, name), filePath)]
      ensures objects == if ok then old(objects) + {ObjectKey(prefix, name)} else old(objects)
    {
      calls := calls + [Upload(ObjectKey(prefix, name), filePath)];
      ok := uploadOk;
      if ok {
        objects := objects + {ObjectKey(prefix, name)};
      }
    }

    /** `deleteFile`: `resolve` runs synchronously right after `unlink` is
        issued, so the promise is fulfilled before the callback's unconditional
        `reject` runs, and that `reject` changes nothing. */
    method DeleteFile(path: string, unlinkFails: bool) returns (p: Promise)
      modifies this`entries, this`calls
      ensures p == Fulfilled
      ensures calls == old(calls) + [Unlink(path)]
      ensures entries == if unlinkFails then old(entries) else old(entries) - {path}
    {
      p := Pending;
      calls := calls + [Unlink(path)];
      p := Settle(p, Fulfilled);
      // the unlink callback, later
      if !unlinkFails {
        entries := entries - {path};
      }
      p := Settle(p, Rejected);
    }

    /** One job of `backup`: derive the names, then dump, upload and delete in
        that order; a rejected stage ends the job before the next one. */
    method BackupOne(t: Target, input: JobInput) returns (o: JobOutcome)
      requires Slash !in input.isoDate
      modifies this`entries, this`objects, this`calls
      ensures o == ExpectedOutcome(input)
      ensures calls == old(calls) + JobCalls(t, input, o, "/tmp/" + t.name in old(entries))
      ensures objects == if o.Completed? then old(objects) + {JobKey(t, input.isoDate)} else old(objects)
      ensures entries == JobEntries(old(entries), t, input, o)
    {
      var timestamp := Sanitize(input.isoDate);
      var filename := FileName(timestamp);
      var filepath := LocalPath(t.name, filename);
      JobPathShape(t, input.isoDate);
      ghost var dir := Dir(filepath);
      ghost var dump := (if dir in entries then [] else [MakeDir(dir)]) + [RunDump(t.url, filepath)]
        + (if input.run.failed then [] else [CheckArchive(filepath)]);
      assert dump == DumpCalls(t, input, "/tmp/" + t.name in entries);
      ghost var c0 := calls;

      var dumped := DumpToFile(filepath, t.url, input.run);
      assert calls == c0 + dump;
      if dumped.DumpRejected? {
        o := DumpFailed(dumped.reason);
        return;
      }

      var uploaded := UploadToS3(filename, t.name, filepath, input.uploadOk);
      ghost var up := Upload(JobKey(t, input.isoDate), filepath);
      assert calls == c0 + (dump + [up]);
      if !uploaded {
        o := UploadFailed;
        return;
      }

      var deleted := DeleteFile(filepath, input.unlinkFails);
      o := Completed;
      assert calls == c0 + (dump + [up] + [Unlink(filepath)]);
    }

    /** `backup`: one job per configured database. The jobs are run here one
        after another; the whole run succeeds exactly when every job does. */
    method Backup(targets: seq<Target>, inputs: seq<JobInput>) returns (outcomes: seq<JobOutcome>, ok: bool)
      requires |inputs| == |targets|
      requires forall i :: 0 <= i < |inputs| ==> Slash !in inputs[i].isoDate
      modifies this`entries, this`objects, this`calls
      ensures |outcomes| == |targets|
      ensures forall i :: 0 <= i < |targets| ==> outcomes[i] == ExpectedOutcome(inputs[i])
      ensures ok <==> forall i :: 0 <= i < |outcomes| ==> outcomes[i].Completed?
      ensures calls == old(calls) + RunCalls(old(entries), targets, inputs, outcomes)
      ensures entries == RunEntries(old(entries), targets, inputs, outcomes)
      ensures objects == old(objects) + UploadedKeys(targets, inputs, outcomes)
    {
      outcomes, ok := [], true;
      ghost var done: seq<Call> := [];
      var i := 0;
      while i < |targets|
        invariant 0 <= i <= |targets|
        invariant |outcomes| == i
        invariant forall k :: 0 <= k < i ==> outcomes[k] == ExpectedOutcome(inputs[k])
        invariant ok <==> forall k :: 0 <= k < i ==> outcomes[k].Completed?
        invariant done == RunCalls(old(entries), targets, inputs, outcomes)
        invariant calls == old(calls) + done
        invariant entries == RunEntries(old(entries), targets, inputs, outcomes)
        invariant objects == old(objects) + UploadedKeys(targets, inputs, outcomes)
      {
        ghost var dirExisted := "/tmp/" + targets[i].name in entries;
        var o := BackupOne(targets[i], inputs[i]);
        ghost var jc := JobCalls(targets[i], inputs[i], o, dirExisted);
        RunStep(old(entries), targets, inputs, outcomes, o);
        Assoc(old(calls), done, jc);
        done := done + jc;
        UploadedStep(targets, inputs, outcomes, o);
        OutcomeStep(inputs, outcomes, o, ok);
        outcomes := outcomes + [o];
        ok := ok && o.Completed?;
        i := i + 1;
      }
    }
  }
}
