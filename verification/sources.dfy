/**
 * One FTP source of a project run: the FILE/FOLDER partition of its
 * mappings, the remote files each backend hands to the reconciliation, and
 * the per-source loop that threads the ledger, the download directory and
 * the four counters through every file until the first error.
 */
module Sources {
  import opened Wrappers
  import opened Hierarchy
  import opened Reconcile
  import Paths
  import GlueDefinitions
  import ProcoreDefinitions

  /** MappingType: a single file, or every file directly inside a folder. */
  datatype MappingType = FileMapping | FolderMapping

  datatype Mapping = Mapping(id: string, mappingType: MappingType)

  /** The FILE mappings, in configuration order. */
  function FileMappings(ms: seq<Mapping>): (r: seq<Mapping>)
    ensures forall m :: m in r <==> m in ms && m.mappingType == FileMapping
  {
    if ms == [] then []
    else (if ms[0].mappingType == FileMapping then [ms[0]] else []) + FileMappings(ms[1..])
  }

  /** The FOLDER mappings, in configuration order. */
  function FolderMappings(ms: seq<Mapping>): (r: seq<Mapping>)
    ensures forall m :: m in r <==> m in ms && m.mappingType == FolderMapping
  {
    if ms == [] then []
    else (if ms[0].mappingType == FolderMapping then [ms[0]] else []) + FolderMappings(ms[1..])
  }

  /** Every mapping lands in exactly one of the two lists. */
  lemma {:induction false} MappingPartition(ms: seq<Mapping>)
    ensures |FileMappings(ms)| + |FolderMappings(ms)| == |ms|
    ensures multiset(FileMappings(ms)) + multiset(FolderMappings(ms)) == multiset(ms)
  {
    if ms != [] {
      MappingPartition(ms[1..]);
      assert ms == [ms[0]] + ms[1..];
    }
  }

  /** A Glue model's name splits into base name and extension; a merged model's extension is "nwd". */
  lemma GlueNaming(f: GlueDefinitions.GlueFile)
    ensures GlueDefinitions.IsMerged(f) ==> GlueDefinitions.FileExtension(f) == "nwd"
    ensures var name := GlueDefinitions.FileName(f);
            !Paths.HasSeparator(name) && (exists j :: 0 <= j < |name| && name[j] == '.') ==>
              GlueDefinitions.FileBaseName(f) + "." + GlueDefinitions.FileExtension(f) == name
  {
    if GlueDefinitions.IsMerged(f) {
      GlueDefinitions.MergedModelIsNwd(f);
    }
    var name := GlueDefinitions.FileName(f);
    if !Paths.HasSeparator(name) && exists j :: 0 <= j < |name| && name[j] == '.' {
      Paths.SplitRoundTrip(name);
    }
  }

  /** A Glue model as UpdateFtpFile sees it. */
  function GlueRemote(f: GlueDefinitions.GlueFile): (r: RemoteFile)
    ensures GlueDefinitions.IsMerged(f) ==> r.fileExt == "nwd"
    ensures f.modelVersion.None? ==> r.version == -1
    ensures f.modelVersion.Some? ==> r.version == f.modelVersion.value
    ensures !Paths.HasSeparator(r.name) && (exists j :: 0 <= j < |r.name| && r.name[j] == '.') ==>
              r.baseName + "." + r.fileExt == r.name
  {
    GlueNaming(f);
    RemoteFile(GlueDefinitions.FileName(f), GlueDefinitions.FileBaseName(f),
               GlueDefinitions.FileExtension(f), GlueDefinitions.FileVersion(f))
  }

  lemma ProcoreNaming(f: ProcoreDefinitions.ProcoreFile)
    ensures !Paths.HasSeparator(f.name) && (exists j :: 0 <= j < |f.name| && f.name[j] == '.') ==>
              ProcoreDefinitions.FileBaseName(f) + "." + ProcoreDefinitions.FileExtension(f) == f.name
  {
    if !Paths.HasSeparator(f.name) {
      ProcoreDefinitions.NameSplit(f);
    }
  }

  /** A Procore document as UpdateFtpFile sees it; a document without versions has no Version. */
  function ProcoreRemote(f: ProcoreDefinitions.ProcoreFile): (r: Result<RemoteFile, Error>)
    ensures r.Failure? <==> f.fileVersions == []
    ensures r.Failure? ==> r.error == NoFirst
    ensures r.Success? ==>
              && r.value.name == f.name
              && r.value.version == f.fileVersions[0].number.GetOr(-1)
              && (!Paths.HasSeparator(f.name) && (exists j :: 0 <= j < |f.name| && f.name[j] == '.') ==>
                    r.value.baseName + "." + r.value.fileExt == f.name)
  {
    ProcoreNaming(f);
    match ProcoreDefinitions.Version(f)
    case Failure(e) => Failure(e)
    case Success(v) =>
      Success(RemoteFile(f.name, ProcoreDefinitions.FileBaseName(f), ProcoreDefinitions.FileExtension(f), v))
  }

  /** OfType<IFile> over Glue folder contents: the models, in order; structure entries are not files. */
  function GlueModelsAmong(items: seq<GlueDefinitions.GlueItem>): (r: seq<GlueDefinitions.GlueFile>)
    ensures |r| <= |items|
    ensures forall f :: f in r <==> GlueDefinitions.ModelItem(f) in items
    ensures (forall i :: 0 <= i < |items| ==> items[i].StructureItem?) ==> r == []
  {
    if items == [] then []
    else
      (if items[0].ModelItem? then [items[0].file] else []) + GlueModelsAmong(items[1..])
  }

  /** The models found in a one-root folder tree are the root's children, as files. */
  lemma TreeModels(folder: GlueDefinitions.GlueFolder, items: seq<GlueDefinitions.GlueItem>)
    requires folder.folderTree.Some? && |folder.folderTree.value| == 1
    requires GlueDefinitions.Contents(folder) == Success(Some(items))
    ensures var kids := GlueDefinitions.RootChildren(folder.folderTree.value[0]);
            forall f :: f in GlueModelsAmong(items) <==>
              exists i :: 0 <= i < |kids| && f == GlueDefinitions.AsFile(kids[i], folder.project)
  {
    var kids := GlueDefinitions.RootChildren(folder.folderTree.value[0]);
    var files := GlueModelsAmong(items);
    forall f | f in files ensures exists i :: 0 <= i < |kids| && f == GlueDefinitions.AsFile(kids[i], folder.project) {
      var j :| 0 <= j < |items| && items[j] == GlueDefinitions.ModelItem(f);
      assert f == GlueDefinitions.AsFile(kids[j], folder.project);
    }
    forall i | 0 <= i < |kids| ensures GlueDefinitions.AsFile(kids[i], folder.project) in files {
      assert items[i] == GlueDefinitions.ModelItem(GlueDefinitions.AsFile(kids[i], folder.project));
    }
  }

  /** The files a Glue FOLDER mapping processes: the models among the folder's contents. */
  function GlueFolderFiles(folder: GlueDefinitions.GlueFolder): (r: Result<seq<GlueDefinitions.GlueFile>, Error>)
    ensures GlueDefinitions.Contents(folder).Failure? ==> r == Failure(GlueDefinitions.Contents(folder).error)
    ensures GlueDefinitions.Contents(folder) == Success(None) ==> r == Failure(NullContents)
    ensures folder.folderTree.None? && folder.folderOnlyStructure.Some? ==> r == Success([])
    ensures folder.folderTree.Some? && |folder.folderTree.value| == 1 && r.Success? ==>
              var kids := GlueDefinitions.RootChildren(folder.folderTree.value[0]);
              forall f :: f in r.value <==> exists i :: 0 <= i < |kids| && f == GlueDefinitions.AsFile(kids[i], folder.project)
  {
    match GlueDefinitions.Contents(folder)
    case Failure(e) => Failure(e)
    case Success(None) => Failure(NullContents)
    case Success(Some(items)) =>
      if folder.folderTree.Some? && |folder.folderTree.value| == 1 then
        TreeModels(folder, items);
        Success(GlueModelsAmong(items))
      else Success(GlueModelsAmong(items))
  }

  /** The four per-source counters. */
  datatype Counters = Counters(added: nat, updated: nat, ignored: nat, upToDate: nat)

  const NoCounts: Counters := Counters(0, 0, 0, 0)

  function Total(c: Counters): nat {
    c.added + c.updated + c.ignored + c.upToDate
  }

  /** Tallying a processed file raises exactly the counter of its disposition, by one. */
  function Count(c: Counters, d: Disposition): (r: Counters)
    ensures Total(r) == Total(c) + 1
    ensures r.added == c.added + (if d == Added then 1 else 0)
    ensures r.updated == c.updated + (if d == Updated then 1 else 0)
    ensures r.ignored == c.ignored + (if d == Ignored then 1 else 0)
    ensures r.upToDate == c.upToDate + (if d == AlreadyUpToDate then 1 else 0)
  {
    match d
    case Added => c.(added := c.added + 1)
    case Updated => c.(updated := c.updated + 1)
    case Ignored => c.(ignored := c.ignored + 1)
    case AlreadyUpToDate => c.(upToDate := c.upToDate + 1)
  }

  /** One file to process: how fetching its description went, and how its download would go. */
  datatype Job = Job(file: Result<RemoteFile, Error>, download: Outcome<Error>)

  datatype RunState = RunState(store: Store, counters: Counters)

  /** Where a run stopped: the state reached, how many files were tallied, and the error that stopped it. */
  datatype Run = Run(state: RunState, processed: nat, error: Option<Error>)

  /**
   * One file of the loop: fetch its description, reconcile it, tally it.
   * `rule` is the ledger update's row selection; the program's is ExactWhere.
   */
  function StepJob(st: RunState, projectNumber: int, rule: UpdateRule, job: Job): (r: Result<RunState, Error>)
    ensures r.Success? ==>
              && job.file.Success?
              && Total(r.value.counters) == Total(st.counters) + 1
              && |r.value.store.ledger| - |st.store.ledger| == r.value.counters.added - st.counters.added
              && r.value.counters.ignored >= st.counters.ignored && r.value.counters.upToDate >= st.counters.upToDate
              && st.store.local <= r.value.store.local
  {
    match job.file
    case Failure(e) => Failure(e)
    case Success(f) =>
      match ReconcileFile(st.store, projectNumber, rule, f, job.download)
      case Failure(e) => Failure(e)
      case Success(fr) => Success(RunState(fr.store, Count(st.counters, fr.disposition)))
  }

  /**
   * The loop over a source's files: each file is reconciled against the
   * state the previous ones left; the first error ends the run, keeping the
   * ledger writes already made.
   */
  function ProcessJobs(st: RunState, projectNumber: int, rule: UpdateRule, jobs: seq<Job>): (r: Run)
    ensures r.processed <= |jobs|
    ensures r.error.None? <==> r.processed == |jobs|
    ensures Total(r.state.counters) == Total(st.counters) + r.processed
    ensures |r.state.store.ledger| - |st.store.ledger| == r.state.counters.added - st.counters.added
    ensures r.state.counters.ignored >= st.counters.ignored && r.state.counters.upToDate >= st.counters.upToDate
    ensures st.store.local <= r.state.store.local
    decreases |jobs|
  {
    if jobs == [] then Run(st, 0, None)
    else
      match StepJob(st, projectNumber, rule, jobs[0])
      case Failure(e) => Run(st, 0, Some(e))
      case Success(next) =>
        var rest := ProcessJobs(next, projectNumber, rule, jobs[1..]);
        Run(rest.state, rest.processed + 1, rest.error)
  }

  /** Running two job lists one after the other is running their concatenation. */
  lemma {:induction false} ProcessJobsAppend(st: RunState, projectNumber: int, rule: UpdateRule, a: seq<Job>, b: seq<Job>)
    ensures var first := ProcessJobs(st, projectNumber, rule, a);
            ProcessJobs(st, projectNumber, rule, a + b) ==
              if first.error.Some? then first
              else
                var second := ProcessJobs(first.state, projectNumber, rule, b);
                Run(second.state, first.processed + second.processed, second.error)
    decreases |a|
  {
    if a == [] {
      assert a + b == b;
    } else {
      assert (a + b)[0] == a[0];
      assert (a + b)[1..] == a[1..] + b;
      match StepJob(st, projectNumber, rule, a[0])
      case Failure(_) =>
      case Success(next) =>
        ProcessJobsAppend(next, projectNumber, rule, a[1..], b);
    }
  }

  /**
   * A source: counters start at zero; the FILE mappings' files are processed
   * first, then the files found under the FOLDER mappings, in one run.
   */
  function ProcessSource(store: Store, projectNumber: int, rule: UpdateRule, fileJobs: seq<Job>, folderJobs: seq<Job>): (r: Run)
    ensures Total(r.state.counters) == r.processed
    ensures r.processed <= |fileJobs| + |folderJobs|
    ensures r.error.None? <==> r.processed == |fileJobs| + |folderJobs|
    ensures |r.state.store.ledger| == |store.ledger| + r.state.counters.added
  {
    assert NoCounts.added == 0;
    ProcessJobs(RunState(store, NoCounts), projectNumber, rule, fileJobs + folderJobs)
  }

  /** A run that reached file i without error stops there when that file's step fails. */
  lemma PrefixStops(start: RunState, projectNumber: int, rule: UpdateRule, jobs: seq<Job>, i: nat, st: RunState)
    requires i < |jobs|
    requires ProcessJobs(start, projectNumber, rule, jobs[..i]) == Run(st, i, None)
    requires StepJob(st, projectNumber, rule, jobs[i]).Failure?
    ensures ProcessJobs(start, projectNumber, rule, jobs) == Run(st, i, Some(StepJob(st, projectNumber, rule, jobs[i]).error))
  {
    assert jobs[..i] + jobs[i..] == jobs;
    ProcessJobsAppend(start, projectNumber, rule, jobs[..i], jobs[i..]);
    assert jobs[i..][0] == jobs[i];
  }

  /** A single file whose step succeeds is one processed file. */
  lemma SingleJob(st: RunState, projectNumber: int, rule: UpdateRule, job: Job)
    requires StepJob(st, projectNumber, rule, job).Success?
    ensures ProcessJobs(st, projectNumber, rule, [job]) == Run(StepJob(st, projectNumber, rule, job).value, 1, None)
  {
    assert [job][0] == job;
    assert [job][1..] == [];
  }

  /** A run that reached file i without error reaches file i + 1 when that file's step succeeds. */
  lemma PrefixExtends(start: RunState, projectNumber: int, rule: UpdateRule, jobs: seq<Job>, i: nat, st: RunState)
    requires i < |jobs|
    requires ProcessJobs(start, projectNumber, rule, jobs[..i]) == Run(st, i, None)
    requires StepJob(st, projectNumber, rule, jobs[i]).Success?
    ensures ProcessJobs(start, projectNumber, rule, jobs[..i + 1]) == Run(StepJob(st, projectNumber, rule, jobs[i]).value, i + 1, None)
  {
    assert jobs[..i + 1] == jobs[..i] + [jobs[i]];
    ProcessJobsAppend(start, projectNumber, rule, jobs[..i], [jobs[i]]);
    SingleJob(st, projectNumber, rule, jobs[i]);
  }

  /**
   * One turn of the per-source loop: process file i of a run that reached it
   * without error, and say whether the run stops there.
   */
  method Advance(ghost start: RunState, projectNumber: int, rule: UpdateRule, jobs: seq<Job>, i: nat, st: RunState)
    returns (next: RunState, failed: Option<Error>)
    requires i < |jobs|
    requires ProcessJobs(start, projectNumber, rule, jobs[..i]) == Run(st, i, None)
    ensures failed.Some? ==> ProcessJobs(start, projectNumber, rule, jobs) == Run(st, i, failed)
    ensures failed.None? ==> ProcessJobs(start, projectNumber, rule, jobs[..i + 1]) == Run(next, i + 1, None)
  {
    var step := StepJob(st, projectNumber, rule, jobs[i]);
    if step.Failure? {
      PrefixStops(start, projectNumber, rule, jobs, i, st);
      return st, Some(step.error);
    }
    PrefixExtends(start, projectNumber, rule, jobs, i, st);
    return step.value, None;
  }

  /** The per-source loop as the program runs it, one file at a time. */
  method RunSource(store: Store, projectNumber: int, rule: UpdateRule, jobs: seq<Job>) returns (r: Run)
    ensures r == ProcessJobs(RunState(store, NoCounts), projectNumber, rule, jobs)
  {
    var st := RunState(store, NoCounts);
    ghost var start := st;
    var i := 0;
    assert jobs[..0] == [];
    while i < |jobs|
      invariant 0 <= i <= |jobs|
      invariant ProcessJobs(start, projectNumber, rule, jobs[..i]) == Run(st, i, None)
      decreases |jobs| - i
    {
      var next, failed := Advance(start, projectNumber, rule, jobs, i, st);
      if failed.Some? {
        return Run(st, i, failed);
      }
      st := next;
      i := i + 1;
    }
    assert jobs[..i] == jobs;
    r := Run(st, i, None);
  }
}
