/** Syncing all files of the repository one after the other through one region cache. */
module SyncRun {
  import opened Text
  import opened FencePatterns
  import opened FenceScan
  import opened SyncLines
  import opened SnippetSync
  import opened ProcessFile

  /** A file to sync: a source file or a Markdown file. */
  datatype Target = Target(filePath: string, mode: FileMode)

  function JobOf(files: Files, resolve: Resolver, t: Target): Job {
    Job(files, resolve, t.filePath, PatternsFor(t.mode))
  }

  /** Every job runs over the files that the jobs before it left, without any cache. */
  function RunAll(files: Files, resolve: Resolver, targets: seq<Target>, check: bool)
    : (seq<FileProcessingResult>, Files)
  {
    if targets == [] then ([], files)
    else
      var (results, files') := RunAll(files, resolve, targets[..|targets| - 1], check);
      var (result, files'') := JobOf(files', resolve, targets[|targets| - 1]).Run(check);
      (results + [result], files'')
  }

  ghost function Paths(targets: seq<Target>): set<string> {
    set i | 0 <= i < |targets| :: targets[i].filePath
  }

  /** The file of a target holds an opener whose source is at `path`. */
  ghost predicate Opens(files: Files, resolve: Resolver, t: Target, path: string, open: OpenMatch) {
    var job := JobOf(files, resolve, t);
    && t.filePath in files
    && OpenedIn(job.Lines(), job.p, open)
    && path == resolve(t.filePath, open.examplePath)
  }

  /** Each file is synced once, and no opener takes its snippet from a file that is synced. */
  ghost predicate Independent(files: Files, resolve: Resolver, targets: seq<Target>) {
    && (forall i, j :: 0 <= i < j < |targets| ==> targets[i].filePath != targets[j].filePath)
    && (forall t, path, open :: t in targets && Opens(files, resolve, t, path, open) ==> path !in Paths(targets))
  }

  /** What all the openers together name. */
  ghost function ScopeOf(files: Files, resolve: Resolver, targets: seq<Target>): Scope {
    Scope(
      iset path: string, t, open | t in targets && Opens(files, resolve, t, path, open) :: path,
      iset path: string, t, open |
        t in targets && Opens(files, resolve, t, path, open) && Named(open.regionName)
          && EndsWith(open.examplePath, ".ts")
        :: (path, open.regionName.value))
  }

  /**
   No source path extends another one behind a `#`, and no region is asked for both as that of a
   `.ts` file and not.
  */
  ghost predicate CacheSafe(files: Files, resolve: Resolver, targets: seq<Target>) {
    && Apart(ScopeOf(files, resolve, targets).paths)
    && forall t, path, open :: t in targets && Opens(files, resolve, t, path, open) && Named(open.regionName) ==>
         var asked := (path, open.regionName.value) in ScopeOf(files, resolve, targets).regions;
         EndsWith(open.examplePath, ".ts") <==> asked
  }

  lemma {:induction false} TargetInScope(files: Files, resolve: Resolver, targets: seq<Target>, t: Target)
    requires CacheSafe(files, resolve, targets) && t in targets
    ensures InScope(JobOf(files, resolve, t), ScopeOf(files, resolve, targets))
  {
    hide Apart, EndsWith, Split;
    var (job, scope) := (JobOf(files, resolve, t), ScopeOf(files, resolve, targets));
    if t.filePath in files {
      forall line | line in job.Lines() && job.p.open(line).Some?
        ensures SourceInScope(job, job.p.open(line).value, scope)
      {
        var open := job.p.open(line).value;
        assert Opens(files, resolve, t, resolve(t.filePath, open.examplePath), open);
      }
    }
  }

  /** What a job asks for is written in its own file. */
  lemma {:induction false} SameFileSameScope(job: Job, job': Job, scope: Scope)
    requires InScope(job, scope) && job' == job.(files := job'.files) && SameFile(job.files, job'.files, job.filePath)
    ensures InScope(job', scope)
  {
    hide Split;
    if job.filePath in job.files {
      forall line | line in job'.Lines() && job'.p.open(line).Some?
        ensures SourceInScope(job', job'.p.open(line).value, scope)
      {
        assert SourceInScope(job, job.p.open(line).value, scope);
      }
    }
  }

  /** A job's write keeps the cache coherent. */
  lemma {:induction false} RunKeepsCoherent(job: Job, check: bool, entries: map<string, string>, scope: Scope)
    requires Coherent(entries, job.files, scope) && job.filePath !in scope.paths
    ensures Coherent(entries, job.Run(check).1, scope)
  {
    hide Coherent, Job.Run;
    FailedRunWritesNothing(job, check);
    if job.filePath in job.files {
      WriteKeepsCoherent(entries, job.files, scope, job.filePath, job.Run(check).1[job.filePath]);
    }
  }

  lemma {:induction false} TargetNotInScope(files: Files, resolve: Resolver, targets: seq<Target>, t: Target)
    requires Independent(files, resolve, targets) && t in targets
    ensures t.filePath !in ScopeOf(files, resolve, targets).paths
  {
    hide Opens;
    var i :| 0 <= i < |targets| && targets[i] == t;
    assert t.filePath in Paths(targets);
  }

  /** A run only writes its targets. */
  lemma {:induction false} OnlyTargetsWritten(files: Files, resolve: Resolver, targets: seq<Target>, check: bool)
    ensures forall path :: path !in Paths(targets) ==> SameFile(files, RunAll(files, resolve, targets, check).1, path)
  {
    hide Job.Run;
    if targets == [] {
    } else {
      var n := |targets| - 1;
      var files' := RunAll(files, resolve, targets[..n], check).1;
      OnlyTargetsWritten(files, resolve, targets[..n], check);
      OnlyOwnFile(JobOf(files', resolve, targets[n]), check);
      PathsSnoc(targets);
      OthersStay(files, files', RunAll(files, resolve, targets, check).1, Paths(targets[..n]), targets[n].filePath);
    }
  }

  lemma {:induction false} NextTargetUnwritten(files: Files, resolve: Resolver, targets: seq<Target>, i: nat,
                                               check: bool)
    requires Independent(files, resolve, targets) && i < |targets|
    ensures SameFile(files, RunAll(files, resolve, targets[..i], check).1, targets[i].filePath)
  {
    hide Opens, SameFile;
    OnlyTargetsWritten(files, resolve, targets[..i], check);
  }

  predicate Clean(results: seq<FileProcessingResult>, check: bool) {
    forall i :: 0 <= i < |results| ==> results[i].errors == [] && !(check && results[i].modified)
  }

  /** One run of the script; `ok` says that it does not exit with an error. */
  method SyncSnippets(files: Files, resolve: Resolver, targets: seq<Target>, check: bool)
    returns (results: seq<FileProcessingResult>, files': Files, ok: bool)
    requires Independent(files, resolve, targets) && CacheSafe(files, resolve, targets)
    ensures (results, files') == RunAll(files, resolve, targets, check)
    ensures ok <==> Clean(results, check)
  {
    hide Coherent, Apart, InScope, SameFile, Job.Run, Independent, CacheSafe, ScopeOf;
    var cache := new RegionCache();
    var workspace := new Workspace(files, cache);
    results := [];
    ghost var scope := ScopeOf(files, resolve, targets);
    FreshCacheIsCoherent(files, scope);
    ApartScope(files, resolve, targets);
    for i := 0 to |targets|
      invariant Coherent(cache.entries, workspace.files, scope)
      invariant (results, workspace.files) == RunAll(files, resolve, targets[..i], check)
      invariant workspace.cache == cache
    {
      ghost var job := JobOf(workspace.files, resolve, targets[i]);
      assert targets[..i + 1][..i] == targets[..i];
      NextTargetUnwritten(files, resolve, targets, i, check);
      TargetInScope(files, resolve, targets, targets[i]);
      SameFileSameScope(JobOf(files, resolve, targets[i]), job, scope);
      var result := workspace.ProcessFile(targets[i].filePath, resolve, targets[i].mode, check, scope);
      TargetNotInScope(files, resolve, targets, targets[i]);
      RunKeepsCoherent(job, check, cache.entries, scope);
      results := results + [result];
    }
    assert targets[..|targets|] == targets;
    files' := workspace.files;
    ok := true;
    for i := 0 to |results|
      invariant ok <==> Clean(results[..i], check)
    {
      assert results[..i + 1] == results[..i] + [results[i]];
      CleanSnoc(results[..i], results[i], check);
      ok := ok && |results[i].errors| == 0 && !(check && results[i].modified);
    }
    assert results[..|results|] == results;
  }

  lemma ApartScope(files: Files, resolve: Resolver, targets: seq<Target>)
    requires CacheSafe(files, resolve, targets)
    ensures Apart(ScopeOf(files, resolve, targets).paths)
  {
  }

  lemma {:induction false} CleanSnoc(results: seq<FileProcessingResult>, result: FileProcessingResult, check: bool)
    ensures Clean(results + [result], check)
        <==> Clean(results, check) && result.errors == [] && !(check && result.modified)
  {
    var all := results + [result];
    assert all[|results|] == result;
    assert forall i :: 0 <= i < |results| ==> all[i] == results[i];
  }

  // ----- what a job depends on

  /** Two file systems that agree on a file and on the sources its openers name. */
  ghost predicate Agree(job: Job, job': Job) {
    && job' == job.(files := job'.files)
    && SameFile(job.files, job'.files, job.filePath)
    && (job.filePath in job.files ==>
          forall open :: OpenedIn(job.Lines(), job.p, open) ==>
            SameFile(job.files, job'.files, job.resolve(job.filePath, open.examplePath)))
  }

  predicate SameFile(files: Files, files': Files, path: string) {
    (path in files <==> path in files') && (path in files ==> files[path] == files'[path])
  }

  lemma {:induction false} CodeAgrees(job: Job, job': Job, open: OpenMatch)
    requires Agree(job, job') && job.filePath in job.files && OpenedIn(job.Lines(), job.p, open)
    ensures job.Code(open) == job'.Code(open) && job.Formatted(open) == job'.Formatted(open)
  {
    hide FormattedLines, Join, Regions.ExtractRegion, Trim, OpenedIn, Split;
    assert SameFile(job.files, job'.files, job.resolve(job.filePath, open.examplePath));
  }

  lemma {:induction false} ErrorsAgree(job: Job, job': Job, fences: seq<Fence>)
    requires Agree(job, job') && job.filePath in job.files
    requires forall fence :: fence in fences ==> OpenedIn(job.Lines(), job.p, fence.open)
    ensures job.Errors(fences) == job'.Errors(fences)
  {
    hide LookUp, Agree, OpenedIn, Split;
    if fences == [] {
    } else {
      CodeAgrees(job, job', fences[0].open);
      ErrorsAgree(job, job', fences[1..]);
      SamePath(job, job');
    }
  }

  lemma SamePath(job: Job, job': Job)
    requires Agree(job, job')
    ensures job.filePath == job'.filePath && job.p == job'.p && job.resolve == job'.resolve
    ensures SameFile(job.files, job'.files, job.filePath)
  {
  }

  lemma {:induction false} SpliceAgrees(content: string, fences: seq<Fence>, format: OpenMatch -> string,
                                        format': OpenMatch -> string)
    requires forall fence :: fence in fences ==> format(fence.open) == format'(fence.open)
    ensures ReverseSplice(content, fences, format) == ReverseSplice(content, fences, format')
    decreases |fences|
  {
    hide Splice;
    if fences == [] {
    } else {
      var n := |fences| - 1;
      assert fences[n] in fences;
      SpliceAgrees(Splice(content, fences[n], format(fences[n].open)), fences[..n], format, format');
    }
  }

  /** Jobs that agree report the same and leave the same file. */
  lemma {:induction false} RunAgrees(job: Job, job': Job, check: bool)
    requires Agree(job, job')
    ensures job.Run(check).0 == job'.Run(check).0
    ensures SameFile(job.Run(check).1, job'.Run(check).1, job.filePath)
  {
    hide LookUp, Agree, Split, Job.Errors, ReverseSplice, Join, OpenedIn;
    SamePath(job, job');
    if job.filePath in job.files && AllClosed(job.Lines(), job.p, |job.Lines()|) {
      var fences := FencesUpTo(job.Lines(), job.p, |job.Lines()|);
      OpenersOfFences(job.Lines(), job.p);
      ErrorsAgree(job, job', fences);
      forall fence | fence in fences ensures job.Format()(fence.open) == job'.Format()(fence.open) {
        CodeAgrees(job, job', fence.open);
      }
      SpliceAgrees(job.files[job.filePath], fences, job.Format(), job'.Format());
    }
  }

  // ----- what the whole run does

  /** Every target is reported and left as its own job over the first files does; other files stay. */
  ghost predicate Local(files: Files, resolve: Resolver, targets: seq<Target>, check: bool,
                        results: seq<FileProcessingResult>, files': Files) {
    && |results| == |targets|
    && (forall i :: 0 <= i < |targets| ==> LocalAt(files, resolve, targets[i], check, results[i], files'))
    && (forall path :: path !in Paths(targets) ==> SameFile(files, files', path))
  }

  ghost predicate LocalAt(files: Files, resolve: Resolver, t: Target, check: bool, result: FileProcessingResult,
                          files': Files) {
    var (own, left) := JobOf(files, resolve, t).Run(check);
    result == own && SameFile(left, files', t.filePath)
  }

  lemma {:induction false} IndependentPrefix(files: Files, resolve: Resolver, targets: seq<Target>)
    requires Independent(files, resolve, targets) && targets != []
    ensures Independent(files, resolve, targets[..|targets| - 1])
    ensures targets[|targets| - 1].filePath !in Paths(targets[..|targets| - 1])
  {
    hide Opens;
    var init := targets[..|targets| - 1];
    PathsSnoc(targets);
    forall t, path, open | t in init && Opens(files, resolve, t, path, open) ensures path !in Paths(init) {
      assert t in targets;
    }
  }

  /** Jobs whose file and sources were not written in between agree. */
  lemma {:induction false} UnwrittenAgree(files: Files, files': Files, resolve: Resolver, t: Target,
                                          written: set<string>)
    requires forall path :: path !in written ==> SameFile(files, files', path)
    requires SameFile(files, files', t.filePath)
    requires forall path, open :: Opens(files, resolve, t, path, open) ==> path !in written
    ensures Agree(JobOf(files, resolve, t), JobOf(files', resolve, t))
  {
    hide SameFile, OpenedIn, Split;
    var job := JobOf(files, resolve, t);
    if t.filePath in files {
      forall open | OpenedIn(job.Lines(), job.p, open)
        ensures SameFile(files, files', resolve(t.filePath, open.examplePath))
      {
        assert Opens(files, resolve, t, resolve(t.filePath, open.examplePath), open);
      }
    }
  }

  lemma {:induction false} SourcesUnwritten(files: Files, resolve: Resolver, targets: seq<Target>, i: nat)
    requires Independent(files, resolve, targets) && i < |targets|
    ensures targets[i].filePath in Paths(targets)
    ensures forall path, open :: Opens(files, resolve, targets[i], path, open) ==> path !in Paths(targets)
  {
    hide Opens;
  }

  lemma {:induction false} PathsSnoc(targets: seq<Target>)
    requires targets != []
    ensures Paths(targets) == Paths(targets[..|targets| - 1]) + {targets[|targets| - 1].filePath}
  {
    var init := targets[..|targets| - 1];
    forall path | path in Paths(targets) ensures path in Paths(init) + {targets[|targets| - 1].filePath} {
      var i :| 0 <= i < |targets| && targets[i].filePath == path;
      if i < |init| {
        assert init[i].filePath == path;
      }
    }
  }

  /**
   Through one shared cache and with all the writes in between, every file is reported and left
   as if it were the only one to be synced.
   */
  lemma {:induction false} RunIsLocal(files: Files, resolve: Resolver, targets: seq<Target>, check: bool)
    requires Independent(files, resolve, targets)
    ensures Local(files, resolve, targets, check, RunAll(files, resolve, targets, check).0,
                  RunAll(files, resolve, targets, check).1)
    decreases |targets|
  {
    hide Job.Run, Opens, LocalAt, Agree, Independent, SameFile;
    OnlyTargetsWritten(files, resolve, targets, check);
    if targets == [] {
    } else {
      var n := |targets| - 1;
      var (results, files') := RunAll(files, resolve, targets[..n], check);
      var (result, files'') := JobOf(files', resolve, targets[n]).Run(check);
      IndependentPrefix(files, resolve, targets);
      RunIsLocal(files, resolve, targets[..n], check);
      PathsSnoc(targets);
      SourcesUnwritten(files, resolve, targets, n);
      UnwrittenAgree(files, files', resolve, targets[n], Paths(targets[..n]));
      RunAgrees(JobOf(files, resolve, targets[n]), JobOf(files', resolve, targets[n]), check);
      LastIsLocal(files, files', resolve, targets[n], check);
      OnlyOwnFile(JobOf(files', resolve, targets[n]), check);
      forall i | 0 <= i < n ensures LocalAt(files, resolve, targets[i], check, results[i], files'') {
        assert LocalAt(files, resolve, targets[..n][i], check, results[i], files');
        OtherPath(files, resolve, targets, i, n);
        StaysLocal(files, resolve, targets[i], check, results[i], files', files'');
      }
    }
  }

  lemma {:induction false} OtherPath(files: Files, resolve: Resolver, targets: seq<Target>, i: nat, j: nat)
    requires Independent(files, resolve, targets) && i < j < |targets|
    ensures targets[i].filePath != targets[j].filePath
  {
    hide Opens;
  }

  lemma {:induction false} OthersStay(files: Files, files': Files, files'': Files, written: set<string>, last: string)
    requires forall path :: path !in written ==> SameFile(files, files', path)
    requires forall path :: path != last ==> SameFile(files', files'', path)
    ensures forall path :: path !in written + {last} ==> SameFile(files, files'', path)
  {
    forall path | path !in written + {last} ensures SameFile(files, files'', path) {
      assert SameFile(files, files', path) && SameFile(files', files'', path);
    }
  }

  lemma {:induction false} OwnWriteStays(files: Files, left: Files, files': Files, written: set<string>, own: string)
    requires own in written
    requires forall path :: path !in written ==> SameFile(files, files', path)
    requires forall path :: path != own ==> SameFile(files, left, path)
    ensures forall path :: path !in written ==> SameFile(left, files', path)
  {
    forall path | path !in written ensures SameFile(left, files', path) {
      assert SameFile(files, files', path) && SameFile(files, left, path);
    }
  }

  lemma {:induction false} LastIsLocal(files: Files, files': Files, resolve: Resolver, t: Target, check: bool)
    requires JobOf(files, resolve, t).Run(check).0 == JobOf(files', resolve, t).Run(check).0
    requires SameFile(JobOf(files, resolve, t).Run(check).1, JobOf(files', resolve, t).Run(check).1, t.filePath)
    ensures LocalAt(files, resolve, t, check, JobOf(files', resolve, t).Run(check).0,
        JobOf(files', resolve, t).Run(check).1)
  {
    hide Job.Run;
  }

  lemma {:induction false} StaysLocal(files: Files, resolve: Resolver, t: Target, check: bool,
                                      result: FileProcessingResult, files': Files, files'': Files)
    requires LocalAt(files, resolve, t, check, result, files') && SameFile(files', files'', t.filePath)
    ensures LocalAt(files, resolve, t, check, result, files'')
  {
    hide Job.Run;
  }

  lemma {:induction false} OnlyOwnFile(job: Job, check: bool)
    ensures forall path :: path != job.filePath ==> SameFile(job.files, job.Run(check).1, path)
  {
    hide Job.Run;
    FailedRunWritesNothing(job, check);
  }

  ghost predicate AllSyncable(files: Files, resolve: Resolver, targets: seq<Target>) {
    forall i :: 0 <= i < |targets| ==>
      var job := JobOf(files, resolve, targets[i]);
      Syncable(job) && SnippetsDoNotOpen(job)
  }

  ghost predicate NoneCloses(files: Files, resolve: Resolver, targets: seq<Target>) {
    forall i :: 0 <= i < |targets| ==>
      var job := JobOf(files, resolve, targets[i]);
      job.filePath in files && SnippetsDoNotClose(job)
  }

  lemma FileIsThere(job: Job)
    requires Syncable(job)
    ensures job.filePath in job.files
  {
  }

  /** What a run leaves of a target, next to what its own job leaves. */
  lemma {:induction false} TargetAfterRun(files: Files, resolve: Resolver, targets: seq<Target>, i: nat)
    requires Independent(files, resolve, targets) && i < |targets|
    ensures var files' := RunAll(files, resolve, targets, false).1;
            var left := After(JobOf(files, resolve, targets[i])).files;
            && SameFile(left, files', targets[i].filePath)
            && forall path :: path !in Paths(targets) ==> SameFile(left, files', path)
  {
    hide Job.Run, Opens, Independent, SameFile;
    var t, files' := targets[i], RunAll(files, resolve, targets, false).1;
    var job := JobOf(files, resolve, t);
    RunIsLocal(files, resolve, targets, false);
    SourcesUnwritten(files, resolve, targets, i);
    assert LocalAt(files, resolve, t, false, RunAll(files, resolve, targets, false).0[i], files');
    OnlyOwnFile(job, false);
    OwnWriteStays(files, After(job).files, files', Paths(targets), t.filePath);
  }

  /** A run brings no new opener into a syncable target. */
  lemma {:induction false} OpensBefore(files: Files, files': Files, resolve: Resolver, t: Target, path: string,
                                       open: OpenMatch)
    requires Opens(files', resolve, t, path, open)
    ensures var job := JobOf(files, resolve, t);
            Syncable(job) && SnippetsDoNotOpen(job) && SameFile(After(job).files, files', t.filePath) ==>
              Opens(files, resolve, t, path, open)
  {
    hide Job.Run, Split, LookUp, FormattedLines, Sync, Exclusive, Reporting;
    var job := JobOf(files, resolve, t);
    if Syncable(job) && SnippetsDoNotOpen(job) && SameFile(After(job).files, files', t.filePath) {
      PatternsAreSound(t.mode);
      LinesAfter(job);
      SyncedOpenersKept(job.Lines(), job.p, ProcessFile.Snippets(job));
    }
  }

  /** The openers of all targets after a run were there before. */
  lemma {:induction false} RunOpensNothing(files: Files, resolve: Resolver, targets: seq<Target>)
    requires Independent(files, resolve, targets) && AllSyncable(files, resolve, targets)
    ensures var files' := RunAll(files, resolve, targets, false).1;
            forall t, path, open :: t in targets && Opens(files', resolve, t, path, open) ==>
              Opens(files, resolve, t, path, open)
  {
    hide Job.Run, Opens, Independent, Syncable, SnippetsDoNotOpen, SameFile;
    var files' := RunAll(files, resolve, targets, false).1;
    forall t, path, open | t in targets && Opens(files', resolve, t, path, open)
      ensures Opens(files, resolve, t, path, open)
    {
      var i :| 0 <= i < |targets| && targets[i] == t;
      TargetAfterRun(files, resolve, targets, i);
      OpensBefore(files, files', resolve, t, path, open);
    }
  }

  /** After a run the script may be run again. */
  lemma {:induction false} RunnableAgain(files: Files, resolve: Resolver, targets: seq<Target>)
    requires Independent(files, resolve, targets) && AllSyncable(files, resolve, targets)
    ensures Independent(RunAll(files, resolve, targets, false).1, resolve, targets)
    ensures CacheSafe(files, resolve, targets) ==> CacheSafe(RunAll(files, resolve, targets, false).1, resolve, targets)
  {
    hide Job.Run, Opens, Syncable, SnippetsDoNotOpen, RunAll, EndsWith;
    RunOpensNothing(files, resolve, targets);
    if CacheSafe(files, resolve, targets) {
      FewerOpenersAreSafe(files, RunAll(files, resolve, targets, false).1, resolve, targets);
    }
  }

  lemma {:induction false} FewerOpenersAreSafe(files: Files, files': Files, resolve: Resolver, targets: seq<Target>)
    requires CacheSafe(files, resolve, targets)
    requires forall t, path, open :: t in targets && Opens(files', resolve, t, path, open) ==>
        Opens(files, resolve, t, path, open)
    ensures CacheSafe(files', resolve, targets)
  {
    hide Opens, EndsWith;
    ApartWithin(ScopeOf(files', resolve, targets).paths, ScopeOf(files, resolve, targets).paths);
  }

  /** What the check run says of one target. */
  lemma {:induction false} TargetChecked(files: Files, resolve: Resolver, targets: seq<Target>, i: nat)
    requires Independent(files, resolve, targets) && AllSyncable(files, resolve, targets) && i < |targets|
    ensures targets[i].filePath in files
    ensures var files' := RunAll(files, resolve, targets, false).1;
            var result := JobOf(files', resolve, targets[i]).Run(true).0;
            result.errors == [] && (!result.modified <==> SnippetsDoNotClose(JobOf(files, resolve, targets[i])))
  {
    hide Job.Run, Opens, Agree, Independent, Syncable, SnippetsDoNotOpen, SnippetsDoNotClose, Exclusive, Reporting,
      SameFile;
    var t, files' := targets[i], RunAll(files, resolve, targets, false).1;
    var job := JobOf(files, resolve, t);
    FileIsThere(job);
    TargetAfterRun(files, resolve, targets, i);
    SourcesUnwritten(files, resolve, targets, i);
    forall path, open | Opens(After(job).files, resolve, t, path, open) ensures path !in Paths(targets) {
      SameFileItself(After(job).files, t.filePath);
      OpensBefore(files, After(job).files, resolve, t, path, open);
    }
    UnwrittenAgree(After(job).files, files', resolve, t, Paths(targets));
    RunAgrees(After(job), JobOf(files', resolve, t), true);
    PatternsAreSound(t.mode);
    SecondRunIsCleanIff(job);
  }

  lemma SameFileItself(files: Files, path: string)
    ensures SameFile(files, files, path)
  {
  }

  /** A run exits well exactly when every file is there, every fence closed and every snippet found. */
  lemma {:induction false} RunExitsWellIff(files: Files, resolve: Resolver, targets: seq<Target>)
    requires Independent(files, resolve, targets)
    ensures Clean(RunAll(files, resolve, targets, false).0, false)
       <==> forall i :: 0 <= i < |targets| ==> Complete(JobOf(files, resolve, targets[i]))
  {
    hide Job.Run, Independent, SameFile, Paths, RunAll, Complete, Opens;
    var (results, files') := RunAll(files, resolve, targets, false);
    RunIsLocal(files, resolve, targets, false);
    forall i | 0 <= i < |targets|
      ensures results[i].errors == [] <==> Complete(JobOf(files, resolve, targets[i]))
    {
      assert LocalAt(files, resolve, targets[i], false, results[i], files');
      RunSucceedsIff(JobOf(files, resolve, targets[i]), false);
    }
  }

  /**
   The script brings itself to rest exactly when it can: after a run over syncable files whose
   snippets open no fence, the check run passes if and only if no snippet line closes a fence.
   */
  lemma {:induction false} CheckPassesAfterRunIff(files: Files, resolve: Resolver, targets: seq<Target>)
    requires Independent(files, resolve, targets) && AllSyncable(files, resolve, targets)
    ensures var files' := RunAll(files, resolve, targets, false).1;
            Clean(RunAll(files', resolve, targets, true).0, true) <==> NoneCloses(files, resolve, targets)
  {
    hide Job.Run, Independent, AllSyncable, SnippetsDoNotClose, RunAll, SameFile, Paths;
    var files' := RunAll(files, resolve, targets, false).1;
    RunnableAgain(files, resolve, targets);
    RunIsLocal(files', resolve, targets, true);
    forall i | 0 <= i < |targets|
      ensures targets[i].filePath in files
      ensures var result := JobOf(files', resolve, targets[i]).Run(true).0;
              result.errors == [] && (!result.modified <==> SnippetsDoNotClose(JobOf(files, resolve, targets[i])))
    {
      TargetChecked(files, resolve, targets, i);
    }
  }
}
