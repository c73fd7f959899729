/** Syncing one file: what is written, what is reported, and that a second run finds nothing to do. */
module ProcessFile {
  import opened Wrappers
  import opened Text
  import opened Seqs
  import opened FencePatterns
  import opened FenceScan
  import opened SyncLines
  import opened FenceShift
  import opened Regions
  import opened SnippetSync

  datatype SyncError =
    | ReadFailed(path: string)
    | ScanFailed(scan: ScanError)
    | SnippetFailed(path: string, snippet: RegionError)

  datatype FileProcessingResult = FileProcessingResult(
    filePath: string,
    modified: bool,
    snippetsProcessed: nat,
    errors: seq<SyncError>)

  function FormattedLine(line: string, linePrefix: string): string {
    if line == "" then TrimEnd(linePrefix) else linePrefix + line
  }

  function FormattedLines(code: string, linePrefix: string): seq<string> {
    var lines := Split(code, NL);
    seq(|lines|, i requires 0 <= i < |lines| => FormattedLine(lines[i], linePrefix))
  }

  /** A formatted line: the prefix and the line, or for an empty line the prefix without trailing white space. */
  predicate FormattedAs(out: string, line: string, linePrefix: string) {
    if line != "" then linePrefix <= out && out[|linePrefix|..] == line
    else out <= linePrefix && AllSpace(linePrefix[|out|..]) && (out != "" ==> !IsSpace(out[|out| - 1]))
  }

  /** Line by line. */
  ghost predicate AllFormatted(out: seq<string>, lines: seq<string>, linePrefix: string) {
    |out| == |lines| && forall i :: 0 <= i < |lines| ==> FormattedAs(out[i], lines[i], linePrefix)
  }

  lemma {:induction false} FormattedLineIs(line: string, linePrefix: string)
    ensures FormattedAs(FormattedLine(line, linePrefix), line, linePrefix)
  {
    TrimEndCuts(linePrefix);
  }

  lemma {:induction false} FormattedLinesAre(code: string, linePrefix: string)
    ensures AllFormatted(FormattedLines(code, linePrefix), Split(code, NL), linePrefix)
  {
    hide FormattedAs, FormattedLine;
    var lines := Split(code, NL);
    forall i | 0 <= i < |lines| ensures FormattedAs(FormattedLine(lines[i], linePrefix), lines[i], linePrefix) {
      FormattedLineIs(lines[i], linePrefix);
    }
  }

  /** The lines of formatted code are the lines of the code, each formatted. */
  lemma {:induction false} FormatCodeLinesIs(code: string, linePrefix: string)
    requires NL !in linePrefix
    ensures AllFormatted(Split(FormatCodeLines(code, linePrefix), NL), Split(code, NL), linePrefix)
  {
    hide AllFormatted, FormattedLines;
    FormattedLinesAre(code, linePrefix);
    FormattedSeparated(code, linePrefix);
    SplitJoin(FormattedLines(code, linePrefix), NL);
  }

  lemma {:induction false} FormattedSeparated(code: string, linePrefix: string)
    requires NL !in linePrefix
    ensures Separated(FormattedLines(code, linePrefix), NL)
  {
    SplitIsSeparated(code, NL);
    forall i | 0 <= i < |Split(code, NL)| ensures NL !in FormattedLine(Split(code, NL)[i], linePrefix) {
      InPrefix(linePrefix, TrimEnd(linePrefix), NL);
    }
  }

  function FormatCodeLines(code: string, linePrefix: string): string {
    Join(FormattedLines(code, linePrefix), NL)
  }

  // ----- what one run does

  /** Everything a run over one file depends on. */
  datatype Job = Job(files: Files, resolve: Resolver, filePath: string, p: Patterns) {

    function Lines(): seq<string>
      requires filePath in files
    {
      Split(files[filePath], NL)
    }

    function Code(open: OpenMatch): Result<string, RegionError> {
      LookUp(files, resolve(filePath, open.examplePath), open.examplePath, open.regionName)
    }

    /** The lines put into the body of a fence. */
    function Snippet(open: OpenMatch): seq<string> {
      FormattedLines(if Code(open).Success? then Code(open).value else "", open.linePrefix)
    }

    function Formatted(open: OpenMatch): string {
      Join(Snippet(open), NL)
    }

    function Format(): OpenMatch -> string {
      (open: OpenMatch) => Formatted(open)
    }

    /** The errors of a list of fences, last fence first. */
    function Errors(fences: seq<Fence>): seq<SyncError> {
      if fences == [] then []
      else
        var code := Code(fences[0].open);
        Errors(fences[1..]) + if code.Success? then [] else [SnippetFailed(filePath, code.error)]
    }

    /** The result of a run that found `fences`, and the files it leaves. */
    function Spliced(fences: seq<Fence>, check: bool): (FileProcessingResult, Files)
      requires filePath in files && |Errors(fences)| <= |fences|
    {
      var errors := Errors(fences);
      var content := ReverseSplice(files[filePath], fences, Format());
      var modified := errors == [] && content != files[filePath];
      (FileProcessingResult(filePath, modified, |fences| - |errors|, errors),
       if modified && !check then files[filePath := content] else files)
    }

    function Run(check: bool): (FileProcessingResult, Files) {
      if filePath !in files then (FileProcessingResult(filePath, false, 0, [ReadFailed(filePath)]), files)
      else
        match ScanOf(Lines(), p, filePath)
        case Failure(error) => (FileProcessingResult(filePath, false, 0, [ScanFailed(error)]), files)
        case Success(fences) => ErrorsAreFew(this, fences); Spliced(fences, check)
    }
  }

  lemma {:induction false} ErrorsAreFew(job: Job, fences: seq<Fence>)
    ensures |job.Errors(fences)| <= |fences|
  {
    if fences == [] {
    } else {
      ErrorsAreFew(job, fences[1..]);
    }
  }

  /** No error is reported exactly when every fence's snippet is found. */
  lemma {:induction false} ErrorsEmptyIff(job: Job, fences: seq<Fence>)
    ensures job.Errors(fences) == [] <==> forall i :: 0 <= i < |fences| ==> job.Code(fences[i].open).Success?
  {
    hide LookUp;
    if fences == [] {
    } else {
      ErrorsEmptyIff(job, fences[1..]);
      forall i | 0 < i < |fences| ensures fences[i] == fences[1..][i - 1] {
      }
    }
  }

  ghost predicate OpenedIn(lines: seq<string>, p: Patterns, open: OpenMatch) {
    exists line :: line in lines && p.open(line) == Some(open)
  }

  lemma {:induction false} OpenersOfFences(lines: seq<string>, p: Patterns)
    requires AllClosed(lines, p, |lines|)
    ensures forall fence :: fence in FencesUpTo(lines, p, |lines|) ==> OpenedIn(lines, p, fence.open)
  {
    var fences := FencesUpTo(lines, p, |lines|);
    forall i | 0 <= i < |fences| ensures OpenedIn(lines, p, fences[i].open) {
      var k := FenceLine(lines, p, |lines|, i);
      assert lines[k] in lines;
    }
  }

  // ----- the run as the code performs it

  /**
   The source an opener names is in scope, and its region is there as that of a `.ts` file or not,
   as it is written.
  */
  ghost predicate SourceInScope(job: Job, open: OpenMatch, scope: Scope) {
    var path := job.resolve(job.filePath, open.examplePath);
    && path in scope.paths
    && (Named(open.regionName) ==>
          (EndsWith(open.examplePath, ".ts") <==> (path, open.regionName.value) in scope.regions))
  }

  /** So are the sources of all openers of the file. */
  ghost predicate InScope(job: Job, scope: Scope) {
    job.filePath in job.files ==>
      forall line :: line in job.Lines() && job.p.open(line).Some? ==> SourceInScope(job, job.p.open(line).value, scope)
  }

  /** In scope, a lookup through the cache is as good as one without. */
  lemma {:induction false} CodeFromCache(job: Job, entries: map<string, string>, scope: Scope, open: OpenMatch)
    requires Coherent(entries, job.files, scope) && Apart(scope.paths) && SourceInScope(job, open, scope)
    ensures var path := job.resolve(job.filePath, open.examplePath);
            var (r, entries') := Load(entries, job.files, path, open.examplePath, open.regionName);
            r == job.Code(open) && Coherent(entries', job.files, scope)
  {
    hide Load, LookUp, Apart, CacheKey, EndsWith;
    var path := job.resolve(job.filePath, open.examplePath);
    LoadIsTransparent(entries, job.files, scope, path, open.examplePath, open.regionName);
    if Named(open.regionName) {
      EntryHeld(entries, job.files, scope, path, open.regionName.value);
    }
  }

  lemma {:induction false} FencesInScope(job: Job, scope: Scope)
    requires job.filePath in job.files && AllClosed(job.Lines(), job.p, |job.Lines()|) && InScope(job, scope)
    ensures forall fence :: fence in FencesUpTo(job.Lines(), job.p, |job.Lines()|) ==>
        SourceInScope(job, fence.open, scope)
  {
    hide SourceInScope, Split;
    OpenersOfFences(job.Lines(), job.p);
  }

  class Workspace {
    var files: Files
    const cache: RegionCache

    constructor (files: Files, cache: RegionCache)
      ensures this.files == files && this.cache == cache
    {
      this.files := files;
      this.cache := cache;
    }

    method ProcessFile(filePath: string, resolve: Resolver, mode: FileMode, check: bool, ghost scope: Scope)
      returns (result: FileProcessingResult)
      requires Coherent(cache.entries, files, scope) && Apart(scope.paths)
      requires InScope(Job(files, resolve, filePath, PatternsFor(mode)), scope)
      modifies this, cache
      ensures (result, files) == Job(old(files), resolve, filePath, PatternsFor(mode)).Run(check)
      ensures Coherent(cache.entries, old(files), scope)
    {
      hide Coherent, Apart, SourceInScope, LookUp, Load, MatchOpener, IsCloser;
      ghost var job := Job(files, resolve, filePath, PatternsFor(mode));
      if filePath !in files {
        return FileProcessingResult(filePath, false, 0, [ReadFailed(filePath)]);
      }
      var content := files[filePath];
      var scan := FindLabeledCodeFences(content, filePath, mode);
      if scan.Failure? {
        return FileProcessingResult(filePath, false, 0, [ScanFailed(scan.error)]);
      }
      var fences := scan.value;
      if |fences| == 0 {
        return FileProcessingResult(filePath, false, 0, []);
      }
      FencesInScope(job, scope);
      result := SpliceFences(fences, job, filePath, resolve, check, scope);
    }

    method SpliceFences(fences: seq<Fence>, ghost job: Job, filePath: string, resolve: Resolver, check: bool,
                        ghost scope: Scope)
      returns (result: FileProcessingResult)
      requires filePath in files && job.files == files && job.filePath == filePath && job.resolve == resolve
      requires Coherent(cache.entries, files, scope) && Apart(scope.paths)
      requires forall i :: 0 <= i < |fences| ==> SourceInScope(job, fences[i].open, scope)
      modifies this, cache
      ensures |job.Errors(fences)| <= |fences| && (result, files) == job.Spliced(fences, check)
      ensures Coherent(cache.entries, old(files), scope)
    {
      hide Coherent, Apart, SourceInScope, Load, LookUp, FormattedLines, Join, Splice, ReverseSplice;
      var originalContent := files[filePath];
      var content := originalContent;
      var errors: seq<SyncError> := [];
      var snippetsProcessed := 0;
      ghost var format := job.Format();
      var i := |fences|;
      assert fences[..i] == fences && fences[i..] == [];
      while i > 0
        invariant 0 <= i <= |fences|
        invariant files == job.files && Coherent(cache.entries, files, scope)
        invariant errors == job.Errors(fences[i..]) && snippetsProcessed == |fences| - i - |errors| >= 0
        invariant errors == [] ==>
                    ReverseSplice(content, fences[..i], format) == ReverseSplice(originalContent, fences, format)
      {
        i := i - 1;
        var fence := fences[i];
        CodeFromCache(job, cache.entries, scope, fence.open);
        var code := cache.GetOrLoadRegion(files, resolve, filePath, fence.open.examplePath, fence.open.regionName);
        assert fences[i..][1..] == fences[i + 1..] && fences[i..][0] == fence;
        if code.Success? {
          var formattedCode := FormatCodeLines(code.value, fence.open.linePrefix);
          assert formattedCode == format(fence.open);
          ReverseSpliceLast(content, fences[..i], fence, format);
          assert fences[..i + 1] == fences[..i] + [fence];
          content := Splice(content, fence, formattedCode);
          snippetsProcessed := snippetsProcessed + 1;
        } else {
          errors := errors + [SnippetFailed(filePath, code.error)];
        }
      }
      assert fences[0..] == fences && fences[..0] == [];
      ReverseSpliceNone(content, format);
      ReverseSpliceNone(originalContent, format);
      var modified := false;
      if snippetsProcessed > 0 && |errors| == 0 && content != originalContent {
        if !check {
          files := files[filePath := content];
        }
        modified := true;
      }
      result := FileProcessingResult(filePath, modified, snippetsProcessed, errors);
      assert errors == [] ==> content == ReverseSplice(originalContent, fences, format);
    }
  }

  lemma {:induction false} FenceOfOpener(lines: seq<string>, p: Patterns, n: nat, i: nat) returns (x: nat)
    requires i < n <= |lines| && AllClosed(lines, p, n) && p.open(lines[i]).Some?
    ensures x < |FencesUpTo(lines, p, n)| && FencesUpTo(lines, p, n)[x].open == p.open(lines[i]).value
  {
    if i == n - 1 {
      x := |FencesUpTo(lines, p, n)| - 1;
    } else {
      x := FenceOfOpener(lines, p, n - 1, i);
    }
  }

  /** The file is there, every opener is closed, and every opener's snippet is found. */
  ghost predicate Complete(job: Job) {
    && job.filePath in job.files
    && var lines := job.Lines();
       AllClosed(lines, job.p, |lines|)
       && forall i :: 0 <= i < |lines| && job.p.open(lines[i]).Some? ==>
            job.Code(job.p.open(lines[i]).value).Success?
  }

  /** A run reports no error exactly when the file is there, every fence is closed and every snippet is found. */
  lemma {:induction false} RunSucceedsIff(job: Job, check: bool)
    ensures job.Run(check).0.errors == [] <==> Complete(job)
  {
    hide LookUp, Split, ReverseSplice, Join;
    if job.filePath in job.files && AllClosed(job.Lines(), job.p, |job.Lines()|) {
      var lines := job.Lines();
      var fences := FencesUpTo(lines, job.p, |lines|);
      ErrorsEmptyIff(job, fences);
      OpenersOfFences(lines, job.p);
      forall i | 0 <= i < |lines| && job.p.open(lines[i]).Some?
        ensures exists x :: 0 <= x < |fences| && fences[x].open == job.p.open(lines[i]).value
      {
        var x := FenceOfOpener(lines, job.p, |lines|, i);
      }
    }
  }

  /** A run that reports an error, or one that only checks, writes nothing. */
  lemma {:induction false} FailedRunWritesNothing(job: Job, check: bool)
    ensures var (result, files') := job.Run(check);
            && (result.errors != [] ==> !result.modified)
            && (result.errors != [] || check || !result.modified ==> files' == job.files)
            && files'.Keys == job.files.Keys
            && (if job.filePath in job.files then files' == job.files[job.filePath := files'[job.filePath]]
                else files' == job.files)
  {
    hide LookUp, Split, ReverseSplice, ScanOf;
  }

  /** Each fence adds its own error or none, the last fence first. */
  lemma {:induction false} ErrorsAre(job: Job, a: seq<Fence>, fence: Fence)
    ensures job.Errors([fence])
         == match job.Code(fence.open) case Success(_) => [] case Failure(e) => [SnippetFailed(job.filePath, e)]
    ensures job.Errors(a + [fence]) == job.Errors([fence]) + job.Errors(a)
  {
    hide LookUp;
    assert [fence][1..] == [];
    assert job.Errors([]) == [];
    if a == [] {
      assert a + [fence] == [fence];
    } else {
      assert (a + [fence])[1..] == a[1..] + [fence];
      ErrorsAre(job, a[1..], fence);
    }
  }

  /** What a run reports: a missing file, the first opener that nothing closes, or the error of each fence. */
  lemma {:induction false} RunReports(job: Job, check: bool)
    ensures var result := job.Run(check).0;
            && result.filePath == job.filePath
            && (job.filePath !in job.files ==>
                  result.errors == [ReadFailed(job.filePath)] && result.snippetsProcessed == 0)
            && (job.filePath in job.files ==>
                  var lines := job.Lines();
                  && (forall i :: 0 <= i < |lines| && FirstUnclosed(lines, job.p, i) ==>
                        var open := job.p.open(lines[i]).value;
                        && result.errors == [ScanFailed(NoClosingFence(job.filePath, open.examplePath,
                          open.regionName))]
                        && result.snippetsProcessed == 0)
                  && (AllClosed(lines, job.p, |lines|) ==>
                        && result.errors == job.Errors(FencesUpTo(lines, job.p, |lines|))
                        && result.snippetsProcessed + |result.errors| == |FencesUpTo(lines, job.p, |lines|)|))
  {
    hide LookUp, Split, ReverseSplice, FirstCloser, FencesUpTo;
    if job.filePath in job.files {
      var lines := job.Lines();
      forall i | 0 <= i < |lines| && FirstUnclosed(lines, job.p, i)
        ensures !AllClosed(lines, job.p, |lines|) && UnclosedLine(lines, job.p, 0) == i
      {
        UnclosedIsUnique(lines, job.p, i);
      }
    }
  }

  // ----- what a run achieves

  /**
   A file that a run can sync: every fence is closed, none opens inside another, every snippet
   is found, and none is taken from the file itself.
   */
  ghost predicate Syncable(job: Job) {
    && job.filePath in job.files
    && var lines := job.Lines();
    && AllClosed(lines, job.p, |lines|)
    && NoNesting(lines, job.p)
    && forall line :: line in lines && job.p.open(line).Some? ==>
         var open := job.p.open(line).value;
         job.Code(open).Success? && job.resolve(job.filePath, open.examplePath) != job.filePath
  }

  function Snippets(job: Job): SyncLines.Snippets {
    (open: OpenMatch) => job.Snippet(open)
  }

  /** The lines of the file once every body is replaced. */
  function SyncedLines(job: Job): seq<string>
    requires job.filePath in job.files
  {
    Sync(job.Lines(), job.p, Snippets(job))
  }

  lemma {:induction false} SnippetSeparated(job: Job, open: OpenMatch)
    requires NL !in open.linePrefix
    ensures Separated(job.Snippet(open), NL)
  {
    hide LookUp, FormattedLines;
    FormattedSeparated(if job.Code(open).Success? then job.Code(open).value else "", open.linePrefix);
  }

  lemma InPrefix(s: string, prefix: string, c: char)
    requires prefix <= s && c !in s
    ensures c !in prefix
  {
  }

  lemma {:induction false} SnippetsSeparated(job: Job)
    requires Reporting(job.p) && job.filePath in job.files
    ensures SnippetsAreLines(job.Lines(), job.p, Snippets(job))
    ensures Separated(job.Lines(), NL)
  {
    hide LookUp, Split, FormattedLines;
    var lines := job.Lines();
    SplitIsSeparated(job.files[job.filePath], NL);
    forall i | 0 <= i < |lines| && job.p.open(lines[i]).Some?
      ensures Separated(Snippets(job)(job.p.open(lines[i]).value), NL)
    {
      var open := job.p.open(lines[i]).value;
      InPrefix(lines[i], open.linePrefix, NL);
      SnippetSeparated(job, open);
    }
  }

  /** A run over a syncable file succeeds, and what it writes is the file with every body replaced. */
  lemma {:induction false} RunSyncs(job: Job, check: bool)
    requires Syncable(job) && Exclusive(job.p) && Reporting(job.p)
    ensures var (result, files') := job.Run(check);
            var synced := Join(SyncedLines(job), NL);
            && result.errors == []
            && (result.modified <==> synced != job.files[job.filePath])
            && files' == if check then job.files else job.files[job.filePath := synced]
  {
    hide LookUp, Split, FormattedLines, Join;
    var lines := job.Lines();
    var fences := FencesUpTo(lines, job.p, |lines|);
    OpenersOfFences(lines, job.p);
    ErrorsEmptyIff(job, fences);
    SnippetsSeparated(job);
    JoinSplit(job.files[job.filePath], NL);
    ReverseSpliceIsSync(lines, job.p, Snippets(job), job.Format());
    if Join(SyncedLines(job), NL) == job.files[job.filePath] {
      assert job.files[job.filePath := job.files[job.filePath]] == job.files;
    }
  }

  /** No snippet line is itself a labelled opener. */
  ghost predicate SnippetsDoNotOpen(job: Job)
    requires job.filePath in job.files
  {
    SnippetsOpenerFree(job.Lines(), job.p, Snippets(job))
  }

  /** No snippet line closes a fence. */
  ghost predicate SnippetsDoNotClose(job: Job)
    requires job.filePath in job.files
  {
    SnippetsCloserFree(job.Lines(), job.p, Snippets(job))
  }

  /** The job of a second run. */
  function After(job: Job): Job {
    job.(files := job.Run(false).1)
  }

  /** The lines of the file a run has written. */
  lemma {:induction false} LinesAfter(job: Job)
    requires Syncable(job) && Exclusive(job.p) && Reporting(job.p)
    ensures After(job).filePath in After(job).files && After(job).Lines() == SyncedLines(job)
  {
    hide LookUp, Split, FormattedLines, Join;
    RunSyncs(job, false);
    SnippetsSeparated(job);
    SyncSeparated(job.Lines(), job.p, Snippets(job));
    SplitJoin(SyncedLines(job), NL);
  }

  lemma {:induction false} SyncSeparated(lines: seq<string>, p: Patterns, snippets: SyncLines.Snippets)
    requires Separated(lines, NL) && SnippetsAreLines(lines, p, snippets)
    ensures Separated(Sync(lines, p, snippets), NL)
    decreases |lines|
  {
    var close := FirstCloser(lines, p, 1);
    var fenced := p.open(lines[0]).Some? && close < |lines|;
    var from := if fenced then close else 1;
    if from == |lines| {
    } else {
      SyncSeparated(lines[from..], p, snippets);
    }
  }

  /** Writing the file does not change any snippet it asks for. */
  lemma {:induction false} CodeUnchanged(job: Job, job': Job, open: OpenMatch, text: string)
    requires job'.resolve == job.resolve && job'.filePath == job.filePath
    requires job.filePath in job.files && job'.files == job.files[job.filePath := text]
    requires job.resolve(job.filePath, open.examplePath) != job.filePath
    ensures job'.Code(open) == job.Code(open) && job'.Snippet(open) == job.Snippet(open)
  {
    hide FormattedLines, ExtractRegion, Trim;
  }

  /** After a run the file is syncable again, and asks for the same snippets. */
  lemma {:induction false} SyncableAgain(job: Job)
    requires Syncable(job) && Exclusive(job.p) && Reporting(job.p) && SnippetsDoNotOpen(job)
    ensures Syncable(After(job))
    ensures SyncedLines(After(job)) == Sync(SyncedLines(job), job.p, Snippets(job))
  {
    hide LookUp, Split, FormattedLines, Join;
    var job' := After(job);
    LinesAfter(job);
    RunSyncs(job, false);
    SyncedOpeners(job.Lines(), job.p, Snippets(job));
    SyncedOpenersKept(job.Lines(), job.p, Snippets(job));
    forall line | line in job'.Lines() && job.p.open(line).Some?
      ensures job'.Code(job.p.open(line).value) == job.Code(job.p.open(line).value)
      ensures job'.Snippet(job.p.open(line).value) == job.Snippet(job.p.open(line).value)
    {
      CodeUnchanged(job, job', job.p.open(line).value, Join(SyncedLines(job), NL));
    }
    SyncAgrees(job'.Lines(), job.p, Snippets(job'), Snippets(job));
  }

  /**
   Syncing is a fixpoint exactly when no snippet line closes a fence: after a run over a
   syncable file whose snippet lines open nothing, a check run reports no error, and reports
   the file as modified if and only if some snippet holds a closing line.
   */
  lemma {:induction false} SecondRunIsCleanIff(job: Job)
    requires Syncable(job) && Exclusive(job.p) && Reporting(job.p) && SnippetsDoNotOpen(job)
    ensures After(job).Run(true).0.errors == []
    ensures !After(job).Run(true).0.modified <==> SnippetsDoNotClose(job)
  {
    hide LookUp, Split, FormattedLines, Join;
    var job' := After(job);
    LinesAfter(job);
    SyncableAgain(job);
    RunSyncs(job', true);
    SyncTwice(job.Lines(), job.p, Snippets(job));
    JoinSplit(job'.files[job'.filePath], NL);
    if Join(SyncedLines(job'), NL) == job'.files[job'.filePath] {
      SnippetsSeparated(job');
      SyncSeparated(job'.Lines(), job'.p, Snippets(job'));
      SplitJoin(SyncedLines(job'), NL);
      assert SyncedLines(job') == job'.Lines();
    }
  }

  /**
   A second scan finds the same fences in the same order, each moved by what the bodies before it
   grew, when no snippet line opens or closes a fence.
   */
  lemma {:induction false} SecondScanFindsTheSame(job: Job)
    requires Syncable(job) && Exclusive(job.p) && Reporting(job.p) && SnippetsDoNotOpen(job) && SnippetsDoNotClose(job)
    ensures var (lines, lines') := (job.Lines(), After(job).Lines());
            && AllClosed(lines', job.p, |lines'|)
            && FencesMove(FencesUpTo(lines', job.p, |lines'|), FencesUpTo(lines, job.p, |lines|), Snippets(job))
  {
    hide LookUp, Split, FormattedLines, Join, FencesMove, FencesUpTo;
    LinesAfter(job);
    SyncedFencesMove(job.Lines(), job.p, Snippets(job));
  }

  // ----- what stands in the written file

  /** In `out` the opener stands at line `o`, then the formatted code, then the closing line. */
  ghost predicate BodyAt(out: seq<string>, o: nat, n: nat, opener: string, closer: string, code: string,
                         linePrefix: string) {
    && o + 1 + n < |out|
    && out[o] == opener
    && AllFormatted(out[o + 1..o + 1 + n], Split(code, NL), linePrefix)
    && out[o + 1 + n] == closer
  }

  /**
   The file that a run writes holds, behind each opener, the code looked up for it, line by line, up
   to the closing line.
  */
  lemma {:induction false} WrittenBody(job: Job, i: nat)
    requires Syncable(job) && Exclusive(job.p) && Reporting(job.p)
    requires i < |job.Lines()| && job.p.open(job.Lines()[i]).Some?
    ensures var open := job.p.open(job.Lines()[i]).value;
            var close := FirstCloser(job.Lines(), job.p, i + 1);
            && job.Code(open).Success? && close < |job.Lines()|
            && job.filePath in After(job).files
            && exists o: nat, n: nat ::
                 BodyAt(After(job).Lines(), o, n, job.Lines()[i], job.Lines()[close], job.Code(open).value,
                   open.linePrefix)
  {
    hide LookUp, Split, FormattedLines, FirstCloser, NoNesting, Exclusive, Reporting, Sync;
    var lines := job.Lines();
    var open := job.p.open(lines[i]).value;
    var close := FirstCloser(lines, job.p, i + 1);
    OpenerIsSyncable(job, i);
    LinesAfter(job);
    var before := SyncedUpTo(lines, job.p, Snippets(job), i);
    var body, rest := job.Snippet(open), Sync(lines[close..], job.p, Snippets(job));
    SyncAtOpener(lines, job.p, i, Snippets(job));
    SyncStarts(lines, job.p, close, Snippets(job));
    FormattedLinesAre(job.Code(open).value, open.linePrefix);
    BodyStands(before, lines[i], body, rest, lines[close], job.Code(open).value, open.linePrefix);
  }

  lemma {:induction false} OpenerIsSyncable(job: Job, i: nat)
    requires Syncable(job) && i < |job.Lines()| && job.p.open(job.Lines()[i]).Some?
    ensures job.Code(job.p.open(job.Lines()[i]).value).Success? && OpensClosed(job.Lines(), job.p, i)
  {
    hide LookUp, Split, FirstCloser;
    assert job.Lines()[i] in job.Lines();
  }

  lemma {:induction false} BodyStands(before: seq<string>, opener: string, body: seq<string>, rest: seq<string>,
                                      closer: string, code: string, linePrefix: string)
    requires AllFormatted(body, Split(code, NL), linePrefix) && rest != [] && rest[0] == closer
    ensures BodyAt(before + ([opener] + body + rest), |before|, |body|, opener, closer, code, linePrefix)
  {
    hide AllFormatted, Split;
    var out := before + ([opener] + body + rest);
    assert out[|before| + 1..|before| + 1 + |body|] == body;
    assert out[|before| + 1 + |body|] == rest[0];
  }

  /** What is synced of the lines in front of an opener. */
  lemma {:induction false} SyncedUpTo(lines: seq<string>, p: Patterns, snippets: SyncLines.Snippets, i: nat)
    returns (before: seq<string>)
    requires AllClosed(lines, p, |lines|) && NoNesting(lines, p)
    requires i < |lines| && p.open(lines[i]).Some?
    ensures Sync(lines, p, snippets) == before + Sync(lines[i..], p, snippets)
    decreases |lines|
  {
    if i == 0 {
      before := [];
      assert lines[0..] == lines;
    } else {
      hide Sync, AllClosed, NoNesting;
      var head, from := SyncedFirst(lines, p, snippets, i);
      var later := SyncedUpTo(lines[from..], p, snippets, i - from);
      CutTwice(lines, from, i);
      before := head + later;
      Assoc(head, later, Sync(lines[i..], p, snippets));
    }
  }

  /** What is synced of the first line and of the body it may open. */
  lemma {:induction false} SyncedFirst(lines: seq<string>, p: Patterns, snippets: SyncLines.Snippets, i: nat)
    returns (head: seq<string>, from: nat)
    requires AllClosed(lines, p, |lines|) && NoNesting(lines, p)
    requires 0 < i < |lines| && p.open(lines[i]).Some?
    ensures 0 < from <= i && AllClosed(lines[from..], p, |lines| - from) && NoNesting(lines[from..], p)
    ensures Sync(lines, p, snippets) == head + Sync(lines[from..], p, snippets)
  {
    var opens := p.open(lines[0]).Some?;
    from := if opens then FirstCloser(lines, p, 1) else 1;
    head := [lines[0]] + if opens then snippets(p.open(lines[0]).value) else [];
    if opens {
      BodyEndsBefore(lines, p, i);
    }
    hide AllClosed, NoNesting, FirstCloser;
    SuffixFacts(lines, p, from);
  }

  lemma {:induction false} BodyEndsBefore(lines: seq<string>, p: Patterns, i: nat)
    requires AllClosed(lines, p, |lines|) && NoNesting(lines, p)
    requires 0 < i < |lines| && p.open(lines[i]).Some? && p.open(lines[0]).Some?
    ensures FirstCloser(lines, p, 1) <= i
  {
    hide FirstCloser;
  }
}
