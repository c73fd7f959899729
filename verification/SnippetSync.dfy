/** Looking snippets up through the shared region cache. */
module SnippetSync {
  import opened Wrappers
  import opened Text
  import opened Seqs
  import opened Regions

  type Files = map<string, string>

  /** `resolve(dirname(sourceFilePath), examplePath)`. */
  type Resolver = (string, string) -> string

  // ----- the cache

  /** The uncached lookup: read the example file, then take all of it or one region. */
  function LookUp(files: Files, absolutePath: string, examplePath: string, region: Option<string>)
    : Result<string, RegionError>
  {
    if absolutePath !in files then Failure(FileNotFound(absolutePath))
    else if !Named(region) then Success(Trim(files[absolutePath]))
    else ExtractRegion(files[absolutePath], region.value, examplePath)
  }

  /** A file asked for as a whole is found as its text without the white space at both ends. */
  lemma {:induction false} WholeFileIff(files: Files, path: string, examplePath: string, region: Option<string>,
                                        t: string)
    requires !Named(region)
    ensures LookUp(files, path, examplePath, region) == Success(t)
       <==> path in files && exists a, b :: Surrounded(files[path], a, t, b)
    ensures LookUp(files, path, examplePath, region).Failure? ==>
              path !in files && LookUp(files, path, examplePath, region) == Failure(FileNotFound(path))
  {
    hide Trim, Surrounded;
    if path in files {
      TrimIff(files[path], t);
    }
  }

  /** A region is found as extraction finds it in the file, which has to be there. */
  lemma {:induction false} RegionIff(files: Files, path: string, examplePath: string, region: Option<string>, t: string)
    requires Named(region)
    ensures LookUp(files, path, examplePath, region) == Success(t)
       <==> path in files && ExtractRegion(files[path], region.value, examplePath) == Success(t)
    ensures LookUp(files, path, examplePath, region) == Failure(FileNotFound(path)) <==> path !in files
  {
    hide StartsWithAt, RegionBody;
    if path in files {
      ExtractFailsIff(files[path], region.value, examplePath);
    }
  }

  function CacheKey(absolutePath: string, region: string): string {
    absolutePath + "#" + region
  }

  /** One path goes on where another one ends, behind a `#`. */
  predicate ExtendsPath(longer: string, path: string) {
    path + "#" <= longer
  }

  /** The longer path takes over the start of the other one's region. */
  predicate TakesOver(path: string, region: string, path': string, region': string) {
    ExtendsPath(path', path) && region == path'[|path| + 1..] + "#" + region'
  }

  /**
   Two keys are equal exactly when they are made of the same parts or one path takes over part of
   the other's region.
  */
  lemma {:induction false} KeysCollideIff(path: string, region: string, path': string, region': string)
    ensures CacheKey(path, region) == CacheKey(path', region')
       <==> || (path == path' && region == region')
            || TakesOver(path, region, path', region')
            || TakesOver(path', region', path, region)
  {
    hide CacheKey;
    if |path| <= |path'| {
      OrderedKeysCollideIff(path, region, path', region');
    } else {
      OrderedKeysCollideIff(path', region', path, region);
    }
  }

  lemma {:induction false} OrderedKeysCollideIff(path: string, region: string, path': string, region': string)
    requires |path| <= |path'|
    ensures CacheKey(path, region) == CacheKey(path', region')
       <==> (path == path' && region == region') || TakesOver(path, region, path', region')
  {
    var (n, n') := (|path|, |path'|);
    var (key, key') := (CacheKey(path, region), CacheKey(path', region'));
    assert key[n + 1..] == region && key[..n + 1] == path + "#";
    assert key'[n' + 1..] == region' && key'[..n' + 1] == path' + "#";
    if n == n' {
      assert path == key[..n] && path' == key'[..n];
    } else {
      var x := path'[n + 1..];
      assert key'[..n + 1] == path'[..n + 1];
      assert key'[n + 1..] == x + "#" + region';
      if ExtendsPath(path', path) {
        assert key' == key'[..n + 1] + key'[n + 1..];
        assert key == key[..n + 1] + key[n + 1..];
      }
    }
  }

  /** No path of the set extends another one. */
  ghost predicate Apart(paths: iset<string>) {
    forall path, path' :: path in paths && path' in paths ==> !ExtendsPath(path', path)
  }

  /** Among such paths a key determines the path and the region it stands for. */
  lemma {:induction false} CacheKeyInjective(paths: iset<string>, path: string, region: string, path': string,
                                             region': string)
    requires Apart(paths) && path in paths && path' in paths && CacheKey(path, region) == CacheKey(path', region')
    ensures path == path' && region == region'
  {
    hide CacheKey, ExtendsPath;
    KeysCollideIff(path, region, path', region');
  }

  /** Paths without `#` are such paths. */
  lemma {:induction false} HashFreeIsApart(paths: iset<string>)
    requires forall path :: path in paths ==> '#' !in path
    ensures Apart(paths)
  {
    forall path, path' | path in paths && path' in paths ensures !ExtendsPath(path', path) {
      ExtendedHasHash(path', path);
    }
  }

  lemma {:induction false} ExtendedHasHash(longer: string, path: string)
    ensures ExtendsPath(longer, path) ==> '#' in longer
  {
    if ExtendsPath(longer, path) {
      assert longer[|path|] == (path + "#")[|path|];
    }
  }

  predicate Named(region: Option<string>) {
    region.Some? && region.value != ""
  }

  /** The paths that are looked up, and the regions of them that are asked for as those of a `.ts` file. */
  datatype Scope = Scope(ghost paths: iset<string>, ghost regions: iset<(string, string)>)

  /** Every entry of the paths in scope holds what reading the file, or extracting from it, gives. */
  ghost predicate Coherent(entries: map<string, string>, files: Files, scope: Scope) {
    forall path, region :: path in scope.paths && CacheKey(path, region) in entries ==>
      EntryOk(files, scope, path, region, entries[CacheKey(path, region)])
  }

  ghost predicate EntryOk(files: Files, scope: Scope, path: string, region: string, value: string) {
    && path in files
    && if region == "" then value == files[path]
       else (path, region) in scope.regions && Success(value) == ExtractSupported(files[path], region)
  }

  lemma {:induction false} CoherentUpdate(entries: map<string, string>, files: Files, scope: Scope, path: string,
                                          region: string, value: string)
    requires Coherent(entries, files, scope) && Apart(scope.paths) && path in scope.paths
    ensures EntryOk(files, scope, path, region, value) ==>
              Coherent(entries[CacheKey(path, region) := value], files, scope)
  {
    hide CacheKey, EntryOk;
    var entries' := entries[CacheKey(path, region) := value];
    forall path', region' | path' in scope.paths && CacheKey(path', region') in entries'
      ensures EntryOk(files, scope, path, region, value) ==>
                EntryOk(files, scope, path', region', entries'[CacheKey(path', region')])
    {
      if CacheKey(path', region') == CacheKey(path, region) {
        CacheKeyInjective(scope.paths, path, region, path', region');
      }
    }
  }

  /** One lookup through the cache: what it returns and the entries it leaves. */
  function Load(entries: map<string, string>, files: Files, path: string, examplePath: string, region: Option<string>)
    : (Result<string, RegionError>, map<string, string>)
  {
    var fileKey := CacheKey(path, "");
    if fileKey !in entries && path !in files then (Failure(FileNotFound(path)), entries)
    else
      var content := if fileKey in entries then entries[fileKey] else files[path];
      var loaded := entries[fileKey := content];
      if !Named(region) then (Success(Trim(content)), loaded)
      else
        var regionKey := CacheKey(path, region.value);
        if regionKey in loaded then (Success(loaded[regionKey]), loaded)
        else
          var extracted := ExtractRegion(content, region.value, examplePath);
          (extracted, if extracted.Success? then loaded[regionKey := extracted.value] else loaded)
  }

  /** A region that is cached is asked for under a name that does not end in `.ts`. */
  predicate HitsUnsupported(entries: map<string, string>, path: string, examplePath: string, region: Option<string>) {
    Named(region) && !EndsWith(examplePath, ".ts") && CacheKey(path, region.value) in entries
  }

  /**
   The cache is transparent: a lookup through it returns what the uncached lookup returns, unless
   it finds a region cached that extraction would refuse for the ending of the path as written.
   */
  lemma {:induction false} LoadIsTransparent(entries: map<string, string>, files: Files, scope: Scope, path: string,
                                             examplePath: string, region: Option<string>)
    requires Coherent(entries, files, scope) && Apart(scope.paths) && path in scope.paths
    requires Named(region) && EndsWith(examplePath, ".ts") ==> (path, region.value) in scope.regions
    ensures Coherent(Load(entries, files, path, examplePath, region).1, files, scope)
    ensures Load(entries, files, path, examplePath, region).0 == LookUp(files, path, examplePath, region)
       <==> !HitsUnsupported(entries, path, examplePath, region)
  {
    hide ExtractSupported, CacheKey, EndsWith, Trim, Coherent, Apart;
    var fileKey := CacheKey(path, "");
    EntryHeld(entries, files, scope, path, "");
    if path in files {
      CoherentUpdate(entries, files, scope, path, "", files[path]);
      var loaded := entries[fileKey := files[path]];
      if Named(region) {
        RegionKeyIsNotFileKey(path, region.value);
        EntryHeld(entries, files, scope, path, region.value);
        var extracted := ExtractRegion(files[path], region.value, examplePath);
        if extracted.Success? && CacheKey(path, region.value) !in loaded {
          CoherentUpdate(loaded, files, scope, path, region.value, extracted.value);
        }
      }
    } else if Named(region) {
      EntryHeld(entries, files, scope, path, region.value);
    }
  }

  lemma EntryHeld(entries: map<string, string>, files: Files, scope: Scope, path: string,
                  region: string)
    requires Coherent(entries, files, scope) && path in scope.paths
    ensures CacheKey(path, region) in entries ==> EntryOk(files, scope, path, region, entries[CacheKey(path, region)])
  {
  }

  lemma {:induction false} RegionKeyIsNotFileKey(path: string, region: string)
    requires region != ""
    ensures CacheKey(path, region) != CacheKey(path, "")
  {
    assert |CacheKey(path, region)| > |CacheKey(path, "")|;
  }

  /** Writing a file outside the scope keeps the cache coherent. */
  lemma {:induction false} WriteKeepsCoherent(entries: map<string, string>, files: Files, scope: Scope, path: string,
                                              text: string)
    requires Coherent(entries, files, scope) && path !in scope.paths
    ensures Coherent(entries, files[path := text], scope)
  {
    hide CacheKey, ExtractSupported;
  }

  lemma FreshCacheIsCoherent(files: Files, scope: Scope)
    ensures Coherent(map[], files, scope)
  {
  }

  // ----- any sequence of lookups

  datatype Request = Request(path: string, examplePath: string, region: Option<string>)

  /** The answers to a sequence of lookups through a fresh cache, and the entries in the end. */
  function LoadAll(files: Files, requests: seq<Request>): (r: (seq<Result<string, RegionError>>, map<string, string>))
    ensures |r.0| == |requests|
  {
    if requests == [] then ([], map[])
    else
      var (answers, entries) := LoadAll(files, requests[..|requests| - 1]);
      var q := requests[|requests| - 1];
      var (answer, entries') := Load(entries, files, q.path, q.examplePath, q.region);
      (answers + [answer], entries')
  }

  function Uncached(files: Files, q: Request): Result<string, RegionError> {
    LookUp(files, q.path, q.examplePath, q.region)
  }

  /** One of the requests asked for this region and got it. */
  ghost predicate Fetched(files: Files, requests: seq<Request>, path: string, region: string) {
    exists j :: 0 <= j < |requests|
      && requests[j].path == path && requests[j].region == Some(region) && Uncached(files, requests[j]).Success?
  }

  /** A request for a region under another ending than an earlier one that got it. */
  ghost predicate Conflicts(files: Files, earlier: seq<Request>, q: Request) {
    Named(q.region) && !EndsWith(q.examplePath, ".ts") && Fetched(files, earlier, q.path, q.region.value)
  }

  ghost function PathsOf(requests: seq<Request>): iset<string> {
    iset i | 0 <= i < |requests| :: requests[i].path
  }

  ghost function Everything(paths: iset<string>): Scope {
    Scope(paths, iset pair: (string, string) | pair.0 in paths)
  }

  lemma {:induction false} FetchedSnoc(files: Files, earlier: seq<Request>, q: Request, path: string, region: string)
    ensures Fetched(files, earlier + [q], path, region)
       <==> || Fetched(files, earlier, path, region)
            || (q.path == path && q.region == Some(region) && Uncached(files, q).Success?)
  {
    hide Uncached;
    var all := earlier + [q];
    assert all[|earlier|] == q;
    if Fetched(files, earlier, path, region) {
      var j :| 0 <= j < |earlier| && earlier[j].path == path && earlier[j].region == Some(region)
               && Uncached(files, earlier[j]).Success?;
      assert all[j] == earlier[j];
    }
  }

  /** What one lookup adds: its file, and its region when it is extracted. */
  lemma {:induction false} KeysAfterLoad(entries: map<string, string>, files: Files, scope: Scope, q: Request,
                                         path: string, region: string)
    requires Coherent(entries, files, scope) && Apart(scope.paths) && q.path in scope.paths && path in scope.paths
    requires region != ""
    ensures CacheKey(path, region) in Load(entries, files, q.path, q.examplePath, q.region).1
       <==> || CacheKey(path, region) in entries
            || (q.path == path && q.region == Some(region) && Uncached(files, q).Success?)
  {
    hide ExtractRegion, CacheKey, Trim, Coherent, Apart;
    EntryHeld(entries, files, scope, q.path, "");
    if CacheKey(path, region) == CacheKey(q.path, "") {
      CacheKeyInjective(scope.paths, path, region, q.path, "");
    }
    if Named(q.region) {
      EntryHeld(entries, files, scope, q.path, q.region.value);
      RegionKeyIsNotFileKey(q.path, q.region.value);
      if CacheKey(path, region) == CacheKey(q.path, q.region.value) {
        CacheKeyInjective(scope.paths, path, region, q.path, q.region.value);
      }
    }
  }

  /** The cached regions are those that were asked for and got. */
  lemma {:induction false} CachedIffFetched(files: Files, requests: seq<Request>, paths: iset<string>, path: string,
                                            region: string)
    requires Apart(paths) && PathsOf(requests) <= paths && path in paths && region != ""
    ensures Coherent(LoadAll(files, requests).1, files, Everything(paths))
    ensures CacheKey(path, region) in LoadAll(files, requests).1 <==> Fetched(files, requests, path, region)
  {
    hide Coherent, Apart, Fetched, Load, LookUp, CacheKey;
    var scope := Everything(paths);
    if requests == [] {
      FreshCacheIsCoherent(files, scope);
      NothingFetched(files, path, region);
    } else {
      var (earlier, q) := (requests[..|requests| - 1], requests[|requests| - 1]);
      assert q.path in PathsOf(requests);
      PathsOfPrefix(requests);
      CachedIffFetched(files, earlier, paths, path, region);
      var entries := LoadAll(files, earlier).1;
      LoadIsTransparent(entries, files, scope, q.path, q.examplePath, q.region);
      KeysAfterLoad(entries, files, scope, q, path, region);
      FetchedSnoc(files, earlier, q, path, region);
      assert earlier + [q] == requests;
    }
  }

  lemma {:induction false} PathsOfPrefix(requests: seq<Request>)
    requires requests != []
    ensures PathsOf(requests[..|requests| - 1]) <= PathsOf(requests)
  {
    var earlier := requests[..|requests| - 1];
    forall path | path in PathsOf(earlier) ensures path in PathsOf(requests) {
      var i :| 0 <= i < |earlier| && earlier[i].path == path;
      assert requests[i].path == path;
    }
  }

  lemma NothingFetched(files: Files, path: string, region: string)
    ensures !Fetched(files, [], path, region)
  {
  }

  /**
   In any sequence of lookups through a fresh cache, a lookup is answered as without a cache
   exactly when it does not ask, under another ending, for a region that an earlier one got.
   */
  lemma {:induction false} LookupsAreTransparentIff(files: Files, requests: seq<Request>, i: nat)
    requires Apart(PathsOf(requests)) && i < |requests|
    ensures LoadAll(files, requests).0[i] == Uncached(files, requests[i])
        <==> !Conflicts(files, requests[..i], requests[i])
    decreases |requests|
  {
    hide Apart, Coherent, Fetched, Load, LookUp;
    var n := |requests| - 1;
    if i < n {
      PathsOfPrefix(requests);
      ApartWithin(PathsOf(requests[..n]), PathsOf(requests));
      LookupsAreTransparentIff(files, requests[..n], i);
      assert requests[..n][..i] == requests[..i];
    } else {
      var (paths, earlier, q) := (PathsOf(requests), requests[..n], requests[n]);
      var entries := LoadAll(files, earlier).1;
      PathsOfPrefix(requests);
      assert q.path in paths;
      var region := if Named(q.region) then q.region.value else "x";
      CachedIffFetched(files, earlier, paths, q.path, region);
      LoadIsTransparent(entries, files, Everything(paths), q.path, q.examplePath, q.region);
    }
  }

  lemma ApartWithin(paths: iset<string>, all: iset<string>)
    requires paths <= all && Apart(all)
    ensures Apart(paths)
  {
  }

  // ----- where the cache shows

  lemma {:induction false} TwoLookups(files: Files, a: Request, b: Request)
    ensures var first := Load(map[], files, a.path, a.examplePath, a.region);
            LoadAll(files, [a, b]).0 == [first.0, Load(first.1, files, b.path, b.examplePath, b.region).0]
  {
    hide Load;
    assert [a][..0] == [] && [a, b][..1] == [a];
    var first := Load(map[], files, a.path, a.examplePath, a.region);
    assert LoadAll(files, [a]) == ([] + [first.0], first.1);
    assert [] + [first.0] == [first.0];
  }

  /**
   A region that was got under one name is answered from the cache under a name with another
   ending, as `x.ts/` for `x.ts`, where extraction refuses it.
   */
  lemma {:induction false} CachedRegionHidesEnding(files: Files, path: string, examplePath: string, other: string,
                                                   region: string)
    requires path in files && region != "" && EndsWith(examplePath, ".ts") && !EndsWith(other, ".ts")
    ensures var requests := [Request(path, examplePath, Some(region)), Request(path, other, Some(region))];
            && (ExtractSupported(files[path], region).Success? ==>
                  LoadAll(files, requests).0[1] == Success(ExtractSupported(files[path], region).value))
            && Uncached(files, requests[1]) == Failure(UnsupportedFile(region))
  {
    hide ExtractSupported, EndsWith, Trim, CacheKey, LoadAll;
    TwoLookups(files, Request(path, examplePath, Some(region)), Request(path, other, Some(region)));
    RegionKeyIsNotFileKey(path, region);
  }

  /**
   Of two paths where one extends the other, a region of the shorter takes the key of the longer
   file: once it is cached, asking for that whole file returns the region's text.  This is wrong
   exactly when the file does not hold that text.
   */
  lemma {:induction false} ExtendedPathCollides(files: Files, path: string, rest: string, examplePath: string,
                                                other: string)
    requires path in files && EndsWith(examplePath, ".ts")
    ensures var (longer, extracted) := (path + "#" + rest, ExtractSupported(files[path], rest + "#"));
            var requests := [Request(path, examplePath, Some(rest + "#")), Request(longer, other, None)];
            extracted.Success? ==>
              && LoadAll(files, requests).0[1] == Success(Trim(extracted.value))
              && (Uncached(files, requests[1]) != LoadAll(files, requests).0[1]
                  <==> !(longer in files && Trim(files[longer]) == Trim(extracted.value)))
  {
    hide ExtractSupported, EndsWith, Trim, LoadAll, CacheKey;
    var (longer, region) := (path + "#" + rest, rest + "#");
    TwoLookups(files, Request(path, examplePath, Some(region)), Request(longer, other, None));
    KeyOfExtended(path, rest);
    RegionKeyIsNotFileKey(path, region);
  }

  // ----- the exact condition on the paths

  ghost predicate AllSupported(requests: seq<Request>) {
    forall i :: 0 <= i < |requests| && Named(requests[i].region) ==> EndsWith(requests[i].examplePath, ".ts")
  }

  /** Whatever the files hold, lookups of these paths, regions only of `.ts` files, are answered as without a cache. */
  ghost predicate AlwaysTransparent(paths: iset<string>) {
    forall files: Files, requests: seq<Request> :: PathsOf(requests) <= paths && AllSupported(requests) ==>
      AllTransparent(files, requests)
  }

  ghost predicate AllTransparent(files: Files, requests: seq<Request>) {
    forall i :: 0 <= i < |requests| ==> LoadAll(files, requests).0[i] == Uncached(files, requests[i])
  }

  /** A file from which a region of any name can be extracted. */
  function FileWith(region: string): string {
    RegionStart(region, CRLF) + RegionEnd(region, CRLF)
  }

  lemma {:induction false} RegionIsThere(region: string)
    ensures ExtractSupported(FileWith(region), region).Success?
  {
    var (opening, closing) := (RegionStart(region, CRLF), RegionEnd(region, CRLF));
    var content := opening + closing;
    CutConcat(opening, closing, 0);
    assert opening[|opening| - 2..] == CRLF;
    assert content[|opening| - 2..|opening|] == CRLF;
    IndexOfIsFirst(content, CRLF, 0);
    assert StartsWithAt(content, |opening| - 2, CRLF);
    assert StartsWithAt(content, 0, opening);
    assert content[|opening|..|opening| + |closing|] == closing;
    assert StartsWithAt(content, |opening|, closing);
    hide RegionStart, RegionEnd, RegionBody;
    IndexOfIsFirst(content, opening, 0);
    IndexOfIsFirst(content, closing, 0);
  }

  lemma {:induction false} ExtensionIsSeen(paths: iset<string>, path: string, longer: string)
    requires path in paths && longer in paths && ExtendsPath(longer, path)
    ensures !AlwaysTransparent(paths)
  {
    hide ExtractSupported, LoadAll, Trim, AllTransparent, FileWith;
    var rest := longer[|path| + 1..];
    assert longer == path + "#" + rest;
    var region := rest + "#";
    var files: Files := map[path := FileWith(region)];
    var requests := [Request(path, ".ts", Some(region)), Request(longer, "", None)];
    RegionIsThere(region);
    EndsWithItself(".ts");
    ExtendedPathCollides(files, path, rest, ".ts", "");
    SecondDiffers(files, requests);
    assert requests[0].path == path && requests[1].path == longer;
    assert AllSupported(requests) && PathsOf(requests) <= paths;
  }

  lemma {:induction false} SecondDiffers(files: Files, requests: seq<Request>)
    requires |requests| == 2 && LoadAll(files, requests).0[1] != Uncached(files, requests[1])
    ensures !AllTransparent(files, requests)
  {
  }

  lemma {:induction false} EndsWithItself(s: string)
    ensures EndsWith(s, s)
  {
  }

  /**
   With regions asked for only as those of `.ts` files, every sequence of lookups through a fresh
   cache is answered as without a cache, exactly when no path extends another one behind a `#`.
   */
  lemma {:induction false} TransparentIffApart(paths: iset<string>)
    ensures AlwaysTransparent(paths) <==> Apart(paths)
  {
    hide AllSupported, AllTransparent, ExtendsPath;
    if Apart(paths) {
      forall files: Files, requests: seq<Request> | PathsOf(requests) <= paths && AllSupported(requests)
        ensures AllTransparent(files, requests)
      {
        SupportedIsTransparent(files, requests, paths);
      }
    } else {
      var path, longer :| path in paths && longer in paths && ExtendsPath(longer, path);
      ExtensionIsSeen(paths, path, longer);
    }
  }

  lemma {:induction false} SupportedIsTransparent(files: Files, requests: seq<Request>, paths: iset<string>)
    requires Apart(paths) && PathsOf(requests) <= paths && AllSupported(requests)
    ensures AllTransparent(files, requests)
  {
    hide Fetched, LoadAll, Uncached, EndsWith, PathsOf;
    ApartWithin(PathsOf(requests), paths);
    forall i | 0 <= i < |requests| ensures LoadAll(files, requests).0[i] == Uncached(files, requests[i]) {
      LookupsAreTransparentIff(files, requests, i);
    }
  }

  lemma {:induction false} KeyOfExtended(path: string, rest: string)
    ensures CacheKey(path, rest + "#") == CacheKey(path + "#" + rest, "")
  {
    assert path + "#" + (rest + "#") == path + "#" + rest + "#" + "";
  }

  /** Once a file is cached, a lookup misses what is written to it exactly when that reads otherwise. */
  lemma {:induction false} CachedFileHidesWrite(files: Files, path: string, examplePath: string, text: string)
    requires path in files
    ensures Load(Load(map[], files, path, examplePath, None).1, files[path := text], path, examplePath, None).0
              != LookUp(files[path := text], path, examplePath, None)
       <==> Trim(text) != Trim(files[path])
  {
    hide Trim;
  }

  class RegionCache {
    var entries: map<string, string>

    constructor ()
      ensures entries == map[]
    {
      entries := map[];
    }

    method GetOrLoadRegion(files: Files, resolve: Resolver, sourceFilePath: string, examplePath: string,
                           regionName: Option<string>)
      returns (r: Result<string, RegionError>)
      modifies this
      ensures (r, entries) == Load(old(entries), files, resolve(sourceFilePath, examplePath), examplePath, regionName)
    {
      var absoluteExamplePath := resolve(sourceFilePath, examplePath);
      var fileKey := CacheKey(absoluteExamplePath, "");
      var fileContent: string;
      if fileKey in entries {
        fileContent := entries[fileKey];
      } else {
        if absoluteExamplePath !in files {
          return Failure(FileNotFound(absoluteExamplePath));
        }
        fileContent := files[absoluteExamplePath];
        entries := entries[fileKey := fileContent];
      }
      assert entries == old(entries)[fileKey := fileContent];
      if regionName.None? || regionName.value == "" {
        return Success(Trim(fileContent));
      }
      var regionKey := CacheKey(absoluteExamplePath, regionName.value);
      if regionKey in entries {
        return Success(entries[regionKey]);
      }
      r := ExtractRegion(fileContent, regionName.value, examplePath);
      if r.Success? {
        entries := entries[regionKey := r.value];
      }
    }
  }
}
