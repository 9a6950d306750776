/** The acquisition drivers around the per-file engine: `find` listings,
    the per-app file selection with its 300-file cap, the media loops with
    their 2000-file caps. */
module Acquisition {
  import opened Strings
  import opened Sanitizer
  import opened Stats
  import opened Extraction

  /** `Config.MAX_FILES_PER_APP`. */
  const MaxFilesPerApp: nat := 300
  /** `Config.MAX_MEDIA_FILES`. */
  const MaxMediaFiles: nat := 2000

  // ---------------------------------------------------------------------
  // `find` listings

  /** One entry of a listing as the drivers keep it: non-empty, on one line,
      with no surrounding whitespace. */
  predicate IsListed(x: string) {
    |x| > 0 && '\n' !in x && !IsSpace(x[0]) && !IsSpace(x[|x| - 1])
  }

  /** Every entry is a listed path. */
  predicate AllListed(xs: seq<string>) {
    forall i :: 0 <= i < |xs| ==> IsListed(xs[i])
  }

  lemma ListedCons(x: string, xs: seq<string>)
    requires IsListed(x) && AllListed(xs)
    ensures AllListed([x] + xs)
  {
  }

  /** `[f.strip() for f in lines if f.strip()]`. */
  function StripLines(lines: seq<string>): (r: seq<string>)
    requires forall i :: 0 <= i < |lines| ==> '\n' !in lines[i]
    ensures AllListed(r)
    ensures |r| <= |lines|
    decreases |lines|
  {
    if |lines| == 0 then []
    else
      var x := Strip(lines[0]);
      var rest := StripLines(lines[1..]);
      if x == [] then rest
      else
        StrippedListed(lines[0]);
        ListedCons(x, rest);
        [x] + rest
  }

  /** A stripped non-blank line is a listed path. */
  lemma StrippedListed(line: string)
    requires '\n' !in line
    ensures Strip(line) != [] ==> IsListed(Strip(line))
  {
    StripAvoids(line, '\n');
  }

  /** The file list the drivers take from a `find ... | head -N` reply:
      nothing unless the command succeeded with non-blank output, then the
      stripped non-blank lines. */
  function FileList(reply: ShellReply): (files: seq<string>)
    ensures AllListed(files)
    ensures reply.code != 0 ==> files == []
  {
    var out := Strip(reply.output);
    if reply.code == 0 && out != [] then StripLines(Split(out, '\n')) else []
  }

  lemma {:induction false} StripLinesListed(xs: seq<string>)
    requires forall i :: 0 <= i < |xs| ==> IsListed(xs[i])
    requires forall i :: 0 <= i < |xs| ==> '\n' !in xs[i]
    ensures StripLines(xs) == xs
    decreases |xs|
  {
    if |xs| > 0 {
      var t := xs[1..];
      StripLinesListed(t);
      StripNoSpaceEnds(xs[0]);
      HeadSplit(xs);
    }
  }

  /** A successful listing of one path per line reads back as exactly those
      paths, in order. */
  lemma FileListJoin(xs: seq<string>)
    requires forall i :: 0 <= i < |xs| ==> IsListed(xs[i])
    ensures FileList(ShellReply(Join(xs, '\n'), 0)) == xs
  {
    var j := Join(xs, '\n');
    if |xs| > 0 {
      var last := xs[|xs| - 1];
      JoinFirst(xs, '\n');
      JoinEndsWithLast(xs, '\n');
      assert j[|j| - 1] == last[|last| - 1];
      StripNoSpaceEnds(j);
      SplitJoin(xs, '\n');
      StripLinesListed(xs);
    }
  }

  // ---------------------------------------------------------------------
  // Per-app file selection

  predicate NoDups(xs: seq<string>) {
    forall i, j :: 0 <= i < j < |xs| ==> xs[i] != xs[j]
  }

  /** One copy of each element. `list(set(xs))` has no defined order; this
      keeps first occurrences in order, which is one of the orders it may
      produce. */
  function Dedup(xs: seq<string>): (r: seq<string>)
    ensures NoDups(r)
    ensures forall x :: x in r <==> x in xs
    ensures |r| <= |xs|
    decreases |xs|
  {
    if |xs| == 0 then []
    else
      var d := Dedup(xs[..|xs| - 1]);
      var x := xs[|xs| - 1];
      assert xs == xs[..|xs| - 1] + [x];
      if x in d then d else d + [x]
  }

  /** A duplicate-free sequence has as many elements as its set. */
  lemma {:induction false} NoDupsCard(xs: seq<string>)
    requires NoDups(xs)
    ensures |set x | x in xs| == |xs|
    decreases |xs|
  {
    if |xs| > 0 {
      var rest := xs[1..];
      NoDupsCard(rest);
      assert (set x | x in xs) == {xs[0]} + (set x | x in rest);
      assert xs[0] !in rest;
    }
  }

  /** `list(set(all))[:MAX_FILES_PER_APP]`. */
  function SelectFiles(all: seq<string>): (r: seq<string>)
    ensures |r| <= MaxFilesPerApp
    ensures NoDups(r)
    ensures forall x :: x in r ==> x in all
  {
    var d := Dedup(all);
    if |d| <= MaxFilesPerApp then d else d[..MaxFilesPerApp]
  }

  /** The selection is cut only at the cap: it holds every distinct listed
      path when there are at most 300 of them, and exactly 300 otherwise. */
  lemma SelectFilesCount(all: seq<string>)
    ensures var distinct := |set x | x in all|;
      |SelectFiles(all)| == if distinct <= MaxFilesPerApp then distinct else MaxFilesPerApp
    ensures |set x | x in all| <= MaxFilesPerApp ==> forall x :: x in all ==> x in SelectFiles(all)
  {
    var d := Dedup(all);
    NoDupsCard(d);
    assert (set x | x in d) == (set x | x in all);
  }

  /** The `find` queries of `_acquire_app_directory`: three priority
      patterns (databases, XML/JSON, `shared_prefs`) and the general one. */
  datatype FindQuery = Databases(base: string) | Configs(base: string) | SharedPrefs(base: string) | AnyFile(base: string)

  /** The files of the three priority queries, in query order. */
  function PriorityFiles(find: FindQuery -> ShellReply, base: string): seq<string> {
    FileList(find(Databases(base))) + FileList(find(Configs(base))) + FileList(find(SharedPrefs(base)))
  }

  datatype AppListing = AppListing(files: seq<string>, queries: seq<FindQuery>)

  /** The listing for one app directory: the priority queries, the general
      query only while fewer than 300 priority entries were found, then the
      capped de-duplicated selection. */
  function ListAppFiles(find: FindQuery -> ShellReply, base: string): (r: AppListing)
    ensures |r.queries| >= 3 && r.queries[..3] == PriorityQueries(base)
    ensures AnyFile(base) in r.queries <==> |PriorityFiles(find, base)| < MaxFilesPerApp
    ensures r.files == SelectFiles(ListedFiles(find, base))
  {
    var general := |PriorityFiles(find, base)| < MaxFilesPerApp;
    QueriesShape(base, general);
    AppListing(SelectFiles(ListedFiles(find, base)), PriorityQueries(base) + (if general then [AnyFile(base)] else []))
  }

  /** The three priority queries, in the order they are sent. */
  function PriorityQueries(base: string): seq<FindQuery> {
    [Databases(base), Configs(base), SharedPrefs(base)]
  }

  lemma QueriesShape(base: string, general: bool)
    ensures var qs := PriorityQueries(base) + (if general then [AnyFile(base)] else []);
      |qs| >= 3 && qs[..3] == PriorityQueries(base) && (AnyFile(base) in qs <==> general)
  {
  }

  /** Every path the queries of one app directory produced. */
  function ListedFiles(find: FindQuery -> ShellReply, base: string): (r: seq<string>)
    ensures |PriorityFiles(find, base)| <= |r| && r[..|PriorityFiles(find, base)|] == PriorityFiles(find, base)
    ensures |PriorityFiles(find, base)| >= MaxFilesPerApp ==> r == PriorityFiles(find, base)
  {
    var pri := PriorityFiles(find, base);
    if |pri| < MaxFilesPerApp then pri + FileList(find(AnyFile(base))) else pri
  }

  /** The two places an app's private data can live. */
  function AppDataPaths(pkg: string): seq<string> {
    ["/data/data/" + pkg, "/data/user/0/" + pkg]
  }

  /** The first data path whose `test -d ... && echo EXISTS` probe printed
      `EXISTS`; only that one is processed. */
  function ChooseDataPath(probe: string -> string, pkg: string): (r: Option<string>)
    ensures r.Some? <==> exists i :: 0 <= i < 2 && Contains(probe(AppDataPaths(pkg)[i]), "EXISTS")
    ensures r.Some? ==> r.value in AppDataPaths(pkg) && Contains(probe(r.value), "EXISTS")
    ensures r == Some(AppDataPaths(pkg)[1]) ==> !Contains(probe(AppDataPaths(pkg)[0]), "EXISTS")
  {
    var paths := AppDataPaths(pkg);
    if Contains(probe(paths[0]), "EXISTS") then Some(paths[0])
    else if Contains(probe(paths[1]), "EXISTS") then Some(paths[1])
    else None
  }

  /** `_sanitize_path(package)[:100]`: the local directory name of an app. */
  function AppDirName(cfg: Config, env: Env, pkg: string): (r: string)
    ensures |r| <= MaxComponentLength
    ensures NoIllegal(r)
    ensures |r| <= |Sanitize(pkg, cfg.maxPathLength, env.digest)|
    ensures r == Sanitize(pkg, cfg.maxPathLength, env.digest)[..|r|]
  {
    Take(Sanitize(pkg, cfg.maxPathLength, env.digest), MaxComponentLength)
  }

  /** A package name has no `/`, so its directory is a single component
      directly under the app-data root. */
  lemma AppDirNameFlat(cfg: Config, env: Env, pkg: string)
    requires '/' !in pkg
    ensures '/' !in AppDirName(cfg, env, pkg)
  {
    var full := Sanitize(pkg, cfg.maxPathLength, env.digest);
    SanitizeBasenameIsFlat(pkg, cfg.maxPathLength, env.digest);
    var r := AppDirName(cfg, env, pkg);
    assert forall i :: 0 <= i < |r| ==> r[i] == full[i];
  }

  // ---------------------------------------------------------------------
  // Batches of extractions

  /** Session and filesystem after a batch, and how many calls returned True. */
  datatype Batch = Batch(session: Session, fs: Fs, acquired: nat)

  /** What a batch keeps: each True return added one new path to the set and
      one file to the count, no counter went down, the drivers' own counters
      are untouched, and a balanced byte account stays balanced. */
  predicate BatchAccounted(s: Session, b: Batch, files: seq<string>, category: string) {
    BatchPaths(s, b, files) && BatchStats(s, b, category)
  }

  /** The paths side: every True return adds one new path from the batch. */
  predicate BatchPaths(s: Session, b: Batch, files: seq<string>) {
    && b.acquired <= |files|
    && |b.session.extracted| == |s.extracted| + b.acquired
    && s.extracted <= b.session.extracted
    && (forall x :: x in b.session.extracted ==> x in s.extracted || x in files)
  }

  /** The statistics side: one more file per True return, nothing lost. */
  predicate BatchStats(s: Session, b: Batch, category: string) {
    && b.session.stats.totalFiles == s.stats.totalFiles + b.acquired
    && b.session.hasRoot == s.hasRoot
    && NoneDecreased(s.stats, b.session.stats)
    && SameTallies(s.stats, b.session.stats)
    && (category in KnownCategories && Balanced(s.stats) ==> Balanced(b.session.stats))
  }

  /** A batch after one more call: a True return counts one more file. */
  function Extend(cfg: Config, env: Env, b: Batch, x: string, base: string, category: string, flatten: bool): Batch {
    var r := Extract(cfg, env, b.session, b.fs, x, base, category, flatten);
    Batch(r.session, r.fs, b.acquired + (if r.Ok() then 1 else 0))
  }

  /** One more call after a batch keeps the batch accounting. */
  lemma ExtendBatch(cfg: Config, env: Env, s: Session, b: Batch, files: seq<string>, x: string,
                    base: string, category: string, flatten: bool, all: seq<string>)
    requires BatchAccounted(s, b, files, category)
    requires all == files + [x]
    ensures BatchAccounted(s, Extend(cfg, env, b, x, base, category, flatten), all, category)
  {
    var r := Extract(cfg, env, b.session, b.fs, x, base, category, flatten);
    if x in b.session.extracted {
      assert r.session == b.session;
    } else {
      assert Accounted(cfg, x, category, b.session, r);
      StepAccounted(cfg, x, category, s, b, r, files);
    }
  }

  /** The arithmetic of `ExtendBatch` for a path not seen before. */
  lemma StepAccounted(cfg: Config, x: string, category: string, s: Session, b: Batch, r: Run, files: seq<string>)
    requires BatchAccounted(s, b, files, category)
    requires Accounted(cfg, x, category, b.session, r)
    ensures BatchAccounted(s, Batch(r.session, r.fs, b.acquired + (if r.Ok() then 1 else 0)), files + [x], category)
  {
    StepPaths(cfg, x, category, s, b, r, files);
    StepStats(cfg, x, category, s, b, r);
  }

  lemma StepPaths(cfg: Config, x: string, category: string, s: Session, b: Batch, r: Run, files: seq<string>)
    requires BatchPaths(s, b, files)
    requires Accounted(cfg, x, category, b.session, r)
    ensures BatchPaths(s, Batch(r.session, r.fs, b.acquired + (if r.Ok() then 1 else 0)), files + [x])
  {
    if r.Ok() {
      assert |b.session.extracted + {x}| == |b.session.extracted| + 1;
    }
  }

  lemma StepStats(cfg: Config, x: string, category: string, s: Session, b: Batch, r: Run)
    requires BatchStats(s, b, category)
    requires Accounted(cfg, x, category, b.session, r)
    ensures BatchStats(s, Batch(r.session, r.fs, b.acquired + (if r.Ok() then 1 else 0)), category)
  {
    var st := b.session.stats;
    var st' := r.session.stats;
    NoneDecreasedTransitive(s.stats, st, st');
    if r.Ok() && category in KnownCategories {
      BucketSumGrows(st, st', category, r.fs[r.target]);
    }
  }

  /** `for f in files: _extract_file_production(f, base, category, flatten)`. */
  function ExtractEach(cfg: Config, env: Env, s: Session, fs: Fs, files: seq<string>,
                       base: string, category: string, flatten: bool): (b: Batch)
    ensures BatchAccounted(s, b, files, category)
    decreases |files|
  {
    if |files| == 0 then Batch(s, fs, 0)
    else
      var prefix := files[..|files| - 1];
      var x := files[|files| - 1];
      var b := ExtractEach(cfg, env, s, fs, prefix, base, category, flatten);
      LastSplit(files);
      ExtendBatch(cfg, env, s, b, prefix, x, base, category, flatten, files);
      Extend(cfg, env, b, x, base, category, flatten)
  }

  lemma LastSplit(xs: seq<string>)
    requires |xs| > 0
    ensures xs == xs[..|xs| - 1] + [xs[|xs| - 1]]
  {
  }

  /** A path listed twice in a batch is extracted at most once: the number of
      True returns never exceeds the number of distinct paths. */
  lemma ExtractEachDistinct(cfg: Config, env: Env, s: Session, fs: Fs, files: seq<string>,
                            base: string, category: string, flatten: bool)
    ensures ExtractEach(cfg, env, s, fs, files, base, category, flatten).acquired <= |set x | x in files|
  {
    var b := ExtractEach(cfg, env, s, fs, files, base, category, flatten);
    var added := b.session.extracted - s.extracted;
    assert b.session.extracted == s.extracted + added;
    assert added <= (set x | x in files);
    SubsetCard(added, set x | x in files);
  }

  lemma {:induction false} SubsetCard(a: set<string>, b: set<string>)
    requires a <= b
    ensures |a| <= |b|
    decreases |a|
  {
    if a != {} {
      var x :| x in a;
      SubsetCard(a - {x}, b - {x});
    }
  }

  /** `_acquire_app_directory(package)`: every selected file of the first
      existing data path, into the app's own directory, not flattened. */
  function AcquireApp(cfg: Config, env: Env, s: Session, fs: Fs, pkg: string, appRoot: string,
                      probe: string -> string, find: FindQuery -> ShellReply): (b: Batch)
    ensures b.acquired <= MaxFilesPerApp
    ensures ChooseDataPath(probe, pkg).None? ==> b == Batch(s, fs, 0)
    ensures ChooseDataPath(probe, pkg).Some? ==>
      BatchAccounted(s, b, ListAppFiles(find, ChooseDataPath(probe, pkg).value).files, "app_data")
  {
    match ChooseDataPath(probe, pkg)
    case None => Batch(s, fs, 0)
    case Some(path) =>
      ExtractEach(cfg, env, s, fs, ListAppFiles(find, path).files,
                  JoinPath(appRoot, AppDirName(cfg, env, pkg)), "app_data", false)
  }

  // ---------------------------------------------------------------------
  // Media

  datatype MediaKind = Photos | Videos | Audio

  /** Photos and videos stop at 2000 acquired files each; audio has no cap. */
  function MediaCap(kind: MediaKind): Option<nat> {
    match kind
    case Photos => Some(MaxMediaFiles)
    case Videos => Some(MaxMediaFiles)
    case Audio => None
  }

  function MediaCount(st: Stats, kind: MediaKind): nat {
    match kind
    case Photos => st.photosAcquired
    case Videos => st.videosAcquired
    case Audio => st.audioAcquired
  }

  /** One more acquired file of this kind. */
  function BumpMedia(st: Stats, kind: MediaKind): (r: Stats)
    ensures MediaCount(r, kind) == MediaCount(st, kind) + 1
    ensures forall k :: k != kind ==> MediaCount(r, k) == MediaCount(st, k)
    ensures NoneDecreased(st, r)
    ensures r.totalFiles == st.totalFiles && r.totalBytes == st.totalBytes && BucketSum(r) == BucketSum(st)
    ensures r.processesScanned == st.processesScanned && r.memoryMapsAcquired == st.memoryMapsAcquired
    ensures r.appsProcessed == st.appsProcessed && r.documentsAcquired == st.documentsAcquired
  {
    match kind
    case Photos => st.(photosAcquired := st.photosAcquired + 1)
    case Videos => st.(videosAcquired := st.videosAcquired + 1)
    case Audio => st.(audioAcquired := st.audioAcquired + 1)
  }

  function TotalLength(listings: seq<seq<string>>): nat {
    if |listings| == 0 then 0 else TotalLength(listings[..|listings| - 1]) + |listings[|listings| - 1]|
  }

  /** The bookkeeping a media loop keeps: `b.acquired` files of `kind` were
      acquired since `s`, and counted as such. */
  predicate MediaProgress(s: Session, b: Batch, kind: MediaKind) {
    && MediaCount(b.session.stats, kind) == MediaCount(s.stats, kind) + b.acquired
    && (forall k :: k != kind ==> MediaCount(b.session.stats, k) == MediaCount(s.stats, k))
    && b.session.stats.totalFiles == s.stats.totalFiles + b.acquired
    && |b.session.extracted| == |s.extracted| + b.acquired
    && s.extracted <= b.session.extracted
    && NoneDecreased(s.stats, b.session.stats)
    && (Balanced(s.stats) ==> Balanced(b.session.stats))
  }

  /** The batch after one extraction `r` of a media loop: a success counts
      one more file of the kind. */
  function MediaAfter(b: Batch, r: Run, kind: MediaKind): Batch {
    if r.Ok() then Batch(r.session.(stats := BumpMedia(r.session.stats, kind)), r.fs, b.acquired + 1)
    else Batch(r.session, r.fs, b.acquired)
  }

  /** One file of a media loop: extract it flat into `base`. */
  function MediaNext(cfg: Config, env: Env, b: Batch, x: string, base: string, kind: MediaKind): Batch {
    MediaAfter(b, Extract(cfg, env, b.session, b.fs, x, base, "media", true), kind)
  }

  /** The kind's cap is reached: no further file of this listing is tried. */
  predicate Capped(b: Batch, kind: MediaKind) {
    MediaCap(kind).Some? && b.acquired >= MediaCap(kind).value
  }

  /** Reference reading of one listing of a media loop: the files are taken
      front to back, each extracted in turn, until the listing ends or the
      cap is reached. */
  function MediaScan(cfg: Config, env: Env, b: Batch, files: seq<string>, base: string, kind: MediaKind): Batch
    decreases |files|
  {
    if |files| == 0 || Capped(b, kind) then b
    else MediaScan(cfg, env, MediaNext(cfg, env, b, files[0], base, kind), files[1..], base, kind)
  }

  /** The listings of a media loop, one after the other. */
  function Concat(listings: seq<seq<string>>): seq<string>
    decreases |listings|
  {
    if |listings| == 0 then [] else Concat(listings[..|listings| - 1]) + listings[|listings| - 1]
  }

  lemma ConcatStep(listings: seq<seq<string>>, i: nat)
    requires i < |listings|
    ensures Concat(listings[..i + 1]) == Concat(listings[..i]) + listings[i]
  {
    assert listings[..i + 1][..i] == listings[..i];
  }

  /** Reading two listings in turn, the batch carried over, is reading them
      as one: a batch that reached the cap stays where it is. */
  lemma {:induction false} MediaScanConcat(cfg: Config, env: Env, b: Batch, xs: seq<string>, ys: seq<string>,
                                           base: string, kind: MediaKind)
    ensures MediaScan(cfg, env, b, xs + ys, base, kind)
      == MediaScan(cfg, env, MediaScan(cfg, env, b, xs, base, kind), ys, base, kind)
    decreases |xs|
  {
    if |xs| == 0 {
      assert xs + ys == ys;
    } else if !Capped(b, kind) {
      var next := MediaNext(cfg, env, b, xs[0], base, kind);
      assert (xs + ys)[0] == xs[0];
      assert (xs + ys)[1..] == xs[1..] + ys;
      MediaScanConcat(cfg, env, next, xs[1..], ys, base, kind);
    }
  }

  /** Paths of a listing prefix. */
  function Tried(files: seq<string>): set<string> {
    set x | x in files
  }

  /** One more file of a listing, read from position `i`. */
  lemma MediaScanStep(cfg: Config, env: Env, b: Batch, files: seq<string>, i: nat, base: string, kind: MediaKind)
    requires i < |files| && !Capped(b, kind)
    ensures MediaScan(cfg, env, b, files[i..], base, kind)
      == MediaScan(cfg, env, MediaNext(cfg, env, b, files[i], base, kind), files[i + 1..], base, kind)
  {
    assert files[i..][1..] == files[i + 1..];
  }

  /** Every path remembered in `b` but not in `b0` is one of `xs`. */
  predicate NewPathsFrom(b0: Batch, b: Batch, xs: seq<string>) {
    b.session.extracted <= b0.session.extracted + Tried(xs)
  }

  lemma NewPathsStep(b0: Batch, b: Batch, b': Batch, files: seq<string>, i: nat)
    requires i < |files|
    requires NewPathsFrom(b0, b, files[..i])
    requires b'.session.extracted <= b.session.extracted + {files[i]}
    ensures NewPathsFrom(b0, b', files[..i + 1])
  {
    assert files[..i + 1] == files[..i] + [files[i]];
    assert Tried(files[..i + 1]) == Tried(files[..i]) + {files[i]};
  }

  /** One step remembers at most the path it was given. */
  lemma MediaNextExtracted(cfg: Config, env: Env, b: Batch, x: string, base: string, kind: MediaKind)
    ensures MediaNext(cfg, env, b, x, base, kind).session.extracted <= b.session.extracted + {x}
  {
    var r := Extract(cfg, env, b.session, b.fs, x, base, "media", true);
    if x !in b.session.extracted {
      assert Accounted(cfg, x, "media", b.session, r);
    }
  }

  /** What one extraction of a media loop leaves behind, seen from `s`. */
  predicate StepKept(s: Session, b: Batch, r: Run) {
    && SameTallies(b.session.stats, r.session.stats)
    && r.session.stats.totalFiles == s.stats.totalFiles + b.acquired + (if r.Ok() then 1 else 0)
    && |r.session.extracted| == |s.extracted| + b.acquired + (if r.Ok() then 1 else 0)
    && s.extracted <= r.session.extracted
    && NoneDecreased(s.stats, r.session.stats)
    && (Balanced(s.stats) ==> Balanced(r.session.stats))
  }

  lemma MediaAfterProgress(s: Session, b: Batch, r: Run, kind: MediaKind)
    requires MediaProgress(s, b, kind) && StepKept(s, b, r)
    ensures MediaProgress(s, MediaAfter(b, r, kind), kind)
    ensures b.acquired <= MediaAfter(b, r, kind).acquired <= b.acquired + 1
  {
    var st := r.session.stats;
    assert forall k :: MediaCount(st, k) == MediaCount(b.session.stats, k);
    if r.Ok() {
      NoneDecreasedTransitive(s.stats, st, BumpMedia(st, kind));
    }
  }

  lemma MediaAdvance(cfg: Config, env: Env, s: Session, b: Batch, x: string, base: string, kind: MediaKind)
    requires MediaProgress(s, b, kind)
    ensures MediaProgress(s, MediaNext(cfg, env, b, x, base, kind), kind)
    ensures b.acquired <= MediaNext(cfg, env, b, x, base, kind).acquired <= b.acquired + 1
  {
    MediaStep(cfg, env, s, b, x, base);
    MediaAfterProgress(s, b, Extract(cfg, env, b.session, b.fs, x, base, "media", true), kind);
  }

  /** The state of a media loop after the first `i` listings: the counts
      kept, the batch that of reading those listings as one, and, for a
      capped kind, the cap respected and every file tried unless it was hit;
      an uncapped kind tries every file. */
  predicate KindState(cfg: Config, env: Env, s: Session, fs: Fs, listings: seq<seq<string>>, i: nat,
                      b: Batch, attempted: nat, base: string, kind: MediaKind) {
    match MediaCap(kind)
    case None =>
      KindCore(cfg, env, s, fs, listings, i, b, attempted, base, kind) && attempted == TotalLength(listings[..i])
    case Some(cap) =>
      && KindCore(cfg, env, s, fs, listings, i, b, attempted, base, kind)
      && b.acquired <= cap
      && (attempted < TotalLength(listings[..i]) ==> b.acquired == cap)
  }

  predicate KindCore(cfg: Config, env: Env, s: Session, fs: Fs, listings: seq<seq<string>>, i: nat,
                     b: Batch, attempted: nat, base: string, kind: MediaKind) {
    && i <= |listings|
    && b.acquired <= attempted <= TotalLength(listings[..i])
    && MediaProgress(s, b, kind)
    && b == MediaScan(cfg, env, Batch(s, fs, 0), Concat(listings[..i]), base, kind)
  }

  /** One more listing, handled by the listing loop, keeps the state. */
  lemma KindStep(cfg: Config, env: Env, s: Session, fs: Fs, listings: seq<seq<string>>, i: nat,
                 b: Batch, attempted: nat, b': Batch, calls: nat, base: string, kind: MediaKind)
    requires i < |listings|
    requires KindState(cfg, env, s, fs, listings, i, b, attempted, base, kind)
    requires MediaProgress(s, b', kind)
    requires calls <= |listings[i]| && b.acquired <= b'.acquired <= b.acquired + calls
    requires MediaCap(kind).Some? ==> b'.acquired <= MediaCap(kind).value
    requires calls < |listings[i]| ==> MediaCap(kind).Some? && b'.acquired == MediaCap(kind).value
    requires b' == MediaScan(cfg, env, b, listings[i], base, kind)
    ensures KindState(cfg, env, s, fs, listings, i + 1, b', attempted + calls, base, kind)
  {
    ConcatStep(listings, i);
    MediaScanConcat(cfg, env, Batch(s, fs, 0), Concat(listings[..i]), listings[i], base, kind);
    TotalLengthStep(listings, i);
  }

  /** The photo, video or audio loop of `acquire_media`: for each search
      path's listing, each file is extracted flat into `base` under the
      `media` category until the kind's cap is reached; every True return
      counts one file of the kind. `attempted` is the number of calls made. */
  method AcquireMediaKind(cfg: Config, env: Env, s: Session, fs: Fs, listings: seq<seq<string>>,
                          base: string, kind: MediaKind) returns (b: Batch, attempted: nat)
    ensures MediaCap(kind).Some? ==> b.acquired <= MediaCap(kind).value
    ensures b.acquired <= attempted <= TotalLength(listings)
    ensures attempted < TotalLength(listings) ==> MediaCap(kind).Some? && b.acquired == MediaCap(kind).value
    ensures MediaProgress(s, b, kind)
    // the listings are worked through in order, as if they were one
    ensures b == MediaScan(cfg, env, Batch(s, fs, 0), Concat(listings), base, kind)
  {
    b := Batch(s, fs, 0);
    attempted := 0;
    var i := 0;
    KindStart(cfg, env, s, fs, listings, base, kind);
    while i < |listings|
      invariant KindState(cfg, env, s, fs, listings, i, b, attempted, base, kind)
    {
      KindReady(cfg, env, s, fs, listings, i, b, attempted, base, kind);
      var b', j := AcquireMediaListing(cfg, env, s, b, listings[i], base, kind);
      KindStep(cfg, env, s, fs, listings, i, b, attempted, b', j, base, kind);
      b, attempted, i := b', attempted + j, i + 1;
    }
    KindDone(cfg, env, s, fs, listings, b, attempted, base, kind);
  }

  /** Before any listing, nothing has been tried. */
  lemma KindStart(cfg: Config, env: Env, s: Session, fs: Fs, listings: seq<seq<string>>, base: string, kind: MediaKind)
    ensures KindState(cfg, env, s, fs, listings, 0, Batch(s, fs, 0), 0, base, kind)
  {
    assert listings[..0] == [];
  }

  /** Within the listings, the state is what the listing loop needs. */
  lemma KindReady(cfg: Config, env: Env, s: Session, fs: Fs, listings: seq<seq<string>>, i: nat,
                  b: Batch, attempted: nat, base: string, kind: MediaKind)
    requires KindState(cfg, env, s, fs, listings, i, b, attempted, base, kind)
    ensures i <= |listings|
    ensures MediaProgress(s, b, kind)
    ensures MediaCap(kind).Some? ==> b.acquired <= MediaCap(kind).value
  {
  }

  /** At the end of the listings, the state is the loop's promise. */
  lemma KindDone(cfg: Config, env: Env, s: Session, fs: Fs, listings: seq<seq<string>>,
                 b: Batch, attempted: nat, base: string, kind: MediaKind)
    requires KindState(cfg, env, s, fs, listings, |listings|, b, attempted, base, kind)
    ensures MediaCap(kind).Some? ==> b.acquired <= MediaCap(kind).value
    ensures MediaProgress(s, b, kind)
    ensures b.acquired <= attempted <= TotalLength(listings)
    ensures attempted < TotalLength(listings) ==> MediaCap(kind).Some? && b.acquired == MediaCap(kind).value
    ensures b == MediaScan(cfg, env, Batch(s, fs, 0), Concat(listings), base, kind)
  {
    assert listings[..|listings|] == listings;
  }

  lemma TotalLengthStep(listings: seq<seq<string>>, i: nat)
    requires i < |listings|
    ensures TotalLength(listings[..i + 1]) == TotalLength(listings[..i]) + |listings[i]|
  {
    assert listings[..i + 1][..i] == listings[..i];
  }

  /** The state of a listing loop after `calls` files: counts kept, the rest
      of the reference reading still ahead, every new path one of the files
      tried, and, for a capped kind, the cap respected. */
  predicate ListingState(cfg: Config, env: Env, s: Session, b0: Batch, b: Batch, files: seq<string>, calls: nat,
                         base: string, kind: MediaKind) {
    match MediaCap(kind)
    case None => ListingCore(cfg, env, s, b0, b, files, calls, base, kind)
    case Some(cap) => ListingCore(cfg, env, s, b0, b, files, calls, base, kind) && b.acquired <= cap
  }

  predicate ListingCore(cfg: Config, env: Env, s: Session, b0: Batch, b: Batch, files: seq<string>, calls: nat,
                        base: string, kind: MediaKind) {
    && calls <= |files|
    && b0.acquired <= b.acquired <= b0.acquired + calls
    && MediaProgress(s, b, kind)
    && MediaScan(cfg, env, b0, files, base, kind) == MediaScan(cfg, env, b, files[calls..], base, kind)
    && NewPathsFrom(b0, b, files[..calls])
  }

  /** One more file keeps the state of a listing loop. */
  lemma ListingStep(cfg: Config, env: Env, s: Session, b0: Batch, b: Batch, files: seq<string>, calls: nat,
                    base: string, kind: MediaKind)
    requires ListingState(cfg, env, s, b0, b, files, calls, base, kind)
    requires calls < |files| && !Capped(b, kind)
    ensures ListingState(cfg, env, s, b0, MediaNext(cfg, env, b, files[calls], base, kind), files, calls + 1, base, kind)
  {
    MediaAdvance(cfg, env, s, b, files[calls], base, kind);
    MediaScanStep(cfg, env, b, files, calls, base, kind);
    MediaNextExtracted(cfg, env, b, files[calls], base, kind);
    NewPathsStep(b0, b, MediaNext(cfg, env, b, files[calls], base, kind), files, calls);
  }

  /** One search path's listing inside a media loop: files are extracted in
      order while the kind's cap is not reached; `calls` is how many were
      tried, and fewer than all only because the cap was hit. */
  method AcquireMediaListing(cfg: Config, env: Env, s: Session, b0: Batch, files: seq<string>,
                             base: string, kind: MediaKind) returns (b: Batch, calls: nat)
    requires MediaProgress(s, b0, kind)
    requires MediaCap(kind).Some? ==> b0.acquired <= MediaCap(kind).value
    ensures MediaProgress(s, b, kind)
    ensures calls <= |files| && b0.acquired <= b.acquired <= b0.acquired + calls
    ensures MediaCap(kind).Some? ==> b.acquired <= MediaCap(kind).value
    ensures calls < |files| ==> MediaCap(kind).Some? && b.acquired == MediaCap(kind).value
    // the files are tried front to back, stopping at the cap
    ensures b == MediaScan(cfg, env, b0, files, base, kind)
    // every newly remembered path is one of the files tried
    ensures NewPathsFrom(b0, b, files[..calls])
  {
    b := b0;
    calls := 0;
    while calls < |files| && (MediaCap(kind).None? || b.acquired < MediaCap(kind).value)
      invariant ListingState(cfg, env, s, b0, b, files, calls, base, kind)
    {
      ListingStep(cfg, env, s, b0, b, files, calls, base, kind);
      b := MediaNext(cfg, env, b, files[calls], base, kind);
      calls := calls + 1;
    }
  }


  /** The bookkeeping of one step of a media loop. */
  lemma MediaStep(cfg: Config, env: Env, s: Session, b: Batch, x: string, base: string)
    requires b.session.stats.totalFiles == s.stats.totalFiles + b.acquired
    requires |b.session.extracted| == |s.extracted| + b.acquired
    requires s.extracted <= b.session.extracted
    requires NoneDecreased(s.stats, b.session.stats)
    requires Balanced(s.stats) ==> Balanced(b.session.stats)
    ensures StepKept(s, b, Extract(cfg, env, b.session, b.fs, x, base, "media", true))
  {
    var r := Extract(cfg, env, b.session, b.fs, x, base, "media", true);
    if x in b.session.extracted {
      assert r.session == b.session && !r.Ok();
    } else {
      MediaStepRun(cfg, x, s, b, r);
    }
  }

  /** `MediaStep` for a path not seen before, whatever run it produced. */
  lemma MediaStepRun(cfg: Config, x: string, s: Session, b: Batch, r: Run)
    requires b.session.stats.totalFiles == s.stats.totalFiles + b.acquired
    requires |b.session.extracted| == |s.extracted| + b.acquired
    requires s.extracted <= b.session.extracted
    requires NoneDecreased(s.stats, b.session.stats)
    requires Balanced(s.stats) ==> Balanced(b.session.stats)
    requires Accounted(cfg, x, "media", b.session, r)
    ensures StepKept(s, b, r)
  {
    var st := b.session.stats;
    var st' := r.session.stats;
    NoneDecreasedTransitive(s.stats, st, st');
    if r.Ok() {
      BucketSumGrows(st, st', "media", r.fs[r.target]);
      assert |b.session.extracted + {x}| == |b.session.extracted| + 1;
    }
  }
}
