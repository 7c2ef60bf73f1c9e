/**
 * What one crawl does, as functions of the remote data, the cache contents and
 * the call log. Both crawler classes are proved to follow these functions;
 * the properties of a crawl are then lemmas about them.
 *
 * `FileCrawler` (Tobeno\GitlabCrawler\Crawler\FileCrawler) and the older
 * `Crawler` (Tobeno\GitlabCrawler\Crawler) walk the same way and differ in
 * two places: the tree request (cache key and options) and what happens to the
 * results gathered before an exception.
 */
module Pipeline {
  import opened Wrappers
  import opened Strings
  import opened Collections
  import opened Matcher
  import opened Gitlab
  import opened Errors
  import opened CachePool
  import opened Results
  import opened Expression

  /** `CACHE_LIFETIME`: one day, in seconds. */
  const CacheLifetime: int := 24 * 3600

  /** The mutable world of a crawl: the cache pool's entries and the remote call log. */
  datatype St = St(entries: Entries, calls: seq<Call>)

  /**
   * What a crawl depends on but does not change: the remote data, `md5` and
   * `base64_decode` (left uninterpreted), the cache lifetime and the clock.
   */
  datatype Env = Env(data: RemoteData, md5: string -> string, decode: string -> string, lifetime: int, now: int)

  /** The crawler a specification function describes. */
  datatype Version = Current | Legacy

  // Cache keys.

  const ProjectsKey: string := "projects"
  const BranchesPrefix: string := "branches."
  const TreePrefix: string := "tree."

  /** `'branches.' . $projectId` */
  function BranchesKey(id: int): string
  {
    BranchesPrefix + IntToString(id)
  }

  /** `'tree.' . $projectId . '.' . $fingerprint` */
  function TreeKey(id: int, fingerprint: string): string
  {
    TreePrefix + IntToString(id) + "." + fingerprint
  }

  predicate HasPrefix(s: string, prefix: string)
  {
    |prefix| <= |s| && s[..|prefix|] == prefix
  }

  /**
   * `FileCrawler::getTree($projectId, $ref, $path)`: the key hashes
   * `$ref . '.' . $path` (a null path is the empty string there) and the tree
   * is listed recursively exactly when no path is given.
   */
  function FileTreeRequest(env: Env, id: int, ref: string, path: Option<string>): (string, TreeOptions)
  {
    (TreeKey(id, env.md5(ref + "." + (if path.Some? then path.value else ""))), TreeOptions(ref, Some(path.None?)))
  }

  /** `Crawler::getTree($projectId, $ref)`: the key hashes the ref alone, the only option is the ref. */
  function LegacyTreeRequest(env: Env, id: int, ref: string): (string, TreeOptions)
  {
    (TreeKey(id, env.md5(ref)), TreeOptions(ref, None))
  }

  /** The tree request `matchFile` makes for a branch: `getTree($projectId, $ref)`. */
  function TreeRequest(v: Version, env: Env, id: int, ref: string): (string, TreeOptions)
  {
    if v == Current then FileTreeRequest(env, id, ref, None) else LegacyTreeRequest(env, id, ref)
  }

  // Reading cached values. The crawlers only ever store a kind of collection
  // under the keys of that kind (`WellTyped`); a value of another kind reads
  // as an empty collection.

  function AsProjects(v: Cached): Collection<Project>
  {
    if v.ProjectList? then v.projects else []
  }

  function AsBranches(v: Cached): Collection<Branch>
  {
    if v.BranchList? then v.branches else []
  }

  function AsTree(v: Cached): Collection<TreeItem>
  {
    if v.TreeList? then v.tree else []
  }

  // Project pages.

  /**
   * The page loop of `getProjects` from page `page` on, with `acc` collected
   * so far: the collection at the end and the first empty page.
   */
  function FetchFrom(data: RemoteData, page: int, acc: Collection<Project>): (r: (Collection<Project>, int))
    ensures r.1 >= page && AccessiblePage(data, r.1) == []
    decreases |data.pages| + 1 - page
  {
    var batch := AccessiblePage(data, page);
    if batch == [] then (acc, page) else FetchFrom(data, page + 1, PutAll(acc, batch, ProjectPath))
  }

  /** The calls `accessible(first)`, ..., `accessible(stop - 1)`. */
  function PageCalls(first: int, stop: int): (calls: seq<Call>)
    ensures |calls| == (if first <= stop then stop - first else 0)
    ensures forall k :: 0 <= k < |calls| ==> calls[k] == Call.Accessible(first + k)
    decreases stop - first
  {
    if stop <= first then [] else PageCalls(first, stop - 1) + [Call.Accessible(stop - 1)]
  }

  /** The records of pages `first` to `stop - 1`, in order. */
  function ConcatPages(data: RemoteData, first: int, stop: int): seq<Project>
    decreases stop - first
  {
    if stop <= first then [] else AccessiblePage(data, first) + ConcatPages(data, first + 1, stop)
  }

  // The three cached getters.

  /** `getProjects`. */
  function ProjectsLookup(env: Env, st: St): (Collection<Project>, St)
  {
    match Lookup(st.entries, ProjectsKey, env.now)
    case Some(v) => (AsProjects(v), st)
    case None =>
      var (projects, last) := FetchFrom(env.data, 1, []);
      (projects, St(Store(st.entries, ProjectsKey, ProjectList(projects), env.now, env.lifetime),
                    st.calls + PageCalls(1, last + 1)))
  }

  /** `getBranches($projectId)`; a refused request passes its exception on and saves nothing. */
  function BranchesLookup(env: Env, st: St, id: int): (Result<Collection<Branch>, Error>, St)
  {
    match Lookup(st.entries, BranchesKey(id), env.now)
    case Some(v) => (Success(AsBranches(v)), st)
    case None =>
      var calls := st.calls + [ListBranches(id)];
      match BranchesOf(env.data, id)
      case None => (Failure(RemoteFailure(ListBranches(id))), St(st.entries, calls))
      case Some(records) =>
        var branches := PutAll([], records, BranchName);
        (Success(branches), St(Store(st.entries, BranchesKey(id), BranchList(branches), env.now, env.lifetime), calls))
  }

  /** `getTree` under cache key `key`, listing the tree with `options` on a miss. */
  function TreeLookup(env: Env, st: St, id: int, key: string, options: TreeOptions): (Result<Collection<TreeItem>, Error>, St)
  {
    match Lookup(st.entries, key, env.now)
    case Some(v) => (Success(AsTree(v)), st)
    case None =>
      var calls := st.calls + [ListTree(id, options)];
      match TreeOf(env.data, id, options)
      case None => (Failure(RemoteFailure(ListTree(id, options))), St(st.entries, calls))
      case Some(records) =>
        var tree := PutAll([], records, ItemPath);
        (Success(tree), St(Store(st.entries, key, TreeList(tree), env.now, env.lifetime), calls))
  }

  /** `repositories->getFile`, never cached. */
  function FileFetch(env: Env, st: St, id: int, path: string, ref: string): (Result<FileRecord, Error>, St)
  {
    var st' := St(st.entries, st.calls + [FetchFile(id, path, ref)]);
    match FileOf(env.data, id, path, ref)
    case None => (Failure(RemoteFailure(FetchFile(id, path, ref))), st')
    case Some(f) => (Success(f), st')
  }

  // Matching one project.

  /** `matchBranch`: the first branch the branch patterns select, if any. */
  function MatchBranchSpec(env: Env, st: St, id: int, patterns: seq<string>): (Result<Option<Branch>, Error>, St)
  {
    var (branches, st') := BranchesLookup(env, st, id);
    if branches.Failure? then (Failure(branches.error), st')
    else (Success(MatchOneSpec(patterns, branches.value)), st')
  }

  /** `matchFile`: the first tree entry the file patterns select, fetched on the branch. */
  function MatchFileSpec(v: Version, env: Env, st: St, id: int, ref: string, patterns: seq<string>): (Result<Option<FileRecord>, Error>, St)
  {
    var (key, options) := TreeRequest(v, env, id, ref);
    var (tree, st1) := TreeLookup(env, st, id, key, options);
    if tree.Failure? then (Failure(tree.error), st1)
    else match MatchOneSpec(patterns, tree.value)
      case None => (Success(None), st1)
      case Some(item) =>
        var (file, st2) := FileFetch(env, st1, id, item.path, ref);
        if file.Failure? then (Failure(file.error), st2) else (Success(Some(file.value)), st2)
  }

  function UnknownEncoding(encoding: string): Error
  {
    Runtime("Unknown file encoding " + encoding + " found.")
  }

  /** `createCrawledFile`: only base64 content is accepted, and it is decoded. */
  function CrawledFileSpec(decode: string -> string, p: Project, b: Branch, f: FileRecord): (r: Result<FileView, Error>)
    ensures r.Failure? <==> f.encoding != "base64"
    ensures r.Failure? ==> r.error == UnknownEncoding(f.encoding)
  {
    if f.encoding != "base64" then Failure(UnknownEncoding(f.encoding))
    else Success(FileView(Some(p.id), Some(p.pathWithNamespace), Some(b.name), Some(f.filePath), Some(decode(f.content))))
  }

  /** What the loop body of `crawl` does for one project. */
  datatype Step = Emitted(file: FileView) | Pruned | Failed(error: Error)
  {
    /** The exception a step raises, if it raises one. */
    function Raised(): Option<Error>
    {
      if Failed? then Some(error) else None
    }
  }

  function StepSpec(v: Version, env: Env, e: Expression, st: St, p: Project): (Step, St)
  {
    var (branch, st1) := MatchBranchSpec(env, st, p.id, e.branches);
    if branch.Failure? then (Failed(branch.error), st1)
    else if branch.value.None? then (Pruned, st1)
    else
      var b := branch.value.value;
      var (file, st2) := MatchFileSpec(v, env, st1, p.id, b.name, e.files);
      if file.Failure? then (Failed(file.error), st2)
      else if file.value.None? then (Pruned, st2)
      else match CrawledFileSpec(env.decode, p, b, file.value.value)
        case Failure(err) => (Failed(err), st2)
        case Success(view) => (Emitted(view), st2)
  }

  // The crawl loop.

  /** The files produced, in order, and the exception that ended the loop, if one did. */
  datatype Outcome = Outcome(files: seq<FileView>, error: Option<Error>, st: St)

  /** One turn of the loop: a produced file is appended, an exception ends the loop. */
  function Advance(files: seq<FileView>, r: (Step, St)): Outcome
  {
    match r.0
    case Emitted(f) => Outcome(files + [f], None, r.1)
    case Pruned => Outcome(files, None, r.1)
    case Failed(err) => Outcome(files, Some(err), r.1)
  }

  /** The loop body as a value, so that the loop can be reasoned about for any body. */
  function StepFor(v: Version, env: Env, e: Expression): (St, Project) -> (Step, St)
  {
    (s: St, p: Project) => StepSpec(v, env, e, s, p)
  }

  /** `step` is the loop body of crawler `v` crawling `e`. */
  ghost predicate StepIs(step: (St, Project) -> (Step, St), v: Version, env: Env, e: Expression)
  {
    forall s: St, p: Project {:trigger StepSpec(v, env, e, s, p)} :: step(s, p) == StepSpec(v, env, e, s, p)
  }

  lemma StepForIs(v: Version, env: Env, e: Expression)
    ensures StepIs(StepFor(v, env, e), v, env, e)
  {
  }

  /** The crawl loop over the matched projects `ps`: it stops at the first exception. */
  function CrawlFrom(step: (St, Project) -> (Step, St), ps: seq<Project>, st: St): Outcome
  {
    if ps == [] then Outcome([], None, st)
    else
      var o := CrawlFrom(step, ps[..|ps| - 1], st);
      if o.error.Some? then o else Advance(o.files, step(o.st, ps[|ps| - 1]))
  }

  /** `matchProjects`, then the loop. */
  function CrawlAll(v: Version, env: Env, e: Expression, st: St): Outcome
  {
    var (projects, st1) := ProjectsLookup(env, st);
    CrawlFrom(StepFor(v, env, e), MatchSpec(e.projects, projects), st1)
  }

  /** What `FileCrawler::crawl` may be given. */
  datatype Argument = TextArgument(text: string) | ExpressionArgument(e: Expression) | OtherArgument

  /**
   * `FileCrawler::crawl`, a generator: the files it yields before an exception
   * stay delivered.
   */
  function CrawlSpec(env: Env, arg: Argument, st: St): Outcome
  {
    match arg
    case TextArgument(text) =>
      var parsed := Parse(text);
      if parsed.Failure? then Outcome([], Some(parsed.error), st) else CrawlAll(Current, env, parsed.value, st)
    case ExpressionArgument(e) => CrawlAll(Current, env, e, st)
    case OtherArgument => Outcome([], Some(InvalidArgument("Unsupported expression given.")), st)
  }

  function InvalidFile(): Error
  {
    InvalidArgument("Invalid file given.")
  }

  /** The three `|`-split levels the legacy crawler reads from an expression text. */
  function LegacyLevels(text: string): Expression
    requires Count(text, PartSeparator) == 2
  {
    var parts := Split(text, PartSeparator);
    Expression(Split(parts[0], FallbackSeparator), Split(parts[1], FallbackSeparator), Split(parts[2], FallbackSeparator))
  }

  /**
   * `Crawler::crawl`, eager: it builds an array, so an exception loses every
   * file gathered before it.
   */
  function LegacyCrawlSpec(env: Env, text: string, st: St): Outcome
  {
    if Count(text, PartSeparator) != 2 then Outcome([], Some(InvalidFile()), st)
    else
      var o := CrawlAll(Legacy, env, LegacyLevels(text), st);
      if o.error.Some? then Outcome([], o.error, o.st) else o
  }
}
