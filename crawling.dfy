/**
 * `FileCrawler`: crawls the projects, branches and files an expression
 * selects, keeping the project, branch and tree collections in a cache pool.
 * Every method is proved to do what the matching function of `Pipeline` says,
 * on the pool's entries and the API's call log.
 */
module Crawling {
  import opened Wrappers
  import opened Collections
  import opened Matcher
  import opened Gitlab
  import opened Errors
  import opened CachePool
  import opened Results
  import opened Expression
  import opened Pipeline
  import opened CrawlProperties

  class FileCrawler {
    const api: Api
    const cache: Pool
    /** `md5` and `base64_decode`, which the model leaves uninterpreted. */
    const md5: string -> string
    const base64Decode: string -> string
    var cacheLifetime: int

    /** The cache and the call log together. */
    ghost function State(): St
      reads api, cache
    {
      St(cache.entries, api.calls)
    }

    /** What a crawl at time `now` depends on. */
    function EnvAt(now: int): Env
      reads this
    {
      Env(api.data, md5, base64Decode, cacheLifetime, now)
    }

    /** Without a pool a fresh, empty one is made (`$cache ?: new ArrayAdapter()`). */
    constructor (api: Api, cache: Pool?, md5: string -> string, base64Decode: string -> string)
      ensures this.api == api && this.md5 == md5 && this.base64Decode == base64Decode
      ensures cache != null ==> this.cache == cache
      ensures cache == null ==> fresh(this.cache) && this.cache.entries == map[]
      ensures cacheLifetime == CacheLifetime
    {
      var pool: Pool;
      if cache != null {
        pool := cache;
      } else {
        pool := new Pool();
      }
      this.api := api;
      this.cache := pool;
      this.md5 := md5;
      this.base64Decode := base64Decode;
      cacheLifetime := CacheLifetime;
    }

    method GetCacheLifetime() returns (r: int)
      ensures r == cacheLifetime
    {
      r := cacheLifetime;
    }

    method SetCacheLifetime(lifetime: int)
      modifies this
      ensures cacheLifetime == lifetime
    {
      cacheLifetime := lifetime;
    }

    method GetProjects(now: int) returns (projects: Collection<Project>)
      modifies api, cache
      ensures (projects, State()) == ProjectsLookup(EnvAt(now), old(State()))
    {
      var hit := cache.GetItem(ProjectsKey, now);
      if hit.Some? {
        projects := AsProjects(hit.value);
        return;
      }
      projects := [];
      var page := 1;
      var batch := api.Accessible(page);
      while batch != []
        invariant page >= 1 && batch == AccessiblePage(api.data, page)
        invariant FetchFrom(api.data, page, projects) == FetchFrom(api.data, 1, [])
        invariant api.calls == old(api.calls) + PageCalls(1, page + 1)
        invariant cache.entries == old(cache.entries)
        decreases |api.data.pages| + 1 - page
      {
        projects := PutEach(projects, batch, ProjectPath);
        page := page + 1;
        batch := api.Accessible(page);
      }
      cache.Save(ProjectsKey, ProjectList(projects), now, cacheLifetime);
    }

    method GetBranches(projectId: int, now: int) returns (branches: Result<Collection<Branch>, Error>)
      modifies api, cache
      ensures (branches, State()) == BranchesLookup(EnvAt(now), old(State()), projectId)
    {
      var key := BranchesKey(projectId);
      var hit := cache.GetItem(key, now);
      if hit.Some? {
        return Success(AsBranches(hit.value));
      }
      var records := api.Branches(projectId);
      if records.None? {
        return Failure(RemoteFailure(ListBranches(projectId)));
      }
      var collected := PutEach([], records.value, BranchName);
      cache.Save(key, BranchList(collected), now, cacheLifetime);
      branches := Success(collected);
    }

    /** `getTree($projectId, $ref, $path)`, with `None` for a null path. */
    method GetTree(projectId: int, ref: string, path: Option<string>, now: int) returns (tree: Result<Collection<TreeItem>, Error>)
      modifies api, cache
      ensures var request := FileTreeRequest(EnvAt(now), projectId, ref, path);
        (tree, State()) == TreeLookup(EnvAt(now), old(State()), projectId, request.0, request.1)
    {
      var key := TreeKey(projectId, md5(ref + "." + (if path.Some? then path.value else "")));
      var hit := cache.GetItem(key, now);
      if hit.Some? {
        return Success(AsTree(hit.value));
      }
      var options := TreeOptions(ref, Some(path.None?));
      var records := api.Tree(projectId, options);
      if records.None? {
        return Failure(RemoteFailure(ListTree(projectId, options)));
      }
      var collected := PutEach([], records.value, ItemPath);
      cache.Save(key, TreeList(collected), now, cacheLifetime);
      tree := Success(collected);
    }

    method MatchProjects(e: Expression, now: int) returns (projects: seq<Project>)
      modifies api, cache
      ensures var r := ProjectsLookup(EnvAt(now), old(State()));
        projects == MatchSpec(e.projects, r.0) && State() == r.1
    {
      var all := GetProjects(now);
      projects := Match(e.projects, all);
    }

    method MatchBranch(projectId: int, e: Expression, now: int) returns (branch: Result<Option<Branch>, Error>)
      modifies api, cache
      ensures (branch, State()) == MatchBranchSpec(EnvAt(now), old(State()), projectId, e.branches)
    {
      var branches := GetBranches(projectId, now);
      if branches.Failure? {
        return Failure(branches.error);
      }
      var one := MatchOne(e.branches, branches.value);
      branch := Success(one);
    }

    method MatchFile(projectId: int, ref: string, e: Expression, now: int) returns (file: Result<Option<FileRecord>, Error>)
      modifies api, cache
      ensures (file, State()) == MatchFileSpec(Current, EnvAt(now), old(State()), projectId, ref, e.files)
    {
      var tree := GetTree(projectId, ref, None, now);
      if tree.Failure? {
        return Failure(tree.error);
      }
      var item := MatchOne(e.files, tree.value);
      if item.None? {
        return Success(None);
      }
      var fetched := api.GetFile(projectId, item.value.path, ref);
      if fetched.None? {
        return Failure(RemoteFailure(FetchFile(projectId, item.value.path, ref)));
      }
      file := Success(Some(fetched.value));
    }

    method CreateCrawledFile(project: Project, branch: Branch, file: FileRecord) returns (crawled: Result<CrawledFile, Error>)
      ensures crawled.Failure? ==> CrawledFileSpec(base64Decode, project, branch, file) == Failure(crawled.error)
      ensures crawled.Success? ==>
        fresh(crawled.value) && CrawledFileSpec(base64Decode, project, branch, file) == Success(crawled.value.View())
    {
      if file.encoding != "base64" {
        return Failure(UnknownEncoding(file.encoding));
      }
      var c := new CrawledFile();
      c.SetProjectId(Some(project.id));
      c.SetProjectName(Some(project.pathWithNamespace));
      c.SetBranchName(Some(branch.name));
      c.SetPath(Some(file.filePath));
      c.SetContents(Some(base64Decode(file.content)));
      crawled := Success(c);
    }

    /** The body of the `crawl` loop for one matched project. */
    method Visit(project: Project, e: Expression, now: int, ghost step: (St, Project) -> (Step, St))
      returns (produced: Option<CrawledFile>, err: Option<Error>)
      requires StepIs(step, Current, EnvAt(now), e)
      modifies api, cache
      ensures var r := step(old(State()), project);
        State() == r.1 && err == r.0.Raised() && (produced.Some? <==> r.0.Emitted?) &&
        (produced.Some? ==> fresh(produced.value) && produced.value.View() == r.0.file)
    {
      produced, err := None, None;
      ghost var r := StepSpec(Current, EnvAt(now), e, State(), project);
      assert step(State(), project) == r;
      var branch := MatchBranch(project.id, e, now);
      if branch.Failure? {
        err := Some(branch.error);
        return;
      }
      if branch.value.None? {
        return;
      }
      var file := MatchFile(project.id, branch.value.value.name, e, now);
      if file.Failure? {
        err := Some(file.error);
        return;
      }
      if file.value.None? {
        return;
      }
      var crawled := CreateCrawledFile(project, branch.value.value, file.value.value);
      if crawled.Failure? {
        err := Some(crawled.error);
        return;
      }
      produced := Some(crawled.value);
    }

    /** The `crawl` loop over the matched projects; it ends at the first exception. */
    method CrawlProjects(projects: seq<Project>, e: Expression, now: int, ghost step: (St, Project) -> (Step, St))
      returns (files: seq<CrawledFile>, err: Option<Error>)
      requires StepIs(step, Current, EnvAt(now), e)
      modifies api, cache
      ensures var o := CrawlFrom(step, projects, old(State()));
        Views(files) == o.files && err == o.error && State() == o.st
      ensures forall f :: f in files ==> fresh(f)
    {
      files, err := [], None;
      ghost var st0 := State();
      ghost var views: seq<FileView> := [];
      var i := 0;
      while i < |projects|
        invariant 0 <= i <= |projects|
        invariant CrawlFrom(step, projects[..i], st0) == Outcome(views, None, State())
        invariant |files| == |views| && forall k :: 0 <= k < |files| ==> files[k].View() == views[k]
        invariant forall f :: f in files ==> fresh(f)
      {
        CrawlFromStep(step, projects, i, st0);
        var produced, stepErr := Visit(projects[i], e, now, step);
        if stepErr.Some? {
          err := stepErr;
          CrawlFromErrorStops(step, projects[..i + 1], projects[i + 1..], st0);
          assert projects[..i + 1] + projects[i + 1..] == projects;
          return;
        }
        if produced.Some? {
          files, views := files + [produced.value], views + [produced.value.View()];
        }
        i := i + 1;
      }
      assert projects[..|projects|] == projects;
    }

    /**
     * `crawl`: the files are yielded one by one, so those produced before an
     * exception are delivered; `err` is the exception that ended the crawl.
     */
    method Crawl(arg: Argument, now: int) returns (files: seq<CrawledFile>, err: Option<Error>)
      modifies api, cache
      ensures var o := CrawlSpec(EnvAt(now), arg, old(State()));
        Views(files) == o.files && err == o.error && State() == o.st
      ensures forall f :: f in files ==> fresh(f)
    {
      var e: Expression;
      match arg {
        case TextArgument(text) =>
          var parsed := Parse(text);
          if parsed.Failure? {
            return [], Some(parsed.error);
          }
          e := parsed.value;
        case ExpressionArgument(x) =>
          e := x;
        case OtherArgument =>
          return [], Some(InvalidArgument("Unsupported expression given."));
      }
      var projects := MatchProjects(e, now);
      StepForIs(Current, EnvAt(now), e);
      files, err := CrawlProjects(projects, e, now, StepFor(Current, EnvAt(now), e));
    }
  }
}
