/**
 * Properties of a crawl, stated about the specification functions that both
 * crawler classes are proved to follow.
 */
module CrawlProperties {
  import opened Wrappers
  import opened Strings
  import opened Collections
  import opened Matcher
  import opened Gitlab
  import opened Errors
  import opened CachePool
  import opened Results
  import opened Expression
  import opened Pipeline

  // Cache keys.

  lemma BranchesKeyInjective(a: int, b: int)
    requires BranchesKey(a) == BranchesKey(b)
    ensures a == b
  {
    assert BranchesKey(a)[|BranchesPrefix|..] == IntToString(a);
    assert BranchesKey(b)[|BranchesPrefix|..] == IntToString(b);
    IntToStringInjective(a, b);
  }

  lemma DotBefore(a: string, x: string, b: string, y: string)
    requires '.' !in b && |a| < |b|
    ensures a + "." + x != b + "." + y
  {
    assert (a + "." + x)[|a|] == '.';
    assert (b + "." + y)[|a|] == b[|a|];
  }

  lemma {:induction false} DotSplit(a: string, x: string, b: string, y: string)
    requires '.' !in a && '.' !in b
    requires a + "." + x == b + "." + y
    ensures a == b && x == y
  {
    var s := a + "." + x;
    if |a| < |b| {
      DotBefore(a, x, b, y);
      assert false;
    } else if |b| < |a| {
      DotBefore(b, y, a, x);
      assert false;
    }
    assert a == s[..|a|] == b;
    assert x == s[|a| + 1..] == y;
  }

  /** Tree keys of different projects or different fingerprints differ. */
  lemma TreeKeyInjective(id1: int, fp1: string, id2: int, fp2: string)
    requires TreeKey(id1, fp1) == TreeKey(id2, fp2)
    ensures id1 == id2 && fp1 == fp2
  {
    IntToStringChars(id1);
    IntToStringChars(id2);
    assert TreeKey(id1, fp1)[|TreePrefix|..] == IntToString(id1) + "." + fp1;
    assert TreeKey(id2, fp2)[|TreePrefix|..] == IntToString(id2) + "." + fp2;
    DotSplit(IntToString(id1), fp1, IntToString(id2), fp2);
    IntToStringInjective(id1, id2);
  }

  /** Each key names one kind of collection: the three key families never meet. */
  lemma KeyKinds(id: int, treeId: int, fingerprint: string)
    ensures HasPrefix(BranchesKey(id), BranchesPrefix) && !HasPrefix(BranchesKey(id), TreePrefix)
    ensures HasPrefix(TreeKey(treeId, fingerprint), TreePrefix) && !HasPrefix(TreeKey(treeId, fingerprint), BranchesPrefix)
    ensures !HasPrefix(ProjectsKey, BranchesPrefix) && !HasPrefix(ProjectsKey, TreePrefix)
    ensures BranchesKey(id) != ProjectsKey && TreeKey(treeId, fingerprint) != ProjectsKey
  {
    assert BranchesKey(id)[..|BranchesPrefix|] == BranchesPrefix;
    assert TreeKey(treeId, fingerprint)[..|TreePrefix|] == TreePrefix;
    assert BranchesKey(id)[0] == 'b' && TreeKey(treeId, fingerprint)[0] == 't' && ProjectsKey[0] == 'p';
  }

  /**
   * `md5($ref . '.' . $path)` does not tell the ref from the path: ref `a.b`
   * without a path and ref `a` with path `b.` share one cache key although
   * they ask for different trees.
   */
  lemma TreeFingerprintAmbiguous(env: Env, id: int)
    ensures FileTreeRequest(env, id, "a.b", None).0 == FileTreeRequest(env, id, "a", Some("b.")).0
    ensures FileTreeRequest(env, id, "a.b", None).1 != FileTreeRequest(env, id, "a", Some("b.")).1
  {
    assert "a.b" + "." + "" == "a" + "." + "b.";
  }

  // Project pages.

  /** The loop reads page after page and stops at the first empty one. */
  lemma {:induction false} PagesBeforeStop(data: RemoteData, page: int, acc: Collection<Project>)
    ensures forall q :: page <= q < FetchFrom(data, page, acc).1 ==> AccessiblePage(data, q) != []
    decreases |data.pages| + 1 - page
  {
    var batch := AccessiblePage(data, page);
    if batch != [] {
      PagesBeforeStop(data, page + 1, PutAll(acc, batch, ProjectPath));
    }
  }

  /** The loop ends at the latest on the page after the last page the service has. */
  lemma {:induction false} PagesEnd(data: RemoteData, page: int, acc: Collection<Project>)
    requires page <= |data.pages| + 1
    ensures FetchFrom(data, page, acc).1 <= |data.pages| + 1
    decreases |data.pages| + 1 - page
  {
    var batch := AccessiblePage(data, page);
    if batch != [] {
      PagesEnd(data, page + 1, PutAll(acc, batch, ProjectPath));
    }
  }

  /** The collection holds the records of every page read, put in page order. */
  lemma {:induction false} PagesCollected(data: RemoteData, page: int, acc: Collection<Project>)
    ensures FetchFrom(data, page, acc).0 == PutAll(acc, ConcatPages(data, page, FetchFrom(data, page, acc).1), ProjectPath)
    decreases |data.pages| + 1 - page
  {
    var batch := AccessiblePage(data, page);
    if batch == [] {
      assert ConcatPages(data, page, page) == [];
    } else {
      var next := PutAll(acc, batch, ProjectPath);
      var last := FetchFrom(data, page + 1, next).1;
      PagesCollected(data, page + 1, next);
      PutAllAppend(acc, batch, ConcatPages(data, page + 1, last), ProjectPath);
    }
  }

  /**
   * `getProjects` on a miss: pages 1, 2, ... are requested up to the first
   * empty one, their records are collected by `path_with_namespace` (a later
   * duplicate replaces the earlier value where it stands), and the collection
   * is saved under `projects` with the crawler's lifetime.
   */
  lemma ProjectsMiss(env: Env, st: St) returns (last: int)
    requires Lookup(st.entries, ProjectsKey, env.now).None?
    ensures 1 <= last <= |env.data.pages| + 1 && AccessiblePage(env.data, last) == []
    ensures forall q :: 1 <= q < last ==> AccessiblePage(env.data, q) != []
    ensures ProjectsLookup(env, st).0 == PutAll([], ConcatPages(env.data, 1, last), ProjectPath)
    ensures ProjectsLookup(env, st).1 ==
      St(Store(st.entries, ProjectsKey, ProjectList(ProjectsLookup(env, st).0), env.now, env.lifetime),
         st.calls + PageCalls(1, last + 1))
  {
    last := FetchFrom(env.data, 1, []).1;
    PagesBeforeStop(env.data, 1, []);
    PagesEnd(env.data, 1, []);
    PagesCollected(env.data, 1, []);
  }

  // Cache typing.

  /** A collection as the crawler builds it: every record under its own key, no key twice. */
  ghost predicate Built<V>(c: Collection<V>, keyOf: V -> string)
  {
    KeyedBy(c, keyOf) && DistinctKeys(c)
  }

  /** The value under `key` is of the kind its key names. */
  ghost predicate Fits(key: string, v: Cached)
  {
    (key == ProjectsKey ==> v.ProjectList? && Built(v.projects, ProjectPath)) &&
    (HasPrefix(key, BranchesPrefix) ==> v.BranchList? && Built(v.branches, BranchName)) &&
    (HasPrefix(key, TreePrefix) ==> v.TreeList? && Built(v.tree, ItemPath))
  }

  ghost predicate WellTyped(entries: Entries)
  {
    forall k :: k in entries ==> Fits(k, entries[k].value)
  }

  lemma BuiltFromScratch<V>(rs: seq<V>, keyOf: V -> string)
    ensures Built(PutAll([], rs, keyOf), keyOf)
  {
    PutAllKeyedBy([], rs, keyOf);
    PutAllDistinct([], rs, keyOf);
  }

  lemma ProjectsTyped(env: Env, st: St)
    requires WellTyped(st.entries)
    ensures WellTyped(ProjectsLookup(env, st).1.entries)
    ensures Built(ProjectsLookup(env, st).0, ProjectPath)
  {
    if Lookup(st.entries, ProjectsKey, env.now).None? {
      BuiltFromScratch(ConcatPages(env.data, 1, FetchFrom(env.data, 1, []).1), ProjectPath);
      PagesCollected(env.data, 1, []);
      KeyKinds(0, 0, []);
    }
  }

  lemma BranchesTyped(env: Env, st: St, id: int)
    requires WellTyped(st.entries)
    ensures WellTyped(BranchesLookup(env, st, id).1.entries)
    ensures BranchesLookup(env, st, id).0.Success? ==> Built(BranchesLookup(env, st, id).0.value, BranchName)
  {
    KeyKinds(id, 0, []);
    if Lookup(st.entries, BranchesKey(id), env.now).None? && BranchesOf(env.data, id).Some? {
      BuiltFromScratch(BranchesOf(env.data, id).value, BranchName);
    }
  }

  lemma TreeTyped(env: Env, st: St, id: int, fingerprint: string, options: TreeOptions)
    requires WellTyped(st.entries)
    ensures WellTyped(TreeLookup(env, st, id, TreeKey(id, fingerprint), options).1.entries)
    ensures TreeLookup(env, st, id, TreeKey(id, fingerprint), options).0.Success? ==>
      Built(TreeLookup(env, st, id, TreeKey(id, fingerprint), options).0.value, ItemPath)
  {
    KeyKinds(0, id, fingerprint);
    if Lookup(st.entries, TreeKey(id, fingerprint), env.now).None? && TreeOf(env.data, id, options).Some? {
      BuiltFromScratch(TreeOf(env.data, id, options).value, ItemPath);
    }
  }

  /** The tree key a crawler uses for a branch is a tree key. */
  lemma TreeRequestKey(v: Version, env: Env, id: int, ref: string) returns (fingerprint: string)
    ensures TreeRequest(v, env, id, ref).0 == TreeKey(id, fingerprint)
  {
    fingerprint := if v == Current then env.md5(ref + "." + "") else env.md5(ref);
  }

  lemma MatchFileTyped(v: Version, env: Env, st: St, id: int, ref: string, patterns: seq<string>)
    requires WellTyped(st.entries)
    ensures WellTyped(MatchFileSpec(v, env, st, id, ref, patterns).1.entries)
  {
    var fingerprint := TreeRequestKey(v, env, id, ref);
    TreeTyped(env, st, id, fingerprint, TreeRequest(v, env, id, ref).1);
  }

  /** The state after one project: that of `matchBranch`, then that of `matchFile` when a branch was selected. */
  lemma StepState(v: Version, env: Env, e: Expression, st: St, p: Project)
    ensures var (branch, st1) := MatchBranchSpec(env, st, p.id, e.branches);
      StepSpec(v, env, e, st, p).1 ==
        if branch.Success? && branch.value.Some?
        then MatchFileSpec(v, env, st1, p.id, branch.value.value.name, e.files).1
        else st1
  {
  }

  lemma StepTyped(v: Version, env: Env, e: Expression, st: St, p: Project)
    requires WellTyped(st.entries)
    ensures WellTyped(StepSpec(v, env, e, st, p).1.entries)
  {
    BranchesTyped(env, st, p.id);
    StepState(v, env, e, st, p);
    var (branch, st1) := MatchBranchSpec(env, st, p.id, e.branches);
    if branch.Success? && branch.value.Some? {
      MatchFileTyped(v, env, st1, p.id, branch.value.value.name, e.files);
    }
  }

  /** The loop keeps every cache entry of the kind its key names, if each step does. */
  lemma {:induction false} CrawlFromTyped(step: (St, Project) -> (Step, St), ps: seq<Project>, st: St)
    requires forall s: St, p: Project :: WellTyped(s.entries) ==> WellTyped(step(s, p).1.entries)
    requires WellTyped(st.entries)
    ensures WellTyped(CrawlFrom(step, ps, st).st.entries)
  {
    if ps != [] {
      CrawlFromTyped(step, ps[..|ps| - 1], st);
    }
  }

  /** A crawl keeps every cache entry of the kind its key names. */
  lemma CrawlAllTyped(v: Version, env: Env, e: Expression, st: St)
    requires WellTyped(st.entries)
    ensures WellTyped(CrawlAll(v, env, e, st).st.entries)
  {
    ProjectsTyped(env, st);
    var step := StepFor(v, env, e);
    forall s: St, p: Project | WellTyped(s.entries)
      ensures WellTyped(step(s, p).1.entries)
    {
      StepTyped(v, env, e, s, p);
    }
    var (projects, st1) := ProjectsLookup(env, st);
    CrawlFromTyped(step, MatchSpec(e.projects, projects), st1);
  }

  // Fetch once.

  /** Two `getProjects` in a row fetch once: the second is a hit that changes nothing. */
  lemma ProjectsFetchedOnce(env: Env, st: St)
    requires env.lifetime > 0
    ensures ProjectsLookup(env, ProjectsLookup(env, st).1) == ProjectsLookup(env, st)
  {
  }

  lemma BranchesFetchedOnce(env: Env, st: St, id: int)
    requires env.lifetime > 0
    requires BranchesLookup(env, st, id).0.Success?
    ensures BranchesLookup(env, BranchesLookup(env, st, id).1, id) == BranchesLookup(env, st, id)
  {
  }

  lemma TreeFetchedOnce(env: Env, st: St, id: int, key: string, options: TreeOptions)
    requires env.lifetime > 0
    requires TreeLookup(env, st, id, key, options).0.Success?
    ensures TreeLookup(env, TreeLookup(env, st, id, key, options).1, id, key, options) == TreeLookup(env, st, id, key, options)
  {
  }

  /** A hit changes nothing and returns the stored collection. */
  lemma BranchesHit(env: Env, st: St, id: int)
    requires WellTyped(st.entries)
    requires Lookup(st.entries, BranchesKey(id), env.now).Some?
    ensures BranchesLookup(env, st, id) == (Success(st.entries[BranchesKey(id)].value.branches), st)
  {
    KeyKinds(id, 0, []);
  }

  /** A miss lists the branches once, keys them by name and saves them for `lifetime` seconds. */
  lemma BranchesMiss(env: Env, st: St, id: int)
    requires Lookup(st.entries, BranchesKey(id), env.now).None?
    ensures BranchesLookup(env, st, id).1.calls == st.calls + [ListBranches(id)]
    ensures BranchesOf(env.data, id).None? ==>
      BranchesLookup(env, st, id) == (Failure(RemoteFailure(ListBranches(id))), St(st.entries, st.calls + [ListBranches(id)]))
    ensures BranchesOf(env.data, id).Some? ==>
      var branches := PutAll([], BranchesOf(env.data, id).value, BranchName);
      BranchesLookup(env, st, id).0 == Success(branches) &&
      BranchesLookup(env, st, id).1.entries[BranchesKey(id)] == Entry(BranchList(branches), env.now + env.lifetime)
  {
  }

  // One project.

  ghost predicate NoFileFetched(calls: seq<Call>)
  {
    forall k :: 0 <= k < |calls| ==> !calls[k].FetchFile?
  }

  ghost predicate NoTreeListed(calls: seq<Call>)
  {
    forall k :: 0 <= k < |calls| ==> !calls[k].ListTree? && !calls[k].FetchFile?
  }

  ghost predicate HasPrefixLog(calls: seq<Call>, before: seq<Call>)
  {
    |before| <= |calls| && calls[..|before|] == before
  }

  lemma MatchBranchExtendsLog(env: Env, st: St, id: int, patterns: seq<string>)
    ensures var calls := MatchBranchSpec(env, st, id, patterns).1.calls;
      calls == st.calls || calls == st.calls + [ListBranches(id)]
  {
  }

  lemma MatchFileExtendsLog(v: Version, env: Env, st: St, id: int, ref: string, patterns: seq<string>)
    ensures var calls := MatchFileSpec(v, env, st, id, ref, patterns).1.calls;
      HasPrefixLog(calls, st.calls) && |calls| <= |st.calls| + 2
  {
    var (key, options) := TreeRequest(v, env, id, ref);
    var (tree, st1) := TreeLookup(env, st, id, key, options);
    assert st1.calls == st.calls || st1.calls == st.calls + [ListTree(id, options)];
  }

  /** The call log only grows: one project costs at most a branch list, a tree list and a file. */
  lemma StepExtendsLog(v: Version, env: Env, e: Expression, st: St, p: Project)
    ensures var calls := StepSpec(v, env, e, st, p).1.calls;
      HasPrefixLog(calls, st.calls) && |calls| <= |st.calls| + 3
  {
    MatchBranchExtendsLog(env, st, p.id, e.branches);
    StepState(v, env, e, st, p);
    var (branch, st1) := MatchBranchSpec(env, st, p.id, e.branches);
    if branch.Success? && branch.value.Some? {
      MatchFileExtendsLog(v, env, st1, p.id, branch.value.value.name, e.files);
    }
  }

  /** With no matching branch the tree is never requested, nor any file. */
  lemma NoBranchNoTree(v: Version, env: Env, e: Expression, st: St, p: Project)
    requires MatchBranchSpec(env, st, p.id, e.branches).0 == Success(None)
    ensures StepSpec(v, env, e, st, p).0 == Pruned
    ensures var calls := StepSpec(v, env, e, st, p).1.calls;
      HasPrefixLog(calls, st.calls) && NoTreeListed(calls[|st.calls|..])
  {
    var calls := StepSpec(v, env, e, st, p).1.calls;
    assert calls == st.calls || calls == st.calls + [ListBranches(p.id)];
    assert calls[|st.calls|..] == [] || calls[|st.calls|..] == [ListBranches(p.id)];
  }

  /** A file level that selects no tree entry lists the tree at most. */
  lemma NoItemNoFetch(v: Version, env: Env, st: St, id: int, ref: string, patterns: seq<string>)
    requires MatchFileSpec(v, env, st, id, ref, patterns).0 == Success(None)
    ensures var calls := MatchFileSpec(v, env, st, id, ref, patterns).1.calls;
      calls == st.calls || calls == st.calls + [ListTree(id, TreeRequest(v, env, id, ref).1)]
  {
  }

  lemma NoFetchAdded(before: seq<Call>, added: seq<Call>)
    requires NoFileFetched(added)
    ensures HasPrefixLog(before + added, before) && NoFileFetched((before + added)[|before|..])
  {
    assert (before + added)[..|before|] == before;
    assert (before + added)[|before|..] == added;
  }

  /** A project that yields nothing without an exception never had a file fetched. */
  lemma PrunedFetchesNoFile(v: Version, env: Env, e: Expression, st: St, p: Project)
    requires StepSpec(v, env, e, st, p).0 == Pruned
    ensures var calls := StepSpec(v, env, e, st, p).1.calls;
      HasPrefixLog(calls, st.calls) && NoFileFetched(calls[|st.calls|..])
  {
    var (branch, st1) := MatchBranchSpec(env, st, p.id, e.branches);
    MatchBranchExtendsLog(env, st, p.id, e.branches);
    StepState(v, env, e, st, p);
    var added1: seq<Call> := if st1.calls == st.calls then [] else [ListBranches(p.id)];
    assert st1.calls == st.calls + added1;
    if branch.value.None? {
      NoFetchAdded(st.calls, added1);
    } else {
      var b := branch.value.value;
      NoItemNoFetch(v, env, st1, p.id, b.name, e.files);
      var st2 := MatchFileSpec(v, env, st1, p.id, b.name, e.files).1;
      var added2: seq<Call> := if st2.calls == st1.calls then [] else [ListTree(p.id, TreeRequest(v, env, p.id, b.name).1)];
      assert st2.calls == st.calls + (added1 + added2);
      assert NoFileFetched(added1 + added2) by {
        assert forall k :: 0 <= k < |added1 + added2| ==> (added1 + added2)[k] in added1 + added2;
      }
      NoFetchAdded(st.calls, added1 + added2);
    }
  }

  /**
   * What a produced file holds: the project's id and path, the name of a
   * branch a branch pattern selected, and the decoded content of the base64
   * file fetched for a tree entry a file pattern selected on that branch.
   */
  lemma EmittedFile(v: Version, env: Env, e: Expression, st: St, p: Project)
    returns (b: Branch, item: TreeItem, f: FileRecord)
    requires WellTyped(st.entries)
    requires StepSpec(v, env, e, st, p).0.Emitted?
    ensures (exists i :: 0 <= i < |e.branches| && Matches(e.branches[i], b.name))
    ensures (exists i :: 0 <= i < |e.files| && Matches(e.files[i], item.path))
    ensures FileOf(env.data, p.id, item.path, b.name) == Some(f) && f.encoding == "base64"
    ensures StepSpec(v, env, e, st, p).0.file ==
      FileView(Some(p.id), Some(p.pathWithNamespace), Some(b.name), Some(f.filePath), Some(env.decode(f.content)))
  {
    BranchesTyped(env, st, p.id);
    var (branches, st1) := BranchesLookup(env, st, p.id);
    var m := MatchedItems(e.branches, branches.value);
    MatchedFromCollection(e.branches, branches.value);
    assert m[0] in m;
    b := m[0].value;
    var fingerprint := TreeRequestKey(v, env, p.id, b.name);
    var (key, options) := TreeRequest(v, env, p.id, b.name);
    TreeTyped(env, st1, p.id, fingerprint, options);
    var (tree, st2) := TreeLookup(env, st1, p.id, key, options);
    var t := MatchedItems(e.files, tree.value);
    MatchedFromCollection(e.files, tree.value);
    assert t[0] in t;
    item := t[0].value;
    f := FileOf(env.data, p.id, item.path, b.name).value;
  }

  // The crawl loop.

  /** One more turn of the loop. */
  lemma CrawlFromStep(step: (St, Project) -> (Step, St), ps: seq<Project>, i: nat, st: St)
    requires i < |ps| && CrawlFrom(step, ps[..i], st).error.None?
    ensures var o := CrawlFrom(step, ps[..i], st);
      CrawlFrom(step, ps[..i + 1], st) == Advance(o.files, step(o.st, ps[i]))
  {
    assert ps[..i + 1][..i] == ps[..i];
  }

  /** At most one file per matched project entry. */
  lemma {:induction false} CrawlFromBound(step: (St, Project) -> (Step, St), ps: seq<Project>, st: St)
    ensures |CrawlFrom(step, ps, st).files| <= |ps|
  {
    if ps != [] {
      CrawlFromBound(step, ps[..|ps| - 1], st);
    }
  }

  /** After an exception no further project is looked at. */
  lemma {:induction false} CrawlFromErrorStops(step: (St, Project) -> (Step, St), ps: seq<Project>, qs: seq<Project>, st: St)
    requires CrawlFrom(step, ps, st).error.Some?
    ensures CrawlFrom(step, ps + qs, st) == CrawlFrom(step, ps, st)
    decreases |qs|
  {
    if qs == [] {
      assert ps + qs == ps;
    } else {
      var init := qs[..|qs| - 1];
      assert (ps + qs)[..|ps + qs| - 1] == ps + init;
      CrawlFromErrorStops(step, ps, init, st);
    }
  }

  /** An exception within the first `i` projects is where the whole loop ends. */
  lemma CrawlFromErrorAt(step: (St, Project) -> (Step, St), ps: seq<Project>, i: nat, st: St)
    requires i <= |ps| && CrawlFrom(step, ps[..i], st).error.Some?
    ensures CrawlFrom(step, ps, st) == CrawlFrom(step, ps[..i], st)
  {
    CrawlFromErrorStops(step, ps[..i], ps[i..], st);
    assert ps[..i] + ps[i..] == ps;
  }

  /**
   * The loop is a left-to-right walk: crawling `ps` then `qs` gives the files
   * of `ps` followed by those of `qs`, the state carried from one to the next.
   */
  lemma {:induction false} CrawlFromAppend(step: (St, Project) -> (Step, St), ps: seq<Project>, qs: seq<Project>, st: St)
    requires CrawlFrom(step, ps, st).error.None?
    ensures var first := CrawlFrom(step, ps, st);
      var second := CrawlFrom(step, qs, first.st);
      CrawlFrom(step, ps + qs, st) == Outcome(first.files + second.files, second.error, second.st)
    decreases |qs|
  {
    var first := CrawlFrom(step, ps, st);
    if qs == [] {
      assert ps + qs == ps;
      assert first.files + [] == first.files;
    } else {
      var init := qs[..|qs| - 1];
      assert (ps + qs)[..|ps + qs| - 1] == ps + init;
      assert (ps + qs)[|ps + qs| - 1] == qs[|qs| - 1];
      CrawlFromAppend(step, ps, init, st);
      var mid := CrawlFrom(step, init, first.st);
      if mid.error.None? {
        var r := step(mid.st, qs[|qs| - 1]);
        if r.0.Emitted? {
          assert first.files + (mid.files + [r.0.file]) == (first.files + mid.files) + [r.0.file];
        }
      }
    }
  }

  /** The files of a first run of projects that raised nothing begin the files of the whole walk. */
  lemma CrawlFromKeepsPrefix(step: (St, Project) -> (Step, St), ps: seq<Project>, i: nat, st: St)
    requires i <= |ps| && CrawlFrom(step, ps[..i], st).error.None?
    ensures CrawlFrom(step, ps[..i], st).files <= CrawlFrom(step, ps, st).files
  {
    CrawlFromAppend(step, ps[..i], ps[i..], st);
    assert ps[..i] + ps[i..] == ps;
  }

  /** The file carries the id and the path of project `p`. */
  ghost predicate FromProject(f: FileView, p: Project)
  {
    f.projectId == Some(p.id) && f.projectName == Some(p.pathWithNamespace)
  }

  lemma StepFromProject(v: Version, env: Env, e: Expression, st: St, p: Project)
    requires StepSpec(v, env, e, st, p).0.Emitted?
    ensures FromProject(StepSpec(v, env, e, st, p).0.file, p)
  {
  }

  /**
   * The files come in the order of the projects crawled, at most one per
   * project entry: file `k` belongs to entry `idx[k]`, and `idx` increases.
   * This holds when every step produces files of its own project.
   */
  lemma {:induction false} CrawledInOrder(step: (St, Project) -> (Step, St), ps: seq<Project>, st: St) returns (idx: seq<nat>)
    requires forall s: St, p: Project :: step(s, p).0.Emitted? ==> FromProject(step(s, p).0.file, p)
    ensures var files := CrawlFrom(step, ps, st).files;
      && |idx| == |files|
      && (forall k :: 0 <= k < |idx| ==> idx[k] < |ps| && FromProject(files[k], ps[idx[k]]))
      && (forall k, l :: 0 <= k < l < |idx| ==> idx[k] < idx[l])
  {
    if ps == [] {
      idx := [];
    } else {
      var init, last := ps[..|ps| - 1], ps[|ps| - 1];
      var before := CrawledInOrder(step, init, st);
      var o := CrawlFrom(step, init, st);
      assert forall k :: 0 <= k < |before| ==> ps[before[k]] == init[before[k]];
      if o.error.None? && step(o.st, last).0.Emitted? {
        idx := before + [|ps| - 1];
      } else {
        idx := before;
      }
    }
  }

  /** Every crawled file carries the id and the path of a matched project, in the order they were matched. */
  lemma CrawlAllInOrder(v: Version, env: Env, e: Expression, st: St) returns (idx: seq<nat>)
    ensures var (projects, st1) := ProjectsLookup(env, st);
      var matched, files := MatchSpec(e.projects, projects), CrawlAll(v, env, e, st).files;
      && |idx| == |files|
      && (forall k :: 0 <= k < |idx| ==> idx[k] < |matched| && FromProject(files[k], matched[idx[k]]))
      && (forall k, l :: 0 <= k < l < |idx| ==> idx[k] < idx[l])
  {
    var step := StepFor(v, env, e);
    forall s: St, p: Project | step(s, p).0.Emitted?
      ensures FromProject(step(s, p).0.file, p)
    {
      StepFromProject(v, env, e, s, p);
    }
    var (projects, st1) := ProjectsLookup(env, st);
    idx := CrawledInOrder(step, MatchSpec(e.projects, projects), st1);
  }

  /** The whole crawl: at most one file per matched entry, so at most |patterns| * |projects|. */
  lemma CrawlAllBound(v: Version, env: Env, e: Expression, st: St)
    ensures |CrawlAll(v, env, e, st).files| <= |e.projects| * |ProjectsLookup(env, st).0|
  {
    var (projects, st1) := ProjectsLookup(env, st);
    CrawlFromBound(StepFor(v, env, e), MatchSpec(e.projects, projects), st1);
    MatchedBound(e.projects, projects);
  }

  /** Bad input fails before any cache or remote access. */
  lemma InvalidInputTouchesNothing(env: Env, text: string, st: St)
    requires Count(text, PartSeparator) != 2
    ensures CrawlSpec(env, TextArgument(text), st) == Outcome([], Some(InvalidExpression(text)), st)
    ensures LegacyCrawlSpec(env, text, st) == Outcome([], Some(InvalidFile()), st)
    ensures CrawlSpec(env, OtherArgument, st) == Outcome([], Some(InvalidArgument("Unsupported expression given.")), st)
  {
  }

  /** The legacy crawler's ad hoc splitting reads the same three levels `parse` does. */
  lemma LegacyLevelsAreParsed(text: string)
    requires Count(text, PartSeparator) == 2
    ensures Parse(text) == Success(LegacyLevels(text))
  {
  }

  /**
   * The generator delivers what it yielded before a later exception: the files
   * of any run of matched projects that raised nothing begin the crawl's output.
   */
  lemma GeneratorKeepsEarlierFiles(env: Env, e: Expression, st: St, i: nat)
    requires var (projects, st1) := ProjectsLookup(env, st);
      var matched := MatchSpec(e.projects, projects);
      i <= |matched| && CrawlFrom(StepFor(Current, env, e), matched[..i], st1).error.None?
    ensures var (projects, st1) := ProjectsLookup(env, st);
      var matched := MatchSpec(e.projects, projects);
      CrawlFrom(StepFor(Current, env, e), matched[..i], st1).files <= CrawlSpec(env, ExpressionArgument(e), st).files
  {
    var (projects, st1) := ProjectsLookup(env, st);
    CrawlFromKeepsPrefix(StepFor(Current, env, e), MatchSpec(e.projects, projects), i, st1);
  }

  /**
   * The legacy crawler's array is lost with an exception: once the walk over
   * some first `i` matched projects has raised one, the crawl returns no file
   * at all, and the exception it reports is that first one.
   */
  lemma LegacyExceptionLosesFiles(env: Env, text: string, st: St, i: nat)
    requires Count(text, PartSeparator) == 2
    requires var (projects, st1) := ProjectsLookup(env, st);
      var matched := MatchSpec(LegacyLevels(text).projects, projects);
      i <= |matched| && CrawlFrom(StepFor(Legacy, env, LegacyLevels(text)), matched[..i], st1).error.Some?
    ensures LegacyCrawlSpec(env, text, st).files == []
    ensures var (projects, st1) := ProjectsLookup(env, st);
      var matched := MatchSpec(LegacyLevels(text).projects, projects);
      LegacyCrawlSpec(env, text, st).error == CrawlFrom(StepFor(Legacy, env, LegacyLevels(text)), matched[..i], st1).error
  {
    var e := LegacyLevels(text);
    var (projects, st1) := ProjectsLookup(env, st);
    var matched := MatchSpec(e.projects, projects);
    CrawlFromErrorAt(StepFor(Legacy, env, e), matched, i, st1);
    var o := CrawlAll(Legacy, env, e, st);
    assert o == CrawlFrom(StepFor(Legacy, env, e), matched, st1);
    assert LegacyCrawlSpec(env, text, st) == Outcome([], o.error, o.st);
  }

  /** Without an exception the legacy crawler returns the whole walk. */
  lemma LegacyCrawlWithoutException(env: Env, text: string, st: St)
    requires Count(text, PartSeparator) == 2
    requires CrawlAll(Legacy, env, LegacyLevels(text), st).error.None?
    ensures LegacyCrawlSpec(env, text, st) == CrawlAll(Legacy, env, LegacyLevels(text), st)
  {
  }

  /**
   * At most one file per matched project entry in the legacy crawler too, and
   * none for a text that is not three `:`-separated levels.
   */
  lemma LegacyCrawlBound(env: Env, text: string, st: St)
    ensures Count(text, PartSeparator) != 2 ==> LegacyCrawlSpec(env, text, st).files == []
    ensures Count(text, PartSeparator) == 2 ==>
      |LegacyCrawlSpec(env, text, st).files| <= |MatchSpec(LegacyLevels(text).projects, ProjectsLookup(env, st).0)|
  {
    if Count(text, PartSeparator) == 2 {
      var (projects, st1) := ProjectsLookup(env, st);
      CrawlFromBound(StepFor(Legacy, env, LegacyLevels(text)), MatchSpec(LegacyLevels(text).projects, projects), st1);
    }
  }

  /** The parsed text and the expression object it parses to crawl alike. */
  lemma TextCrawlsAsParsed(env: Env, text: string, st: St)
    requires Count(text, PartSeparator) == 2
    ensures CrawlSpec(env, TextArgument(text), st) == CrawlSpec(env, ExpressionArgument(Parse(text).value), st)
  {
  }
}
