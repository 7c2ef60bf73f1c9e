/**
 * The remote GitLab service as the crawler sees it: the records it reads, the
 * calls it makes, and a finite snapshot of what each call answers. The HTTP
 * client itself is outside the model; an `Api` object replays the snapshot and
 * keeps a log of the calls made, so that the number and order of remote calls
 * can be stated.
 */
module Gitlab {
  import opened Wrappers

  /** A project of `projects->accessible`: its `id` and its `path_with_namespace`. */
  datatype Project = Project(id: int, pathWithNamespace: string)

  /** A branch of `repositories->branches`: its `name`. */
  datatype Branch = Branch(name: string)

  /** An entry of `repositories->tree`: its `path`. */
  datatype TreeItem = TreeItem(path: string)

  /** A file of `repositories->getFile`: `file_path`, `encoding` and the encoded `content`. */
  datatype FileRecord = FileRecord(filePath: string, encoding: string, content: string)

  /** The option array passed to `repositories->tree`: a `ref`, and a `recursive` flag when one is given. */
  datatype TreeOptions = TreeOptions(ref: string, recursive: Option<bool>)

  /** One remote call, as recorded in the call log. */
  datatype Call =
    | Accessible(page: int)
    | ListBranches(projectId: int)
    | ListTree(projectId: int, options: TreeOptions)
    | FetchFile(projectId: int, path: string, ref: string)

  /**
   * What the service answers. `pages[k]` is page `k + 1` of the accessible
   * projects; every later page is empty. A request missing from one of the
   * maps is a request the service refuses (an HTTP error).
   */
  datatype RemoteData = RemoteData(
    pages: seq<seq<Project>>,
    branches: map<int, seq<Branch>>,
    trees: map<(int, TreeOptions), seq<TreeItem>>,
    files: map<(int, string, string), FileRecord>)

  function AccessiblePage(data: RemoteData, page: int): (r: seq<Project>)
    ensures r != [] ==> 1 <= page <= |data.pages|
  {
    if 1 <= page <= |data.pages| then data.pages[page - 1] else []
  }

  function BranchesOf(data: RemoteData, projectId: int): Option<seq<Branch>>
  {
    if projectId in data.branches then Some(data.branches[projectId]) else None
  }

  function TreeOf(data: RemoteData, projectId: int, options: TreeOptions): Option<seq<TreeItem>>
  {
    if (projectId, options) in data.trees then Some(data.trees[(projectId, options)]) else None
  }

  function FileOf(data: RemoteData, projectId: int, path: string, ref: string): Option<FileRecord>
  {
    if (projectId, path, ref) in data.files then Some(data.files[(projectId, path, ref)]) else None
  }

  /** The record fields the crawler keys its collections by. */
  function ProjectPath(p: Project): string { p.pathWithNamespace }
  function BranchName(b: Branch): string { b.name }
  function ItemPath(t: TreeItem): string { t.path }

  /** The API client: answers from `data` and appends every call to `calls`. */
  class Api {
    const data: RemoteData
    var calls: seq<Call>

    constructor (data: RemoteData)
      ensures this.data == data && calls == []
    {
      this.data := data;
      calls := [];
    }

    method Accessible(page: int) returns (projects: seq<Project>)
      modifies this
      ensures projects == AccessiblePage(data, page)
      ensures calls == old(calls) + [Call.Accessible(page)]
    {
      projects := AccessiblePage(data, page);
      calls := calls + [Call.Accessible(page)];
    }

    method Branches(projectId: int) returns (branches: Option<seq<Branch>>)
      modifies this
      ensures branches == BranchesOf(data, projectId)
      ensures calls == old(calls) + [ListBranches(projectId)]
    {
      branches := BranchesOf(data, projectId);
      calls := calls + [ListBranches(projectId)];
    }

    method Tree(projectId: int, options: TreeOptions) returns (tree: Option<seq<TreeItem>>)
      modifies this
      ensures tree == TreeOf(data, projectId, options)
      ensures calls == old(calls) + [ListTree(projectId, options)]
    {
      tree := TreeOf(data, projectId, options);
      calls := calls + [ListTree(projectId, options)];
    }

    method GetFile(projectId: int, path: string, ref: string) returns (file: Option<FileRecord>)
      modifies this
      ensures file == FileOf(data, projectId, path, ref)
      ensures calls == old(calls) + [FetchFile(projectId, path, ref)]
    {
      file := FileOf(data, projectId, path, ref);
      calls := calls + [FetchFile(projectId, path, ref)];
    }
  }
}

/** The exceptions the crawler raises or lets through. */
module Errors {
  import Gitlab

  datatype Error =
    | InvalidArgument(message: string)     // \InvalidArgumentException
    | Runtime(message: string)             // \RuntimeException
    | RemoteFailure(call: Gitlab.Call)     // an exception of the API client, passed through
}
