/**
 * `CrawledFile`: the mutable result record. Every field starts out null and
 * has a setter that stores any value, null included, and a getter.
 */
module Results {
  import opened Wrappers

  /** The five fields of a record at one moment. */
  datatype FileView = FileView(
    projectId: Option<int>,
    projectName: Option<string>,
    branchName: Option<string>,
    path: Option<string>,
    contents: Option<string>)

  const Blank := FileView(None, None, None, None, None)

  class CrawledFile {
    var projectId: Option<int>
    var projectName: Option<string>
    var branchName: Option<string>
    var path: Option<string>
    var contents: Option<string>

    function View(): FileView
      reads this
    {
      FileView(projectId, projectName, branchName, path, contents)
    }

    constructor ()
      ensures View() == Blank
    {
      projectId, projectName, branchName, path, contents := None, None, None, None, None;
    }

    method GetProjectId() returns (r: Option<int>)
      ensures r == View().projectId
    {
      r := projectId;
    }

    method SetProjectId(v: Option<int>)
      modifies this
      ensures View() == old(View()).(projectId := v)
    {
      projectId := v;
    }

    method GetProjectName() returns (r: Option<string>)
      ensures r == View().projectName
    {
      r := projectName;
    }

    method SetProjectName(v: Option<string>)
      modifies this
      ensures View() == old(View()).(projectName := v)
    {
      projectName := v;
    }

    method GetBranchName() returns (r: Option<string>)
      ensures r == View().branchName
    {
      r := branchName;
    }

    method SetBranchName(v: Option<string>)
      modifies this
      ensures View() == old(View()).(branchName := v)
    {
      branchName := v;
    }

    method GetPath() returns (r: Option<string>)
      ensures r == View().path
    {
      r := path;
    }

    method SetPath(v: Option<string>)
      modifies this
      ensures View() == old(View()).(path := v)
    {
      path := v;
    }

    method GetContents() returns (r: Option<string>)
      ensures r == View().contents
    {
      r := contents;
    }

    method SetContents(v: Option<string>)
      modifies this
      ensures View() == old(View()).(contents := v)
    {
      contents := v;
    }
  }

  /** The records' contents, in order. */
  ghost function Views(fs: seq<CrawledFile>): (vs: seq<FileView>)
    reads fs
    ensures |vs| == |fs| && forall i :: 0 <= i < |fs| ==> vs[i] == fs[i].View()
  {
    if fs == [] then [] else Views(fs[..|fs| - 1]) + [fs[|fs| - 1].View()]
  }
}
