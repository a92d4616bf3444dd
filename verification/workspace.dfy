/** Where a library is staged: a `libs` folder beside the job's workspace, one sub-folder per library. */
module Workspace {
  import opened Wrappers
  import opened Errors

  /** The workspace-list suffix when the system property does not set one. */
  const DefaultSuffix: string := "@"

  /** `getFilePathSuffix`: the system property's value if it is set, else "@". */
  function FilePathSuffix(property: Option<string>): (s: string)
    ensures property.Some? ==> s == property.value
    ensures property.None? ==> s == DefaultSuffix
  {
    property.GetOr(DefaultSuffix)
  }

  /** `FilePath.withSuffix`: the same path with `suffix` appended to its last name. */
  function WithSuffix(path: string, suffix: string): string {
    path + suffix
  }

  /** `FilePath.child`: the entry `name` inside directory `path`. */
  function Child(path: string, name: string): string {
    path + "/" + name
  }

  /** `getDownloadFolder`: for a top-level item with a workspace, the folder `name` inside the
      workspace path suffixed with `suffix` and "libs"; an error for an item that is not top
      level, or whose workspace is unavailable. */
  function DownloadFolder(topLevel: bool, workspace: Option<string>, suffix: string, name: string,
                          displayName: string): (r: Result<string, Error>)
    ensures !topLevel ==> r == Err(NotTopLevel)
    ensures topLevel && workspace.None? ==> r == Err(Offline(displayName))
    ensures topLevel && workspace.Some? ==> r.Ok?
    ensures r.Ok? ==> var prefix := workspace.value + suffix + "libs/";
      && |r.value| == |prefix| + |name|
      && r.value[..|prefix|] == prefix
      && r.value[|prefix|..] == name
  {
    if topLevel then
      match workspace
      case None => Err(Offline(displayName))
      case Some(base) => Ok(Child(WithSuffix(base, suffix + "libs"), name))
    else
      Err(NotTopLevel)
  }

  /** Two libraries of the same job with plain names (no separator, not empty, not a dot name)
      are never staged in the same folder. */
  lemma {:induction false} DownloadFolderSeparatesLibraries(workspace: string, suffix: string, name1: string,
                                                            name2: string, displayName: string)
    requires name1 != name2
    requires '/' !in name1 && '/' !in name2
    requires name1 !in {"", ".", ".."} && name2 !in {"", ".", ".."}
    ensures DownloadFolder(true, Some(workspace), suffix, name1, displayName)
         != DownloadFolder(true, Some(workspace), suffix, name2, displayName)
  {
  }
}
