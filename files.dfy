/** The file system as the service sees it: each path names nothing, or an
    entry whose `stat()` and whose line-by-line read each either succeed or
    raise. */
module Files {
  import opened Text
  import opened Outcome

  /** What `Path(p)` finds. A directory is `Present` with a read that fails. */
  datatype Entry = Missing | Present(mtime: Result<real>, lines: Result<seq<String>>)

  type FileSystem = String -> Entry

  /** `Path(p).exists()` */
  predicate Exists(fs: FileSystem, p: String) {
    fs(p).Present?
  }

  /** The first of `paths` that exists, if any. */
  function FirstExisting(paths: seq<String>, fs: FileSystem): (r: Option<String>)
    ensures r.None? <==> forall i :: 0 <= i < |paths| ==> !Exists(fs, paths[i])
    ensures r.Some? ==> Exists(fs, r.value)
    ensures r.Some? ==> exists i :: 0 <= i < |paths| && paths[i] == r.value && Exists(fs, paths[i])
                                   && forall j :: 0 <= j < i ==> !Exists(fs, paths[j])
  {
    if paths == [] then None
    else if Exists(fs, paths[0]) then Some(paths[0])
    else
      var r := FirstExisting(paths[1..], fs);
      assert forall i :: 1 <= i < |paths| ==> paths[i] == paths[1..][i - 1];
      r
  }

  /** The loop over candidate paths that stops at the first one that exists. */
  method FindFirst(paths: seq<String>, fs: FileSystem) returns (r: Option<String>)
    ensures r == FirstExisting(paths, fs)
  {
    var i := 0;
    while i < |paths|
      invariant i <= |paths|
      invariant FirstExisting(paths[i..], fs) == FirstExisting(paths, fs)
    {
      if Exists(fs, paths[i]) {
        return Some(paths[i]);
      }
      assert paths[i..][1..] == paths[i + 1..];
      i := i + 1;
    }
    return None;
  }
}
