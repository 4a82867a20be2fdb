/**
 * The file collector of `ripwc` (src/main.rs): it walks the directory-walk
 * items in order, keeps the paths of the entries that are regular files,
 * reports every walk error to standard error, and stops after the first file
 * it keeps when recursion is off. The walk itself is an input sequence.
 */
module Collect {
  /** One item of the directory walk: an entry, with whether it is a regular file and its path, or a walk error. */
  datatype WalkEntry = Ok(isFile: bool, path: string) | Err(error: string)

  predicate IsFile(e: WalkEntry) { e.Ok? && e.isFile }

  /** The paths of the regular-file entries, in walk order. */
  function FilePaths(entries: seq<WalkEntry>): (r: seq<string>)
    ensures |r| <= |entries|
  {
    if entries == [] then []
    else
      var last := entries[|entries| - 1];
      FilePaths(entries[..|entries| - 1]) + (if IsFile(last) then [last.path] else [])
  }

  /** The messages of the walk errors, in walk order. */
  function Errors(entries: seq<WalkEntry>): (r: seq<string>)
    ensures |r| <= |entries|
  {
    if entries == [] then []
    else
      var last := entries[|entries| - 1];
      Errors(entries[..|entries| - 1]) + (if last.Err? then [last.error] else [])
  }

  /**
   * How many entries a walk that stops after its first regular file visits:
   * all of them when none is a file, otherwise up to and including the first file.
   */
  function FirstFileEnd(entries: seq<WalkEntry>): (k: nat)
    ensures k <= |entries|
    ensures (k == |entries| && forall j :: 0 <= j < k ==> !IsFile(entries[j]))
         || (0 < k && IsFile(entries[k - 1]) && forall j :: 0 <= j < k - 1 ==> !IsFile(entries[j]))
  {
    if entries == [] then 0
    else if IsFile(entries[0]) then 1
    else 1 + FirstFileEnd(entries[1..])
  }

  /** The first of the paths, if there is one: what is kept without recursion. */
  function FirstOnly(paths: seq<string>): (r: seq<string>)
    ensures |r| <= 1
    ensures paths != [] <==> r != []
    ensures r != [] ==> r[0] == paths[0]
  {
    if paths == [] then [] else [paths[0]]
  }

  /**
   * The collection loop. With recursion on, the result is every regular-file
   * path in walk order; with it off, only the first one (none if there is
   * none). `errors` is what is reported to standard error: the walk errors
   * met before the loop stopped.
   */
  method CollectFiles(entries: seq<WalkEntry>, recursive: bool) returns (files: seq<string>, errors: seq<string>)
    ensures files == if recursive then FilePaths(entries) else FirstOnly(FilePaths(entries))
    ensures errors == Errors(entries[..if recursive then |entries| else FirstFileEnd(entries)])
  {
    files, errors := [], [];
    var i := 0;
    while i < |entries|
      invariant 0 <= i <= |entries|
      invariant files == FilePaths(entries[..i])
      invariant errors == Errors(entries[..i])
      invariant !recursive ==> files == [] && FirstFileEnd(entries) == i + FirstFileEnd(entries[i..])
    {
      CollectStep(entries, i);
      FirstFileEndStep(entries, i);
      match entries[i] {
        case Ok(isFile, path) =>
          if isFile {
            files := files + [path];
            if !recursive {
              FirstFileIsFirstPath(entries, i);
              break;
            }
          }
        case Err(e) =>
          errors := errors + [e];
      }
      i := i + 1;
    }
    if i == |entries| {
      assert entries[..i] == entries;
      assert entries[i..] == [];
    }
  }

  /** One more walk entry adds its path when it is a regular file, and its message when it is an error. */
  lemma CollectStep(entries: seq<WalkEntry>, i: nat)
    requires i < |entries|
    ensures FilePaths(entries[..i + 1]) == FilePaths(entries[..i]) + (if IsFile(entries[i]) then [entries[i].path] else [])
    ensures Errors(entries[..i + 1]) == Errors(entries[..i]) + (if entries[i].Err? then [entries[i].error] else [])
  {
    assert entries[..i + 1][..i] == entries[..i];
  }

  lemma {:induction false} FilePathsAppend(a: seq<WalkEntry>, b: seq<WalkEntry>)
    ensures FilePaths(a + b) == FilePaths(a) + FilePaths(b)
  {
    if b == [] {
      assert a + b == a;
    } else {
      assert (a + b)[..|a + b| - 1] == a + b[..|b| - 1];
      FilePathsAppend(a, b[..|b| - 1]);
    }
  }

  lemma {:induction false} NoFileNoPaths(entries: seq<WalkEntry>)
    requires forall j :: 0 <= j < |entries| ==> !IsFile(entries[j])
    ensures FilePaths(entries) == []
  {
    if entries != [] {
      NoFileNoPaths(entries[..|entries| - 1]);
    }
  }

  /** Appending a regular file to a walk with no regular file yet gives exactly that file's path. */
  lemma FirstPathAt(entries: seq<WalkEntry>, i: nat)
    requires i < |entries| && IsFile(entries[i])
    requires FilePaths(entries[..i]) == []
    ensures FilePaths(entries[..i + 1]) == [entries[i].path]
  {
    var before, upTo := entries[..i], entries[..i + 1];
    assert upTo[..|upTo| - 1] == before;
    assert upTo[|upTo| - 1] == entries[i];
  }

  /** When entry `i` is the first regular file, its path is the first path. */
  lemma FirstFileIsFirstPath(entries: seq<WalkEntry>, i: nat)
    requires i < |entries| && IsFile(entries[i])
    requires FilePaths(entries[..i]) == []
    ensures FirstOnly(FilePaths(entries)) == [entries[i].path]
  {
    FirstPathAt(entries, i);
    var upTo, after := entries[..i + 1], entries[i + 1..];
    assert entries == upTo + after;
    FilePathsAppend(upTo, after);
  }

  /** Where the walk stops, counted from entry `i`: right after it when it is a file, otherwise further on. */
  lemma FirstFileEndStep(entries: seq<WalkEntry>, i: nat)
    requires i < |entries|
    ensures FirstFileEnd(entries[i..]) == if IsFile(entries[i]) then 1 else 1 + FirstFileEnd(entries[i + 1..])
  {
    assert entries[i..][1..] == entries[i + 1..];
  }

  /** A path is collected with recursion on exactly when some walk entry is a regular file with that path; errors never contribute. */
  lemma {:induction false} FilePathsMembership(entries: seq<WalkEntry>, p: string)
    ensures p in FilePaths(entries) <==> exists j :: 0 <= j < |entries| && entries[j] == Ok(true, p)
  {
    if entries != [] {
      var n := |entries| - 1;
      FilePathsMembership(entries[..n], p);
      if p in FilePaths(entries[..n]) {
        var j :| 0 <= j < n && entries[..n][j] == Ok(true, p);
        assert entries[j] == Ok(true, p);
      }
      if exists j :: 0 <= j < |entries| && entries[j] == Ok(true, p) {
        var j :| 0 <= j < |entries| && entries[j] == Ok(true, p);
        if j < n { assert entries[..n][j] == Ok(true, p); }
      }
    }
  }

  /** Removing walk errors from the walk changes nothing about the collected paths. */
  lemma {:induction false} ErrorsDoNotContribute(a: seq<WalkEntry>, e: string, b: seq<WalkEntry>)
    ensures FilePaths(a + [Err(e)] + b) == FilePaths(a + b)
  {
    FilePathsAppend(a + [Err(e)], b);
    FilePathsAppend(a, [Err(e)]);
    FilePathsAppend(a, b);
    assert FilePaths([Err(e)]) == [] by {
      assert [Err(e)][..0] == [];
    }
  }
}
