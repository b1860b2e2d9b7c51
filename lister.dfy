/** The file lister: the regular files of one directory, in listing order. */
module Lister {
  import opened Paths

  /** One directory entry as the operating system lists it; `isFile` is what
      `os.path.isfile` reports for it (symbolic links are followed, a broken
      link or a sub-directory is not a file). */
  datatype Entry = Entry(name: string, isFile: bool)

  /** What the input directory looks like when it is listed: absent, present
      but not listable (no permission, or not a directory at all), or listed. */
  datatype Directory = Missing | Unlistable | Listing(entries: seq<Entry>)

  /** A listed name is never empty and never holds a separator. */
  predicate ValidName(name: string) {
    name != [] && Sep !in name
  }

  predicate ValidListing(d: Directory) {
    d.Listing? ==> forall i :: 0 <= i < |d.entries| ==> ValidName(d.entries[i].name)
  }

  /** The joined paths of the entries that are regular files, in order. */
  function FilePaths(dir: string, es: seq<Entry>): seq<string>
    decreases |es|
  {
    if es == [] then []
    else
      var last := es[|es| - 1];
      FilePaths(dir, es[..|es| - 1]) + (if last.isFile then [Join(dir, last.name)] else [])
  }

  /** What the lister returns for a directory. */
  function Listed(dir: string, d: Directory): seq<string> {
    if d.Listing? then FilePaths(dir, d.entries) else []
  }

  /** Listing one more entry adds its path when it is a regular file. */
  lemma FilePathsStep(dir: string, es: seq<Entry>, i: nat)
    requires i < |es|
    ensures FilePaths(dir, es[..i + 1]) ==
      FilePaths(dir, es[..i]) + (if es[i].isFile then [Join(dir, es[i].name)] else [])
  {
    assert es[..i + 1][..i] == es[..i];
  }

  /** Lists the regular files of `dir`. A missing directory gives the empty
      list; an error while enumerating is swallowed and what was gathered
      so far is returned. The enumeration is taken in one step before the
      loop, so at that point nothing has been gathered. */
  method ListFiles(dir: string, d: Directory) returns (files: seq<string>)
    ensures files == Listed(dir, d)
  {
    files := [];
    if d.Missing? {
      return [];
    }
    if d.Unlistable? {
      return files;
    }
    var es := d.entries;
    for i := 0 to |es|
      invariant files == FilePaths(dir, es[..i])
    {
      FilePathsStep(dir, es, i);
      if es[i].isFile {
        files := files + [Join(dir, es[i].name)];
      }
    }
    assert es[..|es|] == es;
  }

  /** Entry `i` is a regular file whose joined path is `x`. */
  predicate FileAt(dir: string, es: seq<Entry>, i: int, x: string) {
    0 <= i < |es| && es[i].isFile && x == Join(dir, es[i].name)
  }

  /** A path is listed exactly when it is the join of some entry that is a
      regular file. */
  lemma {:induction false} FilePathsMembers(dir: string, es: seq<Entry>, x: string)
    ensures x in FilePaths(dir, es) <==> exists i :: FileAt(dir, es, i, x)
    decreases |es|
  {
    if es != [] {
      var n := |es| - 1;
      var init := es[..n];
      var tail := if es[n].isFile then [Join(dir, es[n].name)] else [];
      FilePathsStep(dir, es, n);
      assert es[..n + 1] == es;
      assert FilePaths(dir, es) == FilePaths(dir, init) + tail;
      FilePathsMembers(dir, init, x);
      assert forall i :: FileAt(dir, init, i, x) <==> i < n && FileAt(dir, es, i, x);
      assert x in tail <==> FileAt(dir, es, n, x);
    }
  }

  /** Listing keeps the order of the entries: the files of a concatenation
      are the files of the first part followed by those of the second. */
  lemma {:induction false} FilePathsConcat(dir: string, a: seq<Entry>, b: seq<Entry>)
    ensures FilePaths(dir, a + b) == FilePaths(dir, a) + FilePaths(dir, b)
    decreases |b|
  {
    if b == [] {
      assert a + b == a;
    } else {
      var init := b[..|b| - 1];
      FilePathsConcat(dir, a, init);
      assert (a + b)[..|a + b| - 1] == a + init;
      assert (a + b)[|a + b| - 1] == b[|b| - 1];
    }
  }

  /** A directory holding no regular file lists as empty. */
  lemma {:induction false} NoFilesListEmpty(dir: string, es: seq<Entry>)
    requires forall i :: 0 <= i < |es| ==> !es[i].isFile
    ensures FilePaths(dir, es) == []
    decreases |es|
  {
    if es != [] {
      NoFilesListEmpty(dir, es[..|es| - 1]);
    }
  }

  /** Every listed path ends in the base name of the entry it came from. */
  lemma ListedBasename(dir: string, d: Directory, p: string)
    requires ValidListing(d) && p in Listed(dir, d)
    ensures exists i :: FileAt(dir, d.entries, i, p) && Basename(p) == d.entries[i].name
  {
    FilePathsMembers(dir, d.entries, p);
    var i :| FileAt(dir, d.entries, i, p);
    BasenameOfJoin(dir, d.entries[i].name);
  }
}
