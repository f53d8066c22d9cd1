/** Choosing the files to blame: listing the given paths, dropping the git
    directory and the excluded paths, and sorting what is left the way
    `std::sort` orders `std::filesystem::path` values. */
module Selection {
  import opened Strings
  import opened Ordering

  /** The separator of a POSIX path. */
  const Separator: char := '/'

  /** Every path containing this is skipped: the `.git` directory, and with
      it anything else whose name contains `.git` (`.gitignore`, `.github`). */
  const GitDir: string := ".git"

  /** The length of the first component of `s`: the index of its first
      separator, or `|s|` when it has none. */
  function ComponentLength(s: string): (n: nat)
    ensures n <= |s|
    ensures forall k :: 0 <= k < n ==> s[k] != Separator
    ensures n < |s| ==> s[n] == Separator
    decreases |s|
  {
    if s == [] || s[0] == Separator then 0 else 1 + ComponentLength(s[1..])
  }

  /** The names along a path, as the path's iterator yields them after its
      root: the text between separators, empty ones left out. */
  function Components(s: string): (r: seq<string>)
    ensures forall i :: 0 <= i < |r| ==> r[i] != [] && Separator !in r[i]
    decreases |s|
  {
    var n := ComponentLength(s);
    if n == |s| then (if s == [] then [] else [s])
    else if n == 0 then Components(s[1..])
    else [s[..n]] + Components(s[n + 1..])
  }

  /** The path has a root directory. */
  predicate Rooted(p: string) {
    |p| > 0 && p[0] == Separator
  }

  /** Lexicographic order on sequences of names, each name compared as a
      string. */
  predicate NamesLe(a: seq<string>, b: seq<string>)
    decreases |a|
  {
    if a == [] then true
    else if b == [] then false
    else if a[0] != b[0] then StrLe(a[0], b[0])
    else NamesLe(a[1..], b[1..])
  }

  /** `p.compare(q) <= 0` for two POSIX paths: a relative path comes before
      a rooted one; otherwise the names are compared one by one. */
  predicate PathLe(p: string, q: string) {
    if Rooted(p) != Rooted(q) then !Rooted(p)
    else NamesLe(Components(p), Components(q))
  }

  lemma {:induction false} NamesLeTotal(a: seq<string>, b: seq<string>)
    ensures NamesLe(a, b) || NamesLe(b, a)
    decreases |a|
  {
    if a != [] && b != [] {
      if a[0] == b[0] {
        NamesLeTotal(a[1..], b[1..]);
      } else {
        StrLeTotal(a[0], b[0]);
      }
    }
  }

  lemma {:induction false} NamesLeTransitive(a: seq<string>, b: seq<string>, c: seq<string>)
    requires NamesLe(a, b) && NamesLe(b, c)
    ensures NamesLe(a, c)
    decreases |a|
  {
    if a != [] && b != [] && c != [] {
      if a[0] == b[0] && b[0] == c[0] {
        NamesLeTransitive(a[1..], b[1..], c[1..]);
      } else if a[0] == b[0] {
      } else if b[0] == c[0] {
      } else {
        StrLeTransitive(a[0], b[0], c[0]);
        if a[0] == c[0] {
          StrLeAntisymmetric(a[0], b[0]);
        }
      }
    }
  }

  /** The path order is total and transitive, so `std::sort` may use it. */
  lemma PathLeIsPreorder()
    ensures Total(PathLe) && Transitive(PathLe)
  {
    forall p, q
      ensures PathLe(p, q) || PathLe(q, p)
    {
      NamesLeTotal(Components(p), Components(q));
    }
    forall p, q, r | PathLe(p, q) && PathLe(q, r)
      ensures PathLe(p, r)
    {
      if Rooted(p) == Rooted(q) == Rooted(r) {
        NamesLeTransitive(Components(p), Components(q), Components(r));
      }
    }
  }

  /** A path is processed when it contains neither `.git` nor any excluded
      path as a substring. */
  predicate Passes(file: string, excludedPaths: seq<string>) {
    && !Contains(file, GitDir)
    && forall e :: e in excludedPaths ==> !Contains(file, e)
  }

  /** The paths that pass, in their input order, repeats kept. */
  function Kept(files: seq<string>, excludedPaths: seq<string>): seq<string>
    decreases |files|
  {
    if files == [] then []
    else Kept(files[..|files| - 1], excludedPaths) +
         (if Passes(files[|files| - 1], excludedPaths) then [files[|files| - 1]] else [])
  }

  /** Each path that passes is kept as many times as it is given, and no
      other path is kept: the filter is sound, complete, and does not
      remove duplicates. */
  lemma {:induction false} KeptCount(files: seq<string>, excludedPaths: seq<string>, f: string)
    ensures multiset(Kept(files, excludedPaths))[f]
            == if Passes(f, excludedPaths) then multiset(files)[f] else 0
    decreases |files|
  {
    if files != [] {
      var init := files[..|files| - 1];
      KeptCount(init, excludedPaths, f);
      assert files == init + [files[|files| - 1]];
    }
  }

  /** The filter loop of `main`: the paths to process, sorted. */
  method SelectFiles(allFiles: seq<string>, excludedPaths: seq<string>) returns (filesToProcess: seq<string>)
    ensures multiset(filesToProcess) == multiset(Kept(allFiles, excludedPaths))
    ensures SortedBy(filesToProcess, PathLe)
  {
    var kept: seq<string> := [];
    for i := 0 to |allFiles|
      invariant kept == Kept(allFiles[..i], excludedPaths)
    {
      var file := allFiles[i];
      assert allFiles[..i + 1][..i] == allFiles[..i];
      if Contains(file, GitDir) {
        continue;
      }
      if exists e :: e in excludedPaths && Contains(file, e) {
        continue;
      }
      kept := kept + [file];
    }
    assert allFiles[..|allFiles|] == allFiles;
    PathLeIsPreorder();
    filesToProcess := SortBy(kept, PathLe);
  }

  /** What the listing loop of `main` collects: a directory contributes the
      entries of its recursive walk that are not directories, any other
      path itself. */
  function ListedFiles(paths: seq<string>, isDirectory: string -> bool, walk: string -> seq<string>): seq<string>
    decreases |paths|
  {
    if paths == [] then []
    else
      var p := paths[|paths| - 1];
      ListedFiles(paths[..|paths| - 1], isDirectory, walk) +
      (if isDirectory(p) then NonDirectories(walk(p), isDirectory) else [p])
  }

  /** The entries that are not directories, in walk order. */
  function NonDirectories(entries: seq<string>, isDirectory: string -> bool): seq<string>
    decreases |entries|
  {
    if entries == [] then []
    else NonDirectories(entries[..|entries| - 1], isDirectory) +
         (if isDirectory(entries[|entries| - 1]) then [] else [entries[|entries| - 1]])
  }

  /** No directory is listed, and every listed path is a given path or an
      entry of a given directory's walk. */
  lemma {:induction false} ListedSound(paths: seq<string>, isDirectory: string -> bool,
                                       walk: string -> seq<string>, f: string)
    requires f in ListedFiles(paths, isDirectory, walk)
    ensures !isDirectory(f)
    ensures f in paths || exists p :: p in paths && isDirectory(p) && f in walk(p)
    decreases |paths|
  {
    var last := paths[|paths| - 1];
    var init := paths[..|paths| - 1];
    if f in ListedFiles(init, isDirectory, walk) {
      ListedSound(init, isDirectory, walk, f);
      if f !in init {
        var p :| p in init && isDirectory(p) && f in walk(p);
        assert p in paths;
      }
    } else if isDirectory(last) {
      NonDirectoriesSound(walk(last), isDirectory, f);
    }
  }

  lemma {:induction false} NonDirectoriesSound(entries: seq<string>, isDirectory: string -> bool, f: string)
    requires f in NonDirectories(entries, isDirectory)
    ensures !isDirectory(f) && f in entries
    decreases |entries|
  {
    if f in NonDirectories(entries[..|entries| - 1], isDirectory) {
      NonDirectoriesSound(entries[..|entries| - 1], isDirectory, f);
    }
  }

  /** Every given path that is not a directory, and every entry of a given
      directory's walk that is not a directory, is listed. */
  lemma {:induction false} ListedComplete(paths: seq<string>, isDirectory: string -> bool,
                                          walk: string -> seq<string>, p: string, f: string)
    requires p in paths && !isDirectory(f)
    requires if isDirectory(p) then f in walk(p) else f == p
    ensures f in ListedFiles(paths, isDirectory, walk)
    decreases |paths|
  {
    var last := paths[|paths| - 1];
    var init := paths[..|paths| - 1];
    if p in init {
      ListedComplete(init, isDirectory, walk, p, f);
    } else {
      assert p == last;
      if isDirectory(p) {
        NonDirectoriesComplete(walk(p), isDirectory, f);
      }
    }
  }

  lemma {:induction false} NonDirectoriesComplete(entries: seq<string>, isDirectory: string -> bool, f: string)
    requires f in entries && !isDirectory(f)
    ensures f in NonDirectories(entries, isDirectory)
    decreases |entries|
  {
    if f in entries[..|entries| - 1] {
      NonDirectoriesComplete(entries[..|entries| - 1], isDirectory, f);
    } else {
      assert entries == entries[..|entries| - 1] + [entries[|entries| - 1]];
    }
  }

  /** The listing loop of `main`, with `fs::is_directory` and
      `fs::recursive_directory_iterator` given as functions. */
  method ListFiles(paths: seq<string>, isDirectory: string -> bool, walk: string -> seq<string>)
    returns (allFiles: seq<string>)
    ensures allFiles == ListedFiles(paths, isDirectory, walk)
  {
    allFiles := [];
    for i := 0 to |paths|
      invariant allFiles == ListedFiles(paths[..i], isDirectory, walk)
    {
      var path := paths[i];
      assert paths[..i + 1][..i] == paths[..i];
      if isDirectory(path) {
        var entries := walk(path);
        ghost var before := allFiles;
        for j := 0 to |entries|
          invariant allFiles == before + NonDirectories(entries[..j], isDirectory)
        {
          assert entries[..j + 1][..j] == entries[..j];
          if !isDirectory(entries[j]) {
            allFiles := allFiles + [entries[j]];
          }
        }
        assert entries[..|entries|] == entries;
      } else {
        allFiles := allFiles + [path];
      }
    }
    assert paths[..|paths|] == paths;
  }
}
