/** The loop of `main` that blames every selected file and adds its counts
    into one record (`kudos += calcKudos(file)`). The blame output of each
    file is given as a function from path to lines. */
module Report {
  import opened Counts
  import opened KudosRecord
  import opened Blame

  /** The counters that `calcKudos` produces for one file. */
  function FileCounts(path: string, lines: seq<string>, thisAuthor: string): Counts {
    ScanLines(path, thisAuthor, ScanState("", Empty, {}, map[]), lines).counts
  }

  /** The counters of all files, added up in order. */
  function Combined(files: seq<string>, blame: string -> seq<string>, thisAuthor: string): Counts
    decreases |files|
  {
    if files == [] then Empty
    else
      var last := files[|files| - 1];
      Merge(Combined(files[..|files| - 1], blame, thisAuthor), FileCounts(last, blame(last), thisAuthor))
  }

  /** The number of lines that count a line, over all files. */
  function TotalMailLines(files: seq<string>, blame: string -> seq<string>, thisAuthor: string): nat
    decreases |files|
  {
    if files == [] then 0
    else TotalMailLines(files[..|files| - 1], blame, thisAuthor) + MailLines(blame(files[|files| - 1]), thisAuthor)
  }

  /** The number of lines that count `email`, over all files. */
  function AuthorTotal(files: seq<string>, blame: string -> seq<string>, thisAuthor: string, email: string): nat
    decreases |files|
  {
    if files == [] then 0
    else AuthorTotal(files[..|files| - 1], blame, thisAuthor, email) +
         Occurrences(blame(files[|files| - 1]), thisAuthor, email)
  }

  /** The number of lines that count `email` in `file`, once for every time
      `file` is listed. */
  function AuthorFileTotal(files: seq<string>, blame: string -> seq<string>, thisAuthor: string,
                           email: string, file: string): nat
    decreases |files|
  {
    if files == [] then 0
    else AuthorFileTotal(files[..|files| - 1], blame, thisAuthor, email, file) +
         (if files[|files| - 1] == file then Occurrences(blame(file), thisAuthor, email) else 0)
  }

  /** The addresses counted in any file. */
  function AllEmails(files: seq<string>, blame: string -> seq<string>, thisAuthor: string): set<string>
    decreases |files|
  {
    if files == [] then {}
    else AllEmails(files[..|files| - 1], blame, thisAuthor) + EmailsIn(blame(files[|files| - 1]), thisAuthor)
  }

  /** The registry (`_authors`, `_authorName`) after the loop: each file's
      scan starts from the registry the previous files left behind. */
  datatype Registry = Registry(authors: set<string>, authorName: map<string, string>)

  function RegistryAfter(files: seq<string>, blame: string -> seq<string>, thisAuthor: string, r: Registry): Registry
    decreases |files|
  {
    if files == [] then r
    else
      var prev := RegistryAfter(files[..|files| - 1], blame, thisAuthor, r);
      var last := files[|files| - 1];
      var st := ScanLines(last, thisAuthor, ScanState("", Empty, prev.authors, prev.authorName), blame(last));
      Registry(st.authors, st.authorName)
  }

  /** Over all files the registry gains exactly the addresses counted in any
      of them. */
  lemma {:induction false} RegistryAuthors(files: seq<string>, blame: string -> seq<string>, thisAuthor: string,
                                           r: Registry)
    ensures RegistryAfter(files, blame, thisAuthor, r).authors == r.authors + AllEmails(files, blame, thisAuthor)
    decreases |files|
  {
    if files != [] {
      var prev := RegistryAfter(files[..|files| - 1], blame, thisAuthor, r);
      var last := files[|files| - 1];
      RegistryAuthors(files[..|files| - 1], blame, thisAuthor, r);
      ScanAuthors(last, thisAuthor, ScanState("", Empty, prev.authors, prev.authorName), blame(last));
    }
  }

  /** Over all files, a name is written only on an address's first sighting:
      every registered address keeps its name, and every address has one. */
  lemma {:induction false} RegistryNames(files: seq<string>, blame: string -> seq<string>, thisAuthor: string,
                                         r: Registry)
    requires r.authorName.Keys == r.authors
    ensures var r' := RegistryAfter(files, blame, thisAuthor, r);
            && r'.authorName.Keys == r'.authors
            && r.authors <= r'.authors
            && forall e :: e in r.authors ==> r'.authorName[e] == r.authorName[e]
    decreases |files|
  {
    if files != [] {
      var prev := RegistryAfter(files[..|files| - 1], blame, thisAuthor, r);
      var last := files[|files| - 1];
      RegistryNames(files[..|files| - 1], blame, thisAuthor, r);
      RegistryAuthors(files[..|files| - 1], blame, thisAuthor, r);
      ScanRegistry(last, thisAuthor, ScanState("", Empty, prev.authors, prev.authorName), blame(last));
    }
  }

  /** The counters of a scan do not depend on the registry or the pending
      name it starts from. */
  lemma {:induction false} ScanCountsOnly(path: string, thisAuthor: string, st: ScanState, st': ScanState,
                                          lines: seq<string>)
    requires st.counts == st'.counts
    ensures ScanLines(path, thisAuthor, st, lines).counts == ScanLines(path, thisAuthor, st', lines).counts
    decreases |lines|
  {
    if lines != [] {
      ScanCountsOnly(path, thisAuthor, st, st', lines[..|lines| - 1]);
    }
  }

  /** The combined record is valid: conserved, nothing listed at zero. */
  lemma {:induction false} CombinedValid(files: seq<string>, blame: string -> seq<string>, thisAuthor: string)
    ensures Valid(Combined(files, blame, thisAuthor))
    decreases |files|
  {
    EmptyValid();
    if files != [] {
      var last := files[|files| - 1];
      CombinedValid(files[..|files| - 1], blame, thisAuthor);
      ScanValid(last, thisAuthor, ScanState("", Empty, {}, map[]), blame(last));
      MergeValid(Combined(files[..|files| - 1], blame, thisAuthor), FileCounts(last, blame(last), thisAuthor));
    }
  }

  /** The total is the number of counted lines over all files. */
  lemma {:induction false} CombinedTotal(files: seq<string>, blame: string -> seq<string>, thisAuthor: string)
    ensures Combined(files, blame, thisAuthor).totalLines == TotalMailLines(files, blame, thisAuthor)
    decreases |files|
  {
    if files != [] {
      var last := files[|files| - 1];
      CombinedTotal(files[..|files| - 1], blame, thisAuthor);
      ScanTotal(last, thisAuthor, ScanState("", Empty, {}, map[]), blame(last));
    }
  }

  /** Each author's count is the number of lines counted for that author
      over all files, and each (author, file) count the number counted in
      that file, as many times as the file is listed. */
  lemma {:induction false} CombinedAuthor(files: seq<string>, blame: string -> seq<string>, thisAuthor: string,
                                          email: string, file: string)
    ensures var c := Combined(files, blame, thisAuthor);
            && Get(c.authorLines, email) == AuthorTotal(files, blame, thisAuthor, email)
            && Get(Files(c.authorFileLines, email), file) == AuthorFileTotal(files, blame, thisAuthor, email, file)
    decreases |files|
  {
    if files != [] {
      var init := files[..|files| - 1];
      var last := files[|files| - 1];
      var prev := Combined(init, blame, thisAuthor);
      var fc := FileCounts(last, blame(last), thisAuthor);
      CombinedAuthor(init, blame, thisAuthor, email, file);
      ScanAuthor(last, thisAuthor, ScanState("", Empty, {}, map[]), blame(last), email);
      FilesOfMerge(prev.authorFileLines, fc.authorFileLines, email);
      assert Get(Files(fc.authorFileLines, email), file)
             == if last == file then Occurrences(blame(file), thisAuthor, email) else 0;
    }
  }

  /** The counters of consecutive runs of files add up. */
  lemma {:induction false} CombinedAppend(a: seq<string>, b: seq<string>, blame: string -> seq<string>,
                                          thisAuthor: string)
    ensures Combined(a + b, blame, thisAuthor)
            == Merge(Combined(a, blame, thisAuthor), Combined(b, blame, thisAuthor))
    decreases |b|
  {
    if b == [] {
      assert a + b == a;
      MergeEmpty(Combined(a, blame, thisAuthor));
    } else {
      var init := b[..|b| - 1];
      var last := b[|b| - 1];
      assert (a + b)[..|a + b| - 1] == a + init;
      CombinedAppend(a, init, blame, thisAuthor);
      MergeAssociative(Combined(a, blame, thisAuthor), Combined(init, blame, thisAuthor),
                       FileCounts(last, blame(last), thisAuthor));
    }
  }

  /** A combined record lists no author without files. */
  lemma CombinedNoEmptyFiles(files: seq<string>, blame: string -> seq<string>, thisAuthor: string)
    ensures NoEmptyFiles(Combined(files, blame, thisAuthor))
  {
    CombinedValid(files, blame, thisAuthor);
    ValidAuthorsHaveFiles(Combined(files, blame, thisAuthor));
  }

  /** One file's counters list no author without files. */
  lemma FileCountsNoEmptyFiles(path: string, lines: seq<string>, thisAuthor: string)
    ensures NoEmptyFiles(FileCounts(path, lines, thisAuthor))
  {
    EmptyValid();
    ScanValid(path, thisAuthor, ScanState("", Empty, {}, map[]), lines);
    ValidAuthorsHaveFiles(FileCounts(path, lines, thisAuthor));
  }

  /** The counters of a single file. */
  lemma CombinedSingle(x: string, blame: string -> seq<string>, thisAuthor: string)
    ensures Combined([x], blame, thisAuthor) == FileCounts(x, blame(x), thisAuthor)
  {
    assert [x][..0] == [];
    FileCountsNoEmptyFiles(x, blame(x), thisAuthor);
    MergeEmpty(FileCounts(x, blame(x), thisAuthor));
  }

  /** Taking one file out of the middle: its counters can be added last. */
  lemma CombinedExtract(files: seq<string>, i: nat, blame: string -> seq<string>, thisAuthor: string)
    requires i < |files|
    ensures Combined(files, blame, thisAuthor)
            == Merge(Combined(files[..i] + files[i + 1..], blame, thisAuthor),
                     FileCounts(files[i], blame(files[i]), thisAuthor))
  {
    var pre, x, post := files[..i], files[i], files[i + 1..];
    var cPre, cPost := Combined(pre, blame, thisAuthor), Combined(post, blame, thisAuthor);
    var fx := FileCounts(x, blame(x), thisAuthor);
    assert files == pre + [x] + post;
    FileCountsNoEmptyFiles(x, blame(x), thisAuthor);
    CombinedNoEmptyFiles(post, blame, thisAuthor);
    calc {
      Combined(files, blame, thisAuthor);
      { CombinedAppend(pre + [x], post, blame, thisAuthor); }
      Merge(Combined(pre + [x], blame, thisAuthor), cPost);
      { CombinedAppend(pre, [x], blame, thisAuthor); CombinedSingle(x, blame, thisAuthor); }
      Merge(Merge(cPre, fx), cPost);
      { MergeAssociative(cPre, fx, cPost); }
      Merge(cPre, Merge(fx, cPost));
      { MergeCommutative(fx, cPost); }
      Merge(cPre, Merge(cPost, fx));
      { MergeAssociative(cPre, cPost, fx); }
      Merge(Merge(cPre, cPost), fx);
      { CombinedAppend(pre, post, blame, thisAuthor); }
      Merge(Combined(pre + post, blame, thisAuthor), fx);
    }
  }

  lemma MultisetCancel(a: multiset<string>, b: multiset<string>, x: string)
    requires a + multiset{x} == b + multiset{x}
    ensures a == b
  {
    forall y
      ensures a[y] == b[y]
    {
      assert (a + multiset{x})[y] == (b + multiset{x})[y];
    }
  }

  /** The summed counters do not depend on the order of the files: any
      rearrangement of the same files gives the same record. (The registry
      does: the first name seen for an address is the one kept.) */
  lemma {:induction false} CombinedOrderIndependent(files: seq<string>, files': seq<string>,
                                                    blame: string -> seq<string>, thisAuthor: string)
    requires multiset(files) == multiset(files')
    ensures Combined(files, blame, thisAuthor) == Combined(files', blame, thisAuthor)
    decreases |files'|
  {
    if files' == [] {
      assert |files| == |multiset(files)| == 0;
    } else {
      var init' := files'[..|files'| - 1];
      var x := files'[|files'| - 1];
      assert files' == init' + [x];
      assert x in multiset(files);
      var i :| 0 <= i < |files| && files[i] == x;
      var rest := files[..i] + files[i + 1..];
      assert files == files[..i] + [x] + files[i + 1..];
      assert multiset(files) == multiset(files[..i]) + multiset{x} + multiset(files[i + 1..]);
      assert multiset(files') == multiset(init') + multiset{x};
      assert multiset(rest) == multiset(files[..i]) + multiset(files[i + 1..]);
      MultisetCancel(multiset(rest), multiset(init'), x);
      CombinedOrderIndependent(rest, init', blame, thisAuthor);
      CombinedExtract(files, i, blame, thisAuthor);
    }
  }

  /** `kudos += calcKudos(file)` for every selected file, in order. */
  method ComputeKudos(files: seq<string>, blame: string -> seq<string>, thisAuthor: string,
                      registry: AuthorRegistry)
    returns (kudos: Kudos)
    modifies registry
    ensures fresh(kudos)
    ensures kudos.Value() == Combined(files, blame, thisAuthor)
    ensures Registry(registry.authors, registry.authorName)
            == RegistryAfter(files, blame, thisAuthor, Registry(old(registry.authors), old(registry.authorName)))
    ensures registry.authors == old(registry.authors) + AllEmails(files, blame, thisAuthor)
    ensures old(registry.Valid()) ==> registry.Valid()
    ensures old(registry.Valid()) ==>
              forall e :: e in old(registry.authors) ==> registry.authorName[e] == old(registry.authorName)[e]
  {
    ghost var r0 := Registry(registry.authors, registry.authorName);
    kudos := new Kudos("");
    for i := 0 to |files|
      invariant fresh(kudos)
      invariant kudos.Value() == Combined(files[..i], blame, thisAuthor)
      invariant Registry(registry.authors, registry.authorName) == RegistryAfter(files[..i], blame, thisAuthor, r0)
    {
      var file := files[i];
      ghost var st := ScanState("", Empty, registry.authors, registry.authorName);
      var fileKudos := CalcKudos(file, blame(file), thisAuthor, registry);
      ScanCountsOnly(file, thisAuthor, st, ScanState("", Empty, {}, map[]), blame(file));
      kudos.Add(fileKudos);
      assert files[..i + 1][..i] == files[..i];
    }
    assert files[..|files|] == files;
    RegistryAuthors(files, blame, thisAuthor, r0);
    if r0.authorName.Keys == r0.authors {
      RegistryNames(files, blame, thisAuthor, r0);
    }
  }
}
