/** The `Kudos` record: counters that the program fills file by file and
    adds up with `+=`, and the two sorted views that the report prints. */
module KudosRecord {
  import opened Counts
  import opened Ordering

  /** Adds `other` into `m` key by key (`m[k] += other[k]` for every key of
      `other`, a missing key starting at zero). */
  method AddCounts<K>(m: map<K, nat>, other: map<K, nat>) returns (r: map<K, nat>)
    ensures r.Keys == m.Keys + other.Keys
    ensures forall k :: Get(r, k) == Get(m, k) + Get(other, k)
  {
    r := m;
    var todo := other.Keys;
    while todo != {}
      invariant todo <= other.Keys
      invariant r.Keys == m.Keys + (other.Keys - todo)
      invariant forall k :: Get(r, k) == Get(m, k) + (if k in todo then 0 else Get(other, k))
      decreases todo
    {
      var k :| k in todo;
      r := r[k := Get(r, k) + other[k]];
      todo := todo - {k};
    }
  }

  /** Adds the per-file counts of `other` into `m`, author by author and file
      by file. An author of `other` without files is never touched, so it is
      not added. */
  method AddFiles(m: map<string, map<string, nat>>, other: map<string, map<string, nat>>)
    returns (r: map<string, map<string, nat>>)
    ensures r.Keys == m.Keys + Listed(other)
    ensures forall x :: Files(r, x) == MergeCounts(Files(m, x), Files(other, x))
  {
    r := m;
    var todo := other.Keys;
    while todo != {}
      invariant todo <= other.Keys
      invariant AddFilesInv(m, other, r, todo)
      decreases todo
    {
      var author :| author in todo;
      var fileLines := other[author];
      ghost var r0 := r;
      if fileLines != map[] {
        // `authorFileLines[author][file] += lines` for each file
        var files := AddCounts(Files(r, author), fileLines);
        PointwiseSumIsMerge(Files(r, author), fileLines, files);
        r := r[author := files];
      }
      AddFilesStep(m, other, r0, todo, author, r);
      todo := todo - {author};
    }
  }

  /** A map whose keys and counts are those of the pointwise sum is the
      pointwise sum. */
  lemma PointwiseSumIsMerge<K>(m: map<K, nat>, other: map<K, nat>, r: map<K, nat>)
    requires r.Keys == m.Keys + other.Keys
    requires forall k :: Get(r, k) == Get(m, k) + Get(other, k)
    ensures r == MergeCounts(m, other)
  {
    var s := MergeCounts(m, other);
    forall k | k in r
      ensures r[k] == s[k]
    {
      assert Get(r, k) == r[k];
    }
    MapsEqual(r, s);
  }

  /** What `AddFiles` has done once the authors in `todo` are left. */
  ghost predicate AddFilesInv(m: map<string, map<string, nat>>, other: map<string, map<string, nat>>,
                              r: map<string, map<string, nat>>, todo: set<string>)
  {
    && r.Keys == m.Keys + (Listed(other) - todo)
    && forall x :: Files(r, x) == if x in todo then Files(m, x)
                                  else MergeCounts(Files(m, x), Files(other, x))
  }

  lemma AddFilesStep(m: map<string, map<string, nat>>, other: map<string, map<string, nat>>,
                     r: map<string, map<string, nat>>, todo: set<string>, author: string,
                     r': map<string, map<string, nat>>)
    requires author in todo && todo <= other.Keys
    requires AddFilesInv(m, other, r, todo)
    requires r' == if other[author] != map[]
                   then r[author := MergeCounts(Files(r, author), other[author])]
                   else r
    ensures AddFilesInv(m, other, r', todo - {author})
  {
    assert r'.Keys == m.Keys + (Listed(other) - (todo - {author}));
    forall x
      ensures Files(r', x) == if x in todo - {author} then Files(m, x)
                              else MergeCounts(Files(m, x), Files(other, x))
    {
      AddFilesStepAt(m, other, r, todo, author, r', x);
    }
  }

  lemma AddFilesStepAt(m: map<string, map<string, nat>>, other: map<string, map<string, nat>>,
                       r: map<string, map<string, nat>>, todo: set<string>, author: string,
                       r': map<string, map<string, nat>>, x: string)
    requires author in todo && todo <= other.Keys
    requires Files(r, x) == if x in todo then Files(m, x)
                            else MergeCounts(Files(m, x), Files(other, x))
    requires Files(r, author) == Files(m, author)
    requires r' == if other[author] != map[]
                   then r[author := MergeCounts(Files(r, author), other[author])]
                   else r
    ensures Files(r', x) == if x in todo - {author} then Files(m, x)
                            else MergeCounts(Files(m, x), Files(other, x))
  {
    if x == author && other[author] == map[] {
      MergeCountsEmptyRight(Files(m, author));
    }
  }

  /** `Get(counts, a) >= Get(counts, b)`: `a` may be listed before `b` when
      it has at least as many lines. */
  function ByCountDesc<K>(counts: map<K, nat>): (le: (K, K) -> bool) {
    (a, b) => Get(counts, a) >= Get(counts, b)
  }

  /** Counts never increase along `s`. */
  predicate Descending<K>(s: seq<K>, counts: map<K, nat>) {
    forall i, j :: 0 <= i < j < |s| ==> Get(counts, s[i]) >= Get(counts, s[j])
  }

  /** The keys of `counts`, most lines first; ties come in no promised order
      (the source uses the unstable `std::sort`). */
  method SortKeysByCount<K(!new)>(counts: map<K, nat>) returns (result: seq<K>)
    ensures multiset(result) == multiset(counts.Keys)
    ensures Descending(result, counts)
  {
    var keys := KeysOf(counts);
    var le := ByCountDesc(counts);
    assert Total(le) && Transitive(le);
    result := SortBy(keys, le);
    assert SortedBy(result, le);
  }

  /** The keys of `m`, each once, in some order (the vector built from the
      map's range). */
  method KeysOf<K, V>(m: map<K, V>) returns (keys: seq<K>)
    ensures multiset(keys) == multiset(m.Keys)
  {
    keys := [];
    var todo := m.Keys;
    while todo != {}
      invariant todo <= m.Keys
      invariant multiset(keys) + multiset(todo) == multiset(m.Keys)
      decreases todo
    {
      var k :| k in todo;
      keys := keys + [k];
      assert multiset(todo) == multiset(todo - {k}) + multiset{k};
      todo := todo - {k};
    }
  }

  class Kudos {
    var path: string
    var totalLines: nat
    var authorLines: map<string, nat>
    var authorFileLines: map<string, map<string, nat>>

    /** The counters as a value. */
    function Value(): Counts
      reads this
    {
      Counts(totalLines, authorLines, authorFileLines)
    }

    /** `Kudos{}` with its `path` set. */
    constructor (path: string)
      ensures this.path == path && Value() == Empty
    {
      this.path := path;
      totalLines := 0;
      authorLines := map[];
      authorFileLines := map[];
    }

    /** `operator+=`: every counter becomes the pointwise sum; `path` is kept.
        `other` is read before anything is written, so `k += k` doubles
        every counter, as it does in the source. */
    method Add(other: Kudos)
      modifies this
      ensures path == old(path)
      ensures totalLines == old(totalLines) + old(other.totalLines)
      ensures authorLines.Keys == old(authorLines).Keys + old(other.authorLines).Keys
      ensures forall x :: Get(authorLines, x) == Get(old(authorLines), x) + Get(old(other.authorLines), x)
      ensures authorFileLines.Keys == old(authorFileLines).Keys + Listed(old(other.authorFileLines))
      ensures forall x, f :: Get(Files(authorFileLines, x), f) ==
                Get(Files(old(authorFileLines), x), f) + Get(Files(old(other.authorFileLines), x), f)
      ensures Value() == Merge(old(Value()), old(other.Value()))
    {
      var otherTotal, otherLines, otherFiles := other.totalLines, other.authorLines, other.authorFileLines;
      totalLines := totalLines + otherTotal;
      var lines := AddCounts(authorLines, otherLines);
      PointwiseSumIsMerge(authorLines, otherLines, lines);
      var files := AddFiles(authorFileLines, otherFiles);
      forall x | x in files
        ensures files[x] == MergeFiles(authorFileLines, otherFiles)[x]
      {
        assert Files(files, x) == MergeCounts(Files(authorFileLines, x), Files(otherFiles, x));
      }
      MapsEqual(files, MergeFiles(authorFileLines, otherFiles));
      authorLines := lines;
      authorFileLines := files;
    }

    /** `calcSortedAuthors`: the authors, each once, most lines first. In a
        valid record each of them has a file map, so the report's
        `calcSortedFiles(author)` for every listed author is defined. */
    method SortedAuthors() returns (result: seq<string>)
      ensures multiset(result) == multiset(authorLines.Keys)
      ensures Descending(result, authorLines)
      ensures Valid(Value()) ==> forall x :: x in result ==> x in authorFileLines
    {
      result := SortKeysByCount(authorLines);
      if Valid(Value()) {
        ValidAuthorsHaveFiles(Value());
        forall x | x in result
          ensures x in authorFileLines
        {
          assert x in multiset(result);
        }
      }
    }

    /** `calcSortedFiles(author)`: the files of `author`, each once, most
        lines first. The source's `.at(author)` throws for an unknown author;
        here that is the precondition. */
    method SortedFiles(author: string) returns (result: seq<string>)
      requires author in authorFileLines
      ensures multiset(result) == multiset(authorFileLines[author].Keys)
      ensures Descending(result, authorFileLines[author])
    {
      result := SortKeysByCount(authorFileLines[author]);
    }
  }
}
