/** The counters of a `Kudos` record as a value: the total number of lines,
    lines per author, and lines per author per file. A key missing from a
    map counts as zero, as `std::map::operator[]` treats it. */
module Counts {

  datatype Counts = Counts(
    totalLines: nat,
    authorLines: map<string, nat>,
    authorFileLines: map<string, map<string, nat>>)

  /** A record with nothing counted (`Kudos{}`). */
  const Empty: Counts := Counts(0, map[], map[])

  /** The count stored under `k`, zero when `k` is absent. */
  function Get<K>(m: map<K, nat>, k: K): nat {
    if k in m then m[k] else 0
  }

  /** The per-file counts of `author`, empty when `author` is absent. */
  function Files(m: map<string, map<string, nat>>, author: string): map<string, nat> {
    if author in m then m[author] else map[]
  }

  /** The sum of all counts in `m`. */
  ghost function Sum<K>(m: map<K, nat>): nat
    decreases |m|
  {
    if m == map[] then 0
    else
      var k :| k in m;
      assert |m - {k}| < |m| by { assert m.Keys - {k} < m.Keys; }
      m[k] + Sum(m - {k})
  }

  /** `Sum` may take its keys in any order. */
  lemma {:induction false} SumRemove<K>(m: map<K, nat>, k: K)
    requires k in m
    ensures Sum(m) == m[k] + Sum(m - {k})
    decreases |m|
  {
    var k' :| k' in m && Sum(m) == m[k'] + Sum(m - {k'});
    if k' != k {
      assert |m - {k'}| < |m| by { assert (m - {k'}).Keys < m.Keys; }
      assert |m - {k}| < |m| by { assert (m - {k}).Keys < m.Keys; }
      SumRemove(m - {k'}, k);
      SumRemove(m - {k}, k');
      assert (m - {k'}) - {k} == (m - {k}) - {k'};
    }
  }

  /** Replacing one count changes the sum by the difference. */
  lemma SumUpdate<K>(m: map<K, nat>, k: K, v: nat)
    ensures Sum(m[k := v]) + Get(m, k) == Sum(m) + v
  {
    SumRemove(m[k := v], k);
    if k in m {
      SumRemove(m, k);
      assert m[k := v] - {k} == m - {k};
    } else {
      assert m[k := v] - {k} == m;
    }
  }

  /** Adding one line under `k` adds one to the sum. */
  lemma SumIncrement<K>(m: map<K, nat>, k: K)
    ensures Sum(m[k := Get(m, k) + 1]) == Sum(m) + 1
  {
    SumUpdate(m, k, Get(m, k) + 1);
  }

  /** A map whose counts are all positive sums to a positive number unless
      it is empty. */
  lemma SumPositive<K>(m: map<K, nat>)
    requires forall k :: k in m ==> m[k] > 0
    ensures Sum(m) == 0 <==> m == map[]
  {
    if m != map[] {
      var k :| k in m;
      SumRemove(m, k);
    }
  }

  /** Pointwise sum of two count maps: keys of either, counts added. */
  function MergeCounts<K>(a: map<K, nat>, b: map<K, nat>): (r: map<K, nat>)
    ensures r.Keys == a.Keys + b.Keys
  {
    map k | k in a.Keys + b.Keys :: Get(a, k) + Get(b, k)
  }

  /** Pointwise sum of two per-author file maps. An author of `b` whose file
      map is empty is not added: the source only touches
      `authorFileLines[author]` from inside the loop over its files. */
  function MergeFiles(a: map<string, map<string, nat>>, b: map<string, map<string, nat>>)
    : (r: map<string, map<string, nat>>)
    ensures r.Keys == a.Keys + Listed(b)
  {
    map x | x in a.Keys + Listed(b) :: MergeCounts(Files(a, x), Files(b, x))
  }

  /** The authors of `f` that have at least one file. */
  function Listed(f: map<string, map<string, nat>>): set<string> {
    set x | x in f && f[x] != map[]
  }

  /** `a += b` on the value level. */
  function Merge(a: Counts, b: Counts): Counts {
    Counts(a.totalLines + b.totalLines,
           MergeCounts(a.authorLines, b.authorLines),
           MergeFiles(a.authorFileLines, b.authorFileLines))
  }

  /** The record counts one more line of `author` in `file`. */
  function CountLine(c: Counts, author: string, file: string): Counts {
    var files := Files(c.authorFileLines, author);
    Counts(c.totalLines + 1,
           c.authorLines[author := Get(c.authorLines, author) + 1],
           c.authorFileLines[author := files[file := Get(files, file) + 1]])
  }

  /** Conservation: the total is the sum over authors, each author's count
      is the sum over that author's files, and no author has files without
      a count. */
  ghost predicate Conserved(c: Counts) {
    && c.totalLines == Sum(c.authorLines)
    && c.authorFileLines.Keys <= c.authorLines.Keys
    && forall x :: x in c.authorLines ==> c.authorLines[x] == Sum(Files(c.authorFileLines, x))
  }

  /** The records the program builds: conserved, and every author and file
      listed has at least one line. */
  ghost predicate Valid(c: Counts) {
    Conserved(c) && Positive(c)
  }

  /** Every author and file listed has at least one line. */
  predicate Positive(c: Counts) {
    && (forall x :: x in c.authorLines ==> c.authorLines[x] > 0)
    && (forall x, f :: x in c.authorFileLines && f in c.authorFileLines[x] ==>
          c.authorFileLines[x][f] > 0)
  }

  lemma EmptyValid()
    ensures Valid(Empty)
  {
  }

  /** In a valid record the authors with a count are exactly the authors
      with files, so `authorFileLines.at(author)` is defined for every
      author that `authorLines` lists. */
  lemma ValidAuthorsHaveFiles(c: Counts)
    requires Valid(c)
    ensures c.authorLines.Keys == c.authorFileLines.Keys
    ensures forall x :: x in c.authorFileLines ==> c.authorFileLines[x] != map[]
  {
    forall x | x in c.authorLines
      ensures x in c.authorFileLines
    {
      assert Sum(Files(c.authorFileLines, x)) > 0;
    }
    forall x | x in c.authorFileLines
      ensures c.authorFileLines[x] != map[]
    {
      assert Sum(Files(c.authorFileLines, x)) > 0;
    }
  }

  /** The sum of a pointwise sum is the sum of the sums. */
  lemma {:induction false} SumMergeCounts<K>(a: map<K, nat>, b: map<K, nat>)
    ensures Sum(MergeCounts(a, b)) == Sum(a) + Sum(b)
    decreases |b|
  {
    if b == map[] {
      assert MergeCounts(a, b) == a;
    } else {
      var k :| k in b;
      assert |b - {k}| < |b| by { assert (b - {k}).Keys < b.Keys; }
      SumMergeCounts(a, b - {k});
      SumMergeCountsStep(a, b, k);
    }
  }

  /** The induction step of `SumMergeCounts`: one key of `b` at a time. */
  lemma SumMergeCountsStep<K>(a: map<K, nat>, b: map<K, nat>, k: K)
    requires k in b
    requires Sum(MergeCounts(a, b - {k})) == Sum(a) + Sum(b - {k})
    ensures Sum(MergeCounts(a, b)) == Sum(a) + Sum(b)
  {
    var m' := MergeCounts(a, b - {k});
    var v := Get(m', k) + b[k];
    MergeCountsStep(a, b, k);
    assert MergeCounts(a, b) == m'[k := v];
    SumUpdate(m', k, v);
    SumRemove(b, k);
  }

  /** Splitting one key off the right operand of a pointwise sum. */
  lemma MergeCountsStep<K>(a: map<K, nat>, b: map<K, nat>, k: K)
    requires k in b
    ensures var m' := MergeCounts(a, b - {k});
            MergeCounts(a, b) == m'[k := Get(m', k) + b[k]]
  {
    var m := MergeCounts(a, b);
    var m' := MergeCounts(a, b - {k});
    var u := m'[k := Get(m', k) + b[k]];
    assert m.Keys == u.Keys;
    forall j | j in m
      ensures m[j] == u[j]
    {
      if j != k {
        assert Get(b - {k}, j) == Get(b, j);
      }
    }
  }

  /** One more line keeps a record valid. */
  lemma CountLineValid(c: Counts, author: string, file: string)
    requires Valid(c)
    ensures Valid(CountLine(c, author, file))
  {
    CountLineConserved(c, author, file);
    CountLinePositive(c, author, file);
  }

  lemma CountLineConserved(c: Counts, author: string, file: string)
    requires Conserved(c)
    ensures Conserved(CountLine(c, author, file))
  {
    var c' := CountLine(c, author, file);
    SumIncrement(c.authorLines, author);
    CountLineAuthor(c, author, file);
    forall x | x in c'.authorLines && x != author
      ensures c'.authorLines[x] == Sum(Files(c'.authorFileLines, x))
    {
      assert Files(c'.authorFileLines, x) == Files(c.authorFileLines, x);
    }
  }

  lemma CountLinePositive(c: Counts, author: string, file: string)
    requires Positive(c)
    ensures Positive(CountLine(c, author, file))
  {
    var c' := CountLine(c, author, file);
    forall x, f | x in c'.authorFileLines && f in c'.authorFileLines[x]
      ensures c'.authorFileLines[x][f] > 0
    {
      if x != author {
        assert c'.authorFileLines[x] == c.authorFileLines[x];
      }
    }
  }

  /** The author of the new line keeps its count equal to its files' sum. */
  lemma CountLineAuthor(c: Counts, author: string, file: string)
    requires Conserved(c)
    ensures var c' := CountLine(c, author, file);
            c'.authorLines[author] == Sum(Files(c'.authorFileLines, author))
  {
    var files := Files(c.authorFileLines, author);
    AuthorSum(c, author);
    SumIncrement(files, file);
  }

  /** `+=` keeps conservation (the invariant of the record). */
  lemma MergeConserved(a: Counts, b: Counts)
    requires Conserved(a) && Conserved(b)
    ensures Conserved(Merge(a, b))
  {
    var m := Merge(a, b);
    SumMergeCounts(a.authorLines, b.authorLines);
    forall x | x in m.authorLines
      ensures m.authorLines[x] == Sum(Files(m.authorFileLines, x))
    {
      AuthorSum(a, x);
      AuthorSum(b, x);
      FilesOfMerge(a.authorFileLines, b.authorFileLines, x);
      SumMergeCounts(Files(a.authorFileLines, x), Files(b.authorFileLines, x));
    }
  }

  /** In a conserved record, an author's count (zero when absent) is the sum
      over that author's files. */
  lemma AuthorSum(c: Counts, x: string)
    requires Conserved(c)
    ensures Get(c.authorLines, x) == Sum(Files(c.authorFileLines, x))
  {
  }

  /** `+=` keeps a record valid. */
  lemma MergeValid(a: Counts, b: Counts)
    requires Valid(a) && Valid(b)
    ensures Valid(Merge(a, b))
  {
    MergeConserved(a, b);
    MergePositive(a, b);
  }

  lemma MergePositive(a: Counts, b: Counts)
    requires Positive(a) && Positive(b)
    ensures Positive(Merge(a, b))
  {
    var m := Merge(a, b);
    forall x, f | x in m.authorFileLines && f in m.authorFileLines[x]
      ensures m.authorFileLines[x][f] > 0
    {
      var fa, fb := Files(a.authorFileLines, x), Files(b.authorFileLines, x);
      assert m.authorFileLines[x] == MergeCounts(fa, fb);
      assert f in fa || f in fb;
    }
  }

  /** No author is listed with an empty file map. */
  ghost predicate NoEmptyFiles(c: Counts) {
    forall x :: x in c.authorFileLines ==> c.authorFileLines[x] != map[]
  }

  /** Merging with the empty record changes nothing; on the left this needs
      every listed author to have files, as in the records the program
      builds. */
  lemma MergeEmpty(a: Counts)
    ensures Merge(a, Empty) == a
    ensures NoEmptyFiles(a) ==> Merge(Empty, a) == a
  {
    MergeFilesEmptyRight(a.authorFileLines);
    if NoEmptyFiles(a) {
      MergeFilesEmptyLeft(a.authorFileLines);
    }
  }

  lemma MergeCountsEmptyRight<K>(m: map<K, nat>)
    ensures MergeCounts(m, map[]) == m
  {
    MapsEqual(MergeCounts(m, map[]), m);
  }

  lemma MergeFilesEmptyRight(f: map<string, map<string, nat>>)
    ensures MergeFiles(f, map[]) == f
  {
    forall x | x in f
      ensures MergeFiles(f, map[])[x] == f[x]
    {
      assert MergeCounts(f[x], map[]) == f[x];
    }
  }

  lemma MergeFilesEmptyLeft(f: map<string, map<string, nat>>)
    requires forall x :: x in f ==> f[x] != map[]
    ensures MergeFiles(map[], f) == f
  {
    forall x | x in f
      ensures MergeFiles(map[], f)[x] == f[x]
    {
      assert MergeCounts(map[], f[x]) == f[x];
    }
  }

  lemma MergeCountsCommutative<K>(a: map<K, nat>, b: map<K, nat>)
    ensures MergeCounts(a, b) == MergeCounts(b, a)
  {
  }

  lemma MergeCountsAssociative<K>(a: map<K, nat>, b: map<K, nat>, c: map<K, nat>)
    ensures MergeCounts(a, MergeCounts(b, c)) == MergeCounts(MergeCounts(a, b), c)
  {
  }

  /** The order in which two records are added does not matter, as long as
      neither lists an author with an empty file map (the source adds such
      an author only from the left operand). */
  lemma MergeCommutative(a: Counts, b: Counts)
    requires NoEmptyFiles(a) && NoEmptyFiles(b)
    ensures Merge(a, b) == Merge(b, a)
  {
    MergeCountsCommutative(a.authorLines, b.authorLines);
    MergeFilesCommutative(a.authorFileLines, b.authorFileLines);
  }

  lemma MergeFilesCommutative(fa: map<string, map<string, nat>>, fb: map<string, map<string, nat>>)
    requires forall x :: x in fa ==> fa[x] != map[]
    requires forall x :: x in fb ==> fb[x] != map[]
    ensures MergeFiles(fa, fb) == MergeFiles(fb, fa)
  {
    var l, r := MergeFiles(fa, fb), MergeFiles(fb, fa);
    assert l.Keys == r.Keys by {
      ListedAll(fa);
      ListedAll(fb);
    }
    forall x | x in l
      ensures l[x] == r[x]
    {
      MergeCountsCommutative(Files(fa, x), Files(fb, x));
    }
    MapsEqual(l, r);
  }

  lemma ListedAll(f: map<string, map<string, nat>>)
    requires forall x :: x in f ==> f[x] != map[]
    ensures Listed(f) == f.Keys
  {
  }

  /** Maps with the same keys and the same value at each key are equal
      (kept apart so the callers' proofs stay small). */
  lemma MapsEqual<K, V>(l: map<K, V>, r: map<K, V>)
    requires l.Keys == r.Keys
    requires forall x :: x in l ==> l[x] == r[x]
    ensures l == r
  {
  }

  /** Nor does the grouping. */
  lemma MergeAssociative(a: Counts, b: Counts, c: Counts)
    ensures Merge(a, Merge(b, c)) == Merge(Merge(a, b), c)
  {
    MergeCountsAssociative(a.authorLines, b.authorLines, c.authorLines);
    MergeFilesAssociative(a.authorFileLines, b.authorFileLines, c.authorFileLines);
  }

  lemma MergeFilesAssociative(fa: map<string, map<string, nat>>, fb: map<string, map<string, nat>>,
                              fc: map<string, map<string, nat>>)
    ensures MergeFiles(fa, MergeFiles(fb, fc)) == MergeFiles(MergeFiles(fa, fb), fc)
  {
    var l, r := MergeFiles(fa, MergeFiles(fb, fc)), MergeFiles(MergeFiles(fa, fb), fc);
    assert l.Keys == r.Keys by {
      ListedMergeFiles(fb, fc);
    }
    forall x | x in l
      ensures l[x] == r[x]
    {
      MergeFilesAssociativeAt(fa, fb, fc, x);
    }
    MapsEqual(l, r);
  }

  lemma MergeFilesAssociativeAt(fa: map<string, map<string, nat>>, fb: map<string, map<string, nat>>,
                                fc: map<string, map<string, nat>>, x: string)
    requires x in MergeFiles(fa, MergeFiles(fb, fc)) && x in MergeFiles(MergeFiles(fa, fb), fc)
    ensures MergeFiles(fa, MergeFiles(fb, fc))[x] == MergeFiles(MergeFiles(fa, fb), fc)[x]
  {
    FilesOfMerge(fb, fc, x);
    FilesOfMerge(fa, fb, x);
    MergeCountsAssociative(Files(fa, x), Files(fb, x), Files(fc, x));
  }

  /** An author has files in a pointwise sum when it has files in either
      operand. */
  lemma ListedMergeFiles(fa: map<string, map<string, nat>>, fb: map<string, map<string, nat>>)
    ensures Listed(MergeFiles(fa, fb)) == Listed(fa) + Listed(fb)
  {
    var m := MergeFiles(fa, fb);
    forall x | x in m
      ensures m[x] != map[] <==> x in Listed(fa) + Listed(fb)
    {
      assert m[x].Keys == Files(fa, x).Keys + Files(fb, x).Keys;
    }
  }

  lemma FilesOfMerge(fa: map<string, map<string, nat>>, fb: map<string, map<string, nat>>, x: string)
    ensures Files(MergeFiles(fa, fb), x) == MergeCounts(Files(fa, x), Files(fb, x))
  {
  }
}
