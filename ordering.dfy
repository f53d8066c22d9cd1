/** Sorting by a caller-supplied total preorder. The source sorts with
    `std::sort` and a comparator; what it relies on is the result: a
    permutation of the input in which every element may go before each
    later one. `SortBy` delivers exactly that, by insertion. */
module Ordering {

  /** Every two values are comparable. */
  ghost predicate Total<T(!new)>(le: (T, T) -> bool) {
    forall x, y :: le(x, y) || le(y, x)
  }

  ghost predicate Transitive<T(!new)>(le: (T, T) -> bool) {
    forall x, y, z :: le(x, y) && le(y, z) ==> le(x, z)
  }

  /** Each element may go before every later one. */
  ghost predicate SortedBy<T>(s: seq<T>, le: (T, T) -> bool) {
    forall i, j :: 0 <= i < j < |s| ==> le(s[i], s[j])
  }

  /** Inserts `x` into the sorted `s`, after every element that may go
      before it. */
  method Insert<T(!new)>(s: seq<T>, x: T, le: (T, T) -> bool) returns (r: seq<T>)
    requires Total(le) && Transitive(le)
    requires SortedBy(s, le)
    ensures multiset(r) == multiset(s) + multiset{x}
    ensures SortedBy(r, le)
  {
    var k := 0;
    while k < |s| && le(s[k], x)
      invariant 0 <= k <= |s|
      invariant forall i :: 0 <= i < k ==> le(s[i], x)
    {
      k := k + 1;
    }
    r := s[..k] + [x] + s[k..];
    assert s == s[..k] + s[k..];
    InsertedSorted(s, x, k, le);
  }

  /** Putting `x` after the elements that may go before it, and before the
      first that may not, keeps the sequence sorted. */
  lemma InsertedSorted<T(!new)>(s: seq<T>, x: T, k: nat, le: (T, T) -> bool)
    requires Total(le) && Transitive(le)
    requires SortedBy(s, le)
    requires k <= |s|
    requires forall i :: 0 <= i < k ==> le(s[i], x)
    requires k < |s| ==> !le(s[k], x)
    ensures SortedBy(s[..k] + [x] + s[k..], le)
  {
    forall i | k <= i < |s|
      ensures le(x, s[i])
    {
      assert le(x, s[k]);
    }
  }

  /** Sorts `s`: the result is a permutation of `s`, sorted by `le`. */
  method SortBy<T(!new)>(s: seq<T>, le: (T, T) -> bool) returns (r: seq<T>)
    requires Total(le) && Transitive(le)
    ensures multiset(r) == multiset(s)
    ensures SortedBy(r, le)
  {
    r := [];
    for n := 0 to |s|
      invariant multiset(r) == multiset(s[..n])
      invariant SortedBy(r, le)
    {
      r := Insert(r, s[n], le);
      assert s[..n + 1] == s[..n] + [s[n]];
    }
    assert s[..|s|] == s;
  }
}
