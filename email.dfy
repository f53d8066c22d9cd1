/** Canonicalisation of the e-mail addresses that `git blame` reports. */
module Email {
  import opened Strings

  /** The address git reports for lines that are not committed yet. */
  const Sentinel: string := "not.committed.yet"

  /** `processEmail`: lower-case the address; the "not committed yet"
      address stands for the local user, whose configured address
      `thisAuthor` is returned as it is (it is not lower-cased). */
  function ProcessEmail(email: string, thisAuthor: string): (r: string)
    ensures ToLower(email) == Sentinel ==> r == thisAuthor
    ensures ToLower(email) != Sentinel ==>
              |r| == |email| && NoUpper(r) &&
              forall i :: 0 <= i < |email| ==> r[i] == LowerChar(email[i])
  {
    var lowered := ToLower(email);
    if lowered == Sentinel then thisAuthor else lowered
  }

  /** A canonical key has no capital letter, unless it is the local user's
      address. */
  lemma ProcessEmailIsLowerOrLocal(email: string, thisAuthor: string)
    ensures var r := ProcessEmail(email, thisAuthor);
            r == thisAuthor || NoUpper(r)
  {
  }

  /** However it is capitalised, the sentinel resolves to the local user. */
  lemma SentinelResolvesToLocalUser(email: string, thisAuthor: string)
    requires |email| == |Sentinel|
    requires forall i :: 0 <= i < |email| ==> LowerChar(email[i]) == Sentinel[i]
    ensures ProcessEmail(email, thisAuthor) == thisAuthor
  {
    assert ToLower(email) == Sentinel;
  }

  /** An address that is already lower case and is not the sentinel is its
      own canonical key. */
  lemma ProcessEmailOfCanonical(email: string, thisAuthor: string)
    requires NoUpper(email) && email != Sentinel
    ensures ProcessEmail(email, thisAuthor) == email
  {
    ToLowerOfLower(email);
  }

  /** Canonicalising a canonical key changes nothing, provided the local
      user's address has no capital letter. */
  lemma ProcessEmailIdempotent(email: string, thisAuthor: string)
    requires NoUpper(thisAuthor)
    ensures var r := ProcessEmail(email, thisAuthor);
            ProcessEmail(r, thisAuthor) == r
  {
    ToLowerOfLower(thisAuthor);
    if ToLower(email) != Sentinel {
      ToLowerIdempotent(email);
    }
  }

  /** Uncommitted lines and the local user's committed lines land on the
      same key exactly when the configured address is already lower case
      (or is itself some casing of the sentinel). */
  lemma SentinelKeyIsLocalKey(thisAuthor: string)
    ensures ProcessEmail(Sentinel, thisAuthor) == ProcessEmail(thisAuthor, thisAuthor)
            <==> NoUpper(thisAuthor) || ToLower(thisAuthor) == Sentinel
  {
    assert NoUpper(Sentinel);
    ToLowerOfLower(Sentinel);
    if NoUpper(thisAuthor) {
      ToLowerOfLower(thisAuthor);
    }
    if ToLower(thisAuthor) == thisAuthor {
      ToLowerNoUpper(thisAuthor);
    }
  }
}
