/** Counting the lines of one file from the output of
    `git blame --line-porcelain`: every line of the file is preceded by its
    own header, and the header's `author-mail <...>` line is where the line
    is counted. The process-wide registry of authors (`_authors`,
    `_authorName`) is an object passed in. */
module Blame {
  import opened Strings
  import opened Email
  import opened Counts
  import opened KudosRecord

  datatype Option<T> = None | Some(value: T)

  /** Header line that names the author of the next content line. */
  const AuthorTag: string := "author "
  /** Header line that carries the author's address in angle brackets. */
  const MailTag: string := "author-mail <"

  /** What `.` matches in an ECMAScript regular expression of
      `std::regex`: any character except a line terminator. */
  predicate MatchesDot(c: char) {
    c != '\n' && c != '\r'
  }

  /** The index of the `>` that closes a group opened before `j`: the first
      `>` at or after `j`, provided no line terminator comes first. */
  function CloseFrom(s: string, j: nat): (r: Option<nat>)
    ensures r.Some? ==> j <= r.value < |s| && s[r.value] == '>'
    ensures r.Some? ==> forall k :: j <= k < r.value ==> s[k] != '>' && MatchesDot(s[k])
    decreases |s| - j
  {
    if j >= |s| then None
    else if s[j] == '>' then Some(j)
    else if !MatchesDot(s[j]) then None
    else CloseFrom(s, j + 1)
  }

  /** `std::regex_search(s, match, std::regex("<(.*?)>"))` started at `i`:
      the leftmost `<` that a `>` closes, and the shortest text between
      them (`match[1]`). */
  function SearchFrom(s: string, i: nat): (r: Option<string>)
    ensures r.Some? ==> '>' !in r.value && forall c :: c in r.value ==> MatchesDot(c)
    decreases |s| - i
  {
    if i >= |s| then None
    else if s[i] == '<' && CloseFrom(s, i + 1).Some? then
      var j := CloseFrom(s, i + 1).value;
      assert forall c :: c in s[i + 1..j] ==> c != '>' && MatchesDot(c);
      Some(s[i + 1..j])
    else SearchFrom(s, i + 1)
  }

  /** The address in an `author-mail` line, as the source's regex finds it. */
  function MatchEmail(line: string): Option<string> {
    SearchFrom(line, 0)
  }

  /** Without line terminators, the first `>` at or after `j` closes. */
  lemma {:induction false} CloseFromPlain(s: string, j: nat)
    requires j <= |s|
    requires forall k :: j <= k < |s| ==> MatchesDot(s[k])
    ensures CloseFrom(s, j).Some? <==> '>' in s[j..]
    decreases |s| - j
  {
    if j < |s| && s[j] != '>' {
      CloseFromPlain(s, j + 1);
      assert s[j..] == [s[j]] + s[j + 1..];
    }
  }

  /** With no `>` from `i` on, nothing matches from `i` on. */
  lemma {:induction false} SearchFromNoClose(s: string, i: nat)
    requires i <= |s|
    requires forall k :: i <= k < |s| ==> s[k] != '>'
    ensures SearchFrom(s, i) == None
    decreases |s| - i
  {
    if i < |s| {
      SearchFromNoClose(s, i + 1);
    }
  }

  /** The search passes over a stretch without `<`. */
  lemma {:induction false} SearchFromSkip(s: string, i: nat, k: nat)
    requires i <= k <= |s|
    requires forall t :: i <= t < k ==> s[t] != '<'
    ensures SearchFrom(s, i) == SearchFrom(s, k)
    decreases k - i
  {
    if i < k {
      SearchFromSkip(s, i + 1, k);
    }
  }

  /** On an `author-mail <` line without line terminators the regex finds
      exactly "the text between the first `<` and the next `>`": it matches
      when a `>` follows, and the address is what lies before that `>`. */
  lemma MatchEmailOfMailLine(line: string)
    requires HasPrefix(line, MailTag)
    requires forall k :: 0 <= k < |line| ==> MatchesDot(line[k])
    ensures MatchEmail(line).Some? <==> '>' in line[|MailTag|..]
    ensures MatchEmail(line).Some? ==>
              var e := MatchEmail(line).value;
              |MailTag| + |e| < |line| && line[|MailTag| + |e|] == '>' &&
              e == line[|MailTag|..|MailTag| + |e|] && '>' !in e
  {
    var n := |MailTag|;
    assert line[..n] == MailTag;
    assert forall t :: 0 <= t < n - 1 ==> line[t] == MailTag[t];
    SearchFromSkip(line, 0, n - 1);
    assert line[n - 1] == '<';
    CloseFromPlain(line, n);
    if CloseFrom(line, n).None? {
      forall k | n <= k < |line|
        ensures line[k] != '>'
      {
        assert line[k] == line[n..][k - n];
      }
      SearchFromNoClose(line, n);
    }
  }

  /** The canonical address that a blame line counts, if it counts one: an
      `author-mail <` line whose regex matches. */
  function LineEmail(line: string, thisAuthor: string): Option<string> {
    if HasPrefix(line, MailTag) then
      match MatchEmail(line)
      case None => None
      case Some(raw) => Some(ProcessEmail(raw, thisAuthor))
    else None
  }

  /** The state of the scan of one file: the pending author name, the
      file's counters, and the process-wide registry. */
  datatype ScanState = ScanState(
    name: string,
    counts: Counts,
    authors: set<string>,
    authorName: map<string, string>)

  /** One iteration of the `getline` loop of `calcKudos`. */
  function ScanLine(path: string, thisAuthor: string, st: ScanState, line: string): ScanState {
    var st1 := if HasPrefix(line, AuthorTag) then st.(name := line[|AuthorTag| - 1..]) else st;
    match LineEmail(line, thisAuthor)
    case None => st1
    case Some(email) =>
      var st2 := st1.(counts := CountLine(st1.counts, email, path));
      if email in st2.authors then st2
      else st2.(authors := st2.authors + {email}, authorName := st2.authorName[email := st2.name])
  }

  /** The `getline` loop over the first lines of the output. */
  function ScanLines(path: string, thisAuthor: string, st: ScanState, lines: seq<string>): ScanState
    decreases |lines|
  {
    if lines == [] then st
    else ScanLine(path, thisAuthor, ScanLines(path, thisAuthor, st, lines[..|lines| - 1]), lines[|lines| - 1])
  }

  /** How many lines count a line for `email`. */
  function Occurrences(lines: seq<string>, thisAuthor: string, email: string): nat
    decreases |lines|
  {
    if lines == [] then 0
    else Occurrences(lines[..|lines| - 1], thisAuthor, email) +
         (if LineEmail(lines[|lines| - 1], thisAuthor) == Some(email) then 1 else 0)
  }

  /** How many lines count a line at all. */
  function MailLines(lines: seq<string>, thisAuthor: string): nat
    decreases |lines|
  {
    if lines == [] then 0
    else MailLines(lines[..|lines| - 1], thisAuthor) +
         (if LineEmail(lines[|lines| - 1], thisAuthor).Some? then 1 else 0)
  }

  /** The canonical addresses counted by some line. */
  function EmailsIn(lines: seq<string>, thisAuthor: string): set<string>
    decreases |lines|
  {
    if lines == [] then {}
    else EmailsIn(lines[..|lines| - 1], thisAuthor) +
         match LineEmail(lines[|lines| - 1], thisAuthor)
         case None => {}
         case Some(e) => {e}
  }

  /** A line that counts nothing changes no counter and no registry entry;
      at most it sets the pending name. */
  lemma ScanLineIgnores(path: string, thisAuthor: string, st: ScanState, line: string)
    requires LineEmail(line, thisAuthor).None?
    ensures var st' := ScanLine(path, thisAuthor, st, line);
            && st'.counts == st.counts && st'.authors == st.authors && st'.authorName == st.authorName
            && st'.name == if HasPrefix(line, AuthorTag) then line[6..] else st.name
  {
  }

  /** The total grows by the number of lines that count a line. */
  lemma {:induction false} ScanTotal(path: string, thisAuthor: string, st: ScanState, lines: seq<string>)
    ensures ScanLines(path, thisAuthor, st, lines).counts.totalLines
            == st.counts.totalLines + MailLines(lines, thisAuthor)
    decreases |lines|
  {
    if lines != [] {
      ScanTotal(path, thisAuthor, st, lines[..|lines| - 1]);
    }
  }

  /** Each author's count, and its count for this file, grows by the number
      of lines that count that author; the counts of other files stay. */
  lemma {:induction false} ScanAuthor(path: string, thisAuthor: string, st: ScanState,
                                      lines: seq<string>, email: string)
    ensures var c := ScanLines(path, thisAuthor, st, lines).counts;
            && Get(c.authorLines, email) == Get(st.counts.authorLines, email) + Occurrences(lines, thisAuthor, email)
            && Get(Files(c.authorFileLines, email), path)
               == Get(Files(st.counts.authorFileLines, email), path) + Occurrences(lines, thisAuthor, email)
            && forall f :: f != path ==>
                 Get(Files(c.authorFileLines, email), f) == Get(Files(st.counts.authorFileLines, email), f)
    decreases |lines|
  {
    if lines != [] {
      var prev := ScanLines(path, thisAuthor, st, lines[..|lines| - 1]);
      ScanAuthor(path, thisAuthor, st, lines[..|lines| - 1], email);
      ScanLineAuthor(path, thisAuthor, prev, lines[|lines| - 1], email);
    }
  }

  /** `ScanAuthor` for one line. */
  lemma ScanLineAuthor(path: string, thisAuthor: string, st: ScanState, line: string, email: string)
    ensures var c := ScanLine(path, thisAuthor, st, line).counts;
            var n := if LineEmail(line, thisAuthor) == Some(email) then 1 else 0;
            && Get(c.authorLines, email) == Get(st.counts.authorLines, email) + n
            && Get(Files(c.authorFileLines, email), path) == Get(Files(st.counts.authorFileLines, email), path) + n
            && forall f :: f != path ==>
                 Get(Files(c.authorFileLines, email), f) == Get(Files(st.counts.authorFileLines, email), f)
  {
    match LineEmail(line, thisAuthor)
    case None =>
    case Some(e) =>
      var c := ScanLine(path, thisAuthor, st, line).counts;
      assert c == CountLine(st.counts, e, path);
  }

  /** Counting keeps a record valid (conserved, nothing listed at zero). */
  lemma {:induction false} ScanValid(path: string, thisAuthor: string, st: ScanState, lines: seq<string>)
    requires Valid(st.counts)
    ensures Valid(ScanLines(path, thisAuthor, st, lines).counts)
    decreases |lines|
  {
    if lines != [] {
      var prev := ScanLines(path, thisAuthor, st, lines[..|lines| - 1]);
      ScanValid(path, thisAuthor, st, lines[..|lines| - 1]);
      match LineEmail(lines[|lines| - 1], thisAuthor)
      case None =>
      case Some(email) => CountLineValid(prev.counts, email, path);
    }
  }

  /** The registry gains exactly the addresses counted; an address already
      registered keeps its name (the name is written only on the first
      sighting), and every registered address has a name. */
  lemma {:induction false} ScanRegistry(path: string, thisAuthor: string, st: ScanState, lines: seq<string>)
    requires st.authorName.Keys == st.authors
    ensures var st' := ScanLines(path, thisAuthor, st, lines);
            && st'.authors == st.authors + EmailsIn(lines, thisAuthor)
            && st'.authorName.Keys == st'.authors
            && forall e :: e in st.authors ==> st'.authorName[e] == st.authorName[e]
    decreases |lines|
  {
    if lines != [] {
      ScanRegistry(path, thisAuthor, st, lines[..|lines| - 1]);
    }
  }

  /** The process-wide author registry: `_authors` and `_authorName`. */
  class AuthorRegistry {
    var authors: set<string>
    var authorName: map<string, string>

    ghost predicate Valid()
      reads this
    {
      authorName.Keys == authors
    }

    constructor ()
      ensures Valid() && authors == {} && authorName == map[]
    {
      authors := {};
      authorName := map[];
    }
  }

  /** `calcKudos(path)` with the blame output given as its lines. */
  method CalcKudos(path: string, output: seq<string>, thisAuthor: string, registry: AuthorRegistry)
    returns (kudos: Kudos)
    modifies registry
    ensures fresh(kudos) && kudos.path == path
    ensures var st := ScanLines(path, thisAuthor,
                                ScanState("", Empty, old(registry.authors), old(registry.authorName)), output);
            kudos.Value() == st.counts && registry.authors == st.authors && registry.authorName == st.authorName
    ensures kudos.totalLines == MailLines(output, thisAuthor)
    ensures Valid(kudos.Value())
    ensures registry.authors == old(registry.authors) + EmailsIn(output, thisAuthor)
    ensures old(registry.Valid()) ==> registry.Valid()
    ensures old(registry.Valid()) ==>
              forall e :: e in old(registry.authors) ==> registry.authorName[e] == old(registry.authorName)[e]
  {
    kudos := new Kudos(path);
    ghost var init := ScanState("", Empty, registry.authors, registry.authorName);
    ScanOutput(path, output, thisAuthor, registry, kudos);
    ScanTotal(path, thisAuthor, init, output);
    EmptyValid();
    ScanValid(path, thisAuthor, init, output);
    ScanAuthors(path, thisAuthor, init, output);
    if init.authorName.Keys == init.authors {
      ScanRegistry(path, thisAuthor, init, output);
    }
  }

  /** The `getline` loop of `calcKudos`, counting into `kudos`. */
  method ScanOutput(path: string, output: seq<string>, thisAuthor: string,
                    registry: AuthorRegistry, kudos: Kudos)
    modifies registry, kudos
    ensures kudos.path == old(kudos.path)
    ensures var st := ScanLines(path, thisAuthor,
                                ScanState("", old(kudos.Value()), old(registry.authors), old(registry.authorName)), output);
            && kudos.Value() == st.counts
            && registry.authors == st.authors
            && registry.authorName == st.authorName
  {
    ghost var init := ScanState("", kudos.Value(), registry.authors, registry.authorName);
    var authorName := "";
    var i := 0;
    while i < |output|
      invariant 0 <= i <= |output|
      invariant kudos.path == old(kudos.path)
      invariant ScanLines(path, thisAuthor, init, output[..i])
                == ScanState(authorName, kudos.Value(), registry.authors, registry.authorName)
    {
      ghost var before := ScanState(authorName, kudos.Value(), registry.authors, registry.authorName);
      var line := output[i];
      if HasPrefix(line, AuthorTag) {
        authorName := line[6..];
      }
      if HasPrefix(line, MailTag) {
        var found := MatchEmail(line);
        if found.Some? {
          var email := ProcessEmail(found.value, thisAuthor);
          CountMail(path, email, authorName, registry, kudos);
        }
      }
      assert ScanLine(path, thisAuthor, before, line)
             == ScanState(authorName, kudos.Value(), registry.authors, registry.authorName);
      assert output[..i + 1][..i] == output[..i];
      i := i + 1;
    }
    assert output[..i] == output;
  }

  /** The body of the `author-mail` branch: one more line for `email` in
      `path`, and `email` registered under the pending name if it is new. */
  method CountMail(path: string, email: string, authorName: string, registry: AuthorRegistry, kudos: Kudos)
    modifies registry, kudos
    ensures kudos.path == old(kudos.path)
    ensures kudos.Value() == CountLine(old(kudos.Value()), email, path)
    ensures email in old(registry.authors) ==>
              registry.authors == old(registry.authors) && registry.authorName == old(registry.authorName)
    ensures email !in old(registry.authors) ==>
              registry.authors == old(registry.authors) + {email} &&
              registry.authorName == old(registry.authorName)[email := authorName]
  {
    ghost var c := kudos.Value();
    var files := Files(kudos.authorFileLines, email);
    kudos.authorFileLines := kudos.authorFileLines[email := files[path := Get(files, path) + 1]];
    kudos.authorLines := kudos.authorLines[email := Get(kudos.authorLines, email) + 1];
    kudos.totalLines := kudos.totalLines + 1;
    assert kudos.Value() == CountLine(c, email, path);
    if email !in registry.authors {
      registry.authors := registry.authors + {email};
      registry.authorName := registry.authorName[email := authorName];
    }
  }

  /** The registry gains exactly the addresses counted. */
  lemma {:induction false} ScanAuthors(path: string, thisAuthor: string, st: ScanState, lines: seq<string>)
    ensures ScanLines(path, thisAuthor, st, lines).authors == st.authors + EmailsIn(lines, thisAuthor)
    decreases |lines|
  {
    if lines != [] {
      ScanAuthors(path, thisAuthor, st, lines[..|lines| - 1]);
    }
  }
}
