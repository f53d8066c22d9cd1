# git-kudos: a verified model of the line-attribution engine

`git-kudos` counts the lines each author owns in a git working tree. It
parses the command line, lists and filters the files to look at, runs
`git blame --line-porcelain` on each file, and counts one line for the
address in every `author-mail <...>` header. Each file's counts go into a
`Kudos` record, and the records of all files are added up with `+=`. The
report then lists the authors by descending line count, and optionally
each author's files by descending count.

This project models that engine in Dafny and proves what it promises:

- `strings.dfy` (module `Strings`): the string operations the program
  relies on. These are `find` as a prefix or substring test, `std::tolower`
  in the "C" locale, and lexicographic string order.
- `ordering.dfy` (module `Ordering`): sorting by a comparator. It is an
  insertion sort proved to return a permutation that the comparator orders.
- `email.dfy` (module `Email`): `processEmail`, the canonical key of an
  author address.
- `counts.dfy` (module `Counts`): the counters of a `Kudos` record as a
  value.
  - Their pointwise sum is `Merge`, which is what `+=` computes.
  - The conservation invariant: the total is the sum over authors, and each
    author's count is the sum over that author's files.
  - The algebra of `Merge`: associativity always; the empty record as a
    right identity always; the empty record as a left identity, and
    commutativity, on records that list no author with an empty file map,
    which includes every record the program builds.
- `kudos.dfy` (module `KudosRecord`): the `Kudos` record as a class. It has
  the in-place `+=` (`Add`) and the two sorted views, `SortedAuthors` and
  `SortedFiles`.
- `blame.dfy` (module `Blame`): the `calcKudos` loop over the blame output.
  - The regex `<(.*?)>` is modelled by its effect.
  - The loop is specified by a left fold, `ScanLines`, over the output
    lines.
  - The process-wide author registry (`_authors`, `_authorName`) is the
    class `AuthorRegistry`.
- `selection.dfy` (module `Selection`): listing the given paths, dropping
  the `.git` directory and the excluded paths, and sorting the rest in
  `std::filesystem::path` order.
- `arguments.dfy` (module `Arguments`): the classification of `argv`.
- `report.dfy` (module `Report`): the loop `kudos += calcKudos(file)` over
  the selected files.

The model is parameterised over everything the program asks the outside
world:

- the text of `git blame` for each file, as lines;
- the configured user address `thisAuthor`;
- `fs::exists` and `fs::is_directory`, as functions;
- the recursive directory walk, as a function from a directory to its
  entries.

## Model

| member | source | states |
|---|---|---|
| Strings.ContainsIff | src/main.cpp:315 | The front-to-back search used for `find(p) != npos` succeeds exactly when `p` occurs at some index of the string. |
| Strings.HasPrefix | src/main.cpp:159-162 | Definition of `line.find(p) == 0`: `p` is an initial segment of the line, as tested for `author ` and `author-mail <`. |
| Strings.LowerChar | src/main.cpp:138 | `std::tolower` in the "C" locale changes exactly the 26 ASCII capitals, each to the letter 32 code points above, and never yields a capital. |
| Strings.ToLower | src/main.cpp:138 | The `std::transform` keeps the length and lower-cases every position independently. |
| Strings.ToLowerIdempotent | src/main.cpp:138 | Lower-casing twice is lower-casing once. |
| Strings.StrLe | src/main.cpp:323 | Definition of the lexicographic order on names that `path::compare` applies element by element: a proper prefix comes first, otherwise the first differing character decides. `StrLeTotal`, `StrLeTransitive` and `StrLeAntisymmetric` prove it a total order. |
| Ordering.SortBy | src/main.cpp:67-68 | For any total, transitive comparator, the result is a permutation of the input in which every element may precede every later one. This is what `std::sort` is relied on for here and at src/main.cpp:79-80 and src/main.cpp:323. |
| Email.ProcessEmail | src/main.cpp:137-142 | Any casing of `not.committed.yet` gives `thisAuthor` unchanged. Otherwise the result has the input's length, has no capital letter, and is the input lower-cased position by position. |
| Email.ProcessEmailIsLowerOrLocal | src/main.cpp:137-142 | A canonical key has no capital letter unless it is the local user's address. |
| Email.SentinelResolvesToLocalUser | src/main.cpp:139-140 | Every casing of the sentinel address resolves to the local user. |
| Email.ProcessEmailOfCanonical | src/main.cpp:137-142 | A lower-case address other than the sentinel is its own key. |
| Email.ProcessEmailIdempotent | src/main.cpp:137-142 | Canonicalising a key again changes nothing, provided the configured address has no capital letter. |
| Email.SentinelKeyIsLocalKey | src/main.cpp:137-142 | Uncommitted lines and the local user's committed lines share a key if and only if the configured address has no capital letter or is itself a casing of the sentinel. |
| Counts.MergeCounts | src/main.cpp:89-90 | The pointwise sum of two count maps has exactly the keys of either map. |
| Counts.MergeFiles | src/main.cpp:91-93 | The per-author file maps after `+=` cover the old authors plus those of the other record that have at least one file. |
| Counts.Merge | src/main.cpp:87-94 | Definition of `+=` on values, used by every contract about records: the totals add, the author counts add pointwise (`MergeCounts`), and the file maps add per author (`MergeFiles`). |
| Counts.CountLine | src/main.cpp:167-169 | Definition of counting one line: the (author, file) count, the author count and the total each go up by one, a missing entry counting as 0. |
| Counts.SumMergeCounts | src/main.cpp:89-90 | The sum of counts over a pointwise sum is the sum of the two sums. |
| Counts.EmptyValid | src/main.cpp:145 | A fresh record (`Kudos kudos{}`) satisfies the conservation invariant. |
| Counts.CountLineValid | src/main.cpp:167-169 | Counting one line (the file count, the author count and the total each go up by one) preserves conservation and leaves no author or file at zero. |
| Counts.MergeValid | src/main.cpp:87-94 | `+=` of two valid records is valid: the total is the sum over authors, and each author's count is the sum over that author's files. |
| Counts.MergeConserved | src/main.cpp:87-94 | `+=` preserves the conservation equations on their own. |
| Counts.ValidAuthorsHaveFiles | src/main.cpp:76-78 | In a valid record the authors of `authorLines` and of `authorFileLines` coincide, and no author's file map is empty. So `.at(author)` succeeds for every listed author. |
| Counts.MergeEmpty | src/main.cpp:87-94 | Adding an empty record changes nothing. Adding a record to an empty one gives that record, provided none of its authors has an empty file map. |
| Counts.MergeCommutative | src/main.cpp:87-94 | `a += b` and `b += a` give the same counters when no author of either has an empty file map. |
| Counts.MergeCountsCommutative | src/main.cpp:89-90 | The pointwise sum of count maps is commutative. |
| Counts.MergeCountsAssociative | src/main.cpp:89-90 | The pointwise sum of count maps is associative. |
| Counts.MergeAssociative | src/main.cpp:87-94 | Adding up records is associative, so the grouping of the per-file `+=` does not matter. |
| Counts.ListedMergeFiles | src/main.cpp:91-93 | The authors with files after `+=` are those with files in either record. |
| Counts.FilesOfMerge | src/main.cpp:91-93 | Each author's file map after `+=` is the pointwise sum of that author's file maps. |
| KudosRecord.AddCounts | src/main.cpp:89-90 | The `authorLines[author] += lines` loop gives exactly the union of keys, with every count (a missing key being 0) the sum of the two. |
| KudosRecord.AddFiles | src/main.cpp:91-93 | The nested loop adds exactly the authors of the other record that have files, and each author's file map becomes the pointwise sum. |
| KudosRecord.SortKeysByCount | src/main.cpp:65-74 | The result is a permutation of the map's keys with counts non-increasing along it. |
| KudosRecord.KeysOf | src/main.cpp:67 | The vector built from a map holds each key exactly once. |
| KudosRecord.Kudos.constructor | src/main.cpp:145-146 | A new record has the given path and no counts. |
| KudosRecord.Kudos.Add | src/main.cpp:87-94 | `operator+=`: the total, every author count and every (author, file) count become the sums, and keys absent from both stay absent. The path is kept, and the new value is `Merge` of the old values, which also holds for `k += k`. |
| KudosRecord.Kudos.SortedAuthors | src/main.cpp:65-74 | `calcSortedAuthors` returns each author once, with line counts non-increasing. In a valid record every listed author has a file map. |
| KudosRecord.Kudos.SortedFiles | src/main.cpp:76-85 | `calcSortedFiles(author)` requires a known author, as `.at` does, and returns each of that author's files once, with counts non-increasing. |
| Blame.CloseFrom | src/main.cpp:164-166 | The closing `>` found is the first `>` at or after the start, with only characters that `.` matches before it. |
| Blame.SearchFrom | src/main.cpp:164-166 | The captured group contains no `>` and no line terminator. |
| Blame.MatchEmail | src/main.cpp:163-165 | Definition of `regex_search(line, match, "<(.*?)>")` with `match[1]`: the search from the start of the line, whose capture `SearchFrom` and `MatchEmailOfMailLine` characterise. |
| Blame.LineEmail | src/main.cpp:162-166 | Definition of the address a line counts: on an `author-mail <` line whose regex matches, the `processEmail` key of the capture; on any other line, nothing. |
| Blame.ScanLine | src/main.cpp:157-176 | Definition of one `getline` iteration: an `author ` line sets the pending name, then a counted address adds one line to the counters and, if new, is registered under the pending name. `ScanLineIgnores` and `ScanLineAuthor` state its effect. |
| Blame.ScanLines | src/main.cpp:157-176 | Definition of the loop as the left fold of `ScanLine` over the lines. `ScanTotal`, `ScanAuthor`, `ScanValid` and `ScanRegistry` state its effect, and `ScanOutput` is proved to compute it. |
| Blame.MatchEmailOfMailLine | src/main.cpp:163-166 | On an `author-mail <` line without CR or LF, the regex matches if and only if a `>` follows the `<`. The address captured is the text between that `<` and the first `>` after it. |
| Blame.ScanLineIgnores | src/main.cpp:157-176 | A line that counts no address changes no counter and no registry entry. Only an `author ` line changes something, the pending name, which becomes the text from index 6 on. |
| Blame.ScanTotal | src/main.cpp:157-176 | For one file, `totalLines` grows by exactly the number of `author-mail <` lines on which the regex matches. |
| Blame.ScanAuthor | src/main.cpp:167-169 | Each author's count, and that author's count for this file, grows by exactly the number of lines that count the author. The author's counts for other files do not change. |
| Blame.ScanValid | src/main.cpp:162-169 | The counting loop preserves the conservation invariant. |
| Blame.ScanRegistry | src/main.cpp:171-174 | The registry gains exactly the addresses counted. A registered address keeps its name, since a name is written only on the first sighting, and every registered address has a name. |
| Blame.ScanAuthors | src/main.cpp:171-174 | Every counted address is in `_authors` afterwards, and no other address is added. |
| Blame.AuthorRegistry.constructor | src/main.cpp:53-54 | The registry starts empty and consistent. |
| Blame.CountMail | src/main.cpp:167-174 | The `author-mail` branch counts one line in the record. It registers the address under the pending name if and only if it was not registered. |
| Blame.ScanOutput | src/main.cpp:157-176 | The `getline` loop leaves the record and the registry as the fold `ScanLines` over the output lines describes. |
| Blame.CalcKudos | src/main.cpp:144-180 | `calcKudos` returns a fresh record for the path whose counters are those of the fold. Its total is the number of matching `author-mail` lines, and it is valid. The registry grows by the counted addresses and keeps existing names. |
| Selection.Components | src/main.cpp:323 | Definition of the elements of a path that `path::compare` walks after the root: the text between separators, empty ones left out. Every element is non-empty and contains no separator. |
| Selection.PathLe | src/main.cpp:323 | Definition of `p.compare(q) <= 0` for POSIX paths: a relative path before a rooted one, then names compared lexicographically. `PathLeIsPreorder` proves it total and transitive. |
| Selection.Passes | src/main.cpp:313-320 | Definition of the filter test: the path contains neither `.git` nor any excluded path. |
| Selection.Kept | src/main.cpp:311-322 | Definition of the filtered list: the paths that pass, in input order, repeats kept. `KeptCount` states its multiplicities. |
| Selection.PathLeIsPreorder | src/main.cpp:323 | The path order is total and transitive, so `std::sort` may use it. Relative paths come first, then the names are compared one by one. |
| Selection.KeptCount | src/main.cpp:311-322 | The filter keeps each path that contains neither `.git` nor an excluded path exactly as often as it was given, and drops all others. It is sound and complete, and it does not remove duplicates. |
| Selection.SelectFiles | src/main.cpp:311-323 | The files to process are a permutation of the kept paths, sorted in path order. |
| Selection.ListedFiles | src/main.cpp:300-309 | Definition of what the listing loop collects: for each given path in order, a directory's non-directory walk entries (`NonDirectories`), any other path itself. `ListFiles` is proved to compute it, and `ListedSound`/`ListedComplete` characterise its members. |
| Selection.NonDirectories | src/main.cpp:304-306 | Definition of the entries of one directory walk that are not directories, in walk order. |
| Selection.ListFiles | src/main.cpp:300-309 | The listing loop yields a given directory's non-directory entries in walk order, and any other given path itself. |
| Selection.ListedSound | src/main.cpp:300-309 | No directory is listed, and every listed path is a given path or an entry of a given directory. |
| Selection.ListedComplete | src/main.cpp:300-309 | Every given non-directory path, and every non-directory entry of a given directory, is listed. |
| Arguments.IsExcludeFlag | src/main.cpp:276 | Definition of the exclusion test: the argument contains `--exclude` or `-x` anywhere, as the two `find` calls test. |
| Arguments.Step | src/main.cpp:274-291 | Definition of one non-empty argument that is not help or version: `--detailed`/`-d` turns detail on, an argument containing `--exclude` or `-x` turns exclusion on, `-…` warns of an unknown option, an existing path is processed before the flag and excluded after it, and anything else warns of an unknown path. |
| Arguments.Fold | src/main.cpp:264-297 | Definition of the `argv` loop as a recursion over the remaining arguments: empty arguments skipped, help or version returned at once, and at the end `.` added if no path was given. `FoldProcess`, `ParseProcess`, `ParseStops` and `FoldHasPaths` state what it computes. |
| Arguments.OrCurrent | src/main.cpp:296-297 | The path list is never empty: `.` replaces an empty one, and a non-empty one is kept. |
| Arguments.FirstExclude | src/main.cpp:276-277 | The index found is the first argument that reaches the exclusion test and contains `--exclude` or `-x`. |
| Arguments.ParseArguments | src/main.cpp:264-297 | The `argv` loop from index 1 computes the command that `Fold` specifies. |
| Arguments.ParseProcess | src/main.cpp:264-297 | Without help or version, the command processes. Detail is on if and only if some argument asks for it. The existing paths before the first exclusion flag are processed (`.` if there are none), those after it are excluded, and every unknown option and unknown path is reported, in order. |
| Arguments.ParseStops | src/main.cpp:268-273 | The first `--help`/`-h` or `--version`/`-v` decides the command, whatever precedes or follows it. |
| Arguments.FoldProcess | src/main.cpp:264-297 | From any state of the loop, with no help or version left: detail ends on if it was on or some remaining argument asks for it; before the flag, the remaining existing paths up to the first exclusion flag are processed and those after it excluded, and after the flag all of them are excluded; the remaining unknown options and paths are appended to the warnings in order. |
| Arguments.FoldHasPaths | src/main.cpp:296-297 | A command that processes always has at least one path. |
| Report.Combined | src/main.cpp:330-339 | Definition of the record after the loop: the per-file counters (`FileCounts`) added up with `Merge` in file order. |
| Report.RegistryAfter | src/main.cpp:171-174 | Definition of the registry after the loop: each file's scan starts from the registry the files before it left. |
| Report.RegistryAuthors | src/main.cpp:171-174 | Over all files, `_authors` gains exactly the addresses counted in any file. |
| Report.RegistryNames | src/main.cpp:171-174 | Over all files, every address registered before keeps its name, since a name is written only on an address's first sighting in the whole run, and every registered address has a name. |
| Report.ScanCountsOnly | src/main.cpp:157-176 | A file's counters do not depend on the registry or on the pending name the loop starts from. |
| Report.CombinedValid | src/main.cpp:330-339 | The record summed over all files is valid. |
| Report.CombinedTotal | src/main.cpp:330-339 | Its total is the number of counted lines over all files. |
| Report.CombinedAuthor | src/main.cpp:330-339 | Each author's count is the number of lines counted for that author over all files. Each (author, file) count is the number counted in that file, once for every time the file is listed. |
| Report.CombinedAppend | src/main.cpp:334-339 | The counters of two consecutive runs of files are `Merge` of the two runs' counters. |
| Report.CombinedOrderIndependent | src/main.cpp:334-339 | Any rearrangement of the same files (same multiset) gives the same summed counters. The registry's names are not order independent, since the first name seen for an address is kept. |
| Report.ComputeKudos | src/main.cpp:330-339 | The loop leaves a fresh record equal to the in-order sum of the per-file counters, and the registry as `RegistryAfter` chains it through the files. The registry gains exactly the addresses counted in any file, stays consistent, and every address registered before keeps its name. |

## Left out

- `runCommand` (`popen`, `fgets`, `pclose`) and the `cd … && git blame` command string are process I/O. The blame output comes in as lines, one per `getline`.
- Reading and trimming `git config user.email` is process I/O. The trimmed address is the parameter `thisAuthor`.
- `fs::exists`, `fs::is_directory` and `fs::recursive_directory_iterator` are filesystem access. They are parameters; the walk is a function from a directory to its entries in iteration order.
- `printProgressBar` and `printKudos` are left out: floating-point percentages, terminal widths and ANSI colours.
- `printHelp` and `printVersion` are constant output. The model returns `ShowHelp`/`ShowVersion`.
- The error-stream messages of the `argv` loop are returned as a sequence of warnings rather than written.
- The `std::regex` engine is not modelled. Only the effect of `<(.*?)>` under ECMAScript rules is: the leftmost `<` whose first following `>` comes before any CR or LF.
- Selection.PathLe: `std::filesystem::path` comparison is modelled for POSIX paths without root names. A trailing separator's empty final element is not distinguished, so `a/b/` and `a/b` are equivalent.
- KudosRecord.Kudos.Add: files are keyed by their path string. `std::map<fs::path, …>` would also merge keys that differ only in repeated separators.
- Ordering.SortBy: `std::sort` is modelled by an insertion sort with the same contract, a sorted permutation. Tie order is promised by neither.
- Strings are sequences of characters standing for the bytes of a `std::string`. On valid UTF-8, byte-level `find`, `compare` and "C"-locale `tolower` agree with the character-level operations modelled here; blame output that is not valid UTF-8 cannot be represented.
- `size_t` counters are unbounded naturals. Wrap-around after 2^64 lines is not modelled.
- The configured address is not lower-cased, although the two keys for the local user are evidently meant to be one. The model follows the code, and `Email.SentinelKeyIsLocalKey` states exactly when the two keys coincide.
- An argument containing `-x` anywhere (such as a path `my-xfile`) turns exclusion on and is not taken as a path. A path containing `.git` anywhere (such as `.gitignore`) is skipped. Both are modelled as written.
- The name stored for an author is `line.substr(6)`, including the space after `author`. It is modelled as written.
