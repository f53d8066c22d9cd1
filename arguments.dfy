/** The command line: which paths to blame, which to exclude, whether to
    print per-file detail, or whether to print help or the version instead.
    Whether a path exists on disk (`fs::exists`) is a function given by the
    caller; the messages written to the error stream are returned as
    warnings. */
module Arguments {
  import opened Strings

  /** A message `main` writes to the error stream and then carries on. */
  datatype Warning = UnknownOption(option: string) | UnknownPath(path: string)

  /** What `main` goes on to do. */
  datatype Command =
    | ShowHelp
    | ShowVersion
    | Process(detailed: bool, paths: seq<string>, excludedPaths: seq<string>, warnings: seq<Warning>)

  /** The path processed when none is given. */
  const CurrentDirectory: string := "."

  predicate IsHelp(arg: string) {
    arg == "--help" || arg == "-h"
  }

  predicate IsVersion(arg: string) {
    arg == "--version" || arg == "-v"
  }

  predicate IsDetailed(arg: string) {
    arg == "--detailed" || arg == "-d"
  }

  /** Any argument containing `--exclude` or `-x` turns on exclusion, so
      `-xyz` and `--exclude=foo` do too. */
  predicate IsExcludeFlag(arg: string) {
    Contains(arg, "--exclude") || Contains(arg, "-x")
  }

  /** The argument is the one that turns exclusion on: it reaches the
      `--exclude`/`-x` test because it is no earlier option. */
  predicate SetsExcludeFlag(arg: string) {
    arg != [] && !IsHelp(arg) && !IsVersion(arg) && !IsDetailed(arg) && IsExcludeFlag(arg)
  }

  /** The state of the loop over `argv`. */
  datatype Parse = Parse(
    detailed: bool,
    hasExcludeFlag: bool,
    paths: seq<string>,
    excludedPaths: seq<string>,
    warnings: seq<Warning>)

  const Start: Parse := Parse(false, false, [], [], [])

  /** One non-empty argument that is neither help nor version. */
  function Step(p: Parse, arg: string, exists_: string -> bool): Parse
    requires arg != []
  {
    if IsDetailed(arg) then p.(detailed := true)
    else if IsExcludeFlag(arg) then p.(hasExcludeFlag := true)
    else if arg[0] == '-' then p.(warnings := p.warnings + [UnknownOption(arg)])
    else if exists_(arg) then
      if !p.hasExcludeFlag then p.(paths := p.paths + [arg])
      else p.(excludedPaths := p.excludedPaths + [arg])
    else p.(warnings := p.warnings + [UnknownPath(arg)])
  }

  /** The paths to process once the loop is done: `.` when none was given. */
  function OrCurrent(paths: seq<string>): (r: seq<string>)
    ensures r != []
    ensures paths != [] ==> r == paths
  {
    if paths == [] then [CurrentDirectory] else paths
  }

  /** The rest of the loop from state `p` over `args`: help or version stop
      it at once, empty arguments are skipped. */
  function Fold(p: Parse, args: seq<string>, exists_: string -> bool): Command
    decreases |args|
  {
    if args == [] then Process(p.detailed, OrCurrent(p.paths), p.excludedPaths, p.warnings)
    else
      var arg := args[0];
      if arg == [] then Fold(p, args[1..], exists_)
      else if IsHelp(arg) then ShowHelp
      else if IsVersion(arg) then ShowVersion
      else Fold(Step(p, arg, exists_), args[1..], exists_)
  }

  /** The arguments after the program name. */
  function Args(argv: seq<string>): seq<string> {
    if |argv| <= 1 then [] else argv[1..]
  }

  /** The loop over `argv` in `main` (from index 1), and the default path. */
  method ParseArguments(argv: seq<string>, exists_: string -> bool) returns (cmd: Command)
    ensures cmd == Fold(Start, Args(argv), exists_)
  {
    var isDetailedPrint := false;
    var hasExcludeFlag := false;
    var paths: seq<string> := [];
    var excludedPaths: seq<string> := [];
    var warnings: seq<Warning> := [];
    var i := 1;
    while i < |argv|
      invariant 1 <= i
      invariant Fold(Start, Args(argv), exists_)
                == Fold(Parse(isDetailedPrint, hasExcludeFlag, paths, excludedPaths, warnings),
                        if i < |argv| then argv[i..] else [], exists_)
    {
      var arg := argv[i];
      assert argv[i..][1..] == if i + 1 < |argv| then argv[i + 1..] else [];
      if arg == [] {
        i := i + 1;
        continue;
      }
      if IsHelp(arg) {
        return ShowHelp;
      } else if IsVersion(arg) {
        return ShowVersion;
      } else if IsDetailed(arg) {
        isDetailedPrint := true;
      } else if IsExcludeFlag(arg) {
        hasExcludeFlag := true;
      } else {
        if arg[0] == '-' {
          warnings := warnings + [UnknownOption(arg)];
        } else if exists_(arg) {
          if !hasExcludeFlag {
            paths := paths + [arg];
          } else {
            excludedPaths := excludedPaths + [arg];
          }
        } else {
          warnings := warnings + [UnknownPath(arg)];
        }
      }
      i := i + 1;
    }
    if paths == [] {
      paths := [CurrentDirectory];
    }
    return Process(isDetailedPrint, paths, excludedPaths, warnings);
  }

  /** An argument that names an existing path. */
  predicate IsPathArg(arg: string, exists_: string -> bool) {
    && arg != []
    && !IsHelp(arg) && !IsVersion(arg) && !IsDetailed(arg) && !IsExcludeFlag(arg)
    && arg[0] != '-'
    && exists_(arg)
  }

  /** The argument as a path to add, if it is one. */
  function PathArgOf(arg: string, exists_: string -> bool): seq<string> {
    if IsPathArg(arg, exists_) then [arg] else []
  }

  /** The arguments that name existing paths, in order. */
  function PathArgs(args: seq<string>, exists_: string -> bool): seq<string>
    decreases |args|
  {
    if args == [] then []
    else PathArgOf(args[0], exists_) + PathArgs(args[1..], exists_)
  }

  /** The warning an argument earns, if any. */
  function WarningsOf(arg: string, exists_: string -> bool): seq<Warning> {
    if arg == [] || IsHelp(arg) || IsVersion(arg) || IsDetailed(arg) || IsExcludeFlag(arg) then []
    else if arg[0] == '-' then [UnknownOption(arg)]
    else if !exists_(arg) then [UnknownPath(arg)]
    else []
  }

  function Warnings(args: seq<string>, exists_: string -> bool): seq<Warning>
    decreases |args|
  {
    if args == [] then [] else WarningsOf(args[0], exists_) + Warnings(args[1..], exists_)
  }

  /** The index of the first argument that turns on exclusion, or `|args|`. */
  function FirstExclude(args: seq<string>): (k: nat)
    ensures k <= |args|
    ensures forall j :: 0 <= j < k ==> !SetsExcludeFlag(args[j])
    ensures k < |args| ==> SetsExcludeFlag(args[k])
    decreases |args|
  {
    if args == [] || SetsExcludeFlag(args[0]) then 0 else 1 + FirstExclude(args[1..])
  }

  /** No argument asks for help or the version. */
  predicate NoEarlyExit(args: seq<string>) {
    forall j :: 0 <= j < |args| ==> !IsHelp(args[j]) && !IsVersion(args[j])
  }

  /** Without help or version, the command processes: detail is on when any
      argument asks for it; the existing paths before the first exclusion
      flag are processed (`.` when there are none) and those after it are
      excluded; every unknown option and unknown path is reported, in order. */
  lemma ParseProcess(args: seq<string>, exists_: string -> bool)
    requires NoEarlyExit(args)
    ensures Fold(Start, args, exists_).Process?
    ensures Fold(Start, args, exists_).detailed <==> exists j :: 0 <= j < |args| && IsDetailed(args[j])
    ensures Fold(Start, args, exists_).paths == OrCurrent(PathArgs(args[..FirstExclude(args)], exists_))
    ensures Fold(Start, args, exists_).excludedPaths == PathArgs(args[FirstExclude(args)..], exists_)
    ensures Fold(Start, args, exists_).warnings == Warnings(args, exists_)
  {
    FoldProcess(Start, args, exists_);
    AnyDetailedIff(args);
    BeforeIsPrefix(args, exists_);
    AfterIsSuffix(args, exists_);
    assert [] + PendingPaths(false, args, exists_) == PendingPaths(false, args, exists_);
    assert [] + PendingExcluded(false, args, exists_) == PendingExcluded(false, args, exists_);
    assert [] + Warnings(args, exists_) == Warnings(args, exists_);
  }

  /** Some argument asks for detail. */
  predicate AnyDetailed(args: seq<string>)
    decreases |args|
  {
    args != [] && (IsDetailed(args[0]) || AnyDetailed(args[1..]))
  }

  /** The path arguments up to the first exclusion flag. */
  function Before(args: seq<string>, exists_: string -> bool): seq<string>
    decreases |args|
  {
    if args == [] || SetsExcludeFlag(args[0]) then []
    else PathArgOf(args[0], exists_) + Before(args[1..], exists_)
  }

  /** The path arguments after the first exclusion flag. */
  function After(args: seq<string>, exists_: string -> bool): seq<string>
    decreases |args|
  {
    if args == [] then []
    else if SetsExcludeFlag(args[0]) then PathArgs(args[1..], exists_)
    else After(args[1..], exists_)
  }

  /** The paths the rest of the loop will process, given the flag so far. */
  function PendingPaths(hasExcludeFlag: bool, args: seq<string>, exists_: string -> bool): seq<string> {
    if hasExcludeFlag then [] else Before(args, exists_)
  }

  /** The paths the rest of the loop will exclude, given the flag so far. */
  function PendingExcluded(hasExcludeFlag: bool, args: seq<string>, exists_: string -> bool): seq<string> {
    if hasExcludeFlag then PathArgs(args, exists_) else After(args, exists_)
  }

  lemma {:induction false} AnyDetailedIff(args: seq<string>)
    ensures AnyDetailed(args) <==> exists j :: 0 <= j < |args| && IsDetailed(args[j])
    decreases |args|
  {
    if args != [] {
      AnyDetailedIff(args[1..]);
      if exists j :: 0 <= j < |args| && IsDetailed(args[j]) {
        var j :| 0 <= j < |args| && IsDetailed(args[j]);
        if j > 0 {
          assert IsDetailed(args[1..][j - 1]);
        }
      }
      if exists j :: 0 <= j < |args| - 1 && IsDetailed(args[1..][j]) {
        var j :| 0 <= j < |args| - 1 && IsDetailed(args[1..][j]);
        assert IsDetailed(args[j + 1]);
      }
    }
  }

  lemma {:induction false} BeforeIsPrefix(args: seq<string>, exists_: string -> bool)
    ensures Before(args, exists_) == PathArgs(args[..FirstExclude(args)], exists_)
    decreases |args|
  {
    if args != [] && !SetsExcludeFlag(args[0]) {
      BeforeIsPrefix(args[1..], exists_);
      var k := FirstExclude(args);
      assert args[..k][1..] == args[1..][..k - 1];
    }
  }

  lemma {:induction false} AfterIsSuffix(args: seq<string>, exists_: string -> bool)
    ensures After(args, exists_) == PathArgs(args[FirstExclude(args)..], exists_)
    decreases |args|
  {
    if args != [] && !SetsExcludeFlag(args[0]) {
      AfterIsSuffix(args[1..], exists_);
      assert args[FirstExclude(args)..] == args[1..][FirstExclude(args[1..])..];
    }
  }

  /** `ParseProcess` from any state of the loop. */
  lemma {:induction false} FoldProcess(p: Parse, args: seq<string>, exists_: string -> bool)
    requires NoEarlyExit(args)
    ensures Fold(p, args, exists_).Process?
    ensures Fold(p, args, exists_).detailed == (p.detailed || AnyDetailed(args))
    ensures Fold(p, args, exists_).paths == OrCurrent(p.paths + PendingPaths(p.hasExcludeFlag, args, exists_))
    ensures Fold(p, args, exists_).excludedPaths == p.excludedPaths + PendingExcluded(p.hasExcludeFlag, args, exists_)
    ensures Fold(p, args, exists_).warnings == p.warnings + Warnings(args, exists_)
    decreases |args|
  {
    if args == [] {
      assert p.paths + [] == p.paths && p.excludedPaths + [] == p.excludedPaths && p.warnings + [] == p.warnings;
    } else {
      var arg := args[0];
      var rest := args[1..];
      assert NoEarlyExit(rest) by {
        forall j | 0 <= j < |rest|
          ensures !IsHelp(rest[j]) && !IsVersion(rest[j])
        {
          assert rest[j] == args[j + 1];
        }
      }
      assert !IsHelp(arg) && !IsVersion(arg);
      var q := if arg == [] then p else Step(p, arg, exists_);
      assert Fold(p, args, exists_) == Fold(q, rest, exists_);
      FoldProcess(q, rest, exists_);
      StepFields(p, q, arg, exists_);
      assert AnyDetailed(args) == (IsDetailed(arg) || AnyDetailed(rest));
      PathsStep(p.paths, q.paths, p.hasExcludeFlag, q.hasExcludeFlag, args, exists_);
      ExcludedStep(p.excludedPaths, q.excludedPaths, p.hasExcludeFlag, q.hasExcludeFlag, args, exists_);
      assert Warnings(args, exists_) == WarningsOf(arg, exists_) + Warnings(rest, exists_);
      Associative(p.warnings, WarningsOf(arg, exists_), Warnings(rest, exists_));
    }
  }

  /** Regrouping a concatenation, kept apart so the step lemmas stay cheap. */
  lemma Associative<T>(a: seq<T>, b: seq<T>, c: seq<T>)
    ensures a + b + c == a + (b + c)
  {
  }

  /** What one argument does to each part of the loop state. */
  lemma StepFields(p: Parse, q: Parse, arg: string, exists_: string -> bool)
    requires !IsHelp(arg) && !IsVersion(arg)
    requires q == if arg == [] then p else Step(p, arg, exists_)
    ensures q.detailed == (p.detailed || IsDetailed(arg))
    ensures q.hasExcludeFlag == (p.hasExcludeFlag || SetsExcludeFlag(arg))
    ensures q.paths == p.paths + (if p.hasExcludeFlag then [] else PathArgOf(arg, exists_))
    ensures q.excludedPaths == p.excludedPaths + (if p.hasExcludeFlag then PathArgOf(arg, exists_) else [])
    ensures q.warnings == p.warnings + WarningsOf(arg, exists_)
  {
    if p.hasExcludeFlag {
      StepAfterFlag(p, q, arg, exists_);
    } else if SetsExcludeFlag(arg) {
      StepSetsFlag(p, q, arg, exists_);
    } else {
      StepBeforeFlag(p, q, arg, exists_);
    }
  }

  lemma PathsStep(pp: seq<string>, qp: seq<string>, pf: bool, qf: bool, args: seq<string>, exists_: string -> bool)
    requires args != []
    requires qp == pp + (if pf then [] else PathArgOf(args[0], exists_))
    requires qf == (pf || SetsExcludeFlag(args[0]))
    ensures qp + PendingPaths(qf, args[1..], exists_) == pp + PendingPaths(pf, args, exists_)
  {
    if pf {
      assert qp == pp;
    } else if qf {
      assert PathArgOf(args[0], exists_) == [] && Before(args, exists_) == [];
      assert qp == pp;
    } else {
      var mine := PathArgOf(args[0], exists_);
      var more := Before(args[1..], exists_);
      assert Before(args, exists_) == mine + more;
      Associative(pp, mine, more);
    }
  }

  lemma ExcludedStep(pe: seq<string>, qe: seq<string>, pf: bool, qf: bool, args: seq<string>, exists_: string -> bool)
    requires args != []
    requires qe == pe + (if pf then PathArgOf(args[0], exists_) else [])
    requires qf == (pf || SetsExcludeFlag(args[0]))
    ensures qe + PendingExcluded(qf, args[1..], exists_) == pe + PendingExcluded(pf, args, exists_)
  {
    if pf {
      var mine := PathArgOf(args[0], exists_);
      var more := PathArgs(args[1..], exists_);
      assert PathArgs(args, exists_) == mine + more;
      Associative(pe, mine, more);
    } else if qf {
      assert After(args, exists_) == PathArgs(args[1..], exists_);
      assert qe == pe;
    } else {
      assert After(args, exists_) == After(args[1..], exists_);
      assert qe == pe;
    }
  }

  /** After the flag, an existing path is excluded. */
  lemma StepAfterFlag(p: Parse, q: Parse, arg: string, exists_: string -> bool)
    requires p.hasExcludeFlag && !IsHelp(arg) && !IsVersion(arg)
    requires q == if arg == [] then p else Step(p, arg, exists_)
    ensures q.hasExcludeFlag && q.detailed == (p.detailed || IsDetailed(arg)) && q.paths == p.paths
    ensures q.excludedPaths == p.excludedPaths + PathArgOf(arg, exists_)
    ensures q.warnings == p.warnings + WarningsOf(arg, exists_)
  {
  }

  /** The argument that turns exclusion on adds no path. */
  lemma StepSetsFlag(p: Parse, q: Parse, arg: string, exists_: string -> bool)
    requires SetsExcludeFlag(arg)
    requires q == Step(p, arg, exists_)
    ensures q.hasExcludeFlag && q.detailed == p.detailed && q.paths == p.paths
    ensures q.excludedPaths == p.excludedPaths && q.warnings == p.warnings
  {
  }

  /** Before the flag, an existing path is processed. */
  lemma StepBeforeFlag(p: Parse, q: Parse, arg: string, exists_: string -> bool)
    requires !p.hasExcludeFlag && !SetsExcludeFlag(arg)
    requires !IsHelp(arg) && !IsVersion(arg)
    requires q == if arg == [] then p else Step(p, arg, exists_)
    ensures !q.hasExcludeFlag && q.detailed == (p.detailed || IsDetailed(arg))
    ensures q.paths == p.paths + PathArgOf(arg, exists_)
    ensures q.excludedPaths == p.excludedPaths
    ensures q.warnings == p.warnings + WarningsOf(arg, exists_)
  {
  }

  /** A command that processes always has a path to process. */
  lemma {:induction false} FoldHasPaths(p: Parse, args: seq<string>, exists_: string -> bool)
    ensures Fold(p, args, exists_).Process? ==> Fold(p, args, exists_).paths != []
    decreases |args|
  {
    if args != [] && args[0] == [] {
      FoldHasPaths(p, args[1..], exists_);
    } else if args != [] && !IsHelp(args[0]) && !IsVersion(args[0]) {
      FoldHasPaths(Step(p, args[0], exists_), args[1..], exists_);
    }
  }

  /** The first help or version argument decides, whatever comes before it
      (apart from other help or version arguments) and whatever follows. */
  lemma {:induction false} ParseStops(p: Parse, args: seq<string>, exists_: string -> bool, i: nat)
    requires i < |args| && (IsHelp(args[i]) || IsVersion(args[i]))
    requires forall j :: 0 <= j < i ==> !IsHelp(args[j]) && !IsVersion(args[j])
    ensures Fold(p, args, exists_) == if IsHelp(args[i]) then ShowHelp else ShowVersion
    decreases i
  {
    if i > 0 {
      var q := if args[0] == [] then p else Step(p, args[0], exists_);
      ParseStops(q, args[1..], exists_, i - 1);
    }
  }
}
