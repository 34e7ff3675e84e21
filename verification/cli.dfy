/**
 * The command line of local_mw.cpp: the argument loop of `main`, which consumes
 * the tokens after the program name left to right, sets the global flags and
 * either goes on to the run or stops with an exit code; and the dispatch that
 * follows it (path validation, single update or full scan).
 */
module Cli {
  import opened Evaluator

  /** Why the argument loop stops the program before any repository is looked at. */
  datatype StopReason =
    | Fox                               // `--fox`
    | Help                              // `-h`, `--help`
    | Version                           // `--version`
    | MissingReportFile                 // `--report-file` as the last token
    | MissingUpdateType                 // `--update` as the last token
    | MissingUpdateName(updateType: string)  // `--update TYPE` as the last tokens, TYPE not "core"
    | UnknownOption(arg: string)        // any other token starting with '-'
    | ExtraPositional(arg: string)      // a second path after one has been given

  /** The exit code `main` returns when the loop stops: 0 for the informational options, 1 for a usage error. */
  function StopExitCode(reason: StopReason): (code: int)
    ensures code == 0 || code == 1
    ensures code == 0 <==> reason == Fox || reason == Help || reason == Version
  {
    match reason
    case Fox => 0
    case Help => 0
    case Version => 0
    case _ => 1
  }

  /** The result of the argument loop: the flags and the path given (empty if none), or a stop. */
  datatype CliOutcome = Proceed(policy: Policy, path: string) | Stop(reason: StopReason)

  /** The global flags before the loop: everything off and empty. */
  const Defaults := Policy(false, false, false, false, "", "", "")

  /** A token that is treated as an (unknown) option: non-empty and starting with '-'. */
  predicate LooksLikeOption(arg: string)
  {
    |arg| > 0 && arg[0] == '-'
  }

  /**
   * The specification of the argument loop from position `i`, with the flags
   * `policy` and the path `path` gathered so far. `--report-file` and
   * `--update` consume the following token(s) whatever they look like;
   * `--update core` takes no name and clears any earlier one. An empty token is
   * not an option: it is taken as the path, which then stays empty.
   */
  function ParseFrom(args: seq<string>, i: nat, policy: Policy, path: string): CliOutcome
    decreases |args| - i
  {
    if i >= |args| then Proceed(policy, path)
    else
      var arg := args[i];
      if arg == "-v" || arg == "--verbose" then
        ParseFrom(args, i + 1, policy.(verbose := true), path)
      else if arg == "--report-only" then
        ParseFrom(args, i + 1, policy.(reportOnly := true), path)
      else if arg == "--yes" || arg == "-y" then
        ParseFrom(args, i + 1, policy.(autoYes := true), path)
      else if arg == "--report-file" then
        if i + 1 >= |args| then Stop(MissingReportFile)
        else ParseFrom(args, i + 2, policy.(reportFile := args[i + 1]), path)
      else if arg == "--update" then
        if i + 1 >= |args| then Stop(MissingUpdateType)
        else
          var updateType := args[i + 1];
          if updateType == "core" then
            ParseFrom(args, i + 2, policy.(updateMode := true, updateType := updateType, updateName := ""), path)
          else if i + 2 >= |args| then Stop(MissingUpdateName(updateType))
          else
            ParseFrom(args, i + 3, policy.(updateMode := true, updateType := updateType, updateName := args[i + 2]), path)
      else if arg == "--fox" then Stop(Fox)
      else if arg == "-h" || arg == "--help" then Stop(Help)
      else if arg == "--version" then Stop(Version)
      else if LooksLikeOption(arg) then Stop(UnknownOption(arg))
      else if path == "" then ParseFrom(args, i + 1, policy, arg)
      else Stop(ExtraPositional(arg))
  }

  /** The outcome of the whole command line (the tokens after the program name). */
  function Parse(args: seq<string>): CliOutcome
  {
    ParseFrom(args, 0, Defaults, "")
  }

  /**
   * The argument loop of `main`: the globals are local variables here and are
   * handed back as a `Policy` when the loop runs to the end.
   */
  method ParseArguments(args: seq<string>) returns (outcome: CliOutcome)
    ensures outcome == Parse(args)
    ensures outcome.Proceed? ==> WellFormed(outcome.policy)
  {
    var verbose, reportOnly, autoYes, updateMode := false, false, false, false;
    var updateType, updateName, reportFile := "", "", "";
    var mwPath := "";
    var i := 0;
    while i < |args|
      invariant i <= |args|
      invariant ParseFrom(args, i, Policy(verbose, reportOnly, autoYes, updateMode, updateType, updateName, reportFile), mwPath)
                == Parse(args)
      invariant WellFormed(Policy(verbose, reportOnly, autoYes, updateMode, updateType, updateName, reportFile))
      decreases |args| - i
    {
      var arg := args[i];
      if arg == "-v" || arg == "--verbose" {
        verbose := true;
      } else if arg == "--report-only" {
        reportOnly := true;
      } else if arg == "--yes" || arg == "-y" {
        autoYes := true;
      } else if arg == "--report-file" {
        if i + 1 >= |args| {
          return Stop(MissingReportFile);
        }
        i := i + 1;
        reportFile := args[i];
      } else if arg == "--update" {
        if i + 1 >= |args| {
          return Stop(MissingUpdateType);
        }
        updateMode := true;
        i := i + 1;
        updateType := args[i];
        if updateType == "core" {
          updateName := "";
        } else if i + 1 >= |args| {
          return Stop(MissingUpdateName(updateType));
        } else {
          i := i + 1;
          updateName := args[i];
        }
      } else if arg == "--fox" {
        return Stop(Fox);
      } else if arg == "-h" || arg == "--help" {
        return Stop(Help);
      } else if arg == "--version" {
        return Stop(Version);
      } else if |arg| > 0 && arg[0] == '-' {
        return Stop(UnknownOption(arg));
      } else if mwPath == "" {
        mwPath := arg;
      } else {
        return Stop(ExtraPositional(arg));
      }
      i := i + 1;
    }
    outcome := Proceed(Policy(verbose, reportOnly, autoYes, updateMode, updateType, updateName, reportFile), mwPath);
  }

  // ---------------------------------------------------------------------------
  // Properties of the argument loop
  // ---------------------------------------------------------------------------

  /**
   * The shape of the update flags the loop can produce: without `--update`
   * there is neither a type nor a name, and a "core" update never has a name.
   */
  predicate WellFormed(policy: Policy)
  {
    && (!policy.updateMode ==> policy.updateType == "" && policy.updateName == "")
    && (policy.updateType == "core" ==> policy.updateName == "")
  }

  /** Every token sequence the loop runs through keeps the update flags well-formed. */
  lemma {:induction false} ParseFromWellFormed(args: seq<string>, i: nat, policy: Policy, path: string)
    requires WellFormed(policy)
    ensures ParseFrom(args, i, policy, path).Proceed? ==> WellFormed(ParseFrom(args, i, policy, path).policy)
    decreases |args| - i
  {
    if i < |args| {
      var arg := args[i];
      if arg == "-v" || arg == "--verbose" {
        ParseFromWellFormed(args, i + 1, policy.(verbose := true), path);
      } else if arg == "--report-only" {
        ParseFromWellFormed(args, i + 1, policy.(reportOnly := true), path);
      } else if arg == "--yes" || arg == "-y" {
        ParseFromWellFormed(args, i + 1, policy.(autoYes := true), path);
      } else if arg == "--report-file" {
        if i + 1 < |args| {
          ParseFromWellFormed(args, i + 2, policy.(reportFile := args[i + 1]), path);
        }
      } else if arg == "--update" {
        if i + 1 < |args| {
          var updateType := args[i + 1];
          if updateType == "core" {
            ParseFromWellFormed(args, i + 2, policy.(updateMode := true, updateType := updateType, updateName := ""), path);
          } else if i + 2 < |args| {
            ParseFromWellFormed(args, i + 3, policy.(updateMode := true, updateType := updateType, updateName := args[i + 2]), path);
          }
        }
      } else if !(arg == "--fox" || arg == "-h" || arg == "--help" || arg == "--version" || LooksLikeOption(arg)) && path == "" {
        ParseFromWellFormed(args, i + 1, policy, arg);
      }
    }
  }

  /** Any command line that gets past the loop yields well-formed update flags. */
  lemma ParseWellFormed(args: seq<string>)
    ensures Parse(args).Proceed? ==> WellFormed(Parse(args).policy)
  {
    ParseFromWellFormed(args, 0, Defaults, "");
  }

  /** The three switches that take no argument and only set a flag. */
  predicate IsSwitch(arg: string)
  {
    arg == "-v" || arg == "--verbose" || arg == "--report-only" || arg == "--yes" || arg == "-y"
  }

  /**
   * A command line made only of switches, from position `i`: the loop runs to
   * the end, and each flag ends up set exactly when it was set before or one
   * of its spellings occurs among the remaining tokens; nothing else changes.
   */
  lemma {:induction false} SwitchesOnlyFrom(args: seq<string>, i: nat, policy: Policy, path: string)
    requires i <= |args|
    requires forall k :: i <= k < |args| ==> IsSwitch(args[k])
    ensures ParseFrom(args, i, policy, path) ==
      Proceed(policy.(verbose := policy.verbose || "-v" in args[i..] || "--verbose" in args[i..],
                      reportOnly := policy.reportOnly || "--report-only" in args[i..],
                      autoYes := policy.autoYes || "--yes" in args[i..] || "-y" in args[i..]),
              path)
    decreases |args| - i
  {
    if i < |args| {
      assert args[i..] == [args[i]] + args[i + 1..];
      var arg := args[i];
      if arg == "-v" || arg == "--verbose" {
        SwitchesOnlyFrom(args, i + 1, policy.(verbose := true), path);
      } else if arg == "--report-only" {
        SwitchesOnlyFrom(args, i + 1, policy.(reportOnly := true), path);
      } else {
        SwitchesOnlyFrom(args, i + 1, policy.(autoYes := true), path);
      }
    }
  }

  /** A command line of switches only proceeds without a path, with exactly the flags named on it. */
  lemma SwitchesOnly(args: seq<string>)
    requires forall k :: 0 <= k < |args| ==> IsSwitch(args[k])
    ensures Parse(args) ==
      Proceed(Defaults.(verbose := "-v" in args || "--verbose" in args,
                        reportOnly := "--report-only" in args,
                        autoYes := "--yes" in args || "-y" in args),
              "")
  {
    SwitchesOnlyFrom(args, 0, Defaults, "");
    assert args[0..] == args;
  }

  /**
   * The path the loop hands on is the one it started with or one of the
   * remaining tokens; a token that looks like an option is never taken as the path.
   */
  lemma {:induction false} PathFromTokens(args: seq<string>, i: nat, policy: Policy, path: string)
    ensures var o := ParseFrom(args, i, policy, path);
      o.Proceed? ==> o.path == path || (o.path in args[i..] && !LooksLikeOption(o.path))
    decreases |args| - i
  {
    if i < |args| {
      var arg := args[i];
      if arg == "-v" || arg == "--verbose" {
        PathFromTokens(args, i + 1, policy.(verbose := true), path);
      } else if arg == "--report-only" {
        PathFromTokens(args, i + 1, policy.(reportOnly := true), path);
      } else if arg == "--yes" || arg == "-y" {
        PathFromTokens(args, i + 1, policy.(autoYes := true), path);
      } else if arg == "--report-file" {
        if i + 1 < |args| {
          PathFromTokens(args, i + 2, policy.(reportFile := args[i + 1]), path);
        }
      } else if arg == "--update" {
        if i + 1 < |args| {
          var updateType := args[i + 1];
          if updateType == "core" {
            PathFromTokens(args, i + 2, policy.(updateMode := true, updateType := updateType, updateName := ""), path);
          } else if i + 2 < |args| {
            PathFromTokens(args, i + 3, policy.(updateMode := true, updateType := updateType, updateName := args[i + 2]), path);
          }
        }
      } else if !(arg == "--fox" || arg == "-h" || arg == "--help" || arg == "--version" || LooksLikeOption(arg)) && path == "" {
        PathFromTokens(args, i + 1, policy, arg);
      }
    }
  }

  /**
   * The first stopping token wins: after any run of switches, `--fox`,
   * `--help`/`-h` or `--version` stops the loop with its own reason, whatever
   * follows it.
   */
  lemma {:induction false} FirstStopWins(args: seq<string>, i: nat, j: nat, policy: Policy, path: string)
    requires i <= j < |args|
    requires forall k :: i <= k < j ==> IsSwitch(args[k])
    requires args[j] == "--fox" || args[j] == "-h" || args[j] == "--help" || args[j] == "--version"
    ensures ParseFrom(args, i, policy, path) ==
              Stop(if args[j] == "--fox" then Fox else if args[j] == "--version" then Version else Help)
    decreases j - i
  {
    if i < j {
      var arg := args[i];
      if arg == "-v" || arg == "--verbose" {
        FirstStopWins(args, i + 1, j, policy.(verbose := true), path);
      } else if arg == "--report-only" {
        FirstStopWins(args, i + 1, j, policy.(reportOnly := true), path);
      } else {
        FirstStopWins(args, i + 1, j, policy.(autoYes := true), path);
      }
    }
  }

  /** `--update core` needs no name; `--update extension` without a name is a usage error. */
  lemma UpdateArguments()
    ensures Parse(["--update", "core"]) == Proceed(Defaults.(updateMode := true, updateType := "core"), "")
    ensures Parse(["--update", "extension"]) == Stop(MissingUpdateName("extension"))
    ensures Parse(["--update", "skin", "Vector", "/srv/mw"]) ==
              Proceed(Defaults.(updateMode := true, updateType := "skin", updateName := "Vector"), "/srv/mw")
  {
  }

  /**
   * Option arguments are consumed whatever they look like, the first stop
   * wins over everything after it, and a second path is refused.
   */
  lemma ArgumentExamples()
    ensures Parse(["--report-file", "-v"]) == Proceed(Defaults.(reportFile := "-v"), "")
    ensures Parse(["--help", "--bogus"]) == Stop(Help)
    ensures Parse(["--bogus", "--help"]) == Stop(UnknownOption("--bogus"))
    ensures Parse(["/a", "/b"]) == Stop(ExtraPositional("/b"))
    ensures Parse(["", "/b"]) == Proceed(Defaults, "/b")
  {
  }

  // ---------------------------------------------------------------------------
  // After the loop
  // ---------------------------------------------------------------------------

  /** What `main` goes on to do once the command line has been read. */
  datatype Next =
    | Exit(code: int)
    | UpdateOne(policy: Policy, path: string)
    | ScanAll(policy: Policy, path: string)

  /**
   * The dispatch of `main`: a stop exits with its code; with no path given the
   * path typed at the prompt (`typedPath`) is used; a path that does not name an
   * existing directory, or one that does not look like a MediaWiki installation,
   * exits with 1; otherwise the single update or the full scan runs. The
   * filesystem tests are inputs.
   */
  function Dispatch(outcome: CliOutcome, typedPath: string, isDirectory: bool, isMediaWiki: bool): (next: Next)
    ensures next.Exit? ==> next.code == 0 || next.code == 1
    ensures next.Exit? && next.code == 0 <==> outcome.Stop? && StopExitCode(outcome.reason) == 0
    ensures !next.Exit? <==> outcome.Proceed? && isDirectory && isMediaWiki
    ensures next.UpdateOne? <==> outcome.Proceed? && isDirectory && isMediaWiki && outcome.policy.updateMode
    ensures !next.Exit? ==>
              next.policy == outcome.policy &&
              next.path == (if outcome.path == "" then typedPath else outcome.path)
  {
    match outcome
    case Stop(reason) => Exit(StopExitCode(reason))
    case Proceed(policy, path) =>
      var mwPath := if path == "" then typedPath else path;
      if !isDirectory then Exit(1)
      else if !isMediaWiki then Exit(1)
      else if policy.updateMode then UpdateOne(policy, mwPath)
      else ScanAll(policy, mwPath)
  }
}
