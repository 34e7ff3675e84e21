# local_mw: a verified model of the repository checker

`local_mw` walks a MediaWiki installation and evaluates each git repository it
contains: the core checkout, every subdirectory of `extensions/` and every
subdirectory of `skins/`. For each repository it:

- asks git for the current branch;
- fetches and counts how many commits the branch is behind its remote;
- checks whether the working tree is dirty;
- on `master`/`main`, and only after confirmation, pulls.

It then prints one table row per repository and a summary. A `--update TYPE
[NAME]` mode updates one chosen repository instead.

This project models the decision logic of `local_mw.cpp` in Dafny and proves
what it promises. External commands, the filesystem and the operator's answers
are inputs, not effects:

- the text each git command prints for one directory is a `Probe`; how
  `execCommand` captures it (a final newline added in verbose mode) is modelled;
- a directory listing is a sequence of `DirEntry`;
- the update target's filesystem is a map from paths to `Node`s.

Modules, one per concern of the source:

- `GitAdapter` (`git_adapter.dfy`): how git output is captured and read. This
  covers `execCommand`'s verbose newline append, the case-sensitive
  "error"/"fatal" substring test of fetch and pull, the newline strip of the
  branch name, `std::stoi` on the behind-count (leading whitespace, sign,
  32-bit range) and the non-empty-means-dirty test.
- `Evaluator` (`evaluator.dfy`): `checkRepository`. It is an imperative method
  with the source's early returns, proved equal to the specification function
  `Evaluate`. That function gives the returned record and the ghost trace of
  external steps taken (`Step`s: git commands and the confirmation prompt), so "no further step runs" can be stated.
  `Observe` turns a `Probe`, captured under the verbose flag, into the
  adapter's readings, and the lemmas are stated over those readings.
- `Report` (`report.dfy`): the three counters of `calculateStats` (a loop
  proved against a counting function), the summary totals, and which of the
  six row cases `printResults` picks.
- `Scanner` (`scanner.dfy`): `scanDirectory`'s sliding window, modelled
  sequentially. Outstanding evaluations form a FIFO. The oldest is collected
  once `maxThreads` are outstanding, and the rest are collected in order at
  the end.
- `SingleUpdate` (`single_update.dfy`): `updateSingleRepo`, as a method proved
  against `UpdateSingle`, plus its exit codes.
- `Cli` (`cli.dfy`): the argument loop of `main`, as a method proved against
  the recursive `ParseFrom`, and the dispatch that follows it.
- `Wrappers` (`wrappers.dfy`): `Option`.

`scanDirectory` (local_mw.cpp:462-465) skips only non-directories, so a hidden
subdirectory is evaluated like any other.

## Model

| member | source | states |
|---|---|---|
| GitAdapter.ExecCommand | local_mw.cpp:97-121 | Outside verbose mode the caller gets exactly the printed text. In verbose mode non-empty text that lacks a final newline gets one, and nothing else changes. |
| GitAdapter.VerboseCaptureReadsAlike | local_mw.cpp:114-117 | The newline verbose capture adds changes none of the readings: branch name, fetch verdict, behind-count, dirty flag and pull verdict are those of the printed text. |
| GitAdapter.ContainsIgnoresNewline | local_mw.cpp:177-182 | A marker without a newline, such as "error" or "fatal", occurs in text with a newline appended exactly when it occurs in the text. |
| GitAdapter.LeadingIntNewline | local_mw.cpp:199-203 | `stoi` reads the same value, or fails the same way, whether or not a newline is appended. |
| GitAdapter.FindFrom | local_mw.cpp:177-182 | The result is the first position at or after the start where the pattern occurs; None means it occurs nowhere from there on. |
| GitAdapter.Contains | local_mw.cpp:177-182 | `find(sub) != npos` holds exactly when the pattern occurs at some position. |
| GitAdapter.PerformPull | local_mw.cpp:230-241 | A pull fails exactly when its output contains "error" or "fatal". The failure detail is then the whole output, at least five characters long. |
| GitAdapter.FetchSucceeded | local_mw.cpp:177-182 | The fetch succeeded exactly when neither "error" nor "fatal" occurs at any position of its output. Silent output counts as success. |
| GitAdapter.CurrentBranch | local_mw.cpp:159-168 | Removes exactly one trailing newline, if there is one, and otherwise returns the output unchanged. The branch is empty exactly for empty output or a lone newline. |
| GitAdapter.CurrentBranchRoundTrip | local_mw.cpp:159-168 | A name printed with its newline is read back as exactly that name. |
| GitAdapter.LeadingInt | local_mw.cpp:191-206 | Any count that `stoi` accepts fits a 32-bit `int`. Its value and its failure cases are stated by LeadingIntOfNumeral and LeadingIntWithoutDigits. |
| GitAdapter.LeadingIntOfNumeral | local_mw.cpp:199-205 | Whitespace, an optional '+' or '-', then digits up to a non-digit or the end: the result is the digits' value with that sign when it fits a 32-bit `int`, and a failure (out of range) otherwise. |
| GitAdapter.LeadingIntWithoutDigits | local_mw.cpp:199-205 | When no digit follows the whitespace and the optional sign, the parse fails (invalid argument), for instance on "- 5", "+", or a git error message. |
| GitAdapter.CommitsBehind | local_mw.cpp:191-206 | The count fits a 32-bit `int`, is -1 for empty output, and any other value than -1 is the parsed one. |
| GitAdapter.CommitsBehindUndetermined | local_mw.cpp:191-206 | The behind-count is -1 exactly when the output is empty, does not parse, or parses as -1. Otherwise it is the parsed value, which lies within `int` range. |
| GitAdapter.LeadingIntOfDigits | local_mw.cpp:199-203 | Unsigned digits followed by a non-digit (or nothing) parse as their decimal value whenever it fits an `int`. |
| GitAdapter.CommitsBehindRoundTrip | local_mw.cpp:191-206 | The output git prints for n commits behind, `"n\n"`, is read back as n, for every n up to INT_MAX. |
| GitAdapter.HasUncommittedChanges | local_mw.cpp:214-219 | The working tree counts as dirty exactly when the status output is non-empty, even one character. |
| GitAdapter.CommitsBehindOfText | local_mw.cpp:191-206 | Output that starts with neither whitespace, a sign nor a digit, such as an error message, gives -1. |
| Evaluator.Affirmative | local_mw.cpp:69-76 | An empty answer is a no. Otherwise the answer is yes exactly when its first character is 'y' or 'Y'; the rest of the line is ignored. |
| Evaluator.ShouldPull | local_mw.cpp:328-330 | Only "master" and "main" are eligible, never under report-only or update mode; outside those modes both names are. |
| Evaluator.VerboseReadsAlike | local_mw.cpp:97-121 | The verbose flag changes no observation but a failed pull's captured output, which then carries the added newline. Whether the pull failed does not change. |
| Evaluator.CheckRepository | local_mw.cpp:250-380 | The record returned and the steps run are exactly what `Evaluate` gives for the adapter's readings of the probe's outputs, as `execCommand` captures them under the verbose flag. |
| Evaluator.PullIfEligible | local_mw.cpp:326-366 | For a repository that is behind, the record and the steps after the four probing ones are exactly what the pull decision `Decide` gives: pull only on an eligible branch, after the gate. |
| Evaluator.NotARepoStopsEarly | local_mw.cpp:259-274 | Without `.git`, the error is "Not a git repository". The count is 0, nothing is pulled or flagged, and no git step runs. |
| Evaluator.EarlyFailuresStop | local_mw.cpp:280-302 | An empty branch stops after the branch query with "Could not determine branch". Fetch output containing "error" or "fatal" stops after the fetch with "Failed to fetch updates". Either way the count stays 0 and nothing is pulled. |
| Evaluator.DecisionCases | local_mw.cpp:280-318 | An evaluation that stops before the count has an error and runs no status query, prompt or pull. One that gets past the fetch starts with the four probing steps and records the observed branch, count and dirty flag. |
| Evaluator.UnknownBehindCount | local_mw.cpp:368-372 | Past the fetch, a negative count gives "No tracking branch or error checking" with nothing pulled, and the dirty flag is still the status query's verdict. |
| Evaluator.DirtyFlagIndependentOfCount | local_mw.cpp:308-318 | The dirty flag is set exactly when the fetch succeeded and the status output is non-empty, whatever the count. The status query runs exactly when the fetch succeeded. |
| Evaluator.PullRequiresEligibility | local_mw.cpp:319-332 | `hasUpdates` holds exactly when the count is positive. A pull runs exactly when the count is positive, the policy is neither report-only nor update mode, the branch is exactly "master" or "main", and the gate confirms. `pulled` holds exactly for such a pull that succeeded. |
| Evaluator.PullOutcomeExclusive | local_mw.cpp:351-360 | A record is never both pulled and failed. A pull error is set exactly when a pull ran and its output contains "error" or "fatal". It is then that output as `execCommand` captured it, with the newline verbose mode adds. |
| Evaluator.ConfirmationGate | local_mw.cpp:332-366 | For an eligible repository there is a prompt exactly when auto-yes is off. Declining keeps `hasUpdates` and the count, with nothing pulled. Under auto-yes the pull follows the probing steps directly. |
| Evaluator.ReportOnlyNeverPulls | local_mw.cpp:326-332 | In a full scan, under `--report-only` `checkRepository` neither prompts nor pulls: no prompt or pull step is taken, nothing is pulled and there is no pull error. |
| Evaluator.EvaluateConsistent | local_mw.cpp:250-380 | Every record returned satisfies the record invariants `Consistent` (see below). |
| Report.BucketOf | local_mw.cpp:412-424 | A record is an error exactly when it is not a repository or has an error. Otherwise it has updates exactly when `hasUpdates` holds, and is up to date otherwise. |
| Report.CountAppend | local_mw.cpp:412-424 | Counting a bucket over two lists joined together gives the sum of the two counts. |
| Report.CountsPartition | local_mw.cpp:412-424 | Each record falls in exactly one bucket, so the three counts sum to the number of records. |
| Report.CalculateStats | local_mw.cpp:412-424 | Each counter equals the number of records in its bucket (an error test first, then `hasUpdates`), and the three sum to the list length. |
| Report.Summarize | local_mw.cpp:849-865 | The summary totals are the per-bucket counts over core, extensions and skins together. They add up to the total number of repositories. |
| Report.RowCaseOf | local_mw.cpp:510-535 | Each row case holds exactly under its own test together with the failure of every earlier test. The warning row carries the error, the pulled row the dirty flag, and the failed-pull row the pull error. |
| Report.BehindColumn | local_mw.cpp:510-535 | "N/A" appears exactly on the two warning rows. Pulled and up-to-date rows show 0. Failed-pull and pending-update rows show the stored count, so a non-zero count appears only there. |
| Report.ErrorRowsAreErrorBucket | local_mw.cpp:412-424 | The table's two warning rows are exactly the records the summary counts as errors. |
| Report.RowCaseMatchesBucket | local_mw.cpp:510-535 | For a consistent record, an up-to-date row is exactly the up-to-date bucket. Pulled, failed-pull and pending rows are exactly the has-updates bucket, so a pulled repository is still counted under "Updates available". |
| Report.RowCaseOfEvaluation | local_mw.cpp:510-535 | The row case of an evaluated directory, stated in terms of its inputs. "Not a git repo" means no `.git`. The error row means a failed step. "Pulled" and "Pull failed" mean a pull ran and succeeded or failed. "Updates available" means a positive count with no pull. "Up to date" means a zero count. |
| Scanner.MaxThreads | local_mw.cpp:457-458 | The window size is at least 1, and equals the hardware concurrency whenever that is positive. |
| Scanner.Subdirectories | local_mw.cpp:462-465 | Only directory entries are kept, in order. |
| Scanner.MapEntriesAppend | local_mw.cpp:462-480 | Mapping over two lists joined together gives the two mapped lists joined together. |
| Scanner.MapEntriesShape | local_mw.cpp:462-480 | One result per entry, and the k-th result is the evaluation of the k-th entry. |
| Scanner.ScanResultsShape | local_mw.cpp:449-483 | A scan has exactly one record per subdirectory, and the k-th record is the evaluation of the k-th subdirectory. |
| Scanner.SubdirectoriesStep | local_mw.cpp:462-465 | One more listed entry adds itself to the subdirectories exactly when it is a directory. |
| Scanner.ScanResultsAdmit | local_mw.cpp:467-470 | Launching one more subdirectory appends its record to the expected result. |
| Scanner.ScanResultsSkip | local_mw.cpp:463-465 | A plain file leaves the expected result unchanged. |
| Scanner.Launch | local_mw.cpp:467-470 | The launched evaluation's record is the evaluation of that subdirectory under the scan's kind and policy. |
| Scanner.Admit | local_mw.cpp:467-475 | A launch joins the window. Once `maxThreads` are outstanding, the oldest is collected. Collected plus outstanding results keep their order, and the window size after the launch is the number outstanding before it plus one, between 1 and `maxThreads`. |
| Scanner.ScanEntry | local_mw.cpp:462-476 | One loop iteration preserves the scan state `Scanned` and the window record `WindowSizes`. `Scanned` says that collected followed by outstanding results equals the expected result so far, and that fewer than `maxThreads` are outstanding. `WindowSizes` says that after n launches min(n, `maxThreads` - 1) evaluations are outstanding, and that launch k left min(k + 1, `maxThreads`) outstanding. A subdirectory appends the queue's size plus one to the record; a file appends nothing. |
| Scanner.WindowGrows | local_mw.cpp:467-475 | Recording a launch as the queue's size plus one keeps the closed form of `WindowSizes`. |
| Scanner.CollectRemaining | local_mw.cpp:478-480 | The remaining outstanding results are appended oldest-first. |
| Scanner.ScanDirectory | local_mw.cpp:449-483 | A missing path or non-directory gives the empty list. Otherwise the results are one record per subdirectory, in enumeration order, each the evaluation of that subdirectory. Launch k (from 0) leaves exactly min(k + 1, `maxThreads`) evaluations outstanding: the window grows by one per launch until it is full, then stays full. |
| SingleUpdate.ExitCode | local_mw.cpp:577-663 | The exit code is 0 exactly for "already up to date", "cancelled" and "updated", and 1 otherwise. |
| SingleUpdate.TargetPath | local_mw.cpp:579-595 | Only "core", "extension" and "skin" are accepted. Core targets the installation itself. The others target the named entry two levels below it, in `extensions/` or `skins/`. |
| SingleUpdate.UpdateSingleRepo | local_mw.cpp:577-663 | The outcome, displayed record and steps are exactly `UpdateSingle`'s, and the returned code is that outcome's exit code. |
| SingleUpdate.FinishUpdate | local_mw.cpp:612-662 | After the evaluation, the outcome, displayed record, steps and exit code are exactly `Conclude`'s. |
| SingleUpdate.EvaluationSummary | local_mw.cpp:612-622 | The update mode reads these from the evaluation. `isRepo` is the presence of `.git`. The error is empty exactly when the fetch succeeded and the count is not negative, and the count is then the observed one. In update mode the evaluation neither prompts nor pulls. |
| SingleUpdate.ConcludeExitCode | local_mw.cpp:612-663 | For an existing directory, exit 1 happens exactly for no `.git`, a failed step, a negative count, or a confirmed pull that failed. "Updated", "already up to date" and "cancelled" each happen under exactly their conditions, whatever the branch. |
| SingleUpdate.UpdateExitCode | local_mw.cpp:577-663 | Exit 1 happens exactly for an invalid type, a missing target, a target that is not a directory, or one of the failures listed in ConcludeExitCode. |
| SingleUpdate.DisplayedCountKnown | local_mw.cpp:624-631 | A displayed record always has an empty error and a count of at least 0, so the "Unknown" count display can never be reached. |
| SingleUpdate.UpdateModeSinglePull | local_mw.cpp:633-662 | In update mode a run prompts at most once and pulls at most once. It pulls exactly when a positive count meets a confirmation, and prompts exactly when a positive count meets no auto-yes. |
| SingleUpdate.UpdateSingleIgnoresReportOnly | local_mw.cpp:577-663 | As written, the update mode gives the same outcome, record and steps whether `--report-only` is set or not. |
| SingleUpdate.ReportOnlyIgnoredInUpdateMode | local_mw.cpp:633-662 | As written, under `--report-only --update` a repository that is behind is still prompted for unless auto-yes is set, and pulled exactly when confirmed. With `-y` and a pull that succeeds, the run reports "updated". |
| SingleUpdate.ReportOnlyUpdateNeverPulls | local_mw.cpp:723 | With the flag honoured (`UpdateSingleReportOnly`), a report-only update never prompts, never pulls, and never ends "updated" or with a failed pull. Without the flag it is exactly the update mode as written. |
| Cli.StopExitCode | local_mw.cpp:676-764 | The loop stops with 0 for `--fox`, `--help` and `--version`, and with 1 for every usage error. |
| Cli.ParseArguments | local_mw.cpp:676-764 | The loop's outcome is exactly `Parse` of the arguments, and the update flags it hands on are well-formed. |
| Cli.ParseFromWellFormed | local_mw.cpp:694-712 | From any position and any well-formed state, a completed parse keeps the update flags well-formed. Without `--update` there is no type or name, and "core" never has a name. |
| Cli.ParseWellFormed | local_mw.cpp:676-764 | Any command line that completes yields well-formed update flags. |
| Cli.SwitchesOnlyFrom | local_mw.cpp:678-686 | On switches alone, each flag ends set exactly when it was set before or one of its spellings occurs among the remaining tokens. |
| Cli.SwitchesOnly | local_mw.cpp:678-686 | A command line of switches only proceeds with no path and exactly the flags named on it. |
| Cli.PathFromTokens | local_mw.cpp:753-763 | The path handed on is the starting one or one of the remaining tokens, and never a token starting with '-'. |
| Cli.FirstStopWins | local_mw.cpp:713-750 | After any run of switches, `--fox`, `-h`/`--help` or `--version` stops the loop with its own reason, whatever follows it. |
| Cli.UpdateArguments | local_mw.cpp:694-712 | `--update core` needs no name. `--update extension` without a name is a usage error. `--update skin Vector PATH` sets type, name and path. |
| Cli.ArgumentExamples | local_mw.cpp:688-763 | An option's argument is consumed even when it starts with '-'. The first stopping token wins. A second path is refused. An empty token does not occupy the path slot. |
| Cli.Dispatch | local_mw.cpp:766-792 | A stop exits with its code. A path that is not a directory, or not a MediaWiki installation, exits with 1. Otherwise update mode runs the single update and any other mode runs the full scan. Both get the policy, and the path typed at the prompt when none was given. |

`Consistent` (the record invariants) says:

- a non-repository is blank apart from its error;
- an error is one of the four messages;
- an error record has nothing pulled and no updates;
- `hasUpdates` holds exactly for a positive count;
- a negative count comes exactly with the tracking error;
- `pulled` and a pull error never both hold;
- either of them needs a positive count on master or main.

## Left out

- Running git (`popen`, reading the pipe in 128-byte chunks), the shell command strings and every `fs::` call are not modelled. Their results are inputs: the `Probe` fields (the text each command prints), `DirEntry.isDirectory`, the `FileSystem` map, and the booleans given to `Dispatch`. A command that cannot be started is a `Probe` field holding the empty text. `execCommand`'s verbose newline append is modelled by `ExecCommand`.
- `isGitRepo` is the `hasGitDir` input. `isMediaWikiDirectory` is the `isMediaWiki` input of `Dispatch`. `countDirectories` is used only for a progress message and is not modelled.
- Threads, `std::async`, futures and `g_coutMutex` are not modelled. The scan is sequential. Each evaluation runs when it is launched and its result waits in the FIFO. `promptForConfirmation` holds the mutex across its question and its read, so prompts do not interleave. Which stdin line each concurrent prompt reads depends on the order in which workers take the mutex, and that is not captured: each directory's answer is its own fixed `Probe.response`.
- `hardware_concurrency` is the `hardwareConcurrency` input of `ScanDirectory`.
- Console and report-file output is not modelled: verbose logging, column widths, emoji, the help, version and `--fox` texts, the timestamp, and the "no extensions found" messages. Only the row case, the "Behind" column value, the summary counts and the exit codes are modelled.
- Reading stdin is not modelled. The prompt answer is `Probe.response`, and the interactively typed path is the `typedPath` input of `Dispatch`.
- In update mode the evaluation does not prompt, so the answer in `Probe.response` goes to `updateSingleRepo`'s own prompt. With a policy outside update mode the same answer would serve both prompts. Separate answers are not modelled.
- Paths are sequences of components, and the filesystem is a map looked up by the path exactly as `TargetPath` joins it. Path normalisation is not modelled: an empty name, `..`, or a separator inside a name.
- The full-scan part of `main` after the dispatch (local_mw.cpp:793-875) is modelled only through its pieces: `CheckRepository` for core, `ScanDirectory` for extensions and skins, `CalculateStats` and `Summarize`. Composing them into one function is not part of this model.
- `Dispatch`'s `UpdateOne(policy, path)` is not composed with `UpdateSingleRepo`. In the source the type and name passed on are `policy.updateType` and `policy.updateName` (local_mw.cpp:790-791), and the policy has `updateMode` set.
- Report-file opening failures and the warning they print are not modelled.
- Branch names are used as git prints them. Shell quoting of the name in the rev-list command is outside the model.

## Findings

| source | as written | input that shows it | evidently intended | confidence | as-written member | corrected member |
|---|---|---|---|---|---|---|
| local_mw.cpp:633-662, with the help text at 723 and 742 | `updateSingleRepo` never reads `g_reportOnly`, and `main` runs it whenever `--update` is given (790-791). | `--report-only --update extension Foo PATH -y` on an extension that is behind: the pull runs and the run reports "updated". | The help promises "Only report status, don't pull updates" and "Use --report-only to skip pulling entirely": a report-only update stops before the prompt and pulls nothing. | medium, not executed | SingleUpdate.ReportOnlyIgnoredInUpdateMode | SingleUpdate.ReportOnlyUpdateNeverPulls |
