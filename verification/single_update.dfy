/**
 * `updateSingleRepo`: the `--update TYPE [NAME]` mode of local_mw.cpp.
 *
 * The target directory is chosen from the type, checked for existence and for
 * being a directory, evaluated once with `checkRepository`, and then, when it
 * is behind, pulled after the confirmation gate. The outcome decides the exit
 * code. The filesystem is an input: a map from paths to the directories found
 * there, each with the git outputs it would produce.
 */
module SingleUpdate {
  import opened Wrappers
  import opened GitAdapter
  import opened Evaluator

  /** A path as its sequence of components below some root. */
  type Path = seq<string>

  /** What exists at a path: a directory or a plain file, and what git would answer there. */
  datatype Node = Node(isDirectory: bool, probe: Probe)

  type FileSystem = map<Path, Node>

  /** The last component of a path (`filename()`); empty for the empty path. */
  function Filename(p: Path): string
  {
    if p == [] then "" else p[|p| - 1]
  }

  /** How `updateSingleRepo` ends; each case is one of its return statements. */
  datatype UpdateOutcome =
    | InvalidType
    | NotFound
    | NotADirectory
    | NotARepository
    | EvaluationFailed(message: string)
    | AlreadyUpToDate
    | Cancelled
    | Updated
    | PullFailure(detail: string)

  /**
   * One run of the update mode: its outcome, the record whose "Repository
   * Status" block is displayed (if the run gets that far), and every external
   * step taken, the evaluation's own steps first.
   */
  datatype UpdateRun = UpdateRun(outcome: UpdateOutcome, shown: Option<RepoStatus>, calls: seq<Step>)

  /** The exit code `updateSingleRepo` returns for each outcome. */
  function ExitCode(outcome: UpdateOutcome): (code: int)
    ensures code == 0 || code == 1
    ensures code == 0 <==> outcome == AlreadyUpToDate || outcome == Cancelled || outcome == Updated
  {
    match outcome
    case AlreadyUpToDate => 0
    case Cancelled => 0
    case Updated => 0
    case _ => 1
  }

  /**
   * The directory an update targets: the installation itself for "core", the
   * named entry of `extensions/` or `skins/` otherwise; any other type is refused.
   */
  function TargetPath(base: Path, kind: string, name: string): (p: Option<Path>)
    ensures p.Some? <==> kind == "core" || kind == "extension" || kind == "skin"
    ensures p.Some? ==> |base| <= |p.value| && p.value[..|base|] == base
    ensures kind == "core" ==> p == Some(base)
    ensures p.Some? && kind != "core" ==>
              |p.value| == |base| + 2 && Filename(p.value) == name &&
              p.value[|base|] == (if kind == "extension" then "extensions" else "skins")
  {
    if kind == "core" then Some(base)
    else if kind == "extension" then Some(base + ["extensions", name])
    else if kind == "skin" then Some(base + ["skins", name])
    else None
  }

  /** What follows the evaluation of an existing directory: the error checks, the gate and the pull. */
  function Conclude(e: Evaluation, obs: Observations, policy: Policy): UpdateRun
  {
    var s := e.status;
    if !s.isRepo then UpdateRun(NotARepository, None, e.calls)
    else if s.error != "" then UpdateRun(EvaluationFailed(s.error), None, e.calls)
    else if s.behindBy <= 0 then UpdateRun(AlreadyUpToDate, Some(s), e.calls)
    else
      var asked := if policy.autoYes then e.calls else e.calls + [Prompt];
      if !Confirms(policy, obs) then UpdateRun(Cancelled, Some(s), asked)
      else
        match obs.pull
        case PullSucceeded => UpdateRun(Updated, Some(s), asked + [Pull])
        case PullFailed(detail) => UpdateRun(PullFailure(detail), Some(s), asked + [Pull])
  }

  /** The specification of `updateSingleRepo`. */
  function UpdateSingle(base: Path, kind: string, name: string, fs: FileSystem, policy: Policy): UpdateRun
  {
    match TargetPath(base, kind, name)
    case None => UpdateRun(InvalidType, None, [])
    case Some(path) =>
      if path !in fs then UpdateRun(NotFound, None, [])
      else if !fs[path].isDirectory then UpdateRun(NotADirectory, None, [])
      else
        var obs := Observe(fs[path].probe, policy.verbose);
        Conclude(Evaluate(Filename(path), kind, obs, policy), obs, policy)
  }

  /**
   * `updateSingleRepo`: returns at the first check that fails, exactly as
   * `UpdateSingle` describes; `exitCode` is its return value.
   */
  method UpdateSingleRepo(base: Path, kind: string, name: string, fs: FileSystem, policy: Policy)
    returns (exitCode: int, outcome: UpdateOutcome, ghost shown: Option<RepoStatus>, ghost calls: seq<Step>)
    ensures outcome == UpdateSingle(base, kind, name, fs, policy).outcome
    ensures shown == UpdateSingle(base, kind, name, fs, policy).shown
    ensures calls == UpdateSingle(base, kind, name, fs, policy).calls
    ensures exitCode == ExitCode(outcome)
  {
    shown, calls := None, [];
    var repoPath: Path;
    if kind == "core" {
      repoPath := base;
    } else if kind == "extension" {
      repoPath := base + ["extensions", name];
    } else if kind == "skin" {
      repoPath := base + ["skins", name];
    } else {
      return 1, InvalidType, shown, calls;
    }

    if repoPath !in fs {
      return 1, NotFound, shown, calls;
    }
    var node := fs[repoPath];
    if !node.isDirectory {
      return 1, NotADirectory, shown, calls;
    }

    var status;
    status, calls := CheckRepository(Filename(repoPath), kind, node.probe, policy);
    ghost var obs := Observe(node.probe, policy.verbose);
    assert Evaluation(status, calls) == Evaluate(Filename(repoPath), kind, obs, policy);
    exitCode, outcome, shown, calls :=
      FinishUpdate(status, calls, node.probe.response, ExecCommand(node.probe.pullOutput, policy.verbose), policy, obs);
  }

  /**
   * The part of `updateSingleRepo` after the evaluation: the error checks, the
   * status display, the confirmation gate and the pull, whose captured output
   * is `pullOutput`. `evaluated` is the evaluation's own trace.
   */
  method FinishUpdate(status: RepoStatus, ghost evaluated: seq<Step>, response: string, pullOutput: string,
                      policy: Policy, ghost obs: Observations)
    returns (exitCode: int, outcome: UpdateOutcome, ghost shown: Option<RepoStatus>, ghost calls: seq<Step>)
    requires obs.confirmed == Affirmative(response) && obs.pull == PerformPull(pullOutput)
    ensures outcome == Conclude(Evaluation(status, evaluated), obs, policy).outcome
    ensures shown == Conclude(Evaluation(status, evaluated), obs, policy).shown
    ensures calls == Conclude(Evaluation(status, evaluated), obs, policy).calls
    ensures exitCode == ExitCode(outcome)
  {
    shown, calls := None, evaluated;
    if !status.isRepo {
      return 1, NotARepository, shown, calls;
    }
    if status.error != "" {
      return 1, EvaluationFailed(status.error), shown, calls;
    }

    shown := Some(status);
    if status.behindBy <= 0 {
      return 0, AlreadyUpToDate, shown, calls;
    }

    var confirmed := policy.autoYes;
    if !confirmed {
      calls := calls + [Prompt];
      confirmed := Affirmative(response);
    }
    if !confirmed {
      return 0, Cancelled, shown, calls;
    }

    calls := calls + [Pull];
    var pull := PerformPull(pullOutput);
    if pull.PullSucceeded? {
      return 0, Updated, shown, calls;
    }
    return 1, PullFailure(pull.detail), shown, calls;
  }

  // ---------------------------------------------------------------------------
  // Properties of the update mode
  // ---------------------------------------------------------------------------

  /** What `Conclude` reads from an evaluation, in terms of the observations. */
  lemma EvaluationSummary(name: string, kind: string, obs: Observations, policy: Policy)
    ensures var s := Evaluate(name, kind, obs, policy).status;
      && s.isRepo == obs.hasGitDir
      && (s.isRepo ==> (s.error == "" <==> ReachesDecision(obs) && obs.behind >= 0))
      && (s.error == "" ==> s.behindBy == obs.behind)
    ensures var e := Evaluate(name, kind, obs, policy);
      policy.updateMode ==> Prompt !in e.calls && Pull !in e.calls
  {
    var e := Evaluate(name, kind, obs, policy);
    DecisionCases(name, kind, obs, policy);
    EvaluateConsistent(name, kind, obs, policy);
    if policy.updateMode && ReachesDecision(obs) {
      assert e.calls == Probed(obs.branch);
    }
  }

  /**
   * Once an existing directory has been evaluated, the run fails (exit code 1)
   * exactly when it is not a repository, the evaluation recorded an error (no
   * branch, failed fetch, undetermined count), or a confirmed pull failed; it
   * succeeds when the count is not positive, the operator declines, or the pull
   * succeeds. The branch plays no part: any branch may be updated in this mode.
   */
  lemma ConcludeExitCode(name: string, kind: string, obs: Observations, policy: Policy)
    ensures var r := Conclude(Evaluate(name, kind, obs, policy), obs, policy);
      ExitCode(r.outcome) == 1 <==>
        !ReachesDecision(obs) || obs.behind < 0 || (obs.behind > 0 && Confirms(policy, obs) && obs.pull.PullFailed?)
    ensures var r := Conclude(Evaluate(name, kind, obs, policy), obs, policy);
      r.outcome == Updated <==> ReachesDecision(obs) && obs.behind > 0 && Confirms(policy, obs) && obs.pull.PullSucceeded?
    ensures var r := Conclude(Evaluate(name, kind, obs, policy), obs, policy);
      r.outcome == AlreadyUpToDate <==> ReachesDecision(obs) && obs.behind == 0
    ensures var r := Conclude(Evaluate(name, kind, obs, policy), obs, policy);
      r.outcome == Cancelled <==> ReachesDecision(obs) && obs.behind > 0 && !Confirms(policy, obs)
  {
    EvaluationSummary(name, kind, obs, policy);
  }

  /**
   * The exit code of the whole update mode: 1 exactly for an invalid type, a
   * missing target, a target that is not a directory, or a failure of the
   * evaluated directory as `ConcludeExitCode` lists; 0 otherwise.
   */
  lemma UpdateExitCode(base: Path, kind: string, name: string, fs: FileSystem, policy: Policy)
    ensures ExitCode(UpdateSingle(base, kind, name, fs, policy).outcome) == 1 <==>
      match TargetPath(base, kind, name)
      case None => true
      case Some(path) =>
        path !in fs || !fs[path].isDirectory ||
        var obs := Observe(fs[path].probe, policy.verbose);
        !ReachesDecision(obs) || obs.behind < 0 || (obs.behind > 0 && Confirms(policy, obs) && obs.pull.PullFailed?)
  {
    match TargetPath(base, kind, name)
    case None =>
    case Some(path) =>
      if path in fs && fs[path].isDirectory {
        var obs := Observe(fs[path].probe, policy.verbose);
        ConcludeExitCode(Filename(path), kind, obs, policy);
      }
  }

  /**
   * The "Unknown" behind-count display can never be reached: a record is only
   * displayed once its error is empty, and then its count is not negative.
   */
  lemma DisplayedCountKnown(base: Path, kind: string, name: string, fs: FileSystem, policy: Policy)
    ensures var r := UpdateSingle(base, kind, name, fs, policy);
      r.shown.Some? ==> r.shown.value.error == "" && r.shown.value.isRepo && r.shown.value.behindBy >= 0
  {
    match TargetPath(base, kind, name)
    case None =>
    case Some(path) =>
      if path in fs && fs[path].isDirectory {
        EvaluationSummary(Filename(path), kind, Observe(fs[path].probe, policy.verbose), policy);
      }
  }

  /**
   * In update mode the evaluation itself neither prompts nor pulls, so a run
   * asks at most once and pulls at most once, pulls only after the gate
   * confirmed, and prompts exactly when a positive count meets no auto-yes.
   */
  lemma UpdateModeSinglePull(name: string, kind: string, obs: Observations, policy: Policy)
    requires policy.updateMode
    ensures var r := Conclude(Evaluate(name, kind, obs, policy), obs, policy);
      multiset(r.calls)[Prompt] <= 1 && multiset(r.calls)[Pull] <= 1
    ensures var r := Conclude(Evaluate(name, kind, obs, policy), obs, policy);
      Pull in r.calls <==> ReachesDecision(obs) && obs.behind > 0 && Confirms(policy, obs)
    ensures var r := Conclude(Evaluate(name, kind, obs, policy), obs, policy);
      Prompt in r.calls <==> ReachesDecision(obs) && obs.behind > 0 && !policy.autoYes
  {
    var e := Evaluate(name, kind, obs, policy);
    EvaluationSummary(name, kind, obs, policy);
    assert multiset(e.calls)[Prompt] == 0 && multiset(e.calls)[Pull] == 0;
    var r := Conclude(e, obs, policy);
    if e.status.isRepo && e.status.error == "" && e.status.behindBy > 0 {
      var asked := if policy.autoYes then e.calls else e.calls + [Prompt];
      assert multiset(asked)[Prompt] <= 1 && multiset(asked)[Pull] == 0;
      assert r.calls == asked || r.calls == asked + [Pull];
    } else {
      assert r.calls == e.calls;
    }
  }

  // ---------------------------------------------------------------------------
  // The report-only flag in update mode
  // ---------------------------------------------------------------------------

  /**
   * As written, `updateSingleRepo` never reads the report-only flag: the whole
   * update mode runs the same whether the flag is set or not.
   */
  lemma UpdateSingleIgnoresReportOnly(base: Path, kind: string, name: string, fs: FileSystem, policy: Policy)
    requires policy.updateMode
    ensures UpdateSingle(base, kind, name, fs, policy.(reportOnly := true))
         == UpdateSingle(base, kind, name, fs, policy.(reportOnly := false))
  {
    match TargetPath(base, kind, name)
    case None =>
    case Some(path) =>
      if path in fs && fs[path].isDirectory {
        var obs := Observe(fs[path].probe, policy.verbose);
        assert Evaluate(Filename(path), kind, obs, policy.(reportOnly := true))
            == Evaluate(Filename(path), kind, obs, policy.(reportOnly := false));
      }
  }

  /**
   * So under `--report-only --update`, a repository that is behind is still
   * offered for a pull, and pulled after a yes: with auto-yes and a pull that
   * succeeds the run reports "updated".
   */
  lemma ReportOnlyIgnoredInUpdateMode(name: string, kind: string, obs: Observations, policy: Policy)
    requires policy.updateMode && policy.reportOnly
    requires ReachesDecision(obs) && obs.behind > 0
    ensures var r := Conclude(Evaluate(name, kind, obs, policy), obs, policy);
      (Prompt in r.calls <==> !policy.autoYes) && (Pull in r.calls <==> Confirms(policy, obs))
    ensures var r := Conclude(Evaluate(name, kind, obs, policy), obs, policy);
      policy.autoYes && obs.pull.PullSucceeded? ==> r.outcome == Updated
  {
    UpdateModeSinglePull(name, kind, obs, policy);
    ConcludeExitCode(name, kind, obs, policy);
  }

  /**
   * What follows the evaluation when the report-only flag is honoured, as the
   * help text of local_mw.cpp promises ("Only report status, don't pull
   * updates"): a repository that is behind is shown and the run stops before
   * the prompt, as if the operator had declined.
   */
  function ConcludeReportOnly(e: Evaluation, obs: Observations, policy: Policy): UpdateRun
  {
    var s := e.status;
    if policy.reportOnly && s.isRepo && s.error == "" && s.behindBy > 0 then UpdateRun(Cancelled, Some(s), e.calls)
    else Conclude(e, obs, policy)
  }

  /** The update mode with the report-only flag honoured. */
  function UpdateSingleReportOnly(base: Path, kind: string, name: string, fs: FileSystem, policy: Policy): UpdateRun
  {
    match TargetPath(base, kind, name)
    case None => UpdateRun(InvalidType, None, [])
    case Some(path) =>
      if path !in fs then UpdateRun(NotFound, None, [])
      else if !fs[path].isDirectory then UpdateRun(NotADirectory, None, [])
      else
        var obs := Observe(fs[path].probe, policy.verbose);
        ConcludeReportOnly(Evaluate(Filename(path), kind, obs, policy), obs, policy)
  }

  /**
   * With the flag honoured, a report-only update never prompts, never pulls and
   * never reports "updated" or a failed pull; without the flag it is the update
   * mode as written.
   */
  lemma ReportOnlyUpdateNeverPulls(base: Path, kind: string, name: string, fs: FileSystem, policy: Policy)
    ensures var r := UpdateSingleReportOnly(base, kind, name, fs, policy);
      policy.reportOnly ==> Prompt !in r.calls && Pull !in r.calls && r.outcome != Updated && !r.outcome.PullFailure?
    ensures !policy.reportOnly ==> UpdateSingleReportOnly(base, kind, name, fs, policy) == UpdateSingle(base, kind, name, fs, policy)
  {
    match TargetPath(base, kind, name)
    case None =>
    case Some(path) =>
      if path in fs && fs[path].isDirectory && policy.reportOnly {
        var obs := Observe(fs[path].probe, policy.verbose);
        ReportOnlyNeverPulls(Filename(path), kind, obs, policy);
      }
  }
}
