/**
 * The per-repository status evaluator (`checkRepository` in local_mw.cpp).
 *
 * One directory is driven through branch detection, fetch, behind-count,
 * dirty-check and the pull decision. What git prints at each step is an input
 * (a `Probe`), read through the adapter into `Observations`; the command-line
 * flags are a read-only `Policy`.
 */
module Evaluator {
  import opened GitAdapter

  /** The record `checkRepository` fills in; field names follow `RepoStatus`. */
  datatype RepoStatus = RepoStatus(
    name: string,
    kind: string,
    isRepo: bool,
    hasUpdates: bool,
    currentBranch: string,
    behindBy: int,
    error: string,
    pulled: bool,
    hadUncommittedChanges: bool,
    pullError: string)

  /** The global flags, fixed once the command line has been read. */
  datatype Policy = Policy(
    verbose: bool,
    reportOnly: bool,
    autoYes: bool,
    updateMode: bool,
    updateType: string,
    updateName: string,
    reportFile: string)

  /**
   * What the outside world answers for one directory: whether it holds `.git`,
   * the text each git command prints (before `execCommand` captures it), and
   * the operator's answer to the prompt.
   */
  datatype Probe = Probe(
    hasGitDir: bool,
    branchOutput: string,
    fetchOutput: string,
    revListOutput: string,
    statusOutput: string,
    response: string,
    pullOutput: string)

  /** The external steps an evaluation performs, in order: the git commands and the confirmation prompt. */
  datatype Step = BranchQuery | Fetch | BehindQuery(branch: string) | StatusQuery | Prompt | Pull

  datatype Evaluation = Evaluation(status: RepoStatus, calls: seq<Step>)

  const NotRepoError := "Not a git repository"
  const NoBranchError := "Could not determine branch"
  const FetchError := "Failed to fetch updates"
  const NoTrackingError := "No tracking branch or error checking"

  /**
   * The operator's answer is a yes: non-empty and starting with 'y' or 'Y'.
   * Only the first character counts, and an empty line is a no.
   */
  function Affirmative(response: string): (yes: bool)
    ensures response == [] ==> !yes
    ensures response != [] ==> (yes <==> response[0] in {'y', 'Y'})
  {
    response != [] && (response[0] == 'y' || response[0] == 'Y')
  }

  /**
   * What each adapter call reports for one directory: the branch name, whether
   * the fetch succeeded, the behind-count, the dirty flag, whether the operator
   * answers yes, and the pull's outcome.
   */
  datatype Observations = Observations(
    hasGitDir: bool,
    branch: string,
    fetchOk: bool,
    behind: int,
    dirty: bool,
    confirmed: bool,
    pull: PullOutcome)

  /** The adapter's reading of each output of `probe`, as `execCommand` captures it under the verbose flag. */
  function Observe(probe: Probe, verbose: bool): Observations
  {
    Observations(
      probe.hasGitDir,
      CurrentBranch(ExecCommand(probe.branchOutput, verbose)),
      FetchSucceeded(ExecCommand(probe.fetchOutput, verbose)),
      CommitsBehind(ExecCommand(probe.revListOutput, verbose)),
      HasUncommittedChanges(ExecCommand(probe.statusOutput, verbose)),
      Affirmative(probe.response),
      PerformPull(ExecCommand(probe.pullOutput, verbose)))
  }

  /**
   * The verbose flag changes no reading but the captured output of a failed
   * pull, which then ends in a newline: every decision is the same either way.
   */
  lemma VerboseReadsAlike(probe: Probe)
    ensures Observe(probe, true).(pull := PullSucceeded) == Observe(probe, false).(pull := PullSucceeded)
    ensures Observe(probe, true).pull.PullFailed? == Observe(probe, false).pull.PullFailed?
    ensures Observe(probe, true).pull.PullFailed? ==>
              Observe(probe, true).pull.detail == ExecCommand(probe.pullOutput, true)
              && Observe(probe, false).pull.detail == probe.pullOutput
  {
    VerboseCaptureReadsAlike(probe.branchOutput);
    VerboseCaptureReadsAlike(probe.fetchOutput);
    VerboseCaptureReadsAlike(probe.revListOutput);
    VerboseCaptureReadsAlike(probe.statusOutput);
    VerboseCaptureReadsAlike(probe.pullOutput);
  }

  /**
   * The pull-eligibility rule: not report-only, not single-update mode, branch
   * exactly master or main (case-sensitive, no other branch).
   */
  function ShouldPull(policy: Policy, branch: string): (eligible: bool)
    ensures eligible ==> branch == "master" || branch == "main"
    ensures policy.reportOnly || policy.updateMode ==> !eligible
    ensures !policy.reportOnly && !policy.updateMode ==> (eligible <==> branch in {"master", "main"})
  {
    !policy.reportOnly && !policy.updateMode && (branch == "master" || branch == "main")
  }

  /** The confirmation gate: auto-yes, or else the operator's answer. */
  predicate Confirms(policy: Policy, obs: Observations)
  {
    policy.autoYes || obs.confirmed
  }

  /** The record before any step has run. */
  function InitialStatus(name: string, kind: string, isRepo: bool): RepoStatus
  {
    RepoStatus(name, kind, isRepo, false, "", 0, "", false, false, "")
  }

  /** The four probing steps that run once the fetch has succeeded. */
  function Probed(branch: string): seq<Step>
  {
    [BranchQuery, Fetch, BehindQuery(branch), StatusQuery]
  }

  /** The specification of `checkRepository`: the record it returns and the steps it takes. */
  function Evaluate(name: string, kind: string, obs: Observations, policy: Policy): Evaluation
  {
    var init := InitialStatus(name, kind, obs.hasGitDir);
    if !obs.hasGitDir then
      Evaluation(init.(error := NotRepoError), [])
    else if obs.branch == "" then
      Evaluation(init.(error := NoBranchError), [BranchQuery])
    else if !obs.fetchOk then
      Evaluation(init.(currentBranch := obs.branch, error := FetchError), [BranchQuery, Fetch])
    else
      var s2 := init.(currentBranch := obs.branch, behindBy := obs.behind, hadUncommittedChanges := obs.dirty);
      if obs.behind > 0 then
        Decide(s2.(hasUpdates := true), obs, policy)
      else if obs.behind < 0 then
        Evaluation(s2.(error := NoTrackingError), Probed(obs.branch))
      else
        Evaluation(s2, Probed(obs.branch))
  }

  /** The pull decision for a repository that is behind (`s.hasUpdates` already set). */
  function Decide(s: RepoStatus, obs: Observations, policy: Policy): Evaluation
  {
    var probed := Probed(obs.branch);
    if !ShouldPull(policy, obs.branch) then
      Evaluation(s, probed)
    else
      var asked := if policy.autoYes then probed else probed + [Prompt];
      if !Confirms(policy, obs) then
        Evaluation(s, asked)
      else
        match obs.pull
        case PullSucceeded => Evaluation(s.(pulled := true), asked + [Pull])
        case PullFailed(detail) => Evaluation(s.(pullError := detail), asked + [Pull])
  }

  /**
   * The invariants every record the evaluator returns satisfies: a non-repository
   * is blank apart from its error; an error record has nothing pulled and no
   * updates; `hasUpdates` is exactly a positive behind-count; `pulled` and a
   * pull error exclude each other and both need a positive count on master/main.
   */
  predicate Consistent(s: RepoStatus)
  {
    && (!s.isRepo ==> s.error == NotRepoError && s.currentBranch == "" && s.behindBy == 0
                      && !s.hasUpdates && !s.pulled && !s.hadUncommittedChanges && s.pullError == "")
    && (s.isRepo ==> s.error == "" || s.error == NoBranchError || s.error == FetchError || s.error == NoTrackingError)
    && (s.error != "" ==> !s.hasUpdates && !s.pulled && s.pullError == "")
    && (s.hasUpdates <==> s.behindBy > 0)
    && (s.isRepo ==> (s.behindBy < 0 <==> s.error == NoTrackingError))
    && !(s.pulled && s.pullError != "")
    && (s.pulled || s.pullError != "" ==>
          s.hasUpdates && (s.currentBranch == "master" || s.currentBranch == "main"))
  }

  /**
   * `checkRepository`: fills the record field by field and returns at the first
   * step that fails, exactly as `Evaluate` describes for the adapter's reading
   * of the outputs; `calls` is the ghost trace of the external steps it ran.
   */
  method CheckRepository(name: string, kind: string, probe: Probe, policy: Policy)
    returns (status: RepoStatus, ghost calls: seq<Step>)
    ensures status == Evaluate(name, kind, Observe(probe, policy.verbose), policy).status
    ensures calls == Evaluate(name, kind, Observe(probe, policy.verbose), policy).calls
  {
    ghost var obs := Observe(probe, policy.verbose);
    status := InitialStatus(name, kind, probe.hasGitDir);
    calls := [];
    if !status.isRepo {
      status := status.(error := NotRepoError);
      return;
    }

    calls := calls + [BranchQuery];
    status := status.(currentBranch := CurrentBranch(ExecCommand(probe.branchOutput, policy.verbose)));
    if status.currentBranch == "" {
      status := status.(error := NoBranchError);
      return;
    }

    calls := calls + [Fetch];
    if !FetchSucceeded(ExecCommand(probe.fetchOutput, policy.verbose)) {
      status := status.(error := FetchError);
      return;
    }

    calls := calls + [BehindQuery(status.currentBranch)];
    status := status.(behindBy := CommitsBehind(ExecCommand(probe.revListOutput, policy.verbose)));
    calls := calls + [StatusQuery];
    status := status.(hadUncommittedChanges := HasUncommittedChanges(ExecCommand(probe.statusOutput, policy.verbose)));

    assert status == InitialStatus(name, kind, true).(currentBranch := obs.branch, behindBy := obs.behind, hadUncommittedChanges := obs.dirty);
    assert calls == Probed(obs.branch);
    if status.behindBy > 0 {
      status := status.(hasUpdates := true);
      ghost var extra;
      status, extra := PullIfEligible(status, probe.response, ExecCommand(probe.pullOutput, policy.verbose), policy, obs);
      calls := calls + extra;
    } else if status.behindBy < 0 {
      status := status.(error := NoTrackingError);
    }
  }

  /**
   * The tail of `checkRepository` for a repository that is behind: on an
   * eligible branch, the confirmation gate and then the pull, whose captured
   * output is `pullOutput`. `extra` is the trace of the steps taken after the
   * four probing ones.
   */
  method PullIfEligible(s: RepoStatus, response: string, pullOutput: string, policy: Policy, ghost obs: Observations)
    returns (status: RepoStatus, ghost extra: seq<Step>)
    requires obs.branch == s.currentBranch && obs.confirmed == Affirmative(response) && obs.pull == PerformPull(pullOutput)
    ensures status == Decide(s, obs, policy).status
    ensures Probed(s.currentBranch) + extra == Decide(s, obs, policy).calls
  {
    status, extra := s, [];
    var shouldPull := ShouldPull(policy, status.currentBranch);
    if shouldPull {
      var userConfirmed := policy.autoYes;
      if !policy.autoYes {
        extra := extra + [Prompt];
        userConfirmed := Affirmative(response);
      }
      if userConfirmed {
        extra := extra + [Pull];
        var outcome := PerformPull(pullOutput);
        if outcome.PullSucceeded? {
          status := status.(pulled := true);
        } else {
          status := status.(pullError := outcome.detail);
        }
      }
    }
  }

  // ---------------------------------------------------------------------------
  // Properties of the evaluator
  // ---------------------------------------------------------------------------

  /** A directory without `.git` yields the blank "Not a git repository" record and runs no git step. */
  lemma NotARepoStopsEarly(name: string, kind: string, obs: Observations, policy: Policy)
    requires !obs.hasGitDir
    ensures var e := Evaluate(name, kind, obs, policy);
      && e.status.error == NotRepoError && !e.status.isRepo
      && e.status.behindBy == 0 && !e.status.pulled && !e.status.hasUpdates
      && e.status.currentBranch == "" && !e.status.hadUncommittedChanges && e.status.pullError == ""
      && e.calls == []
  {
  }

  /**
   * An empty branch stops after the branch query, and a fetch whose output
   * mentions "error" or "fatal" stops after the fetch; in both cases the count
   * stays 0 and nothing is prompted or pulled.
   */
  lemma EarlyFailuresStop(name: string, kind: string, probe: Probe, policy: Policy)
    requires probe.hasGitDir
    requires CurrentBranch(probe.branchOutput) == "" || ReportsFailure(probe.fetchOutput)
    ensures var e := Evaluate(name, kind, Observe(probe, policy.verbose), policy);
      && e.status.behindBy == 0 && !e.status.hasUpdates && !e.status.pulled
      && !e.status.hadUncommittedChanges && e.status.pullError == ""
      && (CurrentBranch(probe.branchOutput) == "" ==>
            e.status.error == NoBranchError && e.calls == [BranchQuery])
      && (CurrentBranch(probe.branchOutput) != "" ==>
            e.status.error == FetchError && e.calls == [BranchQuery, Fetch])
  {
    VerboseReadsAlike(probe);
  }

  /** The preconditions of reaching the behind-count: a repository, a branch and a clean fetch. */
  predicate ReachesDecision(obs: Observations)
  {
    obs.hasGitDir && obs.branch != "" && obs.fetchOk
  }

  /**
   * The shape of an evaluation: one that stops early has neither a count nor a
   * dirty flag nor a status query; one that gets past the fetch starts with the
   * four probing steps and records the count and the dirty flag as observed.
   */
  lemma DecisionCases(name: string, kind: string, obs: Observations, policy: Policy)
    ensures var e := Evaluate(name, kind, obs, policy);
      !ReachesDecision(obs) ==>
        && e.status.error != "" && StatusQuery !in e.calls && Prompt !in e.calls && Pull !in e.calls
        && !e.status.hadUncommittedChanges && !e.status.hasUpdates && !e.status.pulled
        && e.status.pullError == "" && e.status.behindBy == 0
    ensures var e := Evaluate(name, kind, obs, policy);
      ReachesDecision(obs) ==>
        && |e.calls| >= 4 && e.calls[..4] == Probed(obs.branch) && StatusQuery in e.calls
        && e.status.hadUncommittedChanges == obs.dirty
        && e.status.behindBy == obs.behind && e.status.currentBranch == obs.branch
  {
    var e := Evaluate(name, kind, obs, policy);
    if ReachesDecision(obs) {
      assert e.calls[3] == StatusQuery;
      if obs.behind > 0 && ShouldPull(policy, obs.branch) {
        assert e.calls[..4] == Probed(obs.branch);
      }
    }
  }

  /**
   * Once the fetch succeeded, an undetermined behind-count (empty or unparseable
   * rev-list output, or any negative value) is flagged as "No tracking branch or
   * error checking"; nothing is pulled, yet the dirty flag is still computed.
   */
  lemma UnknownBehindCount(name: string, kind: string, obs: Observations, policy: Policy)
    requires ReachesDecision(obs) && obs.behind < 0
    ensures var e := Evaluate(name, kind, obs, policy);
      && e.status.error == NoTrackingError && e.calls == Probed(obs.branch)
      && !e.status.hasUpdates && !e.status.pulled && e.status.pullError == ""
      && e.status.hadUncommittedChanges == obs.dirty
  {
  }

  /**
   * The dirty flag is the status query's verdict exactly when the fetch
   * succeeded, whatever the behind-count; before that it stays false.
   */
  lemma DirtyFlagIndependentOfCount(name: string, kind: string, obs: Observations, policy: Policy)
    ensures var e := Evaluate(name, kind, obs, policy);
      e.status.hadUncommittedChanges <==> ReachesDecision(obs) && obs.dirty
    ensures var e := Evaluate(name, kind, obs, policy);
      StatusQuery in e.calls <==> ReachesDecision(obs)
  {
    DecisionCases(name, kind, obs, policy);
  }

  /**
   * `hasUpdates` is exactly "behind by a positive count", and a pull is attempted
   * exactly when the count is positive, the policy is neither report-only nor
   * single-update, the branch is "master" or "main", and the gate confirmed.
   */
  lemma PullRequiresEligibility(name: string, kind: string, obs: Observations, policy: Policy)
    ensures var e := Evaluate(name, kind, obs, policy);
      e.status.hasUpdates <==> ReachesDecision(obs) && obs.behind > 0
    ensures var e := Evaluate(name, kind, obs, policy);
      Pull in e.calls <==>
        && ReachesDecision(obs) && obs.behind > 0
        && !policy.reportOnly && !policy.updateMode
        && (obs.branch == "master" || obs.branch == "main")
        && Confirms(policy, obs)
    ensures var e := Evaluate(name, kind, obs, policy);
      e.status.pulled <==> Pull in e.calls && obs.pull.PullSucceeded?
  {
    var e := Evaluate(name, kind, obs, policy);
    DecisionCases(name, kind, obs, policy);
    if ReachesDecision(obs) && obs.behind > 0 && ShouldPull(policy, obs.branch) && Confirms(policy, obs) {
      assert e.calls[|e.calls| - 1] == Pull;
    }
  }

  /**
   * A pull error is set only by a failed pull and is then the pull's output as
   * `execCommand` captured it (with the newline verbose mode adds), which
   * mentions "error" or "fatal"; a record is never both pulled and failed.
   */
  lemma PullOutcomeExclusive(name: string, kind: string, probe: Probe, policy: Policy)
    ensures var e := Evaluate(name, kind, Observe(probe, policy.verbose), policy);
      !(e.status.pulled && e.status.pullError != "")
    ensures var e := Evaluate(name, kind, Observe(probe, policy.verbose), policy);
      e.status.pullError != "" <==> Pull in e.calls && ReportsFailure(probe.pullOutput)
    ensures var e := Evaluate(name, kind, Observe(probe, policy.verbose), policy);
      e.status.pullError != "" ==>
        e.status.pullError == ExecCommand(probe.pullOutput, policy.verbose) && ReportsFailure(e.status.pullError)
  {
    var obs := Observe(probe, policy.verbose);
    VerboseReadsAlike(probe);
    PullRequiresEligibility(name, kind, obs, policy);
  }

  /**
   * The confirmation gate: an eligible repository prompts exactly once unless
   * auto-yes is set, and never otherwise; declining keeps `hasUpdates` and the
   * count, with nothing pulled.
   */
  lemma ConfirmationGate(name: string, kind: string, obs: Observations, policy: Policy)
    requires ReachesDecision(obs) && obs.behind > 0 && ShouldPull(policy, obs.branch)
    ensures var e := Evaluate(name, kind, obs, policy);
      (Prompt in e.calls <==> !policy.autoYes)
    ensures var e := Evaluate(name, kind, obs, policy);
      !policy.autoYes && !obs.confirmed ==>
        && e.status.hasUpdates && !e.status.pulled && e.status.pullError == ""
        && e.status.behindBy == obs.behind && e.calls == Probed(obs.branch) + [Prompt]
    ensures var e := Evaluate(name, kind, obs, policy);
      policy.autoYes ==> e.calls == Probed(obs.branch) + [Pull]
  {
    var e := Evaluate(name, kind, obs, policy);
    if policy.autoYes {
      assert Prompt !in Probed(obs.branch) + [Pull];
    } else {
      assert e.calls[4] == Prompt;
    }
  }

  /**
   * Under the report-only policy `checkRepository` neither prompts nor pulls.
   * (The single-update mode does not consult the flag; see
   * `SingleUpdate.ReportOnlyIgnoredInUpdateMode`.)
   */
  lemma ReportOnlyNeverPulls(name: string, kind: string, obs: Observations, policy: Policy)
    requires policy.reportOnly
    ensures var e := Evaluate(name, kind, obs, policy);
      Prompt !in e.calls && Pull !in e.calls && !e.status.pulled && e.status.pullError == ""
  {
    var e := Evaluate(name, kind, obs, policy);
    DecisionCases(name, kind, obs, policy);
    if ReachesDecision(obs) {
      assert e.calls == Probed(obs.branch);
    }
  }

  /** Every record the evaluator produces satisfies the record invariants. */
  lemma EvaluateConsistent(name: string, kind: string, obs: Observations, policy: Policy)
    ensures Consistent(Evaluate(name, kind, obs, policy).status)
  {
    var e := Evaluate(name, kind, obs, policy);
    if !ReachesDecision(obs) {
      DecisionCases(name, kind, obs, policy);
    } else if obs.behind > 0 {
      assert e.status.error == "" && e.status.hasUpdates && e.status.currentBranch == obs.branch;
    }
  }
}
