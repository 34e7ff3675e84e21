/**
 * What the report makes of the records: the three summary buckets of
 * `calculateStats`, the grand totals of the summary, and which of the six row
 * cases `printResults` picks for a record (column layout is not modelled).
 */
module Report {
  import opened Wrappers
  import GitAdapter
  import opened Evaluator

  /** The three summary counters. */
  datatype Bucket = UpToDate | HasUpdates | Errors

  /** The bucket `calculateStats` puts a record in; the error test comes first. */
  function BucketOf(s: RepoStatus): (b: Bucket)
    ensures b == Errors <==> !s.isRepo || s.error != ""
    ensures b == HasUpdates <==> s.isRepo && s.error == "" && s.hasUpdates
    ensures b == UpToDate <==> s.isRepo && s.error == "" && !s.hasUpdates
  {
    if !s.isRepo || s.error != "" then Errors
    else if s.hasUpdates then HasUpdates
    else UpToDate
  }

  /** How many records of `results` fall in bucket `b`. */
  function Count(results: seq<RepoStatus>, b: Bucket): nat
  {
    if results == [] then 0
    else Count(results[..|results| - 1], b) + (if BucketOf(results[|results| - 1]) == b then 1 else 0)
  }

  lemma {:induction false} CountAppend(xs: seq<RepoStatus>, ys: seq<RepoStatus>, b: Bucket)
    ensures Count(xs + ys, b) == Count(xs, b) + Count(ys, b)
  {
    if ys != [] {
      assert (xs + ys)[..|xs + ys| - 1] == xs + ys[..|ys| - 1];
      CountAppend(xs, ys[..|ys| - 1], b);
    } else {
      assert xs + ys == xs;
    }
  }

  /** Every record falls in exactly one bucket, so the three counts add up to the number of records. */
  lemma {:induction false} CountsPartition(results: seq<RepoStatus>)
    ensures Count(results, UpToDate) + Count(results, HasUpdates) + Count(results, Errors) == |results|
  {
    if results != [] {
      CountsPartition(results[..|results| - 1]);
    }
  }

  datatype Statistics = Statistics(upToDate: nat, hasUpdates: nat, errors: nat)

  /** `calculateStats`: one pass over the records, incrementing one counter per record. */
  method CalculateStats(results: seq<RepoStatus>) returns (stats: Statistics)
    ensures stats.upToDate == Count(results, UpToDate)
    ensures stats.hasUpdates == Count(results, HasUpdates)
    ensures stats.errors == Count(results, Errors)
    ensures stats.upToDate + stats.hasUpdates + stats.errors == |results|
  {
    stats := Statistics(0, 0, 0);
    for i := 0 to |results|
      invariant stats.upToDate == Count(results[..i], UpToDate)
      invariant stats.hasUpdates == Count(results[..i], HasUpdates)
      invariant stats.errors == Count(results[..i], Errors)
    {
      var status := results[i];
      assert results[..i + 1][..i] == results[..i];
      if !status.isRepo || status.error != "" {
        stats := stats.(errors := stats.errors + 1);
      } else if status.hasUpdates {
        stats := stats.(hasUpdates := stats.hasUpdates + 1);
      } else {
        stats := stats.(upToDate := stats.upToDate + 1);
      }
    }
    assert results[..|results|] == results;
    CountsPartition(results);
  }

  /** The grand totals printed under SUMMARY for the core, extension and skin lists. */
  datatype Summary = Summary(total: nat, upToDate: nat, hasUpdates: nat, errors: nat)

  /** The summary block: totals over the three lists; the three counts add up to the total. */
  function Summarize(core: seq<RepoStatus>, extensions: seq<RepoStatus>, skins: seq<RepoStatus>): (r: Summary)
    ensures r.total == |core| + |extensions| + |skins|
    ensures r.upToDate + r.hasUpdates + r.errors == r.total
    ensures r.errors == Count(core + extensions + skins, Errors)
    ensures r.hasUpdates == Count(core + extensions + skins, HasUpdates)
    ensures r.upToDate == Count(core + extensions + skins, UpToDate)
  {
    CountsPartition(core);
    CountsPartition(extensions);
    CountsPartition(skins);
    forall b: Bucket ensures Count(core + extensions + skins, b) == Count(core, b) + Count(extensions, b) + Count(skins, b) {
      CountAppend(core, extensions, b);
      CountAppend(core + extensions, skins, b);
    }
    Summary(|core| + |extensions| + |skins|,
            Count(core, UpToDate) + Count(extensions, UpToDate) + Count(skins, UpToDate),
            Count(core, HasUpdates) + Count(extensions, HasUpdates) + Count(skins, HasUpdates),
            Count(core, Errors) + Count(extensions, Errors) + Count(skins, Errors))
  }

  /** The six row cases of `printResults`, in priority order. */
  datatype RowCase =
    | NotARepoRow
    | ErrorRow(message: string)
    | PulledRow(hadUncommittedChanges: bool)
    | PullFailedRow(detail: string)
    | UpdatesAvailableRow
    | UpToDateRow

  /** The case `printResults` picks: the first test in the chain that holds. */
  function RowCaseOf(s: RepoStatus): (r: RowCase)
    ensures r == NotARepoRow <==> !s.isRepo
    ensures r.ErrorRow? <==> s.isRepo && s.error != ""
    ensures r.PulledRow? <==> s.isRepo && s.error == "" && s.pulled
    ensures r.PullFailedRow? <==> s.isRepo && s.error == "" && !s.pulled && s.pullError != ""
    ensures r == UpdatesAvailableRow <==> s.isRepo && s.error == "" && !s.pulled && s.pullError == "" && s.hasUpdates
    ensures r == UpToDateRow <==> s.isRepo && s.error == "" && !s.pulled && s.pullError == "" && !s.hasUpdates
    ensures r.ErrorRow? ==> r.message == s.error
    ensures r.PulledRow? ==> r.hadUncommittedChanges == s.hadUncommittedChanges
    ensures r.PullFailedRow? ==> r.detail == s.pullError
  {
    if !s.isRepo then NotARepoRow
    else if s.error != "" then ErrorRow(s.error)
    else if s.pulled then PulledRow(s.hadUncommittedChanges)
    else if s.pullError != "" then PullFailedRow(s.pullError)
    else if s.hasUpdates then UpdatesAvailableRow
    else UpToDateRow
  }

  /**
   * The "Behind" column: "N/A" (None) for the two error rows, "0" for a pulled or
   * up-to-date row, the stored count for a failed pull or pending updates.
   */
  function BehindColumn(s: RepoStatus): (r: Option<int>)
    ensures r.None? <==> RowCaseOf(s) == NotARepoRow || RowCaseOf(s).ErrorRow?
    ensures r.Some? && r.value != 0 ==> RowCaseOf(s).PullFailedRow? || RowCaseOf(s) == UpdatesAvailableRow
    ensures RowCaseOf(s).PullFailedRow? || RowCaseOf(s) == UpdatesAvailableRow ==> r == Some(s.behindBy)
    ensures RowCaseOf(s).PulledRow? || RowCaseOf(s) == UpToDateRow ==> r == Some(0)
  {
    match RowCaseOf(s)
    case NotARepoRow => None
    case ErrorRow(_) => None
    case PulledRow(_) => Some(0)
    case PullFailedRow(_) => Some(s.behindBy)
    case UpdatesAvailableRow => Some(s.behindBy)
    case UpToDateRow => Some(0)
  }

  /** The table's two warning rows are exactly the records the summary counts as errors. */
  lemma ErrorRowsAreErrorBucket(s: RepoStatus)
    ensures BucketOf(s) == Errors <==> RowCaseOf(s) == NotARepoRow || RowCaseOf(s).ErrorRow?
  {
  }

  /**
   * For a consistent record the table and the summary agree: an up-to-date row
   * is the up-to-date bucket, and a pulled, failed or pending row is the
   * has-updates bucket. A record that was pulled therefore still counts under
   * "Updates available" in the summary, although its row reads "Pulled".
   */
  lemma RowCaseMatchesBucket(s: RepoStatus)
    requires Consistent(s)
    ensures BucketOf(s) == UpToDate <==> RowCaseOf(s) == UpToDateRow
    ensures BucketOf(s) == HasUpdates <==>
              RowCaseOf(s).PulledRow? || RowCaseOf(s).PullFailedRow? || RowCaseOf(s) == UpdatesAvailableRow
    ensures BucketOf(s) == UpToDate ==> s.behindBy == 0
  {
  }

  /**
   * Which row an evaluated directory ends up in, stated on the inputs: no `.git`;
   * a failed step (with its message); a pull that ran and succeeded or failed;
   * a positive count with no pull; otherwise up to date with a zero count.
   */
  lemma RowCaseOfEvaluation(name: string, kind: string, obs: Observations, policy: Policy)
    ensures var e := Evaluate(name, kind, obs, policy);
      RowCaseOf(e.status) == NotARepoRow <==> !obs.hasGitDir
    ensures var e := Evaluate(name, kind, obs, policy);
      RowCaseOf(e.status).ErrorRow? <==> obs.hasGitDir && (!ReachesDecision(obs) || obs.behind < 0)
    ensures var e := Evaluate(name, kind, obs, policy);
      RowCaseOf(e.status).PulledRow? <==> Pull in e.calls && obs.pull.PullSucceeded?
    ensures var e := Evaluate(name, kind, obs, policy);
      RowCaseOf(e.status).PullFailedRow? <==> Pull in e.calls && obs.pull.PullFailed?
    ensures var e := Evaluate(name, kind, obs, policy);
      RowCaseOf(e.status) == UpdatesAvailableRow <==> ReachesDecision(obs) && obs.behind > 0 && Pull !in e.calls
    ensures var e := Evaluate(name, kind, obs, policy);
      RowCaseOf(e.status) == UpToDateRow <==> ReachesDecision(obs) && obs.behind == 0
  {
    var e := Evaluate(name, kind, obs, policy);
    EvaluateConsistent(name, kind, obs, policy);
    DecisionCases(name, kind, obs, policy);
    PullRequiresEligibility(name, kind, obs, policy);
  }
}
