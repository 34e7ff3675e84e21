/**
 * `scanDirectory`: evaluates every immediate subdirectory of the extensions or
 * skins directory with a sliding window of at most `maxThreads` outstanding
 * evaluations, collecting the results oldest-first.
 *
 * The asynchronous tasks become a FIFO queue of finished results: an evaluation
 * depends only on its own directory's probe and the policy, so running it when
 * its `std::async` call is made gives the result that call would have given.
 */
module Scanner {
  import opened Evaluator

  /** One entry of the directory listing, in enumeration order. */
  datatype DirEntry = DirEntry(name: string, isDirectory: bool, probe: Probe)

  /** `max(1u, hardware_concurrency())`: the window size, never zero. */
  function MaxThreads(hardwareConcurrency: nat): (n: nat)
    ensures n >= 1 && n >= hardwareConcurrency
    ensures hardwareConcurrency >= 1 ==> n == hardwareConcurrency
  {
    if hardwareConcurrency < 1 then 1 else hardwareConcurrency
  }

  /** The entries that are directories, in enumeration order; plain files are skipped. */
  function Subdirectories(entries: seq<DirEntry>): (dirs: seq<DirEntry>)
    ensures |dirs| <= |entries|
    ensures forall k :: 0 <= k < |dirs| ==> dirs[k].isDirectory
  {
    if entries == [] then []
    else
      var last := entries[|entries| - 1];
      var init := Subdirectories(entries[..|entries| - 1]);
      if last.isDirectory then init + [last] else init
  }

  /** `eval` applied to each of `dirs`, in the same order. */
  function MapEntries<R>(dirs: seq<DirEntry>, eval: DirEntry -> R): seq<R>
  {
    if dirs == [] then [] else MapEntries(dirs[..|dirs| - 1], eval) + [eval(dirs[|dirs| - 1])]
  }

  lemma {:induction false} MapEntriesAppend<R>(xs: seq<DirEntry>, ys: seq<DirEntry>, eval: DirEntry -> R)
    ensures MapEntries(xs + ys, eval) == MapEntries(xs, eval) + MapEntries(ys, eval)
  {
    if ys == [] {
      assert xs + ys == xs;
    } else {
      assert (xs + ys)[..|xs + ys| - 1] == xs + ys[..|ys| - 1];
      MapEntriesAppend(xs, ys[..|ys| - 1], eval);
    }
  }

  /** One result per entry, the k-th being `eval` of the k-th entry. */
  lemma {:induction false} MapEntriesShape<R>(dirs: seq<DirEntry>, eval: DirEntry -> R)
    ensures |MapEntries(dirs, eval)| == |dirs|
    ensures forall k :: 0 <= k < |dirs| ==> MapEntries(dirs, eval)[k] == eval(dirs[k])
  {
    if dirs != [] {
      MapEntriesShape(dirs[..|dirs| - 1], eval);
    }
  }

  /** The evaluation each scanned subdirectory receives. */
  function StatusOf(kind: string, policy: Policy): DirEntry -> RepoStatus
  {
    (entry: DirEntry) => Evaluate(entry.name, kind, Observe(entry.probe, policy.verbose), policy).status
  }

  /** What a scan of an existing directory returns: one record per subdirectory, in enumeration order. */
  function ScanResults(entries: seq<DirEntry>, kind: string, policy: Policy): seq<RepoStatus>
  {
    MapEntries(Subdirectories(entries), StatusOf(kind, policy))
  }

  /**
   * The scan result has exactly one record per subdirectory, and the k-th record
   * is the evaluation of the k-th subdirectory, whatever its outcome.
   */
  lemma ScanResultsShape(entries: seq<DirEntry>, kind: string, policy: Policy)
    ensures |ScanResults(entries, kind, policy)| == |Subdirectories(entries)|
    ensures forall k :: 0 <= k < |Subdirectories(entries)| ==>
              ScanResults(entries, kind, policy)[k] == StatusOf(kind, policy)(Subdirectories(entries)[k])
  {
    MapEntriesShape(Subdirectories(entries), StatusOf(kind, policy));
  }

  /** Listing one more entry adds it to the subdirectories exactly when it is a directory. */
  lemma SubdirectoriesStep(entries: seq<DirEntry>, i: nat)
    requires i < |entries|
    ensures Subdirectories(entries[..i + 1])
            == Subdirectories(entries[..i]) + (if entries[i].isDirectory then [entries[i]] else [])
  {
    assert entries[..i + 1][..i] == entries[..i];
  }

  /** Listing one more subdirectory appends its record to the scan result. */
  lemma ScanResultsAdmit(entries: seq<DirEntry>, i: nat, kind: string, policy: Policy)
    requires i < |entries| && entries[i].isDirectory
    ensures ScanResults(entries[..i + 1], kind, policy) == ScanResults(entries[..i], kind, policy) + [StatusOf(kind, policy)(entries[i])]
  {
    SubdirectoriesStep(entries, i);
    MapEntriesAppend(Subdirectories(entries[..i]), [entries[i]], StatusOf(kind, policy));
    assert MapEntries([entries[i]], StatusOf(kind, policy)) == MapEntries([], StatusOf(kind, policy)) + [StatusOf(kind, policy)(entries[i])];
  }

  /** Listing one more plain file leaves the scan result as it was. */
  lemma ScanResultsSkip(entries: seq<DirEntry>, i: nat, kind: string, policy: Policy)
    requires i < |entries| && !entries[i].isDirectory
    ensures ScanResults(entries[..i + 1], kind, policy) == ScanResults(entries[..i], kind, policy)
  {
    SubdirectoriesStep(entries, i);
    assert Subdirectories(entries[..i]) + [] == Subdirectories(entries[..i]);
  }

  /**
   * The results of the scan after the entries `listed`: the collected ones
   * followed by the outstanding ones are the scan result of `listed`, and
   * fewer than `maxThreads` are outstanding.
   */
  predicate Scanned(listed: seq<DirEntry>, kind: string, policy: Policy, maxThreads: nat,
                    collected: seq<RepoStatus>, futures: seq<RepoStatus>)
  {
    collected + futures == ScanResults(listed, kind, policy) && |futures| < maxThreads
  }

  function Min(a: int, b: int): int
  {
    if a < b then a else b
  }

  /**
   * The window after `|window|` launches: launch k (from 0) left
   * min(k + 1, maxThreads) evaluations outstanding, and once the oldest has
   * been collected min(|window|, maxThreads - 1) of them remain.
   */
  ghost predicate WindowSizes(window: seq<nat>, futures: seq<RepoStatus>, maxThreads: nat)
  {
    && |futures| == Min(|window|, maxThreads - 1)
    && forall k :: 0 <= k < |window| ==> window[k] == Min(k + 1, maxThreads)
  }

  /** The asynchronous evaluation launched for one subdirectory: `checkRepository` on it, with the scan's kind and policy. */
  method Launch(entry: DirEntry, kind: string, policy: Policy) returns (status: RepoStatus)
    ensures status == StatusOf(kind, policy)(entry)
  {
    ghost var calls;
    status, calls := CheckRepository(entry.name, kind, entry.probe, policy);
  }

  /**
   * One launch into the window: the new result joins the outstanding ones and,
   * once `maxThreads` are outstanding, the oldest is collected. `outstanding`
   * is the window size right after the launch.
   */
  method Admit(collected: seq<RepoStatus>, futures: seq<RepoStatus>, status: RepoStatus, maxThreads: nat)
    returns (collected': seq<RepoStatus>, futures': seq<RepoStatus>, ghost outstanding: nat)
    requires |futures| < maxThreads
    ensures collected' + futures' == collected + futures + [status]
    ensures |futures'| < maxThreads
    ensures outstanding == |futures| + 1 && 1 <= outstanding <= maxThreads
    ensures outstanding < maxThreads ==> collected' == collected && |futures'| == outstanding
    ensures outstanding == maxThreads ==> |futures'| == |futures|
    ensures outstanding == maxThreads ==> collected' == collected + [(futures + [status])[0]]
  {
    collected', futures' := collected, futures + [status];
    outstanding := |futures'|;
    if |futures'| >= maxThreads {
      assert futures' == [futures'[0]] + futures'[1..];
      collected', futures' := collected' + [futures'[0]], futures'[1..];
    }
  }

  /** One iteration of the enumeration loop of `scanDirectory`: a subdirectory is launched into the window, a file is skipped. */
  method ScanEntry(entries: seq<DirEntry>, i: nat, kind: string, policy: Policy, maxThreads: nat,
                   collected: seq<RepoStatus>, futures: seq<RepoStatus>, ghost window: seq<nat>)
    returns (collected': seq<RepoStatus>, futures': seq<RepoStatus>, ghost window': seq<nat>)
    requires i < |entries|
    requires Scanned(entries[..i], kind, policy, maxThreads, collected, futures)
    requires |window| == |collected + futures| && WindowSizes(window, futures, maxThreads)
    ensures Scanned(entries[..i + 1], kind, policy, maxThreads, collected', futures')
    ensures |window'| == |collected' + futures'| && WindowSizes(window', futures', maxThreads)
    ensures window' == window + (if entries[i].isDirectory then [|futures| + 1] else [])
  {
    var entry := entries[i];
    if !entry.isDirectory {
      ScanResultsSkip(entries, i, kind, policy);
      return collected, futures, window;
    }
    var status := Launch(entry, kind, policy);
    ScanResultsAdmit(entries, i, kind, policy);
    ghost var outstanding;
    collected', futures', outstanding := Admit(collected, futures, status, maxThreads);
    window' := window + [outstanding];
    WindowGrows(window, futures, futures', maxThreads);
  }

  /** A launch records `|futures| + 1` outstanding evaluations and keeps the window's closed form. */
  lemma WindowGrows(window: seq<nat>, futures: seq<RepoStatus>, futures': seq<RepoStatus>, maxThreads: nat)
    requires WindowSizes(window, futures, maxThreads) && |futures| < maxThreads
    requires |futures'| == (if |futures| + 1 < maxThreads then |futures| + 1 else |futures|)
    ensures WindowSizes(window + [|futures| + 1], futures', maxThreads)
  {
    var window' := window + [|futures| + 1];
    forall k | 0 <= k < |window'|
      ensures window'[k] == Min(k + 1, maxThreads)
    {
      if k < |window| {
        assert window'[k] == window[k];
      }
    }
  }

  /** The final loop of `scanDirectory`: the outstanding evaluations are collected oldest-first. */
  method CollectRemaining(collected: seq<RepoStatus>, futures: seq<RepoStatus>) returns (results: seq<RepoStatus>)
    ensures results == collected + futures
  {
    results := collected;
    var rest := futures;
    while rest != []
      invariant results + rest == collected + futures
      decreases |rest|
    {
      results, rest := results + [rest[0]], rest[1..];
    }
  }

  /**
   * `scanDirectory`. A missing path or one that is not a directory gives the
   * empty list. Otherwise each subdirectory's evaluation is launched in
   * enumeration order and joins the window of outstanding evaluations; once the
   * window holds `maxThreads` of them the oldest is collected; the rest are
   * collected in order at the end. `window` records the number of outstanding
   * evaluations right after each launch: it grows by one per launch until it
   * reaches `maxThreads`, and stays there.
   */
  method ScanDirectory(dirExists: bool, isDirectory: bool, entries: seq<DirEntry>, kind: string,
                       policy: Policy, hardwareConcurrency: nat)
    returns (results: seq<RepoStatus>, ghost window: seq<nat>)
    ensures !(dirExists && isDirectory) ==> results == [] && window == []
    ensures dirExists && isDirectory ==> results == ScanResults(entries, kind, policy)
    ensures dirExists && isDirectory ==> |results| == |Subdirectories(entries)| == |window|
    ensures forall k :: 0 <= k < |window| ==> window[k] == Min(k + 1, MaxThreads(hardwareConcurrency))
    ensures forall k :: 0 <= k < |window| ==> 1 <= window[k] <= MaxThreads(hardwareConcurrency)
  {
    results := [];
    window := [];
    if !dirExists || !isDirectory {
      return;
    }

    var maxThreads := MaxThreads(hardwareConcurrency);
    var futures: seq<RepoStatus> := [];
    for i := 0 to |entries|
      invariant Scanned(entries[..i], kind, policy, maxThreads, results, futures)
      invariant |window| == |results + futures| && WindowSizes(window, futures, maxThreads)
    {
      results, futures, window := ScanEntry(entries, i, kind, policy, maxThreads, results, futures, window);
    }

    assert entries[..|entries|] == entries;
    results := CollectRemaining(results, futures);
    ScanResultsShape(entries, kind, policy);
  }
}
