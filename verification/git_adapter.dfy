/**
 * How the tool reads the text that git prints.
 *
 * Every git operation of local_mw.cpp runs a shell command through
 * `execCommand` and reads the text it returns. The commands themselves are
 * outside the model; what is modelled is the capture (`execCommand` adds a
 * final newline in verbose mode) and how the captured text is interpreted: the
 * case-sensitive "error"/"fatal" substring test, the trailing-newline strip of
 * the branch name, the integer parse of the behind-count and the "non-empty
 * means dirty" test.
 */
module GitAdapter {
  import opened Wrappers

  // ---------------------------------------------------------------------------
  // Command capture (execCommand)
  // ---------------------------------------------------------------------------

  /**
   * `execCommand`: the text a command printed, as handed to its caller. In
   * verbose mode non-empty text that does not end in a newline gets one; a
   * command that cannot be started prints nothing.
   */
  function ExecCommand(printed: string, verbose: bool): (out: string)
    ensures !verbose ==> out == printed
    ensures out == printed || (verbose && printed != [] && printed[|printed| - 1] != '\n' && out == printed + "\n")
    ensures verbose && printed != [] ==> out[|out| - 1] == '\n'
  {
    if verbose && printed != [] && printed[|printed| - 1] != '\n' then printed + "\n" else printed
  }

  // ---------------------------------------------------------------------------
  // Substring search (std::string::find)
  // ---------------------------------------------------------------------------

  /** True iff `sub` occurs in `s` at position `i`. */
  predicate OccursAt(s: string, sub: string, i: int)
  {
    0 <= i && i + |sub| <= |s| && s[i..i + |sub|] == sub
  }

  /** The first position at or after `from` where `sub` occurs, as `find` returns it. */
  function FindFrom(s: string, sub: string, from: nat): (r: Option<nat>)
    ensures r.Some? ==> from <= r.value && OccursAt(s, sub, r.value)
    ensures r.Some? ==> forall j :: from <= j < r.value ==> !OccursAt(s, sub, j)
    ensures r.None? ==> forall j :: from <= j ==> !OccursAt(s, sub, j)
    decreases |s| - from
  {
    if from + |sub| > |s| then None
    else if s[from..from + |sub|] == sub then Some(from)
    else FindFrom(s, sub, from + 1)
  }

  /** `s.find(sub) != npos`. */
  function Contains(s: string, sub: string): (r: bool)
    ensures r <==> exists i :: OccursAt(s, sub, i)
  {
    var found := FindFrom(s, sub, 0);
    if found.Some? then
      true
    else
      assert forall i :: !OccursAt(s, sub, i) by {
        forall i ensures !OccursAt(s, sub, i) {
          if i >= 0 { assert 0 <= i; }
        }
      }
      false
  }

  /**
   * The sole failure heuristic of fetch and pull: the combined output mentions
   * the literal token "error" or "fatal" (case-sensitive).
   */
  predicate ReportsFailure(output: string)
  {
    Contains(output, "error") || Contains(output, "fatal")
  }

  /**
   * `fetchUpdates`: the fetch succeeded iff neither marker occurs anywhere in
   * its output; in particular a fetch that prints nothing succeeded.
   */
  function FetchSucceeded(fetchOutput: string): (ok: bool)
    ensures ok <==> forall i :: !OccursAt(fetchOutput, "error", i) && !OccursAt(fetchOutput, "fatal", i)
    ensures fetchOutput == "" ==> ok
  {
    !ReportsFailure(fetchOutput)
  }

  /** Captured output of a failed pull: it holds a failure marker, so it is never empty. */
  type FailureDetail = s: string | |s| > 0 witness "fatal"

  /** What `performGitPull` reports: success, or failure together with the captured output. */
  datatype PullOutcome = PullSucceeded | PullFailed(detail: FailureDetail)

  /** `performGitPull`: failure iff the output carries a marker; the detail is then the whole output. */
  function PerformPull(pullOutput: string): (r: PullOutcome)
    ensures r.PullFailed? <==> ReportsFailure(pullOutput)
    ensures r.PullFailed? ==> r.detail == pullOutput && |r.detail| >= 5
  {
    if ReportsFailure(pullOutput) then
      assert |pullOutput| >= 5 by {
        if Contains(pullOutput, "error") {
          var i :| OccursAt(pullOutput, "error", i);
        } else {
          var i :| OccursAt(pullOutput, "fatal", i);
        }
      }
      PullFailed(pullOutput)
    else
      PullSucceeded
  }

  // ---------------------------------------------------------------------------
  // Branch name (getCurrentBranch)
  // ---------------------------------------------------------------------------

  /** `getCurrentBranch`: removes one trailing newline from the rev-parse output, if there is one. */
  function CurrentBranch(revParseOutput: string): (branch: string)
    ensures |revParseOutput| > 0 && revParseOutput[|revParseOutput| - 1] == '\n' ==>
              branch + "\n" == revParseOutput
    ensures !(|revParseOutput| > 0 && revParseOutput[|revParseOutput| - 1] == '\n') ==>
              branch == revParseOutput
    ensures branch == "" <==> revParseOutput == "" || revParseOutput == "\n"
  {
    if |revParseOutput| > 0 && revParseOutput[|revParseOutput| - 1] == '\n' then
      revParseOutput[..|revParseOutput| - 1]
    else
      revParseOutput
  }

  /** git prints a branch name followed by one newline; exactly that name is recovered. */
  lemma CurrentBranchRoundTrip(name: string)
    ensures CurrentBranch(name + "\n") == name
  {
    assert (name + "\n")[..|name|] == name;
  }

  // ---------------------------------------------------------------------------
  // Behind-count (checkBehindCommits, std::stoi)
  // ---------------------------------------------------------------------------

  /** The characters C's `isspace` accepts in the default locale. */
  predicate IsSpace(c: char)
  {
    c == ' ' || c == '\t' || c == '\n' || c == '\r' || c as int == 11 || c as int == 12
  }

  predicate IsDigit(c: char)
  {
    '0' <= c <= '9'
  }

  predicate AllDigits(d: string)
  {
    forall k :: 0 <= k < |d| ==> IsDigit(d[k])
  }

  /** Drops the leading whitespace that `stoi` skips. */
  function SkipSpaces(s: string): (r: string)
    ensures |r| <= |s| && r == s[|s| - |r|..]
    ensures r == [] || !IsSpace(r[0])
  {
    if |s| > 0 && IsSpace(s[0]) then SkipSpaces(s[1..]) else s
  }

  /** The longest prefix of `s` made of decimal digits. */
  function DigitRun(s: string): (d: string)
    ensures |d| <= |s| && d == s[..|d|] && AllDigits(d)
    ensures |d| < |s| ==> !IsDigit(s[|d|])
  {
    if |s| > 0 && IsDigit(s[0]) then [s[0]] + DigitRun(s[1..]) else []
  }

  /** The value of a string of decimal digits, most significant first. */
  function DigitsValue(d: string): nat
    requires AllDigits(d)
  {
    if d == [] then 0 else DigitsValue(d[..|d| - 1]) * 10 + (d[|d| - 1] - '0') as nat
  }

  const IntMin: int := -0x8000_0000
  const IntMax: int := 0x7FFF_FFFF

  /** The value of a digit run with its sign, if there is at least one digit and it fits a 32-bit `int`. */
  function InRange(negative: bool, digits: string): (r: Option<int>)
    requires AllDigits(digits)
    ensures r.Some? ==> IntMin <= r.value <= IntMax
  {
    var magnitude: int := DigitsValue(digits);
    var value: int := if negative then -magnitude else magnitude;
    if digits == [] || value < IntMin || IntMax < value then None else Some(value)
  }

  /**
   * `std::stoi`: optional leading whitespace, an optional sign, then at least
   * one digit; the value must fit a 32-bit `int`. None stands for the
   * `invalid_argument` and `out_of_range` exceptions.
   */
  function LeadingInt(s: string): (r: Option<int>)
    ensures r.Some? ==> IntMin <= r.value <= IntMax
  {
    var t := SkipSpaces(s);
    if |t| > 0 && (t[0] == '-' || t[0] == '+') then InRange(t[0] == '-', DigitRun(t[1..]))
    else InRange(false, DigitRun(t))
  }

  /** `checkBehindCommits`: the parsed count, or -1 for empty output or a failed parse. */
  function CommitsBehind(revListOutput: string): (n: int)
    ensures IntMin <= n <= IntMax
    ensures revListOutput == "" ==> n == -1
    ensures n != -1 ==> LeadingInt(revListOutput) == Some(n)
  {
    if revListOutput == "" then -1
    else match LeadingInt(revListOutput)
      case None => -1
      case Some(n) => n
  }

  /**
   * The count is -1 exactly when the output is empty, does not parse as an
   * `int`, or is itself "-1"; any other result is the parsed value, which fits
   * an `int`.
   */
  lemma CommitsBehindUndetermined(revListOutput: string)
    ensures CommitsBehind(revListOutput) == -1 <==>
              revListOutput == "" || LeadingInt(revListOutput) == None || LeadingInt(revListOutput) == Some(-1)
    ensures CommitsBehind(revListOutput) != -1 ==>
              LeadingInt(revListOutput) == Some(CommitsBehind(revListOutput))
              && IntMin <= CommitsBehind(revListOutput) <= IntMax
  {
    if revListOutput == "" {
      assert SkipSpaces(revListOutput) == [];
      assert DigitRun(SkipSpaces(revListOutput)) == [];
    }
  }

  /** How git prints a count: decimal digits, no sign, no leading zero. */
  function DecimalString(n: nat): (d: string)
    ensures |d| > 0 && AllDigits(d)
  {
    var last := ['0' + (n % 10) as char];
    if n < 10 then last else DecimalString(n / 10) + last
  }

  lemma {:induction false} DecimalStringValue(n: nat)
    ensures DigitsValue(DecimalString(n)) == n
  {
    var d := DecimalString(n);
    if n >= 10 {
      DecimalStringValue(n / 10);
      assert d[..|d| - 1] == DecimalString(n / 10);
    }
  }

  lemma {:induction false} DigitRunStopsAtNonDigit(d: string, rest: string)
    requires AllDigits(d)
    requires rest == [] || !IsDigit(rest[0])
    ensures DigitRun(d + rest) == d
  {
    if d != [] {
      assert (d + rest)[1..] == d[1..] + rest;
      DigitRunStopsAtNonDigit(d[1..], rest);
    }
  }

  /** Text that starts with a digit has no leading whitespace to skip. */
  lemma NoSpacesToSkip(s: string)
    requires |s| > 0 && IsDigit(s[0])
    ensures SkipSpaces(s) == s
  {
    assert !IsSpace(s[0]);
  }

  /** Unsigned digits followed by a non-digit parse as their value, when it fits an `int`. */
  lemma LeadingIntOfDigits(d: string, rest: string)
    requires |d| > 0 && AllDigits(d) && DigitsValue(d) <= IntMax
    requires rest == [] || !IsDigit(rest[0])
    ensures LeadingInt(d + rest) == Some(DigitsValue(d))
  {
    var s := d + rest;
    assert SkipSpaces(s) == s && !(s[0] == '-' || s[0] == '+') && DigitRun(s) == d by {
      assert s[0] == d[0];
      NoSpacesToSkip(s);
      DigitRunStopsAtNonDigit(d, rest);
    }
    assert LeadingInt(s) == InRange(false, d);
  }

  /**
   * Round trip: the count git prints for `n` behind commits ("n\n") is read back
   * as `n`, for every count that fits an `int`.
   */
  lemma CommitsBehindRoundTrip(n: nat)
    requires n <= IntMax
    ensures CommitsBehind(DecimalString(n) + "\n") == n
  {
    DecimalStringValue(n);
    LeadingIntOfDigits(DecimalString(n), "\n");
  }

  /**
   * Output that does not start (after whitespace) with a sign or a digit, such
   * as a git error message, is read as the "undetermined" count -1.
   */
  lemma CommitsBehindOfText(s: string)
    requires s != [] && !IsSpace(s[0]) && !IsDigit(s[0]) && s[0] != '-' && s[0] != '+'
    ensures CommitsBehind(s) == -1
  {
    assert SkipSpaces(s) == s;
    assert DigitRun(s) == [];
  }

  /** Spaces, sign, digits: a count `stoi` accepts is read as its signed value, when that fits an `int`. */
  lemma LeadingIntOfNumeral(ws: string, sign: string, d: string, rest: string)
    requires AllSpaces(ws)
    requires sign == "" || sign == "+" || sign == "-"
    requires |d| > 0 && AllDigits(d)
    requires rest == [] || !IsDigit(rest[0])
    ensures var magnitude: int := DigitsValue(d);
      var value := if sign == "-" then -magnitude else magnitude;
      LeadingInt(ws + sign + d + rest) == (if IntMin <= value <= IntMax then Some(value) else None)
  {
    LeadingIntOfDigitRun(ws, sign, d, rest);
    InRangeValue(sign == "-", d);
  }

  /** The digit run `d` is what `stoi` reads after the spaces and the sign. */
  lemma LeadingIntOfDigitRun(ws: string, sign: string, d: string, rest: string)
    requires AllSpaces(ws)
    requires sign == "" || sign == "+" || sign == "-"
    requires |d| > 0 && AllDigits(d)
    requires rest == [] || !IsDigit(rest[0])
    ensures LeadingInt(ws + sign + d + rest) == InRange(sign == "-", d)
  {
    Regroup(ws, sign, d, rest);
    DigitRunStopsAtNonDigit(d, rest);
    assert (d + rest)[0] == d[0];
    LeadingIntOfSignedRun(ws, sign, d + rest);
  }

  /** When no digit follows the spaces and the optional sign, `stoi` throws: the parse fails. */
  lemma LeadingIntWithoutDigits(ws: string, sign: string, rest: string)
    requires AllSpaces(ws)
    requires sign == "" || sign == "+" || sign == "-"
    requires rest == [] || !IsDigit(rest[0])
    requires sign == "" && rest != [] ==> !IsSpace(rest[0]) && rest[0] != '+' && rest[0] != '-'
    ensures LeadingInt(ws + sign + rest) == None
  {
    assert DigitRun(rest) == [];
    LeadingIntOfSignedRun(ws, sign, rest);
  }

  /** Spaces, then an optional sign: what follows is read as digits with that sign. */
  lemma LeadingIntOfSignedRun(ws: string, sign: string, u: string)
    requires AllSpaces(ws)
    requires sign == "" || sign == "+" || sign == "-"
    requires sign == "" && u != [] ==> !IsSpace(u[0]) && u[0] != '+' && u[0] != '-'
    ensures LeadingInt(ws + sign + u) == InRange(sign == "-", DigitRun(u))
  {
    Regroup3(ws, sign, u);
    if sign == "" {
      assert sign + u == u;
      LeadingIntSkipsSpaces(ws, u);
      LeadingIntUnsigned(u);
    } else {
      assert (sign + u)[0] == sign[0];
      LeadingIntSkipsSpaces(ws, sign + u);
      LeadingIntSigned(sign, u);
    }
  }

  lemma Regroup3(a: string, b: string, c: string)
    ensures a + b + c == a + (b + c)
  {
  }

  /** The value a non-empty digit run denotes with its sign, when that fits an `int`. */
  lemma InRangeValue(negative: bool, d: string)
    requires |d| > 0 && AllDigits(d)
    ensures var magnitude: int := DigitsValue(d);
      var value := if negative then -magnitude else magnitude;
      InRange(negative, d) == (if IntMin <= value <= IntMax then Some(value) else None)
  {
  }

  lemma Regroup(a: string, b: string, c: string, e: string)
    ensures a + b + c + e == a + b + (c + e)
  {
  }

  /** Leading whitespace is skipped up to the first other character. */
  lemma LeadingIntSkipsSpaces(ws: string, t: string)
    requires AllSpaces(ws)
    requires t == [] || !IsSpace(t[0])
    ensures LeadingInt(ws + t) == LeadingInt(t)
  {
    SkipSpacesPrefix(ws, t);
  }

  /** After a sign, the digits that follow it are read with that sign. */
  lemma LeadingIntSigned(sign: string, u: string)
    requires sign == "+" || sign == "-"
    ensures LeadingInt(sign + u) == InRange(sign == "-", DigitRun(u))
  {
    var t := sign + u;
    assert t[0] == sign[0] && t[1..] == u;
    assert SkipSpaces(t) == t;
  }

  /** Without a sign, the digits at the start are read as a non-negative count. */
  lemma LeadingIntUnsigned(u: string)
    requires u == [] || (!IsSpace(u[0]) && u[0] != '+' && u[0] != '-')
    ensures LeadingInt(u) == InRange(false, DigitRun(u))
  {
    assert SkipSpaces(u) == u;
  }

  /** Text made only of the whitespace `stoi` skips. */
  predicate AllSpaces(ws: string)
  {
    forall k :: 0 <= k < |ws| ==> IsSpace(ws[k])
  }

  lemma {:induction false} SkipSpacesPrefix(ws: string, t: string)
    requires AllSpaces(ws)
    requires t == [] || !IsSpace(t[0])
    ensures SkipSpaces(ws + t) == t
  {
    if ws != [] {
      assert (ws + t)[1..] == ws[1..] + t;
      SkipSpacesPrefix(ws[1..], t);
    }
  }

  // ---------------------------------------------------------------------------
  // Working-tree state (hasUncommittedChanges)
  // ---------------------------------------------------------------------------

  /**
   * `hasUncommittedChanges`: any output of `git status --porcelain` means
   * local changes, even a single character; only silence means clean.
   */
  function HasUncommittedChanges(statusOutput: string): (dirty: bool)
    ensures dirty <==> |statusOutput| > 0
  {
    statusOutput != ""
  }

  // ---------------------------------------------------------------------------
  // Verbose capture changes no verdict
  // ---------------------------------------------------------------------------

  /** A marker without a newline occurs in text with a newline appended exactly when it occurs in the text. */
  lemma ContainsIgnoresNewline(s: string, sub: string)
    requires |sub| > 0 && '\n' !in sub
    ensures Contains(s + "\n", sub) <==> Contains(s, sub)
  {
    if Contains(s + "\n", sub) {
      var i :| OccursAt(s + "\n", sub, i);
      assert i + |sub| <= |s| by {
        assert sub[|sub| - 1] == (s + "\n")[i + |sub| - 1];
      }
      assert (s + "\n")[i..i + |sub|] == s[i..i + |sub|];
      assert OccursAt(s, sub, i);
    }
    if Contains(s, sub) {
      var i :| OccursAt(s, sub, i);
      assert (s + "\n")[i..i + |sub|] == s[i..i + |sub|];
      assert OccursAt(s + "\n", sub, i);
    }
  }

  lemma {:induction false} SkipSpacesNewline(s: string)
    ensures SkipSpaces(s + "\n") == (if SkipSpaces(s) == [] then [] else SkipSpaces(s) + "\n")
  {
    var s' := s + "\n";
    if s == [] {
      assert SkipSpaces(s') == SkipSpaces(s'[1..]) && s'[1..] == [];
    } else if IsSpace(s[0]) {
      assert s'[0] == s[0] && s'[1..] == s[1..] + "\n";
      assert SkipSpaces(s') == SkipSpaces(s[1..] + "\n");
      assert SkipSpaces(s) == SkipSpaces(s[1..]);
      SkipSpacesNewline(s[1..]);
    } else {
      assert s'[0] == s[0];
      assert SkipSpaces(s') == s' && SkipSpaces(s) == s;
    }
  }

  lemma {:induction false} DigitRunNewline(s: string)
    ensures DigitRun(s + "\n") == DigitRun(s)
  {
    if s != [] && IsDigit(s[0]) {
      assert (s + "\n")[1..] == s[1..] + "\n";
      DigitRunNewline(s[1..]);
    }
  }

  /** `stoi` stops at the first non-digit, so an appended newline never changes the parse. */
  lemma LeadingIntNewline(s: string)
    ensures LeadingInt(s + "\n") == LeadingInt(s)
  {
    var t := SkipSpaces(s);
    SkipSpacesNewline(s);
    if t != [] {
      var t' := t + "\n";
      assert t'[0] == t[0];
      if t[0] == '-' || t[0] == '+' {
        assert t'[1..] == t[1..] + "\n";
        DigitRunNewline(t[1..]);
      } else {
        DigitRunNewline(t);
      }
    }
  }

  /**
   * The newline `execCommand` adds in verbose mode changes none of the
   * readings: branch, fetch verdict, behind-count, dirty flag and pull verdict
   * are those of the text the command printed. Only a failed pull's captured
   * output differs.
   */
  lemma VerboseCaptureReadsAlike(printed: string)
    ensures CurrentBranch(ExecCommand(printed, true)) == CurrentBranch(printed)
    ensures FetchSucceeded(ExecCommand(printed, true)) == FetchSucceeded(printed)
    ensures CommitsBehind(ExecCommand(printed, true)) == CommitsBehind(printed)
    ensures HasUncommittedChanges(ExecCommand(printed, true)) == HasUncommittedChanges(printed)
    ensures PerformPull(ExecCommand(printed, true)).PullFailed? == PerformPull(printed).PullFailed?
  {
    if ExecCommand(printed, true) != printed {
      ContainsIgnoresNewline(printed, "error");
      ContainsIgnoresNewline(printed, "fatal");
      LeadingIntNewline(printed);
      assert ExecCommand(printed, true)[..|printed|] == printed;
    }
  }
}
