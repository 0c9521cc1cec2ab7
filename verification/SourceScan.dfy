/** The scan of a module's sources: which findings it can produce, and what its score means. */
module SourceScanning {
  import opened Values
  import opened Text
  import opened ScanScoring

  datatype Rule = Rule(id: string, severity: real)

  /** The parts of the path below the module's directory; no lines if the file cannot be read. */
  datatype File = File(parts: seq<string>, lines: Option<seq<string>>)

  /** Does the pattern of the rule with this id occur in the line? */
  type Matcher = (string, string) -> bool

  /** `_build_hub_rules` */
  const HUB_RULES: seq<Rule> := [
    Rule("sc_eval", 8.0), Rule("sc_exec", 8.0), Rule("sc_compile", 6.0), Rule("sc_dunder_import", 7.0),
    Rule("sc_subprocess_shell", 9.0), Rule("sc_os_system", 9.0), Rule("sc_os_popen", 8.0),
    Rule("sc_b64_exec", 10.0), Rule("sc_marshal_loads", 8.0), Rule("sc_pickle_loads", 7.0),
    Rule("sc_hardcoded_aws", 9.0), Rule("sc_hardcoded_token", 9.0), Rule("sc_ctypes_cdll", 8.0),
    Rule("sc_unrestricted_profile", 7.0), Rule("sc_disable_decorators", 7.0)]

  predicate SkipsPart(part: string) {
    "." <= part || part == "__pycache__" || part == "tests" || part == "test"
  }

  predicate Skipped(f: File) {
    exists i | 0 <= i < |f.parts| :: SkipsPart(f.parts[i])
  }

  function InLine(rules: seq<Rule>, matches: Matcher, line: string): seq<Finding> {
    if rules == [] then []
    else
      var r := rules[|rules| - 1];
      InLine(rules[..|rules| - 1], matches, line) + if matches(r.id, line) then [Finding(r.id, r.severity)] else []
  }

  /** Comment lines are not searched. */
  function InLines(rules: seq<Rule>, matches: Matcher, lines: seq<string>): seq<Finding> {
    if lines == [] then []
    else
      var line := lines[|lines| - 1];
      InLines(rules, matches, lines[..|lines| - 1]) + if "#" <= Strip(line) then [] else InLine(rules, matches, line)
  }

  function InFile(rules: seq<Rule>, matches: Matcher, f: File): seq<Finding> {
    if Skipped(f) || f.lines.None? then [] else InLines(rules, matches, f.lines.value)
  }

  function Scan(rules: seq<Rule>, matches: Matcher, files: seq<File>): seq<Finding> {
    if files == [] then []
    else Scan(rules, matches, files[..|files| - 1]) + InFile(rules, matches, files[|files| - 1])
  }

  function CountScanned(files: seq<File>): nat {
    if files == [] then 0
    else CountScanned(files[..|files| - 1]) + if Skipped(files[|files| - 1]) then 0 else 1
  }

  method SearchLines(rules: seq<Rule>, matches: Matcher, lines: seq<string>) returns (found: seq<Finding>)
    ensures found == InLines(rules, matches, lines)
  {
    found := [];
    for i := 0 to |lines|
      invariant found == InLines(rules, matches, lines[..i])
    {
      assert lines[..i + 1][..i] == lines[..i];
      if !("#" <= Strip(lines[i])) {
        ghost var before := found;
        for k := 0 to |rules|
          invariant found == before + InLine(rules[..k], matches, lines[i])
        {
          assert rules[..k + 1][..k] == rules[..k];
          if matches(rules[k].id, lines[i]) {
            found := found + [Finding(rules[k].id, rules[k].severity)];
          }
        }
        assert rules[..|rules|] == rules;
      }
    }
    assert lines[..|lines|] == lines;
  }

  /** `scan_directory` */
  method ScanDirectory(rules: seq<Rule>, matches: Matcher, threshold: real, files: seq<File>)
    returns (findings: seq<Finding>, scanned: nat, score: real, verdict: Verdict)
    ensures findings == Scan(rules, matches, files) && scanned == CountScanned(files)
    ensures score == Score(findings) && verdict == VerdictOf(findings, threshold)
    ensures verdict == Reject <==> score < threshold
    ensures verdict == Allow <==> findings == [] && score >= threshold
  {
    findings, scanned := [], 0;
    for i := 0 to |files|
      invariant findings == Scan(rules, matches, files[..i]) && scanned == CountScanned(files[..i])
    {
      var f := files[i];
      assert files[..i + 1][..i] == files[..i];
      if Skipped(f) { continue; }
      scanned := scanned + 1;
      if f.lines.None? { continue; }
      var found := SearchLines(rules, matches, f.lines.value);
      findings := findings + found;
    }
    assert files[..|files|] == files;
    score, verdict := ScoreFindings(findings, threshold);
  }

  // ---- Every finding has its rule's severity ----

  ghost predicate DistinctIds(rules: seq<Rule>) {
    forall i, j | 0 <= i < j < |rules| :: rules[i].id != rules[j].id
  }

  function SeverityOf(rules: seq<Rule>, id: string): real {
    if rules == [] then 0.0 else if rules[0].id == id then rules[0].severity else SeverityOf(rules[1..], id)
  }

  function SeverityIn(rules: seq<Rule>): string -> real {
    id => SeverityOf(rules, id)
  }

  lemma {:induction false} SeverityAt(rules: seq<Rule>, i: nat)
    requires DistinctIds(rules) && i < |rules|
    ensures SeverityOf(rules, rules[i].id) == rules[i].severity
  {
    if i > 0 {
      assert rules[0].id != rules[i].id;
      SeverityAt(rules[1..], i - 1);
    }
  }

  lemma {:induction false} SeverityNatural(rules: seq<Rule>, id: string)
    requires NaturalSeverities(rules)
    ensures SeverityOf(rules, id) >= 0.0
  {
    if rules != [] {
      SeverityNatural(rules[1..], id);
    }
  }

  lemma {:induction false} LineConsistent(rules: seq<Rule>, n: nat, matches: Matcher, line: string)
    requires DistinctIds(rules) && n <= |rules|
    ensures Consistent(InLine(rules[..n], matches, line), SeverityIn(rules))
  {
    if n > 0 {
      LineConsistent(rules, n - 1, matches, line);
      assert rules[..n][..n - 1] == rules[..n - 1];
      SeverityAt(rules, n - 1);
    }
  }

  lemma {:induction false} LinesConsistent(rules: seq<Rule>, matches: Matcher, lines: seq<string>)
    requires DistinctIds(rules)
    ensures Consistent(InLines(rules, matches, lines), SeverityIn(rules))
  {
    if lines != [] {
      LinesConsistent(rules, matches, lines[..|lines| - 1]);
      LineConsistent(rules, |rules|, matches, lines[|lines| - 1]);
      assert rules[..|rules|] == rules;
    }
  }

  /** With distinct ids, two findings of one rule never differ in severity. */
  lemma {:induction false} ScanConsistent(rules: seq<Rule>, matches: Matcher, files: seq<File>)
    requires DistinctIds(rules)
    ensures Consistent(Scan(rules, matches, files), SeverityIn(rules))
  {
    if files != [] {
      ScanConsistent(rules, matches, files[..|files| - 1]);
      var f := files[|files| - 1];
      if f.lines.Some? {
        LinesConsistent(rules, matches, f.lines.value);
      }
    }
  }

  lemma HubIds()
    ensures DistinctIds(HUB_RULES)
  {
    forall i, j | 0 <= i < j < |HUB_RULES| ensures HUB_RULES[i].id != HUB_RULES[j].id {
      Differ(HUB_RULES[i].id, HUB_RULES[j].id);
    }
  }

  /** Length and fourth and fifth letter tell the ids apart. */
  lemma Differ(a: string, b: string)
    ensures |a| > 4 && |b| > 4 && (|a| != |b| || a[3] != b[3] || a[4] != b[4]) ==> a != b
  {
  }

  // ---- The score of a scan ----

  /** The score of any scan is 100 less, for each rule, its severity times a harmonic number of its hits. */
  lemma HubClosedForm(matches: Matcher, files: seq<File>)
    ensures var fs := Scan(HUB_RULES, matches, files);
      Score(fs) == Clamp(100.0 - Total(Rules(fs), fs, SeverityIn(HUB_RULES)))
  {
    HubIds();
    ScanConsistent(HUB_RULES, matches, files);
    ClosedForm(Scan(HUB_RULES, matches, files), SeverityIn(HUB_RULES));
  }

  lemma ScanOneMore(rules: seq<Rule>, matches: Matcher, files: seq<File>, f: File)
    ensures Scan(rules, matches, files + [f]) == Scan(rules, matches, files) + InFile(rules, matches, f)
  {
    assert (files + [f])[..|files|] == files;
  }

  lemma Regroup<T>(a: seq<T>, b: seq<T>, c: seq<T>)
    ensures a + (b + c) == (a + b) + c
  {
  }

  lemma {:induction false} ScanConcat(rules: seq<Rule>, matches: Matcher, a: seq<File>, b: seq<File>)
    ensures Scan(rules, matches, a + b) == Scan(rules, matches, a) + Scan(rules, matches, b)
    decreases |b|
  {
    if b == [] {
      assert a + b == a;
    } else {
      var init, f := b[..|b| - 1], b[|b| - 1];
      assert b == init + [f];
      ScanConcat(rules, matches, a, init);
      ConcatStep(rules, matches, a, init, f);
    }
  }

  lemma ConcatStep(rules: seq<Rule>, matches: Matcher, a: seq<File>, init: seq<File>, f: File)
    requires Scan(rules, matches, a + init) == Scan(rules, matches, a) + Scan(rules, matches, init)
    ensures Scan(rules, matches, a + (init + [f])) == Scan(rules, matches, a) + Scan(rules, matches, init + [f])
  {
    Regroup(a, init, [f]);
    ScanOneMore(rules, matches, init, f);
    ScanOneMore(rules, matches, a + init, f);
    Regroup(Scan(rules, matches, a), Scan(rules, matches, init), InFile(rules, matches, f));
  }

  lemma ScanAround(rules: seq<Rule>, matches: Matcher, a: seq<File>, f: File, b: seq<File>)
    ensures multiset(Scan(rules, matches, a + [f] + b)) == multiset(Scan(rules, matches, a + b)) + multiset(InFile(rules, matches, f))
  {
    ScanConcat(rules, matches, a + [f], b);
    ScanConcat(rules, matches, a, b);
    assert (a + [f])[..|a|] == a;
  }

  /** More files, in any order, have at least the findings of fewer. */
  lemma {:induction false} MoreFiles(rules: seq<Rule>, matches: Matcher, files: seq<File>, more: seq<File>)
    requires multiset(files) <= multiset(more)
    ensures multiset(Scan(rules, matches, files)) <= multiset(Scan(rules, matches, more))
    decreases |files|
  {
    if files != [] {
      var init, f := files[..|files| - 1], files[|files| - 1];
      var a, b := SplitAtFile(init, f, files, more);
      MoreFiles(rules, matches, init, a + b);
      ScanAround(rules, matches, a, f, b);
    }
  }

  lemma SplitAtFile(init: seq<File>, f: File, files: seq<File>, more: seq<File>) returns (a: seq<File>, b: seq<File>)
    requires files != [] && init == files[..|files| - 1] && f == files[|files| - 1] && multiset(files) <= multiset(more)
    ensures more == a + [f] + b && multiset(init) <= multiset(a + b)
  {
    assert files == init + [f];
    assert f in multiset(files);
    assert f in multiset(more);
    var j :| 0 <= j < |more| && more[j] == f;
    a, b := more[..j], more[j + 1..];
    assert more == a + [f] + b;
    assert multiset(more) == multiset(a) + multiset{f} + multiset(b) == multiset(a + b) + multiset{f};
    assert multiset(files) == multiset(init) + multiset{f};
    Cancel(multiset(init), multiset(a + b), f);
  }

  lemma Cancel(m: multiset<File>, n: multiset<File>, f: File)
    requires m + multiset{f} <= n + multiset{f}
    ensures m <= n
  {
    forall x ensures m[x] <= n[x] {
      assert (m + multiset{f})[x] <= (n + multiset{f})[x];
    }
  }

  ghost predicate NaturalSeverities(rules: seq<Rule>) {
    forall i | 0 <= i < |rules| :: rules[i].severity >= 0.0
  }

  lemma MoreFilesScoreLower(rules: seq<Rule>, matches: Matcher, files: seq<File>, more: seq<File>)
    requires DistinctIds(rules) && NaturalSeverities(rules) && multiset(files) <= multiset(more)
    ensures Score(Scan(rules, matches, more)) <= Score(Scan(rules, matches, files))
    ensures multiset(files) == multiset(more) ==> Score(Scan(rules, matches, more)) == Score(Scan(rules, matches, files))
  {
    ScanConsistent(rules, matches, files);
    ScanConsistent(rules, matches, more);
    MoreFiles(rules, matches, files, more);
    if multiset(files) == multiset(more) { MoreFiles(rules, matches, more, files); }
    forall r ensures SeverityIn(rules)(r) >= 0.0 { SeverityNatural(rules, r); }
    MoreFindingsScoreLower(Scan(rules, matches, files), Scan(rules, matches, more), SeverityIn(rules));
  }

  /** Adding files never raises the score of a scan, and the order of the files does not matter. */
  lemma HubMoreFilesScoreLower(matches: Matcher, files: seq<File>, more: seq<File>)
    requires multiset(files) <= multiset(more)
    ensures Score(Scan(HUB_RULES, matches, more)) <= Score(Scan(HUB_RULES, matches, files))
    ensures multiset(files) == multiset(more) ==> Score(Scan(HUB_RULES, matches, more)) == Score(Scan(HUB_RULES, matches, files))
  {
    HubIds();
    MoreFilesScoreLower(HUB_RULES, matches, files, more);
  }

  /** A module that is rejected is rejected with more files too; one that is allowed was allowed with fewer. */
  lemma HubVerdictStays(matches: Matcher, files: seq<File>, more: seq<File>, threshold: real)
    requires multiset(files) <= multiset(more)
    ensures VerdictOf(Scan(HUB_RULES, matches, files), threshold) == Reject ==> VerdictOf(Scan(HUB_RULES, matches, more), threshold) == Reject
    ensures VerdictOf(Scan(HUB_RULES, matches, more), threshold) == Allow ==> VerdictOf(Scan(HUB_RULES, matches, files), threshold) == Allow
  {
    var fs, gs := Scan(HUB_RULES, matches, files), Scan(HUB_RULES, matches, more);
    HubMoreFilesScoreLower(matches, files, more);
    MoreFiles(HUB_RULES, matches, files, more);
    VerdictExact(fs, threshold);
    VerdictExact(gs, threshold);
    if gs == [] && fs != [] {
      assert fs[0] in multiset(fs);
    }
  }

  // ---- What is found ----

  lemma {:induction false} LineFindings(rules: seq<Rule>, matches: Matcher, line: string, f: Finding)
    ensures f in InLine(rules, matches, line) <==>
      exists r | r in rules :: matches(r.id, line) && f == Finding(r.id, r.severity)
  {
    if rules != [] {
      LineFindings(rules[..|rules| - 1], matches, line, f);
      assert rules == rules[..|rules| - 1] + [rules[|rules| - 1]];
    }
  }

  ghost predicate FoundIn(rules: seq<Rule>, matches: Matcher, line: string, f: Finding) {
    !("#" <= Strip(line)) && exists r | r in rules :: matches(r.id, line) && f == Finding(r.id, r.severity)
  }

  lemma {:induction false} LinesFindings(rules: seq<Rule>, matches: Matcher, lines: seq<string>, f: Finding)
    ensures f in InLines(rules, matches, lines) <==> exists i :: 0 <= i < |lines| && FoundIn(rules, matches, lines[i], f)
  {
    if lines != [] {
      var init, last := lines[..|lines| - 1], lines[|lines| - 1];
      LinesFindings(rules, matches, init, f);
      LineFindings(rules, matches, last, f);
      assert f in InLines(rules, matches, lines) <==> f in InLines(rules, matches, init) || FoundIn(rules, matches, last, f);
      if i :| 0 <= i < |init| && FoundIn(rules, matches, init[i], f) {
        assert FoundIn(rules, matches, lines[i], f);
      }
      if i :| 0 <= i < |lines| && FoundIn(rules, matches, lines[i], f) {
        assert i < |init| ==> FoundIn(rules, matches, init[i], f);
      }
    }
  }

  /** Hidden directories, caches and tests are not scanned. */
  ghost predicate Searched(file: File) {
    && file.lines.Some?
    && forall i | 0 <= i < |file.parts| ::
         var part := file.parts[i]; (part == "" || part[0] != '.') && part !in ["__pycache__", "tests", "test"]
  }

  ghost predicate FoundAt(rules: seq<Rule>, matches: Matcher, file: File, f: Finding) {
    Searched(file) && exists i :: 0 <= i < |file.lines.value| && FoundIn(rules, matches, file.lines.value[i], f)
  }

  lemma FileFindings(rules: seq<Rule>, matches: Matcher, file: File, f: Finding)
    ensures f in InFile(rules, matches, file) <==> FoundAt(rules, matches, file, f)
  {
    if file.lines.Some? { LinesFindings(rules, matches, file.lines.value, f); }
    assert Searched(file) <==> !Skipped(file) && file.lines.Some?;
  }

  /** A finding is there if and only if some line, not a comment, of some file that is searched has it. */
  lemma {:induction false} ScanFindings(rules: seq<Rule>, matches: Matcher, files: seq<File>, f: Finding)
    ensures f in Scan(rules, matches, files) <==> exists i :: 0 <= i < |files| && FoundAt(rules, matches, files[i], f)
  {
    if files != [] {
      var init, last := files[..|files| - 1], files[|files| - 1];
      ScanFindings(rules, matches, init, f);
      FileFindings(rules, matches, last, f);
      if i :| 0 <= i < |init| && FoundAt(rules, matches, init[i], f) {
        assert FoundAt(rules, matches, files[i], f);
      }
      if i :| 0 <= i < |files| && FoundAt(rules, matches, files[i], f) {
        assert i < |init| ==> FoundAt(rules, matches, init[i], f);
      }
    }
  }
}
