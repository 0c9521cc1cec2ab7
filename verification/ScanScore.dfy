/** The score of a module's source scan: repeated findings of a rule count less and less. */
module ScanScoring {

  datatype Finding = Finding(rule: string, severity: real)

  datatype Verdict = Allow | Warn | Reject

  function Max(a: real, b: real): real { if a >= b then a else b }

  function Min(a: real, b: real): real { if a <= b then a else b }

  function Clamp(x: real): real { Max(0.0, Min(100.0, x)) }

  /** How often the rule occurs. */
  function Count(fs: seq<Finding>, rule: string): nat {
    if fs == [] then 0
    else Count(fs[..|fs| - 1], rule) + (if fs[|fs| - 1].rule == rule then 1 else 0)
  }

  /** What the loop deducts: each finding's severity over its rule's count so far. */
  function Deducted(fs: seq<Finding>): real {
    if fs == [] then 0.0
    else
      var f := fs[|fs| - 1];
      Deducted(fs[..|fs| - 1]) + f.severity / Count(fs, f.rule) as real
  }

  function Score(fs: seq<Finding>): real { Clamp(100.0 - Deducted(fs)) }

  function VerdictOf(fs: seq<Finding>, threshold: real): Verdict {
    if Score(fs) < threshold then Reject else if fs != [] then Warn else Allow
  }

  /** The scoring loop of `scan_directory`. */
  method ScoreFindings(findings: seq<Finding>, threshold: real) returns (score: real, verdict: Verdict)
    ensures score == Score(findings) && verdict == VerdictOf(findings, threshold)
    ensures verdict == Reject <==> score < threshold
    ensures verdict == Allow <==> findings == [] && score >= threshold
  {
    score := 100.0;
    var seen: map<string, nat> := map[];
    for i := 0 to |findings|
      invariant forall r :: Count(findings[..i], r) == if r in seen then seen[r] else 0
      invariant score == 100.0 - Deducted(findings[..i])
    {
      var f := findings[i];
      assert findings[..i + 1][..i] == findings[..i];
      var count := (if f.rule in seen then seen[f.rule] else 0) + 1;
      seen := seen[f.rule := count];
      score := score - f.severity / count as real;
    }
    assert findings[..|findings|] == findings;
    score := Clamp(score);
    verdict := if score < threshold then Reject else if findings != [] then Warn else Allow;
  }

  /** Rejected below the threshold, allowed without findings, and warned about otherwise. */
  lemma VerdictExact(fs: seq<Finding>, threshold: real)
    ensures VerdictOf(fs, threshold) == Reject <==> Score(fs) < threshold
    ensures VerdictOf(fs, threshold) == Allow <==> fs == [] && Score(fs) >= threshold
  {
  }

  /** The score lies between 0 and 100, is 100 without findings, and is what is left of 100 if that is in range. */
  lemma ScoreBounds(fs: seq<Finding>)
    ensures 0.0 <= Score(fs) <= 100.0 && Score([]) == 100.0
    ensures 0.0 <= 100.0 - Deducted(fs) <= 100.0 ==> Score(fs) == 100.0 - Deducted(fs)
    ensures 100.0 - Deducted(fs) < 0.0 ==> Score(fs) == 0.0
  {
  }

  // ---- The closed form ----

  /** 1 + 1/2 + ... + 1/n */
  function Harmonic(n: nat): real {
    if n == 0 then 0.0 else Harmonic(n - 1) + 1.0 / n as real
  }

  /** Every finding has its rule's severity. */
  ghost predicate Consistent(fs: seq<Finding>, severity: string -> real) {
    forall i | 0 <= i < |fs| :: fs[i].severity == severity(fs[i].rule)
  }

  ghost function Rules(fs: seq<Finding>): set<string> {
    set i | 0 <= i < |fs| :: fs[i].rule
  }

  /** The sum of `weight` over a set, in whatever order. */
  ghost function Sum(rules: set<string>, weight: string -> real): real {
    if rules == {} then 0.0
    else
      var r :| r in rules;
      weight(r) + Sum(rules - {r}, weight)
  }

  lemma {:induction false} SumPick(rules: set<string>, weight: string -> real, r: string)
    requires r in rules
    ensures Sum(rules, weight) == weight(r) + Sum(rules - {r}, weight)
    decreases |rules|
  {
    var p :| p in rules && Sum(rules, weight) == weight(p) + Sum(rules - {p}, weight);
    if p != r {
      SumPick(rules - {p}, weight, r);
      SumPick(rules - {r}, weight, p);
      assert rules - {p} - {r} == rules - {r} - {p};
    }
  }

  lemma {:induction false} SumMonotone(rules: set<string>, v: string -> real, w: string -> real)
    requires forall r | r in rules :: v(r) <= w(r)
    ensures Sum(rules, v) <= Sum(rules, w)
    decreases |rules|
  {
    if rules != {} {
      var r :| r in rules;
      SumPick(rules, v, r);
      SumPick(rules, w, r);
      SumMonotone(rules - {r}, v, w);
    }
  }

  /** Sums that differ at one place at most. */
  lemma {:induction false} SumChange(rules: set<string>, v: string -> real, w: string -> real, r: string, delta: real)
    requires (forall q | q in rules && q != r :: v(q) == w(q)) && w(r) == v(r) + delta
    ensures Sum(rules, w) == Sum(rules, v) + (if r in rules then delta else 0.0)
    decreases |rules|
  {
    if rules != {} {
      var q :| q in rules;
      SumPick(rules, v, q);
      SumPick(rules, w, q);
      SumChange(rules - {q}, v, w, r, delta);
    }
  }

  /** A rule's share: severity times 1 + 1/2 + ... + 1/n for n findings. */
  function Share(fs: seq<Finding>, severity: string -> real): string -> real {
    r => severity(r) * Harmonic(Count(fs, r))
  }

  ghost function Total(rules: set<string>, fs: seq<Finding>, severity: string -> real): real {
    Sum(rules, Share(fs, severity))
  }

  lemma ShareStep(fs: seq<Finding>, severity: string -> real)
    requires fs != [] && fs[|fs| - 1].severity == severity(fs[|fs| - 1].rule)
    ensures var before, f := fs[..|fs| - 1], fs[|fs| - 1];
      && Share(fs, severity)(f.rule) == Share(before, severity)(f.rule) + f.severity / Count(fs, f.rule) as real
      && forall r | r != f.rule :: Share(fs, severity)(r) == Share(before, severity)(r)
  {
    var before, f := fs[..|fs| - 1], fs[|fs| - 1];
    HarmonicStep(f.severity, Count(fs, f.rule));
    forall r | r != f.rule ensures Share(fs, severity)(r) == Share(before, severity)(r) {
      assert Count(fs, r) == Count(before, r);
    }
  }

  /** One more finding changes its own rule's share only. */
  lemma TotalStep(rules: set<string>, fs: seq<Finding>, severity: string -> real)
    requires fs != [] && fs[|fs| - 1].severity == severity(fs[|fs| - 1].rule)
    ensures var f := fs[|fs| - 1];
      Total(rules, fs, severity) == Total(rules, fs[..|fs| - 1], severity)
        + (if f.rule in rules then f.severity / Count(fs, f.rule) as real else 0.0)
  {
    var before, f := fs[..|fs| - 1], fs[|fs| - 1];
    ShareStep(fs, severity);
    SumChange(rules, Share(before, severity), Share(fs, severity), f.rule, f.severity / Count(fs, f.rule) as real);
  }

  lemma HarmonicStep(s: real, n: nat)
    requires n > 0
    ensures s * Harmonic(n) == s * Harmonic(n - 1) + s / n as real
  {
    var k := n as real;
    assert Harmonic(n) == Harmonic(n - 1) + 1.0 / k;
    assert s * (1.0 / k) == s / k;
  }

  lemma RulesStep(fs: seq<Finding>)
    requires fs != []
    ensures Rules(fs) == Rules(fs[..|fs| - 1]) + {fs[|fs| - 1].rule}
  {
    var before := fs[..|fs| - 1];
    forall i | 0 <= i < |fs| ensures fs[i].rule in Rules(before) + {fs[|fs| - 1].rule} {
      if i < |before| { assert before[i] == fs[i]; }
    }
    forall i | 0 <= i < |before| ensures before[i].rule in Rules(fs) { assert before[i] == fs[i]; }
  }

  /** Rules that do not occur add nothing. */
  lemma {:induction false} TotalAbsent(rules: set<string>, severity: string -> real)
    ensures Total(rules, [], severity) == 0.0
    decreases |rules|
  {
    if rules != {} {
      var r :| r in rules;
      SumPick(rules, Share([], severity), r);
      TotalAbsent(rules - {r}, severity);
      assert severity(r) * 0.0 == 0.0;
    }
  }

  /** Over any rules that include those found, the total is what the loop deducts. */
  lemma {:induction false} DeductedIsTotal(fs: seq<Finding>, rules: set<string>, severity: string -> real)
    requires Consistent(fs, severity) && Rules(fs) <= rules
    ensures Deducted(fs) == Total(rules, fs, severity)
  {
    if fs == [] {
      TotalAbsent(rules, severity);
    } else {
      RulesStep(fs);
      DeductedIsTotal(fs[..|fs| - 1], rules, severity);
      TotalStep(rules, fs, severity);
    }
  }

  /** The closed form: the clamped score is 100 less, for each rule found n times, severity times
      1 + 1/2 + ... + 1/n. */
  lemma ClosedForm(fs: seq<Finding>, severity: string -> real)
    requires Consistent(fs, severity)
    ensures Score(fs) == Clamp(100.0 - Total(Rules(fs), fs, severity))
  {
    DeductedIsTotal(fs, Rules(fs), severity);
  }

  lemma {:induction false} HarmonicMonotone(m: nat, n: nat)
    requires m <= n
    ensures Harmonic(m) <= Harmonic(n)
    decreases n
  {
    if m < n {
      HarmonicMonotone(m, n - 1);
      assert 1.0 / n as real > 0.0;
    }
  }

  /** More findings of each rule never deduct less. */
  lemma TotalMonotone(rules: set<string>, fs: seq<Finding>, gs: seq<Finding>, severity: string -> real)
    requires forall r | r in rules :: Count(fs, r) <= Count(gs, r) && severity(r) >= 0.0
    ensures Total(rules, fs, severity) <= Total(rules, gs, severity)
  {
    forall r | r in rules ensures Share(fs, severity)(r) <= Share(gs, severity)(r) {
      HarmonicMonotone(Count(fs, r), Count(gs, r));
      TimesMonotone(severity(r), Harmonic(Count(fs, r)), Harmonic(Count(gs, r)));
    }
    SumMonotone(rules, Share(fs, severity), Share(gs, severity));
  }

  lemma TimesMonotone(s: real, x: real, y: real)
    requires s >= 0.0 && x <= y
    ensures s * x <= s * y
  {
    assert s * (y - x) >= 0.0;
  }

  lemma {:induction false} CountMultiset(fs: seq<Finding>, gs: seq<Finding>, severity: string -> real, r: string)
    requires Consistent(fs, severity) && Consistent(gs, severity) && multiset(fs) <= multiset(gs)
    ensures Count(fs, r) <= Count(gs, r)
  {
    CountIsMultiplicity(fs, severity, r);
    CountIsMultiplicity(gs, severity, r);
  }

  lemma {:induction false} CountIsMultiplicity(fs: seq<Finding>, severity: string -> real, r: string)
    requires Consistent(fs, severity)
    ensures Count(fs, r) == multiset(fs)[Finding(r, severity(r))]
  {
    if fs != [] {
      var before, f := fs[..|fs| - 1], fs[|fs| - 1];
      CountIsMultiplicity(before, severity, r);
      assert fs == before + [f];
      assert f.rule == r <==> f == Finding(r, severity(r));
    }
  }

  /** Adding findings, anywhere, never raises the score; in particular their order does not matter. */
  lemma MoreFindingsScoreLower(fs: seq<Finding>, gs: seq<Finding>, severity: string -> real)
    requires Consistent(fs, severity) && Consistent(gs, severity) && multiset(fs) <= multiset(gs)
    requires forall r :: severity(r) >= 0.0
    ensures Score(gs) <= Score(fs)
    ensures multiset(fs) == multiset(gs) ==> Score(fs) == Score(gs)
  {
    var rules := Rules(fs) + Rules(gs);
    forall r | r in rules { CountMultiset(fs, gs, severity, r); }
    DeductedIsTotal(fs, rules, severity);
    DeductedIsTotal(gs, rules, severity);
    TotalMonotone(rules, fs, gs, severity);
    if multiset(fs) == multiset(gs) {
      forall r | r in rules { CountMultiset(gs, fs, severity, r); }
      TotalMonotone(rules, gs, fs, severity);
    }
  }
}
