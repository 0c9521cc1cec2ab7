/** What single constructs promise: retries, case selection, catching, and plain text in templates. */
module FlowSteps {
  import opened Values
  import opened FlowModel
  import opened FlowSemantics
  import Expressions
  import Templates
  import FlowSoundness

  // ---- Actions ----

  /** "module.action" is taken apart at its first dot. */
  lemma {:induction false} SplitAtFirstDot(s: string)
    ensures match SplitAction(s)
      case Some(p) => s == p.0 + "." + p.1 && '.' !in p.0
      case None => '.' !in s
  {
    if s != "" && s[0] != '.' {
      SplitAtFirstDot(s[1..]);
      match SplitAction(s[1..])
      case None =>
      case Some(p) => assert s == [s[0]] + s[1..];
    }
  }

  /** A reply that is worth another attempt. */
  predicate Retried(r: Reply) {
    match r
    case Returned(v) => IsErrorReply(v)
    case TimedOut => true
    case Raises(_) => true
  }

  function CallsMade(call: Call, n: nat): seq<Event> {
    seq(n, _ => Called(call))
  }

  /** Retries: an action is called until a reply is no failure, at most `max` times; the last reply decides. */
  lemma {:induction false} RetryUntilSuccess(env: Env, policies: seq<string>, call: Call, attempt: nat, max: nat, lastError: string, st: State)
    returns (n: nat)
    requires attempt < max
    ensures 1 <= n <= max - attempt
    ensures forall k | 0 <= k < n - 1 :: Retried(env.act(st.log + CallsMade(call, k), call))
    ensures n < max - attempt ==> !Retried(env.act(st.log + CallsMade(call, n - 1), call))
    ensures var (o, st') := Attempts(env, policies, call, attempt, max, lastError, st);
      var calls := st.log + CallsMade(call, n);
      match env.act(st.log + CallsMade(call, n - 1), call)
      case Returned(v) => o == Done(StepResult(!IsErrorReply(v), v, None, [])) && st'.log == calls
      case TimedOut => o == Done(Failed("Action timed out")) && st'.log == calls
      case Raises(e) => o == Raised(Fails(e)) && st'.log == calls + [Faulted(policies)]
    decreases max - attempt
  {
    assert st.log + CallsMade(call, 0) == st.log;
    assert st.log + CallsMade(call, 1) == st.log + [Called(call)];
    var reply := env.act(st.log, call);
    if Retried(reply) && attempt < max - 1 {
      var st1 := Log(st, Called(call)).(stopped := st.stopped || env.stops(st.log + [Called(call)]));
      var error :=
        match reply
        case Returned(v) => env.str(Lookup(v.entries, "error"))
        case TimedOut => "Action timed out"
        case Raises(e) => e;
      var m := RetryUntilSuccess(env, policies, call, attempt + 1, max, error, st1);
      n := m + 1;
      forall k | 0 <= k ensures st1.log + CallsMade(call, k) == st.log + CallsMade(call, k + 1) {
        assert [Called(call)] + CallsMade(call, k) == CallsMade(call, k + 1);
        assert st.log + ([Called(call)] + CallsMade(call, k)) == st1.log + CallsMade(call, k);
      }
      forall k | 0 <= k < n - 1 ensures Retried(env.act(st.log + CallsMade(call, k), call)) {
        if k > 0 { assert st1.log + CallsMade(call, k - 1) == st.log + CallsMade(call, k); }
      }
    } else {
      n := 1;
    }
  }

  // ---- Selection ----

  /** A branch takes the first case that matches. */
  lemma {:induction false} FirstCase(env: Env, cases: seq<Case>, v: Value, i: nat)
    requires i <= |cases|
    ensures match MatchCase(env, cases, v, i)
      case Some(k) => i <= k < |cases| && CaseMatches(env, cases[k].key, v) && forall j | i <= j < k :: !CaseMatches(env, cases[j].key, v)
      case None => forall j | i <= j < |cases| :: !CaseMatches(env, cases[j].key, v)
    decreases |cases| - i
  {
    if i < |cases| && !CaseMatches(env, cases[i].key, v) {
      FirstCase(env, cases, v, i + 1);
    }
  }

  predicate Catches(c: Catch, s: Signal) {
    c.error == "*" || IsInfix(c.error, ErrorType(s))
  }

  /** A `try` uses the first clause that matches the exception's type. */
  lemma {:induction false} FirstCatch(catches: seq<Catch>, s: Signal, i: nat)
    requires i <= |catches|
    ensures match MatchCatch(catches, s, i)
      case Some(k) => i <= k < |catches| && Catches(catches[k], s) && forall j | i <= j < k :: !Catches(catches[j], s)
      case None => forall j | i <= j < |catches| :: !Catches(catches[j], s)
    decreases |catches| - i
  {
    if i < |catches| && !Catches(catches[i], s) {
      FirstCatch(catches, s, i + 1);
    }
  }

  // ---- try ----

  /** The first clause that matches says "fail", or has a step that raises. */
  ghost predicate LetsOut(env: Env, depth: nat, policies: seq<string>, catches: seq<Catch>, s: Signal, st: State) {
    exists k | 0 <= k < |catches| ::
      && Catches(catches[k], s)
      && (forall j | 0 <= j < k :: !Catches(catches[j], s))
      && (catches[k].after == "fail" || (catches[k].do.Some? && ExecStep(env, depth, policies, catches[k].do.value, st).0.Raised?))
  }

  /** A `try` also catches `end` and `goto`: an exception gets out if and only if a `finally` step raises one, or
      the body raised one and the first matching clause lets it out. Otherwise the step ends with a result. */
  lemma TrySwallowsSignals(env: Env, depth: nat, policies: seq<string>, step: Step, st: State)
    requires step.kind.Try?
    ensures var (body, st1) := RunList(env, depth, policies, UntilFailure, step.kind.tries, [], st);
      var exc := TryException(body);
      var st2 := ExecCatch(env, depth, policies, step, exc, st1).2;
      ExecTry(env, depth, policies, step, st).0.Raised? <==>
        || RunList(env, depth, policies, Plain, step.kind.finals, [], st2).0.signal.Some?
        || (exc.Some? && LetsOut(env, depth, policies, step.kind.catches, exc.value, st1))
  {
    var (body, st1) := RunList(env, depth, policies, UntilFailure, step.kind.tries, [], st);
    if TryException(body).Some? {
      FirstCatch(step.kind.catches, TryException(body).value, 0);
    }
  }

  lemma AllOkParts(a: seq<StepResult>, b: seq<StepResult>, c: seq<StepResult>)
    ensures AllOk(a + b + c) <==> AllOk(a) && AllOk(b) && AllOk(c)
  {
    var all := a + b + c;
    assert forall i | 0 <= i < |a| :: all[i] == a[i];
    assert forall i | 0 <= i < |b| :: all[|a| + i] == b[i];
    assert forall i | 0 <= i < |c| :: all[|a| + |b| + i] == c[i];
  }

  /** A `try` that ends with a result succeeds if and only if all children of its body, of the clause that
      handled an exception, and of `finally` do. */
  lemma HandledTry(env: Env, depth: nat, policies: seq<string>, step: Step, st: State)
    requires step.kind.Try?
    ensures var (body, st1) := RunList(env, depth, policies, UntilFailure, step.kind.tries, [], st);
      var (caught, _, st2) := ExecCatch(env, depth, policies, step, TryException(body), st1);
      var fin := RunList(env, depth, policies, Plain, step.kind.finals, [], st2).0;
      var o := ExecTry(env, depth, policies, step, st).0;
      o.Done? ==> (o.r.success <==> AllOk(body.children) && AllOk(caught) && AllOk(fin.children))
  {
    var (body, st1) := RunList(env, depth, policies, UntilFailure, step.kind.tries, [], st);
    var (caught, _, st2) := ExecCatch(env, depth, policies, step, TryException(body), st1);
    var fin := RunList(env, depth, policies, Plain, step.kind.finals, [], st2).0;
    AllOkParts(body.children, caught, fin.children);
  }

  /** So a failed result in the body makes the whole step a failure, even when a clause handles it. */
  lemma HandledFailureStillFails(env: Env, depth: nat, policies: seq<string>, step: Step, st: State)
    requires step.kind.Try?
    requires var l := RunList(env, depth, policies, UntilFailure, step.kind.tries, [], st).0;
      l.signal.None? && l.children != [] && !l.children[|l.children| - 1].success
    ensures var o := ExecTry(env, depth, policies, step, st).0; o.Done? ==> !o.r.success
  {
    HandledTry(env, depth, policies, step, st);
  }

  lemma {:induction false} OkUntilSignal(env: Env, depth: nat, policies: seq<string>, steps: seq<Step>, done: seq<StepResult>, st: State)
    requires AllOk(done)
    ensures var l := RunList(env, depth, policies, UntilFailure, steps, done, st).0;
      l.signal.Some? ==> AllOk(l.children)
    decreases |steps|
  {
    if steps != [] {
      match ExecStep(env, depth, policies, steps[0], st)
      case (Raised(_), _) =>
      case (Done(r), st') =>
        if r.success { OkUntilSignal(env, depth, policies, steps[1..], done + [r], st'); }
    }
  }

  /** But an exception that a clause handles, be it an error, `end` or `goto`, leaves no trace: without
      `finally` the step succeeds if and only if a clause matches and its step, if it has one, succeeds. */
  lemma HandledExceptionSucceeds(env: Env, depth: nat, policies: seq<string>, step: Step, st: State)
    requires step.kind.Try? && step.kind.finals == []
    requires RunList(env, depth, policies, UntilFailure, step.kind.tries, [], st).0.signal.Some?
    requires ExecTry(env, depth, policies, step, st).0.Done?
    ensures var (body, st1) := RunList(env, depth, policies, UntilFailure, step.kind.tries, [], st);
      var hit := MatchCatch(step.kind.catches, body.signal.value);
      ExecTry(env, depth, policies, step, st).0.r.success <==>
        hit.Some? &&
        var clause := step.kind.catches[hit.value];
        (clause.do.Some? ==> var o := ExecStep(env, depth, policies, clause.do.value, st1).0; o.Done? && o.r.success)
  {
    HandledTry(env, depth, policies, step, st);
    OkUntilSignal(env, depth, policies, step.kind.tries, [], st);
  }

  // ---- Templates ----

  /** Resolving strings with the expression engine meets the assumption on plain text. */
  lemma EngineKeepsPlainText(env: Env, engine: Ctx -> Expressions.Engine)
    requires forall s, ctx :: env.resolve(Str(s), ctx) == Templates.ResolveString(engine(ctx), s)
    requires forall s :: env.str(Str(s)) == s
    ensures FlowSoundness.PlainText(env)
  {
    forall s, ctx | !IsInfix("{{", s) ensures env.resolve(Str(s), ctx) == Ok(Str(s)) {
      Templates.PlainTextStays(engine(ctx), s);
    }
  }
}
