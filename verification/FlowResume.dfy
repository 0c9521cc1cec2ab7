/** Resuming from a stored checkpoint gives the outcome of the run that was never interrupted. */
module FlowResume {
  import opened Values
  import opened FlowModel
  import opened FlowShapes
  import opened FlowSemantics
  import opened FlowFrame
  import opened FlowWitnesses
  import OD = OrderedDicts

  // ---- Two runs side by side ----

  /** These calls are deterministic: the reply does not depend on what happened before. */
  ghost predicate Deterministic(env: Env, calls: set<Call>) {
    forall h1, h2, c | c in calls :: env.act(h1, c) == env.act(h2, c)
  }

  /** The calls made in a run. */
  ghost function CallsOf(log: seq<Event>): set<Call> {
    set i | 0 <= i < |log| && log[i].Called? :: log[i].call
  }

  /** The log's calls are deterministic. */
  ghost predicate Repeatable(env: Env, log: seq<Event>) {
    Deterministic(env, CallsOf(log))
  }

  lemma RepeatableBefore(env: Env, before: seq<Event>, log: seq<Event>)
    requires Repeatable(env, log) && before <= log
    ensures Repeatable(env, before)
  {
    forall c | c in CallsOf(before) ensures c in CallsOf(log) {
      var i :| 0 <= i < |before| && before[i] == Called(c);
      assert log[i] == before[i];
    }
  }

  lemma RepeatableEnd(env: Env, end: seq<Event>, log: seq<Event>)
    requires Repeatable(env, log) && |end| <= |log| && log[|log| - |end|..] == end
    ensures Repeatable(env, end)
  {
    forall c | c in CallsOf(end) ensures c in CallsOf(log) {
      var i :| 0 <= i < |end| && end[i] == Called(c);
      assert log[|log| - |end| + i] == end[i];
    }
  }

  ghost predicate NeverStops(env: Env) {
    forall h :: !env.stops(h)
  }

  /** A recorded result without its children, which a checkpoint does not keep. */
  ghost function Bare(r: StepResult): StepResult {
    r.(children := [])
  }

  ghost function Strip(d: OD.Dict<StepResult>): OD.Dict<StepResult> {
    seq(|d|, i requires 0 <= i < |d| => (d[i].0, Bare(d[i].1)))
  }

  /** The two states agree in everything the executor reads, and have logged the same events since
      their logs were `logS` and `logT`. */
  ghost predicate Alike(logS: seq<Event>, logT: seq<Event>, s: State, t: State) {
    && s.ctx == t.ctx
    && !s.stopped && !t.stopped
    && Strip(s.results) == Strip(t.results)
    && logS <= s.log && logT <= t.log
    && s.log[|logS|..] == t.log[|logT|..]
  }

  ghost predicate SameStep<O>(logS: seq<Event>, logT: seq<Event>, a: (O, State), b: (O, State)) {
    a.0 == b.0 && Alike(logS, logT, a.1, b.1)
  }

  /** What makes two runs side by side get the same replies: the same history, or deterministic calls. */
  ghost predicate Reproducible(env: Env, logS: seq<Event>, logT: seq<Event>, log: seq<Event>) {
    logS == logT || Repeatable(env, log)
  }

  lemma ReproducibleBefore(env: Env, logS: seq<Event>, logT: seq<Event>, before: seq<Event>, log: seq<Event>)
    requires Reproducible(env, logS, logT, log) && before <= log
    ensures Reproducible(env, logS, logT, before)
  {
    if logS != logT {
      RepeatableBefore(env, before, log);
    }
  }

  lemma CallRepeats(env: Env, logS: seq<Event>, logT: seq<Event>, s: State, t: State, c: Call, log: seq<Event>)
    requires Alike(logS, logT, s, t) && Reproducible(env, logS, logT, log) && s.log + [Called(c)] <= log
    ensures env.act(s.log, c) == env.act(t.log, c)
  {
    if logS == logT {
      assert s.log == logS + s.log[|logS|..] && t.log == logT + t.log[|logT|..];
    } else {
      assert log[|s.log|] == Called(c);
      assert c in CallsOf(log);
    }
  }

  lemma StripPut(d: OD.Dict<StepResult>, id: string, r: StepResult)
    ensures Strip(OD.Put(d, id, r)) == OD.Put(Strip(d), id, Bare(r))
  {
    var at, at' := OD.Position(d, id), OD.Position(Strip(d), id);
    assert at.Some? ==> Strip(d)[at.value].0 == id;
    assert at'.Some? ==> d[at'.value].0 == id;
    assert forall j | 0 <= j < |d| :: Strip(d)[j].0 == d[j].0;
    assert at == at';
  }

  lemma LogAlike(logS: seq<Event>, logT: seq<Event>, s: State, t: State, e: Event)
    requires Alike(logS, logT, s, t)
    ensures Alike(logS, logT, Log(s, e), Log(t, e))
  {
    assert (s.log + [e])[|logS|..] == s.log[|logS|..] + [e];
    assert (t.log + [e])[|logT|..] == t.log[|logT|..] + [e];
  }

  lemma RecordAlike(logS: seq<Event>, logT: seq<Event>, s: State, t: State, id: string, r: StepResult)
    requires Alike(logS, logT, s, t)
    ensures Alike(logS, logT, Record(s, id, r), Record(t, id, r))
  {
    StripPut(s.results, id, r);
    StripPut(t.results, id, r);
  }

  lemma {:induction false} AttemptsAlike(env: Env, policies: seq<string>, call: Call, attempt: nat, max: nat, lastError: string,
                                         logS: seq<Event>, logT: seq<Event>, s: State, t: State)
    requires NeverStops(env) && Alike(logS, logT, s, t)
    requires Reproducible(env, logS, logT, Attempts(env, policies, call, attempt, max, lastError, s).1.log)
    ensures SameStep(logS, logT, Attempts(env, policies, call, attempt, max, lastError, s),
                                 Attempts(env, policies, call, attempt, max, lastError, t))
    decreases max - attempt
  {
    if attempt < max {
      var s1, t1 := Log(s, Called(call)), Log(t, Called(call));
      LogAlike(logS, logT, s, t, Called(call));
      LogAlike(logS, logT, s1, t1, Faulted(policies));
      FirstCall(env, policies, call, attempt, max, lastError, s);
      CallRepeats(env, logS, logT, s, t, call, Attempts(env, policies, call, attempt, max, lastError, s).1.log);
      match env.act(s.log, call)
      case Returned(v) =>
        if IsErrorReply(v) && attempt < max - 1 {
          AttemptsAlike(env, policies, call, attempt + 1, max, env.str(Lookup(v.entries, "error")), logS, logT, s1, t1);
        }
      case TimedOut =>
        if attempt < max - 1 {
          AttemptsAlike(env, policies, call, attempt + 1, max, "Action timed out", logS, logT, s1, t1);
        }
      case Raises(e) =>
        if attempt < max - 1 {
          AttemptsAlike(env, policies, call, attempt + 1, max, e, logS, logT, s1, t1);
        }
    }
  }

  lemma FirstCall(env: Env, policies: seq<string>, call: Call, attempt: nat, max: nat, lastError: string, st: State)
    requires attempt < max
    ensures st.log + [Called(call)] <= Attempts(env, policies, call, attempt, max, lastError, st).1.log
  {
    forall error, stopped {
      AttemptsFramed(env, policies, call, attempt + 1, max, error, Log(st, Called(call)).(stopped := stopped));
    }
  }

  lemma ActionAlike(env: Env, policies: seq<string>, action: string, params: Value, max: nat,
                    logS: seq<Event>, logT: seq<Event>, s: State, t: State)
    requires NeverStops(env) && Alike(logS, logT, s, t)
    requires Reproducible(env, logS, logT, ExecAction(env, policies, action, params, max, s).1.log)
    ensures SameStep(logS, logT, ExecAction(env, policies, action, params, max, s), ExecAction(env, policies, action, params, max, t))
  {
    LogAlike(logS, logT, s, t, Faulted(policies));
    var name, args := env.resolve(Str(action), s.ctx), env.resolve(params, s.ctx);
    if name.Ok? && args.Ok? {
      var parts := SplitAction(env.str(name.value));
      if parts.Some? {
        AttemptsAlike(env, policies, Call(parts.value.0, parts.value.1, args.value), 0, max, "", logS, logT, s, t);
      }
    }
  }

  lemma {:induction false} StepAlike(env: Env, depth: nat, outer: seq<string>, step: Step,
                                     logS: seq<Event>, logT: seq<Event>, s: State, t: State)
    requires NeverStops(env) && Alike(logS, logT, s, t)
    requires Reproducible(env, logS, logT, ExecStep(env, depth, outer, step, s).1.log)
    ensures SameStep(logS, logT, ExecStep(env, depth, outer, step, s), ExecStep(env, depth, outer, step, t))
    decreases depth, step, 2
  {
    var policies := [step.onError] + outer;
    DispatchAlike(env, depth, policies, step, logS, logT, s, t);
    var (o, s') := Dispatch(env, depth, policies, step, s);
    var t' := Dispatch(env, depth, policies, step, t).1;
    match o
    case Done(r) => RecordAlike(logS, logT, s', t', step.id, r);
    case Raised(Fails(e)) => RecordAlike(logS, logT, s', t', step.id, Failed(e));
    case Raised(_) =>
  }

  lemma {:induction false} DispatchAlike(env: Env, depth: nat, policies: seq<string>, step: Step,
                                         logS: seq<Event>, logT: seq<Event>, s: State, t: State)
    requires NeverStops(env) && Alike(logS, logT, s, t)
    requires Reproducible(env, logS, logT, Dispatch(env, depth, policies, step, s).1.log)
    ensures SameStep(logS, logT, Dispatch(env, depth, policies, step, s), Dispatch(env, depth, policies, step, t))
    decreases depth, step, 1
  {
    LogAlike(logS, logT, s, t, Faulted(policies));
    match InferType(step)
    case ByFallback =>
      if step.kind.Action? {
        ActionAlike(env, policies, "", step.kind.params, step.kind.maxAttempts, logS, logT, s, t);
      } else {
        ActionAlike(env, policies, "", Dict(map[]), 1, logS, logT, s, t);
      }
    case ByGoto =>
      var v := env.resolve(Str(step.goto), s.ctx);
      if v.Ok? { LogAlike(logS, logT, s, t, Jumped(env.str(v.value))); }
    case ByMacro => MacroAlike(env, depth, policies, step, logS, logT, s, t);
    case ByKind =>
      match step.kind
      case Action(action, params, max) => ActionAlike(env, policies, action, params, max, logS, logT, s, t);
      case End(status, _) => LogAlike(logS, logT, s, t, Ended(status));
      case Sequence(steps) => ListAlike(env, depth, policies, CheckStop, steps, [], logS, logT, s, t);
      case Branch(_, _, _) => BranchAlike(env, depth, policies, step, logS, logT, s, t);
      case Pipe(stages) => ListAlike(env, depth, policies, Piped, stages, [], logS, logT, s, t);
      case Loop(max, until, body) =>
        var n := LoopBound(env, max, s.ctx);
        if n.Ok? { LoopAlike(env, depth, policies, body, until, n.value, 0, [], [], logS, logT, s, t); }
      case Map(over, asVar, body) =>
        var v := env.resolve(over, s.ctx);
        if v.Ok? && v.value.List? { MapAlike(env, depth, policies, body, asVar, v.value.items, 0, [], logS, logT, s, t); }
      case Try(_, _, _) => TryAlike(env, depth, policies, step, logS, logT, s, t);
  }

  lemma {:induction false} BranchAlike(env: Env, depth: nat, policies: seq<string>, step: Step,
                                       logS: seq<Event>, logT: seq<Event>, s: State, t: State)
    requires step.kind.Branch? && NeverStops(env) && Alike(logS, logT, s, t)
    requires Reproducible(env, logS, logT, ExecBranch(env, depth, policies, step, s).1.log)
    ensures SameStep(logS, logT, ExecBranch(env, depth, policies, step, s), ExecBranch(env, depth, policies, step, t))
    decreases depth, step, 0
  {
    LogAlike(logS, logT, s, t, Faulted(policies));
    var v := env.resolve(step.kind.on, s.ctx);
    if v.Ok? {
      var hit := MatchCase(env, step.kind.cases, v.value);
      if hit.Some? {
        ListAlike(env, depth, policies, Plain, step.kind.cases[hit.value].steps, [], logS, logT, s, t);
      } else {
        ListAlike(env, depth, policies, Plain, step.kind.default, [], logS, logT, s, t);
      }
    }
  }

  lemma {:induction false} MacroAlike(env: Env, depth: nat, policies: seq<string>, step: Step,
                                      logS: seq<Event>, logT: seq<Event>, s: State, t: State)
    requires NeverStops(env) && Alike(logS, logT, s, t)
    requires Reproducible(env, logS, logT, ExecMacro(env, depth, policies, step, s).1.log)
    ensures SameStep(logS, logT, ExecMacro(env, depth, policies, step, s), ExecMacro(env, depth, policies, step, t))
    decreases depth, step, 0
  {
    LogAlike(logS, logT, s, t, Faulted(policies));
    LogAlike(logS, logT, s, t, UnknownMacro(step.use));
    if step.use in env.macros {
      var mac := env.macros[step.use];
      var given := ResolveParams(env, step.withParams, s.ctx, map[]);
      if given.Ok? {
        var args := AddDefaults(mac.params, given.value);
        match args
        case Err(name) => LogAlike(logS, logT, s, t, MissingParam(step.use, name));
        case Ok(a) =>
          if depth > 0 {
            ListAlike(env, depth - 1, policies, UntilFailure, mac.body, [], logS, logT,
                      SetVar(s, "macro", Dict(a)), SetVar(t, "macro", Dict(a)));
          }
      }
    }
  }

  lemma {:induction false} CatchAlike(env: Env, depth: nat, policies: seq<string>, step: Step, exc: Option<Signal>,
                                      logS: seq<Event>, logT: seq<Event>, s: State, t: State)
    requires step.kind.Try? && NeverStops(env) && Alike(logS, logT, s, t)
    requires Reproducible(env, logS, logT, ExecCatch(env, depth, policies, step, exc, s).2.log)
    ensures var (a, b) := (ExecCatch(env, depth, policies, step, exc, s), ExecCatch(env, depth, policies, step, exc, t));
      a.0 == b.0 && a.1 == b.1 && Alike(logS, logT, a.2, b.2)
    decreases depth, step.kind, 0
  {
    if exc.Some? {
      var hit := MatchCatch(step.kind.catches, exc.value);
      if hit.Some? && step.kind.catches[hit.value].do.Some? {
        StepAlike(env, depth, policies, step.kind.catches[hit.value].do.value, logS, logT, s, t);
      }
    }
  }

  lemma {:induction false} TryAlike(env: Env, depth: nat, policies: seq<string>, step: Step,
                                    logS: seq<Event>, logT: seq<Event>, s: State, t: State)
    requires step.kind.Try? && NeverStops(env) && Alike(logS, logT, s, t)
    requires Reproducible(env, logS, logT, ExecTry(env, depth, policies, step, s).1.log)
    ensures SameStep(logS, logT, ExecTry(env, depth, policies, step, s), ExecTry(env, depth, policies, step, t))
    decreases depth, step, 0
  {
    var (body, s1) := RunList(env, depth, policies, UntilFailure, step.kind.tries, [], s);
    var t1 := RunList(env, depth, policies, UntilFailure, step.kind.tries, [], t).1;
    var exc := TryException(body);
    var s2, t2 := ExecCatch(env, depth, policies, step, exc, s1).2, ExecCatch(env, depth, policies, step, exc, t1).2;
    var s3 := RunList(env, depth, policies, Plain, step.kind.finals, [], s2).1;
    CatchFramed(false, env, depth, policies, step, exc, s1, map[]);
    ListFramed(false, env, depth, policies, Plain, step.kind.finals, [], s2, map[]);
    ReproducibleBefore(env, logS, logT, s2.log, s3.log);
    ReproducibleBefore(env, logS, logT, s1.log, s2.log);
    ListAlike(env, depth, policies, UntilFailure, step.kind.tries, [], logS, logT, s, t);
    CatchAlike(env, depth, policies, step, exc, logS, logT, s1, t1);
    ListAlike(env, depth, policies, Plain, step.kind.finals, [], logS, logT, s2, t2);
  }

  lemma {:induction false} ListAlike(env: Env, depth: nat, policies: seq<string>, mode: Mode, steps: seq<Step>, done: seq<StepResult>,
                                     logS: seq<Event>, logT: seq<Event>, s: State, t: State)
    requires NeverStops(env) && Alike(logS, logT, s, t)
    requires Reproducible(env, logS, logT, RunList(env, depth, policies, mode, steps, done, s).1.log)
    ensures SameStep(logS, logT, RunList(env, depth, policies, mode, steps, done, s), RunList(env, depth, policies, mode, steps, done, t))
    decreases depth, steps, 0
  {
    if steps != [] {
      var s0, t0 := BeforeChild(mode, done, s), BeforeChild(mode, done, t);
      var (o, s') := ExecStep(env, depth, policies, steps[0], s0);
      var t' := ExecStep(env, depth, policies, steps[0], t0).1;
      if o.Done? && !StopsAfter(mode, o.r) {
        ListFramed(false, env, depth, policies, mode, steps[1..], done + [o.r], s', map[]);
        ReproducibleBefore(env, logS, logT, s'.log, RunList(env, depth, policies, mode, steps[1..], done + [o.r], s').1.log);
        StepAlike(env, depth, policies, steps[0], logS, logT, s0, t0);
        ListAlike(env, depth, policies, mode, steps[1..], done + [o.r], logS, logT, s', t');
      } else {
        StepAlike(env, depth, policies, steps[0], logS, logT, s0, t0);
      }
    }
  }

  lemma {:induction false} LoopAlike(env: Env, depth: nat, policies: seq<string>, body: seq<Step>, until: string, n: int, i: nat,
                                     done: seq<StepResult>, outs: seq<Value>,
                                     logS: seq<Event>, logT: seq<Event>, s: State, t: State)
    requires NeverStops(env) && Alike(logS, logT, s, t)
    requires Reproducible(env, logS, logT, RunLoop(env, depth, policies, body, until, n, i, done, outs, s).1.log)
    ensures SameStep(logS, logT, RunLoop(env, depth, policies, body, until, n, i, done, outs, s),
                                 RunLoop(env, depth, policies, body, until, n, i, done, outs, t))
    decreases depth, body, 1, n - i
  {
    if i < n {
      var s0, t0 := SetLoop(s, LoopFrame(i)), SetLoop(t, LoopFrame(i));
      var (l, s') := RunList(env, depth, policies, Plain, body, done, s0);
      var t' := RunList(env, depth, policies, Plain, body, done, t0).1;
      var outs' := if l.children == [] then outs else outs + [LastOutput(l.children)];
      var again := if until == "" then Ok(false) else env.condition(until, s'.ctx);
      var last := RunLoop(env, depth, policies, body, until, n, i, done, outs, s).1;
      if l.signal.None? && again == Ok(false) {
        LoopFramed(env, depth, policies, body, until, n, i + 1, l.children, outs', s', map[]);
      }
      ReproducibleBefore(env, logS, logT, s'.log, last.log);
      ListAlike(env, depth, policies, Plain, body, done, logS, logT, s0, t0);
      if l.signal.None? {
        LogAlike(logS, logT, s', t', Faulted(policies));
        if again == Ok(false) {
          LoopAlike(env, depth, policies, body, until, n, i + 1, l.children, outs', logS, logT, s', t');
        }
      }
    }
  }

  lemma {:induction false} MapAlike(env: Env, depth: nat, policies: seq<string>, body: seq<Step>, asVar: string, items: seq<Value>, i: nat,
                                    done: seq<StepResult>, logS: seq<Event>, logT: seq<Event>, s: State, t: State)
    requires NeverStops(env) && Alike(logS, logT, s, t)
    requires Reproducible(env, logS, logT, RunMap(env, depth, policies, body, asVar, items, i, done, s).1.log)
    ensures SameStep(logS, logT, RunMap(env, depth, policies, body, asVar, items, i, done, s),
                                 RunMap(env, depth, policies, body, asVar, items, i, done, t))
    decreases depth, body, 2, |items| - i
  {
    if i < |items| {
      var frame := ItemFrame(i, items[i]);
      var (l, s1) := RunItem(env, depth, policies, body, asVar, items[i], i, s);
      var t1 := RunItem(env, depth, policies, body, asVar, items[i], i, t).1;
      var r := StepResult(AllOk(l.children), LastOutput(l.children), None, l.children);
      if l.signal.None? {
        MapFramed(false, env, depth, policies, body, asVar, items, i + 1, done + [r], s1, map[]);
        ReproducibleBefore(env, logS, logT, s1.log, RunMap(env, depth, policies, body, asVar, items, i + 1, done + [r], s1).1.log);
      }
      ListAlike(env, depth, policies, Plain, body, [], logS, logT, SetLoop(SetVar(s, asVar, items[i]), frame), SetLoop(SetVar(t, asVar, items[i]), frame));
      if l.signal.None? {
        MapAlike(env, depth, policies, body, asVar, items, i + 1, done + [r], logS, logT, s1, t1);
      }
    }
  }

  // ---- Whole runs from two alike states ----

  /** What the first step logs stays in the log. */
  lemma {:induction false} RunGrows(env: Env, depth: nat, keep: bool, steps: seq<Step>, i: nat, jumps: nat, st: State, kv: Option<Checkpoint>, ran: nat)
    requires jumps <= MAX_GOTO_JUMPS
    ensures var last := RunFrom(env, depth, keep, steps, i, jumps, st, kv, ran).st.log;
      st.log <= last && (i < |steps| && !st.stopped ==> ExecStep(env, depth, [], steps[i], st).1.log <= last)
    decreases MAX_GOTO_JUMPS - jumps, |steps| - i
  {
    if i < |steps| && !st.stopped {
      StepFramed(false, env, depth, [], steps[i], st, map[]);
      var (o, st') := ExecStep(env, depth, [], steps[i], st);
      match o
      case Done(_) => RunGrows(env, depth, keep, steps, i + 1, jumps, st', if keep then Some(MakeCheckpoint(env, st', i + 1)) else kv, ran + 1);
      case Raised(Jumps(target)) =>
        var at := StepIndex(steps, target);
        if jumps + 1 <= MAX_GOTO_JUMPS && at.Some? { RunGrows(env, depth, keep, steps, at.value, jumps + 1, st', kv, ran + 1); }
      case _ =>
    }
  }

  lemma TopStepAlike(env: Env, depth: nat, keep: bool, steps: seq<Step>, i: nat, jumps: nat, kv: Option<Checkpoint>, ran: nat,
                     logS: seq<Event>, logT: seq<Event>, s: State, t: State)
    requires NeverStops(env) && Alike(logS, logT, s, t) && jumps <= MAX_GOTO_JUMPS && i < |steps|
    requires Reproducible(env, logS, logT, RunFrom(env, depth, keep, steps, i, jumps, s, kv, ran).st.log)
    ensures SameStep(logS, logT, ExecStep(env, depth, [], steps[i], s), ExecStep(env, depth, [], steps[i], t))
  {
    RunGrows(env, depth, keep, steps, i, jumps, s, kv, ran);
    ReproducibleBefore(env, logS, logT, ExecStep(env, depth, [], steps[i], s).1.log, RunFrom(env, depth, keep, steps, i, jumps, s, kv, ran).st.log);
    StepAlike(env, depth, [], steps[i], logS, logT, s, t);
  }

  /** From alike states, and with fewer jumps used up, a run ends alike unless it exceeds the jump limit. */
  lemma {:induction false} RunAlike(env: Env, depth: nat, keep: bool, steps: seq<Step>, i: nat, jumpsS: nat, jumpsT: nat,
                                    kvS: Option<Checkpoint>, kvT: Option<Checkpoint>, ranS: nat, ranT: nat,
                                    logS: seq<Event>, logT: seq<Event>, s: State, t: State)
    requires NeverStops(env) && Alike(logS, logT, s, t) && jumpsT <= jumpsS <= MAX_GOTO_JUMPS
    requires Reproducible(env, logS, logT, RunFrom(env, depth, keep, steps, i, jumpsS, s, kvS, ranS).st.log)
    requires !RunFrom(env, depth, keep, steps, i, jumpsS, s, kvS, ranS).end.TooManyJumps?
    ensures var runS, runT := RunFrom(env, depth, keep, steps, i, jumpsS, s, kvS, ranS), RunFrom(env, depth, keep, steps, i, jumpsT, t, kvT, ranT);
      runS.end == runT.end && Alike(logS, logT, runS.st, runT.st)
    decreases MAX_GOTO_JUMPS - jumpsS, |steps| - i
  {
    if i < |steps| {
      TopStepAlike(env, depth, keep, steps, i, jumpsS, kvS, ranS, logS, logT, s, t);
      var (o, s') := ExecStep(env, depth, [], steps[i], s);
      var t' := ExecStep(env, depth, [], steps[i], t).1;
      match o
      case Done(_) =>
        RunAlike(env, depth, keep, steps, i + 1, jumpsS, jumpsT,
                 if keep then Some(MakeCheckpoint(env, s', i + 1)) else kvS, if keep then Some(MakeCheckpoint(env, t', i + 1)) else kvT,
                 ranS + 1, ranT + 1, logS, logT, s', t');
      case Raised(Ends(_, _)) =>
      case Raised(Fails(_)) =>
      case Raised(Jumps(target)) =>
        var at := StepIndex(steps, target);
        if at.Some? {
          RunAlike(env, depth, keep, steps, at.value, jumpsS + 1, jumpsT + 1, kvS, kvT, ranS + 1, ranT + 1, logS, logT, s', t');
        }
    }
  }

  // ---- What a checkpoint brings back ----

  /** A recorded result that a checkpoint reproduces: successful, and unchanged by a trip through JSON. */
  ghost predicate RestorableOne(env: Env, r: StepResult) {
    r.success && env.json(r.output) == r.output
  }

  ghost predicate Restorable(env: Env, results: OD.Dict<StepResult>) {
    forall i | 0 <= i < |results| :: RestorableOne(env, results[i].1)
  }

  lemma OverlayBare(base: map<string, Value>, d: OD.Dict<StepResult>)
    ensures Overlay(base, Strip(d)) == Overlay(base, d)
  {
    ShownBare(d);
  }

  lemma ShownBare(d: OD.Dict<StepResult>)
    ensures ShownMap(OD.ToMap(Strip(d))) == ShownMap(OD.ToMap(d))
  {
    if d != [] {
      var n := |d| - 1;
      ShownBare(d[..n]);
      assert Strip(d)[..n] == Strip(d[..n]);
      ShownPut(OD.ToMap(d[..n]), d[n].0, d[n].1);
      ShownPut(OD.ToMap(Strip(d[..n])), d[n].0, Bare(d[n].1));
    }
  }

  /** The results that the checkpoint of `d` brings back: the successful ones, bare, after a trip through JSON. */
  ghost function Revived(env: Env, d: OD.Dict<StepResult>): OD.Dict<StepResult> {
    if d == [] then []
    else if d[0].1.success then [(d[0].0, Succeeded(env.json(d[0].1.output)))] + Revived(env, d[1..])
    else Revived(env, d[1..])
  }

  lemma {:induction false} RestoreRest(env: Env, base: map<string, Value>, rest: OD.Dict<StepResult>, st: State)
    requires Tidy(rest) && st.ctx.results == Overlay(base, st.results)
    requires forall i, j | 0 <= i < |st.results| && 0 <= j < |rest| :: st.results[i].0 != rest[j].0
    ensures var results := st.results + Revived(env, rest);
      Restore(Completed(env, rest), st) == st.(results := results, ctx := st.ctx.(results := Overlay(base, results)))
    decreases |rest|
  {
    if rest == [] {
      assert st.results + Revived(env, rest) == st.results;
    } else if !rest[0].1.success {
      RestoreRest(env, base, rest[1..], st);
    } else {
      var (id, r) := rest[0];
      var back := Succeeded(env.json(r.output));
      assert Record(st, id, back).results == st.results + [(id, back)];
      OverlayPut(base, st.results, id, back);
      assert Completed(env, rest)[1..] == Completed(env, rest[1..]);
      assert (st.results + [(id, back)]) + Revived(env, rest[1..]) == st.results + Revived(env, rest);
      RestoreRest(env, base, rest[1..], Record(st, id, back));
    }
  }

  lemma {:induction false} RevivedLength(env: Env, d: OD.Dict<StepResult>)
    ensures |Revived(env, d)| <= |d|
  {
    if d != [] { RevivedLength(env, d[1..]); }
  }

  lemma StripHead(d: OD.Dict<StepResult>)
    requires d != []
    ensures Strip(d) == [(d[0].0, Bare(d[0].1))] + Strip(d[1..])
  {
  }

  lemma SameConcat<T>(x: T, s: seq<T>, y: T, t: seq<T>)
    ensures [x] + s == [y] + t <==> x == y && s == t
  {
    if [x] + s == [y] + t {
      assert ([x] + s)[0] == ([y] + t)[0] && ([x] + s)[1..] == ([y] + t)[1..];
    }
  }

  lemma RestorableHead(env: Env, d: OD.Dict<StepResult>)
    requires d != []
    ensures Restorable(env, d) <==> RestorableOne(env, d[0].1) && Restorable(env, d[1..])
  {
    assert forall i | 0 <= i < |d[1..]| :: d[1..][i] == d[i + 1];
    if RestorableOne(env, d[0].1) && Restorable(env, d[1..]) {
      forall i | 0 <= i < |d| ensures RestorableOne(env, d[i].1) {
        assert i > 0 ==> d[1..][i - 1] == d[i];
      }
    }
  }

  /** A dict of results survives a checkpoint exactly when it is restorable. */
  lemma {:induction false} RevivedExact(env: Env, d: OD.Dict<StepResult>)
    requires Tidy(d)
    ensures Strip(Revived(env, d)) == Strip(d) <==> Restorable(env, d)
  {
    if d != [] {
      var back := Revived(env, d);
      RevivedExact(env, d[1..]);
      RevivedLength(env, d[1..]);
      RestorableHead(env, d);
      StripHead(d);
      if d[0].1.success {
        StripHead(back);
        assert back[1..] == Revived(env, d[1..]);
        SameConcat((back[0].0, Bare(back[0].1)), Strip(back[1..]), (d[0].0, Bare(d[0].1)), Strip(d[1..]));
      } else {
        assert |Strip(back)| < |Strip(d)|;
      }
    }
  }

  /** A state of a run: over what it held at the start, the context shows the recorded results. */
  ghost predicate Booked(ctx: Ctx, st: State) {
    && st.ctx.results == Overlay(ctx.results, st.results)
    && Tidy(st.results)
    && !st.stopped
  }

  /** What a checkpoint cannot bring back is missing: every result is restorable, and the variables and the
      loop context, which no checkpoint has, are those of the start. */
  ghost predicate Recoverable(env: Env, ctx: Ctx, st: State) {
    Restorable(env, st.results) && SameScope(ctx, st)
  }

  ghost predicate SameScope(ctx: Ctx, st: State) {
    st.ctx.variables == ctx.variables && st.ctx.loop == ctx.loop
  }

  /** Loading a state's checkpoint gives back that state, but for the children of its results, if and
      only if it is recoverable. */
  lemma RestoreExact(env: Env, ctx: Ctx, st: State, next: nat, log: seq<Event>)
    requires Booked(ctx, st)
    ensures var (i, entered) := Enter(true, true, State([], ctx, false, log), Some(MakeCheckpoint(env, st, next)));
      && i == next
      && (Alike(st.log, log, st, entered) <==> Recoverable(env, ctx, st))
      && (Recoverable(env, ctx, st) ==> Booked(ctx, entered))
  {
    var start := State([], ctx, false, log);
    OverlayEmpty(ctx.results);
    assert [] + Revived(env, st.results) == Revived(env, st.results);
    RestoreRest(env, ctx.results, st.results, start);
    RevivedExact(env, st.results);
    OverlayBare(ctx.results, st.results);
    OverlayBare(ctx.results, Revived(env, st.results));
    if Restorable(env, st.results) {
      TidyFromStrip(st.results, Revived(env, st.results));
    }
  }

  lemma TidyFromStrip(d: OD.Dict<StepResult>, e: OD.Dict<StepResult>)
    requires Tidy(d) && Strip(d) == Strip(e)
    ensures Tidy(e)
  {
    forall i | 0 <= i < |e| ensures e[i].0 == d[i].0 && Bare(e[i].1) == Bare(d[i].1) {
      assert Strip(d)[i] == Strip(e)[i];
    }
  }

  lemma OverlayEmpty(base: map<string, Value>)
    ensures Overlay(base, []) == base
  {
    assert ShownMap(map[]) == map[];
  }

  // ---- Crashing and resuming ----

  /** The state in which a checkpoint was saved, and the step it continues with. */
  datatype Snapshot = Snapshot(next: nat, st: State)

  function Stored(env: Env, snap: Option<Snapshot>): Option<Checkpoint> {
    if snap.None? then None else Some(MakeCheckpoint(env, snap.value.st, snap.value.next))
  }

  /** What the store holds if the process dies while executing the top-level step after the first `k`:
      `snap` is the last save so far. A run that has ended leaves the store as `execute` leaves it. */
  ghost function SavedAfter(env: Env, depth: nat, steps: seq<Step>, i: nat, jumps: nat, st: State, snap: Option<Snapshot>, k: nat): Option<Snapshot>
    requires jumps <= MAX_GOTO_JUMPS
    decreases k
  {
    if k == 0 then snap
    else if i >= |steps| || st.stopped then None
    else
      var (o, st') := ExecStep(env, depth, [], steps[i], st);
      match o
      case Done(_) => SavedAfter(env, depth, steps, i + 1, jumps, st', Some(Snapshot(i + 1, st')), k - 1)
      case Raised(Ends(_, _)) => None
      case Raised(Fails(_)) => snap
      case Raised(Jumps(target)) =>
        if jumps + 1 > MAX_GOTO_JUMPS || StepIndex(steps, target).None? then snap
        else SavedAfter(env, depth, steps, StepIndex(steps, target).value, jumps + 1, st', snap, k - 1)
  }

  /** Once the run is over, `SavedAfter` describes what `execute` left in the store. */
  lemma {:induction false} SavedAtEnd(env: Env, depth: nat, steps: seq<Step>, i: nat, jumps: nat, st: State, snap: Option<Snapshot>, ran: nat, k: nat)
    requires jumps <= MAX_GOTO_JUMPS
    requires k > RunFrom(env, depth, true, steps, i, jumps, st, Stored(env, snap), ran).ran - ran
    ensures RunFrom(env, depth, true, steps, i, jumps, st, Stored(env, snap), ran).kv
         == Stored(env, SavedAfter(env, depth, steps, i, jumps, st, snap, k))
    decreases MAX_GOTO_JUMPS - jumps, |steps| - i
  {
    RanGrows(env, depth, true, steps, i, jumps, st, Stored(env, snap), ran);
    if i < |steps| && !st.stopped {
      var (o, st') := ExecStep(env, depth, [], steps[i], st);
      match o
      case Done(_) =>
        var snap' := Some(Snapshot(i + 1, st'));
        RanGrows(env, depth, true, steps, i + 1, jumps, st', Stored(env, snap'), ran + 1);
        SavedAtEnd(env, depth, steps, i + 1, jumps, st', snap', ran + 1, k - 1);
      case Raised(Ends(_, _)) =>
      case Raised(Fails(_)) =>
      case Raised(Jumps(target)) =>
        var at := StepIndex(steps, target);
        if jumps + 1 <= MAX_GOTO_JUMPS && at.Some? {
          RanGrows(env, depth, true, steps, at.value, jumps + 1, st', Stored(env, snap), ran + 1);
          SavedAtEnd(env, depth, steps, at.value, jumps + 1, st', snap, ran + 1, k - 1);
        }
    }
  }

  lemma RanGrows(env: Env, depth: nat, keep: bool, steps: seq<Step>, i: nat, jumps: nat, st: State, kv: Option<Checkpoint>, ran: nat)
    requires jumps <= MAX_GOTO_JUMPS
    ensures RunFrom(env, depth, keep, steps, i, jumps, st, kv, ran).ran >= ran
    decreases MAX_GOTO_JUMPS - jumps, |steps| - i
  {
  }

  /** `resumed` ends as `full` does, with the same recorded results, and performs exactly the events of
      `full` that come after the checkpoint. */
  ghost predicate Continues(snap: Snapshot, resumed: FlowRun, full: FlowRun) {
    && resumed.end == full.end
    && Strip(resumed.st.results) == Strip(full.st.results)
    && resumed.st.ctx == full.st.ctx
    && full.st.log == snap.st.log + resumed.st.log
  }

  /** Resuming from `snap` in a new process continues `full`. */
  ghost predicate ResumesAs(env: Env, depth: nat, steps: seq<Step>, ctx: Ctx, snap: Snapshot, full: FlowRun) {
    Continues(snap, Execute(env, depth, true, steps, true, State([], ctx, false, []), Stored(env, Some(snap))), full)
  }

  /** For the invariant of a run: what the store holds is either what it held at the start, or a
      checkpoint of this run, from which the run resumes. */
  ghost predicate Resumable(env: Env, depth: nat, steps: seq<Step>, ctx: Ctx, inherited: Option<Snapshot>, snap: Option<Snapshot>, full: FlowRun) {
    snap.None? || snap == inherited ||
    (Booked(ctx, snap.value.st) &&
     (Recoverable(env, ctx, snap.value.st) ==> ResumesAs(env, depth, steps, ctx, snap.value, full)))
  }

  /** A run that has reached the snapshot's state, and ends as `full`. */
  ghost predicate OnTheWay(env: Env, depth: nat, steps: seq<Step>, ctx: Ctx, snap: Snapshot, jumps: nat, kv: Option<Checkpoint>, ran: nat,
                           full: FlowRun)
  {
    jumps <= MAX_GOTO_JUMPS && Booked(ctx, snap.st) && full == RunFrom(env, depth, true, steps, snap.next, jumps, snap.st, kv, ran)
  }

  /** What comes after `here`: None if the run ends or dies in this step. */
  ghost predicate IsNext(env: Env, depth: nat, steps: seq<Step>, here: Snapshot, jumps: nat, next: Option<Snapshot>, saved: bool) {
    if here.next >= |steps| then next.None?
    else
      var (o, st') := ExecStep(env, depth, [], steps[here.next], here.st);
      match o
      case Done(_) => next == Some(Snapshot(here.next + 1, st')) && saved
      case Raised(Jumps(target)) =>
        var at := StepIndex(steps, target);
        && !saved
        && (if at.Some? then jumps < MAX_GOTO_JUMPS && next == Some(Snapshot(at.value, st')) else next.None?)
      case Raised(_) => next.None?
  }

  lemma SavedStep(env: Env, depth: nat, steps: seq<Step>, here: Snapshot, jumps: nat, next: Option<Snapshot>, saved: bool,
                  snap: Option<Snapshot>, k: nat)
    requires jumps <= MAX_GOTO_JUMPS && k > 0 && !here.st.stopped && IsNext(env, depth, steps, here, jumps, next, saved)
    ensures var after := SavedAfter(env, depth, steps, here.next, jumps, here.st, snap, k);
      if next.None? then after.None? || after == snap
      else
        && (!saved ==> jumps < MAX_GOTO_JUMPS)
        && after == SavedAfter(env, depth, steps, next.value.next, if saved then jumps else jumps + 1, next.value.st, if saved then next else snap, k - 1)
  {
  }

  /** One step further on the way of a run. */
  lemma Advance(env: Env, depth: nat, steps: seq<Step>, ctx: Ctx, here: Snapshot, jumps: nat, kv: Option<Checkpoint>, ran: nat, full: FlowRun)
    returns (next: Option<Snapshot>, saved: bool, kv': Option<Checkpoint>)
    requires NeverStops(env) && !full.end.TooManyJumps?
    requires OnTheWay(env, depth, steps, ctx, here, jumps, kv, ran, full)
    ensures IsNext(env, depth, steps, here, jumps, next, saved)
    ensures next.Some? ==> OnTheWay(env, depth, steps, ctx, next.value, if saved then jumps else jumps + 1, kv', ran + 1, full)
  {
    next, saved, kv' := None, false, kv;
    if here.next < |steps| {
      var (o, st') := ExecStep(env, depth, [], steps[here.next], here.st);
      NextStep(env, depth, steps, ctx, here, jumps, kv, ran, full);
      match o
      case Done(_) =>
        next, saved, kv' := Some(Snapshot(here.next + 1, st')), true, Some(MakeCheckpoint(env, st', here.next + 1));
      case Raised(Jumps(target)) =>
        var at := StepIndex(steps, target);
        if at.Some? {
          next := Some(Snapshot(at.value, st'));
        }
      case Raised(_) =>
    }
  }

  /** Every checkpoint that a run saves is one of a state that the run has reached. */
  lemma {:induction false} SavedOnTheWay(env: Env, depth: nat, steps: seq<Step>, ctx: Ctx, here: Snapshot, jumps: nat,
                                         kv: Option<Checkpoint>, ran: nat, snap: Option<Snapshot>, k: nat, full: FlowRun)
    returns (jumps': nat, kv': Option<Checkpoint>, ran': nat)
    requires NeverStops(env) && !full.end.TooManyJumps?
    requires OnTheWay(env, depth, steps, ctx, here, jumps, kv, ran, full)
    ensures var saved := SavedAfter(env, depth, steps, here.next, jumps, here.st, snap, k);
      saved.None? || saved == snap || OnTheWay(env, depth, steps, ctx, saved.value, jumps', kv', ran', full)
    decreases k
  {
    jumps', kv', ran' := jumps, kv, ran;
    if k > 0 {
      var next, save, kv1 := Advance(env, depth, steps, ctx, here, jumps, kv, ran, full);
      SavedStep(env, depth, steps, here, jumps, next, save, snap, k);
      if next.Some? {
        var jumps1 := if save then jumps else jumps + 1;
        jumps', kv', ran' := SavedOnTheWay(env, depth, steps, ctx, next.value, jumps1, kv1, ran + 1, if save then next else snap, k - 1, full);
        if SavedAfter(env, depth, steps, here.next, jumps, here.st, snap, k) == next {
          jumps', kv', ran' := jumps1, kv1, ran + 1;
        }
      }
    }
  }

  lemma ResumeInvariant(env: Env, depth: nat, steps: seq<Step>, ctx: Ctx, i: nat, jumps: nat, st: State,
                        kv: Option<Checkpoint>, ran: nat, inherited: Option<Snapshot>, snap: Option<Snapshot>, k: nat, full: FlowRun)
    requires NeverStops(env) && Repeatable(env, full.st.log)
    requires jumps <= MAX_GOTO_JUMPS && Booked(ctx, st)
    requires full == RunFrom(env, depth, true, steps, i, jumps, st, kv, ran) && !full.end.TooManyJumps?
    requires Resumable(env, depth, steps, ctx, inherited, snap, full)
    ensures Resumable(env, depth, steps, ctx, inherited, SavedAfter(env, depth, steps, i, jumps, st, snap, k), full)
  {
    var saved := SavedAfter(env, depth, steps, i, jumps, st, snap, k);
    var jumps', kv', ran' := SavedOnTheWay(env, depth, steps, ctx, Snapshot(i, st), jumps, kv, ran, snap, k, full);
    if saved.Some? && saved != snap {
      NewSnapshot(env, depth, steps, ctx, inherited, saved.value, jumps', kv', ran', full);
    }
  }

  /** One step further. */
  lemma NextStep(env: Env, depth: nat, steps: seq<Step>, ctx: Ctx, here: Snapshot, jumps: nat, kv: Option<Checkpoint>, ran: nat, full: FlowRun)
    requires NeverStops(env) && !full.end.TooManyJumps?
    requires here.next < |steps| && OnTheWay(env, depth, steps, ctx, here, jumps, kv, ran, full)
    ensures var (o, st') := ExecStep(env, depth, [], steps[here.next], here.st);
      match o
      case Done(_) =>
        OnTheWay(env, depth, steps, ctx, Snapshot(here.next + 1, st'), jumps, Some(MakeCheckpoint(env, st', here.next + 1)), ran + 1, full)
      case Raised(Jumps(target)) =>
        StepIndex(steps, target).Some? ==>
          OnTheWay(env, depth, steps, ctx, Snapshot(StepIndex(steps, target).value, st'), jumps + 1, kv, ran + 1, full)
      case Raised(_) => true
  {
    BookedStep(env, depth, steps, ctx, here.next, here.st);
  }

  lemma NewSnapshot(env: Env, depth: nat, steps: seq<Step>, ctx: Ctx, inherited: Option<Snapshot>, snap: Snapshot, jumps: nat,
                    kv: Option<Checkpoint>, ran: nat, full: FlowRun)
    requires NeverStops(env) && Repeatable(env, full.st.log) && jumps <= MAX_GOTO_JUMPS && Booked(ctx, snap.st)
    requires full == RunFrom(env, depth, true, steps, snap.next, jumps, snap.st, kv, ran) && !full.end.TooManyJumps?
    ensures Resumable(env, depth, steps, ctx, inherited, Some(snap), full)
  {
    if Recoverable(env, ctx, snap.st) {
      FromSnapshot(env, depth, steps, ctx, snap, jumps, kv, ran);
    }
  }

  lemma BookedStep(env: Env, depth: nat, steps: seq<Step>, ctx: Ctx, i: nat, st: State)
    requires NeverStops(env) && Booked(ctx, st) && i < |steps|
    ensures Booked(ctx, ExecStep(env, depth, [], steps[i], st).1)
  {
    StepFramed(false, env, depth, [], steps[i], st, ctx.results);
    StepAlike(env, depth, [], steps[i], st.log, st.log, st, st);
  }

  lemma FromSnapshot(env: Env, depth: nat, steps: seq<Step>, ctx: Ctx, snap: Snapshot, jumps: nat, kv: Option<Checkpoint>, ran: nat)
    requires NeverStops(env) && jumps <= MAX_GOTO_JUMPS && Repeatable(env, RunFrom(env, depth, true, steps, snap.next, jumps, snap.st, kv, ran).st.log)
    requires Booked(ctx, snap.st) && Recoverable(env, ctx, snap.st)
    requires !RunFrom(env, depth, true, steps, snap.next, jumps, snap.st, kv, ran).end.TooManyJumps?
    ensures ResumesAs(env, depth, steps, ctx, snap, RunFrom(env, depth, true, steps, snap.next, jumps, snap.st, kv, ran))
  {
    RestoreExact(env, ctx, snap.st, snap.next, []);
    var entered := Enter(true, true, State([], ctx, false, []), Stored(env, Some(snap))).1;
    RunAlike(env, depth, true, steps, snap.next, jumps, 0, kv, Stored(env, Some(snap)), ran, 0, snap.st.log, [], snap.st, entered);
  }

  lemma StripLast(d: OD.Dict<StepResult>, e: OD.Dict<StepResult>)
    ensures Strip(d) == Strip(e) ==> FlowOutput(d) == FlowOutput(e)
  {
    if Strip(d) == Strip(e) && d != [] {
      assert Strip(d)[|d| - 1] == Strip(e)[|e| - 1];
    }
  }

  /** Crash/resume equivalence. The calls of the uninterrupted run are deterministic, nobody calls `stop()`, and
      that run stays within the jump limit. Then, whatever the steps and wherever the process dies, resuming from the
      checkpoint found in the store gives the uninterrupted run's result, provided the state in which that
      checkpoint was saved is recoverable. */
  lemma ResumeEquivalence(env: Env, depth: nat, steps: seq<Step>, ctx: Ctx, k: nat)
    requires NeverStops(env) && Repeatable(env, Execute(env, depth, true, steps, false, State([], ctx, false, []), None).st.log)
    requires !Execute(env, depth, true, steps, false, State([], ctx, false, []), None).end.TooManyJumps?
    ensures var start := State([], ctx, false, []);
      var full := Execute(env, depth, true, steps, false, start, None);
      var snap := SavedAfter(env, depth, steps, 0, 0, start, None, k);
      snap.Some? && Recoverable(env, ctx, snap.value.st) ==>
        var resumed := Execute(env, depth, true, steps, true, start, Stored(env, snap));
        && ResumesAs(env, depth, steps, ctx, snap.value, full)
        && ResultOf(resumed).(results := []) == ResultOf(full).(results := [])
        && Strip(ResultOf(resumed).results) == Strip(ResultOf(full).results)
  {
    var start := State([], ctx, false, []);
    OverlayEmpty(ctx.results);
    ResumeInvariant(env, depth, steps, ctx, 0, 0, start, None, 0, None, None, k, Execute(env, depth, true, steps, false, start, None));
    var snap := SavedAfter(env, depth, steps, 0, 0, start, None, k);
    StripLast(Execute(env, depth, true, steps, false, start, None).st.results,
              Execute(env, depth, true, steps, true, start, Stored(env, snap)).st.results);
  }

  /** Without any assumption on the actions: a process that dies between a save and the next step, and is
      resumed in the world that it left, does exactly what it would have done. The new process starts with the
      history of the old one, which actions may depend on in any way. */
  lemma ResumeInSameWorld(env: Env, depth: nat, steps: seq<Step>, ctx: Ctx, k: nat)
    requires NeverStops(env) && !Execute(env, depth, true, steps, false, State([], ctx, false, []), None).end.TooManyJumps?
    ensures var full := Execute(env, depth, true, steps, false, State([], ctx, false, []), None);
      var snap := SavedAfter(env, depth, steps, 0, 0, State([], ctx, false, []), None, k);
      snap.Some? && Recoverable(env, ctx, snap.value.st) ==>
        SameRun(Execute(env, depth, true, steps, true, State([], ctx, false, snap.value.st.log), Stored(env, snap)), full)
  {
    var start := State([], ctx, false, []);
    var full, snap := Execute(env, depth, true, steps, false, start, None), SavedAfter(env, depth, steps, 0, 0, start, None, k);
    OverlayEmpty(ctx.results);
    var jumps, kv, ran := SavedOnTheWay(env, depth, steps, ctx, Snapshot(0, start), 0, None, 0, None, k, full);
    if snap.Some? && Recoverable(env, ctx, snap.value.st) {
      FromSameWorld(env, depth, steps, ctx, snap.value, jumps, kv, ran, full);
    }
  }

  /** Same result, context and history. */
  ghost predicate SameRun(run: FlowRun, full: FlowRun) {
    run.end == full.end && Strip(run.st.results) == Strip(full.st.results) && run.st.ctx == full.st.ctx && run.st.log == full.st.log
  }

  lemma FromSameWorld(env: Env, depth: nat, steps: seq<Step>, ctx: Ctx, snap: Snapshot, jumps: nat, kv: Option<Checkpoint>, ran: nat, full: FlowRun)
    requires NeverStops(env) && !full.end.TooManyJumps? && OnTheWay(env, depth, steps, ctx, snap, jumps, kv, ran, full)
    requires Recoverable(env, ctx, snap.st)
    ensures SameRun(Execute(env, depth, true, steps, true, State([], ctx, false, snap.st.log), Stored(env, Some(snap))), full)
  {
    RestoreExact(env, ctx, snap.st, snap.next, snap.st.log);
    var entered := Enter(true, true, State([], ctx, false, snap.st.log), Stored(env, Some(snap))).1;
    assert entered.log == snap.st.log + entered.log[|snap.st.log|..];
    assert Alike([], [], snap.st, entered);
    RunAlike(env, depth, true, steps, snap.next, jumps, 0, kv, Stored(env, Some(snap)), ran, 0, [], [], snap.st, entered);
  }

  /** In a flow without loops and pipes only the results matter: each checkpoint is saved in the scope of the start. */
  lemma {:induction false} ScopedRecoverable(env: Env, depth: nat, steps: seq<Step>, ctx: Ctx, i: nat, jumps: nat, st: State,
                                             snap: Option<Snapshot>, k: nat)
    requires ScopedMacros(env) && Each(Scoped, steps) && Null !in ctx.variables.Values
    requires jumps <= MAX_GOTO_JUMPS && SameScope(ctx, st) && (snap.Some? ==> SameScope(ctx, snap.value.st))
    ensures var saved := SavedAfter(env, depth, steps, i, jumps, st, snap, k);
      saved.Some? ==> SameScope(ctx, saved.value.st) && (Recoverable(env, ctx, saved.value.st) <==> Restorable(env, saved.value.st.results))
    decreases k
  {
    if k > 0 && i < |steps| && !st.stopped {
      EachAt(Scoped, steps, i);
      FrameTheorem(env, depth, [], steps[i], st);
      var (o, st') := ExecStep(env, depth, [], steps[i], st);
      match o
      case Done(_) => ScopedRecoverable(env, depth, steps, ctx, i + 1, jumps, st', Some(Snapshot(i + 1, st')), k - 1);
      case Raised(Jumps(target)) =>
        var at := StepIndex(steps, target);
        if jumps + 1 <= MAX_GOTO_JUMPS && at.Some? {
          ScopedRecoverable(env, depth, steps, ctx, at.value, jumps + 1, st', snap, k - 1);
        }
      case _ =>
    }
  }

  // ---- Any number of crashes ----

  /** What the store holds after a series of processes, each started with `resume` and each dying while
      executing the top-level step after its first `ks[j]`. */
  ghost function StoreAfter(env: Env, depth: nat, steps: seq<Step>, ctx: Ctx, ks: seq<nat>): Option<Snapshot>
    decreases |ks|
  {
    if ks == [] then None
    else
      var prev := StoreAfter(env, depth, steps, ctx, ks[..|ks| - 1]);
      var (i, st) := Enter(true, true, State([], ctx, false, []), Stored(env, prev));
      SavedAfter(env, depth, steps, i, 0, st, prev, ks[|ks| - 1])
  }

  ghost predicate GoodStore(env: Env, ctx: Ctx, snap: Option<Snapshot>) {
    snap.Some? ==> Recoverable(env, ctx, snap.value.st)
  }

  /** Same result and same context; the events of `run` are the last events of `full`. */
  ghost predicate SameOutcome(run: FlowRun, full: FlowRun) {
    && run.end == full.end
    && Strip(run.st.results) == Strip(full.st.results)
    && run.st.ctx == full.st.ctx
    && |run.st.log| <= |full.st.log| && full.st.log[|full.st.log| - |run.st.log|..] == run.st.log
  }

  /** However many processes have died, the one that gets through ends as the uninterrupted run does. */
  lemma {:induction false} ResumeAfterCrashes(env: Env, depth: nat, steps: seq<Step>, ctx: Ctx, ks: seq<nat>)
    requires NeverStops(env) && Repeatable(env, Execute(env, depth, true, steps, false, State([], ctx, false, []), None).st.log)
    requires !Execute(env, depth, true, steps, false, State([], ctx, false, []), None).end.TooManyJumps?
    requires forall j | 0 <= j <= |ks| :: GoodStore(env, ctx, StoreAfter(env, depth, steps, ctx, ks[..j]))
    ensures var start, snap := State([], ctx, false, []), StoreAfter(env, depth, steps, ctx, ks);
      && SameOutcome(Execute(env, depth, true, steps, true, start, Stored(env, snap)), Execute(env, depth, true, steps, false, start, None))
      && (snap.Some? ==> Booked(ctx, snap.value.st))
    decreases |ks|
  {
    if ks != [] {
      var start, init, k := State([], ctx, false, []), ks[..|ks| - 1], ks[|ks| - 1];
      forall j | 0 <= j <= |init| ensures GoodStore(env, ctx, StoreAfter(env, depth, steps, ctx, init[..j])) {
        assert init[..j] == ks[..j];
      }
      ResumeAfterCrashes(env, depth, steps, ctx, init);
      assert init[..|init|] == init && ks[..|ks|] == ks;
      var full := Execute(env, depth, true, steps, false, start, None);
      var prev, snap := StoreAfter(env, depth, steps, ctx, init), StoreAfter(env, depth, steps, ctx, ks);
      var run := Execute(env, depth, true, steps, true, start, Stored(env, prev));
      RepeatableEnd(env, run.st.log, full.st.log);
      NextCrash(env, depth, steps, ctx, prev, k, snap, run);
      NextProcess(env, ctx, prev, snap, run, Execute(env, depth, true, steps, true, start, Stored(env, snap)), full);
    }
  }

  /** What a process that is started from `prev` and dies leaves behind: nothing, `prev`, or a checkpoint of its own. */
  lemma NextCrash(env: Env, depth: nat, steps: seq<Step>, ctx: Ctx, prev: Option<Snapshot>, k: nat, snap: Option<Snapshot>, run: FlowRun)
    requires NeverStops(env) && GoodStore(env, ctx, prev) && (prev.Some? ==> Booked(ctx, prev.value.st))
    requires run == Execute(env, depth, true, steps, true, State([], ctx, false, []), Stored(env, prev))
    requires Repeatable(env, run.st.log) && !run.end.TooManyJumps?
    requires var (i, st) := Enter(true, true, State([], ctx, false, []), Stored(env, prev));
      snap == SavedAfter(env, depth, steps, i, 0, st, prev, k)
    ensures snap.Some? && snap != prev ==>
      Booked(ctx, snap.value.st) && (Recoverable(env, ctx, snap.value.st) ==> ResumesAs(env, depth, steps, ctx, snap.value, run))
  {
    var (i, st) := Enter(true, true, State([], ctx, false, []), Stored(env, prev));
    EnteredBooked(env, ctx, prev);
    ResumeInvariant(env, depth, steps, ctx, i, 0, st, Stored(env, prev), 0, prev, prev, k, run);
  }

  /** One more crash: after a process `run` that was started from `prev` and left `snap` behind, the store is
      as good for the process `next`. */
  lemma NextProcess(env: Env, ctx: Ctx, prev: Option<Snapshot>, snap: Option<Snapshot>, run: FlowRun, next: FlowRun, full: FlowRun)
    requires SameOutcome(run, full) && (prev.Some? ==> Booked(ctx, prev.value.st))
    requires snap.None? ==> next == full
    requires snap == prev ==> next == run
    requires snap.Some? && snap != prev ==>
      Booked(ctx, snap.value.st) && (Recoverable(env, ctx, snap.value.st) ==> Continues(snap.value, next, run))
    ensures snap.Some? ==> Booked(ctx, snap.value.st)
    ensures GoodStore(env, ctx, snap) ==> SameOutcome(next, full)
  {
    if snap.Some? && snap != prev && GoodStore(env, ctx, snap) {
      Chain(snap.value.st.log, next, run, full);
    }
  }

  lemma EnteredBooked(env: Env, ctx: Ctx, prev: Option<Snapshot>)
    requires GoodStore(env, ctx, prev) && (prev.Some? ==> Booked(ctx, prev.value.st))
    ensures Booked(ctx, Enter(true, true, State([], ctx, false, []), Stored(env, prev)).1)
  {
    OverlayEmpty(ctx.results);
    if prev.Some? {
      RestoreExact(env, ctx, prev.value.st, prev.value.next, []);
    }
  }

  lemma Chain(before: seq<Event>, next: FlowRun, run: FlowRun, full: FlowRun)
    requires SameOutcome(run, full)
    requires next.end == run.end && Strip(next.st.results) == Strip(run.st.results) && next.st.ctx == run.st.ctx
    requires run.st.log == before + next.st.log
    ensures SameOutcome(next, full)
  {
    SuffixTrans(next.st.log, run.st.log, full.st.log);
  }

  lemma SuffixTrans(a: seq<Event>, b: seq<Event>, c: seq<Event>)
    requires |a| <= |b| <= |c| && b[|b| - |a|..] == a && c[|c| - |b|..] == b
    ensures c[|c| - |a|..] == a
  {
  }

  // ---- What a checkpoint loses ----

  /** Every action answers with an error dict. */
  ghost function FailingEnv(): Env {
    EchoEnv(map[]).(act := (_, _) => Returned(Dict(map["error" := Str("x")])))
  }

  ghost function TwoActions(): seq<Step> {
    [ActionStep("a", map[]), ActionStep("b", map[])]
  }

  /** The second of two steps, run from either side of a crash. */
  lemma RunLast(env: Env, steps: seq<Step>, st: State, kv: Option<Checkpoint>, ran: nat)
    requires |steps| == 2 && !st.stopped && ExecStep(env, 0, [], steps[1], st).0.Done?
    ensures var run := RunFrom(env, 0, true, steps, 1, 0, st, kv, ran);
      run.end.Finished? && run.st == ExecStep(env, 0, [], steps[1], st).1
  {
  }

  /** The first of two steps: what comes after it, and what is saved if the process dies in the second. */
  lemma RunFirst(env: Env, steps: seq<Step>)
    requires |steps| == 2 && ExecStep(env, 0, [], steps[0], START).0.Done?
    ensures var st := ExecStep(env, 0, [], steps[0], START).1;
      && SavedAfter(env, 0, steps, 0, 0, START, None, 1) == Some(Snapshot(1, st))
      && Execute(env, 0, true, steps, false, START, None) == RunFrom(env, 0, true, steps, 1, 0, st, Some(MakeCheckpoint(env, st, 1)), 1)
  {
    var st := ExecStep(env, 0, [], steps[0], START).1;
    assert START.(stopped := false, results := []) == START;
    assert SavedAfter(env, 0, steps, 1, 0, st, Some(Snapshot(1, st)), 0) == Some(Snapshot(1, st));
  }

  /** A failed result is not in the checkpoint: resuming after step "a" reports "b" alone. */
  lemma FailedResultIsLost()
    ensures var full := Execute(FailingEnv(), 0, true, TwoActions(), false, START, None);
      var snap := SavedAfter(FailingEnv(), 0, TwoActions(), 0, 0, START, None, 1);
      var resumed := Execute(FailingEnv(), 0, true, TwoActions(), true, START, Stored(FailingEnv(), snap));
      snap.Some? && |full.st.results| == 2 && |resumed.st.results| == 1
  {
    var env, steps := FailingEnv(), TwoActions();
    var st1 := ExecStep(env, 0, [], steps[0], START).1;
    FailingStep("a", START);
    FailingStep("b", st1);
    FailingStep("b", START);
    RunFirst(env, steps);
    RunLast(env, steps, st1, Some(MakeCheckpoint(env, st1, 1)), 1);
    OneFailure(env, st1.results);
    assert START.(stopped := false, results := []) == START;
    RunLast(env, steps, START, Some(Checkpoint([], 1)), 0);
  }

  lemma OneFailure(env: Env, results: OD.Dict<StepResult>)
    requires |results| == 1 && !results[0].1.success
    ensures Completed(env, results) == []
  {
    assert results[1..] == [];
  }

  lemma FailingStep(id: string, st: State)
    requires id != "" && !st.stopped
    ensures var (o, st') := ExecStep(FailingEnv(), 0, [], ActionStep(id, map[]), st);
      && o == Done(StepResult(false, Dict(map["error" := Str("x")]), None, []))
      && st'.results == OD.Put(st.results, id, o.r) && !st'.stopped
  {
    SplitName();
  }

  const LOOP_PARAM: map<string, Value> := map["x" := Str("{{loop}}")]

  ghost function LoopThenRead(): seq<Step> {
    [Step("a", "", Loop(Fixed(1), "", []), "", [], ""), ActionStep("b", LOOP_PARAM)]
  }

  lemma LoopStep()
    ensures ExecStep(EchoEnv(map[]), 0, [], LoopThenRead()[0], START)
         == (Done(Succeeded(List([]))), Record(SetLoop(START, LoopFrame(0)), "a", Succeeded(List([]))))
  {
    var env, entered := EchoEnv(map[]), SetLoop(START, LoopFrame(0));
    assert RunLoop(env, 0, [""] + [], [], "", 1, 1, [], [], entered) == (Aggregate([], List([])), entered);
    assert Dispatch(env, 0, [""] + [], LoopThenRead()[0], START) == (Aggregate([], List([])), entered);
  }

  lemma OneSuccess(env: Env, id: string, v: Value, st: State)
    requires env.json(v) == v
    ensures Completed(env, [(id, Succeeded(v))]) == [(id, v)] && Restore([(id, v)], st) == Record(st, id, Succeeded(v))
  {
    assert [(id, Succeeded(v))][1..] == [] && [(id, v)][1..] == [];
  }

  /** The state after the loop, and the one that its checkpoint brings back. */
  ghost function AfterLoop(): State { Record(SetLoop(START, LoopFrame(0)), "a", Succeeded(List([]))) }
  ghost function BroughtBack(): State { Record(START, "a", Succeeded(List([]))) }

  lemma LoopRuns()
    ensures var env := EchoEnv(map[]);
      && SavedAfter(env, 0, LoopThenRead(), 0, 0, START, None, 1) == Some(Snapshot(1, AfterLoop()))
      && ResultOf(Execute(env, 0, true, LoopThenRead(), false, START, None)).output == Dict(map["x" := LoopFrame(0)])
  {
    var env, st := EchoEnv(map[]), AfterLoop();
    LoopStep();
    RunFirst(env, LoopThenRead());
    EchoStep(map[], "b", LOOP_PARAM, st);
    RunLast(env, LoopThenRead(), st, Some(MakeCheckpoint(env, st, 1)), 1);
    ReadLoop(st.ctx);
  }

  lemma LoopRestored()
    ensures var env := EchoEnv(map[]);
      Enter(true, true, START, Some(MakeCheckpoint(env, AfterLoop(), 1))) == (1, BroughtBack())
  {
    assert AfterLoop().results == [("a", Succeeded(List([])))];
    OneSuccess(EchoEnv(map[]), "a", List([]), START);
    assert START.(stopped := false, results := []) == START;
  }

  lemma LoopResumes()
    ensures var env := EchoEnv(map[]);
      ResultOf(Execute(env, 0, true, LoopThenRead(), true, START, Stored(env, Some(Snapshot(1, AfterLoop()))))).output == Dict(map["x" := Null])
  {
    var env, back := EchoEnv(map[]), BroughtBack();
    LoopRestored();
    EchoStep(map[], "b", LOOP_PARAM, back);
    RunLast(env, LoopThenRead(), back, Some(MakeCheckpoint(env, AfterLoop(), 1)), 0);
    ReadLoop(back.ctx);
  }

  lemma OnlyScopeDiffers()
    ensures Restorable(EchoEnv(map[]), AfterLoop().results) && !SameScope(EMPTY, AfterLoop())
  {
    assert AfterLoop().results == [("a", Succeeded(List([])))];
  }

  /** Why the scope matters: a step after a loop reads the loop's last context, and a resumed run has none. */
  lemma LoopContextIsLost()
    ensures SavedAfter(EchoEnv(map[]), 0, LoopThenRead(), 0, 0, START, None, 1) == Some(Snapshot(1, AfterLoop()))
    ensures Restorable(EchoEnv(map[]), AfterLoop().results) && !SameScope(EMPTY, AfterLoop())
    ensures ResultOf(Execute(EchoEnv(map[]), 0, true, LoopThenRead(), false, START, None)).output == Dict(map["x" := LoopFrame(0)])
    ensures ResultOf(Execute(EchoEnv(map[]), 0, true, LoopThenRead(), true, START, Stored(EchoEnv(map[]), Some(Snapshot(1, AfterLoop()))))).output
         == Dict(map["x" := Null])
  {
    LoopRuns();
    LoopResumes();
    OnlyScopeDiffers();
  }

  lemma ReadLoop(ctx: Ctx)
    ensures Filled(Dict(LOOP_PARAM), ctx) == Dict(map["x" := ctx.loop])
  {
    assert Filled(Dict(LOOP_PARAM), ctx).entries == map["x" := ctx.loop];
  }
}
