/** Where exceptions and end signals go: what a run logs decides how it stops. */
module FlowContainment {
  import opened Values
  import opened FlowModel
  import opened FlowShapes
  import opened FlowSemantics
  import FlowLaws

  /** A `try` catches every signal, so it is set apart here. */
  ghost const NoTry: Step -> bool := (s: Step) => !s.kind.Try?

  ghost predicate NoTryMacros(env: Env) {
    forall m | m in env.macros :: Each(NoTry, env.macros[m].body)
  }

  /** Does every step from the raising one up to, not including, the ancestors `outer` let the exception through? */
  ghost predicate Escapes(policies: seq<string>, outer: seq<string>) {
    |outer| <= |policies| && forall k | 0 <= k < |policies| - |outer| :: !Absorbs(policies[k])
  }

  /** A fault logged below the ancestors `outer` carries their policies last. */
  ghost predicate Below(e: Event, outer: seq<string>) {
    e.Faulted? ==> |outer| <= |e.policies| && e.policies[|e.policies| - |outer|..] == outer
  }

  /** An event that makes the step under `outer` stop with an exception. */
  ghost predicate Terminal(e: Event, outer: seq<string>) {
    match e
    case Ended(_) => true
    case Jumped(_) => true
    case Faulted(policies) => Escapes(policies, outer)
    case _ => false
  }

  /** The signal that a terminal event stands for. */
  ghost predicate Announces(e: Event, s: Signal) {
    match s
    case Ends(status, _) => e == Ended(status)
    case Jumps(target) => e == Jumped(target)
    case Fails(_) => e.Faulted?
  }

  /** From position `from` on, the log holds events below `outer`, none of them terminal. */
  ghost predicate Quiet(log: seq<Event>, from: nat, outer: seq<string>) {
    from <= |log| && forall k | from <= k < |log| :: Below(log[k], outer) && !Terminal(log[k], outer)
  }

  /** Without a signal nothing terminal was logged; with one, the last event alone is terminal and announces it. */
  ghost predicate Explains(log: seq<Event>, from: nat, outer: seq<string>, signal: Option<Signal>) {
    match signal
    case None => Quiet(log, from, outer)
    case Some(s) =>
      && |log| > from && Quiet(log[..|log| - 1], from, outer)
      && Below(log[|log| - 1], outer) && Terminal(log[|log| - 1], outer) && Announces(log[|log| - 1], s)
  }

  lemma QuietAppend(log: seq<Event>, from: nat, outer: seq<string>, e: Event)
    requires Quiet(log, from, outer)
    ensures Below(e, outer) && !Terminal(e, outer) ==> Quiet(log + [e], from, outer)
    ensures forall s :: Below(e, outer) && Terminal(e, outer) && Announces(e, s) ==> Explains(log + [e], from, outer, Some(s))
  {
    assert (log + [e])[..|log + [e]| - 1] == log;
  }

  lemma ThrowExplains(policies: seq<string>, error: string, st: State, from: nat)
    requires Quiet(st.log, from, policies)
    ensures var (o, st') := Throw(policies, error, st); Explains(st'.log, from, policies, SignalOf(o))
  {
    QuietAppend(st.log, from, policies, Faulted(policies));
  }

  lemma {:induction false} AttemptsExplain(env: Env, policies: seq<string>, call: Call, attempt: nat, max: nat, lastError: string, st: State, from: nat)
    requires Quiet(st.log, from, policies)
    ensures var (o, st') := Attempts(env, policies, call, attempt, max, lastError, st); Explains(st'.log, from, policies, SignalOf(o))
    decreases max - attempt
  {
    if attempt < max {
      QuietAppend(st.log, from, policies, Called(call));
      var st' := Log(st, Called(call)).(stopped := st.stopped || env.stops(st.log + [Called(call)]));
      match env.act(st.log, call)
      case Returned(v) =>
        if IsErrorReply(v) && attempt < max - 1 {
          AttemptsExplain(env, policies, call, attempt + 1, max, env.str(Lookup(v.entries, "error")), st', from);
        }
      case TimedOut =>
        if attempt < max - 1 {
          AttemptsExplain(env, policies, call, attempt + 1, max, "Action timed out", st', from);
        }
      case Raises(e) =>
        if attempt < max - 1 {
          AttemptsExplain(env, policies, call, attempt + 1, max, e, st', from);
        } else {
          ThrowExplains(policies, e, st', from);
        }
    }
  }

  lemma ActionExplains(env: Env, policies: seq<string>, action: string, params: Value, max: nat, st: State, from: nat)
    requires Quiet(st.log, from, policies)
    ensures var (o, st') := ExecAction(env, policies, action, params, max, st); Explains(st'.log, from, policies, SignalOf(o)) && st.log <= st'.log
  {
    var name, args := env.resolve(Str(action), st.ctx), env.resolve(params, st.ctx);
    if name.Err? {
      ThrowExplains(policies, name.error, st, from);
    } else {
      var parts := SplitAction(env.str(name.value));
      if parts.Some? {
        if args.Err? {
          ThrowExplains(policies, args.error, st, from);
        } else {
          AttemptsExplain(env, policies, Call(parts.value.0, parts.value.1, args.value), 0, max, "", st, from);
          AttemptsGrow(env, policies, Call(parts.value.0, parts.value.1, args.value), 0, max, "", st);
        }
      }
    }
  }

  lemma EndExplains(env: Env, policies: seq<string>, status: Status, output: Value, st: State, from: nat)
    requires Quiet(st.log, from, policies)
    ensures var (o, st') := ExecEnd(env, policies, status, output, st); Explains(st'.log, from, policies, SignalOf(o)) && st.log <= st'.log
  {
    QuietAppend(st.log, from, policies, Ended(status));
    QuietAppend(st.log, from, policies, Faulted(policies));
  }

  lemma GotoExplains(env: Env, policies: seq<string>, target: string, st: State, from: nat)
    requires Quiet(st.log, from, policies)
    ensures var (o, st') := ExecGoto(env, policies, target, st); Explains(st'.log, from, policies, SignalOf(o)) && st.log <= st'.log
  {
    var v := env.resolve(Str(target), st.ctx);
    QuietAppend(st.log, from, policies, if v.Ok? then Jumped(env.str(v.value)) else Faulted(policies));
  }

  /** How an event below a step looks from the step's parent: the step's own policy decides about faults. */
  lemma LiftEvent(e: Event, onError: string, outer: seq<string>)
    requires Below(e, [onError] + outer)
    ensures Below(e, outer)
    ensures !Terminal(e, [onError] + outer) ==> !Terminal(e, outer)
    ensures Terminal(e, [onError] + outer) ==> (Terminal(e, outer) <==> !(e.Faulted? && Absorbs(onError)))
  {
    if e.Faulted? {
      var p, n := e.policies, |e.policies| - |outer| - 1;
      assert p[n..][0] == onError && p[n..][1..] == outer;
      assert p[n] == p[n..][0] && p[n + 1..] == p[n..][1..];
    }
  }

  lemma LiftQuiet(log: seq<Event>, start: nat, from: nat, onError: string, outer: seq<string>)
    requires from <= start <= |log| && Quiet(log[..start], from, outer) && Quiet(log, start, [onError] + outer)
    ensures Quiet(log, from, outer)
  {
    forall k | from <= k < |log| ensures Below(log[k], outer) && !Terminal(log[k], outer) {
      if k < start {
        assert log[..start][k] == log[k];
      } else {
        LiftEvent(log[k], onError, outer);
      }
    }
  }

  lemma Lift(log: seq<Event>, start: nat, from: nat, onError: string, outer: seq<string>, signal: Option<Signal>)
    requires from <= start <= |log| && Quiet(log[..start], from, outer)
    requires Explains(log, start, [onError] + outer, signal)
    ensures var absorbed := signal.Some? && signal.value.Fails? && Absorbs(onError);
      Explains(log, from, outer, if absorbed then None else signal)
  {
    if signal.None? {
      LiftQuiet(log, start, from, onError, outer);
    } else {
      var before, last := log[..|log| - 1], log[|log| - 1];
      assert before[..start] == log[..start];
      LiftQuiet(before, start, from, onError, outer);
      LiftEvent(last, onError, outer);
      QuietAppend(before, from, outer, last);
      assert before + [last] == log;
    }
  }

  lemma {:induction false} StepExplains(env: Env, depth: nat, outer: seq<string>, step: Step, st: State, from: nat)
    requires NoTryMacros(env) && Everywhere(NoTry, step) && Quiet(st.log, from, outer)
    ensures var (o, st') := ExecStep(env, depth, outer, step, st); Explains(st'.log, from, outer, SignalOf(o)) && st.log <= st'.log
    decreases depth, step, 2
  {
    DispatchExplains(env, depth, [step.onError] + outer, step, st);
    var (o, st') := Dispatch(env, depth, [step.onError] + outer, step, st);
    assert st'.log[..|st.log|] == st.log;
    Lift(st'.log, |st.log|, from, step.onError, outer, SignalOf(o));
  }

  lemma {:induction false} DispatchExplains(env: Env, depth: nat, policies: seq<string>, step: Step, st: State)
    requires NoTryMacros(env) && Everywhere(NoTry, step)
    ensures var (o, st') := Dispatch(env, depth, policies, step, st); Explains(st'.log, |st.log|, policies, SignalOf(o)) && st.log <= st'.log
    decreases depth, step, 1
  {
    var from := |st.log|;
    match InferType(step)
    case ByFallback =>
      if step.kind.Action? {
        ActionExplains(env, policies, "", step.kind.params, step.kind.maxAttempts, st, from);
      } else {
        ActionExplains(env, policies, "", Dict(map[]), 1, st, from);
      }
    case ByGoto => GotoExplains(env, policies, step.goto, st, from);
    case ByMacro => MacroExplains(env, depth, policies, step, st, from);
    case ByKind =>
      match step.kind
      case Action(action, params, max) => ActionExplains(env, policies, action, params, max, st, from);
      case End(status, output) => EndExplains(env, policies, status, output, st, from);
      case Sequence(steps) => ListExplains(env, depth, policies, CheckStop, steps, [], st, from);
      case Branch(_, _, _) => BranchExplains(env, depth, policies, step, st, from);
      case Pipe(stages) => ListExplains(env, depth, policies, Piped, stages, [], st, from);
      case Loop(max, until, body) =>
        var n := LoopBound(env, max, st.ctx);
        if n.Err? {
          ThrowExplains(policies, n.error, st, from);
        } else {
          LoopExplains(env, depth, policies, body, until, n.value, 0, [], [], st, from);
        }
      case Map(over, asVar, body) =>
        var v := env.resolve(over, st.ctx);
        if v.Err? {
          ThrowExplains(policies, v.error, st, from);
        } else if v.value.List? {
          MapExplains(env, depth, policies, body, asVar, v.value.items, 0, [], st, from);
        }
  }

  lemma {:induction false} BranchExplains(env: Env, depth: nat, policies: seq<string>, step: Step, st: State, from: nat)
    requires step.kind.Branch? && NoTryMacros(env) && Everywhere(NoTry, step) && Quiet(st.log, from, policies)
    ensures var (o, st') := ExecBranch(env, depth, policies, step, st); Explains(st'.log, from, policies, SignalOf(o)) && st.log <= st'.log
    decreases depth, step, 0
  {
    var v := env.resolve(step.kind.on, st.ctx);
    if v.Err? {
      ThrowExplains(policies, v.error, st, from);
    } else {
      var hit := MatchCase(env, step.kind.cases, v.value);
      var steps := if hit.Some? then step.kind.cases[hit.value].steps else step.kind.default;
      ListExplains(env, depth, policies, Plain, steps, [], st, from);
    }
  }

  lemma AttemptsGrow(env: Env, policies: seq<string>, call: Call, attempt: nat, max: nat, lastError: string, st: State)
    ensures st.log <= Attempts(env, policies, call, attempt, max, lastError, st).1.log
    decreases max - attempt
  {
  }

  lemma {:induction false} MacroExplains(env: Env, depth: nat, policies: seq<string>, step: Step, st: State, from: nat)
    requires NoTryMacros(env) && Quiet(st.log, from, policies)
    ensures var (o, st') := ExecMacro(env, depth, policies, step, st); Explains(st'.log, from, policies, SignalOf(o)) && st.log <= st'.log
    decreases depth, step, 0
  {
    QuietAppend(st.log, from, policies, UnknownMacro(step.use));
    QuietAppend(st.log, from, policies, Faulted(policies));
    if step.use in env.macros {
      var given := ResolveParams(env, step.withParams, st.ctx, map[]);
      if given.Ok? {
        match AddDefaults(env.macros[step.use].params, given.value)
        case Err(name) => QuietAppend(st.log, from, policies, MissingParam(step.use, name));
        case Ok(args) =>
          if depth > 0 {
            BodyExplains(env, depth, policies, env.macros[step.use].body, Dict(args), st, from);
          }
      }
    }
  }

  lemma {:induction false} BodyExplains(env: Env, depth: nat, policies: seq<string>, body: seq<Step>, args: Value, st: State, from: nat)
    requires NoTryMacros(env) && Each(NoTry, body) && depth > 0 && Quiet(st.log, from, policies)
    ensures var (l, st') := RunList(env, depth - 1, policies, UntilFailure, body, [], SetVar(st, "macro", args));
      Explains(st'.log, from, policies, l.signal) && st.log <= st'.log
    decreases depth - 1, body, 1
  {
    ListExplains(env, depth - 1, policies, UntilFailure, body, [], SetVar(st, "macro", args), from);
  }

  lemma {:induction false} ListExplains(env: Env, depth: nat, policies: seq<string>, mode: Mode, steps: seq<Step>, done: seq<StepResult>, st: State, from: nat)
    requires NoTryMacros(env) && Each(NoTry, steps) && Quiet(st.log, from, policies)
    ensures var (l, st') := RunList(env, depth, policies, mode, steps, done, st); Explains(st'.log, from, policies, l.signal) && st.log <= st'.log
    decreases depth, steps, 0
  {
    if steps != [] && !(mode == CheckStop && st.stopped) {
      StepExplains(env, depth, policies, steps[0], BeforeChild(mode, done, st), from);
      match ExecStep(env, depth, policies, steps[0], BeforeChild(mode, done, st))
      case (Raised(_), _) =>
      case (Done(r), st') =>
        if !StopsAfter(mode, r) {
          ListExplains(env, depth, policies, mode, steps[1..], done + [r], st', from);
        }
    }
  }

  lemma {:induction false} LoopExplains(env: Env, depth: nat, policies: seq<string>, body: seq<Step>, until: string, n: int, i: nat,
                                        done: seq<StepResult>, outs: seq<Value>, st: State, from: nat)
    requires NoTryMacros(env) && Each(NoTry, body) && Quiet(st.log, from, policies)
    ensures var (o, st') := RunLoop(env, depth, policies, body, until, n, i, done, outs, st); Explains(st'.log, from, policies, SignalOf(o)) && st.log <= st'.log
    decreases depth, body, 1, n - i
  {
    if i < n && !st.stopped {
      ListExplains(env, depth, policies, Plain, body, done, SetLoop(st, LoopFrame(i)), from);
      var (l, st') := RunList(env, depth, policies, Plain, body, done, SetLoop(st, LoopFrame(i)));
      if l.signal.None? {
        var outs' := if l.children == [] then outs else outs + [LastOutput(l.children)];
        match if until == "" then Ok(false) else env.condition(until, st'.ctx)
        case Err(e) => ThrowExplains(policies, e, st', from);
        case Ok(true) =>
        case Ok(false) => LoopExplains(env, depth, policies, body, until, n, i + 1, l.children, outs', st', from);
      }
    }
  }

  lemma {:induction false} MapExplains(env: Env, depth: nat, policies: seq<string>, body: seq<Step>, asVar: string, items: seq<Value>, i: nat,
                                       done: seq<StepResult>, st: State, from: nat)
    requires NoTryMacros(env) && Each(NoTry, body) && Quiet(st.log, from, policies)
    ensures var (o, st') := RunMap(env, depth, policies, body, asVar, items, i, done, st); Explains(st'.log, from, policies, SignalOf(o)) && st.log <= st'.log
    decreases depth, body, 2, |items| - i
  {
    if i < |items| {
      ListExplains(env, depth, policies, Plain, body, [], SetLoop(SetVar(st, asVar, items[i]), ItemFrame(i, items[i])), from);
      var (l, st1) := RunItem(env, depth, policies, body, asVar, items[i], i, st);
      if l.signal.None? {
        var r := Aggregate(l.children, LastOutput(l.children)).r;
        MapExplains(env, depth, policies, body, asVar, items, i + 1, done + [r], st1, from);
      }
    }
  }

  // ---- Whole flows ----

  /** Nothing so far has stopped the flow; gotos may have moved it. */
  ghost predicate QuietFlow(log: seq<Event>) {
    forall k | 0 <= k < |log| :: !log[k].Ended? && !(log[k].Faulted? && Escapes(log[k].policies, []))
  }

  /** The last event is the one that stopped the flow. */
  ghost predicate ExplainsEnd(run: FlowRun) {
    var log := run.st.log;
    if run.end.StepFailed? || run.end.EndedBy? then
      && |log| > 0 && QuietFlow(log[..|log| - 1])
      && (run.end.StepFailed? ==> log[|log| - 1].Faulted? && Escapes(log[|log| - 1].policies, []))
      && (run.end.EndedBy? ==> log[|log| - 1] == Ended(run.end.status))
    else QuietFlow(log)
  }

  /** One more top-level step. */
  lemma ExtendQuiet(before: seq<Event>, log: seq<Event>, signal: Option<Signal>)
    requires QuietFlow(before) && before <= log && Explains(log, |before|, [], signal)
    ensures signal.None? || signal.value.Jumps? ==> QuietFlow(log)
    ensures signal.Some? && !signal.value.Jumps? ==> QuietFlow(log[..|log| - 1])
  {
    forall k | 0 <= k < |log| && (signal.None? || k < |log| - 1)
      ensures !log[k].Ended? && !(log[k].Faulted? && Escapes(log[k].policies, []))
    {
      if k < |before| {
        assert log[k] == before[k];
      } else if signal.Some? {
        assert log[..|log| - 1][k] == log[k];
      }
    }
  }

  /** How a top-level step goes on, or ends the flow. */
  ghost predicate ExplainsStep(o: Outcome, log: seq<Event>) {
    match o
    case Done(_) => QuietFlow(log)
    case Raised(Jumps(_)) => QuietFlow(log)
    case Raised(Ends(status, _)) => log != [] && QuietFlow(log[..|log| - 1]) && log[|log| - 1] == Ended(status)
    case Raised(Fails(_)) =>
      log != [] && QuietFlow(log[..|log| - 1]) && log[|log| - 1].Faulted? && Escapes(log[|log| - 1].policies, [])
  }

  lemma TopStepQuiet(env: Env, depth: nat, steps: seq<Step>, i: nat, st: State)
    requires NoTryMacros(env) && Each(NoTry, steps) && i < |steps| && QuietFlow(st.log)
    ensures var (o, st') := ExecStep(env, depth, [], steps[i], st); ExplainsStep(o, st'.log)
  {
    EachAt(NoTry, steps, i);
    StepExplains(env, depth, [], steps[i], st, |st.log|);
    var (o, st') := ExecStep(env, depth, [], steps[i], st);
    ExtendQuiet(st.log, st'.log, SignalOf(o));
  }

  lemma {:induction false} RunExplains(env: Env, depth: nat, keep: bool, steps: seq<Step>, i: nat, jumps: nat, st: State, kv: Option<Checkpoint>, ran: nat)
    requires NoTryMacros(env) && Each(NoTry, steps) && jumps <= MAX_GOTO_JUMPS && QuietFlow(st.log)
    ensures ExplainsEnd(RunFrom(env, depth, keep, steps, i, jumps, st, kv, ran))
    decreases MAX_GOTO_JUMPS - jumps, |steps| - i
  {
    if i < |steps| && !st.stopped {
      TopStepQuiet(env, depth, steps, i, st);
      var (o, st') := ExecStep(env, depth, [], steps[i], st);
      match o
      case Done(_) =>
        RunExplains(env, depth, keep, steps, i + 1, jumps, st', if keep then Some(MakeCheckpoint(env, st', i + 1)) else kv, ran + 1);
      case Raised(Ends(_, _)) =>
      case Raised(Fails(_)) =>
      case Raised(Jumps(target)) =>
        var at := StepIndex(steps, target);
        if jumps + 1 <= MAX_GOTO_JUMPS && at.Some? {
          RunExplains(env, depth, keep, steps, at.value, jumps + 1, st', kv, ran + 1);
        }
    }
  }

  /** Error containment. In a run, resumed or not, of a flow without `try`, a raised exception fails the flow exactly when no step
      from the raising one up to the top level absorbs it, and an `end` step ends the flow. Either is the
      last thing that happens: no action runs after it. */
  lemma ErrorContainment(env: Env, depth: nat, keep: bool, steps: seq<Step>, resume: bool, st: State, kv: Option<Checkpoint>)
    requires NoTryMacros(env) && Each(NoTry, steps) && st.log == []
    ensures var run := Execute(env, depth, keep, steps, resume, st, kv);
      var log := run.st.log;
      && (run.end.StepFailed? <==> exists k :: 0 <= k < |log| && log[k].Faulted? && Escapes(log[k].policies, []))
      && (run.end.EndedBy? <==> exists k :: 0 <= k < |log| && log[k].Ended?)
      && (forall k | 0 <= k < |log| && (log[k].Ended? || (log[k].Faulted? && Escapes(log[k].policies, []))) :: k == |log| - 1)
      && (forall k | 0 <= k < |log| && log[k].Faulted? && Escapes(log[k].policies, []) ::
            !ResultOf(run).success && ResultOf(run).status == Failure && ResultOf(run).error.Some?)
      && (forall k | 0 <= k < |log| && log[k].Ended? ::
            ResultOf(run).status == log[k].status && (ResultOf(run).success <==> log[k].status == Success) && ResultOf(run).error.None?)
  {
    var (i, entered) := Enter(keep, resume, st, kv);
    if resume && keep && kv.Some? { RestoreKeepsLog(kv.value.completed, st.(stopped := false, results := [])); }
    RunExplains(env, depth, keep, steps, i, 0, entered, kv, 0);
    EndIsLast(Execute(env, depth, keep, steps, resume, st, kv));
  }

  lemma EndIsLast(run: FlowRun)
    requires ExplainsEnd(run)
    ensures var log := run.st.log;
      && (run.end.StepFailed? <==> exists k :: 0 <= k < |log| && log[k].Faulted? && Escapes(log[k].policies, []))
      && (run.end.EndedBy? <==> exists k :: 0 <= k < |log| && log[k].Ended?)
      && (forall k | 0 <= k < |log| && (log[k].Ended? || (log[k].Faulted? && Escapes(log[k].policies, []))) :: k == |log| - 1)
      && (forall k | 0 <= k < |log| && log[k].Faulted? && Escapes(log[k].policies, []) ::
            !ResultOf(run).success && ResultOf(run).status == Failure && ResultOf(run).error.Some?)
      && (forall k | 0 <= k < |log| && log[k].Ended? ::
            ResultOf(run).status == log[k].status && (ResultOf(run).success <==> log[k].status == Success) && ResultOf(run).error.None?)
  {
    var log := run.st.log;
    FlowLaws.FlowResultExact(run);
    if log != [] {
      forall k | 0 <= k < |log| - 1 ensures log[..|log| - 1][k] == log[k] {}
    }
  }

  /** The nearest absorbing step turns the exception into its own failed result. */
  lemma NearestAbsorbs(env: Env, depth: nat, outer: seq<string>, step: Step, st: State)
    requires NoTryMacros(env) && Everywhere(NoTry, step)
    ensures var inner := Dispatch(env, depth, [step.onError] + outer, step, st).1.log;
      var (o, st') := ExecStep(env, depth, outer, step, st);
      (Absorbs(step.onError) && |inner| > |st.log| && inner[|inner| - 1].Faulted? && Escapes(inner[|inner| - 1].policies, [step.onError] + outer))
      ==> o.Done? && !o.r.success && o.r.error.Some? && st'.log == inner
          && (step.id != "" ==> step.id in st'.ctx.results && st'.ctx.results[step.id] == Dict(map["_error" := Str(o.r.error.value)]))
  {
    DispatchExplains(env, depth, [step.onError] + outer, step, st);
  }
}
