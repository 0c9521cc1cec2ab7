/** The executor itself: its fields are updated in place, and every method is proved to compute what
    `FlowSemantics` specifies. */
module FlowExecution {
  import opened Values
  import opened FlowModel
  import opened FlowSemantics
  import OD = OrderedDicts

  class FlowExecutor {
    const env: Env
    const persistent: bool             // is there a key-value store?

    var results: OD.Dict<StepResult>
    var ctxResults: map<string, Value>
    var variables: map<string, Value>
    var loopCtx: Value
    var stopped: bool
    var log: seq<Event>
    var kv: Option<Checkpoint>         // the stored checkpoint

    constructor (env: Env, persistent: bool, ctx: Ctx, kv: Option<Checkpoint>)
      ensures this.env == env && this.persistent == persistent && this.kv == kv
      ensures St() == State([], ctx, false, [])
    {
      this.env, this.persistent, this.kv := env, persistent, kv;
      results, stopped, log := [], false, [];
      ctxResults, variables, loopCtx := ctx.results, ctx.variables, ctx.loop;
    }

    function Context(): Ctx
      reads this
    {
      Ctx(ctxResults, variables, loopCtx)
    }

    function St(): State
      reads this
    {
      State(results, Context(), stopped, log)
    }

    method RecordResult(id: string, r: StepResult)
      modifies `results, `ctxResults
      ensures St() == Record(old(St()), id, r)
    {
      if id != "" {
        results := OD.Put(results, id, r);
        ctxResults := ctxResults[id := Shown(r)];
      }
    }

    method RestoreVariable(name: string, prev: Value)
      modifies `variables
      ensures St() == RestoreVar(old(St()), name, prev)
    {
      if prev != Null {
        variables := variables[name := prev];
      } else {
        variables := variables - {name};
      }
    }

    method ExecuteStep(depth: nat, outer: seq<string>, step: Step) returns (o: Outcome)
      modifies this
      ensures (o, St()) == ExecStep(env, depth, outer, step, old(St()))
      ensures kv == old(kv)
      decreases depth, step, 2
    {
      o := DispatchStep(depth, [step.onError] + outer, step);
      match o {
        case Done(r) => RecordResult(step.id, r);
        case Raised(Fails(e)) =>
          if Absorbs(step.onError) {
            RecordResult(step.id, Failed(e));
            o := Done(Failed(e));
          } else {
            o := Raised(Fails("Step '" + step.id + "' failed: " + e));
          }
        case Raised(_) =>
      }
    }

    method DispatchStep(depth: nat, policies: seq<string>, step: Step) returns (o: Outcome)
      modifies this
      ensures (o, St()) == Dispatch(env, depth, policies, step, old(St()))
      ensures kv == old(kv)
      decreases depth, step, 1
    {
      match InferType(step) {
        case ByFallback =>
          if step.kind.Action? {
            o := ExecuteAction(policies, "", step.kind.params, step.kind.maxAttempts);
          } else {
            o := ExecuteAction(policies, "", Dict(map[]), 1);
          }
        case ByGoto => o := ExecuteGoto(policies, step.goto);
        case ByMacro => o := ExecuteMacro(depth, policies, step);
        case ByKind =>
          match step.kind {
            case Action(action, params, max) => o := ExecuteAction(policies, action, params, max);
            case End(status, output) => o := ExecuteEnd(policies, status, output);
            case Sequence(steps) =>
              var l := RunChildren(depth, policies, CheckStop, steps, []);
              o := Finish(l, LastOutput(l.children));
            case Branch(on, cases, default) => o := ExecuteBranch(depth, policies, step);
            case Pipe(stages) =>
              var l := RunChildren(depth, policies, Piped, stages, []);
              o := Finish(l, LastOutput(l.children));
            case Loop(max, until, body) => o := ExecuteLoop(depth, policies, step);
            case Map(over, asVar, body) => o := ExecuteMap(depth, policies, step);
            case Try(tries, catches, finals) => o := ExecuteTry(depth, policies, step);
          }
      }
    }

    method Throws(policies: seq<string>, error: string) returns (o: Outcome)
      modifies `log
      ensures (o, St()) == Throw(policies, error, old(St()))
    {
      log := log + [Faulted(policies)];
      o := Raised(Fails(error));
    }

    /** `_exec_action`, with its retry loop. */
    method ExecuteAction(policies: seq<string>, action: string, params: Value, max: nat) returns (o: Outcome)
      modifies this
      ensures (o, St()) == ExecAction(env, policies, action, params, max, old(St()))
      ensures kv == old(kv)
    {
      var name := env.resolve(Str(action), Context());
      if name.Err? { o := Throws(policies, name.error); return; }
      var parts := SplitAction(env.str(name.value));
      if parts.None? { o := Done(Failed("Invalid action: " + env.str(name.value))); return; }
      var args := env.resolve(params, Context());
      if args.Err? { o := Throws(policies, args.error); return; }
      var call := Call(parts.value.0, parts.value.1, args.value);
      var lastError := "";
      for attempt := 0 to max
        invariant kv == old(kv)
        invariant Attempts(env, policies, call, attempt, max, lastError, St())
               == Attempts(env, policies, call, 0, max, "", old(St()))
      {
        var reply := env.act(log, call);
        log := log + [Called(call)];
        stopped := stopped || env.stops(log);
        match reply {
          case Returned(v) =>
            if !(IsErrorReply(v) && attempt < max - 1) {
              o := Done(StepResult(!IsErrorReply(v), v, None, []));
              return;
            }
            lastError := env.str(Lookup(v.entries, "error"));
          case TimedOut =>
            lastError := "Action timed out";
            if attempt >= max - 1 { o := Done(Failed(lastError)); return; }
          case Raises(e) =>
            lastError := e;
            if attempt >= max - 1 { o := Throws(policies, e); return; }
        }
      }
      o := Done(Failed(if lastError == "" then "Unknown error" else lastError));
    }

    method ExecuteEnd(policies: seq<string>, status: Status, output: Value) returns (o: Outcome)
      modifies `log
      ensures (o, St()) == ExecEnd(env, policies, status, output, old(St()))
    {
      var v := if output == Dict(map[]) then Ok(Null) else env.resolve(output, Context());
      if v.Err? { o := Throws(policies, v.error); return; }
      log := log + [Ended(status)];
      o := Raised(Ends(status, v.value));
    }

    method ExecuteGoto(policies: seq<string>, target: string) returns (o: Outcome)
      modifies `log
      ensures (o, St()) == ExecGoto(env, policies, target, old(St()))
    {
      var v := env.resolve(Str(target), Context());
      if v.Err? { o := Throws(policies, v.error); return; }
      log := log + [Jumped(env.str(v.value))];
      o := Raised(Jumps(env.str(v.value)));
    }

    method ExecuteBranch(depth: nat, policies: seq<string>, step: Step) returns (o: Outcome)
      requires step.kind.Branch?
      modifies this
      ensures (o, St()) == ExecBranch(env, depth, policies, step, old(St()))
      ensures kv == old(kv)
      decreases depth, step, 0
    {
      var v := env.resolve(step.kind.on, Context());
      if v.Err? { o := Throws(policies, v.error); return; }
      var hit := MatchCase(env, step.kind.cases, v.value);
      var l;
      if hit.Some? {
        l := RunChildren(depth, policies, Plain, step.kind.cases[hit.value].steps, []);
      } else {
        l := RunChildren(depth, policies, Plain, step.kind.default, []);
      }
      o := Finish(l, LastOutput(l.children));
    }

    method ExecuteLoop(depth: nat, policies: seq<string>, step: Step) returns (o: Outcome)
      requires step.kind.Loop? && InferType(step).ByKind?
      modifies this
      ensures (o, St()) == Dispatch(env, depth, policies, step, old(St()))
      ensures kv == old(kv)
      decreases depth, step, 0
    {
      var n := LoopBound(env, step.kind.max, Context());
      if n.Err? { o := Throws(policies, n.error); return; }
      var body, until := step.kind.body, step.kind.until;
      var children: seq<StepResult>, outs: seq<Value>, i := [], [], 0;
      while i < n.value && !stopped
        invariant kv == old(kv)
        invariant RunLoop(env, depth, policies, body, until, n.value, i, children, outs, St())
               == RunLoop(env, depth, policies, body, until, n.value, 0, [], [], old(St()))
        decreases n.value - i
      {
        loopCtx := LoopFrame(i);
        var l := RunChildren(depth, policies, Plain, body, children);
        if l.signal.Some? { o := Raised(l.signal.value); return; }
        children := l.children;
        if children != [] {
          outs := outs + [LastOutput(children)];
        }
        if until != "" {
          var b := env.condition(until, Context());
          if b.Err? { o := Throws(policies, b.error); return; }
          if b.value { break; }
        }
        i := i + 1;
      }
      o := Aggregate(children, List(outs));
    }

    /** `_exec_map` with `max_concurrent` 1. */
    method ExecuteMap(depth: nat, policies: seq<string>, step: Step) returns (o: Outcome)
      requires step.kind.Map? && InferType(step).ByKind?
      modifies this
      ensures (o, St()) == Dispatch(env, depth, policies, step, old(St()))
      ensures kv == old(kv)
      decreases depth, step, 0
    {
      var over := env.resolve(step.kind.over, Context());
      if over.Err? { o := Throws(policies, over.error); return; }
      if !over.value.List? { o := Done(Failed("map.over did not resolve to a list")); return; }
      var body, asVar, items := step.kind.step, step.kind.asVar, over.value.items;
      var rs: seq<StepResult> := [];
      for i := 0 to |items|
        invariant kv == old(kv)
        invariant RunMap(env, depth, policies, body, asVar, items, i, rs, St())
               == RunMap(env, depth, policies, body, asVar, items, 0, [], old(St()))
      {
        var prev, prevLoop := Lookup(variables, asVar), loopCtx;
        variables := variables[asVar := items[i]];
        loopCtx := ItemFrame(i, items[i]);
        var l := RunChildren(depth, policies, Plain, body, []);
        RestoreVariable(asVar, prev);
        loopCtx := prevLoop;
        if l.signal.Some? { o := Raised(l.signal.value); return; }
        rs := rs + [StepResult(AllOk(l.children), LastOutput(l.children), None, l.children)];
      }
      o := Aggregate(rs, List(Outputs(rs)));
    }

    method ExecuteMacro(depth: nat, policies: seq<string>, step: Step) returns (o: Outcome)
      modifies this
      ensures (o, St()) == ExecMacro(env, depth, policies, step, old(St()))
      ensures kv == old(kv)
      decreases depth, step, 0
    {
      if step.use !in env.macros {
        log := log + [UnknownMacro(step.use)];
        o := Done(Failed("Macro '" + step.use + "' not found"));
        return;
      }
      var mac := env.macros[step.use];
      var given := ResolveParams(env, step.withParams, Context(), map[]);
      if given.Err? { o := Throws(policies, given.error); return; }
      var args := AddDefaults(mac.params, given.value);
      if args.Err? {
        log := log + [MissingParam(step.use, args.error)];
        o := Done(Failed("Macro '" + step.use + "' missing required param: " + args.error));
        return;
      }
      if depth == 0 { o := Throws(policies, "maximum recursion depth exceeded"); return; }
      var prev := Lookup(variables, "macro");
      variables := variables["macro" := Dict(args.value)];
      var l := RunChildren(depth - 1, policies, UntilFailure, mac.body, []);
      RestoreVariable("macro", prev);
      o := Finish(l, LastOutput(l.children));
    }

    method ExecuteTry(depth: nat, policies: seq<string>, step: Step) returns (o: Outcome)
      requires step.kind.Try?
      modifies this
      ensures (o, St()) == ExecTry(env, depth, policies, step, old(St()))
      ensures kv == old(kv)
      decreases depth, step, 0
    {
      var body := RunChildren(depth, policies, UntilFailure, step.kind.tries, []);
      var exc := TryException(body);
      var caught: seq<StepResult>, pending: Option<Signal> := [], None;
      if exc.Some? {
        var hit := MatchCatch(step.kind.catches, exc.value);
        if hit.None? {
          caught := [Failed("Unhandled error: " + ErrorText(exc.value))];
        } else {
          var clause := step.kind.catches[hit.value];
          pending := if clause.after == "fail" then exc else None;
          if clause.do.Some? {
            var c := ExecuteStep(depth, policies, clause.do.value);
            match c {
              case Raised(s) => pending := Some(s);
              case Done(r) => caught := [r];
            }
          }
        }
      }
      var fin := RunChildren(depth, policies, Plain, step.kind.finals, []);
      var children := body.children + caught + fin.children;
      if fin.signal.Some? {
        o := Raised(fin.signal.value);
      } else if pending.Some? {
        o := Raised(pending.value);
      } else {
        o := Aggregate(children, LastOutput(children));
      }
    }

    /** The loop over child steps that the composite handlers share. */
    method RunChildren(depth: nat, policies: seq<string>, mode: Mode, steps: seq<Step>, before: seq<StepResult>)
      returns (l: ListOutcome)
      modifies this
      ensures (l, St()) == RunList(env, depth, policies, mode, steps, before, old(St()))
      ensures kv == old(kv)
      decreases depth, steps, 0
    {
      var children := before;
      for k := 0 to |steps|
        invariant kv == old(kv)
        invariant RunList(env, depth, policies, mode, steps[k..], children, St())
               == RunList(env, depth, policies, mode, steps, before, old(St()))
      {
        if mode == CheckStop && stopped { break; }
        if mode == Piped {
          variables := variables["pipe" := Dict(map["input" := LastOutput(children)])];
        }
        assert steps[k..][0] == steps[k] && steps[k..][1..] == steps[k + 1..];
        var o := ExecuteStep(depth, policies, steps[k]);
        if o.Raised? { return ListOutcome(children, Some(o.signal)); }
        children := children + [o.r];
        if StopsAfter(mode, o.r) { return ListOutcome(children, None); }
      }
      l := ListOutcome(children, None);
    }

    // ---- Checkpoints ----

    method SaveCheckpoint(next: nat)
      modifies `kv
      ensures kv == if persistent then Some(MakeCheckpoint(env, St(), next)) else old(kv)
    {
      if persistent {
        kv := Some(Checkpoint(Completed(env, results), next));
      }
    }

    method ClearCheckpoint()
      modifies `kv
      ensures kv == if persistent then None else old(kv)
    {
      if persistent {
        kv := None;
      }
    }

    /** Put a stored checkpoint's outputs back into the results and the expression context. */
    method RestoreResults(completed: OD.Dict<Value>)
      modifies `results, `ctxResults
      ensures St() == Restore(completed, old(St()))
    {
      for k := 0 to |completed|
        invariant Restore(completed[k..], St()) == Restore(completed, old(St()))
      {
        assert completed[k..][1..] == completed[k + 1..];
        RecordResult(completed[k].0, Succeeded(completed[k].1));
      }
    }

    /** Where `execute` starts: at the beginning, or after the steps of a stored checkpoint. */
    method Begin(resume: bool) returns (i: nat)
      modifies this
      ensures (i, St()) == Enter(persistent, resume, old(St()), old(kv)) && kv == old(kv)
    {
      stopped := false;
      results := [];
      i := 0;
      if resume && persistent && kv.Some? {
        i := kv.value.next;
        RestoreResults(kv.value.completed);
      }
    }

    /** The loop of `execute`: run the top-level steps from `start` on, following gotos and saving a
        checkpoint after each step; it ends normally or with an exception. */
    method RunSteps(depth: nat, steps: seq<Step>, start: nat) returns (end: FlowEnd, ghost ran: nat)
      modifies this
      ensures var run := RunFrom(env, depth, persistent, steps, start, 0, old(St()), old(kv), 0);
        end == run.end && St() == run.st && kv == run.kv && ran == run.ran
    {
      var i: nat, jumps: nat := start, 0;
      ran := 0;
      while i < |steps| && !stopped
        invariant jumps <= MAX_GOTO_JUMPS
        invariant RunFrom(env, depth, persistent, steps, i, jumps, St(), kv, ran)
               == RunFrom(env, depth, persistent, steps, start, 0, old(St()), old(kv), 0)
        decreases MAX_GOTO_JUMPS - jumps, |steps| - i
      {
        var o := ExecuteStep(depth, [], steps[i]);
        ran := ran + 1;
        match o {
          case Done(_) =>
            i := i + 1;
            SaveCheckpoint(i);
          case Raised(Ends(status, output)) =>
            ClearCheckpoint();
            return EndedBy(status, output), ran;
          case Raised(Fails(e)) =>
            return StepFailed(e), ran;
          case Raised(Jumps(target)) =>
            if jumps + 1 > MAX_GOTO_JUMPS { return TooManyJumps, ran; }
            var at := StepIndex(steps, target);
            if at.None? { return NoTarget(target), ran; }
            i, jumps := at.value, jumps + 1;
        }
      }
      ClearCheckpoint();
      end := Finished;
    }

    /** `execute` */
    method ExecuteFlow(depth: nat, steps: seq<Step>, resume: bool) returns (result: FlowResult, ghost ran: nat)
      modifies this
      ensures var run := Execute(env, depth, persistent, steps, resume, old(St()), old(kv));
        && result == ResultOf(run)
        && (result.success <==> run.end.Finished? || (run.end.EndedBy? && run.end.status == Success))
        && (result.error.Some? <==> run.end.StepFailed? || run.end.NoTarget? || run.end.TooManyJumps?)
        && St() == run.st
        && kv == run.kv
        && ran == run.ran
    {
      var start := Begin(resume);
      var end;
      end, ran := RunSteps(depth, steps, start);
      match end {
        case Finished => result := FlowResult(true, results, FlowOutput(results), None, Success);
        case EndedBy(status, output) => result := FlowResult(status == Success, results, output, None, status);
        case _ => result := FlowResult(false, results, Null, Some(ErrorMessage(end)), Failure);
      }
    }
  }
}
