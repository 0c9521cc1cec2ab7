/** What the constructs of the flow language do, each law in terms of the step's own fields. */
module FlowLaws {
  import opened Values
  import opened FlowModel
  import opened FlowSemantics
  import opened FlowSteps
  import opened FlowFrame
  import OD = OrderedDicts

  // ---- Whole flows ----

  /** The result that `execute` returns, by how the flow stopped. */
  lemma FlowResultExact(run: FlowRun)
    ensures var r := ResultOf(run);
      && r.results == run.st.results
      && (r.success <==> run.end.Finished? || (run.end.EndedBy? && run.end.status == Success))
      && (r.error.Some? <==> run.end.StepFailed? || run.end.NoTarget? || run.end.TooManyJumps?)
      && (r.error.Some? ==> r.status == Failure && r.output == Null)
      && (run.end.StepFailed? ==> r.error == Some(run.end.error))
      && (run.end.NoTarget? ==> r.error == Some("goto target '" + run.end.target + "' not found in flow"))
      && (run.end.EndedBy? ==> r.status == run.end.status && r.output == run.end.output)
      && (run.end.Finished? ==> r.status == Success)
      && (run.end.Finished? ==> r.output == if run.st.results == [] then Null else run.st.results[|run.st.results| - 1].1.output)
  {
  }

  /** Where a run starts: at the beginning with nothing recorded, unless it is resumed and a checkpoint is there. */
  lemma EnterExact(keep: bool, resume: bool, st: State, kv: Option<Checkpoint>)
    ensures var (i, entered) := Enter(keep, resume, st, kv);
      && !entered.stopped && entered.log == st.log && entered.ctx.variables == st.ctx.variables && entered.ctx.loop == st.ctx.loop
      && (!resume || !keep || kv.None? ==> i == 0 && entered.results == [] && entered.ctx == st.ctx)
      && (resume && keep && kv.Some? ==> i == kv.value.next)
  {
    if resume && keep && kv.Some? {
      RestoreKeepsRest(kv.value.completed, st.(stopped := false, results := []));
    }
  }

  lemma {:induction false} RestoreKeepsRest(completed: OD.Dict<Value>, st: State)
    ensures var st' := Restore(completed, st);
      st'.stopped == st.stopped && st'.log == st.log && st'.ctx.variables == st.ctx.variables && st'.ctx.loop == st.ctx.loop
    decreases |completed|
  {
    if completed != [] {
      RestoreKeepsRest(completed[1..], Record(st, completed[0].0, Succeeded(completed[0].1)));
    }
  }

  // ---- One step ----

  /** The exception that leaves a step's handler, or does not: the three policies that absorb it, and the rest. */
  lemma OnErrorExact(env: Env, depth: nat, outer: seq<string>, step: Step, st: State)
    ensures var (inner, st1) := Dispatch(env, depth, [step.onError] + outer, step, st);
      var (o, st') := ExecStep(env, depth, outer, step, st);
      && (inner.Done? ==> o == inner)
      && (inner.Raised? && !inner.signal.Fails? ==> o == inner && st' == st1)
      && (inner.Raised? && inner.signal.Fails? ==>
            var e := inner.signal.error;
            if step.onError == "" || step.onError == "skip" || step.onError == "continue"
            then o == Done(StepResult(false, Null, Some(e), []))
            else o == Raised(Fails("Step '" + step.id + "' failed: " + e)) && st' == st1)
  {
    match Dispatch(env, depth, [step.onError] + outer, step, st).0
    case Done(_) =>
    case Raised(Fails(_)) =>
    case Raised(Ends(_, _)) =>
    case Raised(Jumps(_)) =>
  }

  /** A result is recorded under the step's id, in its place, and shown to later steps; nothing else changes. */
  lemma ResultRecorded(env: Env, depth: nat, outer: seq<string>, step: Step, st: State)
    ensures var (o, st') := ExecStep(env, depth, outer, step, st);
      var st1 := Dispatch(env, depth, [step.onError] + outer, step, st).1;
      o.Done? ==>
        && st'.log == st1.log && st'.stopped == st1.stopped && st'.ctx.variables == st1.ctx.variables && st'.ctx.loop == st1.ctx.loop
        && (step.id == "" ==> st' == st1)
        && (step.id != "" ==>
              && OD.ToMap(st'.results) == OD.ToMap(st1.results)[step.id := o.r]
              && st'.ctx.results == st1.ctx.results[step.id :=
                   if o.r.success then o.r.output else Dict(map["_error" := if o.r.error.Some? then Str(o.r.error.value) else Null])])
  {
    var (o, st') := ExecStep(env, depth, outer, step, st);
    if o.Done? {
      OD.PutToMap(Dispatch(env, depth, [step.onError] + outer, step, st).1.results, step.id, o.r);
    }
  }

  // ---- Lists of steps ----

  /** The state in which a child starts: in a pipe it finds its predecessor's output. */
  ghost function Entering(mode: Mode, before: seq<StepResult>, st: State): State {
    if mode == Piped then
      st.(ctx := st.ctx.(variables := st.ctx.variables["pipe" :=
        Dict(map["input" := if before == [] then Null else before[|before| - 1].output])]))
    else st
  }

  ghost predicate ChildRan(env: Env, depth: nat, policies: seq<string>, mode: Mode, step: Step, before: seq<StepResult>, st: State,
                           o: Outcome, st': State)
  {
    ExecStep(env, depth, policies, step, Entering(mode, before, st)) == (o, st')
  }

  /** The steps ran one after the other, `states` lying between them: to the end, to a signal, to the stop
      flag, or to the first failure, as the mode says. */
  ghost predicate ListRan(env: Env, depth: nat, policies: seq<string>, mode: Mode, steps: seq<Step>, done: seq<StepResult>,
                          states: seq<State>, l: ListOutcome, st': State)
  {
    var n := |l.children| - |done|;
    && 0 <= n <= |steps| && done <= l.children && |states| == n + 1
    && (forall k | 0 <= k < n ::
          ChildRan(env, depth, policies, mode, steps[k], l.children[..|done| + k], states[k], Done(l.children[|done| + k]), states[k + 1]))
    && (mode == CheckStop ==> forall k | 0 <= k < n :: !states[k].stopped)
    && (mode == UntilFailure || mode == Piped ==>
          forall k | |done| <= k < |l.children| && (k < |l.children| - 1 || l.signal.Some?) :: l.children[k].success)
    && if l.signal.Some? then
         && n < |steps| && ChildRan(env, depth, policies, mode, steps[n], l.children, states[n], Raised(l.signal.value), st')
         && (mode == CheckStop ==> !states[n].stopped)
       else
         && st' == states[n]
         && (|| n == |steps|
             || (mode == CheckStop && states[n].stopped)
             || ((mode == UntilFailure || mode == Piped) && n > 0 && !l.children[|l.children| - 1].success))
  }

  lemma ListRanStep(env: Env, depth: nat, policies: seq<string>, mode: Mode, steps: seq<Step>, done: seq<StepResult>, st: State,
                    r: StepResult, states: seq<State>, l: ListOutcome, st': State)
    requires steps != [] && states != [] && ChildRan(env, depth, policies, mode, steps[0], done, st, Done(r), states[0])
    requires mode == CheckStop ==> !st.stopped
    requires mode == UntilFailure || mode == Piped ==> r.success
    requires ListRan(env, depth, policies, mode, steps[1..], done + [r], states, l, st')
    ensures ListRan(env, depth, policies, mode, steps, done, [st] + states, l, st')
  {
    var n := |l.children| - |done|;
    var all := [st] + states;
    assert done + [r] <= l.children;
    assert l.children[|done|] == r && l.children[..|done|] == done;
    forall k | 0 <= k < n
      ensures ChildRan(env, depth, policies, mode, steps[k], l.children[..|done| + k], all[k], Done(l.children[|done| + k]), all[k + 1])
    {
      if k > 0 {
        assert steps[1..][k - 1] == steps[k] && all[k] == states[k - 1];
        assert l.children[..|done + [r]| + (k - 1)] == l.children[..|done| + k];
      }
    }
  }

  lemma {:induction false} ListRuns(env: Env, depth: nat, policies: seq<string>, mode: Mode, steps: seq<Step>, done: seq<StepResult>, st: State)
    returns (states: seq<State>)
    ensures var (l, st') := RunList(env, depth, policies, mode, steps, done, st);
      states != [] && states[0] == st && ListRan(env, depth, policies, mode, steps, done, states, l, st')
    decreases |steps|
  {
    states := [st];
    if steps != [] && !(mode == CheckStop && st.stopped) {
      var (o, st1) := ExecStep(env, depth, policies, steps[0], BeforeChild(mode, done, st));
      assert ChildRan(env, depth, policies, mode, steps[0], done, st, o, st1);
      if o.Done? {
        if StopsAfter(mode, o.r) {
          states := [st, st1];
          assert (done + [o.r])[..|done|] == done;
        } else {
          var (l, st') := RunList(env, depth, policies, mode, steps[1..], done + [o.r], st1);
          var rest := ListRuns(env, depth, policies, mode, steps[1..], done + [o.r], st1);
          ListRanStep(env, depth, policies, mode, steps, done, st, o.r, rest, l, st');
          states := [st] + rest;
        }
      }
    }
  }

  /** What a construct makes of its children: the signal that cut them short, or a result that succeeds if
      and only if all of them did. */
  ghost predicate Sums(l: ListOutcome, output: Value, o: Outcome) {
    if l.signal.Some? then o == Raised(l.signal.value)
    else
      && o.Done? && o.r.children == l.children && o.r.output == output && o.r.error.None?
      && (o.r.success <==> forall i | 0 <= i < |l.children| :: l.children[i].success)
  }

  ghost function FinalOutput(children: seq<StepResult>): Value {
    if children == [] then Null else children[|children| - 1].output
  }

  /** `use` and `goto` do not matter beside a structural field. */
  lemma SequenceLaw(env: Env, depth: nat, policies: seq<string>, step: Step, st: State)
    requires step.kind.Sequence?
    ensures var (l, st') := RunList(env, depth, policies, CheckStop, step.kind.steps, [], st);
      var (o, after) := Dispatch(env, depth, policies, step, st);
      after == st' && Sums(l, FinalOutput(l.children), o)
  {
  }

  lemma PipeLaw(env: Env, depth: nat, policies: seq<string>, step: Step, st: State)
    requires step.kind.Pipe?
    ensures var (l, st') := RunList(env, depth, policies, Piped, step.kind.stages, [], st);
      var (o, after) := Dispatch(env, depth, policies, step, st);
      after == st' && Sums(l, FinalOutput(l.children), o)
  {
  }

  // ---- Branches ----

  /** The key is the value's text, or its lower-case text, or empty for None; booleans fit in any case. */
  ghost predicate Fits(env: Env, key: string, v: Value) {
    || key == env.str(v)
    || (v == Null && key == "")
    || (v != Null && key == env.lower(env.str(v)))
    || (v.Bool? && env.lower(key) == env.lower(env.str(v)))
  }

  /** A branch runs the steps of the first case that fits its value, and the default's if none does. */
  lemma BranchTakesFirstFit(env: Env, depth: nat, policies: seq<string>, step: Step, st: State, v: Value, chosen: seq<Step>)
    requires step.kind.Branch? && env.resolve(step.kind.on, st.ctx) == Ok(v)
    requires var cases := step.kind.cases;
      if exists k :: 0 <= k < |cases| && Fits(env, cases[k].key, v)
      then exists k :: 0 <= k < |cases| && Fits(env, cases[k].key, v) && (forall j | 0 <= j < k :: !Fits(env, cases[j].key, v)) && chosen == cases[k].steps
      else chosen == step.kind.default
    ensures var (l, st') := RunList(env, depth, policies, Plain, chosen, [], st);
      var (o, after) := Dispatch(env, depth, policies, step, st);
      after == st' && Sums(l, FinalOutput(l.children), o)
  {
    var cases := step.kind.cases;
    FirstCase(env, cases, v, 0);
    assert forall k | 0 <= k < |cases| :: CaseMatches(env, cases[k].key, v) <==> Fits(env, cases[k].key, v);
    assert ExecBranch(env, depth, policies, step, st) == Dispatch(env, depth, policies, step, st);
  }

  // ---- Actions, end and goto ----

  lemma ErrorReplyExact(v: Value)
    ensures IsErrorReply(v) <==> v.Dict? && "error" in v.entries && v.entries["error"] != Null
  {
  }

  lemma {:induction false} SplitsAtDot(m: string, a: string)
    requires '.' !in m
    ensures SplitAction(m + "." + a) == Some((m, a))
  {
    if m == "" {
      assert (m + "." + a)[1..] == a;
    } else {
      assert (m + "." + a)[0] == m[0] && (m + "." + a)[1..] == m[1..] + "." + a;
      SplitsAtDot(m[1..], a);
      assert [m[0]] + m[1..] == m;
    }
  }

  /** An action step calls the module and the action that its name says, with its resolved parameters, until a
      reply is no failure, and does nothing else. */
  lemma ActionCalls(env: Env, depth: nat, policies: seq<string>, step: Step, st: State, name: Value, m: string, a: string, args: Value)
    returns (n: nat)
    requires step.kind.Action? && step.kind.action != "" && step.kind.maxAttempts >= 1
    requires env.resolve(Str(step.kind.action), st.ctx) == Ok(name) && env.str(name) == m + "." + a && '.' !in m
    requires env.resolve(step.kind.params, st.ctx) == Ok(args)
    ensures 1 <= n <= step.kind.maxAttempts
    ensures forall k | 0 <= k < n - 1 :: Retried(env.act(st.log + CallsMade(Call(m, a, args), k), Call(m, a, args)))
    ensures n < step.kind.maxAttempts ==> !Retried(env.act(st.log + CallsMade(Call(m, a, args), n - 1), Call(m, a, args)))
    ensures var (o, st') := Dispatch(env, depth, policies, step, st);
      var calls := st.log + CallsMade(Call(m, a, args), n);
      match env.act(st.log + CallsMade(Call(m, a, args), n - 1), Call(m, a, args))
      case Returned(v) => o == Done(StepResult(!IsErrorReply(v), v, None, [])) && st'.log == calls
      case TimedOut => o == Done(StepResult(false, Null, Some("Action timed out"), [])) && st'.log == calls
      case Raises(e) => o == Raised(Fails(e)) && st'.log == calls + [Faulted(policies)]
  {
    SplitsAtDot(m, a);
    n := RetryUntilSuccess(env, policies, Call(m, a, args), 0, step.kind.maxAttempts, "", st);
    assert Dispatch(env, depth, policies, step, st) == ExecAction(env, policies, step.kind.action, step.kind.params, step.kind.maxAttempts, st);
    assert ExecAction(env, policies, step.kind.action, step.kind.params, step.kind.maxAttempts, st)
        == Attempts(env, policies, Call(m, a, args), 0, step.kind.maxAttempts, "", st);
  }

  /** Without a dot in its name, or without any attempt, an action fails and nothing is called. */
  lemma ActionFails(env: Env, depth: nat, policies: seq<string>, step: Step, st: State, name: Value)
    requires step.kind.Action? && step.kind.action != "" && env.resolve(Str(step.kind.action), st.ctx) == Ok(name)
    ensures '.' !in env.str(name) ==>
      Dispatch(env, depth, policies, step, st) == (Done(StepResult(false, Null, Some("Invalid action: " + env.str(name)), [])), st)
    ensures '.' in env.str(name) && step.kind.maxAttempts == 0 && env.resolve(step.kind.params, st.ctx).Ok? ==>
      Dispatch(env, depth, policies, step, st) == (Done(StepResult(false, Null, Some("Unknown error"), [])), st)
  {
    SplitAtFirstDot(env.str(name));
  }

  /** A name, a parameter or a value that does not resolve is an exception. */
  lemma UnresolvedRaises(env: Env, depth: nat, policies: seq<string>, step: Step, st: State, what: Value, e: string)
    requires env.resolve(what, st.ctx) == Err(e)
    requires match step.kind
      case Action(action, _, _) => action != "" && what == Str(action)
      case Branch(on, _, _) => what == on
      case Map(over, _, _) => what == over
      case End(_, output) => what == output && output != Dict(map[])
      case Loop(max, _, _) => max == Template(what)
      case _ => false
    ensures Dispatch(env, depth, policies, step, st) == (Raised(Fails(e)), st.(log := st.log + [Faulted(policies)]))
  {
  }

  lemma EndLaw(env: Env, depth: nat, policies: seq<string>, step: Step, st: State, v: Value)
    requires step.kind.End?
    requires if step.kind.output == Dict(map[]) then v == Null else env.resolve(step.kind.output, st.ctx) == Ok(v)
    ensures Dispatch(env, depth, policies, step, st) == (Raised(Ends(step.kind.status, v)), st.(log := st.log + [Ended(step.kind.status)]))
  {
  }

  ghost predicate NoField(step: Step) {
    step.kind.NoKind? || (step.kind.Action? && step.kind.action == "")
  }

  lemma GotoLaw(env: Env, depth: nat, policies: seq<string>, step: Step, st: State, v: Value)
    requires NoField(step) && step.use == "" && step.goto != "" && env.resolve(Str(step.goto), st.ctx) == Ok(v)
    ensures Dispatch(env, depth, policies, step, st) == (Raised(Jumps(env.str(v))), st.(log := st.log + [Jumped(env.str(v))]))
  {
  }

  // ---- Loops ----

  ghost function InLoop(st: State, i: nat): State {
    st.(ctx := st.ctx.(loop := Dict(map["iteration" := Int(i), "index" := Int(i)])))
  }

  ghost function Lasts(kids: seq<seq<StepResult>>): seq<Value> {
    if kids == [] then []
    else (if kids[0] == [] then [] else [kids[0][|kids[0]| - 1].output]) + Lasts(kids[1..])
  }

  ghost predicate GoesOn(env: Env, until: string, st: State) {
    until == "" || env.condition(until, st.ctx) == Ok(false)
  }

  ghost predicate Iterated(env: Env, depth: nat, policies: seq<string>, body: seq<Step>, i: nat, n: int, before: seq<StepResult>, st: State,
                           l: ListOutcome, st': State)
  {
    i < n && !st.stopped && RunList(env, depth, policies, Plain, body, before, InLoop(st, i)) == (l, st')
  }

  ghost predicate CutShort(env: Env, depth: nat, policies: seq<string>, body: seq<Step>, i: nat, n: int, before: seq<StepResult>, st: State,
                           s: Signal, st': State)
  {
    i < n && !st.stopped && RunList(env, depth, policies, Plain, body, before, InLoop(st, i)).0.signal == Some(s)
    && RunList(env, depth, policies, Plain, body, before, InLoop(st, i)).1 == st'
  }

  /** The iterations from `i` on: `kids` are the children so far and `states` the states before each of them.
      The loop ends at its bound, at the stop flag, or once its condition holds. */
  ghost predicate LoopRan(env: Env, depth: nat, policies: seq<string>, body: seq<Step>, until: string, n: int, i: nat, outs: seq<Value>,
                          kids: seq<seq<StepResult>>, states: seq<State>, o: Outcome, st': State)
  {
    && kids != [] && |states| == |kids|
    && var m := |kids| - 1;
    && (forall j | 0 <= j < m :: Iterated(env, depth, policies, body, i + j, n, kids[j], states[j], ListOutcome(kids[j + 1], None), states[j + 1]))
    && (forall j | 0 < j < m :: GoesOn(env, until, states[j]))
    && match o
       case Done(r) =>
         && st' == states[m] && r.children == kids[m] && r.output == List(outs + Lasts(kids[1..])) && r.error.None?
         && (r.success <==> forall c | 0 <= c < |kids[m]| :: kids[m][c].success)
         && (i + m >= n || st'.stopped || (m > 0 && until != "" && env.condition(until, st'.ctx) == Ok(true)))
       case Raised(s) =>
         || ((m > 0 ==> GoesOn(env, until, states[m])) && CutShort(env, depth, policies, body, i + m, n, kids[m], states[m], s, st'))
         || (m > 0 && until != "" && s.Fails? && env.condition(until, states[m].ctx) == Err(s.error)
               && st' == states[m].(log := states[m].log + [Faulted(policies)]))
  }

  lemma LoopRanStep(env: Env, depth: nat, policies: seq<string>, body: seq<Step>, until: string, n: int, i: nat, outs: seq<Value>,
                    before: seq<StepResult>, st: State, kids: seq<seq<StepResult>>, states: seq<State>, o: Outcome, st': State)
    requires kids != [] && states != []
    requires Iterated(env, depth, policies, body, i, n, before, st, ListOutcome(kids[0], None), states[0]) && GoesOn(env, until, states[0])
    requires LoopRan(env, depth, policies, body, until, n, i + 1, outs + (if kids[0] == [] then [] else [kids[0][|kids[0]| - 1].output]),
                     kids, states, o, st')
    ensures LoopRan(env, depth, policies, body, until, n, i, outs, [before] + kids, [st] + states, o, st')
  {
    var ks, ss := [before] + kids, [st] + states;
    var m := |kids| - 1;
    forall j | 0 <= j < m + 1
      ensures Iterated(env, depth, policies, body, i + j, n, ks[j], ss[j], ListOutcome(ks[j + 1], None), ss[j + 1])
    {
      if j > 0 {
        assert Iterated(env, depth, policies, body, i + 1 + (j - 1), n, kids[j - 1], states[j - 1], ListOutcome(kids[j], None), states[j]);
      }
    }
    forall j | 0 < j < m + 1 ensures GoesOn(env, until, ss[j]) {
      assert ss[j] == states[j - 1];
    }
    assert ks[1..] == kids;
    LastsFirst(outs, kids);
  }

  lemma LastsFirst(outs: seq<Value>, kids: seq<seq<StepResult>>)
    requires kids != []
    ensures (outs + (if kids[0] == [] then [] else [kids[0][|kids[0]| - 1].output])) + Lasts(kids[1..]) == outs + Lasts(kids)
  {
  }

  lemma {:induction false} LoopRuns(env: Env, depth: nat, policies: seq<string>, body: seq<Step>, until: string, n: int, i: nat,
                                    done: seq<StepResult>, outs: seq<Value>, st: State)
    returns (kids: seq<seq<StepResult>>, states: seq<State>)
    ensures kids != [] && states != [] && kids[0] == done && states[0] == st
    ensures var (o, st') := RunLoop(env, depth, policies, body, until, n, i, done, outs, st);
      LoopRan(env, depth, policies, body, until, n, i, outs, kids, states, o, st')
    decreases n - i
  {
    kids, states := [done], [st];
    assert Lasts(kids[1..]) == [] && outs + [] == outs;
    if i < n && !st.stopped {
      var (l, st1) := RunList(env, depth, policies, Plain, body, done, SetLoop(st, LoopFrame(i)));
      assert Iterated(env, depth, policies, body, i, n, done, st, l, st1);
      if l.signal.None? {
        var out := if l.children == [] then [] else [l.children[|l.children| - 1].output];
        var outs' := if l.children == [] then outs else outs + [LastOutput(l.children)];
        assert outs' == outs + out;
        if GoesOn(env, until, st1) {
          var (o, st') := RunLoop(env, depth, policies, body, until, n, i + 1, l.children, outs', st1);
          var ks, ss := LoopRuns(env, depth, policies, body, until, n, i + 1, l.children, outs', st1);
          LoopRanStep(env, depth, policies, body, until, n, i, outs, done, st, ks, ss, o, st');
          kids, states := [done] + ks, [st] + ss;
        } else {
          LoopEnds(env, depth, policies, body, until, n, i, done, outs, st, l, st1);
          kids, states := [done, l.children], [st, st1];
        }
      }
    }
  }

  lemma LoopEnds(env: Env, depth: nat, policies: seq<string>, body: seq<Step>, until: string, n: int, i: nat,
                 done: seq<StepResult>, outs: seq<Value>, st: State, l: ListOutcome, st1: State)
    requires l.signal.None? && Iterated(env, depth, policies, body, i, n, done, st, l, st1) && !GoesOn(env, until, st1)
    ensures var (o, st') := RunLoop(env, depth, policies, body, until, n, i, done, outs, st);
      LoopRan(env, depth, policies, body, until, n, i, outs, [done, l.children], [st, st1], o, st')
  {
    var kids := [done, l.children];
    assert kids[1..] == [l.children] && [l.children][1..] == [];
    assert Lasts([l.children]) == (if l.children == [] then [] else [l.children[|l.children| - 1].output]) + Lasts([]);
    assert l == ListOutcome(l.children, None);
  }

  /** A loop's bound: its number, or what its template gives, ten if that is None. */
  ghost predicate BoundIs(env: Env, max: MaxIterations, ctx: Ctx, n: int) {
    match max
    case Fixed(k) => n == k
    case Template(e) => exists v :: env.resolve(e, ctx) == Ok(v) && if v == Null then n == 10 else env.toInt(v) == Ok(n)
  }

  lemma LoopLaw(env: Env, depth: nat, policies: seq<string>, step: Step, st: State, n: int) returns (kids: seq<seq<StepResult>>, states: seq<State>)
    requires step.kind.Loop? && BoundIs(env, step.kind.max, st.ctx, n)
    ensures kids != [] && states != [] && kids[0] == [] && states[0] == st
    ensures var (o, st') := Dispatch(env, depth, policies, step, st);
      LoopRan(env, depth, policies, step.kind.body, step.kind.until, n, 0, [], kids, states, o, st')
  {
    kids, states := LoopRuns(env, depth, policies, step.kind.body, step.kind.until, n, 0, [], [], st);
    assert LoopBound(env, step.kind.max, st.ctx) == Ok(n);
  }

  // ---- Maps ----

  /** The body runs on the item under its name, with the item's number in the loop context; afterwards both are put back. */
  lemma ItemLaw(env: Env, depth: nat, policies: seq<string>, body: seq<Step>, asVar: string, item: Value, i: nat, st: State)
    ensures var inside := st.(ctx := st.ctx.(
        variables := st.ctx.variables[asVar := item],
        loop := Dict(map["iteration" := Int(i), "index" := Int(i), "item" := item])));
      var (l, after) := RunList(env, depth, policies, Plain, body, [], inside);
      var (l', st') := RunItem(env, depth, policies, body, asVar, item, i, st);
      && l' == l && st'.log == after.log && st'.results == after.results && st'.ctx.results == after.ctx.results
      && st'.ctx.loop == st.ctx.loop
      && st'.ctx.variables == if asVar in st.ctx.variables && st.ctx.variables[asVar] != Null
                              then after.ctx.variables[asVar := st.ctx.variables[asVar]] else after.ctx.variables - {asVar}
  {
  }

  /** What `map` makes of a list: one result per item, in order, that succeeds if the item's children did; and
      of anything else. */
  lemma MapLaw(env: Env, depth: nat, policies: seq<string>, step: Step, st: State, v: Value)
    requires step.kind.Map? && env.resolve(step.kind.over, st.ctx) == Ok(v)
    ensures var (o, st') := Dispatch(env, depth, policies, step, st);
      if v.List? then
        o.Done? ==>
          && MapEnds(env, depth, policies, step.kind.step, step.kind.asVar, v.items, st, 0, [], o, st')
          && o.r.error.None? && (o.r.success <==> forall i | 0 <= i < |o.r.children| :: o.r.children[i].success)
      else o == Done(StepResult(false, Null, Some("map.over did not resolve to a list"), [])) && st' == st
  {
    if v.List? {
      MapInOrder(env, depth, policies, step.kind.step, step.kind.asVar, v.items, 0, [], st, st);
      MapSums(env, depth, policies, step.kind.step, step.kind.asVar, v.items, 0, [], st);
    }
  }

  lemma {:induction false} MapSums(env: Env, depth: nat, policies: seq<string>, body: seq<Step>, asVar: string, items: seq<Value>, i: nat,
                                   done: seq<StepResult>, st: State)
    ensures var o := RunMap(env, depth, policies, body, asVar, items, i, done, st).0;
      o.Done? ==> o.r.error.None? && (o.r.success <==> forall c | 0 <= c < |o.r.children| :: o.r.children[c].success)
    decreases |items| - i
  {
    if i < |items| {
      var (l, st1) := RunItem(env, depth, policies, body, asVar, items[i], i, st);
      if l.signal.None? {
        MapSums(env, depth, policies, body, asVar, items, i + 1, done + [Aggregate(l.children, LastOutput(l.children)).r], st1);
      }
    }
  }

  /** A map that raises does so on one item, after the others before it. */
  lemma {:induction false} MapRaises(env: Env, depth: nat, policies: seq<string>, body: seq<Step>, asVar: string, items: seq<Value>, i: nat,
                                     done: seq<StepResult>, st: State, st0: State) returns (k: nat)
    requires i <= |items| && st == StateAt(env, depth, policies, body, asVar, items, st0, i)
    requires RunMap(env, depth, policies, body, asVar, items, i, done, st).0.Raised?
    ensures var (o, st') := RunMap(env, depth, policies, body, asVar, items, i, done, st);
      && i <= k < |items|
      && RunItem(env, depth, policies, body, asVar, items[k], k, StateAt(env, depth, policies, body, asVar, items, st0, k)).0.signal == Some(o.signal)
      && RunItem(env, depth, policies, body, asVar, items[k], k, StateAt(env, depth, policies, body, asVar, items, st0, k)).1 == st'
    decreases |items| - i
  {
    var (l, st1) := RunItem(env, depth, policies, body, asVar, items[i], i, st);
    if l.signal.Some? {
      k := i;
    } else {
      var r := Aggregate(l.children, LastOutput(l.children)).r;
      k := MapRaises(env, depth, policies, body, asVar, items, i + 1, done + [r], st1, st0);
    }
  }

  // ---- Macros ----

  ghost predicate DistinctNames<T>(params: seq<(string, T)>) {
    forall i, j | 0 <= i < j < |params| :: params[i].0 != params[j].0
  }

  /** The given parameters, each resolved under its own name; an exception if one does not resolve. */
  lemma {:induction false} ParamsResolved(env: Env, params: seq<(string, Value)>, ctx: Ctx, acc: map<string, Value>)
    requires DistinctNames(params)
    ensures match ResolveParams(env, params, ctx, acc)
      case Err(e) => exists i :: 0 <= i < |params| && env.resolve(params[i].1, ctx) == Err(e)
      case Ok(given) =>
        && (forall i | 0 <= i < |params| :: params[i].0 in given && env.resolve(params[i].1, ctx) == Ok(given[params[i].0]))
        && (forall k | k in given :: k in acc || exists i :: 0 <= i < |params| && params[i].0 == k)
        && (forall k | k in acc :: k in given && ((forall i | 0 <= i < |params| :: params[i].0 != k) ==> given[k] == acc[k]))
  {
    if params != [] && env.resolve(params[0].1, ctx).Ok? {
      var rest := params[1..];
      assert forall i | 0 <= i < |rest| :: rest[i] == params[i + 1];
      ParamsResolved(env, rest, ctx, acc[params[0].0 := env.resolve(params[0].1, ctx).value]);
      match ResolveParams(env, params, ctx, acc)
      case Err(e) =>
        var i :| 0 <= i < |rest| && env.resolve(rest[i].1, ctx) == Err(e);
        assert env.resolve(params[i + 1].1, ctx) == Err(e);
      case Ok(given) =>
        forall i | 0 <= i < |params| ensures params[i].0 in given && env.resolve(params[i].1, ctx) == Ok(given[params[i].0]) {
          if i > 0 { assert rest[i - 1] == params[i]; }
        }
    }
  }

  /** A parameter that a call must give: required, and without a default. */
  predicate MustBeGiven(p: MacroParam) {
    p.required && p.default == Null
  }

  /** What the body sees: what is given, else the default, if there is one. The first parameter that must be
      given and is not is named. */
  lemma {:induction false} DefaultsExact(params: seq<(string, MacroParam)>, given: map<string, Value>)
    requires DistinctNames(params)
    ensures match AddDefaults(params, given)
      case Ok(args) =>
        && (forall k | k in given :: k in args && args[k] == given[k])
        && (forall i | 0 <= i < |params| && params[i].0 !in given ::
              !MustBeGiven(params[i].1) && if params[i].1.default == Null then params[i].0 !in args
                                           else params[i].0 in args && args[params[i].0] == params[i].1.default)
        && (forall k | k in args :: k in given || exists i :: 0 <= i < |params| && params[i].0 == k)
      case Err(name) =>
        exists i :: 0 <= i < |params| && params[i].0 == name && name !in given && MustBeGiven(params[i].1)
          && forall j | 0 <= j < i :: params[j].0 in given || !MustBeGiven(params[j].1)
  {
    if params != [] {
      var (name, p) := params[0];
      var rest := params[1..];
      assert forall i | 0 <= i < |rest| :: rest[i] == params[i + 1];
      assert forall i | 0 < i < |params| :: params[i] == rest[i - 1];
      if name in given || p.default != Null || !p.required {
        var more := if name !in given && p.default != Null then given[name := p.default] else given;
        DefaultsExact(rest, more);
        match AddDefaults(rest, more)
        case Err(e) =>
          var i :| 0 <= i < |rest| && rest[i].0 == e && e !in more && MustBeGiven(rest[i].1)
            && forall j | 0 <= j < i :: rest[j].0 in more || !MustBeGiven(rest[j].1);
          assert params[i + 1].0 == e;
          forall j | 0 <= j < i + 1 ensures params[j].0 in given || !MustBeGiven(params[j].1) {
            if j > 0 { assert rest[j - 1] == params[j]; }
          }
        case Ok(_) =>
      }
    }
  }

  /** A macro call: unknown, misses a parameter, or runs the body with its parameters under `macro`. */
  lemma MacroLaw(env: Env, depth: nat, policies: seq<string>, step: Step, st: State)
    requires NoField(step) && step.use != ""
    ensures var (o, st') := Dispatch(env, depth, policies, step, st);
      if step.use !in env.macros then
        o == Done(StepResult(false, Null, Some("Macro '" + step.use + "' not found"), [])) && st'.ctx == st.ctx && st'.results == st.results
      else
        match ResolveParams(env, step.withParams, st.ctx, map[])
        case Err(e) => o == Raised(Fails(e)) && st' == st.(log := st.log + [Faulted(policies)])
        case Ok(given) =>
          match AddDefaults(env.macros[step.use].params, given)
          case Err(name) =>
            && o == Done(StepResult(false, Null, Some("Macro '" + step.use + "' missing required param: " + name), []))
            && st'.ctx == st.ctx && st'.results == st.results
          case Ok(args) =>
            depth > 0 ==>
              var inside := st.(ctx := st.ctx.(variables := st.ctx.variables["macro" := Dict(args)]));
              var (l, after) := RunList(env, depth - 1, policies, UntilFailure, env.macros[step.use].body, [], inside);
              && Sums(l, FinalOutput(l.children), o)
              && st'.log == after.log && st'.results == after.results && st'.ctx.results == after.ctx.results && st'.ctx.loop == after.ctx.loop
              && st'.ctx.variables == if "macro" in st.ctx.variables && st.ctx.variables["macro"] != Null
                                      then after.ctx.variables["macro" := st.ctx.variables["macro"]] else after.ctx.variables - {"macro"}
  {
    assert Dispatch(env, depth, policies, step, st) == ExecMacro(env, depth, policies, step, st);
  }

  // ---- try ----

  /** The classes of exceptions, lower-cased, that clauses match. */
  lemma ExceptionClasses(s: Signal)
    ensures s.Fails? ==> ErrorType(s) == "flowexecutionerror" && ErrorText(s) == s.error
    ensures s.Ends? ==> ErrorType(s) == "flowendsignal" && ErrorText(s) == ""
    ensures s.Jumps? ==> ErrorType(s) == "flowgotosignal" && ErrorText(s) == ""
  {
  }

  /** What ends the body: a signal, or its last child's failure. */
  lemma BodyException(l: ListOutcome)
    ensures l.signal.Some? ==> TryException(l) == l.signal
    ensures l.signal.None? && l.children != [] && !l.children[|l.children| - 1].success ==>
      var error := l.children[|l.children| - 1].error;
      TryException(l) == Some(Fails(if error.Some? && error.value != "" then error.value else "Step failed"))
    ensures l.signal.None? && (l.children == [] || l.children[|l.children| - 1].success) ==> TryException(l).None?
  {
  }

  /** What handles an exception: the first clause that matches, whose step is run, or a failed result. */
  ghost predicate Handled(env: Env, depth: nat, policies: seq<string>, catches: seq<Catch>, s: Signal, st: State,
                          caught: seq<StepResult>, pending: Option<Signal>, st': State)
  {
    if forall k | 0 <= k < |catches| :: !Catches(catches[k], s) then
      caught == [StepResult(false, Null, Some("Unhandled error: " + ErrorText(s)), [])] && pending.None? && st' == st
    else
      exists k :: 0 <= k < |catches| && FirstOf(catches, s, k) && ClauseRan(env, depth, policies, catches[k], s, st, caught, pending, st')
  }

  ghost predicate FirstOf(catches: seq<Catch>, s: Signal, k: nat)
    requires k < |catches|
  {
    Catches(catches[k], s) && forall j | 0 <= j < k :: !Catches(catches[j], s)
  }

  ghost predicate ClauseRan(env: Env, depth: nat, policies: seq<string>, c: Catch, s: Signal, st: State,
                            caught: seq<StepResult>, pending: Option<Signal>, st': State)
  {
    var again := if c.after == "fail" then Some(s) else None;
    match c.do
    case None => caught == [] && pending == again && st' == st
    case Some(do) =>
      var (o, after) := ExecStep(env, depth, policies, do, st);
      && st' == after
      && (o.Raised? ==> caught == [] && pending == Some(o.signal))
      && (o.Done? ==> caught == [o.r] && pending == again)
  }

  /** The whole `try`: body, handling, and `finally` in any case, whose own exception goes before a pending one. */
  lemma TryLaw(env: Env, depth: nat, policies: seq<string>, step: Step, st: State)
    returns (caught: seq<StepResult>, pending: Option<Signal>, st2: State)
    requires step.kind.Try?
    ensures var (body, st1) := RunList(env, depth, policies, UntilFailure, step.kind.tries, [], st);
      var (fin, st3) := RunList(env, depth, policies, Plain, step.kind.finals, [], st2);
      var (o, st') := Dispatch(env, depth, policies, step, st);
      && (if TryException(body).Some? then Handled(env, depth, policies, step.kind.catches, TryException(body).value, st1, caught, pending, st2)
          else caught == [] && pending.None? && st2 == st1)
      && st' == st3
      && Sums(ListOutcome(body.children + caught + fin.children, if fin.signal.Some? then fin.signal else pending),
              FinalOutput(body.children + caught + fin.children), o)
  {
    var (body, st1) := RunList(env, depth, policies, UntilFailure, step.kind.tries, [], st);
    var exc := TryException(body);
    var (c, p, s) := ExecCatch(env, depth, policies, step, exc, st1);
    caught, pending, st2 := c, p, s;
    if exc.Some? {
      HandledExactly(env, depth, policies, step, exc.value, st1);
    }
    assert Dispatch(env, depth, policies, step, st) == ExecTry(env, depth, policies, step, st);
  }

  lemma HandledExactly(env: Env, depth: nat, policies: seq<string>, step: Step, s: Signal, st: State)
    requires step.kind.Try?
    ensures var (caught, pending, st') := ExecCatch(env, depth, policies, step, Some(s), st);
      Handled(env, depth, policies, step.kind.catches, s, st, caught, pending, st')
  {
    var catches := step.kind.catches;
    var (caught, pending, st') := ExecCatch(env, depth, policies, step, Some(s), st);
    FirstCatch(catches, s, 0);
    var hit := MatchCatch(catches, s);
    if hit.Some? {
      assert FirstOf(catches, s, hit.value) && ClauseRan(env, depth, policies, catches[hit.value], s, st, caught, pending, st');
    }
  }

  // ---- The order of the top-level steps ----

  /** Which step comes after one that ended in `o`: the next one, or the last one with the target's id. */
  ghost predicate Follows(steps: seq<Step>, at: nat, o: Outcome, next: nat) {
    match o
    case Done(_) => next == at + 1
    case Raised(Jumps(target)) =>
      target != "" && next < |steps| && steps[next].id == target && forall j | next < j < |steps| :: steps[j].id != target
    case Raised(_) => false
  }

  ghost predicate TopStep(env: Env, depth: nat, steps: seq<Step>, at: nat, st: State, o: Outcome, st': State) {
    at < |steps| && !st.stopped && ExecStep(env, depth, [], steps[at], st) == (o, st')
  }

  ghost function JumpsIn(os: seq<Outcome>): nat {
    if os == [] then 0 else JumpsIn(os[1..]) + if os[0].Raised? && os[0].signal.Jumps? then 1 else 0
  }

  /** The run from `i` on executes the steps `at`, with outcomes `os` and `states` between them, each following
      from the one before, and stops as `run` says. */
  ghost predicate Traced(env: Env, depth: nat, steps: seq<Step>, i: nat, jumps: nat, ran: nat, at: seq<nat>, os: seq<Outcome>,
                         states: seq<State>, run: FlowRun)
  {
    var n := |os|;
    && |states| == n + 1 && |at| == n + 1 && at[0] == i && run.st == states[n] && run.ran == ran + n
    && (forall k | 0 <= k < n :: TopStep(env, depth, steps, at[k], states[k], os[k], states[k + 1]))
    && (forall k | 0 <= k < n && (k < n - 1 || run.end.Finished?) :: Follows(steps, at[k], os[k], at[k + 1]))
    && jumps + JumpsIn(os) <= 101
    && match run.end
       case Finished => (at[n] >= |steps| || states[n].stopped) && jumps + JumpsIn(os) <= 100
       case EndedBy(status, output) => n > 0 && os[n - 1] == Raised(Ends(status, output))
       case StepFailed(e) => n > 0 && os[n - 1] == Raised(Fails(e))
       case TooManyJumps => n > 0 && os[n - 1].Raised? && os[n - 1].signal.Jumps? && jumps + JumpsIn(os) == 101
       case NoTarget(t) => n > 0 && os[n - 1] == Raised(Jumps(t)) && (t == "" || forall j | 0 <= j < |steps| :: steps[j].id != t)
  }

  lemma TracedStep(env: Env, depth: nat, steps: seq<Step>, i: nat, jumps: nat, jumps': nat, ran: nat, st: State, o: Outcome, next: nat,
                   at: seq<nat>, os: seq<Outcome>, states: seq<State>, run: FlowRun)
    requires states != [] && TopStep(env, depth, steps, i, st, o, states[0]) && Follows(steps, i, o, next)
    requires jumps' == jumps + if o.Raised? then 1 else 0
    requires Traced(env, depth, steps, next, jumps', ran + 1, at, os, states, run)
    ensures Traced(env, depth, steps, i, jumps, ran, [i] + at, [o] + os, [st] + states, run)
  {
    var n := |os|;
    var at1, os1, states1 := [i] + at, [o] + os, [st] + states;
    assert os1[1..] == os;
    forall k | 0 <= k < n + 1 ensures TopStep(env, depth, steps, at1[k], states1[k], os1[k], states1[k + 1]) {
      if k > 0 { assert TopStep(env, depth, steps, at[k - 1], states[k - 1], os[k - 1], states[k]); }
    }
    forall k | 0 <= k < n + 1 && (k < n || run.end.Finished?) ensures Follows(steps, at1[k], os1[k], at1[k + 1]) {
      if k > 0 { assert Follows(steps, at[k - 1], os[k - 1], at[k]); }
    }
  }

  /** A run that stops in its first step. */
  lemma TracedEnd(env: Env, depth: nat, steps: seq<Step>, i: nat, jumps: nat, st: State, kv: Option<Checkpoint>, keep: bool, ran: nat)
    requires jumps <= MAX_GOTO_JUMPS && i < |steps| && !st.stopped
    requires match ExecStep(env, depth, [], steps[i], st).0
      case Done(_) => false
      case Raised(Jumps(t)) => jumps == MAX_GOTO_JUMPS || StepIndex(steps, t).None?
      case Raised(_) => true
    ensures var (o, st') := ExecStep(env, depth, [], steps[i], st);
      Traced(env, depth, steps, i, jumps, ran, [i, i], [o], [st, st'], RunFrom(env, depth, keep, steps, i, jumps, st, kv, ran))
  {
    var (o, st') := ExecStep(env, depth, [], steps[i], st);
    assert [o][1..] == [] && TopStep(env, depth, steps, i, st, o, st');
  }

  lemma TargetFollows(steps: seq<Step>, at: nat, target: string)
    ensures match StepIndex(steps, target)
      case Some(next) => Follows(steps, at, Raised(Jumps(target)), next)
      case None => target == "" || forall j | 0 <= j < |steps| :: steps[j].id != target
  {
    LastIndex(steps, target);
  }

  lemma {:induction false} LastIndex(steps: seq<Step>, id: string)
    ensures StepIndex(steps, id).Some? ==> forall j | StepIndex(steps, id).value < j < |steps| :: steps[j].id != id
  {
    if steps != [] && id != "" && steps[|steps| - 1].id != id {
      LastIndex(steps[..|steps| - 1], id);
    }
  }

  /** Top-level steps run in their order, but for jumps, of which there are at most a hundred; why a run stops
      is what its last step says. */
  lemma {:induction false} FlowInOrder(env: Env, depth: nat, keep: bool, steps: seq<Step>, i: nat, jumps: nat, st: State,
                                       kv: Option<Checkpoint>, ran: nat)
    returns (at: seq<nat>, os: seq<Outcome>, states: seq<State>)
    requires jumps <= MAX_GOTO_JUMPS
    ensures states != [] && states[0] == st
    ensures Traced(env, depth, steps, i, jumps, ran, at, os, states, RunFrom(env, depth, keep, steps, i, jumps, st, kv, ran))
    decreases MAX_GOTO_JUMPS - jumps, |steps| - i
  {
    at, os, states := [i], [], [st];
    if i < |steps| && !st.stopped {
      var (o, st') := ExecStep(env, depth, [], steps[i], st);
      assert TopStep(env, depth, steps, i, st, o, st');
      if o.Done? {
        var kv' := if keep then Some(MakeCheckpoint(env, st', i + 1)) else kv;
        var a, b, c := FlowInOrder(env, depth, keep, steps, i + 1, jumps, st', kv', ran + 1);
        TracedStep(env, depth, steps, i, jumps, jumps, ran, st, o, i + 1, a, b, c, RunFrom(env, depth, keep, steps, i + 1, jumps, st', kv', ran + 1));
        at, os, states := [i] + a, [o] + b, [st] + c;
      } else if o.signal.Jumps? && jumps < MAX_GOTO_JUMPS && StepIndex(steps, o.signal.target).Some? {
        var next := StepIndex(steps, o.signal.target).value;
        TargetFollows(steps, i, o.signal.target);
        var a, b, c := FlowInOrder(env, depth, keep, steps, next, jumps + 1, st', kv, ran + 1);
        TracedStep(env, depth, steps, i, jumps, jumps + 1, ran, st, o, next, a, b, c, RunFrom(env, depth, keep, steps, next, jumps + 1, st', kv, ran + 1));
        at, os, states := [i] + a, [o] + b, [st] + c;
      } else {
        TracedEnd(env, depth, steps, i, jumps, st, kv, keep, ran);
        at, os, states := [i, i], [o], [st, st'];
      }
    }
  }
}
