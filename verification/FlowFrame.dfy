/** What a step does to the expression context: it shows the results it records, and steps other than loops
    and pipes leave the variables and the loop context as they found them. */
module FlowFrame {
  import opened Values
  import opened FlowModel
  import opened FlowShapes
  import opened FlowSemantics
  import OD = OrderedDicts

  /** Loops and pipes leave `loop` and `pipe` behind. */
  ghost const Scoped: Step -> bool := (s: Step) => !s.kind.Loop? && !s.kind.Pipe?

  ghost predicate ScopedMacros(env: Env) {
    forall m | m in env.macros :: Each(Scoped, env.macros[m].body)
  }

  /** `after` is `before`, except that keys holding None may be gone. */
  ghost predicate Faded(before: map<string, Value>, after: map<string, Value>) {
    && (forall k | k in after :: k in before && after[k] == before[k])
    && (forall k | k in before && k !in after :: before[k] == Null)
  }

  /** The recorded results as the expression context shows them, over what it held at the start. */
  ghost function Overlay(base: map<string, Value>, results: OD.Dict<StepResult>): map<string, Value> {
    base + ShownMap(OD.ToMap(results))
  }

  ghost function ShownMap(m: map<string, StepResult>): map<string, Value> {
    map k | k in m :: Shown(m[k])
  }

  /** The recorded results form a dict with proper keys, and a successful result carries no error. */
  ghost predicate Tidy(results: OD.Dict<StepResult>) {
    && (forall i, j | 0 <= i < j < |results| :: results[i].0 != results[j].0)
    && (forall i | 0 <= i < |results| :: results[i].0 != "" && (results[i].1.success ==> results[i].1.error.None?))
  }

  /** Results enter the context as they are recorded, and the log grows; in a `scoped` step nothing else changes. */
  ghost predicate Framed(scoped: bool, base: map<string, Value>, st: State, st': State) {
    && (scoped ==> Faded(st.ctx.variables, st'.ctx.variables) && st'.ctx.loop == st.ctx.loop)
    && (st.ctx.results == Overlay(base, st.results) ==> st'.ctx.results == Overlay(base, st'.results))
    && (Tidy(st.results) ==> Tidy(st'.results))
    && st.log <= st'.log
  }

  lemma TidyPut(d: OD.Dict<StepResult>, id: string, r: StepResult)
    requires id != "" && (r.success ==> r.error.None?)
    ensures Tidy(d) ==> Tidy(OD.Put(d, id, r))
  {
  }

  lemma RecordFramed(scoped: bool, base: map<string, Value>, st: State, id: string, r: StepResult)
    requires r.success ==> r.error.None?
    ensures Framed(scoped, base, st, Record(st, id, r))
  {
    if id != "" {
      TidyPut(st.results, id, r);
      OverlayPut(base, st.results, id, r);
    }
  }

  lemma OverlayPut(base: map<string, Value>, d: OD.Dict<StepResult>, id: string, r: StepResult)
    ensures Overlay(base, OD.Put(d, id, r)) == Overlay(base, d)[id := Shown(r)]
  {
    OD.PutToMap(d, id, r);
    ShownPut(OD.ToMap(d), id, r);
    UpdateLast(base, ShownMap(OD.ToMap(d)), id, Shown(r));
  }

  lemma ShownPut(m: map<string, StepResult>, id: string, r: StepResult)
    ensures ShownMap(m[id := r]) == ShownMap(m)[id := Shown(r)]
  {
  }

  lemma UpdateLast(base: map<string, Value>, m: map<string, Value>, id: string, v: Value)
    ensures base + m[id := v] == (base + m)[id := v]
  {
  }

  /** Running something inside a scope, then restoring the scope the executor's way. */
  lemma ScopeFramed(scoped: bool, base: map<string, Value>, st: State, name: string, v: Value, loop: Value, after: State)
    requires Framed(scoped, base, SetLoop(SetVar(st, name, v), loop), after)
    ensures Framed(scoped, base, st, SetLoop(RestoreVar(after, name, Lookup(st.ctx.variables, name)), st.ctx.loop))
  {
  }

  lemma VarFramed(scoped: bool, base: map<string, Value>, st: State, name: string, v: Value, after: State)
    requires Framed(scoped, base, SetVar(st, name, v), after)
    ensures Framed(scoped, base, st, RestoreVar(after, name, Lookup(st.ctx.variables, name)))
  {
  }

  lemma FramedTrans(scoped: bool, base: map<string, Value>, s: State, t: State, u: State)
    requires Framed(scoped, base, s, t) && Framed(scoped, base, t, u)
    ensures Framed(scoped, base, s, u)
  {
  }

  lemma AttemptsFramed(env: Env, policies: seq<string>, call: Call, attempt: nat, max: nat, lastError: string, st: State)
    ensures var st' := Attempts(env, policies, call, attempt, max, lastError, st).1;
      st'.ctx == st.ctx && st'.results == st.results && st.log <= st'.log
    decreases max - attempt
  {
  }

  lemma LoopResult(env: Env, depth: nat, policies: seq<string>, body: seq<Step>, until: string, n: int, i: nat,
                   done: seq<StepResult>, outs: seq<Value>, st: State)
    ensures var o := RunLoop(env, depth, policies, body, until, n, i, done, outs, st).0;
      o.Done? ==> o.r.error.None?
    decreases n - i
  {
    if i < n && !st.stopped {
      var (l, st') := RunList(env, depth, policies, Plain, body, done, SetLoop(st, LoopFrame(i)));
      var outs' := if l.children == [] then outs else outs + [LastOutput(l.children)];
      LoopResult(env, depth, policies, body, until, n, i + 1, l.children, outs', st');
    }
  }

  lemma MapResult(env: Env, depth: nat, policies: seq<string>, body: seq<Step>, asVar: string, items: seq<Value>, i: nat,
                  done: seq<StepResult>, st: State)
    ensures var o := RunMap(env, depth, policies, body, asVar, items, i, done, st).0;
      o.Done? ==> o.r.error.None?
    decreases |items| - i
  {
  }

  lemma ActionResult(env: Env, policies: seq<string>, call: Call, attempt: nat, max: nat, lastError: string, st: State)
    ensures var o := Attempts(env, policies, call, attempt, max, lastError, st).0;
      o.Done? && o.r.success ==> o.r.error.None?
    decreases max - attempt
  {
  }

  /** A successful result never carries an error. */
  lemma SuccessHasNoError(env: Env, depth: nat, policies: seq<string>, step: Step, st: State)
    ensures var o := Dispatch(env, depth, policies, step, st).0;
      o.Done? && o.r.success ==> o.r.error.None?
  {
    forall call, max { ActionResult(env, policies, call, 0, max, "", st); }
    if step.kind.Loop? {
      forall n { LoopResult(env, depth, policies, step.kind.body, step.kind.until, n, 0, [], [], st); }
    } else if step.kind.Map? {
      forall items { MapResult(env, depth, policies, step.kind.step, step.kind.asVar, items, 0, [], st); }
    }
  }

  lemma {:induction false} StepFramed(scoped: bool, env: Env, depth: nat, outer: seq<string>, step: Step, st: State, base: map<string, Value>)
    requires scoped ==> ScopedMacros(env) && Everywhere(Scoped, step)
    ensures Framed(scoped, base, st, ExecStep(env, depth, outer, step, st).1)
    decreases depth, step, 2
  {
    DispatchFramed(scoped, env, depth, [step.onError] + outer, step, st, base);
    SuccessHasNoError(env, depth, [step.onError] + outer, step, st);
    var (o, st') := Dispatch(env, depth, [step.onError] + outer, step, st);
    match o
    case Done(r) =>
      RecordFramed(scoped, base, st', step.id, r);
      FramedTrans(scoped, base, st, st', Record(st', step.id, r));
    case Raised(Fails(e)) =>
      RecordFramed(scoped, base, st', step.id, Failed(e));
      FramedTrans(scoped, base, st, st', Record(st', step.id, Failed(e)));
    case Raised(_) =>
  }

  lemma {:induction false} DispatchFramed(scoped: bool, env: Env, depth: nat, policies: seq<string>, step: Step, st: State, base: map<string, Value>)
    requires scoped ==> ScopedMacros(env) && Everywhere(Scoped, step)
    ensures Framed(scoped, base, st, Dispatch(env, depth, policies, step, st).1)
    decreases depth, step, 1
  {
    match InferType(step)
    case ByFallback => ActionFramed(scoped, env, policies, st, base);
    case ByGoto =>
    case ByMacro => MacroFramed(scoped, env, depth, policies, step, st, base);
    case ByKind =>
      match step.kind
      case Action(action, params, max) => ActionFramed(scoped, env, policies, st, base);
      case End(_, _) =>
      case Sequence(steps) => ListFramed(scoped, env, depth, policies, CheckStop, steps, [], st, base);
      case Branch(_, _, _) => BranchFramed(scoped, env, depth, policies, step, st, base);
      case Map(over, asVar, body) =>
        var v := env.resolve(over, st.ctx);
        if v.Ok? && v.value.List? {
          MapFramed(scoped, env, depth, policies, body, asVar, v.value.items, 0, [], st, base);
        }
      case Pipe(stages) => ListFramed(scoped, env, depth, policies, Piped, stages, [], st, base);
      case Loop(max, until, body) =>
        var n := LoopBound(env, max, st.ctx);
        if n.Ok? { LoopFramed(env, depth, policies, body, until, n.value, 0, [], [], st, base); }
      case Try(_, _, _) => TryFramed(scoped, env, depth, policies, step, st, base);
  }

  lemma {:induction false} BranchFramed(scoped: bool, env: Env, depth: nat, policies: seq<string>, step: Step, st: State, base: map<string, Value>)
    requires step.kind.Branch? && (scoped ==> ScopedMacros(env) && Everywhere(Scoped, step))
    ensures Framed(scoped, base, st, ExecBranch(env, depth, policies, step, st).1)
    decreases depth, step, 0
  {
    var v := env.resolve(step.kind.on, st.ctx);
    if v.Ok? {
      var hit := MatchCase(env, step.kind.cases, v.value);
      if hit.Some? {
        ListFramed(scoped, env, depth, policies, Plain, step.kind.cases[hit.value].steps, [], st, base);
      } else {
        ListFramed(scoped, env, depth, policies, Plain, step.kind.default, [], st, base);
      }
    }
  }

  lemma ActionFramed(scoped: bool, env: Env, policies: seq<string>, st: State, base: map<string, Value>)
    ensures forall action, params, max :: Framed(scoped, base, st, ExecAction(env, policies, action, params, max, st).1)
  {
    forall action, params, max
      ensures Framed(scoped, base, st, ExecAction(env, policies, action, params, max, st).1)
    {
      var name, args := env.resolve(Str(action), st.ctx), env.resolve(params, st.ctx);
      if name.Ok? && args.Ok? {
        var parts := SplitAction(env.str(name.value));
        if parts.Some? {
          AttemptsFramed(env, policies, Call(parts.value.0, parts.value.1, args.value), 0, max, "", st);
        }
      }
    }
  }

  lemma {:induction false} MacroFramed(scoped: bool, env: Env, depth: nat, policies: seq<string>, step: Step, st: State, base: map<string, Value>)
    requires scoped ==> ScopedMacros(env)
    ensures Framed(scoped, base, st, ExecMacro(env, depth, policies, step, st).1)
    decreases depth, step, 0
  {
    var given := ResolveParams(env, step.withParams, st.ctx, map[]);
    if step.use !in env.macros || given.Err? || depth == 0 {
      SameFramed(scoped, base, st, ExecMacro(env, depth, policies, step, st).1);
    } else {
      var args := AddDefaults(env.macros[step.use].params, given.value);
      if args.Err? {
        SameFramed(scoped, base, st, ExecMacro(env, depth, policies, step, st).1);
      } else {
        BodyFramed(scoped, env, depth, policies, env.macros[step.use].body, Dict(args.value), st, base);
      }
    }
  }

  lemma SameFramed(scoped: bool, base: map<string, Value>, st: State, st': State)
    requires st'.ctx == st.ctx && st'.results == st.results && st.log <= st'.log
    ensures Framed(scoped, base, st, st')
  {
  }

  lemma {:induction false} BodyFramed(scoped: bool, env: Env, depth: nat, policies: seq<string>, body: seq<Step>, args: Value, st: State, base: map<string, Value>)
    requires depth > 0 && (scoped ==> ScopedMacros(env) && Each(Scoped, body))
    ensures var after := RunList(env, depth - 1, policies, UntilFailure, body, [], SetVar(st, "macro", args)).1;
      Framed(scoped, base, st, RestoreVar(after, "macro", Lookup(st.ctx.variables, "macro")))
    decreases depth - 1, body, 1
  {
    var inside := SetVar(st, "macro", args);
    ListFramed(scoped, env, depth - 1, policies, UntilFailure, body, [], inside, base);
    var after := RunList(env, depth - 1, policies, UntilFailure, body, [], inside).1;
    VarFramed(scoped, base, st, "macro", args, after);
  }

  lemma {:induction false} CatchFramed(scoped: bool, env: Env, depth: nat, policies: seq<string>, step: Step, exc: Option<Signal>, st: State,
                                       base: map<string, Value>)
    requires step.kind.Try? && (scoped ==> ScopedMacros(env) && Everywhere(Scoped, step))
    ensures Framed(scoped, base, st, ExecCatch(env, depth, policies, step, exc, st).2)
    decreases depth, step.kind, 0
  {
    if exc.Some? {
      var hit := MatchCatch(step.kind.catches, exc.value);
      if hit.Some? && step.kind.catches[hit.value].do.Some? {
        StepFramed(scoped, env, depth, policies, step.kind.catches[hit.value].do.value, st, base);
      }
    }
  }

  lemma {:induction false} TryFramed(scoped: bool, env: Env, depth: nat, policies: seq<string>, step: Step, st: State, base: map<string, Value>)
    requires step.kind.Try? && (scoped ==> ScopedMacros(env) && Everywhere(Scoped, step))
    ensures Framed(scoped, base, st, ExecTry(env, depth, policies, step, st).1)
    decreases depth, step, 0
  {
    var (body, st1) := RunList(env, depth, policies, UntilFailure, step.kind.tries, [], st);
    var st2 := ExecCatch(env, depth, policies, step, TryException(body), st1).2;
    var st3 := RunList(env, depth, policies, Plain, step.kind.finals, [], st2).1;
    ListFramed(scoped, env, depth, policies, UntilFailure, step.kind.tries, [], st, base);
    CatchFramed(scoped, env, depth, policies, step, TryException(body), st1, base);
    ListFramed(scoped, env, depth, policies, Plain, step.kind.finals, [], st2, base);
    FramedTrans(scoped, base, st, st1, st2);
    FramedTrans(scoped, base, st, st2, st3);
  }

  lemma {:induction false} ListFramed(scoped: bool, env: Env, depth: nat, policies: seq<string>, mode: Mode, steps: seq<Step>, done: seq<StepResult>,
                                      st: State, base: map<string, Value>)
    requires scoped ==> ScopedMacros(env) && Each(Scoped, steps) && mode != Piped
    ensures Framed(scoped, base, st, RunList(env, depth, policies, mode, steps, done, st).1)
    decreases depth, steps, 0
  {
    if steps != [] && !(mode == CheckStop && st.stopped) {
      var before := BeforeChild(mode, done, st);
      StepFramed(scoped, env, depth, policies, steps[0], before, base);
      FramedTrans(scoped, base, st, before, ExecStep(env, depth, policies, steps[0], before).1);
      match ExecStep(env, depth, policies, steps[0], before)
      case (Raised(_), _) =>
      case (Done(r), st') =>
        if !StopsAfter(mode, r) {
          ListFramed(scoped, env, depth, policies, mode, steps[1..], done + [r], st', base);
          FramedTrans(scoped, base, st, st', RunList(env, depth, policies, mode, steps[1..], done + [r], st').1);
        }
    }
  }

  lemma {:induction false} MapFramed(scoped: bool, env: Env, depth: nat, policies: seq<string>, body: seq<Step>, asVar: string, items: seq<Value>, i: nat,
                                     done: seq<StepResult>, st: State, base: map<string, Value>)
    requires scoped ==> ScopedMacros(env) && Each(Scoped, body)
    ensures Framed(scoped, base, st, RunMap(env, depth, policies, body, asVar, items, i, done, st).1)
    decreases depth, body, 2, |items| - i
  {
    if i < |items| {
      var inside := SetLoop(SetVar(st, asVar, items[i]), ItemFrame(i, items[i]));
      ListFramed(scoped, env, depth, policies, Plain, body, [], inside, base);
      ScopeFramed(scoped, base, st, asVar, items[i], ItemFrame(i, items[i]), RunList(env, depth, policies, Plain, body, [], inside).1);
      var (l, st1) := RunItem(env, depth, policies, body, asVar, items[i], i, st);
      if l.signal.None? {
        var r := Aggregate(l.children, LastOutput(l.children)).r;
        MapFramed(scoped, env, depth, policies, body, asVar, items, i + 1, done + [r], st1, base);
        FramedTrans(scoped, base, st, st1, RunMap(env, depth, policies, body, asVar, items, i + 1, done + [r], st1).1);
      }
    }
  }

  lemma {:induction false} LoopFramed(env: Env, depth: nat, policies: seq<string>, body: seq<Step>, until: string, n: int, i: nat,
                                      done: seq<StepResult>, outs: seq<Value>, st: State, base: map<string, Value>)
    ensures Framed(false, base, st, RunLoop(env, depth, policies, body, until, n, i, done, outs, st).1)
    decreases depth, body, 1, n - i
  {
    if i < n && !st.stopped {
      var inside := SetLoop(st, LoopFrame(i));
      ListFramed(false, env, depth, policies, Plain, body, done, inside, base);
      var (l, st') := RunList(env, depth, policies, Plain, body, done, inside);
      var outs' := if l.children == [] then outs else outs + [LastOutput(l.children)];
      FramedTrans(false, base, st, inside, st');
      var again := if until == "" then Ok(false) else env.condition(until, st'.ctx);
      if l.signal.None? && again == Ok(false) {
        LoopFramed(env, depth, policies, body, until, n, i + 1, l.children, outs', st', base);
        var after := RunLoop(env, depth, policies, body, until, n, i + 1, l.children, outs', st').1;
        assert RunLoop(env, depth, policies, body, until, n, i, done, outs, st).1 == after;
        FramedTrans(false, base, st, st', after);
      } else {
        var after := RunLoop(env, depth, policies, body, until, n, i, done, outs, st).1;
        assert after.ctx == st'.ctx && after.results == st'.results;
      }
    }
  }

  // ---- The frame theorem, and what a map computes ----

  /** On every exit a scoped step leaves each `variables.get` answer and the loop context as found, and
      the variables themselves unchanged unless one of them held None. */
  lemma FrameTheorem(env: Env, depth: nat, outer: seq<string>, step: Step, st: State)
    requires ScopedMacros(env) && Everywhere(Scoped, step)
    ensures var after := ExecStep(env, depth, outer, step, st).1.ctx;
      && after.loop == st.ctx.loop
      && (forall k :: Lookup(after.variables, k) == Lookup(st.ctx.variables, k))
      && (Null !in st.ctx.variables.Values ==> after.variables == st.ctx.variables)
  {
    StepFramed(true, env, depth, outer, step, st, map[]);
    var before, after := st.ctx.variables, ExecStep(env, depth, outer, step, st).1.ctx.variables;
    if Null !in before.Values {
      forall k | k in before ensures k in after { assert before[k] in before.Values; }
    }
  }

  /** The state in which a map starts on item `k`. */
  ghost function StateAt(env: Env, depth: nat, policies: seq<string>, body: seq<Step>, asVar: string, items: seq<Value>, st: State, k: nat): State
    requires k <= |items|
  {
    if k == 0 then st
    else RunItem(env, depth, policies, body, asVar, items[k - 1], k - 1, StateAt(env, depth, policies, body, asVar, items, st, k - 1)).1
  }

  /** `r` is what running the body on item `k` gives, in the state the map has reached by then. */
  ghost predicate IsItemResult(env: Env, depth: nat, policies: seq<string>, body: seq<Step>, asVar: string, items: seq<Value>, st0: State,
                               k: nat, r: StepResult)
    requires k < |items|
  {
    var l := RunItem(env, depth, policies, body, asVar, items[k], k, StateAt(env, depth, policies, body, asVar, items, st0, k)).0;
    l.signal.None? && Done(r) == Aggregate(l.children, LastOutput(l.children))
  }

  /** `o` is the end of a map that had the results `done` before item `i`: what the map goes on to compute. */
  ghost predicate MapEnds(env: Env, depth: nat, policies: seq<string>, body: seq<Step>, asVar: string, items: seq<Value>, st0: State,
                          i: nat, done: seq<StepResult>, o: Outcome, st': State)
    requires o.Done?
  {
    && st' == StateAt(env, depth, policies, body, asVar, items, st0, |items|)
    && |o.r.children| == |items| && done <= o.r.children && o.r.output == List(Outputs(o.r.children))
    && forall k | i <= k < |items| :: IsItemResult(env, depth, policies, body, asVar, items, st0, k, o.r.children[k])
  }

  lemma MapStep(env: Env, depth: nat, policies: seq<string>, body: seq<Step>, asVar: string, items: seq<Value>, st0: State,
                i: nat, done: seq<StepResult>, r: StepResult, o: Outcome, st': State)
    requires o.Done? && i == |done| < |items| && IsItemResult(env, depth, policies, body, asVar, items, st0, i, r)
    requires MapEnds(env, depth, policies, body, asVar, items, st0, i + 1, done + [r], o, st')
    ensures MapEnds(env, depth, policies, body, asVar, items, st0, i, done, o, st')
  {
    assert o.r.children[i] == (done + [r])[i] == r;
    assert done <= done + [r] <= o.r.children;
  }

  /** A map that ends normally has one child, and one output, per item and in the items' order. */
  lemma {:induction false} MapInOrder(env: Env, depth: nat, policies: seq<string>, body: seq<Step>, asVar: string, items: seq<Value>,
                                      i: nat, done: seq<StepResult>, st: State, st0: State)
    requires i == |done| <= |items| && st == StateAt(env, depth, policies, body, asVar, items, st0, i)
    ensures var (o, st') := RunMap(env, depth, policies, body, asVar, items, i, done, st);
      o.Done? ==> MapEnds(env, depth, policies, body, asVar, items, st0, i, done, o, st')
    decreases |items| - i
  {
    if i < |items| {
      var (l, st1) := RunItem(env, depth, policies, body, asVar, items[i], i, st);
      if l.signal.None? {
        var r := Aggregate(l.children, LastOutput(l.children)).r;
        var (o, st') := RunMap(env, depth, policies, body, asVar, items, i + 1, done + [r], st1);
        MapInOrder(env, depth, policies, body, asVar, items, i + 1, done + [r], st1, st0);
        if o.Done? {
          MapStep(env, depth, policies, body, asVar, items, st0, i, done, r, o, st');
        }
      }
    }
  }
}
