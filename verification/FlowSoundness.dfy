/** A flow that the compiler accepts never jumps nowhere, and never calls a macro wrongly. */
module FlowSoundness {
  import opened Values
  import opened FlowModel
  import opened FlowShapes
  import S = FlowSemantics
  import C = FlowChecks
  import opened FlowWitnesses

  // ---- What the checks give ----

  ghost predicate TopIds(steps: seq<Step>, ids: set<string>) {
    forall id :: id in ids <==> id != "" && exists k :: 0 <= k < |steps| && steps[k].id == id
  }

  /** The checks that `compile_dict` runs on a flow; without macros the macro check is skipped. */
  ghost predicate Accepted(steps: seq<Step>, macros: map<string, Macro>, topIds: set<string>) {
    && C.Report(C.GotoTargets(topIds), C.Visit(false, steps), [], {}).0 == []
    && (macros != map[] ==> C.Report(C.MacroRefs(macros), C.Visit(true, steps), [], {}).0 == [])
  }

  /** No template in the target. */
  predicate StaticGoto(step: Step) {
    !IsInfix("{{", step.goto)
  }

  /** Runs as an accepted goto, or not as a goto. */
  ghost predicate GoodGoto(topIds: set<string>, step: Step) {
    InferType(step).ByGoto? ==> StaticGoto(step) && step.goto in topIds
  }

  ghost predicate GoodUse(macros: map<string, Macro>, step: Step) {
    step.use != "" ==> step.use in macros && C.MacroErrors(macros, step) == []
  }

  ghost predicate Good(topIds: set<string>, macros: map<string, Macro>, step: Step) {
    GoodGoto(topIds, step) && GoodUse(macros, step)
  }

  ghost function GoodIn(topIds: set<string>, macros: map<string, Macro>): Step -> bool {
    s => Good(topIds, macros, s)
  }

  ghost function GotoIn(topIds: set<string>): Step -> bool {
    s => GoodGoto(topIds, s)
  }

  /** What the walkers do not see is as good as what they see: a target without a template, jumps inside
      maps, and everything inside catch clauses. */
  ghost predicate HiddenGood(topIds: set<string>, macros: map<string, Macro>, s: Step) {
    && (InferType(s).ByGoto? ==> StaticGoto(s))
    && (s.kind.Map? ==> Each(GotoIn(topIds), s.kind.step))
    && (s.kind.Try? ==> forall k | 0 <= k < |s.kind.catches| && s.kind.catches[k].do.Some? ::
          Everywhere(GoodIn(topIds, macros), s.kind.catches[k].do.value))
  }

  ghost function HiddenIn(topIds: set<string>, macros: map<string, Macro>): Step -> bool {
    s => HiddenGood(topIds, macros, s)
  }

  ghost const NoUse: Step -> bool := (s: Step) => s.use == ""

  /** The two facts the checks give about a visited step. */
  ghost predicate GotoSeen(topIds: set<string>, vs: seq<Step>) {
    forall v | v in vs :: C.SkipsGoto(v.goto) || v.goto in topIds
  }

  ghost predicate UseSeen(macros: map<string, Macro>, vs: seq<Step>) {
    forall v | v in vs :: C.MacroErrors(macros, v) == []
  }

  lemma GotoReport(topIds: set<string>, vs: seq<Step>)
    ensures C.Report(C.GotoTargets(topIds), vs, [], {}).0 == [] <==> GotoSeen(topIds, vs)
  {
    C.CleanReport(C.GotoTargets(topIds), vs, {});
    assert forall k | 0 <= k < |vs| :: C.OwnErrors(C.GotoTargets(topIds), vs[k], {}) == [] <==> C.SkipsGoto(vs[k].goto) || vs[k].goto in topIds;
  }

  lemma UseReport(macros: map<string, Macro>, vs: seq<Step>)
    ensures C.Report(C.MacroRefs(macros), vs, [], {}).0 == [] <==> UseSeen(macros, vs)
  {
    C.CleanReport(C.MacroRefs(macros), vs, {});
    assert forall k | 0 <= k < |vs| :: C.OwnErrors(C.MacroRefs(macros), vs[k], {}) == C.MacroErrors(macros, vs[k]);
  }

  lemma AcceptedSeen(steps: seq<Step>, macros: map<string, Macro>, topIds: set<string>)
    ensures Accepted(steps, macros, topIds)
      <==> GotoSeen(topIds, C.Visit(false, steps)) && (macros != map[] ==> UseSeen(macros, C.Visit(true, steps)))
  {
    GotoReport(topIds, C.Visit(false, steps));
    UseReport(macros, C.Visit(true, steps));
  }

  lemma StaticNotTemplate(step: Step)
    requires StaticGoto(step)
    ensures C.SkipsGoto(step.goto) ==> step.goto == ""
  {
  }

  /** Visited steps are good everywhere if what is hidden is. Below a map (`inMap`) only uses are visited. */
  lemma {:induction false} SeenGood(topIds: set<string>, macros: map<string, Macro>, steps: seq<Step>, inMap: bool)
    requires Each(HiddenIn(topIds, macros), steps) && UseSeen(macros, C.Visit(true, steps))
    requires if inMap then Each(GotoIn(topIds), steps) else GotoSeen(topIds, C.Visit(false, steps))
    ensures Each(GoodIn(topIds, macros), steps)
    decreases steps, 1
  {
    if steps != [] {
      assert C.Visit(false, steps) == [steps[0]] + C.Inside(false, steps[0].kind) + C.Visit(false, steps[1..]);
      assert C.Visit(true, steps) == [steps[0]] + C.Inside(true, steps[0].kind) + C.Visit(true, steps[1..]);
      assert steps[0] in C.Visit(true, steps) && (!inMap ==> steps[0] in C.Visit(false, steps));
      if InferType(steps[0]).ByGoto? { StaticNotTemplate(steps[0]); }
      InsideGood(topIds, macros, steps[0], inMap);
      SeenGood(topIds, macros, steps[1..], inMap);
    }
  }

  lemma {:induction false} InsideGood(topIds: set<string>, macros: map<string, Macro>, step: Step, inMap: bool)
    requires Everywhere(HiddenIn(topIds, macros), step) && UseSeen(macros, C.Inside(true, step.kind))
    requires if inMap then Everywhere(GotoIn(topIds), step) else GotoSeen(topIds, C.Inside(false, step.kind))
    requires Good(topIds, macros, step)
    ensures Everywhere(GoodIn(topIds, macros), step)
    decreases step
  {
    match step.kind
    case Sequence(steps) => SeenGood(topIds, macros, steps, inMap);
    case Branch(_, cases, default) =>
      SeenGood(topIds, macros, default, inMap);
      CasesGood(topIds, macros, cases, inMap);
    case Loop(_, _, body) => SeenGood(topIds, macros, body, inMap);
    case Map(_, _, body) => SeenGood(topIds, macros, body, true);
    case Pipe(stages) => SeenGood(topIds, macros, stages, inMap);
    case Try(tries, _, finals) =>
      SeenGood(topIds, macros, tries, inMap);
      SeenGood(topIds, macros, finals, inMap);
    case _ =>
  }

  lemma {:induction false} CasesGood(topIds: set<string>, macros: map<string, Macro>, cases: seq<Case>, inMap: bool)
    requires forall k | 0 <= k < |cases| :: Each(HiddenIn(topIds, macros), cases[k].steps)
    requires UseSeen(macros, C.InCases(true, cases))
    requires if inMap then forall k | 0 <= k < |cases| :: Each(GotoIn(topIds), cases[k].steps) else GotoSeen(topIds, C.InCases(false, cases))
    ensures forall k | 0 <= k < |cases| :: Each(GoodIn(topIds, macros), cases[k].steps)
    decreases cases
  {
    if cases != [] {
      assert C.InCases(true, cases) == C.Visit(true, cases[0].steps) + C.InCases(true, cases[1..]);
      assert C.InCases(false, cases) == C.Visit(false, cases[0].steps) + C.InCases(false, cases[1..]);
      SeenGood(topIds, macros, cases[0].steps, inMap);
      CasesGood(topIds, macros, cases[1..], inMap);
      forall k | 0 < k < |cases| ensures cases[k] == cases[1..][k - 1] {}
    }
  }

  /** What holds of every step holds of the visited ones. */
  lemma {:induction false} VisitedAre(p: Step -> bool, maps: bool, steps: seq<Step>)
    requires Each(p, steps)
    ensures forall v | v in C.Visit(maps, steps) :: p(v)
    decreases steps, 1
  {
    if steps != [] {
      InsideAre(p, maps, steps[0]);
      VisitedAre(p, maps, steps[1..]);
    }
  }

  lemma {:induction false} InsideAre(p: Step -> bool, maps: bool, step: Step)
    requires Everywhere(p, step)
    ensures forall v | v in C.Inside(maps, step.kind) :: p(v)
    decreases step
  {
    match step.kind
    case Sequence(steps) => VisitedAre(p, maps, steps);
    case Branch(_, cases, default) =>
      CasesAre(p, maps, cases);
      VisitedAre(p, maps, default);
    case Loop(_, _, body) => VisitedAre(p, maps, body);
    case Map(_, _, body) => VisitedAre(p, maps, body);
    case Pipe(stages) => VisitedAre(p, maps, stages);
    case Try(tries, _, finals) =>
      VisitedAre(p, maps, tries);
      VisitedAre(p, maps, finals);
    case _ =>
  }

  lemma {:induction false} CasesAre(p: Step -> bool, maps: bool, cases: seq<Case>)
    requires forall k | 0 <= k < |cases| :: Each(p, cases[k].steps)
    ensures forall v | v in C.InCases(maps, cases) :: p(v)
    decreases cases
  {
    if cases != [] {
      VisitedAre(p, maps, cases[0].steps);
      CasesAre(p, maps, cases[1..]);
    }
  }

  /** Hidden parts of good trees are good. */
  lemma {:induction false} GoodHidden(topIds: set<string>, macros: map<string, Macro>, steps: seq<Step>)
    requires Each(GoodIn(topIds, macros), steps)
    ensures Each(HiddenIn(topIds, macros), steps)
    decreases steps, 1
  {
    if steps != [] {
      GoodHiddenStep(topIds, macros, steps[0]);
      GoodHidden(topIds, macros, steps[1..]);
    }
  }

  lemma {:induction false} GoodHiddenStep(topIds: set<string>, macros: map<string, Macro>, step: Step)
    requires Everywhere(GoodIn(topIds, macros), step)
    ensures Everywhere(HiddenIn(topIds, macros), step)
    decreases step
  {
    assert GoodIn(topIds, macros)(step);
    match step.kind
    case Sequence(steps) => GoodHidden(topIds, macros, steps);
    case Branch(_, cases, default) =>
      forall k | 0 <= k < |cases| { GoodHidden(topIds, macros, cases[k].steps); }
      GoodHidden(topIds, macros, default);
    case Loop(_, _, body) => GoodHidden(topIds, macros, body);
    case Map(_, _, body) =>
      GoodHidden(topIds, macros, body);
      EachImplies(GoodIn(topIds, macros), GotoIn(topIds), body);
    case Pipe(stages) => GoodHidden(topIds, macros, stages);
    case Try(tries, catches, finals) =>
      GoodHidden(topIds, macros, tries);
      forall k | 0 <= k < |catches| && catches[k].do.Some? { GoodHiddenStep(topIds, macros, catches[k].do.value); }
      GoodHidden(topIds, macros, finals);
    case _ =>
  }

  /** What the checks establish, exactly: every step of an accepted flow is good if and only if its hidden
      parts are and, where the macro check is skipped, no macro is called. */
  lemma AcceptedGood(steps: seq<Step>, macros: map<string, Macro>, topIds: set<string>)
    requires Accepted(steps, macros, topIds)
    ensures Each(GoodIn(topIds, macros), steps)
      <==> Each(HiddenIn(topIds, macros), steps) && (macros == map[] ==> Each(NoUse, steps))
  {
    AcceptedSeen(steps, macros, topIds);
    if Each(GoodIn(topIds, macros), steps) {
      GoodHidden(topIds, macros, steps);
      if macros == map[] { EachImplies(GoodIn(topIds, macros), NoUse, steps); }
    }
    if Each(HiddenIn(topIds, macros), steps) && (macros == map[] ==> Each(NoUse, steps)) {
      if macros == map[] { VisitedAre(NoUse, true, steps); }
      SeenGood(topIds, macros, steps, false);
    }
  }

  // ---- Runs of good steps ----

  /** A template without braces resolves to itself, and a string prints as itself. */
  ghost predicate PlainText(env: S.Env) {
    forall s, ctx :: !IsInfix("{{", s) ==> env.resolve(Str(s), ctx) == Ok(Str(s)) && env.str(Str(s)) == s
  }

  ghost predicate GoodMacros(topIds: set<string>, env: S.Env) {
    forall m | m in env.macros :: Each(GoodIn(topIds, env.macros), env.macros[m].body)
  }

  ghost predicate GoodEvent(topIds: set<string>, e: S.Event) {
    && !e.UnknownMacro? && !e.MissingParam?
    && (e.Jumped? ==> e.target in topIds)
  }

  ghost predicate GoodLog(topIds: set<string>, st: S.State) {
    forall e | e in st.log :: GoodEvent(topIds, e)
  }

  ghost predicate GoodSignal(topIds: set<string>, s: Option<S.Signal>) {
    s.Some? && s.value.Jumps? ==> s.value.target in topIds
  }

  /** Good log in, good log out, and no jump elsewhere than to `topIds`. */
  ghost predicate Sound(topIds: set<string>, st: S.State, signal: Option<S.Signal>, st': S.State) {
    GoodLog(topIds, st) ==> GoodLog(topIds, st') && GoodSignal(topIds, signal)
  }

  lemma ResolvedKeys(env: S.Env, params: seq<(string, Value)>, ctx: S.Ctx, acc: map<string, Value>)
    ensures var r := S.ResolveParams(env, params, ctx, acc);
      r.Ok? ==> r.value.Keys == acc.Keys + C.ParamNames(params)
  {
    if params != [] {
      var v := env.resolve(params[0].1, ctx);
      if v.Ok? {
        ResolvedKeys(env, params[1..], ctx, acc[params[0].0 := v.value]);
        assert C.ParamNames(params) == {params[0].0} + C.ParamNames(params[1..]) by {
          forall n | n in C.ParamNames(params) ensures n in {params[0].0} + C.ParamNames(params[1..]) {
            var k :| 0 <= k < |params| && params[k].0 == n;
            if k > 0 { assert params[1..][k - 1].0 == n; }
          }
          forall n | n in C.ParamNames(params[1..]) ensures n in C.ParamNames(params) {
            var k :| 0 <= k < |params[1..]| && params[1..][k].0 == n;
            assert params[k + 1].0 == n;
          }
        }
      }
    } else {
      assert C.ParamNames(params) == {};
    }
  }

  lemma {:induction false} DefaultsOk(params: seq<(string, MacroParam)>, provided: set<string>, given: map<string, Value>, name: string, at: string)
    requires provided <= given.Keys && C.MissingParams(params, provided, name, at) == []
    ensures S.AddDefaults(params, given).Ok?
  {
    if params != [] {
      var (p, def) := params[0];
      DefaultsOk(params[1..], provided, if p !in given && def.default != Null then given[p := def.default] else given, name, at);
    }
  }

  lemma {:induction false} DefaultsMissing(params: seq<(string, MacroParam)>, provided: set<string>, given: map<string, Value>, name: string, at: string)
    requires forall i, j | 0 <= i < j < |params| :: params[i].0 != params[j].0
    requires forall i | 0 <= i < |params| :: params[i].0 in given <==> params[i].0 in provided
    requires S.AddDefaults(params, given).Ok?
    ensures C.MissingParams(params, provided, name, at) == []
  {
    if params != [] {
      var (p, def) := params[0];
      var given' := if p !in given && def.default != Null then given[p := def.default] else given;
      forall i | 0 <= i < |params[1..]| ensures params[1..][i] == params[i + 1] {}
      DefaultsMissing(params[1..], provided, given', name, at);
    }
  }

  /** The static check of a call's required parameters reports nothing exactly when no run misses one. */
  lemma RequiredParamsExact(env: S.Env, params: seq<(string, MacroParam)>, given: seq<(string, Value)>, ctx: S.Ctx, name: string, at: string)
    requires forall i, j | 0 <= i < j < |params| :: params[i].0 != params[j].0
    requires S.ResolveParams(env, given, ctx, map[]).Ok?
    ensures C.MissingParams(params, C.ParamNames(given), name, at) == []
      <==> S.AddDefaults(params, S.ResolveParams(env, given, ctx, map[]).value).Ok?
  {
    var args := S.ResolveParams(env, given, ctx, map[]).value;
    ResolvedKeys(env, given, ctx, map[]);
    if C.MissingParams(params, C.ParamNames(given), name, at) == [] {
      DefaultsOk(params, C.ParamNames(given), args, name, at);
    }
    if S.AddDefaults(params, args).Ok? {
      DefaultsMissing(params, C.ParamNames(given), args, name, at);
    }
  }

  lemma AttemptsSound(topIds: set<string>, env: S.Env, policies: seq<string>, call: S.Call, attempt: nat, max: nat, lastError: string, st: S.State)
    ensures var (o, st') := S.Attempts(env, policies, call, attempt, max, lastError, st); Sound(topIds, st, S.SignalOf(o), st')
    decreases max - attempt
  {
  }

  lemma ActionSound(topIds: set<string>, env: S.Env, policies: seq<string>, action: string, params: Value, max: nat, st: S.State)
    ensures var (o, st') := S.ExecAction(env, policies, action, params, max, st); Sound(topIds, st, S.SignalOf(o), st')
  {
    var name, args := env.resolve(Str(action), st.ctx), env.resolve(params, st.ctx);
    if name.Ok? && args.Ok? {
      var parts := S.SplitAction(env.str(name.value));
      if parts.Some? {
        AttemptsSound(topIds, env, policies, S.Call(parts.value.0, parts.value.1, args.value), 0, max, "", st);
      }
    }
  }

  lemma {:induction false} StepSound(topIds: set<string>, env: S.Env, depth: nat, outer: seq<string>, step: Step, st: S.State)
    requires PlainText(env) && GoodMacros(topIds, env) && Everywhere(GoodIn(topIds, env.macros), step)
    ensures var (o, st') := S.ExecStep(env, depth, outer, step, st); Sound(topIds, st, S.SignalOf(o), st')
    decreases depth, step, 2
  {
    DispatchSound(topIds, env, depth, [step.onError] + outer, step, st);
  }

  lemma {:induction false} DispatchSound(topIds: set<string>, env: S.Env, depth: nat, policies: seq<string>, step: Step, st: S.State)
    requires PlainText(env) && GoodMacros(topIds, env) && Everywhere(GoodIn(topIds, env.macros), step)
    ensures var (o, st') := S.Dispatch(env, depth, policies, step, st); Sound(topIds, st, S.SignalOf(o), st')
    decreases depth, step, 1
  {
    assert Good(topIds, env.macros, step);
    match InferType(step)
    case ByFallback =>
      if step.kind.Action? {
        ActionSound(topIds, env, policies, "", step.kind.params, step.kind.maxAttempts, st);
      } else {
        ActionSound(topIds, env, policies, "", Dict(map[]), 1, st);
      }
    case ByGoto => assert env.resolve(Str(step.goto), st.ctx) == Ok(Str(step.goto));
    case ByMacro => MacroSound(topIds, env, depth, policies, step, st);
    case ByKind =>
      match step.kind
      case Action(action, params, max) => ActionSound(topIds, env, policies, action, params, max, st);
      case End(status, output) =>
      case Sequence(steps) => ListSound(topIds, env, depth, policies, S.CheckStop, steps, [], st);
      case Branch(_, _, _) => BranchSound(topIds, env, depth, policies, step, st);
      case Pipe(stages) => ListSound(topIds, env, depth, policies, S.Piped, stages, [], st);
      case Loop(max, until, body) =>
        var n := S.LoopBound(env, max, st.ctx);
        if n.Ok? { LoopSound(topIds, env, depth, policies, body, until, n.value, 0, [], [], st); }
      case Map(over, asVar, body) =>
        var v := env.resolve(over, st.ctx);
        if v.Ok? && v.value.List? { MapSound(topIds, env, depth, policies, body, asVar, v.value.items, 0, [], st); }
      case Try(_, _, _) => TrySound(topIds, env, depth, policies, step, st);
  }

  lemma {:induction false} BranchSound(topIds: set<string>, env: S.Env, depth: nat, policies: seq<string>, step: Step, st: S.State)
    requires step.kind.Branch? && PlainText(env) && GoodMacros(topIds, env) && Everywhere(GoodIn(topIds, env.macros), step)
    ensures var (o, st') := S.ExecBranch(env, depth, policies, step, st); Sound(topIds, st, S.SignalOf(o), st')
    decreases depth, step, 0
  {
    var v := env.resolve(step.kind.on, st.ctx);
    if v.Ok? {
      var hit := S.MatchCase(env, step.kind.cases, v.value);
      ListSound(topIds, env, depth, policies, S.Plain, if hit.Some? then step.kind.cases[hit.value].steps else step.kind.default, [], st);
    }
  }

  lemma {:induction false} MacroSound(topIds: set<string>, env: S.Env, depth: nat, policies: seq<string>, step: Step, st: S.State)
    requires PlainText(env) && GoodMacros(topIds, env) && step.use != "" && GoodUse(env.macros, step)
    ensures var (o, st') := S.ExecMacro(env, depth, policies, step, st); Sound(topIds, st, S.SignalOf(o), st')
    decreases depth, step, 0
  {
    var mac := env.macros[step.use];
    var given := S.ResolveParams(env, step.withParams, st.ctx, map[]);
    if given.Ok? {
      ResolvedKeys(env, step.withParams, st.ctx, map[]);
      DefaultsOk(mac.params, C.ParamNames(step.withParams), given.value, step.use, step.id);
      if depth > 0 {
        var args := S.AddDefaults(mac.params, given.value).value;
        ListSound(topIds, env, depth - 1, policies, S.UntilFailure, mac.body, [], S.SetVar(st, "macro", Dict(args)));
      }
    }
  }

  lemma {:induction false} TrySound(topIds: set<string>, env: S.Env, depth: nat, policies: seq<string>, step: Step, st: S.State)
    requires step.kind.Try? && PlainText(env) && GoodMacros(topIds, env) && Everywhere(GoodIn(topIds, env.macros), step)
    ensures var (o, st') := S.ExecTry(env, depth, policies, step, st); Sound(topIds, st, S.SignalOf(o), st')
    decreases depth, step, 0
  {
    ListSound(topIds, env, depth, policies, S.UntilFailure, step.kind.tries, [], st);
    var (body, st1) := S.RunList(env, depth, policies, S.UntilFailure, step.kind.tries, [], st);
    var exc := S.TryException(body);
    if exc.Some? {
      var hit := S.MatchCatch(step.kind.catches, exc.value);
      if hit.Some? && step.kind.catches[hit.value].do.Some? {
        StepSound(topIds, env, depth, policies, step.kind.catches[hit.value].do.value, st1);
      }
    }
    var (_, pending, st2) := S.ExecCatch(env, depth, policies, step, exc, st1);
    assert Sound(topIds, st, pending, st2);
    ListSound(topIds, env, depth, policies, S.Plain, step.kind.finals, [], st2);
  }

  lemma {:induction false} ListSound(topIds: set<string>, env: S.Env, depth: nat, policies: seq<string>, mode: S.Mode, steps: seq<Step>,
                                     done: seq<S.StepResult>, st: S.State)
    requires PlainText(env) && GoodMacros(topIds, env) && Each(GoodIn(topIds, env.macros), steps)
    ensures var (l, st') := S.RunList(env, depth, policies, mode, steps, done, st); Sound(topIds, st, l.signal, st')
    decreases depth, steps, 0
  {
    if steps != [] && !(mode == S.CheckStop && st.stopped) {
      StepSound(topIds, env, depth, policies, steps[0], S.BeforeChild(mode, done, st));
      match S.ExecStep(env, depth, policies, steps[0], S.BeforeChild(mode, done, st))
      case (Raised(_), _) =>
      case (Done(r), st') =>
        if !S.StopsAfter(mode, r) {
          ListSound(topIds, env, depth, policies, mode, steps[1..], done + [r], st');
        }
    }
  }

  lemma {:induction false} LoopSound(topIds: set<string>, env: S.Env, depth: nat, policies: seq<string>, body: seq<Step>, until: string, n: int, i: nat,
                                     done: seq<S.StepResult>, outs: seq<Value>, st: S.State)
    requires PlainText(env) && GoodMacros(topIds, env) && Each(GoodIn(topIds, env.macros), body)
    ensures var (o, st') := S.RunLoop(env, depth, policies, body, until, n, i, done, outs, st); Sound(topIds, st, S.SignalOf(o), st')
    decreases depth, body, 1, n - i
  {
    if i < n && !st.stopped {
      var inside := S.SetLoop(st, S.LoopFrame(i));
      ListSound(topIds, env, depth, policies, S.Plain, body, done, inside);
      var (l, st') := S.RunList(env, depth, policies, S.Plain, body, done, inside);
      var outs' := if l.children == [] then outs else outs + [S.LastOutput(l.children)];
      LoopSound(topIds, env, depth, policies, body, until, n, i + 1, l.children, outs', st');
    }
  }

  lemma {:induction false} MapSound(topIds: set<string>, env: S.Env, depth: nat, policies: seq<string>, body: seq<Step>, asVar: string, items: seq<Value>, i: nat,
                                    done: seq<S.StepResult>, st: S.State)
    requires PlainText(env) && GoodMacros(topIds, env) && Each(GoodIn(topIds, env.macros), body)
    ensures var (o, st') := S.RunMap(env, depth, policies, body, asVar, items, i, done, st); Sound(topIds, st, S.SignalOf(o), st')
    decreases depth, body, 2, |items| - i
  {
    if i < |items| {
      var inside := S.SetLoop(S.SetVar(st, asVar, items[i]), S.ItemFrame(i, items[i]));
      ListSound(topIds, env, depth, policies, S.Plain, body, [], inside);
      var (l, st1) := S.RunItem(env, depth, policies, body, asVar, items[i], i, st);
      if l.signal.None? {
        var r := S.Aggregate(l.children, S.LastOutput(l.children)).r;
        MapSound(topIds, env, depth, policies, body, asVar, items, i + 1, done + [r], st1);
      }
    }
  }

  // ---- Whole flows ----

  lemma {:induction false} RunSound(topIds: set<string>, env: S.Env, depth: nat, keep: bool, steps: seq<Step>, i: nat, jumps: nat, st: S.State,
                                    kv: Option<S.Checkpoint>, ran: nat)
    requires PlainText(env) && GoodMacros(topIds, env) && Each(GoodIn(topIds, env.macros), steps) && TopIds(steps, topIds)
    requires jumps <= S.MAX_GOTO_JUMPS && GoodLog(topIds, st)
    ensures var run := S.RunFrom(env, depth, keep, steps, i, jumps, st, kv, ran); GoodLog(topIds, run.st) && !run.end.NoTarget?
    decreases S.MAX_GOTO_JUMPS - jumps, |steps| - i
  {
    if i < |steps| && !st.stopped {
      EachAt(GoodIn(topIds, env.macros), steps, i);
      StepSound(topIds, env, depth, [], steps[i], st);
      var (o, st') := S.ExecStep(env, depth, [], steps[i], st);
      match o
      case Done(_) =>
        RunSound(topIds, env, depth, keep, steps, i + 1, jumps, st', if keep then Some(S.MakeCheckpoint(env, st', i + 1)) else kv, ran + 1);
      case Raised(Jumps(target)) =>
        var at := S.StepIndex(steps, target);
        if jumps + 1 <= S.MAX_GOTO_JUMPS && at.Some? {
          RunSound(topIds, env, depth, keep, steps, at.value, jumps + 1, st', kv, ran + 1);
        }
      case _ =>
    }
  }

  /** Soundness of the static checks. Take a flow that the goto and macro checks accept, which calls no macro
      if none is defined, whose hidden parts are as good as the visited ones, and so are the macro bodies.
      Then no run of it, resumed or not, fails to find a goto target or a macro, or misses a required parameter. */
  lemma CheckSoundness(env: S.Env, steps: seq<Step>, topIds: set<string>, depth: nat, keep: bool, resume: bool, st: S.State, kv: Option<S.Checkpoint>)
    requires TopIds(steps, topIds) && Accepted(steps, env.macros, topIds)
    requires env.macros == map[] ==> Each(NoUse, steps)
    requires Each(HiddenIn(topIds, env.macros), steps) && GoodMacros(topIds, env)
    requires PlainText(env) && st.log == []
    ensures var run := S.Execute(env, depth, keep, steps, resume, st, kv);
      !run.end.NoTarget? && forall e | e in run.st.log :: !e.UnknownMacro? && !e.MissingParam?
  {
    AcceptedGood(steps, env.macros, topIds);
    var (i, entered) := S.Enter(keep, resume, st, kv);
    var cleared := st.(stopped := false, results := []);
    if resume && keep && kv.Some? { S.RestoreKeepsLog(kv.value.completed, cleared); }
    RunSound(topIds, env, depth, keep, steps, i, 0, entered, kv, 0);
  }

  // ---- Blind spots ----

  /** A flow of one step is accepted if its own target and macro call, and those of the steps visited in it, are. */
  lemma OneAccepted(step: Step, macros: map<string, Macro>)
    requires C.SkipsGoto(step.goto) && C.MacroErrors(macros, step) == []
    requires GotoSeen({step.id}, C.Inside(false, step.kind)) && UseSeen(macros, C.Inside(true, step.kind))
    ensures Accepted([step], macros, {step.id})
  {
    AcceptedSeen([step], macros, {step.id});
    assert [step][1..] == [];
    assert C.Visit(false, [step]) == [step] + C.Inside(false, step.kind) && C.Visit(true, [step]) == [step] + C.Inside(true, step.kind);
  }

  lemma OneJump(step: Step, macros: map<string, Macro>, depth: nat)
    requires S.ExecStep(EchoEnv(macros), depth, [], step, START).0 == S.Raised(S.Jumps("nowhere")) && step.id != "nowhere"
    ensures S.Execute(EchoEnv(macros), depth, false, [step], false, START, None).end == S.NoTarget("nowhere")
  {
    assert START.(stopped := false, results := []) == START;
    assert S.StepIndex([step], "nowhere").None?;
  }

  lemma JumpOut(macros: map<string, Macro>, depth: nat, policies: seq<string>, mode: S.Mode, st: S.State)
    requires mode != S.CheckStop
    ensures S.ExecStep(EchoEnv(macros), depth, policies, GotoStep("nowhere"), st).0 == S.Raised(S.Jumps("nowhere"))
    ensures S.RunList(EchoEnv(macros), depth, policies, mode, [GotoStep("nowhere")], [], st).0 == S.ListOutcome([], Some(S.Jumps("nowhere")))
  {
    var before := S.BeforeChild(mode, [], st);
    assert S.ExecStep(EchoEnv(macros), depth, policies, GotoStep("nowhere"), before).0 == S.Raised(S.Jumps("nowhere"));
  }

  function MapStep(): Step {
    Step("m", "", Map(Str("{{items}}"), "item", [GotoStep("nowhere")]), "", [], "")
  }

  lemma MapJumps(macros: map<string, Macro>)
    ensures S.ExecStep(EchoEnv(macros), 0, [], MapStep(), START).0 == S.Raised(S.Jumps("nowhere"))
  {
    JumpOut(macros, 0, [""] + [], S.Plain, S.SetLoop(S.SetVar(START, "item", Null), S.ItemFrame(0, Null)));
  }

  /** A jump hidden in a map body passes the checks and then finds no target. */
  lemma GotoInMapIsMissed(macros: map<string, Macro>)
    ensures Accepted([MapStep()], macros, {"m"})
    ensures S.Execute(EchoEnv(macros), 0, false, [MapStep()], false, START, None).end == S.NoTarget("nowhere")
  {
    assert [GotoStep("nowhere")][1..] == [];
    assert C.Inside(true, MapStep().kind) == [GotoStep("nowhere")] && C.Inside(false, MapStep().kind) == [];
    OneAccepted(MapStep(), macros);
    MapJumps(macros);
    OneJump(MapStep(), macros, 0);
  }

  function EndStep(): Step {
    Step("", "", End(Success, Dict(map[])), "", [], "")
  }

  /** The body raises, and the clause's step runs. */
  function TryStep(hidden: Step): Step {
    Step("t", "", Try([EndStep()], [Catch("*", Some(hidden), "")], []), "", [], "")
  }

  lemma TryInside(hidden: Step, maps: bool)
    ensures C.Inside(maps, TryStep(hidden).kind) == [EndStep()]
  {
    assert [EndStep()][1..] == [];
    assert C.Inside(maps, EndStep().kind) == [] && C.Visit(maps, []) == [];
    assert C.Visit(maps, [EndStep()]) == [EndStep()];
  }

  lemma TryAccepted(hidden: Step, macros: map<string, Macro>)
    ensures Accepted([TryStep(hidden)], macros, {"t"})
  {
    TryInside(hidden, false);
    TryInside(hidden, true);
    OneAccepted(TryStep(hidden), macros);
  }

  lemma TryCatches(hidden: Step, macros: map<string, Macro>)
    ensures var (body, st1) := S.RunList(EchoEnv(macros), 0, [""] + [], S.UntilFailure, [EndStep()], [], START);
      && body == S.ListOutcome([], Some(S.Ends(Success, Null)))
      && S.MatchCatch(TryStep(hidden).kind.catches, S.Ends(Success, Null)) == Some(0)
  {
    assert S.ExecStep(EchoEnv(macros), 0, [""] + [], EndStep(), START).0 == S.Raised(S.Ends(Success, Null));
  }

  lemma TryJumps(macros: map<string, Macro>)
    ensures S.ExecStep(EchoEnv(macros), 0, [], TryStep(GotoStep("nowhere")), START).0 == S.Raised(S.Jumps("nowhere"))
  {
    TryCatches(GotoStep("nowhere"), macros);
    JumpOut(macros, 0, [""] + [], S.Plain, S.RunList(EchoEnv(macros), 0, [""] + [], S.UntilFailure, [EndStep()], [], START).1);
  }

  /** A jump hidden in a catch clause. */
  lemma GotoInCatchIsMissed(macros: map<string, Macro>)
    ensures Accepted([TryStep(GotoStep("nowhere"))], macros, {"t"})
    ensures S.Execute(EchoEnv(macros), 0, false, [TryStep(GotoStep("nowhere"))], false, START, None).end == S.NoTarget("nowhere")
  {
    TryAccepted(GotoStep("nowhere"), macros);
    TryJumps(macros);
    OneJump(TryStep(GotoStep("nowhere")), macros, 0);
  }

  function UseStep(id: string, name: string): Step {
    Step(id, "", NoKind, name, [], "")
  }

  /** A flow of one step logs what the step does, if the step ends normally. */
  lemma OneLog(step: Step, macros: map<string, Macro>, depth: nat)
    requires S.ExecStep(EchoEnv(macros), depth, [], step, START).0.Done?
    ensures S.Execute(EchoEnv(macros), depth, false, [step], false, START, None).st.log == S.ExecStep(EchoEnv(macros), depth, [], step, START).1.log
  {
    assert START.(stopped := false, results := []) == START;
    var (o, st1) := S.ExecStep(EchoEnv(macros), depth, [], step, START);
    assert [step][0] == step && |[step]| == 1;
    assert S.RunFrom(EchoEnv(macros), depth, false, [step], 1, 0, st1, None, 1).st == st1;
    assert S.RunFrom(EchoEnv(macros), depth, false, [step], 0, 0, START, None, 0) == S.RunFrom(EchoEnv(macros), depth, false, [step], 1, 0, st1, None, 1);
  }

  lemma UnknownUse(macros: map<string, Macro>, depth: nat, policies: seq<string>, st: S.State)
    requires "nothing" !in macros
    ensures var (o, st') := S.ExecStep(EchoEnv(macros), depth, policies, UseStep("", "nothing"), st);
      o.Done? && !o.r.success && st'.log == st.log + [S.UnknownMacro("nothing")]
  {
    var step := UseStep("", "nothing");
    assert InferType(step).ByMacro?;
    var (o, st') := S.ExecMacro(EchoEnv(macros), depth, [""] + policies, step, st);
    assert S.Dispatch(EchoEnv(macros), depth, [""] + policies, step, st) == (o, st');
  }

  /** A call of an unknown macro hidden in a catch clause. */
  lemma UseInCatchIsMissed(macros: map<string, Macro>)
    requires "nothing" !in macros
    ensures var step := TryStep(UseStep("", "nothing"));
      && Accepted([step], macros, {"t"})
      && S.UnknownMacro("nothing") in S.Execute(EchoEnv(macros), 0, false, [step], false, START, None).st.log
  {
    var step := TryStep(UseStep("", "nothing"));
    TryAccepted(UseStep("", "nothing"), macros);
    TryUses(macros);
    OneLog(step, macros, 0);
  }

  lemma TryUses(macros: map<string, Macro>)
    requires "nothing" !in macros
    ensures var (o, st') := S.ExecStep(EchoEnv(macros), 0, [], TryStep(UseStep("", "nothing")), START);
      o.Done? && S.UnknownMacro("nothing") in st'.log
  {
    TryCatches(UseStep("", "nothing"), macros);
    UnknownUse(macros, 0, [""] + [], S.RunList(EchoEnv(macros), 0, [""] + [], S.UntilFailure, [EndStep()], [], START).1);
  }

  ghost function OneMacro(hidden: Step): map<string, Macro> {
    map["m" := Macro([], [hidden])]
  }

  /** A jump hidden in a macro body. */
  lemma GotoInMacroIsMissed()
    ensures var step, macros := UseStep("u", "m"), OneMacro(GotoStep("nowhere"));
      Accepted([step], macros, {"u"}) && S.Execute(EchoEnv(macros), 1, false, [step], false, START, None).end == S.NoTarget("nowhere")
  {
    var macros := OneMacro(GotoStep("nowhere"));
    OneAccepted(UseStep("u", "m"), macros);
    JumpOut(macros, 0, [""] + [], S.UntilFailure, S.SetVar(START, "macro", Dict(map[])));
    OneJump(UseStep("u", "m"), macros, 1);
  }

  /** A call of an unknown macro hidden in a macro body. */
  lemma UseInMacroIsMissed()
    ensures var step, macros := UseStep("u", "m"), OneMacro(UseStep("", "nothing"));
      && Accepted([step], macros, {"u"})
      && S.UnknownMacro("nothing") in S.Execute(EchoEnv(macros), 1, false, [step], false, START, None).st.log
  {
    var macros := OneMacro(UseStep("", "nothing"));
    OneAccepted(UseStep("u", "m"), macros);
    MacroUses();
    OneLog(UseStep("u", "m"), macros, 1);
  }

  lemma MacroUses()
    ensures var (o, st') := S.ExecStep(EchoEnv(OneMacro(UseStep("", "nothing"))), 1, [], UseStep("u", "m"), START);
      o.Done? && S.UnknownMacro("nothing") in st'.log
  {
    UnknownUse(OneMacro(UseStep("", "nothing")), 0, [""] + [], S.SetVar(START, "macro", Dict(map[])));
  }

  /** A target that a template computes. */
  lemma TemplateGotoIsMissed(macros: map<string, Macro>)
    ensures var step := Step("g", "", NoKind, "", [], "{{target}}");
      Accepted([step], macros, {"g"}) && S.Execute(EchoEnv(macros), 0, false, [step], false, START, None).end == S.NoTarget("nowhere")
  {
    var step := Step("g", "", NoKind, "", [], "{{target}}");
    assert "{{" <= step.goto;
    OneAccepted(step, macros);
    OneJump(step, macros, 0);
  }

  /** Without any macro defined the macro check is skipped, and an unknown macro is called. */
  lemma UseWithoutMacrosIsMissed()
    ensures var step := Step("u", "", NoKind, "nothing", [], "");
      && Accepted([step], map[], {"u"})
      && S.UnknownMacro("nothing") in S.Execute(EchoEnv(map[]), 0, false, [step], false, START, None).st.log
  {
    var env, step := EchoEnv(map[]), Step("u", "", NoKind, "nothing", [], "");
    assert [step][1..] == [];
    assert C.Visit(false, [step]) == [step];
    var st1 := S.ExecStep(env, 0, [], step, START).1;
    assert st1.log == [S.UnknownMacro("nothing")];
    assert START.(stopped := false, results := []) == START;
    assert S.RunFrom(env, 0, false, [step], 0, 0, START, None, 0).st == st1;
  }

  /** In a flow whose ids are distinct, a jump lands on the one step that carries the id. */
  lemma JumpLandsOnIt(steps: seq<Step>, k: nat)
    requires k < |steps| && steps[k].id != ""
    requires C.Report(C.StepIds, C.Visit(true, steps), [], {}).0 == []
    ensures S.StepIndex(steps, steps[k].id) == Some(k)
  {
    C.CleanIds(C.Visit(true, steps), {});
    var at := S.StepIndex(steps, steps[k].id);
    if at.value != k {
      var lo, hi := if at.value < k then at.value else k, if at.value < k then k else at.value;
      var i, j := TopVisited(steps, lo, hi);
    }
  }

  /** Top-level steps are visited in their order. */
  lemma {:induction false} TopVisited(steps: seq<Step>, a: nat, b: nat) returns (i: nat, j: nat)
    requires a < b < |steps|
    ensures i < j < |C.Visit(true, steps)| && C.Visit(true, steps)[i] == steps[a] && C.Visit(true, steps)[j] == steps[b]
  {
    var offset := 1 + |C.Inside(true, steps[0].kind)|;
    if a > 0 {
      i, j := TopVisited(steps[1..], a - 1, b - 1);
      i, j := i + offset, j + offset;
    } else {
      i := 0;
      j := Visited(steps[1..], b - 1);
      j := j + offset;
    }
  }

  lemma {:induction false} Visited(steps: seq<Step>, a: nat) returns (i: nat)
    requires a < |steps|
    ensures i < |C.Visit(true, steps)| && C.Visit(true, steps)[i] == steps[a]
  {
    if a == 0 {
      i := 0;
    } else {
      i := Visited(steps[1..], a - 1);
      i := i + 1 + |C.Inside(true, steps[0].kind)|;
    }
  }
}
