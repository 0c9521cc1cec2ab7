/** What executing a step, and a whole flow, computes: the specification of `FlowExecutor`. */
module FlowSemantics {
  import opened Values
  import opened FlowModel
  import OD = OrderedDicts

  datatype StepResult = StepResult(success: bool, output: Value, error: Option<string>, children: seq<StepResult>)

  /** The exceptions that leave `_execute_step`. */
  datatype Signal =
    | Ends(status: Status, output: Value)
    | Jumps(target: string)
    | Fails(error: string)

  datatype Outcome = Done(r: StepResult) | Raised(signal: Signal)

  /** A list of steps run in order: the results obtained, and the exception that cut the list short. */
  datatype ListOutcome = ListOutcome(children: seq<StepResult>, signal: Option<Signal>)

  datatype Call = Call(moduleId: string, action: string, params: Value)

  datatype Reply = Returned(v: Value) | TimedOut | Raises(error: string)

  /** Everything a run makes observable, in order. `Faulted` marks the raise of an ordinary exception;
      it carries the `on_error` policies of the raising step and of its ancestors, innermost first. */
  datatype Event =
    | Called(call: Call)
    | Faulted(policies: seq<string>)
    | Ended(status: Status)
    | Jumped(target: string)
    | UnknownMacro(name: string)
    | MissingParam(name: string, param: string)

  datatype Ctx = Ctx(results: map<string, Value>, variables: map<string, Value>, loop: Value)

  datatype State = State(results: OD.Dict<StepResult>, ctx: Ctx, stopped: bool, log: seq<Event>)

  /** The executor's surroundings. An action's reply, and whether `stop()` has been called by the time
      it arrives, may depend on everything that happened before. */
  datatype Env = Env(
    macros: map<string, Macro>,
    act: (seq<Event>, Call) -> Reply,
    stops: seq<Event> -> bool,
    resolve: (Value, Ctx) -> Result<Value>,
    condition: (string, Ctx) -> Result<bool>,
    str: Value -> string,
    lower: string -> string,
    toInt: Value -> Result<int>,
    json: Value -> Value)

  // ---- Small state changes ----

  function SetVar(st: State, name: string, v: Value): State {
    st.(ctx := st.ctx.(variables := st.ctx.variables[name := v]))
  }

  /** Put back what `variables.get(name)` answered before: a previous None is dropped. */
  function RestoreVar(st: State, name: string, prev: Value): State {
    if prev != Null then SetVar(st, name, prev)
    else st.(ctx := st.ctx.(variables := st.ctx.variables - {name}))
  }

  function SetLoop(st: State, loop: Value): State {
    st.(ctx := st.ctx.(loop := loop))
  }

  function Log(st: State, e: Event): State {
    st.(log := st.log + [e])
  }

  /** What `{{result.id}}` sees. */
  function Shown(r: StepResult): Value {
    if r.success then r.output
    else Dict(map["_error" := if r.error.Some? then Str(r.error.value) else Null])
  }

  function Record(st: State, id: string, r: StepResult): State {
    if id == "" then st
    else st.(results := OD.Put(st.results, id, r),
             ctx := st.ctx.(results := st.ctx.results[id := Shown(r)]))
  }

  // ---- Results ----

  function Succeeded(output: Value): StepResult {
    StepResult(true, output, None, [])
  }

  function Failed(error: string): StepResult {
    StepResult(false, Null, Some(error), [])
  }

  predicate AllOk(children: seq<StepResult>) {
    forall i :: 0 <= i < |children| ==> children[i].success
  }

  function LastOutput(children: seq<StepResult>): Value {
    if children == [] then Null else children[|children| - 1].output
  }

  function Outputs(children: seq<StepResult>): seq<Value> {
    seq(|children|, i requires 0 <= i < |children| => children[i].output)
  }

  function Aggregate(children: seq<StepResult>, output: Value): Outcome {
    Done(StepResult(AllOk(children), output, None, children))
  }

  /** Raise an ordinary exception. */
  function Throw(policies: seq<string>, error: string, st: State): (Outcome, State) {
    (Raised(Fails(error)), Log(st, Faulted(policies)))
  }

  // ---- Leaves ----

  /** `str.split(".", 1)`: the parts around the first dot. */
  function SplitAction(s: string): Option<(string, string)> {
    if s == "" then None
    else if s[0] == '.' then Some(("", s[1..]))
    else match SplitAction(s[1..])
      case None => None
      case Some(p) => Some(([s[0]] + p.0, p.1))
  }

  /** `isinstance(result, dict) and result.get("error") is not None` */
  predicate IsErrorReply(v: Value) {
    v.Dict? && Lookup(v.entries, "error") != Null
  }

  function Attempts(env: Env, policies: seq<string>, call: Call, attempt: nat, max: nat, lastError: string, st: State)
    : (Outcome, State)
    decreases max - attempt
  {
    if attempt >= max then
      (Done(Failed(if lastError == "" then "Unknown error" else lastError)), st)
    else
      var reply := env.act(st.log, call);
      var called := Log(st, Called(call));
      var st' := called.(stopped := called.stopped || env.stops(called.log));
      match reply
      case Returned(v) =>
        if IsErrorReply(v) && attempt < max - 1
        then Attempts(env, policies, call, attempt + 1, max, env.str(Lookup(v.entries, "error")), st')
        else (Done(StepResult(!IsErrorReply(v), v, None, [])), st')
      case TimedOut =>
        if attempt < max - 1
        then Attempts(env, policies, call, attempt + 1, max, "Action timed out", st')
        else (Done(Failed("Action timed out")), st')
      case Raises(e) =>
        if attempt < max - 1
        then Attempts(env, policies, call, attempt + 1, max, e, st')
        else Throw(policies, e, st')
  }

  function ExecAction(env: Env, policies: seq<string>, action: string, params: Value, max: nat, st: State)
    : (Outcome, State)
  {
    match env.resolve(Str(action), st.ctx)
    case Err(e) => Throw(policies, e, st)
    case Ok(name) =>
      match SplitAction(env.str(name))
      case None => (Done(Failed("Invalid action: " + env.str(name))), st)
      case Some(parts) =>
        match env.resolve(params, st.ctx)
        case Err(e) => Throw(policies, e, st)
        case Ok(args) => Attempts(env, policies, Call(parts.0, parts.1, args), 0, max, "", st)
  }

  function ExecEnd(env: Env, policies: seq<string>, status: Status, output: Value, st: State): (Outcome, State) {
    match if output == Dict(map[]) then Ok(Null) else env.resolve(output, st.ctx)
    case Err(e) => Throw(policies, e, st)
    case Ok(v) => (Raised(Ends(status, v)), Log(st, Ended(status)))
  }

  function ExecGoto(env: Env, policies: seq<string>, target: string, st: State): (Outcome, State) {
    match env.resolve(Str(target), st.ctx)
    case Err(e) => Throw(policies, e, st)
    case Ok(v) => (Raised(Jumps(env.str(v))), Log(st, Jumped(env.str(v))))
  }

  // ---- Branching and macro parameters ----

  predicate CaseMatches(env: Env, key: string, v: Value) {
    || key == (if v == Null then "" else env.lower(env.str(v)))
    || key == env.str(v)
    || (v.Bool? && env.lower(key) == env.lower(env.str(v)))
  }

  /** The first matching case, if any. */
  function MatchCase(env: Env, cases: seq<Case>, v: Value, i: nat := 0): (r: Option<nat>)
    requires i <= |cases|
    ensures r.Some? ==> r.value < |cases|
    decreases |cases| - i
  {
    if i == |cases| then None
    else if CaseMatches(env, cases[i].key, v) then Some(i)
    else MatchCase(env, cases, v, i + 1)
  }

  function ResolveParams(env: Env, params: seq<(string, Value)>, ctx: Ctx, acc: map<string, Value>)
    : Result<map<string, Value>>
  {
    if params == [] then Ok(acc)
    else match env.resolve(params[0].1, ctx)
      case Err(e) => Err(e)
      case Ok(v) => ResolveParams(env, params[1..], ctx, acc[params[0].0 := v])
  }

  /** Fill in the macro's defaults; `Err` names the first required parameter that is missing. */
  function AddDefaults(params: seq<(string, MacroParam)>, given: map<string, Value>): Result<map<string, Value>> {
    if params == [] then Ok(given)
    else
      var (name, p) := params[0];
      if name in given then AddDefaults(params[1..], given)
      else if p.default != Null then AddDefaults(params[1..], given[name := p.default])
      else if p.required then Err(name)
      else AddDefaults(params[1..], given)
  }

  // ---- try / catch ----

  /** The lower-cased class name that a `catch` clause is matched against. */
  function ErrorType(s: Signal): string {
    match s
    case Ends(_, _) => "flowendsignal"
    case Jumps(_) => "flowgotosignal"
    case Fails(_) => "flowexecutionerror"
  }

  /** `str(exc)`: the end and goto signals are built from keywords and print as nothing. */
  function ErrorText(s: Signal): string {
    if s.Fails? then s.error else ""
  }

  function MatchCatch(catches: seq<Catch>, s: Signal, i: nat := 0): (r: Option<nat>)
    requires i <= |catches|
    ensures r.Some? ==> r.value < |catches|
    decreases |catches| - i
  {
    if i == |catches| then None
    else if catches[i].error == "*" || IsInfix(catches[i].error, ErrorType(s)) then Some(i)
    else MatchCatch(catches, s, i + 1)
  }

  /** What ends the `try` body early: a signal from a child, or a child's failed result. */
  function TryException(body: ListOutcome): Option<Signal> {
    if body.signal.Some? then body.signal
    else if body.children != [] && !body.children[|body.children| - 1].success then
      var error := body.children[|body.children| - 1].error;
      Some(Fails(if error.Some? && error.value != "" then error.value else "Step failed"))
    else None
  }

  // ---- The interpreter ----

  /** How a list of children is run: to the end; checking the stop flag first; up to the first failed
      result; or likewise with each output piped into the next child. */
  datatype Mode = Plain | CheckStop | UntilFailure | Piped

  function BeforeChild(mode: Mode, done: seq<StepResult>, st: State): State {
    if mode == Piped then SetVar(st, "pipe", Dict(map["input" := LastOutput(done)])) else st
  }

  predicate StopsAfter(mode: Mode, r: StepResult) {
    (mode == UntilFailure || mode == Piped) && !r.success
  }

  /** `_execute_step`. `depth` bounds the nesting of macro expansions, as the interpreter's recursion
      limit does; `outer` lists the policies of the enclosing steps. */
  function ExecStep(env: Env, depth: nat, outer: seq<string>, step: Step, st: State): (Outcome, State)
    decreases depth, step, 2
  {
    var (o, st') := Dispatch(env, depth, [step.onError] + outer, step, st);
    match o
    case Done(r) => (o, Record(st', step.id, r))
    case Raised(Fails(e)) =>
      if Absorbs(step.onError) then (Done(Failed(e)), Record(st', step.id, Failed(e)))
      else (Raised(Fails("Step '" + step.id + "' failed: " + e)), st')
    case Raised(_) => (o, st')
  }

  function Dispatch(env: Env, depth: nat, policies: seq<string>, step: Step, st: State): (Outcome, State)
    decreases depth, step, 1
  {
    match InferType(step)
    case ByFallback =>
      if step.kind.Action? then ExecAction(env, policies, "", step.kind.params, step.kind.maxAttempts, st)
      else ExecAction(env, policies, "", Dict(map[]), 1, st)
    case ByGoto => ExecGoto(env, policies, step.goto, st)
    case ByMacro => ExecMacro(env, depth, policies, step, st)
    case ByKind =>
      match step.kind
      case Action(action, params, max) => ExecAction(env, policies, action, params, max, st)
      case End(status, output) => ExecEnd(env, policies, status, output, st)
      case Sequence(steps) =>
        var (l, st') := RunList(env, depth, policies, CheckStop, steps, [], st);
        (Finish(l, LastOutput(l.children)), st')
      case Branch(on, cases, default) => ExecBranch(env, depth, policies, step, st)
      case Pipe(stages) =>
        var (l, st') := RunList(env, depth, policies, Piped, stages, [], st);
        (Finish(l, LastOutput(l.children)), st')
      case Loop(max, until, body) =>
        (match LoopBound(env, max, st.ctx)
         case Err(e) => Throw(policies, e, st)
         case Ok(n) => RunLoop(env, depth, policies, body, until, n, 0, [], [], st))
      case Map(over, asVar, body) =>
        (match env.resolve(over, st.ctx)
         case Err(e) => Throw(policies, e, st)
         case Ok(v) =>
           if v.List? then RunMap(env, depth, policies, body, asVar, v.items, 0, [], st)
           else (Done(Failed("map.over did not resolve to a list")), st))
      case Try(tries, catches, finals) => ExecTry(env, depth, policies, step, st)
  }

  function SignalOf(o: Outcome): Option<Signal> {
    if o.Done? then None else Some(o.signal)
  }

  function Finish(l: ListOutcome, output: Value): (o: Outcome)
    ensures SignalOf(o) == l.signal
  {
    if l.signal.Some? then Raised(l.signal.value) else Aggregate(l.children, output)
  }

  function LoopBound(env: Env, max: MaxIterations, ctx: Ctx): Result<int> {
    match max
    case Fixed(n) => Ok(n)
    case Template(e) =>
      match env.resolve(e, ctx)
      case Err(msg) => Err(msg)
      case Ok(v) => if v == Null then Ok(10) else env.toInt(v)
  }

  function ExecBranch(env: Env, depth: nat, policies: seq<string>, step: Step, st: State): (Outcome, State)
    requires step.kind.Branch?
    decreases depth, step, 0
  {
    match env.resolve(step.kind.on, st.ctx)
    case Err(e) => Throw(policies, e, st)
    case Ok(v) =>
      var hit := MatchCase(env, step.kind.cases, v);
      var (l, st') :=
        if hit.Some? then RunList(env, depth, policies, Plain, step.kind.cases[hit.value].steps, [], st)
        else RunList(env, depth, policies, Plain, step.kind.default, [], st);
      (Finish(l, LastOutput(l.children)), st')
  }

  function ExecMacro(env: Env, depth: nat, policies: seq<string>, step: Step, st: State): (Outcome, State)
    decreases depth, step, 0
  {
    if step.use !in env.macros then
      (Done(Failed("Macro '" + step.use + "' not found")), Log(st, UnknownMacro(step.use)))
    else
      var mac := env.macros[step.use];
      match ResolveParams(env, step.withParams, st.ctx, map[])
      case Err(e) => Throw(policies, e, st)
      case Ok(given) =>
        match AddDefaults(mac.params, given)
        case Err(name) =>
          (Done(Failed("Macro '" + step.use + "' missing required param: " + name)), Log(st, MissingParam(step.use, name)))
        case Ok(args) =>
          if depth == 0 then Throw(policies, "maximum recursion depth exceeded", st)
          else
            var prev := Lookup(st.ctx.variables, "macro");
            var (l, st') := RunList(env, depth - 1, policies, UntilFailure, mac.body, [], SetVar(st, "macro", Dict(args)));
            (Finish(l, LastOutput(l.children)), RestoreVar(st', "macro", prev))
  }

  function ExecTry(env: Env, depth: nat, policies: seq<string>, step: Step, st: State): (Outcome, State)
    requires step.kind.Try?
    decreases depth, step, 0
  {
    var (body, st1) := RunList(env, depth, policies, UntilFailure, step.kind.tries, [], st);
    var (caught, pending, st2) := ExecCatch(env, depth, policies, step, TryException(body), st1);
    var (fin, st3) := RunList(env, depth, policies, Plain, step.kind.finals, [], st2);
    var children := body.children + caught + fin.children;
    if fin.signal.Some? then (Raised(fin.signal.value), st3)
    else if pending.Some? then (Raised(pending.value), st3)
    else (Aggregate(children, LastOutput(children)), st3)
  }

  /** The `except` block: the catch clause's result, if any, and the exception that leaves the block, if any. */
  function ExecCatch(env: Env, depth: nat, policies: seq<string>, step: Step, exc: Option<Signal>, st: State)
    : (seq<StepResult>, Option<Signal>, State)
    requires step.kind.Try?
    decreases depth, step.kind, 0
  {
    if exc.None? then ([], None, st)
    else
      var hit := MatchCatch(step.kind.catches, exc.value);
      if hit.None? then ([Failed("Unhandled error: " + ErrorText(exc.value))], None, st)
      else
        var clause := step.kind.catches[hit.value];
        var again := if clause.after == "fail" then exc else None;
        if clause.do.None? then ([], again, st)
        else
          match ExecStep(env, depth, policies, clause.do.value, st)
          case (Raised(s), st') => ([], Some(s), st')
          case (Done(r), st') => ([r], again, st')
  }

  function RunList(env: Env, depth: nat, policies: seq<string>, mode: Mode, steps: seq<Step>, done: seq<StepResult>, st: State)
    : (ListOutcome, State)
    decreases depth, steps, 0
  {
    if steps == [] || (mode == CheckStop && st.stopped) then (ListOutcome(done, None), st)
    else
      match ExecStep(env, depth, policies, steps[0], BeforeChild(mode, done, st))
      case (Raised(s), st') => (ListOutcome(done, Some(s)), st')
      case (Done(r), st') =>
        if StopsAfter(mode, r) then (ListOutcome(done + [r], None), st')
        else RunList(env, depth, policies, mode, steps[1..], done + [r], st')
  }

  function LoopFrame(i: nat): Value {
    Dict(map["iteration" := Int(i), "index" := Int(i)])
  }

  function RunLoop(env: Env, depth: nat, policies: seq<string>, body: seq<Step>, until: string, n: int, i: nat,
                   done: seq<StepResult>, outs: seq<Value>, st: State): (Outcome, State)
    decreases depth, body, 1, n - i
  {
    if i >= n || st.stopped then (Aggregate(done, List(outs)), st)
    else
      var (l, st') := RunList(env, depth, policies, Plain, body, done, SetLoop(st, LoopFrame(i)));
      if l.signal.Some? then (Raised(l.signal.value), st')
      else
        var outs' := if l.children == [] then outs else outs + [LastOutput(l.children)];
        match if until == "" then Ok(false) else env.condition(until, st'.ctx)
        case Err(e) => Throw(policies, e, st')
        case Ok(true) => (Aggregate(l.children, List(outs')), st')
        case Ok(false) => RunLoop(env, depth, policies, body, until, n, i + 1, l.children, outs', st')
  }

  function ItemFrame(i: nat, item: Value): Value {
    Dict(map["iteration" := Int(i), "index" := Int(i), "item" := item])
  }

  function RunMap(env: Env, depth: nat, policies: seq<string>, body: seq<Step>, asVar: string, items: seq<Value>, i: nat,
                  done: seq<StepResult>, st: State): (Outcome, State)
    decreases depth, body, 2, |items| - i
  {
    if i >= |items| then (Aggregate(done, List(Outputs(done))), st)
    else
      var (l, st1) := RunItem(env, depth, policies, body, asVar, items[i], i, st);
      if l.signal.Some? then (Raised(l.signal.value), st1)
      else
        var r := Aggregate(l.children, LastOutput(l.children)).r;
        RunMap(env, depth, policies, body, asVar, items, i + 1, done + [r], st1)
  }

  function RunItem(env: Env, depth: nat, policies: seq<string>, body: seq<Step>, asVar: string, item: Value, i: nat, st: State)
    : (ListOutcome, State)
    decreases depth, body, 1
  {
    var prev := Lookup(st.ctx.variables, asVar);
    var inside := SetLoop(SetVar(st, asVar, item), ItemFrame(i, item));
    var (l, st') := RunList(env, depth, policies, Plain, body, [], inside);
    (l, SetLoop(RestoreVar(st', asVar, prev), st.ctx.loop))
  }

  // ---- Checkpoints ----

  /** The stored part of a flow's progress: outputs of successful steps, and the next top-level step. */
  datatype Checkpoint = Checkpoint(completed: OD.Dict<Value>, next: nat)

  function Completed(env: Env, results: OD.Dict<StepResult>): OD.Dict<Value> {
    if results == [] then []
    else if results[0].1.success then [(results[0].0, env.json(results[0].1.output))] + Completed(env, results[1..])
    else Completed(env, results[1..])
  }

  function MakeCheckpoint(env: Env, st: State, next: nat): Checkpoint {
    Checkpoint(Completed(env, st.results), next)
  }

  function Restore(completed: OD.Dict<Value>, st: State): State
    decreases |completed|
  {
    if completed == [] then st
    else Restore(completed[1..], Record(st, completed[0].0, Succeeded(completed[0].1)))
  }

  lemma RestoreKeepsLog(completed: OD.Dict<Value>, st: State)
    ensures Restore(completed, st).log == st.log
    decreases |completed|
  {
  }

  // ---- Whole flows ----

  const MAX_GOTO_JUMPS: nat := 100

  /** How a flow stops. `TooManyJumps`, `NoTarget` and `StepFailed` are the execution errors. */
  datatype FlowEnd =
    | Finished
    | EndedBy(status: Status, output: Value)
    | TooManyJumps
    | NoTarget(target: string)
    | StepFailed(error: string)

  /** `ran` counts the executions of top-level steps. */
  datatype FlowRun = FlowRun(end: FlowEnd, st: State, kv: Option<Checkpoint>, ran: nat)

  /** `step_index`: for a repeated id the last step counts. */
  function StepIndex(steps: seq<Step>, id: string): (r: Option<nat>)
    ensures r.Some? ==> r.value < |steps| && id != "" && steps[r.value].id == id
    ensures r.None? ==> id == "" || forall j :: 0 <= j < |steps| ==> steps[j].id != id
  {
    if steps == [] || id == "" then None
    else if steps[|steps| - 1].id == id then Some(|steps| - 1)
    else StepIndex(steps[..|steps| - 1], id)
  }

  function RunFrom(env: Env, depth: nat, keep: bool, steps: seq<Step>, i: nat, jumps: nat, st: State, kv: Option<Checkpoint>, ran: nat)
    : FlowRun
    requires jumps <= MAX_GOTO_JUMPS
    decreases MAX_GOTO_JUMPS - jumps, |steps| - i
  {
    if i >= |steps| || st.stopped then FlowRun(Finished, st, if keep then None else kv, ran)
    else
      var (o, st') := ExecStep(env, depth, [], steps[i], st);
      match o
      case Done(_) =>
        RunFrom(env, depth, keep, steps, i + 1, jumps, st', if keep then Some(MakeCheckpoint(env, st', i + 1)) else kv, ran + 1)
      case Raised(Ends(status, output)) => FlowRun(EndedBy(status, output), st', if keep then None else kv, ran + 1)
      case Raised(Fails(e)) => FlowRun(StepFailed(e), st', kv, ran + 1)
      case Raised(Jumps(target)) =>
        if jumps + 1 > MAX_GOTO_JUMPS then FlowRun(TooManyJumps, st', kv, ran + 1)
        else if StepIndex(steps, target).None? then FlowRun(NoTarget(target), st', kv, ran + 1)
        else RunFrom(env, depth, keep, steps, StepIndex(steps, target).value, jumps + 1, st', kv, ran + 1)
  }

  /** The state at the start of `execute`, and the index it starts from. */
  function Enter(keep: bool, resume: bool, st: State, kv: Option<Checkpoint>): (nat, State) {
    var cleared := st.(stopped := false, results := []);
    if resume && keep && kv.Some? then (kv.value.next, Restore(kv.value.completed, cleared)) else (0, cleared)
  }

  /** `execute`. */
  function Execute(env: Env, depth: nat, keep: bool, steps: seq<Step>, resume: bool, st: State, kv: Option<Checkpoint>): FlowRun {
    var (i, entered) := Enter(keep, resume, st, kv);
    RunFrom(env, depth, keep, steps, i, 0, entered, kv, 0)
  }

  datatype FlowResult = FlowResult(success: bool, results: OD.Dict<StepResult>, output: Value, error: Option<string>, status: Status)

  function ErrorMessage(end: FlowEnd): string
    requires !end.Finished? && !end.EndedBy?
  {
    match end
    case TooManyJumps => "Max goto jumps (100) exceeded \U{2014} possible infinite loop"
    case NoTarget(t) => "goto target '" + t + "' not found in flow"
    case StepFailed(e) => e
  }

  /** `_get_last_output`: the last key in insertion order, which need not be the last step executed. */
  function FlowOutput(results: OD.Dict<StepResult>): Value {
    if results == [] then Null else results[|results| - 1].1.output
  }

  function ResultOf(run: FlowRun): FlowResult {
    match run.end
    case Finished => FlowResult(true, run.st.results, FlowOutput(run.st.results), None, Success)
    case EndedBy(status, output) => FlowResult(status == Success, run.st.results, output, None, status)
    case _ => FlowResult(false, run.st.results, Null, Some(ErrorMessage(run.end)), Failure)
  }
}
