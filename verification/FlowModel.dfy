/** The step tree of an app's `flow:` block. */
module FlowModel {
  import opened Values

  datatype Status = Success | Failure | Cancelled

  datatype MaxIterations = Fixed(n: int) | Template(expr: Value)

  datatype Case = Case(key: string, steps: seq<Step>)

  /** `after`, the source's `then`, is "fail", "continue" or "". */
  datatype Catch = Catch(error: string, do: Option<Step>, after: string)

  /** The structural field of a step; a checked flow sets at most one. */
  datatype Kind =
    | NoKind
    | Action(action: string, params: Value, maxAttempts: nat)
    | Sequence(steps: seq<Step>)
    | Branch(on: Value, cases: seq<Case>, default: seq<Step>)
    | Loop(max: MaxIterations, until: string, body: seq<Step>)
    | Map(over: Value, asVar: string, step: seq<Step>)
    | Pipe(stages: seq<Step>)
    | Try(tries: seq<Step>, catches: seq<Catch>, finals: seq<Step>)
    | End(status: Status, output: Value)

  /** `use`, `withParams` and `goto` may accompany any kind. */
  datatype Step = Step(
    id: string,
    onError: string,
    kind: Kind,
    use: string,
    withParams: seq<(string, Value)>,
    goto: string)

  datatype MacroParam = MacroParam(required: bool, default: Value)

  datatype Macro = Macro(params: seq<(string, MacroParam)>, body: seq<Step>)

  /** The handler a step is dispatched to. A structural field wins over `use`, which wins over
      `goto`; a step with none of them falls back to an action with an empty name. */
  datatype StepType = ByKind | ByMacro | ByGoto | ByFallback

  function InferType(step: Step): StepType {
    if !step.kind.NoKind? && !(step.kind.Action? && step.kind.action == "") then ByKind
    else if step.use != "" then ByMacro
    else if step.goto != "" then ByGoto
    else ByFallback
  }

  /** `_execute_step` turns a raised exception into a failed result under these policies only. */
  predicate Absorbs(onError: string) {
    onError == "skip" || onError == "continue" || onError == ""
  }
}

/** Conditions on every step of a tree. */
module FlowShapes {
  import opened Values
  import opened FlowModel

  /** `p` holds of the step and of every step nested in it. */
  ghost predicate Everywhere(p: Step -> bool, step: Step)
    decreases step
  {
    p(step) &&
    match step.kind
    case NoKind => true
    case Action(_, _, _) => true
    case End(_, _) => true
    case Sequence(steps) => Each(p, steps)
    case Branch(_, cases, default) =>
      (forall k | 0 <= k < |cases| :: Each(p, cases[k].steps)) && Each(p, default)
    case Loop(_, _, body) => Each(p, body)
    case Map(_, _, body) => Each(p, body)
    case Pipe(stages) => Each(p, stages)
    case Try(tries, catches, finals) =>
      && Each(p, tries)
      && (forall k | 0 <= k < |catches| && catches[k].do.Some? :: Everywhere(p, catches[k].do.value))
      && Each(p, finals)
  }

  ghost predicate Each(p: Step -> bool, steps: seq<Step>)
    decreases steps
  {
    steps == [] || (Everywhere(p, steps[0]) && Each(p, steps[1..]))
  }

  lemma EachAt(p: Step -> bool, steps: seq<Step>, i: nat)
    requires Each(p, steps) && i < |steps|
    ensures Everywhere(p, steps[i])
  {
    if i > 0 {
      EachAt(p, steps[1..], i - 1);
    }
  }

  /** A stronger condition on every step. */
  lemma {:induction false} EverywhereImplies(p: Step -> bool, q: Step -> bool, step: Step)
    requires Everywhere(p, step) && forall s :: p(s) ==> q(s)
    ensures Everywhere(q, step)
    decreases step
  {
    match step.kind
    case Sequence(steps) => EachImplies(p, q, steps);
    case Branch(_, cases, default) =>
      forall k | 0 <= k < |cases| { EachImplies(p, q, cases[k].steps); }
      EachImplies(p, q, default);
    case Loop(_, _, body) => EachImplies(p, q, body);
    case Map(_, _, body) => EachImplies(p, q, body);
    case Pipe(stages) => EachImplies(p, q, stages);
    case Try(tries, catches, finals) =>
      EachImplies(p, q, tries);
      forall k | 0 <= k < |catches| && catches[k].do.Some? { EverywhereImplies(p, q, catches[k].do.value); }
      EachImplies(p, q, finals);
    case _ =>
  }

  lemma {:induction false} EachImplies(p: Step -> bool, q: Step -> bool, steps: seq<Step>)
    requires Each(p, steps) && forall s :: p(s) ==> q(s)
    ensures Each(q, steps)
    decreases steps
  {
    if steps != [] {
      EverywhereImplies(p, q, steps[0]);
      EachImplies(p, q, steps[1..]);
    }
  }
}
