/** The compiler's checks of step ids, goto targets and macro calls. */
module FlowChecks {
  import opened Values
  import opened FlowModel

  datatype CompileError =
    | DuplicateId(id: string)
    | GotoTarget(target: string, at: string)
    | UnknownMacro(name: string, at: string)
    | MissingParam(name: string, at: string, param: string)
    | UnknownParam(name: string, at: string, param: string)

  /** The three walkers over the step tree. */
  datatype Check =
    | StepIds
    | GotoTargets(topIds: set<string>)
    | MacroRefs(macros: map<string, Macro>)

  /** The walkers look into every nested list but `catch`; the one for gotos does not look into maps either. */
  function Visit(maps: bool, steps: seq<Step>): seq<Step>
    decreases steps
  {
    if steps == [] then [] else [steps[0]] + Inside(maps, steps[0].kind) + Visit(maps, steps[1..])
  }

  function Inside(maps: bool, kind: Kind): seq<Step>
    decreases kind
  {
    match kind
    case NoKind => []
    case Action(_, _, _) => []
    case End(_, _) => []
    case Sequence(steps) => Visit(maps, steps)
    case Branch(_, cases, default) => InCases(maps, cases) + Visit(maps, default)
    case Loop(_, _, body) => Visit(maps, body)
    case Map(_, _, body) => if maps then Visit(maps, body) else []
    case Pipe(stages) => Visit(maps, stages)
    case Try(tries, _, finals) => Visit(maps, tries) + Visit(maps, finals)
  }

  function InCases(maps: bool, cases: seq<Case>): seq<Step>
    decreases cases
  {
    if cases == [] then [] else Visit(maps, cases[0].steps) + InCases(maps, cases[1..])
  }

  predicate SkipsGoto(goto: string) {
    goto == "" || "{{" <= goto
  }

  function ParamNames(params: seq<(string, Value)>): set<string> {
    set k | 0 <= k < |params| :: params[k].0
  }

  predicate Declares(params: seq<(string, MacroParam)>, name: string) {
    exists k :: 0 <= k < |params| && params[k].0 == name
  }

  function MissingParams(params: seq<(string, MacroParam)>, provided: set<string>, name: string, at: string): seq<CompileError> {
    if params == [] then []
    else
      var (p, def) := params[0];
      (if def.required && def.default == Null && p !in provided then [MissingParam(name, at, p)] else [])
      + MissingParams(params[1..], provided, name, at)
  }

  function UnknownParams(given: seq<(string, Value)>, params: seq<(string, MacroParam)>, name: string, at: string): seq<CompileError> {
    if given == [] || params == [] then []
    else
      (if !Declares(params, given[0].0) then [UnknownParam(name, at, given[0].0)] else [])
      + UnknownParams(given[1..], params, name, at)
  }

  function MacroErrors(macros: map<string, Macro>, step: Step): seq<CompileError> {
    if step.use == "" then []
    else if step.use !in macros then [UnknownMacro(step.use, step.id)]
    else
      MissingParams(macros[step.use].params, ParamNames(step.withParams), step.use, step.id)
      + UnknownParams(step.withParams, macros[step.use].params, step.use, step.id)
  }

  /** What a walker reports for one step, given the ids seen so far. */
  function OwnErrors(check: Check, step: Step, seen: set<string>): seq<CompileError> {
    match check
    case StepIds => if step.id != "" && step.id in seen then [DuplicateId(step.id)] else []
    case GotoTargets(topIds) =>
      if !SkipsGoto(step.goto) && step.goto !in topIds then [GotoTarget(step.goto, step.id)] else []
    case MacroRefs(macros) => MacroErrors(macros, step)
  }

  function Seen(check: Check, step: Step, seen: set<string>): set<string> {
    if check.StepIds? && step.id != "" then seen + {step.id} else seen
  }

  function Report(check: Check, visited: seq<Step>, errors: seq<CompileError>, seen: set<string>): (seq<CompileError>, set<string>) {
    if visited == [] then (errors, seen)
    else Report(check, visited[1..], errors + OwnErrors(check, visited[0], seen), Seen(check, visited[0], seen))
  }

  lemma {:induction false} ReportConcat(check: Check, a: seq<Step>, b: seq<Step>, errors: seq<CompileError>, seen: set<string>)
    ensures var (e, s) := Report(check, a, errors, seen); Report(check, a + b, errors, seen) == Report(check, b, e, s)
  {
    if a == [] {
      assert a + b == b;
    } else {
      assert (a + b)[1..] == a[1..] + b;
      ReportConcat(check, a[1..], b, errors + OwnErrors(check, a[0], seen), Seen(check, a[0], seen));
    }
  }

  class FlowChecker {
    var errors: seq<CompileError>
    var seen: set<string>

    constructor ()
      ensures errors == [] && seen == {}
    {
      errors, seen := [], {};
    }

    /** The nested `_walk` of `_check_step_ids`, `_validate_goto_targets` and `_validate_macro_refs`. */
    method Walk(check: Check, steps: seq<Step>)
      modifies this
      ensures (errors, seen) == Report(check, Visit(!check.GotoTargets?, steps), old(errors), old(seen))
      decreases steps, 1
    {
      var maps := !check.GotoTargets?;
      for k := 0 to |steps|
        invariant Report(check, Visit(maps, steps[k..]), errors, seen) == Report(check, Visit(maps, steps), old(errors), old(seen))
      {
        var step := steps[k];
        assert steps[k..][0] == step && steps[k..][1..] == steps[k + 1..];
        ghost var rest := Visit(maps, steps[k + 1..]);
        ReportConcat(check, [step] + Inside(maps, step.kind), rest, errors, seen);
        ReportConcat(check, [step], Inside(maps, step.kind), errors, seen);
        assert Report(check, [step], errors, seen) == (errors + OwnErrors(check, step, seen), Seen(check, step, seen)) by {
          assert [step][1..] == [];
        }
        errors := errors + OwnErrors(check, step, seen);
        seen := Seen(check, step, seen);
        WalkInside(check, step.kind);
      }
    }

    method WalkInside(check: Check, kind: Kind)
      modifies this
      ensures (errors, seen) == Report(check, Inside(!check.GotoTargets?, kind), old(errors), old(seen))
      decreases kind, 0
    {
      var maps := !check.GotoTargets?;
      match kind {
        case Sequence(steps) => Walk(check, steps);
        case Branch(_, cases, default) =>
          ReportConcat(check, InCases(maps, cases), Visit(maps, default), errors, seen);
          for k := 0 to |cases|
            invariant Report(check, InCases(maps, cases[k..]), errors, seen) == Report(check, InCases(maps, cases), old(errors), old(seen))
          {
            assert cases[k..][0] == cases[k] && cases[k..][1..] == cases[k + 1..];
            ReportConcat(check, Visit(maps, cases[k].steps), InCases(maps, cases[k + 1..]), errors, seen);
            Walk(check, cases[k].steps);
          }
          Walk(check, default);
        case Loop(_, _, body) => Walk(check, body);
        case Map(_, _, body) => if maps { Walk(check, body); }
        case Pipe(stages) => Walk(check, stages);
        case Try(tries, _, finals) =>
          ReportConcat(check, Visit(maps, tries), Visit(maps, finals), errors, seen);
          Walk(check, tries);
          Walk(check, finals);
        case _ =>
      }
    }
  }

  // ---- What an empty report means ----

  lemma {:induction false} ReportGrows(check: Check, visited: seq<Step>, errors: seq<CompileError>, seen: set<string>)
    ensures errors <= Report(check, visited, errors, seen).0
  {
    if visited != [] {
      ReportGrows(check, visited[1..], errors + OwnErrors(check, visited[0], seen), Seen(check, visited[0], seen));
    }
  }

  lemma {:induction false} CleanReport(check: Check, visited: seq<Step>, seen: set<string>)
    requires !check.StepIds?
    ensures Report(check, visited, [], seen).0 == [] <==> forall k | 0 <= k < |visited| :: OwnErrors(check, visited[k], {}) == []
  {
    if visited != [] {
      var own := OwnErrors(check, visited[0], seen);
      assert [] + own == own;
      if own == [] {
        CleanReport(check, visited[1..], seen);
        assert forall k | 0 <= k < |visited[1..]| :: visited[1..][k] == visited[k + 1];
        assert (forall k | 0 <= k < |visited| :: OwnErrors(check, visited[k], {}) == [])
          <==> (forall k | 0 <= k < |visited[1..]| :: OwnErrors(check, visited[1..][k], {}) == []) by {
          forall k | 0 < k < |visited| ensures visited[k] == visited[1..][k - 1] {}
        }
      } else {
        ReportGrows(check, visited[1..], own, seen);
        assert OwnErrors(check, visited[0], {}) == own;
      }
    }
  }

  /** The id check reports nothing exactly when the ids are distinct, and distinct from those seen before. */
  lemma {:induction false} CleanIds(visited: seq<Step>, seen: set<string>)
    ensures Report(StepIds, visited, [], seen).0 == [] <==>
      && (forall k | 0 <= k < |visited| :: visited[k].id == "" || visited[k].id !in seen)
      && (forall j, k | 0 <= j < k < |visited| :: visited[j].id == "" || visited[j].id != visited[k].id)
  {
    if visited != [] {
      var v, rest := visited[0], visited[1..];
      var own := OwnErrors(StepIds, v, seen);
      assert [] + own == own;
      if own == [] {
        CleanIds(rest, Seen(StepIds, v, seen));
        forall k | 0 <= k < |rest| ensures rest[k] == visited[k + 1] {}
        forall k | 0 < k < |visited| ensures visited[k] == rest[k - 1] {}
      } else {
        ReportGrows(StepIds, rest, own, Seen(StepIds, v, seen));
      }
    }
  }

  lemma {:induction false} MissingExact(params: seq<(string, MacroParam)>, provided: set<string>, name: string, at: string)
    ensures MissingParams(params, provided, name, at) == [] <==>
      forall i | 0 <= i < |params| :: params[i].1.required && params[i].1.default == Null ==> params[i].0 in provided
  {
    if params != [] {
      MissingExact(params[1..], provided, name, at);
      assert forall i | 0 < i < |params| :: params[i] == params[1..][i - 1];
    }
  }

  lemma {:induction false} UnknownExact(given: seq<(string, Value)>, params: seq<(string, MacroParam)>, name: string, at: string)
    ensures UnknownParams(given, params, name, at) == [] <==>
      params == [] || forall i | 0 <= i < |given| :: exists k :: 0 <= k < |params| && params[k].0 == given[i].0
  {
    if given != [] && params != [] {
      UnknownExact(given[1..], params, name, at);
      assert forall i | 0 < i < |given| :: given[i] == given[1..][i - 1];
      assert Declares(params, given[0].0) <==> exists k :: 0 <= k < |params| && params[k].0 == given[0].0;
    }
  }

  /** A macro call is accepted if and only if the macro is defined, what must be given is given, and, if it
      declares any parameters, only those are. */
  lemma UseExact(macros: map<string, Macro>, step: Step)
    ensures MacroErrors(macros, step) == [] <==>
      step.use == "" ||
      (&& step.use in macros
       && var params := macros[step.use].params;
       && (forall i | 0 <= i < |params| && params[i].1.required && params[i].1.default == Null ::
             exists k :: 0 <= k < |step.withParams| && step.withParams[k].0 == params[i].0)
       && (params == [] || forall i | 0 <= i < |step.withParams| :: exists k :: 0 <= k < |params| && params[k].0 == step.withParams[i].0))
  {
    if step.use != "" && step.use in macros {
      var params := macros[step.use].params;
      MissingExact(params, ParamNames(step.withParams), step.use, step.id);
      UnknownExact(step.withParams, params, step.use, step.id);
      assert forall name :: name in ParamNames(step.withParams) <==> exists k :: 0 <= k < |step.withParams| && step.withParams[k].0 == name;
    }
  }
}
