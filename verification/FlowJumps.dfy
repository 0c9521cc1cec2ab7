/** How long a flow can run, and what `goto` and `stop()` do to it. */
module FlowJumps {
  import opened Values
  import opened FlowModel
  import opened FlowSemantics
  import opened FlowWitnesses

  /** Whatever its gotos resolve to, a flow of n steps executes at most 101 n top-level steps. */
  lemma JumpBound(env: Env, depth: nat, keep: bool, steps: seq<Step>, resume: bool, st: State, kv: Option<Checkpoint>)
    ensures Execute(env, depth, keep, steps, resume, st, kv).ran <= 101 * |steps|
  {
    var (i, entered) := Enter(keep, resume, st, kv);
    if i < |steps| {
      RanBound(env, depth, keep, steps, i, 0, entered, kv, 0);
    }
  }

  /** With `jumps` taken, and counting from the start of the list since the last jump. */
  lemma {:induction false} RanBound(env: Env, depth: nat, keep: bool, steps: seq<Step>, i: nat, jumps: nat, st: State, kv: Option<Checkpoint>, ran: nat)
    requires jumps <= MAX_GOTO_JUMPS && i <= |steps|
    requires ran <= jumps * |steps| + i
    ensures RunFrom(env, depth, keep, steps, i, jumps, st, kv, ran).ran <= (MAX_GOTO_JUMPS + 1) * |steps|
    decreases MAX_GOTO_JUMPS - jumps, |steps| - i
  {
    MoreJumps(jumps, |steps|);
    if i < |steps| && !st.stopped {
      var (o, st') := ExecStep(env, depth, [], steps[i], st);
      match o
      case Done(_) =>
        RanBound(env, depth, keep, steps, i + 1, jumps, st', if keep then Some(MakeCheckpoint(env, st', i + 1)) else kv, ran + 1);
      case Raised(Jumps(target)) =>
        var at := StepIndex(steps, target);
        if jumps + 1 <= MAX_GOTO_JUMPS && at.Some? {
          RanBound(env, depth, keep, steps, at.value, jumps + 1, st', kv, ran + 1);
        }
      case _ =>
    }
  }

  lemma MoreJumps(jumps: nat, n: nat)
    requires jumps <= MAX_GOTO_JUMPS
    ensures (jumps + 1) * n <= (MAX_GOTO_JUMPS + 1) * n && (jumps + 1) * n == jumps * n + n
  {
  }

  // ---- The bound is attained ----

  /** n - 1 empty sequences and a jump back to the first step. */
  ghost function Cycle(n: nat): seq<Step>
    requires n > 0
  {
    seq(n, i => if i == n - 1 then Step(if n == 1 then "top" else "", "", NoKind, "", [], "top")
                else Step(if i == 0 then "top" else "", "", Sequence([]), "", [], ""))
  }

  lemma CycleIndex(steps: seq<Step>, k: nat)
    requires 0 < k <= |steps| && steps[0].id == "top"
    requires forall i | 0 < i < |steps| :: steps[i].id == ""
    ensures StepIndex(steps[..k], "top") == Some(0)
  {
    if k > 1 {
      CycleIndex(steps, k - 1);
      assert steps[..k][..k - 1] == steps[..k - 1];
    }
  }

  /** For every n there is a flow of n steps that executes exactly 101 n of them. */
  lemma JumpBoundAttained(n: nat, st: State)
    requires n > 0
    ensures Execute(EchoEnv(map[]), 0, false, Cycle(n), false, st, None).ran == 101 * n
  {
    CycleRuns(n, 0, 0, st.(stopped := false, results := []), 0);
  }

  lemma CycleStep(n: nat, i: nat, st: State)
    requires i < n && !st.stopped
    ensures var (o, st') := ExecStep(EchoEnv(map[]), 0, [], Cycle(n)[i], st);
      !st'.stopped && o == if i == n - 1 then Raised(Jumps("top")) else Aggregate([], Null)
  {
  }

  lemma {:induction false} CycleRuns(n: nat, i: nat, jumps: nat, st: State, ran: nat)
    requires i < n && jumps <= MAX_GOTO_JUMPS && !st.stopped && ran == jumps * n + i
    ensures RunFrom(EchoEnv(map[]), 0, false, Cycle(n), i, jumps, st, None, ran).ran == (MAX_GOTO_JUMPS + 1) * n
    decreases MAX_GOTO_JUMPS - jumps, n - i
  {
    var st' := ExecStep(EchoEnv(map[]), 0, [], Cycle(n)[i], st).1;
    CycleStep(n, i, st);
    MoreJumps(jumps, n);
    if i == n - 1 {
      CycleIndex(Cycle(n), n);
      assert Cycle(n)[..n] == Cycle(n);
      if jumps < MAX_GOTO_JUMPS {
        CycleRuns(n, 0, jumps + 1, st', ran + 1);
      }
    } else {
      CycleRuns(n, i + 1, jumps, st', ran + 1);
    }
  }

  // ---- goto as a modifier ----

  /** The compiler's comments call `goto` a modifier that jumps after the step; the executor ignores it
      on any step that has another type. */
  lemma GotoModifierIgnored(env: Env, depth: nat, outer: seq<string>, step: Step, target: string, st: State)
    requires !InferType(step).ByGoto? && !InferType(step).ByFallback?
    ensures ExecStep(env, depth, outer, step.(goto := target), st) == ExecStep(env, depth, outer, step, st)
  {
    var policies := [step.onError] + outer;
    BranchIgnoresGoto(env, depth, policies, step, target, st);
    TryIgnoresGoto(env, depth, policies, step, target, st);
    MacroIgnoresGoto(env, depth, policies, step, target, st);
    assert Dispatch(env, depth, policies, step.(goto := target), st) == Dispatch(env, depth, policies, step, st);
  }

  lemma BranchIgnoresGoto(env: Env, depth: nat, policies: seq<string>, step: Step, target: string, st: State)
    ensures step.kind.Branch? ==> ExecBranch(env, depth, policies, step.(goto := target), st) == ExecBranch(env, depth, policies, step, st)
  {
  }

  lemma MacroIgnoresGoto(env: Env, depth: nat, policies: seq<string>, step: Step, target: string, st: State)
    ensures ExecMacro(env, depth, policies, step.(goto := target), st) == ExecMacro(env, depth, policies, step, st)
  {
  }

  lemma TryIgnoresGoto(env: Env, depth: nat, policies: seq<string>, step: Step, target: string, st: State)
    ensures step.kind.Try? ==> ExecTry(env, depth, policies, step.(goto := target), st) == ExecTry(env, depth, policies, step, st)
  {
    if step.kind.Try? {
      var (body, st1) := RunList(env, depth, policies, UntilFailure, step.kind.tries, [], st);
      assert ExecCatch(env, depth, policies, step.(goto := target), TryException(body), st1)
          == ExecCatch(env, depth, policies, step, TryException(body), st1);
    }
  }

  // ---- stop() ----

  /** A flow that is stopped during a step reports success, with no checkpoint left and whatever steps were
      still to come, if and only if that step ends normally or with a jump that could be taken. */
  lemma StoppedCountsAsSuccess(env: Env, depth: nat, keep: bool, steps: seq<Step>, i: nat, jumps: nat, st: State, kv: Option<Checkpoint>, ran: nat)
    requires i < |steps| && jumps <= MAX_GOTO_JUMPS && !st.stopped
    requires ExecStep(env, depth, [], steps[i], st).1.stopped
    ensures var o, run := ExecStep(env, depth, [], steps[i], st).0, RunFrom(env, depth, keep, steps, i, jumps, st, kv, ran);
      && run.ran == ran + 1
      && (run.end.Finished? <==> o.Done? || (o.signal.Jumps? && jumps + 1 <= MAX_GOTO_JUMPS && StepIndex(steps, o.signal.target).Some?))
      && (run.end.Finished? ==> ResultOf(run).success && ResultOf(run).status == Success && run.kv == if keep then None else kv)
  {
    var (o, st') := ExecStep(env, depth, [], steps[i], st);
    match o
    case Done(_) => StoppedAtOnce(env, depth, keep, steps, i + 1, jumps, st', if keep then Some(MakeCheckpoint(env, st', i + 1)) else kv, ran + 1);
    case Raised(Jumps(target)) =>
      var at := StepIndex(steps, target);
      if jumps + 1 <= MAX_GOTO_JUMPS && at.Some? {
        StoppedAtOnce(env, depth, keep, steps, at.value, jumps + 1, st', kv, ran + 1);
      }
    case _ =>
  }

  lemma StoppedAtOnce(env: Env, depth: nat, keep: bool, steps: seq<Step>, i: nat, jumps: nat, st: State, kv: Option<Checkpoint>, ran: nat)
    requires jumps <= MAX_GOTO_JUMPS && st.stopped
    ensures RunFrom(env, depth, keep, steps, i, jumps, st, kv, ran) == FlowRun(Finished, st, if keep then None else kv, ran)
  {
  }
}
