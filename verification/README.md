# LLMOS in Dafny

A model of the parts of LLMOS whose behaviour depends on a whole run, with proofs about all runs.
`dafny verify dfyconfig.toml` checks everything. The source paths below are relative to the root of the repository.

**The flow language.** `FlowModel` has the step tree, `FlowSemantics` says what executing a step and a whole flow
computes, and `FlowExecution.FlowExecutor` is the executor itself: a class with the recorded results, the expression
context, the stop flag and the stored checkpoint, each of whose methods is proved to compute the specification. The
specification keeps a log of everything observable. An action's reply is an unknown function of that log, so actions may
be anything: nondeterministic, failing, raising, and with effects on later actions. On top of it:

- `FlowFrame`: a step leaves the variables and the loop context as it found them, on every way out.
- `FlowResume`: a process may die after any top-level step, any number of times; the run that gets through ends as if
  nothing had happened, provided the states saved on the way are ones that a checkpoint can bring back. Which those are is
  stated exactly.
- `FlowContainment`: which exceptions fail the flow, and that nothing runs after one that does, or after `end`.
- `FlowChecks`, `FlowSoundness`: the compiler's tree walks, and what an accepted flow can no longer do.
- `FlowLaws`: what each construct does, in terms of its own fields.
- `FlowJumps`: the jump limit bounds the whole run, and the bound is attained. `FlowSteps`: retries, case and clause selection.

**The expression language.** `Expressions` has the string evaluator, which splits its input again and again, next to trees
with a meaning and a printer; evaluating a printed tree gives the tree's meaning. `Paths` does the same for the path
splitter, `Templates` for the text around expressions, `Operands` says what paths, literals and pipelines stand for.
`Text` has the string operations they use.

**The action cache.** `ActionCaching` is the session cache with its path index, `CacheKeys` what its keys and
paths mean, `CacheTransparency` the index's exactness and what an agent's run with the cache gives: the same files, and the
same outputs but for spellings of paths.

**Bounded state machines.** `RateLimiting` (sliding window), `ContextWindow` (context manager, and the trim before a request),
`ScanScoring` and `SourceScanning` (the hub's source scan and its diminishing deductions), `Approvals` (checks and counters in front of a tool call), `HubTables` (the hub's
repeated columns) and `Screenshots` (the in-place removal of old images).

## Where the code does not do what is promised

The model follows the code. Each of these is a lemma below.

- A comment in the compiler calls `goto` a modifier that jumps after the step (`apps/compiler.py:715-717`). The executor
  never takes it on a step of another type: `GotoModifierIgnored`.
- A failed result that was absorbed is not in the checkpoint, so a resumed run loses it: `FailedResultIsLost`. Loops and
  pipes leave context behind that no checkpoint has: `LoopContextIsLost`. A checkpoint brings a state back if and only if
  all results in it succeeded and survive JSON, and variables and loop context are as at the start: `RestoreExact`.
- The static checks have blind spots: jumps inside a `map`, a catch clause or a macro body, computed targets, and calls of
  unknown macros in catch clauses and macro bodies, or anywhere when no macro is defined (`GotoInMapIsMissed`,
  `GotoInCatchIsMissed`, `GotoInMacroIsMissed`, `TemplateGotoIsMissed`, `UseInCatchIsMissed`, `UseInMacroIsMissed`,
  `UseWithoutMacrosIsMissed`). `AcceptedGood` says exactly what the checks leave open, and `CheckSoundness` that flows in
  which these places are in order cannot fail.
- `try` catches `end` and `goto` as well: `TrySwallowsSignals`. A failed result in its body fails the step even if a clause
  handles it, a raised exception does not: `HandledFailureStillFails`, `HandledExceptionSucceeds`.
- A stopped flow is reported as a success and its checkpoint is removed; `StoppedCountsAsSuccess` says exactly when.
- Operators and pipes inside quotes split the text: `QuotesDoNotProtect`, `QuotedPipe`; `QuotesKeepTogether` says exactly
  when quotes protect what they enclose.
- The cache takes two spellings of a path for one, and the filesystem module answers with the path as spelled, so the second
  spelling gets the first one's answer: `SecondSpellingIsLost`. `SecondReadExact` says exactly when that shows.
- With the cache, a read with a list or dictionary parameter fails: `UnhashableReadFails`. An empty path leaves stale pairs
  in the index: `EmptyPathBreaksIndex`, and exactly empty paths do: `PutKeepsExact`. Writes through a shell are not
  noticed: `UnlistedWriteGoesUnnoticed`, `ShellIsNotSane`.
- A rating stored before a module's first publication leaves its row wrong, and no other operation does: `AgreesExactly`.
  The rate endpoint refuses modules without a row, so only another caller of the store can do that.
- Compressing the context drops messages by number, not until it fits: `TruncationFits` and `SummaryFits` say exactly when it
  does fit, `CompressionMayStillOverflow` that a large message never does.
- `keep_last=0` keeps every screenshot: `KeepsLast` has the exact condition.
- Modules with dots in their names share approval counters: `SharedCounter`, `OwnCounter`. Action steps and agents' calls
  split names at the first dot, so only a `dispatch` step can name such a module.

## Model

| member | source | states |
|---|---|---|
| FlowExecution.FlowExecutor.ExecuteFlow | packages/llmos-bridge/llmos_bridge/apps/flow_executor.py:174-261 | `execute`: result, recorded results, context, log and stored checkpoint are those of `Execute`; success if and only if the flow finished or ended with that status, an error if and only if it stopped with one |
| FlowExecution.FlowExecutor.RunSteps | packages/llmos-bridge/llmos_bridge/apps/flow_executor.py:208-233 | The main loop with its index, its jump counter and a checkpoint after each step ends as `RunFrom` |
| FlowExecution.FlowExecutor.Begin | packages/llmos-bridge/llmos_bridge/apps/flow_executor.py:185-204 | What a fresh or a resumed run starts from |
| FlowExecution.FlowExecutor.SaveCheckpoint | packages/llmos-bridge/llmos_bridge/apps/flow_executor.py:268-290 | Outputs of the successful results through JSON, and the next index, replace the stored checkpoint |
| FlowExecution.FlowExecutor.ExecuteStep | packages/llmos-bridge/llmos_bridge/apps/flow_executor.py:316-345 | Signals pass, exceptions are absorbed or wrapped by `on_error`, results are recorded |
| FlowExecution.FlowExecutor.DispatchStep | packages/llmos-bridge/llmos_bridge/apps/flow_executor.py:347-377 | Each type of step goes to its handler |
| FlowExecution.FlowExecutor.ExecuteAction | packages/llmos-bridge/llmos_bridge/apps/flow_executor.py:381-437 | Name and parameters are resolved, then the attempts run as in `Attempts` |
| FlowExecution.FlowExecutor.ExecuteBranch | packages/llmos-bridge/llmos_bridge/apps/flow_executor.py:526-557 | The matching case's steps, or the default's, run in order |
| FlowExecution.FlowExecutor.ExecuteLoop | packages/llmos-bridge/llmos_bridge/apps/flow_executor.py:559-594 | Iterations, their outputs, the stop flag and the `until` condition |
| FlowExecution.FlowExecutor.ExecuteMap | packages/llmos-bridge/llmos_bridge/apps/flow_executor.py:596-642 | The sequential map, restoring the variable and the loop context on every way out of an item |
| FlowExecution.FlowExecutor.ExecuteMacro | packages/llmos-bridge/llmos_bridge/apps/flow_executor.py:780-834 | Parameters, defaults, missing ones, the body, and the `macro` variable put back |
| FlowExecution.FlowExecutor.ExecuteTry | packages/llmos-bridge/llmos_bridge/apps/flow_executor.py:856-904 | `try`, the first matching clause, `finally`, and which exception leaves the step |
| FlowExecution.FlowExecutor.RunChildren | packages/llmos-bridge/llmos_bridge/apps/flow_executor.py:451-464 | Children in order, cut short by a signal, the stop flag, or a failure where the construct says so |
| FlowLaws.FlowResultExact | packages/llmos-bridge/llmos_bridge/apps/flow_executor.py:235-261 | Success, status, output and error text of a flow, by how it stopped |
| FlowLaws.EnterExact | packages/llmos-bridge/llmos_bridge/apps/flow_executor.py:181-204 | A run starts at the beginning with nothing recorded, unless it is resumed and a checkpoint is there |
| FlowLaws.FlowInOrder | packages/llmos-bridge/llmos_bridge/apps/flow_executor.py:206-233 | Top-level steps run in order but for jumps, each to the last step with its target's id and at most a hundred of them; the last step's outcome is why the run stops |
| FlowLaws.OnErrorExact | packages/llmos-bridge/llmos_bridge/apps/flow_executor.py:321-336 | A raised exception becomes a failed result under three policies and is raised again, with the step's id, under any other; signals pass |
| FlowLaws.ResultRecorded | packages/llmos-bridge/llmos_bridge/apps/flow_executor.py:338-345 | A result is recorded under its step's id, and later steps see its output or `_error` |
| FlowLaws.ListRuns | packages/llmos-bridge/llmos_bridge/apps/flow_executor.py:451-464 | Children run one after the other in the state left by the one before, in a pipe with its output, until the list ends, a signal, the stop flag or a failure, as the construct says |
| FlowLaws.SequenceLaw | packages/llmos-bridge/llmos_bridge/apps/flow_executor.py:451-464 | A sequence checks the stop flag, succeeds if and only if all children do, and has the last one's output |
| FlowLaws.PipeLaw | packages/llmos-bridge/llmos_bridge/apps/flow_executor.py:739-754 | A pipe stops at the first failure |
| FlowLaws.BranchTakesFirstFit | packages/llmos-bridge/llmos_bridge/apps/flow_executor.py:532-557 | A branch runs the first case whose key is its value's text, its lower-case text, empty for None, or the boolean in any case, and the default if there is none |
| FlowLaws.ActionCalls | packages/llmos-bridge/llmos_bridge/apps/flow_executor.py:384-437 | An action calls the module and the action that its name says, with its resolved parameters, and nothing else |
| FlowLaws.ActionFails | packages/llmos-bridge/llmos_bridge/apps/flow_executor.py:386-390 | Without a dot in its name or without any attempt it fails and calls nothing |
| FlowLaws.UnresolvedRaises | packages/llmos-bridge/llmos_bridge/apps/flow_executor.py:985-987 | What does not resolve raises |
| FlowLaws.EndLaw | packages/llmos-bridge/llmos_bridge/apps/flow_executor.py:972-976 | `end` raises its status and its resolved output, None if that is empty |
| FlowLaws.GotoLaw | packages/llmos-bridge/llmos_bridge/apps/flow_executor.py:978-983 | `goto` raises its resolved target |
| FlowLaws.LoopLaw | packages/llmos-bridge/llmos_bridge/apps/flow_executor.py:566-594 | The iterations, each with its number in the loop context, go on to the bound, the stop flag or the condition; the output has each one's last output |
| FlowLaws.ItemLaw | packages/llmos-bridge/llmos_bridge/apps/flow_executor.py:618-640 | The body sees the item under its name and its number in the loop context, and both are put back |
| FlowLaws.MapLaw | packages/llmos-bridge/llmos_bridge/apps/flow_executor.py:608-642 | One result per item, success if and only if all succeed; a failed result for anything but a list |
| FlowLaws.MapRaises | packages/llmos-bridge/llmos_bridge/apps/flow_executor.py:618-640 | A map that raises does so on one item, after the ones before it |
| FlowLaws.ParamsResolved | packages/llmos-bridge/llmos_bridge/apps/flow_executor.py:791-793 | Each parameter of a macro call is resolved under its own name |
| FlowLaws.DefaultsExact | packages/llmos-bridge/llmos_bridge/apps/flow_executor.py:796-810 | The body sees what is given, else the default; the first missing required parameter is named |
| FlowLaws.MacroLaw | packages/llmos-bridge/llmos_bridge/apps/flow_executor.py:780-834 | Unknown macros and missing parameters fail; the body runs with its parameters under `macro`, to the first failure |
| FlowLaws.BodyException | packages/llmos-bridge/llmos_bridge/apps/flow_executor.py:863-868 | What ends the body of a `try` |
| FlowLaws.ExceptionClasses | packages/llmos-bridge/llmos_bridge/apps/flow_executor.py:870-872 | The class names that clauses match |
| FlowLaws.TryLaw | packages/llmos-bridge/llmos_bridge/apps/flow_executor.py:863-904 | The first matching clause or a failed result handles it, `finally` runs in any case and its exception goes first, and the children are those of the three parts in order |
| FlowSteps.SplitAtFirstDot | packages/llmos-bridge/llmos_bridge/apps/flow_executor.py:386-390 | An action name is taken apart at its first dot, and only if it has one |
| FlowSteps.RetryUntilSuccess | packages/llmos-bridge/llmos_bridge/apps/flow_executor.py:402-437 | An action is called until a reply is no failure, at most `max_attempts` times; the last reply alone decides the outcome |
| FlowSteps.FirstCase | packages/llmos-bridge/llmos_bridge/apps/flow_executor.py:536-547 | A branch takes the first case that matches, and none if there is none |
| FlowSteps.FirstCatch | packages/llmos-bridge/llmos_bridge/apps/flow_executor.py:876-888 | The first clause that matches the exception's class name is used |
| FlowSteps.TrySwallowsSignals | packages/llmos-bridge/llmos_bridge/apps/flow_executor.py:870-899 | A `try` also ends `end` and `goto` signals: an exception gets out if and only if a `finally` step raises one, or the body did and the first matching clause says "fail" or has a step that raises |
| FlowSteps.HandledTry | packages/llmos-bridge/llmos_bridge/apps/flow_executor.py:866-904 | A `try` that ends with a result succeeds if and only if all children of its body, of the clause and of `finally` do |
| FlowSteps.HandledFailureStillFails | packages/llmos-bridge/llmos_bridge/apps/flow_executor.py:866-904 | So a failed result in the body fails the step even when a clause handles it |
| FlowSteps.HandledExceptionSucceeds | packages/llmos-bridge/llmos_bridge/apps/flow_executor.py:870-904 | But after a raised exception, without `finally`, the step succeeds if and only if a clause matches and its step, if any, succeeds |
| FlowSteps.EngineKeepsPlainText | packages/llmos-bridge/llmos_bridge/apps/flow_executor.py:985-987 | With the modelled expression engine, the executor meets the assumption that `CheckSoundness` makes on texts without templates |
| FlowFrame.StepFramed | packages/llmos-bridge/llmos_bridge/apps/flow_executor.py:316-345 | In any nesting the context's results change by the recorded ones only; without loops and pipes nothing else of the context changes |
| FlowFrame.FrameTheorem | packages/llmos-bridge/llmos_bridge/apps/flow_executor.py:780-834 | Every `variables.get` and the loop context are as before, on normal exit, exceptions, `end` and `goto`, for any nesting of action, sequence, branch, macro, try and map steps |
| FlowFrame.MapInOrder | packages/llmos-bridge/llmos_bridge/apps/flow_executor.py:616-642 | A map that ends normally has one child and one output per item, in order, each computed from the state the items before it left |
| FlowFrame.SuccessHasNoError | packages/llmos-bridge/llmos_bridge/apps/flow_executor.py:316-345 | A successful result carries no error |
| FlowResume.StepAlike | packages/llmos-bridge/llmos_bridge/apps/flow_executor.py:316-345 | Two states that differ in their past and in the children of recorded results do the same from here on |
| FlowResume.RunAlike | packages/llmos-bridge/llmos_bridge/apps/flow_executor.py:208-233 | The same for the rest of a flow, as long as the longer run stays within the jump limit |
| FlowResume.RestoreExact | packages/llmos-bridge/llmos_bridge/apps/flow_executor.py:265-303 | Loading any state that a run saved gives that state back if and only if every recorded result succeeded and survives JSON, and the variables and the loop context are those of the start |
| FlowResume.ScopedRecoverable | packages/llmos-bridge/llmos_bridge/apps/flow_executor.py:268-290 | In flows without loops and pipes the second half always holds, so only the results matter |
| FlowResume.SavedAtEnd | packages/llmos-bridge/llmos_bridge/apps/flow_executor.py:221-244 | What a finished run leaves in the store: nothing after success or `end`, the last checkpoint after an error |
| FlowResume.SavedOnTheWay | packages/llmos-bridge/llmos_bridge/apps/flow_executor.py:208-233 | Every checkpoint that a run saves is of a state from which the run went on to its end |
| FlowResume.ResumeInvariant | packages/llmos-bridge/llmos_bridge/apps/flow_executor.py:208-233 | At every moment of a run of any flow whose own calls are deterministic, resuming from the store, if its checkpoint can be brought back, ends as the run itself will |
| FlowResume.ResumeEquivalence | packages/llmos-bridge/llmos_bridge/apps/flow_executor.py:174-312 | Whatever the steps: crash after any of them, then `execute(resume=True)` from a checkpoint that can be brought back gives the success, status, output, error and recorded results of the uninterrupted run |
| FlowResume.ResumeAfterCrashes | packages/llmos-bridge/llmos_bridge/apps/flow_executor.py:174-312 | The same after any number of crashes, each at any point; what the last process does is the end of what the uninterrupted run does |
| FlowResume.ResumeInSameWorld | packages/llmos-bridge/llmos_bridge/apps/flow_executor.py:174-312 | Without any assumption on the actions: after a crash between a save and the next step, in a world that persists, the resumed run does exactly what the uninterrupted one does |
| FlowResume.FailedResultIsLost | packages/llmos-bridge/llmos_bridge/apps/flow_executor.py:272-278 | A flow whose resumed run reports one result instead of two |
| FlowResume.LoopContextIsLost | packages/llmos-bridge/llmos_bridge/apps/flow_executor.py:579-580 | A flow with a loop whose checkpoint has restorable results but another loop context, and whose resumed run has another output |
| FlowContainment.StepExplains | packages/llmos-bridge/llmos_bridge/apps/flow_executor.py:316-345 | How a step ends is explained by the last thing that happened in it |
| FlowContainment.ErrorContainment | packages/llmos-bridge/llmos_bridge/apps/flow_executor.py:185-261 | In any run, resumed or not, a raised exception fails the flow, and its result is no success, if and only if no step from the raising one to the top absorbs it; a flow ends by `end`, with its status, if and only if one was reached; nothing runs after either |
| FlowContainment.NearestAbsorbs | packages/llmos-bridge/llmos_bridge/apps/flow_executor.py:321-336 | The nearest absorbing step turns the exception into its own failed result, and later steps see `_error` |
| FlowChecks.FlowChecker.Walk | packages/llmos-bridge/llmos_bridge/apps/compiler.py:301-444 | The recursive walks report what a scan of the steps in visiting order reports |
| FlowChecks.CleanReport | packages/llmos-bridge/llmos_bridge/apps/compiler.py:336-444 | The goto and macro checks pass if and only if no visited step has an error of its own |
| FlowChecks.CleanIds | packages/llmos-bridge/llmos_bridge/apps/compiler.py:301-334 | The id check passes if and only if all ids that it visits are distinct |
| FlowChecks.UseExact | packages/llmos-bridge/llmos_bridge/apps/compiler.py:391-414 | A macro call is accepted if and only if the macro is defined, required parameters are given, and, if it declares any, only declared ones |
| FlowSoundness.RequiredParamsExact | packages/llmos-bridge/llmos_bridge/apps/compiler.py:397-405 | The static check of required parameters passes if and only if the call finds them all at run time |
| FlowSoundness.SeenGood | packages/llmos-bridge/llmos_bridge/apps/compiler.py:350-376 | What the walks visit, and hidden parts that are as good, cover every step of the tree |
| FlowSoundness.AcceptedGood | packages/llmos-bridge/llmos_bridge/apps/compiler.py:336-444 | Every step of an accepted flow is good if and only if what the walks do not see is, and no macro is called where the macro check is skipped |
| FlowSoundness.CheckSoundness | packages/llmos-bridge/llmos_bridge/apps/compiler.py:114-119 | No run of an accepted flow, resumed or not, misses a goto target, a macro or a required parameter, with macros or without any, if catch clauses, map bodies and macro bodies are good as well |
| FlowSoundness.GotoInMapIsMissed | packages/llmos-bridge/llmos_bridge/apps/compiler.py:350-376 | An accepted flow with a jump in a map body fails with "goto target not found" |
| FlowSoundness.GotoInCatchIsMissed | packages/llmos-bridge/llmos_bridge/apps/compiler.py:350-376 | One with a jump in a catch clause |
| FlowSoundness.UseInCatchIsMissed | packages/llmos-bridge/llmos_bridge/apps/compiler.py:391-436 | One with a call of an unknown macro in a catch clause |
| FlowSoundness.UseInMacroIsMissed | packages/llmos-bridge/llmos_bridge/apps/compiler.py:378-436 | One with a call of an unknown macro in a macro body |
| FlowSoundness.GotoInMacroIsMissed | packages/llmos-bridge/llmos_bridge/apps/compiler.py:336-378 | One with a jump in a macro body |
| FlowSoundness.TemplateGotoIsMissed | packages/llmos-bridge/llmos_bridge/apps/compiler.py:350-357 | One with a target that a template computes |
| FlowSoundness.UseWithoutMacrosIsMissed | packages/llmos-bridge/llmos_bridge/apps/compiler.py:116-119 | An accepted flow that calls an unknown macro |
| FlowSoundness.JumpLandsOnIt | packages/llmos-bridge/llmos_bridge/apps/flow_executor.py:206-210 | With distinct ids a jump lands on the one step that has the id |
| FlowJumps.JumpBound | packages/llmos-bridge/llmos_bridge/apps/flow_executor.py:212-233 | Whatever the gotos resolve to, n top-level steps are executed at most 101 n times |
| FlowJumps.JumpBoundAttained | packages/llmos-bridge/llmos_bridge/apps/flow_executor.py:212-233 | For every n there is a flow that executes exactly 101 n steps |
| FlowJumps.GotoModifierIgnored | packages/llmos-bridge/llmos_bridge/apps/models.py:682-722 | The `goto` of a step with another type has no effect |
| FlowJumps.StoppedCountsAsSuccess | packages/llmos-bridge/llmos_bridge/apps/flow_executor.py:217-243 | After `stop()` during a step the flow is a success without a checkpoint, whatever was left to do, if and only if that step ends normally or with a jump that could be taken |
| Text.FindIsFirst | packages/llmos-bridge/llmos_bridge/apps/expression.py:134-135 | `in` and `split(op, 1)` agree on the operator's first occurrence |
| Text.StripExact | packages/llmos-bridge/llmos_bridge/apps/expression.py:134-176 | Stripping takes all blanks off both ends and nothing else |
| Expressions.TakeApart | packages/llmos-bridge/llmos_bridge/apps/expression.py:131-180 | Every recursive call is on a shorter string |
| Expressions.EvaluatePrint | packages/llmos-bridge/llmos_bridge/apps/expression.py:131-180 | Evaluating the text of any layered operator tree, filters included, gives the tree's meaning |
| Operands.PathExtends | packages/llmos-bridge/llmos_bridge/apps/expression.py:206-215 | A path with one name more stands for a part of what the shorter one stands for: an entry, an item by its number, an attribute, or Null if it is missing |
| Operands.PathOfOne | packages/llmos-bridge/llmos_bridge/apps/expression.py:201-208 | A single name stands for its namespace; a path that does not split raises |
| Operands.LiteralValues | packages/llmos-bridge/llmos_bridge/apps/expression.py:184-199 | Digits, floats and the named constants, in the order in which they are tried |
| Operands.DigitsRoundTrip | packages/llmos-bridge/llmos_bridge/apps/expression.py:187-188 | Digits stand for the number that is printed so |
| Operands.PipelineExtends | packages/llmos-bridge/llmos_bridge/apps/expression.py:171-178 | Filters apply from left to right |
| Operands.NotMeans | packages/llmos-bridge/llmos_bridge/apps/expression.py:168-169 | `not` is true of None, false, zero and empty values only |
| Expressions.Connectives | packages/llmos-bridge/llmos_bridge/apps/expression.py:134-169 | What each operator means in terms of truth, null and its operands |
| Expressions.SkippedOperand | packages/llmos-bridge/llmos_bridge/apps/expression.py:134-169 | An operand that is not needed is not evaluated, whatever it is |
| Expressions.OrBindsTighter | packages/llmos-bridge/llmos_bridge/apps/expression.py:158-169 | `a or b and c` means `(a or b) and c` |
| Expressions.ReadingsAgree | packages/llmos-bridge/llmos_bridge/apps/expression.py:158-169 | For words with values A, B, C this is `a or (b and c)` if and only if A is false or C is A |
| Expressions.QuotesKeepTogether | packages/llmos-bridge/llmos_bridge/apps/expression.py:131-185 | Quotes keep a text in one piece if and only if no operator between blanks and no pipe occurs in it |
| Expressions.QuotesProtect | packages/llmos-bridge/llmos_bridge/apps/expression.py:131-185 | Such a text evaluates to what it quotes |
| Expressions.QuotesDoNotProtect | packages/llmos-bridge/llmos_bridge/apps/expression.py:134-169 | Any other quoted text with an operator evaluates, or fails, as the operator applied to the two halves, each with one quote |
| Expressions.QuotedPipe | packages/llmos-bridge/llmos_bridge/apps/expression.py:172-178 | One with a pipe is taken for a path and filters |
| Expressions.QuotedOperatorSplits | packages/llmos-bridge/llmos_bridge/apps/expression.py:158-185 | For one, `'a and b'` is not the text it quotes |
| Paths.SplitPath | packages/llmos-bridge/llmos_bridge/apps/expression.py:227-258 | The loop over the characters computes `Split`, with the error for an unclosed bracket |
| Paths.PathRoundTrip | packages/llmos-bridge/llmos_bridge/apps/expression.py:227-258 | Printing any list of segments with `.`, `?.`, `[...]` or `?[...]` and splitting it gives the list back |
| Paths.UnclosedFails | packages/llmos-bridge/llmos_bridge/apps/expression.py:245-252 | A bracket that is not closed raises |
| Paths.SplitCanonical | packages/llmos-bridge/llmos_bridge/apps/expression.py:227-258 | Whatever splits, splits as its canonical printing does |
| Templates.PlainTextStays | packages/llmos-bridge/llmos_bridge/apps/expression.py:114-129 | A text without templates resolves to itself |
| Templates.SingleTemplate | packages/llmos-bridge/llmos_bridge/apps/expression.py:116-120 | A text that is one template gives the expression's value with its type |
| Templates.InterpolateFills | packages/llmos-bridge/llmos_bridge/apps/expression.py:122-129 | In any alternation of text and templates each template, and nothing else, is replaced by its value |
| Templates.ShownExact | packages/llmos-bridge/llmos_bridge/apps/expression.py:123-127 | A template that gives None leaves nothing, any other its text |
| Templates.ConditionExact | packages/llmos-bridge/llmos_bridge/apps/expression.py:100-112 | Which resolved values make a condition false |
| FilePaths.OverlapShares | packages/llmos-bridge/llmos_bridge/apps/action_cache.py:260-265 | Two paths overlap if and only if some location lies at or below both |
| CacheKeys.OverlapExact | packages/llmos-bridge/llmos_bridge/apps/action_cache.py:260-265 | Paths overlap if they are equal or one continues the other after a slash; names that merely start alike do not |
| CacheKeys.KeysExact | packages/llmos-bridge/llmos_bridge/apps/action_cache.py:219-237 | Two calls share a key if and only if they are of one action with the same parameters, up to spellings of paths and numbers that are equal |
| CacheKeys.PathsExact | packages/llmos-bridge/llmos_bridge/apps/action_cache.py:239-247 | A call's paths are the resolved texts of four parameters |
| CacheKeys.WritePathsExact | packages/llmos-bridge/llmos_bridge/apps/action_cache.py:168-172 | A write also touches the first of three destinations that is given |
| ActionCaching.ActionSessionCache.Get | packages/llmos-bridge/llmos_bridge/apps/action_cache.py:117-135 | What a lookup answers and what it counts |
| ActionCaching.ActionSessionCache.Put | packages/llmos-bridge/llmos_bridge/apps/action_cache.py:137-154 | The entry and its pairs in the path index |
| ActionCaching.ActionSessionCache.InvalidateForWrite | packages/llmos-bridge/llmos_bridge/apps/action_cache.py:156-200 | Entries and pairs of the keys found by the index are gone, empty buckets too, and the count is theirs |
| CacheTransparency.IndexPut | packages/llmos-bridge/llmos_bridge/apps/action_cache.py:149-154 | Storing keeps the index exact if and only if no path of an overwritten entry goes missing |
| CacheTransparency.PutKeepsExact | packages/llmos-bridge/llmos_bridge/apps/action_cache.py:137-154 | A read keeps the index exact, and its paths those of its key, if and only if no path parameter is empty |
| CacheTransparency.WriteScans | packages/llmos-bridge/llmos_bridge/apps/action_cache.py:156-200 | Invalidation keeps the index exact, and removes and counts exactly what a scan of all entries would |
| CacheTransparency.RunExact | packages/llmos-bridge/llmos_bridge/apps/action_cache.py:117-200 | In every state of every session, whatever the tools do, the index holds exactly the pairs of the entries and no empty bucket, as long as no path is empty |
| CacheTransparency.EmptyPathBreaksIndex | packages/llmos-bridge/llmos_bridge/apps/action_cache.py:240-247 | Two reads that leave a pair in the index which no entry has |
| CacheTransparency.ToolRuntime.ExecuteToolCall | packages/llmos-bridge/llmos_bridge/apps/agent_runtime.py:669-725 | Invalidate, look up, execute, store; errors by `on_tool_error` |
| CacheKeys.RepliesExact | packages/llmos-bridge/llmos_bridge/apps/agent_runtime.py:685-725 | What the agent sees of a reply, and of an exception under each `on_tool_error` |
| CacheTransparency.CallTransparent | packages/llmos-bridge/llmos_bridge/apps/agent_runtime.py:669-697 | From any good session a sane call gives the files of direct execution, and its answer to the call as it was first spelled; the session stays good |
| CacheTransparency.RunAnswered | packages/llmos-bridge/llmos_bridge/apps/agent_runtime.py:667-697 | Any run of sane calls, whatever the tools do on other calls, gives the files of direct execution, and each call is answered as direct execution would now answer it or an earlier read with its key |
| CacheTransparency.RunTransparent | packages/llmos-bridge/llmos_bridge/apps/agent_runtime.py:667-697 | If the run's reads with one key have one answer, all answers and files are those of direct execution |
| CacheTransparency.NewSessionTransparent | packages/llmos-bridge/llmos_bridge/apps/agent_runtime.py:667-697 | In particular in a new session |
| CacheTransparency.SecondReadExact | packages/llmos-bridge/llmos_bridge/apps/action_cache.py:117-135 | After a successful read another one with its key is answered as by direct execution if and only if the two have the same answer |
| CacheTransparency.SecondSpellingIsLost | packages/llmos-bridge/llmos_bridge/modules/filesystem/module.py:71-79 | Reading a file under two spellings of its path gives the first spelling's answer twice |
| CacheTransparency.FileToolsQualify | packages/llmos-bridge/llmos_bridge/apps/action_cache.py:44-78 | With tools that read and write a file tree, resolve paths in any way and repeat their parameters in any way, every call meets the two conditions on its own |
| CacheTransparency.ShellIsNotSane | packages/llmos-bridge/llmos_bridge/apps/action_cache.py:44-78 | With a shell beside them, reading a file still meets them, and the shell command does not |
| CacheTransparency.UnhashableReadFails | packages/llmos-bridge/llmos_bridge/apps/action_cache.py:218-237 | A read with a list or dictionary parameter raises instead of reading |
| CacheTransparency.UnlistedWriteGoesUnnoticed | packages/llmos-bridge/llmos_bridge/apps/action_cache.py:65-78 | A run with an unlisted write in which the cache answers with old content |
| RateLimiting.RateLimiter.IsRateLimited | packages/llmos-bridge/llmos_bridge/api/middleware.py:88-103 | The purge loop, the decision and the append; other clients' queues stay |
| RateLimiting.QueueIsTail | packages/llmos-bridge/llmos_bridge/api/middleware.py:88-103 | A queue is the end of the client's accepted requests, short of old ones only |
| RateLimiting.RefusedExactly | packages/llmos-bridge/llmos_bridge/api/middleware.py:94-103 | A request is refused if and only if `max` accepted ones of its client lie in the last 60 seconds |
| RateLimiting.WindowBound | packages/llmos-bridge/llmos_bridge/api/middleware.py:88-103 | Every closed 60-second interval, anywhere in a run, has at most `max` accepted requests of a client |
| ContextWindow.ContextManager.AddMessage | packages/llmos-bridge/llmos_bridge/apps/context_manager.py:69-75 | The new window is `Added`, and the running total is the sum of the estimates |
| ContextWindow.ContextManager.CompressTruncate | packages/llmos-bridge/llmos_bridge/apps/context_manager.py:146-152 | The last messages stay and the total is corrected by what is dropped |
| ContextWindow.ContextManager.CompressSlidingWindow | packages/llmos-bridge/llmos_bridge/apps/context_manager.py:154-184 | A summary and the last messages |
| ContextWindow.AddedExact | packages/llmos-bridge/llmos_bridge/apps/context_manager.py:69-75 | Nothing is compressed up to eighty percent of the budget; an estimate that comes with a message is kept |
| ContextWindow.CompressedExact | packages/llmos-bridge/llmos_bridge/apps/context_manager.py:146-180 | The last messages stay, behind a summary of the others unless truncating |
| ContextWindow.EstimateExact | packages/llmos-bridge/llmos_bridge/apps/context_manager.py:192-196 | Four characters to a token, at least one for any text |
| ContextWindow.SummaryExact | packages/llmos-bridge/llmos_bridge/apps/context_manager.py:160-178 | A summary is a user message with the last twenty lines under its heading |
| ContextWindow.SummaryLinesExact | packages/llmos-bridge/llmos_bridge/apps/context_manager.py:162-169 | The line for each dropped message |
| ContextWindow.WindowRefinesLog | packages/llmos-bridge/llmos_bridge/apps/context_manager.py:69-184 | After any run, under changing system prompts: at most a summary, then the end of the full log, with no fewer messages than promised |
| ContextWindow.SummariesAccount | packages/llmos-bridge/llmos_bridge/apps/context_manager.py:154-184 | Unless truncating, the summary is one of exactly the messages before that end, through the summaries within it |
| ContextWindow.OverflowBounds | packages/llmos-bridge/llmos_bridge/apps/context_manager.py:128-184 | How many messages an overflow leaves |
| ContextWindow.TruncationFits | packages/llmos-bridge/llmos_bridge/apps/context_manager.py:146-152 | Truncating ends below the threshold if and only if the last `keep_last_n` messages alone are below it |
| ContextWindow.SummaryFits | packages/llmos-bridge/llmos_bridge/apps/context_manager.py:154-184 | With a summary, if and only if nothing overflowed, or the summary of what is dropped and the last messages are below it |
| ContextWindow.CompressionMayStillOverflow | packages/llmos-bridge/llmos_bridge/apps/context_manager.py:128-184 | For one, a message larger than the budget stays |
| ContextWindow.TrimToFit | packages/llmos-bridge/llmos_bridge/apps/agent_runtime.py:568-576 | The longest suffix that fits |
| ContextWindow.AllowanceExact | packages/llmos-bridge/llmos_bridge/apps/agent_runtime.py:565-567 | Seventy percent of the window less the fixed parts, or thirty percent |
| ContextWindow.Preflight | packages/llmos-bridge/llmos_bridge/apps/agent_runtime.py:549-582 | Nothing is trimmed below 95%; above it the longest fitting suffix is sent, and the request takes at most 70% if the fixed parts do |
| ScanScoring.ScoreFindings | packages/llmos-hub/llmos_hub/scanner.py:166-183 | The loop's score; rejected if and only if that is below the threshold, allowed if and only if it is not and there are no findings |
| ScanScoring.ScoreBounds | packages/llmos-hub/llmos_hub/scanner.py:166-175 | The score lies between 0 and 100 and is what is left of 100 |
| ScanScoring.ClosedForm | packages/llmos-hub/llmos_hub/scanner.py:166-175 | The score is 100 less severity times a harmonic number per rule, clamped |
| ScanScoring.MoreFindingsScoreLower | packages/llmos-hub/llmos_hub/scanner.py:166-175 | More findings never raise the score, and their order does not matter |
| SourceScanning.ScanDirectory | packages/llmos-hub/llmos_hub/scanner.py:132-190 | The loops over files, lines and rules: the findings, the number of files, and the score and verdict of those findings |
| SourceScanning.ScanFindings | packages/llmos-hub/llmos_hub/scanner.py:137-164 | A finding is there if and only if a line, not a comment, of a file outside hidden, cache and test directories has it |
| SourceScanning.ScanConsistent | packages/llmos-hub/llmos_hub/scanner.py:150-164 | In a scan with distinct rule ids two findings of a rule never differ in severity |
| SourceScanning.HubIds | packages/llmos-hub/llmos_hub/scanner.py:67-118 | The hub's rule ids are distinct |
| SourceScanning.HubClosedForm | packages/llmos-hub/llmos_hub/scanner.py:132-175 | The closed form holds of every scan with the hub's rules |
| SourceScanning.HubMoreFilesScoreLower | packages/llmos-hub/llmos_hub/scanner.py:132-175 | More files never raise a module's score, and their order does not matter |
| SourceScanning.HubVerdictStays | packages/llmos-hub/llmos_hub/scanner.py:177-183 | A module that is rejected is rejected with more files too |
| Approvals.DaemonToolExecutor.SetCapabilities | packages/llmos-bridge/llmos_bridge/apps/daemon_executor.py:181-186 | A new configuration starts with no counts |
| Approvals.DaemonToolExecutor.CheckCapabilities | packages/llmos-bridge/llmos_bridge/apps/daemon_executor.py:788-832 | Denials first, then grants with their constraints; the tool constraints are left as found |
| Approvals.DaemonToolExecutor.CheckGrantConstraints | packages/llmos-bridge/llmos_bridge/apps/daemon_executor.py:834-854 | The constraint table is changed for the check and restored whatever the check does |
| Approvals.DaemonToolExecutor.CheckApprovalRequired | packages/llmos-bridge/llmos_bridge/apps/daemon_executor.py:1006-1037 | The first rule that demands approval gives the message |
| Approvals.DaemonToolExecutor.Execute | packages/llmos-bridge/llmos_bridge/apps/daemon_executor.py:240-428 | The reply of the whole chain of checks, and a count exactly when the call is done |
| Approvals.DoneExactly | packages/llmos-bridge/llmos_bridge/apps/daemon_executor.py:263-414 | An action is done if and only if every check passes, no denial applies, a grant covers its module and action if there are grants and its constraints hold, no approval rule asks, its risk is below the limit, and it succeeds |
| Approvals.RunPermitted | packages/llmos-bridge/llmos_bridge/apps/daemon_executor.py:788-832 | In every run, what was done was permitted at the time |
| Approvals.FirstDemand | packages/llmos-bridge/llmos_bridge/apps/daemon_executor.py:1016-1037 | Approval is demanded if and only if some rule applies |
| Approvals.CountsAreSuccesses | packages/llmos-bridge/llmos_bridge/apps/daemon_executor.py:412-414 | In every run the counters equal the successful executions |
| Approvals.ThresholdBound | packages/llmos-bridge/llmos_bridge/apps/daemon_executor.py:1028-1033 | Without a gate, an action under an unconditional counting rule succeeds at most `threshold` times, under any other unconditional rule never |
| Approvals.ThresholdAttained | packages/llmos-bridge/llmos_bridge/apps/daemon_executor.py:1028-1033 | If only that rule stands in the way, exactly the first `threshold` calls succeed |
| Approvals.OwnCounter | packages/llmos-bridge/llmos_bridge/apps/daemon_executor.py:1030-1031 | Without dots in module names, calls share a counter if and only if they are of one action |
| Approvals.SharedCounter | packages/llmos-bridge/llmos_bridge/apps/daemon_executor.py:1030-1031 | With dots, two actions can share one |
| HubTables.Aggregate | packages/llmos-hub/llmos_hub/store.py:409-418 | Count and mean of a module's rating rows |
| HubTables.HubStore.AddRating | packages/llmos-hub/llmos_hub/store.py:392-423 | The rating row, the refreshed columns, and the invariant |
| HubTables.HubStore.Publish | packages/llmos-hub/llmos_hub/store.py:225-256 | Version row and module row, existing columns kept, and the invariant |
| HubTables.HubStore.DeleteModule | packages/llmos-hub/llmos_hub/store.py:323-328 | The module with all its versions and ratings, and nothing else, is gone |
| HubTables.HubStore.YankVersion | packages/llmos-hub/llmos_hub/store.py:380-386 | One version is marked, and the invariant |
| HubTables.HubStore.GetLatestVersion | packages/llmos-hub/llmos_hub/store.py:370-378 | The latest version that is not yanked, if there is one |
| HubTables.HubStore.DeprecateModule | packages/llmos-hub/llmos_hub/store.py:330-342 | The flag of an existing module, and the invariant |
| HubTables.HubStore.IncrementDownloads | packages/llmos-hub/llmos_hub/store.py:317-321 | One more download of an existing module, and the invariant |
| HubTables.YankedExact | packages/llmos-hub/llmos_hub/store.py:380-386 | A yanked version is no longer the latest; nothing else changes |
| HubTables.RatedExact | packages/llmos-hub/llmos_hub/store.py:392-423 | One to five stars replace the publisher's earlier rating; any other number is refused |
| HubTables.MeanExact | packages/llmos-hub/llmos_hub/store.py:409-418 | The mean times the number of ratings is their sum |
| HubTables.PublishedExact | packages/llmos-hub/llmos_hub/store.py:225-256 | A version that is published last is the latest one, and the other columns are kept |
| HubTables.DeletedExact | packages/llmos-hub/llmos_hub/store.py:323-328 | Exactly the module's rows are gone |
| HubTables.ReachableColumns | packages/llmos-hub/llmos_hub/store.py:317-342 | In every run a module's downloads are counted and its deprecation is remembered while it has a row |
| HubTables.AgreesExactly | packages/llmos-hub/llmos_hub/store.py:225-423 | Any operation keeps counts and means in agreement with the rating rows, except a first publication of a module that has ratings |
| HubTables.ReachableAggregates | packages/llmos-hub/llmos_hub/store.py:225-423 | They agree in every state of every run in which modules are published before they are rated, whatever the times |
| HubTables.ReachableAgree | packages/llmos-hub/llmos_hub/store.py:225-423 | At increasing times the latest versions agree with the version rows as well |
| HubTables.RatedKeeps | packages/llmos-hub/llmos_hub/store.py:392-423 | Rating a module with a row keeps every module's columns equal to its rating rows |
| HubTables.PublishedKeeps | packages/llmos-hub/llmos_hub/store.py:225-256 | So does publishing, and the latest version stays the last published one |
| HubTables.DeletedKeeps | packages/llmos-hub/llmos_hub/store.py:323-328 | So does deleting |
| HubTables.PublishAgreesUnlessOrphans | packages/llmos-hub/llmos_hub/store.py:227-240 | A first publication agrees with the rating rows if and only if there are none |
| HubTables.LatestAgrees | packages/llmos-hub/llmos_hub/store.py:370-378 | `latest_version` is what `get_latest_version` returns if and only if it is not yanked |
| Screenshots.History.FindImages | packages/langchain-llmos/langchain_llmos/loop.py:171-183 | The nested scan lists the images of the history |
| Screenshots.ScanFindsImages | packages/langchain-llmos/langchain_llmos/loop.py:171-183 | The scan finds every image, each once, in order |
| Screenshots.History.StripOldScreenshots | packages/langchain-llmos/langchain_llmos/loop.py:166-194 | The history becomes `Stripped`, for positive, zero and negative `keep_last` |
| Screenshots.LastOnesStay | packages/langchain-llmos/langchain_llmos/loop.py:185-194 | The images that stay are the last ones of the scan |
| Screenshots.KeepsLast | packages/langchain-llmos/langchain_llmos/loop.py:185-188 | min(n, `keep_last`) images stay if and only if `keep_last` is positive or there were none |
| Screenshots.StripCounts | packages/langchain-llmos/langchain_llmos/loop.py:185-188 | How many images stay for any `keep_last`, negative ones included |
| Screenshots.OthersStay | packages/langchain-llmos/langchain_llmos/loop.py:188-194 | Cell by cell: old images become placeholders, nothing else changes, no list changes its length |
| Screenshots.StripTwice | packages/langchain-llmos/langchain_llmos/loop.py:166-194 | A second pass changes nothing |

## Left out

Of the flow language:

- Concurrent `map`, `parallel`, `race` and `reduce` steps: tasks share one context and interleave.
- The leaf steps `agent`, `spawn`, `approval`, `dispatch`, `emit` and `wait`, which call into parts outside this model.
- FlowExecution.FlowExecutor.DispatchStep: has no handlers for the steps named above.
- FlowExecution.FlowExecutor.ExecuteAction: does not model retry delays, the seconds in the text of a timeout, and an executor without an action callback.
- FlowExecution.FlowExecutor.SaveCheckpoint: does not model faults of the key-value store; a checkpoint is written or removed as one step.
- FlowChecks.FlowChecker.Walk: does not enter `parallel` and `race`, which are not among the modelled steps.
- Durations and step ids inside results.
- The interpreter's recursion limit is a parameter: the number of nested macro expansions after which an exception is raised.
- A catch clause's `do` is a step here; in the source it is parsed when the clause runs, and parsing may fail.
- The checks on structural fields, agents, modules, variables and expressions: each looks at one step on its own.
- FlowSoundness.CheckSoundness: asks that targets have no template and that catch clauses, map bodies and macro bodies are good, because the checks do not look at them.
- FlowResume.ResumeEquivalence: excludes flows over the jump limit, which a resumed run counts anew.
- FlowContainment.ErrorContainment: excludes `try`, which takes exceptions and signals by other rules; `FlowSteps` has those.

Of the expressions:

- Filters, float parsing and namespaces are unknown functions. Digits and blanks outside ASCII are not modelled.
- Resolving lists and dictionaries element by element.

Of the cache:

- Several tool calls at once: a read under way can store an old result around a write.
- CacheTransparency.ToolRuntime.ExecuteToolCall: does not model builtin tools, malformed tool names and a missing executor, which never reach the cache.
- CacheTransparency.RunTransparent: asks of the calls of the run that cached reads depend only on what lies at or below their paths, that files change only through listed writes, and that reads which the cache takes for one have one answer, because the cache knows of nothing else. `RunAnswered` needs the first two only.

Of the state machines:

- Real numbers stand for floats. Clocks are parameters.
- SourceScanning.ScanDirectory: does not round the score, and its findings have no path, line number and description; matching a rule's pattern is an unknown function.
- ScanScoring.ScoreFindings: does not round the score it returns.
- Approvals.DaemonToolExecutor.Execute: takes the checks around the capabilities (rate limit, intent, authorization, sandbox, scanners, permission guard) as one verdict each per call; approval gates with a human behind them and the wording of the risk message are not modelled.
- The plan loop around the screenshots, `_compact_elements` and the turn loop of the agent.
- Messages, blocks and table rows are values: two references to one block are not modelled. SQL is modelled by maps.
- HubTables.HubStore.AddRating: does not model comments and times of ratings and the returned record.
- HubTables.HubStore.DeprecateModule: does not model the message and the replacement.
- HubTables.HubStore.Publish: adds version and module in one call, as the upload endpoint does, because either half alone is never called; descriptions, licences and other columns that no other table repeats are not modelled.
