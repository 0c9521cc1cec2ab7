/** A small environment for the flows that serve as examples. */
module FlowWitnesses {
  import opened Values
  import opened FlowModel
  import opened FlowSemantics
  import OD = OrderedDicts

  /** Three templates are known: the loop context, a list of one item, and a name that no step has. */
  function FilledText(v: Value, ctx: Ctx): Value {
    if v == Str("{{loop}}") then ctx.loop
    else if v == Str("{{items}}") then List([Null])
    else if v == Str("{{target}}") then Str("nowhere")
    else v
  }

  function Filled(v: Value, ctx: Ctx): Value {
    if v.Dict? then Dict(map k | k in v.entries :: FilledText(v.entries[k], ctx)) else FilledText(v, ctx)
  }

  /** Every action answers with its parameters, and nobody calls `stop()`. */
  ghost function EchoEnv(macros: map<string, Macro>): Env {
    Env(macros, (_, c: Call) => Returned(c.params), _ => false, (v, ctx) => Ok(Filled(v, ctx)), (_, _) => Ok(false),
        (v: Value) => if v.Str? then v.s else "", s => s, _ => Ok(0), v => v)
  }

  ghost const EMPTY: Ctx := Ctx(map[], map[], Null)
  ghost const START: State := State([], EMPTY, false, [])

  function ActionStep(id: string, params: map<string, Value>): Step {
    Step(id, "", Action("m.f", Dict(params), 1), "", [], "")
  }

  function GotoStep(target: string): Step {
    Step("", "", NoKind, "", [], target)
  }

  lemma SplitName()
    ensures SplitAction("m.f") == Some(("m", "f"))
  {
    assert "m.f"[1..] == ".f" && ".f"[1..] == "f" && ['m'] + "" == "m";
    assert SplitAction(".f") == Some(("", "f"));
  }

  /** An action answers with its filled parameters. */
  lemma EchoStep(macros: map<string, Macro>, id: string, params: map<string, Value>, st: State)
    requires id != "" && !st.stopped && Lookup(params, "error") == Null
    ensures var (o, st') := ExecStep(EchoEnv(macros), 0, [], ActionStep(id, params), st);
      && o == Done(Succeeded(Filled(Dict(params), st.ctx)))
      && st'.results == OD.Put(st.results, id, o.r) && !st'.stopped
  {
    SplitName();
  }
}
