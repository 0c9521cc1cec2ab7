/** The checks in front of a tool call: capabilities, approval rules and the counter they use. */
module Approvals {
  import opened Values

  /** A check passes, refuses the call, or raises. */
  datatype Check = Passes | Refuses(reason: string) | Fails(error: string)

  type Constraints = string

  type Counts = map<string, nat>

  /** A tool call, with the verdicts of the checks that this model leaves open: those before the tool
      constraints, the sandbox, those after the approval, and at last what the module's action does. */
  datatype Call = Call(moduleId: string, action: string, params: string,
                       earlier: Check, sandbox: Check, later: Check, run: Result<string>)

  /** An empty action or condition, and in an approval rule an empty module, stands for any. */
  datatype Denial = Denial(moduleId: string, action: string, condition: string, reason: string)

  datatype Grant = Grant(moduleId: string, actions: seq<string>, constraints: Option<Constraints>)

  datatype Rule = Rule(moduleId: string, action: string, condition: string, message: string, trigger: string, threshold: int)

  /** `riskLimit` is the rank of `auto_approve_risk`, if it is one of the four levels. */
  datatype Capabilities = Capabilities(deny: seq<Denial>, grants: seq<Grant>, approvals: seq<Rule>, riskLimit: Option<nat>)

  /** Conditions may read the counters and may raise. */
  datatype Host = Host(
    holds: (string, Call, Counts) -> Option<bool>,
    violation: (Constraints, Call) -> Check,
    risk: (string, string) -> nat,
    raised: string -> string)

  datatype Reply = Refused(reason: string) | Failed(error: string) | Done(output: string)

  function Key(call: Call): string {
    call.moduleId + "." + call.action
  }

  function CountOf(counts: Counts, key: string): nat {
    if key in counts then counts[key] else 0
  }

  /** A condition that raises counts as true in a denial and as false in an approval rule. */
  function Holds(h: Host, condition: string, call: Call, counts: Counts, onError: bool): bool {
    match h.holds(condition, call, counts)
    case Some(b) => b
    case None => onError
  }

  // ---- The rules ----

  predicate Denies(h: Host, d: Denial, call: Call, counts: Counts) {
    && d.moduleId == call.moduleId
    && (d.action == "" || d.action == call.action)
    && (d.condition == "" || Holds(h, d.condition, call, counts, true))
  }

  function DenialReason(d: Denial, call: Call): string {
    if d.reason != "" then d.reason else "Action " + Key(call) + " denied by app capabilities"
  }

  function FirstDenial(h: Host, deny: seq<Denial>, call: Call, counts: Counts): (r: Option<string>)
    ensures r.Some? <==> exists d | d in deny :: Denies(h, d, call, counts)
  {
    if deny == [] then None
    else if Denies(h, deny[0], call, counts) then Some(DenialReason(deny[0], call))
    else FirstDenial(h, deny[1..], call, counts)
  }

  predicate Grants(g: Grant, call: Call) {
    g.moduleId == call.moduleId && (g.actions == [] || call.action in g.actions)
  }

  function FirstGrant(grants: seq<Grant>, call: Call): (r: Option<Grant>)
    ensures r.Some? <==> exists g | g in grants :: Grants(g, call)
    ensures r.Some? ==> r.value in grants && Grants(r.value, call)
  {
    if grants == [] then None
    else if Grants(grants[0], call) then Some(grants[0])
    else FirstGrant(grants[1..], call)
  }

  predicate Matches(rule: Rule, moduleId: string, action: string) {
    (rule.moduleId == "" || rule.moduleId == moduleId) && (rule.action == "" || rule.action == action)
  }

  predicate Counting(rule: Rule) {
    rule.trigger == "action_count" && rule.threshold > 0
  }

  predicate Demands(h: Host, rule: Rule, call: Call, counts: Counts) {
    && Matches(rule, call.moduleId, call.action)
    && (rule.condition == "" || Holds(h, rule.condition, call, counts, false))
    && (Counting(rule) ==> CountOf(counts, Key(call)) >= rule.threshold)
  }

  function DemandText(rule: Rule, call: Call): string {
    if rule.message != "" then rule.message else "Approval required for " + Key(call)
  }

  function FirstDemand(h: Host, rules: seq<Rule>, call: Call, counts: Counts): (r: Option<string>)
    ensures r.Some? <==> exists rule | rule in rules :: Demands(h, rule, call, counts)
  {
    if rules == [] then None
    else if Demands(h, rules[0], call, counts) then Some(DemandText(rules[0], call))
    else FirstDemand(h, rules[1..], call, counts)
  }

  predicate Risky(h: Host, caps: Capabilities, call: Call) {
    caps.riskLimit.Some? && h.risk(call.moduleId, call.action) >= caps.riskLimit.value
  }

  // ---- One call ----

  function ToolVerdict(h: Host, table: map<string, Constraints>, call: Call): Check {
    if Key(call) in table then h.violation(table[Key(call)], call) else Passes
  }

  function CapabilityVerdict(h: Host, caps: Capabilities, counts: Counts, call: Call): Check {
    var denial := FirstDenial(h, caps.deny, call, counts);
    if denial.Some? then Refuses(denial.value)
    else if caps.grants == [] then Passes
    else
      match FirstGrant(caps.grants, call)
      case None => Refuses("Action " + Key(call) + " not in app capability grants")
      case Some(g) => if g.constraints.Some? then h.violation(g.constraints.value, call) else Passes
  }

  /** Without an approval gate a demand is a refusal. The rules' message goes before the risk's. */
  function ApprovalVerdict(h: Host, caps: Capabilities, counts: Counts, call: Call): Check {
    var demand := FirstDemand(h, caps.approvals, call, counts);
    if demand.Some? then Refuses(NoGate(call, demand.value))
    else if Risky(h, caps, call) then Refuses(NoGate(call, RiskText(call)))
    else Passes
  }

  function RiskText(call: Call): string {
    "Action " + Key(call) + " reaches the risk threshold: approval required"
  }

  function NoGate(call: Call, message: string): string {
    "[APPROVAL REQUIRED] '" + Key(call) + "' needs human approval: " + message
    + ". No approval gate is configured: action cannot proceed."
  }

  function AndThen(first: Check, second: Check): Check {
    if first.Passes? then second else first
  }

  function CapsVerdict(h: Host, caps: Option<Capabilities>, counts: Counts, call: Call): Check {
    match caps
    case None => Passes
    case Some(c) => AndThen(CapabilityVerdict(h, c, counts, call), ApprovalVerdict(h, c, counts, call))
  }

  function Verdict(h: Host, caps: Option<Capabilities>, table: map<string, Constraints>, counts: Counts, call: Call): Check {
    AndThen(call.earlier, AndThen(ToolVerdict(h, table, call), AndThen(call.sandbox,
      AndThen(CapsVerdict(h, caps, counts, call), call.later))))
  }

  function Outcome(h: Host, caps: Option<Capabilities>, table: map<string, Constraints>, counts: Counts, call: Call): Reply {
    match Verdict(h, caps, table, counts, call)
    case Refuses(reason) => Refused(reason)
    case Fails(error) => Failed(h.raised(error))
    case Passes =>
      match call.run
      case Ok(output) => Done(output)
      case Err(error) => Failed(h.raised(error))
  }

  function Counted(counts: Counts, call: Call, reply: Reply): Counts {
    if reply.Done? then counts[Key(call) := CountOf(counts, Key(call)) + 1] else counts
  }

  /** An app's calls get through the daemon one at a time. */
  class DaemonToolExecutor {
    const host: Host
    var capabilities: Option<Capabilities>
    var toolConstraints: map<string, Constraints>
    var actionCounts: Counts

    constructor (host: Host)
      ensures this.host == host && capabilities == None && toolConstraints == map[] && actionCounts == map[]
    {
      this.host := host;
      capabilities := None;
      toolConstraints := map[];
      actionCounts := map[];
    }

    method SetCapabilities(caps: Capabilities)
      modifies this
      ensures capabilities == Some(caps) && actionCounts == map[] && toolConstraints == old(toolConstraints)
    {
      capabilities := Some(caps);
      actionCounts := map[];
    }

    method CheckToolConstraints(call: Call) returns (r: Check)
      ensures r == ToolVerdict(host, toolConstraints, call)
    {
      if Key(call) !in toolConstraints {
        return Passes;
      }
      r := host.violation(toolConstraints[Key(call)], call);
    }

    /** The grant's constraints stand in for the tool's while they are checked, and are taken out again
        whether the check passes, refuses or raises. */
    method CheckGrantConstraints(call: Call, constraints: Constraints) returns (r: Check)
      modifies this`toolConstraints
      ensures toolConstraints == old(toolConstraints)
      ensures r == host.violation(constraints, call)
    {
      var key := Key(call);
      var saved := if key in toolConstraints then Some(toolConstraints[key]) else None;
      toolConstraints := toolConstraints[key := constraints];
      r := CheckToolConstraints(call);
      if saved.Some? {
        toolConstraints := toolConstraints[key := saved.value];
      } else {
        toolConstraints := toolConstraints - {key};
      }
      assert toolConstraints == old(toolConstraints);
    }

    method CheckCapabilities(caps: Capabilities, call: Call) returns (r: Check)
      modifies this`toolConstraints
      ensures toolConstraints == old(toolConstraints)
      ensures r == CapabilityVerdict(host, caps, actionCounts, call)
    {
      for i := 0 to |caps.deny|
        invariant FirstDenial(host, caps.deny, call, actionCounts) == FirstDenial(host, caps.deny[i..], call, actionCounts)
        invariant toolConstraints == old(toolConstraints)
      {
        var d := caps.deny[i];
        if d.moduleId == call.moduleId && (d.action == "" || d.action == call.action) {
          if d.condition == "" || Holds(host, d.condition, call, actionCounts, true) {
            return Refuses(DenialReason(d, call));
          }
        }
      }
      if caps.grants == [] {
        return Passes;
      }
      var granted: Option<Grant> := None;
      for i := 0 to |caps.grants|
        invariant granted == None
        invariant toolConstraints == old(toolConstraints)
        invariant FirstGrant(caps.grants, call) == FirstGrant(caps.grants[i..], call)
      {
        if Grants(caps.grants[i], call) {
          granted := Some(caps.grants[i]);
          break;
        }
      }
      if granted.None? {
        return Refuses("Action " + Key(call) + " not in app capability grants");
      }
      if granted.value.constraints.None? {
        return Passes;
      }
      r := CheckGrantConstraints(call, granted.value.constraints.value);
    }

    method CheckApprovalRequired(caps: Capabilities, call: Call) returns (r: Option<string>)
      ensures r == FirstDemand(host, caps.approvals, call, actionCounts)
    {
      for i := 0 to |caps.approvals|
        invariant FirstDemand(host, caps.approvals, call, actionCounts) == FirstDemand(host, caps.approvals[i..], call, actionCounts)
      {
        var rule := caps.approvals[i];
        if rule.moduleId != "" && rule.moduleId != call.moduleId {
          continue;
        }
        if rule.action != "" && rule.action != call.action {
          continue;
        }
        if rule.condition != "" && !Holds(host, rule.condition, call, actionCounts, false) {
          continue;
        }
        if rule.trigger == "action_count" && rule.threshold > 0 {
          if CountOf(actionCounts, Key(call)) < rule.threshold {
            continue;
          }
        }
        return Some(DemandText(rule, call));
      }
      r := None;
    }

    method CheckApproval(caps: Capabilities, call: Call) returns (r: Check)
      ensures r == ApprovalVerdict(host, caps, actionCounts, call)
    {
      var demand := CheckApprovalRequired(caps, call);
      if demand.None? && Risky(host, caps, call) {
        demand := Some(RiskText(call));
      }
      r := if demand.Some? then Refuses(NoGate(call, demand.value)) else Passes;
    }

    method Checks(call: Call) returns (r: Check)
      modifies this`toolConstraints
      ensures toolConstraints == old(toolConstraints)
      ensures r == Verdict(host, capabilities, toolConstraints, actionCounts, call)
    {
      r := call.earlier;
      if !r.Passes? { return; }
      r := CheckToolConstraints(call);
      if !r.Passes? { return; }
      r := call.sandbox;
      if !r.Passes? { return; }
      if capabilities.Some? {
        r := CheckCapabilities(capabilities.value, call);
        if !r.Passes? { return; }
        r := CheckApproval(capabilities.value, call);
        if !r.Passes? { return; }
      }
      r := call.later;
    }

    method Execute(call: Call) returns (reply: Reply)
      modifies this`toolConstraints, this`actionCounts
      ensures reply == Outcome(host, capabilities, old(toolConstraints), old(actionCounts), call)
      ensures actionCounts == Counted(old(actionCounts), call, reply)
      ensures toolConstraints == old(toolConstraints)
    {
      var checked := Checks(call);
      match checked
      case Refuses(reason) => return Refused(reason);
      case Fails(error) => return Failed(host.raised(error));
      case Passes =>
      match call.run
      case Err(error) => return Failed(host.raised(error));
      case Ok(output) =>
        actionCounts := actionCounts[Key(call) := CountOf(actionCounts, Key(call)) + 1];
        return Done(output);
    }
  }

  // ---- Runs ----

  /** The replies to a run of calls under one configuration. */
  function Replies(h: Host, caps: Option<Capabilities>, table: map<string, Constraints>, counts: Counts, calls: seq<Call>): (r: seq<Reply>)
    ensures |r| == |calls|
    decreases |calls|
  {
    if calls == [] then []
    else
      var reply := Outcome(h, caps, table, counts, calls[0]);
      [reply] + Replies(h, caps, table, Counted(counts, calls[0], reply), calls[1..])
  }

  /** The counters after a run. */
  function CountsAfter(h: Host, caps: Option<Capabilities>, table: map<string, Constraints>, counts: Counts, calls: seq<Call>): Counts
    decreases |calls|
  {
    if calls == [] then counts
    else
      var reply := Outcome(h, caps, table, counts, calls[0]);
      CountsAfter(h, caps, table, Counted(counts, calls[0], reply), calls[1..])
  }

  /** How many calls with this key were done. */
  function Successes(key: string, calls: seq<Call>, replies: seq<Reply>): nat
    requires |calls| == |replies|
  {
    if calls == [] then 0
    else (if Key(calls[0]) == key && replies[0].Done? then 1 else 0) + Successes(key, calls[1..], replies[1..])
  }

  /** The counters count the successful executions. */
  lemma {:induction false} CountsAreSuccesses(h: Host, caps: Option<Capabilities>, table: map<string, Constraints>, counts: Counts, calls: seq<Call>, key: string)
    ensures CountOf(CountsAfter(h, caps, table, counts, calls), key)
         == CountOf(counts, key) + Successes(key, calls, Replies(h, caps, table, counts, calls))
    decreases |calls|
  {
    if calls != [] {
      var reply := Outcome(h, caps, table, counts, calls[0]);
      CountsAreSuccesses(h, caps, table, Counted(counts, calls[0], reply), calls[1..], key);
    }
  }

  /** How often a rule without a condition lets an action pass. */
  function Limit(rule: Rule): nat {
    if Counting(rule) then rule.threshold else 0
  }

  predicate Bounds(rule: Rule, caps: Capabilities, key: string, calls: seq<Call>) {
    && rule in caps.approvals && rule.condition == ""
    && forall c | c in calls && Key(c) == key :: Matches(rule, c.moduleId, c.action)
  }

  lemma RefusedAtLimit(h: Host, caps: Capabilities, table: map<string, Constraints>, counts: Counts, call: Call, rule: Rule)
    requires rule in caps.approvals && rule.condition == "" && Matches(rule, call.moduleId, call.action)
    requires CountOf(counts, Key(call)) >= Limit(rule)
    ensures !Outcome(h, Some(caps), table, counts, call).Done?
  {
    assert Demands(h, rule, call, counts);
  }

  /** An action under a counting rule succeeds at most `threshold` times, and never under an unconditional rule of another kind. */
  lemma {:induction false} ThresholdBound(h: Host, caps: Capabilities, table: map<string, Constraints>, counts: Counts, calls: seq<Call>, rule: Rule, key: string)
    requires Bounds(rule, caps, key, calls) && CountOf(counts, key) <= Limit(rule)
    ensures CountOf(counts, key) + Successes(key, calls, Replies(h, Some(caps), table, counts, calls)) <= Limit(rule)
    decreases |calls|
  {
    if calls != [] {
      var reply := Outcome(h, Some(caps), table, counts, calls[0]);
      if Key(calls[0]) == key && reply.Done? && CountOf(counts, key) >= Limit(rule) {
        RefusedAtLimit(h, caps, table, counts, calls[0], rule);
      }
      ThresholdBound(h, caps, table, Counted(counts, calls[0], reply), calls[1..], rule, key);
    }
  }

  predicate Succeeds(h: Host, caps: Capabilities, table: map<string, Constraints>, counts: Counts, call: Call) {
    Outcome(h, Some(caps), table, counts, call).Done?
  }

  /** The call gets through whatever the counters say. */
  ghost predicate AlwaysSucceeds(h: Host, caps: Capabilities, table: map<string, Constraints>, call: Call) {
    forall counts: Counts :: Succeeds(h, caps, table, counts, call)
  }

  function WithoutRule(caps: Capabilities, i: nat): Capabilities
    requires i < |caps.approvals|
  {
    caps.(approvals := caps.approvals[..i] + caps.approvals[i + 1..])
  }

  lemma NoDemandWithout(h: Host, caps: Capabilities, i: nat, call: Call, counts: Counts)
    requires i < |caps.approvals| && !Demands(h, caps.approvals[i], call, counts)
    ensures FirstDemand(h, WithoutRule(caps, i).approvals, call, counts).None? ==> FirstDemand(h, caps.approvals, call, counts).None?
  {
    var others := WithoutRule(caps, i).approvals;
    forall r | r in caps.approvals && r != caps.approvals[i] ensures r in others {
      var k :| 0 <= k < |caps.approvals| && caps.approvals[k] == r;
      assert r == if k < i then others[k] else others[k - 1];
    }
  }

  lemma FewerDemands(h: Host, rest: Capabilities, caps: Capabilities, table: map<string, Constraints>, counts: Counts, call: Call)
    requires rest == caps.(approvals := rest.approvals) && Succeeds(h, rest, table, counts, call)
    requires FirstDemand(h, rest.approvals, call, counts).None? ==> FirstDemand(h, caps.approvals, call, counts).None?
    ensures Succeeds(h, caps, table, counts, call)
  {
    assert CapabilityVerdict(h, rest, counts, call) == CapabilityVerdict(h, caps, counts, call);
    assert CapsVerdict(h, Some(rest), counts, call).Passes?;
    assert ApprovalVerdict(h, rest, counts, call).Passes? && ApprovalVerdict(h, caps, counts, call).Passes?;
  }

  lemma DoneBelowLimit(h: Host, caps: Capabilities, table: map<string, Constraints>, counts: Counts, call: Call, i: nat)
    requires i < |caps.approvals| && caps.approvals[i].condition == "" && Matches(caps.approvals[i], call.moduleId, call.action)
    requires AlwaysSucceeds(h, WithoutRule(caps, i), table, call)
    ensures Outcome(h, Some(caps), table, counts, call).Done? <==> CountOf(counts, Key(call)) < Limit(caps.approvals[i])
  {
    var rule := caps.approvals[i];
    var rest := WithoutRule(caps, i);
    if CountOf(counts, Key(call)) >= Limit(rule) {
      RefusedAtLimit(h, caps, table, counts, call, rule);
    } else {
      assert Succeeds(h, rest, table, counts, call);
      NoDemandWithout(h, caps, i, call, counts);
      FewerDemands(h, rest, caps, table, counts, call);
    }
  }

  function Occurrences(key: string, calls: seq<Call>): nat {
    if calls == [] then 0 else (if Key(calls[0]) == key then 1 else 0) + Occurrences(key, calls[1..])
  }

  /** The bound is attained: if nothing else stands in an action's way, exactly its first `threshold` calls succeed. */
  lemma {:induction false} ThresholdAttained(h: Host, caps: Capabilities, table: map<string, Constraints>, counts: Counts, calls: seq<Call>, i: nat, key: string)
    requires i < |caps.approvals| && Bounds(caps.approvals[i], caps, key, calls)
    requires forall c | c in calls && Key(c) == key :: AlwaysSucceeds(h, WithoutRule(caps, i), table, c)
    requires CountOf(counts, key) <= Limit(caps.approvals[i])
    ensures var left := Limit(caps.approvals[i]) - CountOf(counts, key);
      Successes(key, calls, Replies(h, Some(caps), table, counts, calls))
      == if Occurrences(key, calls) <= left then Occurrences(key, calls) else left
    decreases |calls|
  {
    if calls != [] {
      var reply := Outcome(h, Some(caps), table, counts, calls[0]);
      var next := Counted(counts, calls[0], reply);
      if Key(calls[0]) == key {
        DoneBelowLimit(h, caps, table, counts, calls[0], i);
      }
      assert CountOf(next, key) == CountOf(counts, key) + if Key(calls[0]) == key && reply.Done? then 1 else 0;
      ThresholdAttained(h, caps, table, next, calls[1..], i, key);
    }
  }

  // ---- Who may do what ----

  /** The denial applies: to its module, to its action or any, and without a condition or unless that is false. */
  ghost predicate Forbids(h: Host, d: Denial, call: Call, counts: Counts) {
    && d.moduleId == call.moduleId && (d.action == "" || d.action == call.action)
    && (d.condition == "" || h.holds(d.condition, call, counts) != Some(false))
  }

  ghost predicate Covers(g: Grant, call: Call) {
    g.moduleId == call.moduleId && (g.actions == [] || call.action in g.actions)
  }

  /** The approval rule applies: to its module and action or any, without a condition or if that is true, and
      if it counts, once its threshold is reached. */
  ghost predicate Asks(h: Host, rule: Rule, call: Call, counts: Counts) {
    var key := call.moduleId + "." + call.action;
    && (rule.moduleId == "" || rule.moduleId == call.moduleId) && (rule.action == "" || rule.action == call.action)
    && (rule.condition == "" || h.holds(rule.condition, call, counts) == Some(true))
    && (rule.trigger == "action_count" && rule.threshold > 0 ==> key in counts && counts[key] >= rule.threshold)
  }

  ghost predicate GrantedBy(h: Host, grants: seq<Grant>, call: Call, i: nat)
    requires i < |grants|
  {
    && Covers(grants[i], call) && (forall j | 0 <= j < i :: !Covers(grants[j], call))
    && (grants[i].constraints.Some? ==> h.violation(grants[i].constraints.value, call).Passes?)
  }

  ghost predicate Permitted(h: Host, caps: Capabilities, counts: Counts, call: Call) {
    && (forall d | d in caps.deny :: !Forbids(h, d, call, counts))
    && (caps.grants == [] || exists i :: 0 <= i < |caps.grants| && GrantedBy(h, caps.grants, call, i))
    && (forall rule | rule in caps.approvals :: !Asks(h, rule, call, counts))
    && (caps.riskLimit.Some? ==> h.risk(call.moduleId, call.action) < caps.riskLimit.value)
  }

  lemma {:induction false} FirstGrantAt(grants: seq<Grant>, call: Call)
    ensures match FirstGrant(grants, call)
      case None => forall i | 0 <= i < |grants| :: !Covers(grants[i], call)
      case Some(g) => exists i :: 0 <= i < |grants| && grants[i] == g && Covers(g, call) && forall j | 0 <= j < i :: !Covers(grants[j], call)
  {
    if grants != [] && !Covers(grants[0], call) {
      FirstGrantAt(grants[1..], call);
      assert forall i | 0 < i < |grants| :: grants[i] == grants[1..][i - 1];
      match FirstGrant(grants[1..], call)
      case None =>
      case Some(g) =>
        var i :| 0 <= i < |grants[1..]| && grants[1..][i] == g && Covers(g, call) && forall j | 0 <= j < i :: !Covers(grants[1..][j], call);
        assert grants[i + 1] == g;
    }
  }

  lemma GrantsExact(h: Host, caps: Capabilities, counts: Counts, call: Call)
    ensures CapabilityVerdict(h, caps, counts, call).Passes? <==>
      && (forall d | d in caps.deny :: !Forbids(h, d, call, counts))
      && (caps.grants == [] || exists i :: 0 <= i < |caps.grants| && GrantedBy(h, caps.grants, call, i))
  {
    assert forall d :: Denies(h, d, call, counts) <==> Forbids(h, d, call, counts);
    FirstGrantAt(caps.grants, call);
    if g :| FirstGrant(caps.grants, call) == Some(g) {
      var i :| 0 <= i < |caps.grants| && caps.grants[i] == g && Covers(g, call) && forall j | 0 <= j < i :: !Covers(caps.grants[j], call);
      if j :| 0 <= j < |caps.grants| && GrantedBy(h, caps.grants, call, j) {
        assert i == j;
      }
      if g.constraints.Some? ==> h.violation(g.constraints.value, call).Passes? {
        assert GrantedBy(h, caps.grants, call, i);
      }
    }
  }

  lemma AsksExact(h: Host, caps: Capabilities, counts: Counts, call: Call)
    ensures ApprovalVerdict(h, caps, counts, call).Passes? <==>
      && (forall rule | rule in caps.approvals :: !Asks(h, rule, call, counts))
      && (caps.riskLimit.Some? ==> h.risk(call.moduleId, call.action) < caps.riskLimit.value)
  {
    assert forall rule :: Demands(h, rule, call, counts) <==> Asks(h, rule, call, counts);
  }

  /** An action is executed if and only if every check passes and it is permitted: nothing forbids it, a grant
      covers it if there are any, no approval rule asks, and its risk is below the limit. */
  lemma DoneExactly(h: Host, caps: Option<Capabilities>, table: map<string, Constraints>, counts: Counts, call: Call)
    ensures Outcome(h, caps, table, counts, call).Done? <==>
      && call.earlier.Passes? && call.sandbox.Passes? && call.later.Passes?
      && (call.moduleId + "." + call.action in table ==> h.violation(table[call.moduleId + "." + call.action], call).Passes?)
      && (caps.Some? ==> Permitted(h, caps.value, counts, call))
      && call.run.Ok?
    ensures Outcome(h, caps, table, counts, call).Done? ==> Outcome(h, caps, table, counts, call) == Done(call.run.value)
  {
    if caps.Some? {
      GrantsExact(h, caps.value, counts, call);
      AsksExact(h, caps.value, counts, call);
    }
  }

  lemma {:induction false} RepliesAt(h: Host, caps: Option<Capabilities>, table: map<string, Constraints>, counts: Counts, calls: seq<Call>, k: nat)
    requires k < |calls|
    ensures Replies(h, caps, table, counts, calls)[k] == Outcome(h, caps, table, CountsAfter(h, caps, table, counts, calls[..k]), calls[k])
    decreases |calls|
  {
    var reply := Outcome(h, caps, table, counts, calls[0]);
    if k > 0 {
      assert calls[..k][0] == calls[0] && calls[..k][1..] == calls[1..][..k - 1];
      RepliesAt(h, caps, table, Counted(counts, calls[0], reply), calls[1..], k - 1);
    }
  }

  /** In every run, what was done was permitted at the time. */
  lemma RunPermitted(h: Host, caps: Capabilities, table: map<string, Constraints>, counts: Counts, calls: seq<Call>, k: nat)
    requires k < |calls| && Replies(h, Some(caps), table, counts, calls)[k].Done?
    ensures Permitted(h, caps, CountsAfter(h, Some(caps), table, counts, calls[..k]), calls[k])
  {
    RepliesAt(h, Some(caps), table, counts, calls, k);
    DoneExactly(h, Some(caps), table, CountsAfter(h, Some(caps), table, counts, calls[..k]), calls[k]);
  }

  // ---- Shared counters ----

  lemma {:induction false} FirstDotSplits(a: string, b: string, c: string, d: string)
    requires '.' !in a && '.' !in c
    ensures a + "." + b == c + "." + d <==> a == c && b == d
  {
    var s, t := a + "." + b, c + "." + d;
    if a == "" || c == "" {
      assert s[0] == (if a == "" then '.' else a[0]) && t[0] == (if c == "" then '.' else c[0]);
      assert a == "" ==> s[1..] == b;
      assert c == "" ==> t[1..] == d;
    } else {
      FirstDotSplits(a[1..], b, c[1..], d);
      assert s == [a[0]] + (a[1..] + "." + b) && t == [c[0]] + (c[1..] + "." + d);
      assert s[1..] == a[1..] + "." + b && t[1..] == c[1..] + "." + d;
    }
  }

  /** Calls share a counter if and only if they are of one action, as long as module names have no dot. */
  lemma OwnCounter(c: Call, d: Call)
    requires '.' !in c.moduleId && '.' !in d.moduleId
    ensures Key(c) == Key(d) <==> c.moduleId == d.moduleId && c.action == d.action
  {
    FirstDotSplits(c.moduleId, c.action, d.moduleId, d.action);
  }

  /** With dots in module names, one action can use up another one's approvals. */
  lemma SharedCounter(c: Call, d: Call)
    requires c.moduleId == "a" && c.action == "b.c" && d.moduleId == "a.b" && d.action == "c"
    ensures Key(c) == Key(d)
  {
    assert Key(c) == "a.b.c" && Key(d) == "a.b.c";
  }
}
