/** The agent's conversation window, and the trim before a request. */
module ContextWindow {

  datatype Message = Message(role: string, content: string, name: string, tokens: nat)

  datatype Strategy = Truncate | SlidingWindow | Summarize

  datatype Config = Config(maxTokens: nat, strategy: Strategy, keepLast: nat)

  /** About four characters to a token. */
  function EstimateTokens(text: string): nat {
    if text == "" then 0 else if |text| / 4 < 1 then 1 else |text| / 4
  }

  function Estimated(m: Message): Message {
    if m.tokens == 0 then m.(tokens := EstimateTokens(m.content)) else m
  }

  function Tokens(ms: seq<Message>): nat {
    if ms == [] then 0 else ms[0].tokens + Tokens(ms[1..])
  }

  lemma {:induction false} TokensConcat(a: seq<Message>, b: seq<Message>)
    ensures Tokens(a + b) == Tokens(a) + Tokens(b)
  {
    if a == [] {
      assert a + b == b;
    } else {
      assert (a + b)[1..] == a[1..] + b;
      TokensConcat(a[1..], b);
    }
  }

  function Prefix(s: string, n: nat): string {
    if |s| <= n then s else s[..n]
  }

  /** The lines that stand for dropped messages. */
  function SummaryLines(ms: seq<Message>): seq<string> {
    if ms == [] then []
    else
      var m := ms[0];
      (if m.role == "user" then ["[User asked: " + Prefix(m.content, 100) + "...]"]
       else if m.role == "assistant" && m.content != "" then ["[Assistant: " + Prefix(m.content, 100) + "...]"]
       else if m.role == "tool" then ["[Tool " + m.name + " was called]"]
       else [])
      + SummaryLines(ms[1..])
  }

  function JoinLines(ls: seq<string>): string {
    if ls == [] then "" else if |ls| == 1 then ls[0] else ls[0] + "\n" + JoinLines(ls[1..])
  }

  function Last<T>(s: seq<T>, n: nat): seq<T> {
    if |s| <= n then s else s[|s| - n..]
  }

  function Summary(dropped: seq<Message>): Message {
    var text := "Previous conversation summary:\n" + JoinLines(Last(SummaryLines(dropped), 20));
    Message("user", text, "", EstimateTokens(text))
  }

  predicate Overflows(c: Config, system: string, total: nat) {
    10 * (EstimateTokens(system) + total) > 8 * c.maxTokens
  }

  /** What an overflow leaves. */
  function Compressed(c: Config, ms: seq<Message>): seq<Message> {
    if |ms| <= c.keepLast then ms
    else
      var at := |ms| - c.keepLast;
      if c.strategy == Truncate then ms[at..] else [Summary(ms[..at])] + ms[at..]
  }

  /** `add_message` on the list of messages. */
  function Added(c: Config, system: string, ms: seq<Message>, m: Message): seq<Message> {
    var all := ms + [Estimated(m)];
    if Overflows(c, system, Tokens(all)) then Compressed(c, all) else all
  }

  class ContextManager {
    const config: Config
    var systemPrompt: string
    var messages: seq<Message>
    var totalTokens: int

    ghost predicate Valid()
      reads this
    {
      config.keepLast >= 1 && totalTokens == Tokens(messages)
    }

    constructor (config: Config)
      requires config.keepLast >= 1
      ensures Valid() && this.config == config && messages == [] && systemPrompt == ""
    {
      this.config, systemPrompt, messages, totalTokens := config, "", [], 0;
    }

    method AddMessage(m: Message)
      requires Valid()
      modifies `messages, `totalTokens
      ensures Valid() && messages == Added(config, systemPrompt, old(messages), m)
    {
      var msg := Estimated(m);
      TokensConcat(messages, [msg]);
      assert Tokens([msg]) == msg.tokens + Tokens([msg][1..]);
      messages := messages + [msg];
      totalTokens := totalTokens + msg.tokens;
      if 10 * (EstimateTokens(systemPrompt) + totalTokens) > 8 * config.maxTokens {
        match config.strategy {
          case Truncate => CompressTruncate();
          case SlidingWindow => CompressSlidingWindow();
          case Summarize => CompressSlidingWindow();
        }
      }
    }

    method CompressTruncate()
      requires Valid() && config.strategy == Truncate
      modifies `messages, `totalTokens
      ensures Valid() && messages == Compressed(config, old(messages))
    {
      var keep := config.keepLast;
      if |messages| > keep {
        var at := |messages| - keep;
        var dropped := messages[..at];
        assert messages == dropped + messages[at..];
        TokensConcat(dropped, messages[at..]);
        messages := messages[at..];
        totalTokens := totalTokens - Tokens(dropped);
      }
    }

    method CompressSlidingWindow()
      requires Valid() && config.strategy != Truncate
      modifies `messages, `totalTokens
      ensures Valid() && messages == Compressed(config, old(messages))
    {
      var keep := config.keepLast;
      if |messages| <= keep { return; }
      var at := |messages| - keep;
      messages := [Summary(messages[..at])] + messages[at..];
      totalTokens := Tokens(messages);
    }
  }

  // ---- Runs ----

  /** A message, and the system prompt in force when it is added. */
  datatype Addition = Addition(system: string, message: Message)

  /** All messages ever added, as they were stored. */
  function LogOf(run: seq<Addition>): seq<Message> {
    if run == [] then [] else LogOf(run[..|run| - 1]) + [Estimated(run[|run| - 1].message)]
  }

  function WindowOf(c: Config, run: seq<Addition>): seq<Message> {
    if run == [] then []
    else
      var a := run[|run| - 1];
      Added(c, a.system, WindowOf(c, run[..|run| - 1]), a.message)
  }

  ghost predicate IsSummary(m: Message) {
    exists dropped :: m == Summary(dropped)
  }

  /** `window` ends with the last `n` messages of `log`, after at most a summary of dropped ones. */
  ghost predicate Shows(c: Config, window: seq<Message>, log: seq<Message>, n: nat) {
    n <= |log| &&
    (window == log[|log| - n..] ||
     (c.strategy != Truncate && |window| == n + 1 && window[1..] == log[|log| - n..] && IsSummary(window[0])))
  }

  function Smaller(a: nat, b: nat): nat { if a <= b then a else b }

  lemma AppendShows(c: Config, window: seq<Message>, log: seq<Message>, k: nat, m: Message)
    requires Shows(c, window, log, k)
    ensures Shows(c, window + [m], log + [m], k + 1)
  {
    assert (log + [m])[|log| - k..] == log[|log| - k..] + [m];
    if window != log[|log| - k..] {
      assert (window + [m])[1..] == window[1..] + [m] && (window + [m])[0] == window[0];
    }
  }

  /** After any run the window is at most a summary and then the end of the full log, and that end never
      has fewer messages than the configuration promises to keep. */
  lemma {:induction false} WindowRefinesLog(c: Config, run: seq<Addition>) returns (n: nat)
    requires c.keepLast >= 1
    ensures Shows(c, WindowOf(c, run), LogOf(run), n) && n >= Smaller(c.keepLast, |run|) && |LogOf(run)| == |run|
  {
    if run == [] {
      n := 0;
    } else {
      var before, a := run[..|run| - 1], run[|run| - 1];
      var k := WindowRefinesLog(c, before);
      var window, log, m := WindowOf(c, before), LogOf(before), Estimated(a.message);
      var all := window + [m];
      AppendShows(c, window, log, k, m);
      assert WindowOf(c, run) == Added(c, a.system, window, a.message) && LogOf(run) == log + [m];
      if Overflows(c, a.system, Tokens(all)) {
        n := CompressedShows(c, all, log + [m], k + 1);
      } else {
        n := k + 1;
      }
    }
  }

  lemma TailOfTail<T>(s: seq<T>, k: nat, n: nat)
    requires n <= k <= |s|
    ensures s[|s| - k..][k - n..] == s[|s| - n..]
  {
  }

  /** The last messages of the window are the last of the log. */
  lemma WindowTail(c: Config, all: seq<Message>, log: seq<Message>, k: nat, n: nat)
    requires Shows(c, all, log, k) && n < |all| && n <= k
    ensures all[|all| - n..] == log[|log| - n..]
  {
    TailOfTail(log, k, n);
    if all != log[|log| - k..] {
      assert all[|all| - n..] == all[1..][k - n..];
    }
  }

  lemma SummaryIs(dropped: seq<Message>)
    ensures IsSummary(Summary(dropped))
  {
  }

  lemma CompressedShows(c: Config, all: seq<Message>, log: seq<Message>, k: nat) returns (n: nat)
    requires c.keepLast >= 1 && Shows(c, all, log, k)
    ensures Shows(c, Compressed(c, all), log, n) && n >= Smaller(c.keepLast, k)
  {
    CompressedExact(c, all);
    if |all| <= c.keepLast {
      n := k;
    } else {
      n := c.keepLast;
      SummaryIs(all[..|all| - n]);
      ShortenedShows(c, all, log, k, Compressed(c, all));
    }
  }

  lemma ShortenedShows(c: Config, all: seq<Message>, log: seq<Message>, k: nat, window: seq<Message>)
    requires 1 <= c.keepLast < |all| && Shows(c, all, log, k)
    requires if c.strategy == Truncate then window == all[|all| - c.keepLast..]
             else |window| == c.keepLast + 1 && window[1..] == all[|all| - c.keepLast..] && IsSummary(window[0])
    ensures Shows(c, window, log, c.keepLast) && c.keepLast <= k
  {
    WindowTail(c, all, log, k, c.keepLast);
  }

  /** `window` is the log, or a summary and the end of the log, where the summary is one of a window on the
      rest of the log; `depth` counts the summaries within summaries. */
  ghost predicate Condenses(sum: seq<Message> -> Message, depth: nat, window: seq<Message>, log: seq<Message>)
    decreases depth, 1
  {
    if depth == 0 then window == log
    else exists dropped :: IsCondensed(sum, depth, dropped, window, log)
  }

  ghost predicate IsCondensed(sum: seq<Message> -> Message, depth: nat, dropped: seq<Message>, window: seq<Message>, log: seq<Message>)
    requires depth > 0
    decreases depth, 0
  {
    && 0 < |window| <= |log| + 1
    && window[1..] == log[|log| + 1 - |window|..]
    && window[0] == sum(dropped)
    && Condenses(sum, depth - 1, dropped, log[..|log| + 1 - |window|])
  }

  lemma AppendCondenses(sum: seq<Message> -> Message, depth: nat, window: seq<Message>, log: seq<Message>, m: Message)
    requires Condenses(sum, depth, window, log)
    ensures Condenses(sum, depth, window + [m], log + [m])
  {
    if depth > 0 {
      var k := |log| + 1 - |window|;
      var dropped :| IsCondensed(sum, depth, dropped, window, log);
      assert (window + [m])[1..] == window[1..] + [m] && (log + [m])[k..] == log[k..] + [m];
      assert (log + [m])[..k] == log[..k];
      assert IsCondensed(sum, depth, dropped, window + [m], log + [m]);
    }
  }

  lemma InitCondenses(sum: seq<Message> -> Message, depth: nat, window: seq<Message>, log: seq<Message>, n: nat)
    requires Condenses(sum, depth, window, log) && n < |window|
    ensures n <= |log| && Condenses(sum, depth, window[..|window| - n], log[..|log| - n])
    ensures window[|window| - n..] == log[|log| - n..]
  {
    if depth > 0 {
      var k := |log| + 1 - |window|;
      var dropped :| IsCondensed(sum, depth, dropped, window, log);
      var w, l := window[..|window| - n], log[..|log| - n];
      assert w[1..] == window[1..][..|w| - 1] && l[k..] == log[k..][..|w| - 1];
      assert l[..k] == log[..k] && w[0] == window[0];
      assert IsCondensed(sum, depth, dropped, w, l);
      TailOfTail(log, |window| - 1, n);
      assert window[|window| - n..] == window[1..][|window| - 1 - n..];
    }
  }

  lemma SumCondenses(sum: seq<Message> -> Message, depth: nat, all: seq<Message>, log: seq<Message>, n: nat)
    requires Condenses(sum, depth, all, log) && n < |all|
    ensures Condenses(sum, depth + 1, [sum(all[..|all| - n])] + all[|all| - n..], log)
  {
    InitCondenses(sum, depth, all, log, n);
    var dropped := all[..|all| - n];
    var window := [sum(dropped)] + all[|all| - n..];
    assert window[1..] == all[|all| - n..];
    assert IsCondensed(sum, depth + 1, dropped, window, log);
  }

  /** Unless messages are truncated none is lost without a trace: after any run, the window and the summaries
      within its summary account for the whole log, in order. */
  lemma {:induction false} SummariesAccount(c: Config, run: seq<Addition>) returns (depth: nat)
    requires c.keepLast >= 1 && c.strategy != Truncate
    ensures Condenses(Summary, depth, WindowOf(c, run), LogOf(run))
  {
    if run == [] {
      depth := 0;
    } else {
      var before, a := run[..|run| - 1], run[|run| - 1];
      depth := SummariesAccount(c, before);
      depth := AddCondenses(c, depth, WindowOf(c, before), LogOf(before), a);
    }
  }

  lemma AddCondenses(c: Config, depth: nat, window: seq<Message>, log: seq<Message>, a: Addition) returns (next: nat)
    requires c.keepLast >= 1 && c.strategy != Truncate && Condenses(Summary, depth, window, log)
    ensures Condenses(Summary, next, Added(c, a.system, window, a.message), log + [Estimated(a.message)])
  {
    var m := Estimated(a.message);
    var all := window + [m];
    AppendCondenses(Summary, depth, window, log, m);
    next := depth;
    if Overflows(c, a.system, Tokens(all)) && |all| > c.keepLast {
      SumCondenses(Summary, depth, all, log + [m], c.keepLast);
      next := depth + 1;
    }
  }

  // ---- Estimates, the threshold and the summary ----

  /** Four characters to a token, rounded down, but at least one for any text. */
  lemma EstimateExact(text: string)
    ensures text == "" ==> EstimateTokens(text) == 0
    ensures 0 < |text| < 4 ==> EstimateTokens(text) == 1
    ensures |text| >= 4 ==> 4 * EstimateTokens(text) <= |text| < 4 * EstimateTokens(text) + 4
  {
  }

  /** An addition leaves everything up to eighty percent of the budget, and is compressed above that. An
      estimate that comes with the message is kept. */
  lemma AddedExact(c: Config, system: string, ms: seq<Message>, m: Message)
    ensures var stored := Message(m.role, m.content, m.name, if m.tokens == 0 then EstimateTokens(m.content) else m.tokens);
      Added(c, system, ms, m)
      == if 100 * (EstimateTokens(system) + Tokens(ms) + stored.tokens) <= 80 * c.maxTokens then ms + [stored] else Compressed(c, ms + [stored])
  {
    StoredExact(m);
    OneMoreToken(ms, Estimated(m));
  }

  lemma StoredExact(m: Message)
    ensures Estimated(m) == Message(m.role, m.content, m.name, if m.tokens == 0 then EstimateTokens(m.content) else m.tokens)
  {
  }

  lemma OneMoreToken(ms: seq<Message>, m: Message)
    ensures Tokens(ms + [m]) == Tokens(ms) + m.tokens
  {
    TokensConcat(ms, [m]);
    assert Tokens([m]) == m.tokens + Tokens([m][1..]);
  }

  /** Compression keeps the last messages, and puts a summary of the others in front unless truncating. */
  lemma CompressedExact(c: Config, all: seq<Message>)
    ensures |all| <= c.keepLast ==> Compressed(c, all) == all
    ensures |all| > c.keepLast ==>
      var w, at := Compressed(c, all), |all| - c.keepLast;
      if c.strategy == Truncate then w == all[at..] else |w| == c.keepLast + 1 && w[1..] == all[at..] && w[0] == Summary(all[..at])
  {
  }

  /** The line for a dropped message: who said what, at most a hundred characters of it; tools by name, and an
      assistant without text not at all. */
  ghost function LineFor(m: Message): seq<string> {
    var shown := if |m.content| <= 100 then m.content else m.content[..100];
    if m.role == "user" then ["[User asked: " + shown + "...]"]
    else if m.role == "assistant" && m.content != "" then ["[Assistant: " + shown + "...]"]
    else if m.role == "tool" then ["[Tool " + m.name + " was called]"]
    else []
  }

  lemma {:induction false} SummaryLinesExact(ms: seq<Message>, m: Message)
    ensures SummaryLines([]) == [] && SummaryLines(ms + [m]) == SummaryLines(ms) + LineFor(m)
  {
    if ms == [] {
      assert ms + [m] == [m] && [m][1..] == [];
    } else {
      assert (ms + [m])[1..] == ms[1..] + [m];
      SummaryLinesExact(ms[1..], m);
    }
  }

  lemma {:induction false} JoinLinesExact(ls: seq<string>, l: string)
    ensures JoinLines([]) == "" && JoinLines([l]) == l
    ensures ls != [] ==> JoinLines(ls + [l]) == JoinLines(ls) + "\n" + l
  {
    if |ls| == 1 {
      assert (ls + [l])[1..] == [l];
    } else if |ls| > 1 {
      assert (ls + [l])[1..] == ls[1..] + [l];
      JoinLinesExact(ls[1..], l);
    }
  }

  /** A summary is a user message with the last twenty of these lines under a heading. */
  lemma SummaryExact(dropped: seq<Message>)
    ensures var lines, s := SummaryLines(dropped), Summary(dropped);
      && s.role == "user" && s.tokens == EstimateTokens(s.content)
      && s.content == "Previous conversation summary:\n" + JoinLines(if |lines| <= 20 then lines else lines[|lines| - 20..])
  {
  }

  // ---- Sizes ----

  /** Whenever an addition overflows, at most `keepLast` messages remain, and a summary unless truncating. */
  lemma OverflowBounds(c: Config, system: string, ms: seq<Message>, m: Message)
    requires Overflows(c, system, Tokens(ms + [Estimated(m)]))
    ensures |Added(c, system, ms, m)| <= c.keepLast + (if c.strategy == Truncate then 0 else 1)
  {
  }

  lemma LastTokens(ms: seq<Message>, n: nat)
    ensures Tokens(ms) == Tokens(ms[..|ms| - |Last(ms, n)|]) + Tokens(Last(ms, n))
  {
    var at := |ms| - |Last(ms, n)|;
    assert ms == ms[..at] + ms[at..];
    TokensConcat(ms[..at], ms[at..]);
  }

  /** Compression drops messages by number, not by size. Truncating ends below the threshold if and only if
      the last `keepLast` messages alone are below it. */
  lemma TruncationFits(c: Config, system: string, ms: seq<Message>, m: Message)
    requires c.strategy == Truncate
    ensures Overflows(c, system, Tokens(Added(c, system, ms, m))) <==> Overflows(c, system, Tokens(Last(ms + [Estimated(m)], c.keepLast)))
  {
    LastTokens(ms + [Estimated(m)], c.keepLast);
  }

  /** With a summary the window ends below the threshold if and only if it was below it before, or messages
      are dropped and the rest is below it together with the summary. */
  lemma SummaryFits(c: Config, system: string, ms: seq<Message>, m: Message)
    requires c.strategy != Truncate
    ensures var all := ms + [Estimated(m)];
      !Overflows(c, system, Tokens(Added(c, system, ms, m))) <==>
        || !Overflows(c, system, Tokens(all))
        || (|all| > c.keepLast &&
            !Overflows(c, system, Summary(all[..|all| - c.keepLast]).tokens + Tokens(Last(all, c.keepLast))))
  {
    CompressedTokens(c, ms + [Estimated(m)]);
  }

  lemma CompressedTokens(c: Config, all: seq<Message>)
    requires c.strategy != Truncate
    ensures Tokens(Compressed(c, all))
         == if |all| <= c.keepLast then Tokens(all) else Summary(all[..|all| - c.keepLast]).tokens + Tokens(Last(all, c.keepLast))
  {
    forall m { HeadTokens(m, Last(all, c.keepLast)); }
  }

  lemma HeadTokens(m: Message, ms: seq<Message>)
    ensures Tokens([m] + ms) == m.tokens + Tokens(ms)
  {
    assert ([m] + ms)[1..] == ms;
  }

  /** For one, a message larger than the whole budget is never dropped when it is added. */
  lemma CompressionMayStillOverflow(c: Config, system: string, ms: seq<Message>, m: Message)
    requires c.keepLast >= 1 && m.tokens > c.maxTokens
    ensures Overflows(c, system, Tokens(Added(c, system, ms, m)))
  {
    var window := Added(c, system, ms, m);
    assert window[|window| - 1] == m;
    TokensConcat(window[..|window| - 1], [m]);
    assert window == window[..|window| - 1] + [m];
    assert Tokens([m]) == m.tokens + Tokens([m][1..]);
  }

  // ---- The trim before a request ----

  /** `int(limit * 0.7)` less the fixed parts, or `int(limit * 0.3)` when that is negative. */
  function Allowance(limit: nat, fixed: nat): nat {
    if limit * 7 / 10 >= fixed then limit * 7 / 10 - fixed else limit * 3 / 10
  }

  /** Seventy percent of the window, rounded down, less the fixed parts; thirty percent if they take more. */
  lemma AllowanceExact(limit: nat, fixed: nat)
    ensures 10 * fixed <= 7 * limit ==> 10 * (Allowance(limit, fixed) + fixed) <= 7 * limit < 10 * (Allowance(limit, fixed) + fixed) + 10
    ensures 10 * fixed > 7 * limit ==> 10 * Allowance(limit, fixed) <= 3 * limit < 10 * Allowance(limit, fixed) + 10
  {
  }

  /** The loop over the messages from the last to the first, with their estimates. */
  method TrimToFit<T>(messages: seq<T>, cost: T -> nat, allowance: nat) returns (trimmed: seq<T>)
    ensures |trimmed| <= |messages| && trimmed == messages[|messages| - |trimmed|..]
    ensures Cost(trimmed, cost) <= allowance
    ensures forall k | 0 <= k <= |messages| && Cost(messages[k..], cost) <= allowance :: |messages| - k <= |trimmed|
  {
    trimmed := [];
    var running := 0;
    var i := |messages|;
    while i > 0
      invariant 0 <= i <= |messages| && trimmed == messages[i..]
      invariant running == Cost(trimmed, cost) <= allowance
    {
      var m := messages[i - 1];
      assert messages[i - 1..] == [m] + messages[i..];
      if running + cost(m) > allowance {
        forall k | 0 <= k <= |messages| && Cost(messages[k..], cost) <= allowance ensures |messages| - k <= |trimmed| {
          if k < i {
            assert messages[k..] == messages[k..i - 1] + messages[i - 1..];
            CostConcat(messages[k..i - 1], messages[i - 1..], cost);
          }
        }
        return;
      }
      trimmed := [m] + trimmed;
      running := running + cost(m);
      i := i - 1;
    }
  }

  function Cost<T>(ms: seq<T>, cost: T -> nat): nat {
    if ms == [] then 0 else cost(ms[0]) + Cost(ms[1..], cost)
  }

  lemma {:induction false} CostConcat<T>(a: seq<T>, b: seq<T>, cost: T -> nat)
    ensures Cost(a + b, cost) == Cost(a, cost) + Cost(b, cost)
  {
    if a == [] {
      assert a + b == b;
    } else {
      assert (a + b)[1..] == a[1..] + b;
      CostConcat(a[1..], b, cost);
    }
  }

  /** The pre-flight check of `_call_llm`: what is sent, given the tokens of the system prompt and the tools. */
  method Preflight<T>(messages: seq<T>, cost: T -> nat, system: nat, tools: nat, limit: nat) returns (sent: seq<T>)
    ensures 100 * (system + tools + Cost(messages, cost)) <= 95 * limit ==> sent == messages
    ensures 100 * (system + tools + Cost(messages, cost)) > 95 * limit ==>
      var allowance := Allowance(limit, system + tools);
      && |sent| <= |messages| && sent == messages[|messages| - |sent|..]
      && Cost(sent, cost) <= allowance
      && (forall k | 0 <= k <= |messages| && Cost(messages[k..], cost) <= allowance :: |messages| - k <= |sent|)
    ensures 10 * (system + tools) <= 7 * limit ==> 100 * (system + tools + Cost(sent, cost)) <= 95 * limit
    ensures 10 * (system + tools) <= 7 * limit && 100 * (system + tools + Cost(messages, cost)) > 95 * limit
            ==> 10 * (system + tools + Cost(sent, cost)) <= 7 * limit
  {
    sent := messages;
    if 100 * (system + tools + Cost(messages, cost)) > 95 * limit {
      sent := TrimToFit(messages, cost, Allowance(limit, system + tools));
    }
  }
}
