/** The `{{...}}` expression language, evaluated by repeated splitting of its text. */
module Expressions {
  import opened Values
  import opened Text
  import Paths

  /** What the evaluator calls: namespace lookup, the filters, Python's `==`, ordering and `getattr`. */
  datatype Engine = Engine(
    namespace: string -> Value,
    parseFloat: string -> Option<Value>,
    filter: (string, Value) -> Result<Value>,
    equal: (Value, Value) -> bool,
    compare: (string, Value, Value) -> bool,
    attr: (Value, string) -> Value,
    str: Value -> string)

  predicate Truthy(v: Value) {
    match v
    case Null => false
    case Bool(b) => b
    case Int(i) => i != 0
    case Real(r) => r != 0.0
    case Str(s) => s != ""
    case List(items) => items != []
    case Dict(entries) => entries != map[]
  }

  // ---- Paths and literals ----

  predicate IsDigits(s: string) {
    s != "" && forall i | 0 <= i < |s| :: '0' <= s[i] <= '9'
  }

  function ToInt(s: string): int
    requires forall i | 0 <= i < |s| :: '0' <= s[i] <= '9'
  {
    if s == "" then 0 else ToInt(s[..|s| - 1]) * 10 + (s[|s| - 1] - '0') as int
  }

  /** `_access` */
  function Access(e: Engine, v: Value, key: string): Value {
    if IsDigits(key) then
      if v.List? && ToInt(key) < |v.items| && 0 <= ToInt(key) then v.items[ToInt(key)] else Null
    else if v.Dict? then Lookup(v.entries, key)
    else e.attr(v, key)
  }

  function Walk(e: Engine, v: Value, keys: seq<string>): Value
    decreases |keys|
  {
    if keys == [] || v == Null then v else Walk(e, Access(e, v, keys[0]), keys[1..])
  }

  predicate IsQuote(c: char) {
    c == '\'' || c == '"'
  }

  /** `_resolve_path` */
  function ResolvePath(e: Engine, path: string): Result<Value> {
    if path != "" && IsQuote(path[0]) && IsQuote(path[|path| - 1]) then
      Ok(Str(if |path| == 1 then "" else path[1..|path| - 1]))
    else if IsDigits(path) then Ok(Int(ToInt(path)))
    else if e.parseFloat(path).Some? then Ok(e.parseFloat(path).value)
    else if path == "true" then Ok(Bool(true))
    else if path == "false" then Ok(Bool(false))
    else if path == "null" || path == "none" then Ok(Null)
    else match Paths.Split(path, "")
      case Err(msg) => Err(msg)
      case Ok(segments) => Ok(if segments == [] then Null else Walk(e, e.namespace(segments[0]), segments[1..]))
  }

  // ---- Operators ----

  /** The binary operators in the order in which the evaluator looks for them. */
  const OPS: seq<string> := ["??", "==", "!=", ">=", "<=", ">", "<", "and", "or"]

  /** Does the right operand count, given the left one's value? */
  predicate NeedsRight(level: nat, left: Value) {
    match level
    case 0 => left == Null
    case 7 => Truthy(left)
    case 8 => !Truthy(left)
    case _ => true
  }

  function Apply(e: Engine, level: nat, left: Value, right: Value): Value
    requires level < |OPS|
  {
    match level
    case 0 => right
    case 1 => Bool(e.equal(left, right))
    case 2 => Bool(!e.equal(left, right))
    case 7 => right
    case 8 => right
    case _ => Bool(e.compare(OPS[level], left, right))
  }

  function ApplyFilters(e: Engine, v: Value, filters: seq<string>): Result<Value>
    decreases |filters|
  {
    if filters == [] then Ok(v)
    else match e.filter(filters[0], v)
      case Err(msg) => Err(msg)
      case Ok(w) => ApplyFilters(e, w, filters[1..])
  }

  // ---- The string evaluator ----

  /** The first operator, in evaluation order, whose spaced form occurs in the text. */
  function FindLevel(expr: string, level: nat := 0): (r: Option<nat>)
    requires level <= |OPS|
    ensures r.Some? ==> level <= r.value < |OPS| && Find(Spaced(OPS[r.value]), expr).Some?
    decreases |OPS| - level
  {
    if level == |OPS| then None
    else if Find(Spaced(OPS[level]), expr).Some? then Some(level)
    else FindLevel(expr, level + 1)
  }

  function StripAll(parts: seq<string>): seq<string> {
    if parts == [] then [] else [Strip(parts[0])] + StripAll(parts[1..])
  }

  /** How `_evaluate_expression` takes a text apart: at the first binary operator, after a `not`, or at the pipes. */
  datatype Parts =
    | Around(level: nat, left: string, right: string)
    | After(arg: string)
    | Piped(pieces: seq<string>)

  /** The texts on either side of an operator. */
  function CutAt(expr: string, level: nat, at: nat): (p: Parts)
    requires level < |OPS| && at + |Spaced(OPS[level])| <= |expr|
    ensures p.Around? && p.level == level && |p.left| < |expr| && |p.right| < |expr|
  {
    Around(level, Strip(expr[..at]), Strip(expr[at + |Spaced(OPS[level])|..]))
  }

  function TakeApart(expr: string): (p: Parts)
    ensures p.Around? ==> p.level < |OPS| && |p.left| < |expr| && |p.right| < |expr|
    ensures p.After? ==> |p.arg| < |expr|
    ensures p.Piped? ==> p.pieces != []
  {
    var level := FindLevel(expr);
    if level.Some? then
      CutAt(expr, level.value, Find(Spaced(OPS[level.value]), expr).value)
    else if "not " <= expr then After(Strip(expr[4..]))
    else Piped(StripAll(SplitOn('|', expr)))
  }

  /** `_evaluate_expression`; every recursive call is on a shorter text. */
  function Evaluate(e: Engine, expr: string): Result<Value>
    decreases |expr|
  {
    match TakeApart(expr)
    case Around(level, l, r) =>
      (match Evaluate(e, l)
       case Err(msg) => Err(msg)
       case Ok(left) =>
         if !NeedsRight(level, left) then Ok(left)
         else match Evaluate(e, r)
           case Err(msg) => Err(msg)
           case Ok(right) => Ok(Apply(e, level, left, right)))
    case After(arg) =>
      (match Evaluate(e, arg)
       case Err(msg) => Err(msg)
       case Ok(v) => Ok(Bool(!Truthy(v))))
    case Piped(pieces) =>
      match ResolvePath(e, pieces[0])
      case Err(msg) => Err(msg)
      case Ok(v) => ApplyFilters(e, v, pieces[1..])
  }

  // ---- Trees ----

  /** An operand is a path, or a quoted text, of one or more words, with a pipeline of filters. */
  datatype Tree =
    | Binary(level: nat, left: Tree, right: Tree)
    | Not(arg: Tree)
    | Operand(path: seq<string>, filters: seq<seq<string>>)

  /** The meaning of a tree; a right operand that does not count is not evaluated. */
  function Meaning(e: Engine, t: Tree): Result<Value>
    requires Layered(t)
  {
    match t
    case Binary(level, l, r) =>
      (match Meaning(e, l)
       case Err(msg) => Err(msg)
       case Ok(left) =>
         if !NeedsRight(level, left) then Ok(left)
         else match Meaning(e, r)
           case Err(msg) => Err(msg)
           case Ok(right) => Ok(Apply(e, level, left, right)))
    case Not(arg) =>
      (match Meaning(e, arg)
       case Err(msg) => Err(msg)
       case Ok(v) => Ok(Bool(!Truthy(v))))
    case Operand(path, filters) =>
      match ResolvePath(e, Join(path))
      case Err(msg) => Err(msg)
      case Ok(v) => ApplyFilters(e, v, JoinAll(filters))
  }

  function JoinAll(filters: seq<seq<string>>): seq<string> {
    if filters == [] then [] else [Join(filters[0])] + JoinAll(filters[1..])
  }

  function LevelOf(t: Tree): nat {
    match t
    case Binary(level, _, _) => level
    case Not(_) => 9
    case Operand(_, _) => 10
  }

  /** A word that means nothing to the evaluator. */
  predicate PlainWord(w: string) {
    IsWord(w) && '|' !in w && w !in OPS && w != "not"
  }

  predicate PlainWords(ws: seq<string>) {
    ws != [] && forall i | 0 <= i < |ws| :: PlainWord(ws[i])
  }

  /** The evaluator's own layering: operators found later bind tighter, and every level nests to the right. */
  predicate Layered(t: Tree) {
    match t
    case Binary(level, l, r) => level < |OPS| && LevelOf(l) > level && LevelOf(r) >= level && Layered(l) && Layered(r)
    case Not(arg) => LevelOf(arg) >= 9 && Layered(arg)
    case Operand(path, filters) => PlainWords(path) && forall i | 0 <= i < |filters| :: PlainWords(filters[i])
  }

  function FilterWords(filters: seq<seq<string>>): seq<string> {
    if filters == [] then [] else ["|"] + filters[0] + FilterWords(filters[1..])
  }

  function Words(t: Tree): (ws: seq<string>)
    requires Layered(t)
  {
    match t
    case Binary(level, l, r) => Words(l) + [OPS[level]] + Words(r)
    case Not(arg) => ["not"] + Words(arg)
    case Operand(path, filters) => path + FilterWords(filters)
  }

  function Print(t: Tree): string
    requires Layered(t)
  {
    Join(Words(t))
  }

  // ---- The printed text is split as the tree is built ----

  lemma OpsAreWords(k: nat)
    requires k < |OPS|
    ensures IsWord(OPS[k]) && OPS[k] != "not" && OPS[k] != "|" && (forall j | 0 <= j < |OPS| :: OPS[j] == OPS[k] ==> j == k)
  {
    var firsts := "?=!><><ao";
    var seconds := ["?", "=", "=", "=", "=", "", "", "nd", "r"];
    assert OPS[k] == [firsts[k]] + seconds[k];
    forall j | 0 <= j < |OPS| && OPS[j] == OPS[k] ensures j == k {
      assert OPS[j] == [firsts[j]] + seconds[j];
      assert OPS[j][0] == OPS[k][0] && OPS[j][1..] == OPS[k][1..] && OPS[j][1..] == seconds[j] && OPS[k][1..] == seconds[k];
    }
  }

  lemma {:induction false} FilterWordsPlain(filters: seq<seq<string>>)
    requires forall i | 0 <= i < |filters| :: PlainWords(filters[i])
    ensures AllWords(FilterWords(filters)) && forall w | w in FilterWords(filters) :: w == "|" || PlainWord(w)
  {
    if filters != [] {
      FilterWordsPlain(filters[1..]);
    }
  }

  /** Only operators of the tree's own level and above occur among its words. */
  lemma {:induction false} WordsOf(t: Tree)
    requires Layered(t)
    ensures Words(t) != [] && AllWords(Words(t))
    ensures forall k | 0 <= k < |OPS| && k < LevelOf(t) :: OPS[k] !in Words(t)
  {
    match t
    case Binary(level, l, r) =>
      WordsOf(l);
      WordsOf(r);
      forall k | 0 <= k < |OPS| { OpsAreWords(k); }
    case Not(arg) =>
      WordsOf(arg);
      forall k | 0 <= k < |OPS| { OpsAreWords(k); }
    case Operand(path, filters) =>
      FilterWordsPlain(filters);
      forall k | 0 <= k < |OPS| { OpsAreWords(k); }
  }

  lemma {:induction false} LevelFound(expr: string, level: nat, from: nat)
    requires from <= level <= |OPS|
    requires forall k | from <= k < level :: Find(Spaced(OPS[k]), expr).None?
    requires level < |OPS| ==> Find(Spaced(OPS[level]), expr).Some?
    ensures FindLevel(expr, from) == if level < |OPS| then Some(level) else None
    decreases level - from
  {
    if from < level {
      LevelFound(expr, level, from + 1);
    }
  }

  lemma JoinAround(a: seq<string>, op: string, b: seq<string>)
    requires a != [] && b != []
    ensures Join(a + [op] + b) == Join(a) + Spaced(op) + Join(b)
  {
    assert a + [op] + b == a + ([op] + b);
    JoinConcat(a, [op] + b);
    JoinFirst([op] + b);
    assert ([op] + b)[1..] == b;
  }

  lemma BinarySplits(t: Tree)
    requires Layered(t) && t.Binary?
    ensures TakeApart(Print(t)) == Around(t.level, Print(t.left), Print(t.right))
  {
    var a, op, b, expr := Words(t.left), OPS[t.level], Words(t.right), Print(t);
    WordsOf(t);
    WordsOf(t.left);
    WordsOf(t.right);
    OpsAreWords(t.level);
    FindOp(op, a, b);
    forall k | 0 <= k < t.level ensures Find(Spaced(OPS[k]), expr).None? {
      OpsAreWords(k);
      FindNoOp(OPS[k], Words(t));
    }
    LevelFound(expr, t.level, 0);
    JoinAround(a, op, b);
    assert expr[..|Join(a)|] == Join(a);
    assert expr[|Join(a)| + |Spaced(op)|..] == Join(b);
    StripJoin(a);
    StripJoin(b);
  }

  lemma NoLevel(t: Tree)
    requires Layered(t) && !t.Binary?
    ensures FindLevel(Print(t)) == None
  {
    WordsOf(t);
    forall k | 0 <= k < |OPS| ensures Find(Spaced(OPS[k]), Print(t)).None? {
      OpsAreWords(k);
      FindNoOp(OPS[k], Words(t));
    }
    LevelFound(Print(t), |OPS|, 0);
  }

  lemma NotSplits(t: Tree)
    requires Layered(t) && t.Not?
    ensures TakeApart(Print(t)) == After(Print(t.arg))
  {
    NoLevel(t);
    WordsOf(t.arg);
    JoinFirst(Words(t));
    assert Words(t)[1..] == Words(t.arg);
    assert Print(t) == "not " + Print(t.arg);
    assert Print(t)[4..] == Print(t.arg);
    StripJoin(Words(t.arg));
  }

  predicate IsLead(lead: string) {
    lead == "" || lead == " "
  }

  lemma LeadStrips(lead: string, ws: seq<string>)
    requires IsLead(lead) && PlainWords(ws)
    ensures Strip(lead + Join(ws)) == Join(ws) && Strip(lead + Join(ws) + " ") == Join(ws)
    ensures '|' !in lead + Join(ws) && '|' !in lead + Join(ws) + " "
  {
    NotInJoin('|', ws);
    StripPadded(ws);
    StripJoin(ws);
    assert "" + Join(ws) == Join(ws);
  }

  lemma FirstPipe(first: string, tail: string)
    requires '|' !in first
    ensures StripAll(SplitOn('|', first + "|" + tail)) == [Strip(first)] + StripAll(SplitOn('|', tail))
  {
    SplitAt('|', first, tail);
    assert ([first] + SplitOn('|', tail))[1..] == SplitOn('|', tail);
  }

  lemma NoPipe(only: string)
    requires '|' !in only
    ensures StripAll(SplitOn('|', only)) == [Strip(only)]
  {
    SplitWhole('|', only);
    assert [only][1..] == [];
  }

  lemma OperandText(lead: string, ws: seq<string>, filters: seq<seq<string>>)
    requires ws != [] && filters != [] && filters[0] != []
    ensures lead + Join(ws + FilterWords(filters)) == (lead + Join(ws) + " ") + "|" + (" " + Join(filters[0] + FilterWords(filters[1..])))
  {
    var rest := filters[0] + FilterWords(filters[1..]);
    assert ws + FilterWords(filters) == ws + ["|"] + rest;
    JoinAround(ws, "|", rest);
    Regroup(lead, Join(ws), Join(rest));
  }

  lemma Regroup(lead: string, a: string, b: string)
    ensures lead + (a + Spaced("|") + b) == (lead + a + " ") + "|" + (" " + b)
  {
  }

  /** Splitting an operand's text at the pipes; `lead` is the blank left over from the pipe before. */
  lemma {:induction false} PipesSplit(lead: string, ws: seq<string>, filters: seq<seq<string>>)
    requires IsLead(lead)
    requires PlainWords(ws) && forall i | 0 <= i < |filters| :: PlainWords(filters[i])
    ensures StripAll(SplitOn('|', lead + Join(ws + FilterWords(filters)))) == [Join(ws)] + JoinAll(filters)
    decreases |filters|
  {
    LeadStrips(lead, ws);
    if filters == [] {
      assert ws + FilterWords(filters) == ws;
      NoPipe(lead + Join(ws));
    } else {
      OperandText(lead, ws, filters);
      FirstPipe(lead + Join(ws) + " ", " " + Join(filters[0] + FilterWords(filters[1..])));
      PipesSplit(" ", filters[0], filters[1..]);
    }
  }

  lemma OperandSplits(t: Tree)
    requires Layered(t) && t.Operand?
    ensures TakeApart(Print(t)) == Piped([Join(t.path)] + JoinAll(t.filters))
  {
    NoLevel(t);
    WordsOf(t);
    PrefixIsWord("not", Words(t));
    assert "not" + " " == "not ";
    PipesSplit("", t.path, t.filters);
    assert "" + Print(t) == Print(t);
  }

  /** The evaluator agrees with the tree's meaning: the text of every layered tree evaluates, and fails to
      evaluate, exactly as the tree does. */
  lemma {:induction false} EvaluatePrint(e: Engine, t: Tree)
    requires Layered(t)
    ensures Evaluate(e, Print(t)) == Meaning(e, t)
  {
    match t
    case Binary(_, l, r) =>
      EvaluatePrint(e, l);
      EvaluatePrint(e, r);
      BinarySplits(t);
      EvaluateAround(e, Print(t), t, Print(l), Print(r));
    case Not(arg) =>
      NotSplits(t);
      EvaluatePrint(e, arg);
    case Operand(path, filters) =>
      OperandSplits(t);
      var pieces := [Join(path)] + JoinAll(filters);
      assert pieces[0] == Join(path) && pieces[1..] == JoinAll(filters);
  }

  lemma EvaluateAround(e: Engine, expr: string, t: Tree, l: string, r: string)
    requires Layered(t) && t.Binary? && TakeApart(expr) == Around(t.level, l, r)
    requires Evaluate(e, l) == Meaning(e, t.left) && Evaluate(e, r) == Meaning(e, t.right)
    ensures Evaluate(e, expr) == Meaning(e, t)
  {
  }

  // ---- What the operators mean, and how they bind ----

  /** `and`, `or` and `??` answer with one of their operands, and as the connectives they stand for. */
  lemma Connectives(e: Engine, level: nat, l: Tree, r: Tree, left: Value, right: Value)
    requires Layered(Binary(level, l, r)) && Meaning(e, l) == Ok(left) && Meaning(e, r) == Ok(right)
    ensures Meaning(e, Binary(level, l, r)).Ok?
    ensures var v := Meaning(e, Binary(level, l, r)).value;
      && (OPS[level] == "and" ==> v == (if Truthy(left) then right else left) && (Truthy(v) <==> Truthy(left) && Truthy(right)))
      && (OPS[level] == "or" ==> v == (if Truthy(left) then left else right) && (Truthy(v) <==> Truthy(left) || Truthy(right)))
      && (OPS[level] == "??" ==> v == (if left == Null then right else left) && (v == Null <==> left == Null && right == Null))
      && (OPS[level] == "==" ==> v == Bool(e.equal(left, right)))
      && (OPS[level] == "!=" ==> v == Bool(!e.equal(left, right)))
      && (OPS[level] in {">=", "<=", ">", "<"} ==> v == Bool(e.compare(OPS[level], left, right)))
  {
    OpsAreWords(level);
  }

  /** An operand that does not count is never looked at: it may even fail. */
  lemma SkippedOperand(e: Engine, level: nat, l: Tree, r: Tree, other: Tree, left: Value)
    requires Layered(Binary(level, l, r)) && Layered(Binary(level, l, other))
    requires Meaning(e, l) == Ok(left) && !NeedsRight(level, left)
    ensures Evaluate(e, Print(Binary(level, l, r))) == Evaluate(e, Print(Binary(level, l, other))) == Ok(left)
  {
    EvaluatePrint(e, Binary(level, l, r));
    EvaluatePrint(e, Binary(level, l, other));
  }

  /** Against the usual convention, `or` binds tighter than `and`. */
  lemma OrBindsTighter(e: Engine, a: string, b: string, c: string)
    requires PlainWord(a) && PlainWord(b) && PlainWord(c)
    ensures var t := Binary(7, Binary(8, Operand([a], []), Operand([b], [])), Operand([c], []));
      Layered(t) && Evaluate(e, Join([a, "or", b, "and", c])) == Meaning(e, t)
  {
    assert Layered(Operand([a], [])) && Layered(Operand([b], [])) && Layered(Operand([c], []));
    var t := Binary(7, Binary(8, Operand([a], []), Operand([b], [])), Operand([c], []));
    assert Words(Operand([a], [])) == [a] && Words(Operand([b], [])) == [b] && Words(Operand([c], [])) == [c];
    assert Words(Binary(8, Operand([a], []), Operand([b], []))) == [a, "or", b];
    assert Words(t) == [a, "or", b, "and", c];
    EvaluatePrint(e, t);
  }

  /** The two readings of `a or b and c` differ exactly when a holds and is not what c is. */
  lemma ReadingsAgree(e: Engine, a: string, b: string, c: string, va: Value, vb: Value, vc: Value)
    requires PlainWord(a) && PlainWord(b) && PlainWord(c)
    requires ResolvePath(e, a) == Ok(va) && ResolvePath(e, b) == Ok(vb) && ResolvePath(e, c) == Ok(vc)
    ensures Evaluate(e, Join([a, "or", b, "and", c])) == Joined(e, 8, Ok(va), Joined(e, 7, Ok(vb), Ok(vc)))
      <==> !Truthy(va) || vc == va
  {
    OrBindsTighter(e, a, b, c);
    WordMeans(e, a);
    WordMeans(e, b);
    WordMeans(e, c);
  }

  lemma WordMeans(e: Engine, w: string)
    requires PlainWord(w)
    ensures Layered(Operand([w], [])) && Meaning(e, Operand([w], [])) == ResolvePath(e, w)
  {
    assert Join([w]) == w && JoinAll([]) == [];
  }

  lemma WordMeansNothing(e: Engine, w: string)
    requires PlainWord(w) && Paths.Split(w, "") == Ok([w])
    requires !IsQuote(w[0]) || !IsQuote(w[|w| - 1])
    requires !IsDigits(w) && w !in {"true", "false"} && e.parseFloat(w) == None && e.namespace(w) == Null
    ensures Meaning(e, Operand([w], [])) == Ok(Null)
  {
    assert Join([w]) == w && JoinAll([]) == [];
    assert Walk(e, Null, [w][1..]) == Null;
  }

  // ---- Quoted texts ----

  function Quoted(q: char, s: string): string {
    [q] + s + [q]
  }

  lemma QuotedStays(q: char, s: string)
    requires IsQuote(q)
    ensures Strip(Quoted(q, s)) == Quoted(q, s) && !("not " <= Quoted(q, s))
    ensures Quoted(q, s)[0] == q && Quoted(q, s)[|Quoted(q, s)| - 1] == q && Quoted(q, s)[1..|Quoted(q, s)| - 1] == s
  {
    var t := Quoted(q, s);
    assert t[0] == q && t[|t| - 1] == q;
    PrefixHead("not ", t);
  }

  lemma PrefixHead(p: string, t: string)
    requires p != ""
    ensures p <= t ==> t[0] == p[0]
  {
  }

  lemma StripAllLength(parts: seq<string>)
    ensures |StripAll(parts)| == |parts|
  {
  }

  /** No operator, with its blanks, occurs in the text. */
  ghost predicate NoOperator(expr: string) {
    forall k | 0 <= k < |OPS| :: Find(Spaced(OPS[k]), expr).None?
  }

  lemma {:induction false} NoLevelAtAll(expr: string, from: nat)
    requires from <= |OPS|
    ensures FindLevel(expr, from).None? <==> forall k | from <= k < |OPS| :: Find(Spaced(OPS[k]), expr).None?
    decreases |OPS| - from
  {
    if from < |OPS| {
      NoLevelAtAll(expr, from + 1);
    }
  }

  /** The operator at which the text is split, and where. */
  ghost predicate FirstOperator(expr: string, level: nat, at: nat)
    requires level < |OPS|
  {
    Find(Spaced(OPS[level]), expr) == Some(at) && forall k | 0 <= k < level :: Find(Spaced(OPS[k]), expr).None?
  }

  /** Quotes keep a text in one piece if and only if no operator, between its blanks, and no pipe occurs in it. */
  lemma QuotesKeepTogether(q: char, s: string)
    requires IsQuote(q)
    ensures TakeApart(Quoted(q, s)) == Piped([Quoted(q, s)]) <==> NoOperator(Quoted(q, s)) && '|' !in s
  {
    var t := Quoted(q, s);
    QuotedStays(q, s);
    NoLevelAtAll(t, 0);
    SplitCount('|', t);
    StripAllLength(SplitOn('|', t));
    assert '|' in t <==> '|' in s;
    if '|' !in s {
      NoPipe(t);
    }
  }

  /** And then it evaluates to the text that it quotes. */
  lemma QuotesProtect(e: Engine, q: char, s: string)
    requires IsQuote(q) && NoOperator(Quoted(q, s)) && '|' !in s
    ensures Evaluate(e, Quoted(q, s)) == Ok(Str(s))
  {
    QuotesKeepTogether(q, s);
    QuotedStays(q, s);
    var t := Quoted(q, s);
    assert ResolvePath(e, t) == Ok(Str(s));
    assert [t][1..] == [];
  }

  /** The result of an operator, given those of its operands. */
  function Joined(e: Engine, level: nat, left: Result<Value>, right: Result<Value>): Result<Value>
    requires level < |OPS|
  {
    if left.Err? || !NeedsRight(level, left.value) then left
    else if right.Err? then right
    else Ok(Apply(e, level, left.value, right.value))
  }

  /** Otherwise it is split like any text: at its first operator, with a quote left over on either side. */
  lemma QuotesDoNotProtect(e: Engine, q: char, a: string, level: nat, b: string)
    requires level < |OPS| && FirstOperator(Quoted(q, a + Spaced(OPS[level]) + b), level, |a| + 1)
    ensures Evaluate(e, Quoted(q, a + Spaced(OPS[level]) + b))
         == Joined(e, level, Evaluate(e, Strip([q] + a)), Evaluate(e, Strip(b + [q])))
  {
    QuotedSplits(q, a, level, b);
    EvaluateSplit(e, Quoted(q, a + Spaced(OPS[level]) + b), level, Strip([q] + a), Strip(b + [q]));
  }

  lemma QuotedSplits(q: char, a: string, level: nat, b: string)
    requires level < |OPS| && FirstOperator(Quoted(q, a + Spaced(OPS[level]) + b), level, |a| + 1)
    ensures TakeApart(Quoted(q, a + Spaced(OPS[level]) + b)) == Around(level, Strip([q] + a), Strip(b + [q]))
  {
    QuotedParts(q, a, Spaced(OPS[level]), b);
    FirstLevel(Quoted(q, a + Spaced(OPS[level]) + b), level, |a| + 1);
    SplitsAround(Quoted(q, a + Spaced(OPS[level]) + b), level, |a| + 1);
  }

  lemma FirstLevel(expr: string, level: nat, at: nat)
    requires level < |OPS| && FirstOperator(expr, level, at)
    ensures FindLevel(expr) == Some(level) && Find(Spaced(OPS[level]), expr) == Some(at)
  {
    LevelFound(expr, level, 0);
  }

  lemma SplitsAround(expr: string, level: nat, at: nat)
    requires level < |OPS| && FindLevel(expr) == Some(level) && Find(Spaced(OPS[level]), expr) == Some(at)
    ensures TakeApart(expr) == CutAt(expr, level, at)
  {
  }

  lemma EvaluateSplit(e: Engine, expr: string, level: nat, l: string, r: string)
    requires TakeApart(expr) == Around(level, l, r)
    ensures level < |OPS| && Evaluate(e, expr) == Joined(e, level, Evaluate(e, l), Evaluate(e, r))
  {
  }

  lemma QuotedParts(q: char, a: string, op: string, b: string)
    ensures var t := Quoted(q, a + op + b); t[..|a| + 1] == [q] + a && t[|a| + 1 + |op|..] == b + [q]
  {
  }

  /** A pipe cuts the text as well: what is left of it is a path, and what is right of it a filter. */
  lemma QuotedPipe(q: char, a: string, b: string)
    requires IsQuote(q) && NoOperator(Quoted(q, a + "|" + b)) && '|' !in a
    ensures TakeApart(Quoted(q, a + "|" + b)) == Piped([Strip([q] + a)] + StripAll(SplitOn('|', b + [q])))
  {
    QuotedStays(q, a + "|" + b);
    NoLevelAtAll(Quoted(q, a + "|" + b), 0);
    QuotedAtPipe(q, a, b);
    FirstPipe([q] + a, b + [q]);
  }

  lemma QuotedAtPipe(q: char, a: string, b: string)
    ensures Quoted(q, a + "|" + b) == ([q] + a) + "|" + (b + [q])
  {
  }

  ghost const QUOTED: Tree := Binary(7, Operand(["'a"], []), Operand(["b'"], []))

  lemma TwoWords(a: string, b: string)
    requires PlainWord(a) && PlainWord(b)
    ensures var t := Binary(7, Operand([a], []), Operand([b], [])); Layered(t) && Print(t) == a + Spaced("and") + b
  {
    var l, r := Operand([a], []), Operand([b], []);
    assert Layered(l) && Layered(r) && Words(l) == [a] && Words(r) == [b];
    JoinAround([a], "and", [b]);
    assert Join([a]) == a && Join([b]) == b;
  }

  lemma QuotedText()
    ensures Layered(QUOTED) && Print(QUOTED) == "'a and b'"
  {
    assert PlainWord("'a") && PlainWord("b'");
    TwoWords("'a", "b'");
    assert "'a" + Spaced("and") + "b'" == "'a and b'";
  }

  /** For one: the literal 'a and b' is split at the `and`. */
  lemma QuotedOperatorSplits(e: Engine)
    requires e.parseFloat("'a") == None && e.namespace("'a") == Null
    ensures Evaluate(e, "'a and b'") == Ok(Null)
  {
    QuotedText();
    EvaluatePrint(e, QUOTED);
    Paths.SplitPlain("'a", "", "");
    assert "'a" + "" == "'a" && "" + "'a" == "'a";
    WordMeansNothing(e, "'a");
  }
}
