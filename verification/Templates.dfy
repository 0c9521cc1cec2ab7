/** Strings with `{{expression}}` templates in them. */
module Templates {
  import opened Values
  import opened Text
  import opened Expressions

  /** The strict pattern: the whole text is one template without a closing brace inside. */
  predicate IsSingle(t: string) {
    |t| >= 5 && "{{" <= t && t[|t| - 2..] == "}}" && '}' !in t[2..|t| - 2]
  }

  /** The shortest match of `.+?}}`: the length of its first part, counting from `j`. */
  function Close(s: string, j: nat := 0): (r: Option<nat>)
    ensures r.Some? ==> r.value + 2 <= |s|
    decreases |s| - j
  {
    if j >= |s| then None
    else if j >= 1 && "}}" <= s[j..] then Some(j)
    else if s[j] == '\n' then None
    else Close(s, j + 1)
  }

  function Then(text: string, rest: Result<string>): Result<string> {
    match rest
    case Err(msg) => Err(msg)
    case Ok(t) => Ok(text + t)
  }

  /** What a template leaves in the text. */
  function Shown(e: Engine, v: Value): string {
    if v == Null then "" else e.str(v)
  }

  lemma ShownExact(e: Engine, v: Value)
    ensures Shown(e, Null) == "" && (v != Null ==> Shown(e, v) == e.str(v))
  {
  }

  function Filled(e: Engine, value: Result<Value>, rest: Result<string>): Result<string> {
    match value
    case Err(msg) => Err(msg)
    case Ok(v) => Then(Shown(e, v), rest)
  }

  /** `_TEMPLATE_RE.sub`: replace every template, left to right. */
  function Interpolate(e: Engine, s: string): Result<string>
    decreases |s|
  {
    if s == "" then Ok("")
    else if "{{" <= s && Close(s[2..]).Some? then
      var n := Close(s[2..]).value;
      Filled(e, Evaluate(e, Strip(s[2..][..n])), Interpolate(e, s[2..][n + 2..]))
    else Then([s[0]], Interpolate(e, s[1..]))
  }

  /** `_resolve_string`: a text that is one template keeps the type of its value. */
  function ResolveString(e: Engine, text: string): Result<Value> {
    var t := Strip(text);
    if IsSingle(t) then Evaluate(e, Strip(t[2..|t| - 2]))
    else match Interpolate(e, text)
      case Err(msg) => Err(msg)
      case Ok(s) => Ok(Str(s))
  }

  /** `evaluate_condition`: texts are read as truth values where they look like one. */
  function Condition(e: Engine, lower: string -> string, text: string): Result<bool> {
    match ResolveString(e, text)
    case Err(msg) => Err(msg)
    case Ok(Bool(b)) => Ok(b)
    case Ok(Str(s)) =>
      var word := Strip(lower(s));
      Ok(if word in {"true", "1", "yes"} then true else if word in {"false", "0", "no", "none", "null", ""} then false else Truthy(Str(s)))
    case Ok(v) => Ok(Truthy(v))
  }

  /** A condition that resolves is false exactly for false values and for texts that, stripped and in lower
      case, say so; an empty text is one of them. */
  lemma ConditionExact(e: Engine, lower: string -> string, text: string, v: Value)
    requires ResolveString(e, text) == Ok(v) && Strip(lower("")) == ""
    ensures Condition(e, lower, text) == Ok(false) <==>
      if v.Str? then Strip(lower(v.s)) in ["false", "0", "no", "none", "null", ""] else v in [Null, Bool(false), Int(0), Real(0.0), List([]), Dict(map[])]
    ensures Condition(e, lower, text).Ok?
  {
    assert "true" !in ["false", "0", "no", "none", "null", ""] && "1" !in ["false", "0", "no", "none", "null", ""] && "yes" !in ["false", "0", "no", "none", "null", ""];
  }

  // ---- Text without templates ----

  lemma {:induction false} NoTemplate(e: Engine, s: string)
    requires !IsInfix("{{", s)
    ensures Interpolate(e, s) == Ok(s)
    decreases |s|
  {
    if s != "" {
      NoTemplate(e, s[1..]);
      assert [s[0]] + s[1..] == s;
    }
  }

  lemma {:induction false} InfixOfLStrip(p: string, s: string)
    requires IsInfix(p, LStrip(s))
    ensures IsInfix(p, s)
    decreases |s|
  {
    if s != "" && IsSpace(s[0]) {
      InfixOfLStrip(p, s[1..]);
    }
  }

  lemma {:induction false} PrefixOfRStrip(p: string, s: string)
    requires p <= RStrip(s)
    ensures p <= s
    decreases |s|
  {
    if s != "" && IsSpace(s[|s| - 1]) {
      PrefixOfRStrip(p, s[..|s| - 1]);
    }
  }

  /** A text without `{{` stands for itself. */
  lemma PlainTextStays(e: Engine, text: string)
    requires !IsInfix("{{", text)
    ensures ResolveString(e, text) == Ok(Str(text))
  {
    if "{{" <= Strip(text) {
      PrefixOfRStrip("{{", LStrip(text));
      InfixOfLStrip("{{", text);
    }
    NoTemplate(e, text);
  }

  // ---- One template ----

  /** A text that is a single template, blanks aside, resolves to the value itself, whatever its type. */
  lemma SingleTemplate(e: Engine, text: string, inner: string, t: Tree)
    requires Layered(t) && Strip(inner) == Print(t) && '}' !in inner && inner != ""
    requires Strip(text) == "{{" + inner + "}}"
    ensures ResolveString(e, text) == Meaning(e, t)
  {
    var s := "{{" + inner + "}}";
    assert s[2..|s| - 2] == inner && s[|s| - 2..] == "}}";
    EvaluatePrint(e, t);
  }

  // ---- Text around templates ----

  datatype Piece = Literal(s: string) | Hole(t: Tree)

  ghost predicate GoodPiece(p: Piece) {
    match p
    case Literal(s) => '{' !in s
    case Hole(t) => Layered(t) && '}' !in Print(t)
  }

  ghost predicate GoodPieces(ps: seq<Piece>) {
    forall i | 0 <= i < |ps| :: GoodPiece(ps[i])
  }

  ghost function PrintPiece(p: Piece): string
    requires GoodPiece(p)
  {
    match p
    case Literal(s) => s
    case Hole(t) => "{{" + Print(t) + "}}"
  }

  ghost function PrintPieces(ps: seq<Piece>): string
    requires GoodPieces(ps)
  {
    if ps == [] then "" else PrintPiece(ps[0]) + PrintPieces(ps[1..])
  }

  /** The literals as they are, each hole as the text of its value; the first hole that fails fails it all. */
  ghost function Fill(e: Engine, ps: seq<Piece>): Result<string>
    requires GoodPieces(ps)
  {
    if ps == [] then Ok("")
    else match ps[0]
      case Literal(s) => Then(s, Fill(e, ps[1..]))
      case Hole(t) => Filled(e, Meaning(e, t), Fill(e, ps[1..]))
  }

  lemma LetterStays(e: Engine, c: char, rest: string)
    requires c != '{'
    ensures Interpolate(e, [c] + rest) == Then([c], Interpolate(e, rest))
  {
    var s := [c] + rest;
    assert s[0] == c && s[1..] == rest;
    assert !("{{" <= s) by { assert "{{"[0] == '{'; }
  }

  lemma ThenThen(a: string, b: string, r: Result<string>)
    ensures Then(a, Then(b, r)) == Then(a + b, r)
  {
    if r.Ok? {
      assert a + (b + r.value) == (a + b) + r.value;
    }
  }

  lemma {:induction false} LiteralStays(e: Engine, s: string, rest: string)
    requires '{' !in s
    ensures Interpolate(e, s + rest) == Then(s, Interpolate(e, rest))
    decreases |s|
  {
    if s == "" {
      assert s + rest == rest;
      var r := Interpolate(e, rest);
      assert r.Ok? ==> "" + r.value == r.value;
    } else {
      assert s + rest == [s[0]] + (s[1..] + rest) && [s[0]] + s[1..] == s;
      LetterStays(e, s[0], s[1..] + rest);
      LiteralStays(e, s[1..], rest);
      ThenThen([s[0]], s[1..], Interpolate(e, rest));
    }
  }

  lemma {:induction false} CloseAfter(p: string, rest: string, j: nat)
    requires '}' !in p && '\n' !in p && p != "" && j <= |p|
    ensures Close(p + "}}" + rest, j) == Some(|p|)
    decreases |p| - j
  {
    var s := p + "}}" + rest;
    if j == |p| {
      assert s[j..][..2] == "}}";
    } else {
      assert s[j] == p[j] && s[j..][0] == p[j];
      CloseAfter(p, rest, j + 1);
    }
  }

  lemma PrintHasNoNewline(t: Tree)
    requires Layered(t)
    ensures '\n' !in Print(t) && Print(t) != "" && Strip(Print(t)) == Print(t)
  {
    WordsOf(t);
    forall w | w in Words(t) ensures '\n' !in w {
      var i :| 0 <= i < |Words(t)| && Words(t)[i] == w;
      assert IsWord(Words(t)[i]);
    }
    NotInJoin('\n', Words(t));
    JoinEnds(Words(t));
    StripJoin(Words(t));
  }

  lemma HoleFills(e: Engine, t: Tree, rest: string)
    requires Layered(t) && '}' !in Print(t)
    ensures Interpolate(e, "{{" + Print(t) + "}}" + rest) == Filled(e, Meaning(e, t), Interpolate(e, rest))
  {
    var p := Print(t);
    var s := "{{" + p + "}}" + rest;
    assert s[2..] == p + "}}" + rest && s[..2] == "{{";
    PrintHasNoNewline(t);
    CloseAfter(p, rest, 0);
    assert s[2..][..|p|] == p && s[2..][|p| + 2..] == rest;
    EvaluatePrint(e, t);
  }

  /** Interpolation replaces each template by the text of its meaning, and nothing else. */
  lemma {:induction false} InterpolateFills(e: Engine, ps: seq<Piece>)
    requires GoodPieces(ps)
    ensures Interpolate(e, PrintPieces(ps)) == Fill(e, ps)
  {
    if ps != [] {
      InterpolateFills(e, ps[1..]);
      match ps[0]
      case Literal(s) => LiteralStays(e, s, PrintPieces(ps[1..]));
      case Hole(t) => HoleFills(e, t, PrintPieces(ps[1..]));
    }
  }
}
