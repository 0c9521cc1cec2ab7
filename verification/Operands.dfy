/** What the operands of an expression evaluate to: literals, paths and pipelines. */
module Operands {
  import opened Values
  import opened Text
  import opened Expressions
  import Paths

  // ---- Literals ----

  predicate Literal(e: Engine, p: string) {
    || (p != "" && IsQuote(p[0]) && IsQuote(p[|p| - 1]))
    || IsDigits(p) || e.parseFloat(p).Some?
    || p == "true" || p == "false" || p == "null" || p == "none"
  }

  /** Digits are a decimal number; only then is a text tried as a float, and then as a name for a constant. */
  lemma LiteralValues(e: Engine, p: string)
    requires p == "" || !IsQuote(p[0]) || !IsQuote(p[|p| - 1])
    ensures IsDigits(p) ==> ResolvePath(e, p) == Ok(Int(ToInt(p)))
    ensures !IsDigits(p) && e.parseFloat(p).Some? ==> ResolvePath(e, p) == Ok(e.parseFloat(p).value)
    ensures !IsDigits(p) && e.parseFloat(p).None? ==>
      && (p == "true" ==> ResolvePath(e, p) == Ok(Bool(true)))
      && (p == "false" ==> ResolvePath(e, p) == Ok(Bool(false)))
      && (p == "null" || p == "none" ==> ResolvePath(e, p) == Ok(Null))
  {
  }

  /** The number that a text of digits stands for is the one that is printed so. */
  function Decimal(n: nat): string {
    if n < 10 then ["0123456789"[n]] else Decimal(n / 10) + ["0123456789"[n % 10]]
  }

  lemma {:induction false} DigitsRoundTrip(n: nat)
    ensures IsDigits(Decimal(n)) && ToInt(Decimal(n)) == n
  {
    DigitValue(n % 10);
    if n < 10 {
      assert Decimal(n)[..0] == "";
    } else {
      DigitsRoundTrip(n / 10);
      var init := Decimal(n / 10);
      assert Decimal(n)[..|init|] == init;
    }
  }

  lemma DigitValue(d: nat)
    requires d < 10
    ensures '0' <= "0123456789"[d] <= '9' && ("0123456789"[d] - '0') as int == d
  {
  }

  // ---- Paths ----

  /** One part of a value: an item of a list by its number, an entry of a dictionary, or an attribute; Null
      if it is missing. Digits never name an entry. */
  ghost predicate IsPart(e: Engine, v: Value, key: string, part: Value) {
    if IsDigits(key) then
      if v.List? && ToInt(key) < |v.items| then 0 <= ToInt(key) && part == v.items[ToInt(key)] else part == Null
    else
      match v
      case Dict(entries) => if key in entries then part == entries[key] else part == Null
      case _ => part == e.attr(v, key)
  }

  lemma {:induction false} ToIntNatural(s: string)
    requires forall i | 0 <= i < |s| :: '0' <= s[i] <= '9'
    ensures ToInt(s) >= 0
  {
    if s != "" {
      ToIntNatural(s[..|s| - 1]);
    }
  }

  lemma AccessIsPart(e: Engine, v: Value, key: string)
    ensures IsPart(e, v, key, Access(e, v, key))
  {
    if IsDigits(key) {
      ToIntNatural(key);
    }
  }

  lemma {:induction false} WalkFurther(e: Engine, v: Value, keys: seq<string>, key: string)
    ensures Walk(e, v, keys + [key]) == if Walk(e, v, keys) == Null then Null else Access(e, Walk(e, v, keys), key)
    decreases |keys|
  {
    if keys == [] {
      assert [key][1..] == [] && keys + [key] == [key];
    } else if v != Null {
      assert (keys + [key])[1..] == keys[1..] + [key];
      WalkFurther(e, Access(e, v, keys[0]), keys[1..], key);
    }
  }

  /** A path that is a single name. */
  lemma PathOfOne(e: Engine, p: string)
    requires !Literal(e, p)
    ensures match Paths.Split(p, "")
      case Err(msg) => ResolvePath(e, p) == Err(msg)
      case Ok(names) =>
        && (names == [] ==> ResolvePath(e, p) == Ok(Null))
        && (|names| == 1 ==> ResolvePath(e, p) == Ok(e.namespace(names[0])))
  {
  }

  /** One name more: Null of Null, and otherwise a part of what the shorter path stands for. */
  lemma PathExtends(e: Engine, p: string, q: string, names: seq<string>, key: string)
    requires !Literal(e, p) && !Literal(e, q) && names != []
    requires Paths.Split(p, "") == Ok(names) && Paths.Split(q, "") == Ok(names + [key])
    ensures ResolvePath(e, p).Ok? && ResolvePath(e, q).Ok?
    ensures var v, part := ResolvePath(e, p).value, ResolvePath(e, q).value;
      if v == Null then part == Null else IsPart(e, v, key, part)
  {
    var first := e.namespace(names[0]);
    assert (names + [key])[0] == names[0] && (names + [key])[1..] == names[1..] + [key];
    WalkFurther(e, first, names[1..], key);
    AccessIsPart(e, Walk(e, first, names[1..]), key);
  }

  // ---- Pipelines, not, and truth ----

  /** The values that count as false. */
  lemma FalseValues(v: Value)
    ensures !Truthy(v) <==> v in [Null, Bool(false), Int(0), Real(0.0), Str(""), List([]), Dict(map[])]
  {
  }

  lemma NotMeans(e: Engine, t: Tree)
    requires Layered(Not(t))
    ensures match Meaning(e, t)
      case Err(msg) => Meaning(e, Not(t)) == Err(msg)
      case Ok(v) => Meaning(e, Not(t)) == Ok(Bool(v in [Null, Bool(false), Int(0), Real(0.0), Str(""), List([]), Dict(map[])]))
  {
    if Meaning(e, t).Ok? {
      FalseValues(Meaning(e, t).value);
    }
  }

  lemma {:induction false} OneFilterMore(e: Engine, v: Value, filters: seq<string>, f: string)
    ensures ApplyFilters(e, v, filters + [f]) ==
      match ApplyFilters(e, v, filters)
      case Err(msg) => Err(msg)
      case Ok(w) => e.filter(f, w)
    decreases |filters|
  {
    if filters == [] {
      assert filters + [f] == [f] && [f][1..] == [];
    } else {
      assert (filters + [f])[1..] == filters[1..] + [f];
      var r := e.filter(filters[0], v);
      if r.Ok? { OneFilterMore(e, r.value, filters[1..], f); }
    }
  }

  lemma {:induction false} JoinAllMore(filters: seq<seq<string>>, f: seq<string>)
    ensures JoinAll(filters + [f]) == JoinAll(filters) + [Join(f)]
  {
    if filters == [] {
      assert filters + [f] == [f] && [f][1..] == [];
    } else {
      assert (filters + [f])[1..] == filters[1..] + [f];
      JoinAllMore(filters[1..], f);
    }
  }

  /** Filters apply from left to right, each to what the ones before it give. */
  lemma PipelineExtends(e: Engine, path: seq<string>, filters: seq<seq<string>>, f: seq<string>)
    requires Layered(Operand(path, filters)) && Layered(Operand(path, filters + [f]))
    ensures Meaning(e, Operand(path, [])) == ResolvePath(e, Join(path))
    ensures Meaning(e, Operand(path, filters + [f])) ==
      match Meaning(e, Operand(path, filters))
      case Err(msg) => Err(msg)
      case Ok(v) => e.filter(Join(f), v)
  {
    JoinAllMore(filters, f);
    if ResolvePath(e, Join(path)).Ok? {
      OneFilterMore(e, ResolvePath(e, Join(path)).value, JoinAll(filters), Join(f));
    }
  }
}
