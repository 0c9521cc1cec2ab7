/** What the cache's keys, paths and error replies are, in terms of the calls' parameters. */
module CacheKeys {
  import opened Values
  import opened FilePaths
  import opened ActionCaching
  import opened CacheTransparency

  // ---- Keys ----

  /** The number that Python compares a parameter as. */
  ghost predicate IsNumber(p: Param, n: real) {
    match p
    case Number(r) => r == n
    case Flag(b) => n == if b then 1.0 else 0.0
    case _ => false
  }

  /** Two parameters that a key does not tell apart: spellings of one path, equal numbers, or equal values. */
  ghost predicate SameParam(h: Host, name: string, p: Param, q: Param) {
    if (name == "path" || name == "source" || name == "directory") && p.Text? && q.Text? then h.resolve(p.s) == h.resolve(q.s)
    else p == q || exists n: real :: IsNumber(p, n) && IsNumber(q, n)
  }

  lemma HashedExact(p: Param, q: Param)
    ensures Hashed(p) == Hashed(q) <==> p == q || exists n: real :: IsNumber(p, n) && IsNumber(q, n)
  {
    if Hashed(p) == Hashed(q) && p != q {
      assert IsNumber(p, Hashed(p).n) && IsNumber(q, Hashed(p).n);
    }
  }

  lemma ParamExact(h: Host, m: string, a: string, name: string, params: Params, other: Params)
    requires name in params && name in other
    ensures MakeKey(h, m, a, params).params[name] == MakeKey(h, m, a, other).params[name] <==> SameParam(h, name, params[name], other[name])
  {
    HashedExact(params[name], other[name]);
    var p, q := params[name], other[name];
    if p.Text? != q.Text? {
      assert p != q && !exists n: real :: IsNumber(p, n) && IsNumber(q, n);
    }
  }

  /** Two calls share a key if and only if they are of one action and have the same parameters. */
  lemma KeysExact(h: Host, m: string, a: string, params: Params, m': string, a': string, params': Params)
    ensures MakeKey(h, m, a, params) == MakeKey(h, m', a', params') <==>
      && m == m' && a == a' && params.Keys == params'.Keys
      && forall name | name in params :: SameParam(h, name, params[name], params'[name])
  {
    var k, k' := MakeKey(h, m, a, params), MakeKey(h, m', a', params');
    assert k.params.Keys == params.Keys && k'.params.Keys == params'.Keys;
    forall name | name in params && name in params' { ParamExact(h, m, a, name, params, params'); }
    if params.Keys == params'.Keys && forall name | name in params :: SameParam(h, name, params[name], params'[name]) {
      assert forall name | name in k.params :: k.params[name] == k'.params[name];
      assert k.params == k'.params;
    }
  }

  /** Lists and dictionaries alone cannot be hashed. */
  lemma HashableExact(params: Params)
    ensures Hashable(params) <==> forall name | name in params :: !(params[name].Structure?)
  {
  }

  // ---- Paths ----

  ghost predicate NamesPath(h: Host, params: Params, name: string, p: string) {
    name in params && params[name].Text? && params[name].s != "" && p == h.resolve(params[name].s)
  }

  /** A call's paths are the resolved texts of four parameters, where they are not empty. */
  lemma PathsExact(h: Host, params: Params, p: string)
    ensures p in ExtractPaths(h, params) <==>
      NamesPath(h, params, "path", p) || NamesPath(h, params, "source", p) || NamesPath(h, params, "directory", p) || NamesPath(h, params, "file_path", p)
  {
    var a, b, c, d := PathAt(h, params, "path"), PathAt(h, params, "source"), PathAt(h, params, "directory"), PathAt(h, params, "file_path");
    assert p in a + b + c + d <==> p in a || p in b || p in c || p in d;
  }

  /** Not None, False, zero or empty. */
  ghost predicate Given(params: Params, name: string) {
    name in params && params[name] !in [Nothing, Flag(false), Number(0.0), Text("")] && !(params[name].Structure? && params[name].empty)
  }

  ghost predicate IsTarget(h: Host, params: Params, name: string, p: string) {
    Given(params, name) && p == h.resolve(if params[name].Text? then params[name].s else h.str(params[name]))
  }

  /** A write touches these, and the first of three destinations that is given. */
  lemma WritePathsExact(h: Host, params: Params, p: string)
    ensures p in WritePaths(h, params) <==>
      || p in ExtractPaths(h, params)
      || IsTarget(h, params, "destination", p)
      || (!Given(params, "destination") && IsTarget(h, params, "dest", p))
      || (!Given(params, "destination") && !Given(params, "dest") && IsTarget(h, params, "dst", p))
  {
    assert TruthyAt(params, "destination") <==> Given(params, "destination");
    assert TruthyAt(params, "dest") <==> Given(params, "dest");
    assert TruthyAt(params, "dst") <==> Given(params, "dst");
    var d := Destination(params);
    if d.Some? {
      var target := h.resolve(DestinationText(h, d.value));
      assert WritePaths(h, params) == ExtractPaths(h, params) + [target];
      assert p in WritePaths(h, params) <==> p in ExtractPaths(h, params) || p == target;
    } else {
      assert WritePaths(h, params) == ExtractPaths(h, params) + [];
    }
  }

  /** Paths overlap if they are equal or one continues the other after a slash; a name that merely starts with
      another one does not. */
  lemma OverlapExact(a: string, b: string)
    requires a != "" && b != "" && a[|a| - 1] != '/' && b[|b| - 1] != '/'
    ensures Overlap(a, b) <==> a == b || a + "/" <= b || b + "/" <= a
  {
    SlashedPrefix(a, b);
    SlashedPrefix(b, a);
  }

  lemma SlashedPrefix(a: string, b: string)
    requires a != "" && b != "" && a[|a| - 1] != '/' && b[|b| - 1] != '/'
    ensures Slashed(a) <= Slashed(b) <==> a == b || a + "/" <= b
  {
    assert Slashed(a) == a + "/" && Slashed(b) == b + "/";
    SameLength(a, b);
    if a + "/" <= b + "/" && |a| < |b| {
      assert (b + "/")[..|a| + 1] == a + "/" && (b + "/")[..|a| + 1] == b[..|a| + 1];
    }
    if a + "/" <= b {
      assert (b + "/")[..|a| + 1] == b[..|a| + 1];
    }
  }

  lemma SameLength(a: string, b: string)
    ensures a + "/" <= b + "/" ==> |a| <= |b| && (|a| == |b| ==> a == b)
  {
    if a + "/" <= b + "/" {
      assert |a| == |b| ==> a == (a + "/")[..|a|] == (b + "/")[..|a|];
    }
  }

  lemma TrailingSlash(a: string, b: string)
    requires a != "" && a[|a| - 1] != '/'
    ensures Overlap(a + "/", b) <==> Overlap(a, b)
  {
    assert Slashed(a + "/") == a + "/" == Slashed(a);
  }

  // ---- Replies ----

  /** What the agent sees of a reply, and of an exception under each policy. */
  lemma RepliesExact(t: Tools, w: World, c: Call)
    ensures var (w', r) := t.exec(w, c);
      match r
      case Output(json, isError) => Direct(t, w, c) == (w', ToolResult(json, isError))
      case Raises(error) =>
        && (t.onError.ShowToAgent? ==> Direct(t, w, c) == (w', ToolResult(t.errorText(error), true)))
        && (t.onError.Skip? ==> Direct(t, w, c) == (w', ToolResult(t.skipText(error), false)))
        && (t.onError.Fail? ==> Direct(t, w, c) == (w', Crashed(error)))
  {
  }
}
