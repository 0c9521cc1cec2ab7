/** Values shared by the flow interpreter and the expression engine. */
module Values {

  datatype Option<+T> = None | Some(value: T)

  /** `Err` stands for a raised exception and carries its text. */
  datatype Result<+T> = Ok(value: T) | Err(error: string)

  /** A JSON-shaped value, as carried by YAML parameters, action replies and step outputs. */
  datatype Value =
    | Null
    | Bool(b: bool)
    | Int(i: int)
    | Real(r: real)
    | Str(s: string)
    | List(items: seq<Value>)
    | Dict(entries: map<string, Value>)

  /** `d.get(k)`: a missing key and a key holding None look the same. */
  function Lookup(d: map<string, Value>, k: string): Value {
    if k in d then d[k] else Null
  }

  /** Is `sub` a substring of `s`? */
  predicate IsInfix(sub: string, s: string) {
    sub <= s || (s != [] && IsInfix(sub, s[1..]))
  }
}

/** A Python dict as an association list in insertion order: assigning an existing key keeps its place. */
module OrderedDicts {
  import opened Values

  type Dict<T> = seq<(string, T)>

  /** The place of a key. */
  function Position<T>(d: Dict<T>, k: string): (r: Option<nat>)
    ensures r.Some? ==> r.value < |d| && d[r.value].0 == k && forall j | r.value < j < |d| :: d[j].0 != k
    ensures r.None? ==> forall j | 0 <= j < |d| :: d[j].0 != k
  {
    if d == [] then None
    else if d[|d| - 1].0 == k then Some(|d| - 1)
    else Position(d[..|d| - 1], k)
  }

  function Put<T>(d: Dict<T>, k: string, v: T): Dict<T> {
    match Position(d, k)
    case Some(i) => d[i := (k, v)]
    case None => d + [(k, v)]
  }

  function ToMap<T>(d: Dict<T>): map<string, T> {
    if d == [] then map[] else ToMap(d[..|d| - 1])[d[|d| - 1].0 := d[|d| - 1].1]
  }

  lemma {:induction false} PutToMap<T>(d: Dict<T>, k: string, v: T)
    ensures ToMap(Put(d, k, v)) == ToMap(d)[k := v]
  {
    match Position(d, k)
    case None => ToMapAppend(d, k, v);
    case Some(i) =>
      var n := |d| - 1;
      var last := d[n];
      assert d[..n] + [last] == d;
      ToMapAppend(d[..n], last.0, last.1);
      ToMapAppend(d[..n], k, v);
      if i == n {
        assert Put(d, k, v) == d[..n] + [(k, v)];
      } else {
        assert Put(d, k, v) == Put(d[..n], k, v) + [last];
        ToMapAppend(Put(d[..n], k, v), last.0, last.1);
        PutToMap(d[..n], k, v);
        Commute(ToMap(d[..n]), k, v, last.0, last.1);
      }
  }

  lemma ToMapAppend<T>(d: Dict<T>, k: string, v: T)
    ensures ToMap(d + [(k, v)]) == ToMap(d)[k := v]
  {
    assert (d + [(k, v)])[..|d|] == d;
  }

  lemma Commute<T>(m: map<string, T>, k: string, v: T, l: string, w: T)
    requires k != l
    ensures m[k := v][l := w] == m[l := w][k := v]
  {
  }
}
