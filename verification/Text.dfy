/** String operations of the expression engine: stripping, searching, splitting, joining words. */
module Text {
  import opened Values

  predicate IsSpace(c: char) {
    c == ' ' || c == '\t' || c == '\n' || c == '\r' || c == '\U{0b}' || c == '\U{0c}'
  }

  function LStrip(s: string): (r: string)
    ensures |r| <= |s|
  {
    if s != "" && IsSpace(s[0]) then LStrip(s[1..]) else s
  }

  function RStrip(s: string): (r: string)
    ensures |r| <= |s|
  {
    if s != "" && IsSpace(s[|s| - 1]) then RStrip(s[..|s| - 1]) else s
  }

  /** `str.strip()` */
  function Strip(s: string): (r: string)
    ensures |r| <= |s|
  {
    RStrip(LStrip(s))
  }

  predicate BlankChar(c: char) {
    c in [' ', '\t', '\n', '\r', '\U{0b}', '\U{0c}']
  }

  ghost predicate Blank(s: string) {
    forall i | 0 <= i < |s| :: BlankChar(s[i])
  }

  lemma {:induction false} LStripExact(s: string) returns (a: string)
    ensures s == a + LStrip(s) && Blank(a) && (LStrip(s) != "" ==> !BlankChar(LStrip(s)[0]))
  {
    a := "";
    if s != "" && IsSpace(s[0]) {
      var b := LStripExact(s[1..]);
      a := [s[0]] + b;
      assert s == [s[0]] + s[1..];
    }
  }

  lemma {:induction false} RStripExact(s: string) returns (b: string)
    ensures s == RStrip(s) + b && Blank(b) && (RStrip(s) != "" ==> !BlankChar(RStrip(s)[|RStrip(s)| - 1]))
  {
    b := "";
    if s != "" && IsSpace(s[|s| - 1]) {
      var c := RStripExact(s[..|s| - 1]);
      b := c + [s[|s| - 1]];
      assert s == s[..|s| - 1] + [s[|s| - 1]];
    }
  }

  lemma StripParts(s: string) returns (a: string, b: string)
    ensures s == a + Strip(s) + b && Blank(a) && Blank(b)
  {
    a := LStripExact(s);
    b := RStripExact(LStrip(s));
    assert a + (Strip(s) + b) == a + Strip(s) + b;
  }

  /** Stripping takes blanks, all of them, off both ends, and nothing else. */
  lemma StripExact(s: string) returns (a: string, b: string)
    ensures s == a + Strip(s) + b && Blank(a) && Blank(b)
    ensures Strip(s) != "" ==> !BlankChar(Strip(s)[0]) && !BlankChar(Strip(s)[|Strip(s)| - 1])
  {
    a, b := StripParts(s);
    var _ := LStripExact(s);
    var c := RStripExact(LStrip(s));
    if Strip(s) != "" {
      assert Strip(s)[0] == LStrip(s)[0];
    }
  }

  /** `str.find(sub)`: the first position of `sub`. */
  function Find(sub: string, s: string): (r: Option<nat>)
    ensures r.Some? ==> r.value + |sub| <= |s|
  {
    if sub <= s then Some(0)
    else if s == "" then None
    else match Find(sub, s[1..])
      case None => None
      case Some(i) => Some(i + 1)
  }

  /** `Find` answers the first occurrence, and misses none. */
  lemma {:induction false} FindIsFirst(sub: string, s: string)
    ensures match Find(sub, s)
      case Some(i) => i <= |s| && sub <= s[i..] && forall j | 0 <= j < i :: !(sub <= s[j..])
      case None => forall j | 0 <= j <= |s| :: !(sub <= s[j..])
  {
    assert s[0..] == s;
    if !(sub <= s) && s != "" {
      FindIsFirst(sub, s[1..]);
      forall j | 0 < j <= |s| ensures s[j..] == s[1..][j - 1..] {}
    }
  }

  /** The parts between the occurrences of one character. */
  function SplitOn(sep: char, s: string): (r: seq<string>)
    ensures r != []
  {
    if s == "" then [""]
    else
      var rest := SplitOn(sep, s[1..]);
      if s[0] == sep then [""] + rest else [[s[0]] + rest[0]] + rest[1..]
  }

  // ---- Words ----

  /** Non-empty, without white space. */
  predicate IsWord(w: string) {
    w != "" && forall i | 0 <= i < |w| :: !IsSpace(w[i])
  }

  function Join(ws: seq<string>): string {
    if ws == [] then "" else if |ws| == 1 then ws[0] else ws[0] + " " + Join(ws[1..])
  }

  ghost predicate AllWords(ws: seq<string>) {
    forall i | 0 <= i < |ws| :: IsWord(ws[i])
  }

  lemma {:induction false} JoinConcat(a: seq<string>, b: seq<string>)
    requires a != [] && b != []
    ensures Join(a + b) == Join(a) + " " + Join(b)
  {
    if |a| == 1 {
      assert (a + b)[1..] == b;
    } else {
      assert (a + b)[1..] == a[1..] + b;
      JoinConcat(a[1..], b);
    }
  }

  lemma {:induction false} JoinEnds(ws: seq<string>)
    requires ws != [] && AllWords(ws)
    ensures var s := Join(ws); s != "" && !IsSpace(s[0]) && !IsSpace(s[|s| - 1]) && s[0] == ws[0][0]
  {
    if |ws| > 1 {
      JoinEnds(ws[1..]);
    }
  }

  lemma StripJoin(ws: seq<string>)
    requires ws != [] && AllWords(ws)
    ensures Strip(Join(ws)) == Join(ws)
  {
    JoinEnds(ws);
  }

  /** Blanks around joined words strip away. */
  lemma StripPadded(ws: seq<string>)
    requires ws != [] && AllWords(ws)
    ensures Strip(Join(ws) + " ") == Join(ws)
    ensures Strip(" " + Join(ws)) == Join(ws)
    ensures Strip(" " + Join(ws) + " ") == Join(ws)
  {
    var s := Join(ws);
    JoinEnds(ws);
    assert (s + " ")[0] == s[0] && (s + " ")[..|s|] == s;
    assert RStrip(s) == s && RStrip(s + " ") == s;
    assert (" " + s)[1..] == s && LStrip(s) == s && LStrip(" " + s) == s;
    assert (" " + s + " ")[1..] == s + " ";
  }

  /** `" " + op + " "` */
  function Spaced(op: string): string {
    " " + op + " "
  }

  /** A pattern that starts with a blank is not found inside a word. */
  lemma {:induction false} FindSkipsWord(op: string, w: string, t: string)
    requires forall i | 0 <= i < |w| :: !IsSpace(w[i])
    ensures var f := Find(Spaced(op), t);
      Find(Spaced(op), w + t) == if f.None? then None else Some(|w| + f.value)
  {
    if w == "" {
      assert w + t == t;
    } else {
      assert (w + t)[0] == w[0] && (w + t)[1..] == w[1..] + t;
      FindSkipsWord(op, w[1..], t);
    }
  }

  lemma JoinFirst(ws: seq<string>)
    requires ws != []
    ensures Join(ws) == if |ws| == 1 then ws[0] else ws[0] + (" " + Join(ws[1..]))
  {
  }

  ghost predicate FirstBlank(s: string, n: nat) {
    n < |s| && s[n] == ' ' && forall i | 0 <= i < n :: !IsSpace(s[i])
  }

  lemma PrefixBlank(op: string, s: string)
    requires IsWord(op) && op + " " <= s
    ensures FirstBlank(s, |op|) && s[..|op|] == op
  {
    var pat := op + " ";
    assert s[..|pat|] == pat;
    assert pat[|op|] == ' ' && pat[..|op|] == op;
    assert s[..|op|] == pat[..|op|];
    forall i | 0 <= i < |op| ensures !IsSpace(s[i]) { assert s[i] == op[i]; }
  }

  lemma JoinBlank(ws: seq<string>)
    requires ws != [] && AllWords(ws)
    ensures |ws| > 1 ==> FirstBlank(Join(ws), |ws[0]|)
    ensures |ws| == 1 ==> forall n :: !FirstBlank(Join(ws), n)
  {
    JoinFirst(ws);
  }

  lemma BlankUnique(s: string, m: nat, n: nat)
    requires FirstBlank(s, m) && FirstBlank(s, n)
    ensures m == n
  {
  }

  /** Does `op + " "` start the joined words? Only as a whole first word. */
  lemma PrefixIsWord(op: string, ws: seq<string>)
    requires IsWord(op) && ws != [] && AllWords(ws)
    ensures op + " " <= Join(ws) <==> ws[0] == op && |ws| > 1
  {
    JoinFirst(ws);
    JoinBlank(ws);
    if op + " " <= Join(ws) {
      PrefixBlank(op, Join(ws));
      BlankUnique(Join(ws), |op|, |ws[0]|);
    }
    if ws[0] == op && |ws| > 1 {
      assert Join(ws) == op + " " + Join(ws[1..]);
    }
  }

  /** An operator that is not among the words is not found. */
  lemma {:induction false} FindNoOp(op: string, ws: seq<string>)
    requires IsWord(op) && AllWords(ws) && op !in ws
    ensures Find(Spaced(op), Join(ws)) == None
  {
    if ws == [] {
    } else if |ws| == 1 {
      FindSkipsWord(op, ws[0], "");
      assert ws[0] + "" == ws[0];
    } else {
      FindSkipsWord(op, ws[0], " " + Join(ws[1..]));
      assert ws[0] + (" " + Join(ws[1..])) == Join(ws);
      FindAfterBlank(op, ws[1..]);
      FindNoOp(op, ws[1..]);
    }
  }

  /** At a blank between words, the pattern matches exactly when `op` is next and not last. */
  lemma FindAfterBlank(op: string, ws: seq<string>)
    requires IsWord(op) && ws != [] && AllWords(ws)
    ensures var s := " " + Join(ws);
      var f := Find(Spaced(op), Join(ws));
      Find(Spaced(op), s) == if ws[0] == op && |ws| > 1 then Some(0) else if f.None? then None else Some(1 + f.value)
  {
    PrefixIsWord(op, ws);
    BlankPrefix(op + " ", Join(ws));
    assert Spaced(op) == " " + (op + " ");
    assert (" " + Join(ws))[1..] == Join(ws);
  }

  lemma BlankPrefix(p: string, t: string)
    ensures " " + p <= " " + t <==> p <= t
  {
    if p <= t {
      assert (" " + t)[..|p| + 1] == " " + p;
    }
    if " " + p <= " " + t {
      assert (" " + t)[..|p| + 1][1..] == t[..|p|] && (" " + p)[1..] == p;
    }
  }

  lemma FindShift(op: string, w: string, t: string, n: nat)
    requires IsWord(w) && Find(Spaced(op), t) == Some(n)
    ensures Find(Spaced(op), w + t) == Some(|w| + n)
  {
    FindSkipsWord(op, w, t);
  }

  lemma FindBlank(op: string, ws: seq<string>, n: nat)
    requires IsWord(op) && ws != [] && AllWords(ws) && ws[0] != op && Find(Spaced(op), Join(ws)) == Some(n)
    ensures Find(Spaced(op), " " + Join(ws)) == Some(1 + n)
  {
    FindAfterBlank(op, ws);
  }

  /** The operator comes next. */
  lemma FindHere(op: string, w: string, rest: seq<string>)
    requires IsWord(op) && IsWord(w) && |rest| > 1 && AllWords(rest) && rest[0] == op
    ensures Find(Spaced(op), w + (" " + Join(rest))) == Some(|w|)
  {
    FindAfterBlank(op, rest);
    FindShift(op, w, " " + Join(rest), 0);
  }

  /** The first occurrence of an operator among words, counted in characters. */
  lemma {:induction false} FindAt(op: string, ws: seq<string>, k: nat)
    requires IsWord(op) && AllWords(ws) && 0 < k < |ws| - 1 && ws[k] == op
    requires forall i | 0 <= i < k :: ws[i] != op
    ensures Find(Spaced(op), Join(ws)) == Some(|Join(ws[..k])|)
    decreases k
  {
    var rest := ws[1..];
    JoinFirst(ws);
    JoinFirst(ws[..k]);
    if k == 1 {
      FindHere(op, ws[0], rest);
    } else {
      assert ws[..k][1..] == rest[..k - 1];
      FindAt(op, rest, k - 1);
      var n := |Join(rest[..k - 1])|;
      FindBlank(op, rest, n);
      FindShift(op, ws[0], " " + Join(rest), 1 + n);
    }
  }

  lemma FindOp(op: string, a: seq<string>, b: seq<string>)
    requires IsWord(op) && AllWords(a) && AllWords(b) && op !in a && a != [] && b != []
    ensures Find(Spaced(op), Join(a + [op] + b)) == Some(|Join(a)|)
  {
    var ws := a + [op] + b;
    assert ws[..|a|] == a;
    FindAt(op, ws, |a|);
  }

  // ---- Splitting on one character ----

  lemma {:induction false} SplitAt(sep: char, w: string, t: string)
    requires sep !in w
    ensures SplitOn(sep, w + [sep] + t) == [w] + SplitOn(sep, t)
  {
    if w == "" {
      assert (w + [sep] + t)[1..] == t;
    } else {
      assert (w + [sep] + t)[0] == w[0] && (w + [sep] + t)[1..] == w[1..] + [sep] + t;
      SplitAt(sep, w[1..], t);
      assert [w[0]] + w[1..] == w;
    }
  }

  lemma {:induction false} SplitWhole(sep: char, w: string)
    requires sep !in w
    ensures SplitOn(sep, w) == [w]
  {
    if w != "" {
      SplitWhole(sep, w[1..]);
      assert [w[0]] + w[1..] == w;
    }
  }

  /** There is one part if and only if the character does not occur. */
  lemma {:induction false} SplitCount(sep: char, w: string)
    ensures |SplitOn(sep, w)| == 1 <==> sep !in w
  {
    if w != "" {
      SplitCount(sep, w[1..]);
    }
  }

  lemma {:induction false} NotInJoin(c: char, ws: seq<string>)
    requires c != ' ' && forall w | w in ws :: c !in w
    ensures c !in Join(ws)
  {
    if |ws| > 1 {
      NotInJoin(c, ws[1..]);
    }
  }
}
