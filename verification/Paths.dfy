/** Dotted paths: `result.step?.items[0]` and the like. */
module Paths {
  import opened Values
  import opened Text

  function Flush(cur: string): seq<string> {
    if cur == "" then [] else [cur]
  }

  /** `_split_path`, with `cur` read so far; a `[` without its `]` raises ValueError. */
  function Split(path: string, cur: string): Result<seq<string>>
    decreases |path|
  {
    if path == "" then Ok(Flush(cur))
    else if path[0] == '.' then Then(Flush(cur), Split(path[1..], ""))
    else if path[0] == '?' then
      Then(Flush(cur), if |path| > 1 && path[1] == '.' then Split(path[2..], "") else Split(path[1..], ""))
    else if path[0] == '[' then
      match Find("]", path[1..])
      case None => Err("substring not found")
      case Some(k) => Then(Flush(cur) + [path[1..][..k]], Split(path[1..][k + 1..], ""))
    else Split(path[1..], cur + [path[0]])
  }

  function Then(front: seq<string>, rest: Result<seq<string>>): Result<seq<string>> {
    match rest
    case Err(e) => Err(e)
    case Ok(segments) => Ok(front + segments)
  }

  lemma ThenThen(a: seq<string>, b: seq<string>, r: Result<seq<string>>)
    ensures Then(a, Then(b, r)) == Then(a + b, r)
  {
    if r.Ok? {
      assert a + (b + r.value) == a + b + r.value;
    }
  }

  lemma ThenNothing(r: Result<seq<string>>)
    ensures Then([], r) == r
  {
    if r.Ok? {
      assert [] + r.value == r.value;
    }
  }

  /** One round of the loop: the segments that it finds, where it goes on, and with what; None for a missing `]`. */
  datatype Round = Round(found: seq<string>, next: nat, current: string)

  function RoundAt(path: string, i: nat, cur: string): (r: Option<Round>)
    requires i < |path|
    ensures r.Some? ==> i < r.value.next <= |path|
  {
    if path[i] == '.' then Some(Round(Flush(cur), i + 1, ""))
    else if path[i] == '?' then Some(Round(Flush(cur), if i + 1 < |path| && path[i + 1] == '.' then i + 2 else i + 1, ""))
    else if path[i] == '[' then
      match Find("]", path[i + 1..])
      case None => None
      case Some(k) => Some(Round(Flush(cur) + [path[i + 1..][..k]], i + 1 + k + 1, ""))
    else Some(Round([], i + 1, cur + [path[i]]))
  }

  lemma SplitRest(path: string, i: nat, cur: string)
    requires i < |path|
    ensures path[i] == '.' ==> Split(path[i..], cur) == Then(Flush(cur), Split(path[i + 1..], ""))
    ensures path[i] == '?' ==>
      Split(path[i..], cur) == Then(Flush(cur), Split(path[if i + 1 < |path| && path[i + 1] == '.' then i + 2 else i + 1..], ""))
    ensures path[i] !in {'.', '?', '['} ==> Split(path[i..], cur) == Split(path[i + 1..], cur + [path[i]])
  {
    var rest := path[i..];
    assert rest[0] == path[i] && rest[1..] == path[i + 1..];
    assert |rest| > 1 ==> rest[1] == path[i + 1] && rest[2..] == path[i + 2..];
  }

  lemma SplitRestBracket(path: string, i: nat, cur: string)
    requires i < |path| && path[i] == '['
    ensures match Find("]", path[i + 1..])
      case None => Split(path[i..], cur) == Err("substring not found")
      case Some(k) => Split(path[i..], cur) == Then(Flush(cur) + [path[i + 1..][..k]], Split(path[i + 1 + k + 1..], ""))
  {
    var rest := path[i..];
    assert rest[0] == path[i] && rest[1..] == path[i + 1..];
    if Find("]", rest[1..]).Some? {
      assert rest[1..][Find("]", rest[1..]).value + 1..] == path[i + 1 + Find("]", rest[1..]).value + 1..];
    }
  }

  lemma RoundSplits(path: string, i: nat, cur: string)
    requires i < |path|
    ensures RoundAt(path, i, cur).None? ==> Split(path[i..], cur) == Err("substring not found")
    ensures RoundAt(path, i, cur).Some? ==>
      var r := RoundAt(path, i, cur).value; Split(path[i..], cur) == Then(r.found, Split(path[r.next..], r.current))
  {
    if path[i] == '[' {
      SplitRestBracket(path, i, cur);
    } else {
      SplitRest(path, i, cur);
      ThenNothing(Split(path[i + 1..], cur + [path[i]]));
    }
  }

  /** All rounds from `i` on. */
  function Rounds(path: string, i: nat, cur: string, segments: seq<string>): Result<seq<string>>
    requires i <= |path|
    decreases |path| - i
  {
    if i == |path| then Ok(segments + Flush(cur))
    else
      match RoundAt(path, i, cur)
      case None => Err("substring not found")
      case Some(r) => Rounds(path, r.next, r.current, if r.found == [] then segments else segments + r.found)
  }

  lemma {:induction false} RoundsSplit(path: string, i: nat, cur: string, segments: seq<string>)
    requires i <= |path|
    ensures Rounds(path, i, cur, segments) == Then(segments, Split(path[i..], cur))
    decreases |path| - i
  {
    if i == |path| {
      assert path[i..] == "";
    } else {
      RoundSplits(path, i, cur);
      var r := RoundAt(path, i, cur);
      if r.Some? {
        var rest := Split(path[r.value.next..], r.value.current);
        ThenThen(segments, r.value.found, rest);
        assert r.value.found == [] ==> segments + r.value.found == segments;
        RoundsSplit(path, r.value.next, r.value.current, if r.value.found == [] then segments else segments + r.value.found);
      }
    }
  }

  /** `_split_path` */
  method SplitPath(path: string) returns (r: Result<seq<string>>)
    ensures r == Split(path, "")
  {
    WholePath(path);
    r := ReadRounds(path);
  }

  /** The loop of `_split_path`. */
  method ReadRounds(path: string) returns (r: Result<seq<string>>)
    ensures r == Rounds(path, 0, "", [])
  {
    var segments: seq<string>, current, i := [], "", 0;
    while i < |path|
      invariant i <= |path|
      invariant Rounds(path, i, current, segments) == Rounds(path, 0, "", [])
    {
      var c := path[i];
      if c == '.' {
        if current != "" {
          segments, current := segments + [current], "";
        }
      } else if c == '?' {
        if current != "" {
          segments, current := segments + [current], "";
        }
        if i + 1 < |path| && path[i + 1] == '.' {
          i := i + 1;
        }
      } else if c == '[' {
        var end := Find("]", path[i + 1..]);
        if end.None? {
          return Err("substring not found");
        }
        segments, current := segments + (Flush(current) + [path[i + 1..][..end.value]]), "";
        i := i + 1 + end.value;
      } else {
        current := current + [c];
      }
      i := i + 1;
    }
    r := Ok(segments + Flush(current));
  }

  lemma WholePath(path: string)
    ensures Rounds(path, 0, "", []) == Split(path, "")
  {
    RoundsSplit(path, 0, "", []);
    assert path[0..] == path;
    ThenNothing(Split(path, ""));
  }

  // ---- Printing and splitting again ----

  /** A segment with the separator before it. */
  datatype Segment =
    | Dot(name: string)
    | Chain(name: string)                       // ?.
    | Bracket(text: string, chained: bool)      // [..] or ?[..]

  predicate Plain(name: string) {
    name != "" && '.' !in name && '?' !in name && '[' !in name
  }

  predicate Printable(s: Segment) {
    if s.Bracket? then ']' !in s.text else Plain(s.name)
  }

  function TextOf(s: Segment): string {
    if s.Bracket? then s.text else s.name
  }

  function Texts(segments: seq<Segment>): seq<string> {
    if segments == [] then [] else [TextOf(segments[0])] + Texts(segments[1..])
  }

  function PrintSegment(s: Segment): string {
    match s
    case Dot(name) => "." + name
    case Chain(name) => "?." + name
    case Bracket(text, chained) => (if chained then "?[" else "[") + text + "]"
  }

  function PrintSegments(segments: seq<Segment>): string {
    if segments == [] then "" else PrintSegment(segments[0]) + PrintSegments(segments[1..])
  }

  lemma {:induction false} SplitPlain(name: string, t: string, cur: string)
    requires '.' !in name && '?' !in name && '[' !in name
    ensures Split(name + t, cur) == Split(t, cur + name)
  {
    if name == "" {
      assert name + t == t && cur + name == cur;
    } else {
      assert (name + t)[0] == name[0] && (name + t)[1..] == name[1..] + t;
      SplitPlain(name[1..], t, cur + [name[0]]);
      assert cur + [name[0]] + name[1..] == cur + name;
    }
  }

  lemma {:induction false} FindBracket(text: string, t: string)
    requires ']' !in text
    ensures Find("]", text + "]" + t) == Some(|text|)
  {
    if text == "" {
      assert (text + "]" + t)[..1] == "]";
    } else {
      assert (text + "]" + t)[0] == text[0] && (text + "]" + t)[1..] == text[1..] + "]" + t;
      FindBracket(text[1..], t);
    }
  }

  lemma SplitBracket(text: string, t: string, cur: string)
    requires ']' !in text
    ensures Split("[" + text + "]" + t, cur) == Then(Flush(cur) + [text], Split(t, ""))
  {
    var path := "[" + text + "]" + t;
    assert path[1..] == text + "]" + t;
    FindBracket(text, t);
    assert path[1..][..|text|] == text && path[1..][|text| + 1..] == t;
  }

  lemma SplitName(sep: string, name: string, t: string, cur: string)
    requires (sep == "." || sep == "?.") && Plain(name)
    ensures Split(sep + name + t, cur) == Then(Flush(cur), Split(t, name))
  {
    assert sep + name + t == sep + (name + t) && "" + name == name;
    assert (sep + (name + t))[|sep|..] == name + t;
    SplitPlain(name, t, "");
  }

  lemma SplitChained(text: string, t: string, cur: string)
    requires ']' !in text
    ensures Split("?[" + text + "]" + t, cur) == Then(Flush(cur) + [text], Split(t, ""))
  {
    SplitBracket(text, t, "");
    assert ("?[" + text + "]" + t)[1..] == "[" + text + "]" + t;
    ThenThen(Flush(cur), Flush("") + [text], Split(t, ""));
    assert Flush(cur) + (Flush("") + [text]) == Flush(cur) + [text];
  }

  lemma SplitOne(s: Segment, t: string, cur: string)
    requires Printable(s)
    ensures Split(PrintSegment(s) + t, cur)
      == if s.Bracket? then Then(Flush(cur) + [s.text], Split(t, "")) else Then(Flush(cur), Split(t, s.name))
  {
    match s
    case Dot(name) => SplitName(".", name, t, cur);
    case Chain(name) => SplitName("?.", name, t, cur);
    case Bracket(text, chained) =>
      if chained {
        SplitChained(text, t, cur);
      } else {
        SplitBracket(text, t, cur);
      }
  }

  /** Splitting the text of printable segments gives back the segments. */
  lemma {:induction false} SplitPrinted(segments: seq<Segment>, cur: string)
    requires forall i | 0 <= i < |segments| :: Printable(segments[i])
    ensures Split(PrintSegments(segments), cur) == Ok(Flush(cur) + Texts(segments))
    decreases segments
  {
    if segments == [] {
      assert Flush(cur) + Texts(segments) == Flush(cur);
    } else {
      var s := segments[0];
      SplitOne(s, PrintSegments(segments[1..]), cur);
      SplitPrinted(segments[1..], if s.Bracket? then "" else s.name);
      var texts := Texts(segments[1..]);
      assert Flush("") + texts == texts;
      assert Flush(cur) + ([TextOf(s)] + texts) == Flush(cur) + [TextOf(s)] + texts;
    }
  }

  /** The round trip of a whole path, whose first name has no separator. */
  lemma PathRoundTrip(first: string, rest: seq<Segment>)
    requires Plain(first) && forall i | 0 <= i < |rest| :: Printable(rest[i])
    ensures Split(first + PrintSegments(rest), "") == Ok([first] + Texts(rest))
  {
    SplitPlain(first, PrintSegments(rest), "");
    assert "" + first == first;
    SplitPrinted(rest, first);
  }

  // ---- Every split can be printed again ----

  predicate Segmentable(text: string) {
    Plain(text) || ']' !in text
  }

  function Canonical(texts: seq<string>): seq<Segment> {
    if texts == [] then []
    else [if ']' !in texts[0] then Bracket(texts[0], false) else Dot(texts[0])] + Canonical(texts[1..])
  }

  ghost predicate AllSegmentable(r: Result<seq<string>>) {
    r.Ok? ==> forall i | 0 <= i < |r.value| :: Segmentable(r.value[i])
  }

  lemma {:induction false} SplitSegmentable(path: string, cur: string)
    requires '.' !in cur && '?' !in cur && '[' !in cur
    ensures AllSegmentable(Split(path, cur))
    decreases |path|
  {
    if path != "" {
      if path[0] == '.' {
        SplitSegmentable(path[1..], "");
      } else if path[0] == '?' {
        var rest := if |path| > 1 && path[1] == '.' then path[2..] else path[1..];
        SplitSegmentable(rest, "");
        assert Split(path, cur) == Then(Flush(cur), Split(rest, ""));
      } else if path[0] == '[' {
        var k := Find("]", path[1..]);
        if k.Some? {
          var inside, rest := path[1..][..k.value], path[1..][k.value + 1..];
          BeforeFirst(path[1..], k.value);
          SplitSegmentable(rest, "");
          assert Split(path, cur) == Then(Flush(cur) + [inside], Split(rest, ""));
        }
      } else {
        SplitSegmentable(path[1..], cur + [path[0]]);
      }
    }
  }

  lemma {:induction false} BeforeFirst(s: string, k: nat)
    requires Find("]", s) == Some(k)
    ensures ']' !in s[..k]
  {
    if k > 0 {
      BeforeFirst(s[1..], k - 1);
      assert s[..k] == [s[0]] + s[1..][..k - 1];
      assert s[..1] == [s[0]];
    }
  }

  lemma {:induction false} CanonicalTexts(texts: seq<string>)
    requires forall i | 0 <= i < |texts| :: Segmentable(texts[i])
    ensures Texts(Canonical(texts)) == texts
    ensures forall i | 0 <= i < |Canonical(texts)| :: Printable(Canonical(texts)[i])
  {
    if texts != [] {
      CanonicalTexts(texts[1..]);
      assert Canonical(texts)[1..] == Canonical(texts[1..]);
    }
  }

  /** Whatever path is split, printing the segments in canonical form and splitting again changes nothing. */
  lemma SplitCanonical(path: string)
    requires Split(path, "").Ok?
    ensures Split(PrintSegments(Canonical(Split(path, "").value)), "") == Split(path, "")
  {
    var texts := Split(path, "").value;
    SplitSegmentable(path, "");
    CanonicalTexts(texts);
    SplitPrinted(Canonical(texts), "");
    assert [] + texts == texts;
  }

  /** A bracket that is not closed raises. */
  lemma UnclosedFails(name: string, inside: string)
    requires '.' !in name && '?' !in name && '[' !in name && ']' !in inside
    ensures Split(name + "[" + inside, "") == Err("substring not found")
  {
    var rest := "[" + inside;
    assert name + "[" + inside == name + rest;
    SplitPlain(name, rest, "");
    NoBracket(inside);
    assert rest[1..] == inside && rest[0] == '[';
  }

  lemma {:induction false} NoBracket(s: string)
    requires ']' !in s
    ensures Find("]", s).None?
  {
    BracketFirst(s);
    if s != "" {
      NoBracket(s[1..]);
    }
  }

  lemma BracketFirst(s: string)
    ensures "]" <= s ==> s != "" && s[0] == ']'
  {
  }
}
