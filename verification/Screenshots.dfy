/** The in-place removal of old screenshots from the messages of the plan loop. */
module Screenshots {
  import opened Values

  /** A block: an image, or anything else (a text, a tool call, a value that is no dictionary). */
  datatype Cell = Image(data: string) | Other(text: string)

  /** A block whose `content` is a list, whatever its type, or one that is a cell itself. */
  datatype Block = Nested(head: string, cells: seq<Cell>) | Plain(cell: Cell)

  datatype Message = Text(role: string, text: string) | Blocks(role: string, blocks: seq<Block>)

  /** Message, block and inner index; the inner index is -1 for a block that is the image itself. */
  datatype Place = Place(msg: nat, block: nat, inner: int)

  const PLACEHOLDER := Other("[Previous screenshot removed]")

  predicate Before(p: Place, q: Place) {
    p.msg < q.msg || (p.msg == q.msg && (p.block < q.block || (p.block == q.block && p.inner < q.inner)))
  }

  predicate IsImageAt(ms: seq<Message>, p: Place) {
    p.msg < |ms| && IsImageIn(ms[p.msg], p.block, p.inner)
  }

  predicate IsImageIn(m: Message, j: nat, k: int) {
    m.Blocks? && j < |m.blocks| &&
    match m.blocks[j]
    case Nested(_, cells) => 0 <= k < |cells| && cells[k].Image?
    case Plain(cell) => k == -1 && cell.Image?
  }

  // ---- The scan ----

  function InCells(i: nat, j: nat, cells: seq<Cell>): seq<Place> {
    if cells == [] then []
    else
      var k := |cells| - 1;
      InCells(i, j, cells[..k]) + if cells[k].Image? then [Place(i, j, k)] else []
  }

  function InBlock(i: nat, j: nat, b: Block): seq<Place> {
    match b
    case Nested(_, cells) => InCells(i, j, cells)
    case Plain(cell) => if cell.Image? then [Place(i, j, -1)] else []
  }

  function InBlocks(i: nat, blocks: seq<Block>): seq<Place> {
    if blocks == [] then []
    else
      var j := |blocks| - 1;
      InBlocks(i, blocks[..j]) + InBlock(i, j, blocks[j])
  }

  function InMessage(i: nat, m: Message): seq<Place> {
    if m.Blocks? then InBlocks(i, m.blocks) else []
  }

  function Images(ms: seq<Message>): seq<Place> {
    if ms == [] then []
    else
      var i := |ms| - 1;
      Images(ms[..i]) + InMessage(i, ms[i])
  }

  ghost predicate Ascending(s: seq<Place>) {
    forall a, b | 0 <= a < b < |s| :: Before(s[a], s[b])
  }

  lemma AscendingConcat(s: seq<Place>, t: seq<Place>)
    requires Ascending(s) && Ascending(t) && forall p, q | p in s && q in t :: Before(p, q)
    ensures Ascending(s + t)
  {
    forall a, b | 0 <= a < b < |s + t| ensures Before((s + t)[a], (s + t)[b]) {
      if a < |s| <= b {
        assert (s + t)[a] in s && (s + t)[b] in t;
      }
    }
  }

  lemma {:induction false} CellsInOrder(i: nat, j: nat, cells: seq<Cell>)
    ensures Ascending(InCells(i, j, cells))
    ensures forall p :: p in InCells(i, j, cells) <==> p.msg == i && p.block == j && 0 <= p.inner < |cells| && cells[p.inner].Image?
  {
    if cells != [] {
      var k := |cells| - 1;
      CellsInOrder(i, j, cells[..k]);
      AscendingConcat(InCells(i, j, cells[..k]), if cells[k].Image? then [Place(i, j, k)] else []);
    }
  }

  lemma {:induction false} BlocksInOrder(i: nat, blocks: seq<Block>)
    ensures Ascending(InBlocks(i, blocks))
    ensures forall p :: p in InBlocks(i, blocks) <==> p.msg == i && IsImageIn(Blocks("", blocks), p.block, p.inner)
  {
    if blocks != [] {
      var j := |blocks| - 1;
      BlocksInOrder(i, blocks[..j]);
      if blocks[j].Nested? {
        CellsInOrder(i, j, blocks[j].cells);
      }
      AscendingConcat(InBlocks(i, blocks[..j]), InBlock(i, j, blocks[j]));
    }
  }

  /** The scan finds every image, each once, in the order of the history. */
  lemma {:induction false} ScanFindsImages(ms: seq<Message>)
    ensures Ascending(Images(ms))
    ensures forall p :: p in Images(ms) <==> IsImageAt(ms, p)
  {
    if ms != [] {
      var i := |ms| - 1;
      ScanFindsImages(ms[..i]);
      if ms[i].Blocks? {
        BlocksInOrder(i, ms[i].blocks);
      }
      AscendingConcat(Images(ms[..i]), InMessage(i, ms[i]));
    }
  }

  // ---- Blanking ----

  function BlankCell(cell: Cell, p: Place, gone: set<Place>): Cell {
    if p in gone then PLACEHOLDER else cell
  }

  function BlankCells(i: nat, j: nat, cells: seq<Cell>, gone: set<Place>): seq<Cell> {
    seq(|cells|, k requires 0 <= k < |cells| => BlankCell(cells[k], Place(i, j, k), gone))
  }

  function BlankBlock(i: nat, j: nat, b: Block, gone: set<Place>): Block {
    match b
    case Nested(head, cells) => Nested(head, BlankCells(i, j, cells, gone))
    case Plain(cell) => Plain(BlankCell(cell, Place(i, j, -1), gone))
  }

  function BlankBlocks(i: nat, blocks: seq<Block>, gone: set<Place>): seq<Block> {
    seq(|blocks|, j requires 0 <= j < |blocks| => BlankBlock(i, j, blocks[j], gone))
  }

  function BlankMessage(i: nat, m: Message, gone: set<Place>): Message {
    match m
    case Text(_, _) => m
    case Blocks(role, blocks) => Blocks(role, BlankBlocks(i, blocks, gone))
  }

  /** The history with a placeholder at the given places: same messages, blocks and list lengths. */
  function Blanked(ms: seq<Message>, gone: set<Place>): seq<Message> {
    seq(|ms|, i requires 0 <= i < |ms| => BlankMessage(i, ms[i], gone))
  }

  function Kept(s: seq<Place>, gone: set<Place>): seq<Place> {
    if s == [] then [] else (if s[0] in gone then [] else [s[0]]) + Kept(s[1..], gone)
  }

  lemma {:induction false} KeptConcat(s: seq<Place>, t: seq<Place>, gone: set<Place>)
    ensures Kept(s + t, gone) == Kept(s, gone) + Kept(t, gone)
  {
    if s == [] {
      assert s + t == t;
    } else {
      assert (s + t)[1..] == s[1..] + t;
      KeptConcat(s[1..], t, gone);
    }
  }

  lemma {:induction false} BlankedCells(i: nat, j: nat, cells: seq<Cell>, gone: set<Place>)
    ensures InCells(i, j, BlankCells(i, j, cells, gone)) == Kept(InCells(i, j, cells), gone)
  {
    if cells != [] {
      var k := |cells| - 1;
      BlankedCells(i, j, cells[..k], gone);
      assert BlankCells(i, j, cells, gone)[..k] == BlankCells(i, j, cells[..k], gone);
      KeptConcat(InCells(i, j, cells[..k]), if cells[k].Image? then [Place(i, j, k)] else [], gone);
    }
  }

  lemma {:induction false} BlankedBlocks(i: nat, blocks: seq<Block>, gone: set<Place>)
    ensures InBlocks(i, BlankBlocks(i, blocks, gone)) == Kept(InBlocks(i, blocks), gone)
  {
    if blocks != [] {
      var j := |blocks| - 1;
      BlankedBlocks(i, blocks[..j], gone);
      assert BlankBlocks(i, blocks, gone)[..j] == BlankBlocks(i, blocks[..j], gone);
      if blocks[j].Nested? {
        BlankedCells(i, j, blocks[j].cells, gone);
      }
      KeptConcat(InBlocks(i, blocks[..j]), InBlock(i, j, blocks[j]), gone);
    }
  }

  lemma {:induction false} BlankedImages(ms: seq<Message>, gone: set<Place>)
    ensures Images(Blanked(ms, gone)) == Kept(Images(ms), gone)
  {
    if ms != [] {
      var i := |ms| - 1;
      BlankedImages(ms[..i], gone);
      assert Blanked(ms, gone)[..i] == Blanked(ms[..i], gone);
      if ms[i].Blocks? {
        BlankedBlocks(i, ms[i].blocks, gone);
      }
      KeptConcat(Images(ms[..i]), InMessage(i, ms[i]), gone);
    }
  }

  lemma {:induction false} KeptAll(s: seq<Place>, gone: set<Place>)
    requires forall p | p in s :: p !in gone
    ensures Kept(s, gone) == s
  {
    if s != [] {
      KeptAll(s[1..], gone);
    }
  }

  lemma {:induction false} KeptNone(s: seq<Place>, gone: set<Place>)
    requires forall p | p in s :: p in gone
    ensures Kept(s, gone) == []
  {
    if s != [] {
      KeptNone(s[1..], gone);
    }
  }

  // ---- The pass ----

  function Elements(s: seq<Place>): set<Place> {
    set p | p in s
  }

  /** The length of `locations[:-keep]` once `n` locations are more than `keep`. */
  function Doomed(n: nat, keep: int): nat {
    if n <= keep || keep == 0 then 0
    else if keep > 0 then n - keep
    else if -keep < n then -keep else n
  }

  function Stripped(ms: seq<Message>, keep: int): seq<Message> {
    Blanked(ms, Elements(Images(ms)[..Doomed(|Images(ms)|, keep)]))
  }

  /** The places of a scan are its first ones or its last ones, never both. */
  lemma FirstOrLast(all: seq<Place>, d: nat, p: Place)
    requires Ascending(all) && d <= |all|
    ensures p in Elements(all[..d]) <==> p in all && p !in all[d..]
  {
    assert all == all[..d] + all[d..];
    if p in all[d..] {
      var b :| d <= b < |all| && all[b] == p;
      assert forall a | 0 <= a < d :: Before(all[a], all[b]);
    }
  }

  lemma KeptSplit(first: seq<Place>, last: seq<Place>, gone: set<Place>)
    requires (forall p | p in first :: p in gone) && (forall p | p in last :: p !in gone)
    ensures Kept(first + last, gone) == last
  {
    KeptNone(first, gone);
    KeptAll(last, gone);
    KeptConcat(first, last, gone);
  }

  lemma KeptLast(all: seq<Place>, d: nat)
    requires Ascending(all) && d <= |all|
    ensures Kept(all, Elements(all[..d])) == all[d..]
  {
    forall p | p in all[d..] ensures p !in Elements(all[..d]) {
      FirstOrLast(all, d, p);
    }
    forall p | p in all[..d] ensures p in Elements(all[..d]) {}
    assert all[..d] + all[d..] == all;
    KeptSplit(all[..d], all[d..], Elements(all[..d]));
  }

  /** The images that stay are the last ones of the scan. */
  lemma LastOnesStay(ms: seq<Message>, keep: int)
    ensures Images(Stripped(ms, keep)) == Images(ms)[Doomed(|Images(ms)|, keep)..]
  {
    var d := Doomed(|Images(ms)|, keep);
    ScanFindsImages(ms);
    BlankedImages(ms, Elements(Images(ms)[..d]));
    KeptLast(Images(ms), d);
  }

  /** At most `keep` images stay, and fewer only if there were fewer, if and only if `keep` is positive or
      there was none: with `keep` zero the slice is empty and every image stays. */
  lemma KeepsLast(ms: seq<Message>, keep: nat)
    ensures var n := |Images(ms)|;
      |Images(Stripped(ms, keep))| == (if n < keep then n else keep) <==> keep >= 1 || n == 0
  {
    LastOnesStay(ms, keep);
  }

  /** How many images stay, for any `keep`: a negative one takes that many from the front. */
  lemma StripCounts(ms: seq<Message>, keep: int)
    ensures var n := |Images(ms)|;
      |Images(Stripped(ms, keep))| == if keep == 0 || (0 < n <= keep) then n else if keep > 0 then (if n == 0 then 0 else keep) else if n + keep > 0 then n + keep else 0
  {
    LastOnesStay(ms, keep);
  }

  lemma BlankedNone(ms: seq<Message>)
    ensures Blanked(ms, {}) == ms
  {
    forall i | 0 <= i < |ms| ensures BlankMessage(i, ms[i], {}) == ms[i] {
      if ms[i].Blocks? {
        forall j | 0 <= j < |ms[i].blocks| ensures BlankBlock(i, j, ms[i].blocks[j], {}) == ms[i].blocks[j] {}
      }
    }
  }

  /** A second pass changes nothing. */
  lemma StripTwice(ms: seq<Message>, keep: nat)
    ensures Stripped(Stripped(ms, keep), keep) == Stripped(ms, keep)
  {
    LastOnesStay(ms, keep);
    BlankedNone(Stripped(ms, keep));
    assert Elements(Images(Stripped(ms, keep))[..0]) == {};
  }

  /** What is at a place, if there is such a place. */
  function CellAt(ms: seq<Message>, p: Place): Option<Cell> {
    if p.msg < |ms| && ms[p.msg].Blocks? && p.block < |ms[p.msg].blocks| then
      match ms[p.msg].blocks[p.block]
      case Nested(_, cells) => if 0 <= p.inner < |cells| then Some(cells[p.inner]) else None
      case Plain(cell) => if p.inner == -1 then Some(cell) else None
    else None
  }

  lemma BlankedAt(ms: seq<Message>, gone: set<Place>, p: Place)
    ensures CellAt(Blanked(ms, gone), p) == if CellAt(ms, p).Some? && p in gone then Some(PLACEHOLDER) else CellAt(ms, p)
  {
  }

  lemma ImageAt(ms: seq<Message>, p: Place)
    ensures IsImageAt(ms, p) <==> CellAt(ms, p).Some? && CellAt(ms, p).value.Image?
  {
  }

  /** Cell by cell: the old images become placeholders, nothing else changes and no list grows or shrinks. */
  lemma OthersStay(ms: seq<Message>, keep: int, p: Place)
    ensures CellAt(Stripped(ms, keep), p)
         == if IsImageAt(ms, p) && p !in Images(ms)[Doomed(|Images(ms)|, keep)..] then Some(Other("[Previous screenshot removed]")) else CellAt(ms, p)
  {
    var all, d := Images(ms), Doomed(|Images(ms)|, keep);
    ScanFindsImages(ms);
    FirstOrLast(all, d, p);
    ImageAt(ms, p);
    BlankedAt(ms, Elements(all[..d]), p);
  }

  // ---- One replacement ----

  function Replaced(ms: seq<Message>, p: Place): seq<Message>
    requires IsImageAt(ms, p)
  {
    var m := ms[p.msg];
    ms[p.msg := Blocks(m.role, m.blocks[p.block := ReplacedIn(m.blocks[p.block], p.inner)])]
  }

  function ReplacedIn(b: Block, k: int): Block
    requires b.Nested? ==> 0 <= k < |b.cells|
  {
    match b
    case Nested(head, cells) => Nested(head, cells[k := PLACEHOLDER])
    case Plain(_) => Plain(PLACEHOLDER)
  }

  lemma BlankOneBlock(i: nat, j: nat, b: Block, gone: set<Place>, p: Place)
    requires p.msg == i && p.block == j && (b.Nested? ==> 0 <= p.inner < |b.cells|) && (b.Plain? ==> p.inner == -1)
    ensures BlankBlock(i, j, b, gone + {p}) == ReplacedIn(BlankBlock(i, j, b, gone), p.inner)
  {
  }

  lemma BlankOtherBlock(i: nat, j: nat, b: Block, gone: set<Place>, p: Place)
    requires p.msg != i || p.block != j
    ensures BlankBlock(i, j, b, gone + {p}) == BlankBlock(i, j, b, gone)
  {
  }

  lemma BlankOne(ms: seq<Message>, gone: set<Place>, p: Place)
    requires IsImageAt(ms, p) && p !in gone
    ensures IsImageAt(Blanked(ms, gone), p)
    ensures Blanked(ms, gone + {p}) == Replaced(Blanked(ms, gone), p)
  {
    var now := Blanked(ms, gone);
    forall i | 0 <= i < |ms| ensures Blanked(ms, gone + {p})[i] == Replaced(now, p)[i] {
      if ms[i].Blocks? {
        forall j | 0 <= j < |ms[i].blocks|
          ensures BlankBlock(i, j, ms[i].blocks[j], gone + {p})
               == if p.msg == i && p.block == j then ReplacedIn(now[i].blocks[j], p.inner) else now[i].blocks[j]
        {
          if p.msg == i && p.block == j {
            BlankOneBlock(i, j, ms[i].blocks[j], gone, p);
          } else {
            BlankOtherBlock(i, j, ms[i].blocks[j], gone, p);
          }
        }
      }
    }
  }

  /** The messages of one run of the plan loop. */
  class History {
    var messages: seq<Message>

    constructor (messages: seq<Message>)
      ensures this.messages == messages
    {
      this.messages := messages;
    }

    /** The locations of the images, message by message, block by block. */
    method FindImages() returns (locations: seq<Place>)
      ensures locations == Images(messages)
    {
      locations := [];
      for i := 0 to |messages|
        invariant locations == Images(messages[..i])
      {
        if messages[i].Blocks? {
          var found := FindInBlocks(i, messages[i].blocks);
          locations := locations + found;
        }
        assert messages[..i + 1][..i] == messages[..i];
      }
      assert messages[..|messages|] == messages;
    }

    method FindInBlocks(i: nat, blocks: seq<Block>) returns (found: seq<Place>)
      ensures found == InBlocks(i, blocks)
    {
      found := [];
      for j := 0 to |blocks|
        invariant found == InBlocks(i, blocks[..j])
      {
        var more := FindInBlock(i, j, blocks[j]);
        found := found + more;
        assert blocks[..j + 1][..j] == blocks[..j];
      }
      assert blocks[..|blocks|] == blocks;
    }

    method FindInBlock(i: nat, j: nat, b: Block) returns (found: seq<Place>)
      ensures found == InBlock(i, j, b)
    {
      found := [];
      match b
      case Nested(_, cells) =>
        for k := 0 to |cells|
          invariant found == InCells(i, j, cells[..k])
        {
          if cells[k].Image? {
            found := found + [Place(i, j, k)];
          }
          assert cells[..k + 1][..k] == cells[..k];
        }
        assert cells[..|cells|] == cells;
      case Plain(cell) =>
        if cell.Image? {
          found := [Place(i, j, -1)];
        }
    }

    /** Put the placeholder where the location says an image is. */
    method Replace(p: Place)
      requires IsImageAt(messages, p)
      modifies this
      ensures messages == Replaced(old(messages), p)
    {
      var m := messages[p.msg];
      var b := m.blocks[p.block];
      if p.inner >= 0 && b.Nested? {
        b := b.(cells := b.cells[p.inner := PLACEHOLDER]);
      } else if b.Plain? && b.cell.Image? {
        b := Plain(PLACEHOLDER);
      }
      messages := messages[p.msg := m.(blocks := m.blocks[p.block := b])];
    }

    /** `_strip_old_screenshots`: `locations[:-keep]` counts from the end for a positive `keep` only. */
    method StripOldScreenshots(keep: int)
      modifies this
      ensures messages == Stripped(old(messages), keep)
    {
      var locations := FindImages();
      ghost var was := messages;
      BlankedNone(was);
      if |locations| <= keep {
        assert Elements(Images(was)[..0]) == {};
        return;
      }
      var end := if keep > 0 then |locations| - keep else if -keep < |locations| then -keep else |locations|;
      ScanFindsImages(was);
      assert Elements(locations[..0]) == {};
      for n := 0 to end
        invariant messages == Blanked(was, Elements(locations[..n]))
      {
        var p := locations[n];
        assert p in locations && p !in locations[..n] by {
          assert forall a | 0 <= a < n :: Before(locations[a], locations[n]);
        }
        BlankOne(was, Elements(locations[..n]), p);
        assert Elements(locations[..n + 1]) == Elements(locations[..n]) + {p};
        Replace(p);
      }
    }
  }
}
