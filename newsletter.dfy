/** The block list of the newsletter builder: dragging a block to a new place, adding a
    block of one of the offered kinds, removing blocks, and editing a block's content and
    settings. */
module Newsletter {
  import opened Options
  import opened Text
  import opened Lists

  /** A block; its settings are a flat record of named values. */
  datatype Block = Block(id: string, kind: string, content: string, settings: map<string, string>)

  // ---------------------------------------------------------------------------
  // Moving a block

  function Min(a: nat, b: nat): nat {
    if a <= b then a else b
  }

  /** `s` without the element at `i` (`splice(i, 1)`). */
  function RemoveAt<T>(s: seq<T>, i: nat): (r: seq<T>)
    requires i < |s|
    ensures |r| == |s| - 1
  {
    s[..i] + s[i + 1..]
  }

  /** `s` with `x` inserted before position `i`, or at the end when `i` is past it
      (`splice(i, 0, x)`). */
  function InsertAt<T>(s: seq<T>, i: nat, x: T): (r: seq<T>)
    ensures |r| == |s| + 1
  {
    var d := Min(i, |s|);
    s[..d] + [x] + s[d..]
  }

  /** The two splices of `handleDragEnd`: take the block at `from` out, put it back in at
      `to`. */
  function Moved<T>(s: seq<T>, from: nat, to: nat): seq<T>
    requires from < |s|
  {
    InsertAt(RemoveAt(s, from), to, s[from])
  }

  /** Where the moved element lands. */
  function Landing(n: nat, to: nat): nat
    requires n >= 1
  {
    Min(to, n - 1)
  }

  /** One element of the moved sequence: the moved element at its landing place, the
      elements between the two places shifted by one toward the gap, the rest in place. */
  lemma MovedIndex<T>(s: seq<T>, from: nat, to: nat, t: nat)
    requires from < |s| && t < |s|
    ensures |Moved(s, from, to)| == |s|
    ensures var d := Landing(|s|, to);
      Moved(s, from, to)[t] ==
        if t == d then s[from]
        else if from <= t < d then s[t + 1]
        else if d < t <= from then s[t - 1]
        else s[t]
  {
    var rest := RemoveAt(s, from);
    var d := Landing(|s|, to);
    assert Moved(s, from, to) == rest[..d] + [s[from]] + rest[d..];
    if t < d {
      assert Moved(s, from, to)[t] == rest[t];
    } else if t > d {
      assert Moved(s, from, to)[t] == rest[t - 1];
    }
  }

  /** The moved sequence element by element. */
  lemma MovedAt<T>(s: seq<T>, from: nat, to: nat)
    requires from < |s|
    ensures |Moved(s, from, to)| == |s|
    ensures var d := Landing(|s|, to);
      forall t | 0 <= t < |s| :: Moved(s, from, to)[t] ==
        if t == d then s[from]
        else if from <= t < d then s[t + 1]
        else if d < t <= from then s[t - 1]
        else s[t]
  {
    assert |Moved(s, from, to)| == |s|;
    forall t | 0 <= t < |s|
      ensures Moved(s, from, to)[t] ==
        if t == Landing(|s|, to) then s[from]
        else if from <= t < Landing(|s|, to) then s[t + 1]
        else if Landing(|s|, to) < t <= from then s[t - 1]
        else s[t]
    {
      MovedIndex(s, from, to, t);
    }
  }

  /** Moving keeps every block: the result is a permutation of the list. */
  lemma MovedPermutation<T>(s: seq<T>, from: nat, to: nat)
    requires from < |s|
    ensures multiset(Moved(s, from, to)) == multiset(s)
  {
    var rest := RemoveAt(s, from);
    var d := Min(to, |rest|);
    assert rest == s[..from] + s[from + 1..];
    assert s == s[..from] + [s[from]] + s[from + 1..];
    assert rest == rest[..d] + rest[d..];
    assert Moved(s, from, to) == rest[..d] + [s[from]] + rest[d..];
    assert multiset(Moved(s, from, to)) == multiset(rest[..d]) + multiset{s[from]} + multiset(rest[d..]);
    assert multiset(rest) == multiset(rest[..d]) + multiset(rest[d..]);
    assert multiset(rest) == multiset(s[..from]) + multiset(s[from + 1..]);
    assert multiset(s) == multiset(s[..from]) + multiset{s[from]} + multiset(s[from + 1..]);
    assert multiset(Moved(s, from, to)) == multiset(rest) + multiset{s[from]};
    assert multiset(rest) + multiset{s[from]} == multiset(s);
  }

  /** The moved block is at its landing place and the other blocks keep their order. */
  lemma MovedKeepsOthers<T>(s: seq<T>, from: nat, to: nat)
    requires from < |s|
    ensures var m := Moved(s, from, to);
      && |m| == |s|
      && m[Landing(|s|, to)] == s[from]
      && RemoveAt(m, Landing(|s|, to)) == RemoveAt(s, from)
  {
    var rest := RemoveAt(s, from);
    var d := Landing(|s|, to);
    var m := Moved(s, from, to);
    assert m == rest[..d] + [s[from]] + rest[d..];
    assert m[..d] == rest[..d];
    assert m[d + 1..] == rest[d..];
  }

  /** Dragging the block back from its landing place to where it came from undoes the move. */
  lemma MovedBack<T>(s: seq<T>, from: nat, to: nat)
    requires from < |s|
    ensures Moved(Moved(s, from, to), Landing(|s|, to), from) == s
  {
    var d := Landing(|s|, to);
    var m := Moved(s, from, to);
    MovedIndex(s, from, to, 0);
    assert |m| == |s| && Landing(|m|, from) == from;
    forall t | 0 <= t < |s|
      ensures Moved(m, d, from)[t] == s[t]
    {
      MovedIndex(m, d, from, t);
      if t == from {
        MovedIndex(s, from, to, d);
      } else if d <= t < from {
        MovedIndex(s, from, to, t + 1);
      } else if from < t <= d {
        MovedIndex(s, from, to, t - 1);
      } else {
        MovedIndex(s, from, to, t);
      }
    }
    assert Moved(m, d, from) == s;
  }

  /** The copy of the list, moved in place: the elements between the two places shift by
      one and the moved element is written at its landing place. */
  method MoveInPlace<T>(a: array<T>, from: nat, to: nat)
    requires from < a.Length
    modifies a
    ensures a[..] == Moved(old(a[..]), from, to)
  {
    ghost var s := a[..];
    var d := if to < a.Length - 1 then to else a.Length - 1;
    var moved := a[from];
    if from <= d {
      var i := from;
      while i < d
        invariant from <= i <= d && a.Length == |s|
        invariant forall t | from <= t < i :: a[t] == s[t + 1]
        invariant forall t | 0 <= t < from || i <= t < a.Length :: a[t] == s[t]
      {
        a[i] := a[i + 1];
        i := i + 1;
      }
      a[d] := moved;
      forall t | 0 <= t < a.Length
        ensures a[t] == Moved(s, from, to)[t]
      {
        MovedIndex(s, from, to, t);
      }
    } else {
      var i := from;
      while i > d
        invariant d <= i <= from && a.Length == |s|
        invariant forall t | i < t <= from :: a[t] == s[t - 1]
        invariant forall t | 0 <= t <= i || from < t < a.Length :: a[t] == s[t]
      {
        a[i] := a[i - 1];
        i := i - 1;
      }
      a[d] := moved;
      forall t | 0 <= t < a.Length
        ensures a[t] == Moved(s, from, to)[t]
      {
        MovedIndex(s, from, to, t);
      }
    }
    MovedAt(s, from, to);
    assert a[..] == Moved(s, from, to);
  }

  // ---------------------------------------------------------------------------
  // List edits

  /** The default content of the kinds the toolbar offers; any other kind has none. */
  function DefaultContent(kind: string): (r: Option<string>)
    ensures r.Some? <==> kind in {"text", "image", "layout"}
  {
    if kind == "text" then Some("Enter your text here...")
    else if kind == "image" then Some("https://images.unsplash.com/photo-1555066931-4365d14bab8c?w=800&q=80")
    else if kind == "layout" then Some("Two Column Layout")
    else None
  }

  /** The id of a new block: its kind, a dash and the clock reading. */
  function NewId(kind: string, now: nat): (r: string)
    ensures StartsWith(r, kind + "-")
  {
    kind + "-" + NatToString(now)
  }

  predicate HasOtherId(b: Block, id: string) {
    b.id != id
  }

  function OtherIdTest(id: string): Block -> bool {
    b => HasOtherId(b, id)
  }

  /** `blocks.filter(block => block.id !== id)`. */
  function WithoutId(blocks: seq<Block>, id: string): (r: seq<Block>)
    ensures forall b :: b in r <==> b in blocks && b.id != id
  {
    Filter(blocks, OtherIdTest(id))
  }

  /** Removing drops exactly the blocks with that id and keeps the others, in order and
      as often as before. */
  lemma WithoutIdKeepsOthers(blocks: seq<Block>, id: string)
    ensures IsSubsequence(WithoutId(blocks, id), blocks)
    ensures forall b :: multiset(WithoutId(blocks, id))[b] == if b.id == id then 0 else multiset(blocks)[b]
  {
    FilterIsSubsequence(blocks, OtherIdTest(id));
    forall b
      ensures multiset(WithoutId(blocks, id))[b] == if b.id == id then 0 else multiset(blocks)[b]
    {
      FilterCount(blocks, OtherIdTest(id), b);
    }
  }

  /** The block after `updateBlockContent(id, content)`. */
  function WithContent(b: Block, id: string, content: string): Block {
    if b.id == id then b.(content := content) else b
  }

  /** The block after `updateBlockSettings(id, settings)`: the given settings override,
      the other old ones stay. */
  function WithSettings(b: Block, id: string, settings: map<string, string>): Block {
    if b.id == id then b.(settings := b.settings + settings) else b
  }

  function UpdateContent(blocks: seq<Block>, id: string, content: string): (r: seq<Block>)
    ensures |r| == |blocks|
    ensures forall k | 0 <= k < |r| :: r[k] == WithContent(blocks[k], id, content)
  {
    seq(|blocks|, k requires 0 <= k < |blocks| => WithContent(blocks[k], id, content))
  }

  function UpdateSettings(blocks: seq<Block>, id: string, settings: map<string, string>): (r: seq<Block>)
    ensures |r| == |blocks|
    ensures forall k | 0 <= k < |r| :: r[k] == WithSettings(blocks[k], id, settings)
  {
    seq(|blocks|, k requires 0 <= k < |blocks| => WithSettings(blocks[k], id, settings))
  }

  /** Only the content of the blocks with that id changes; ids, kinds and settings stay. */
  lemma UpdateContentSpec(blocks: seq<Block>, id: string, content: string)
    ensures var r := UpdateContent(blocks, id, content);
      && |r| == |blocks|
      && (forall k | 0 <= k < |r| :: r[k].id == blocks[k].id && r[k].kind == blocks[k].kind && r[k].settings == blocks[k].settings)
      && (forall k | 0 <= k < |r| :: r[k].content == if blocks[k].id == id then content else blocks[k].content)
  {
  }

  /** Updating settings merges them into the matching blocks: a given key takes its new
      value, every other old key keeps its value, and the other blocks are untouched. */
  lemma UpdateSettingsSpec(blocks: seq<Block>, id: string, settings: map<string, string>)
    ensures var r := UpdateSettings(blocks, id, settings);
      && |r| == |blocks|
      && (forall k | 0 <= k < |r| && blocks[k].id != id :: r[k] == blocks[k])
      && (forall k | 0 <= k < |r| && blocks[k].id == id ::
            && r[k].id == id && r[k].kind == blocks[k].kind && r[k].content == blocks[k].content
            && r[k].settings.Keys == blocks[k].settings.Keys + settings.Keys
            && (forall key | key in settings :: r[k].settings[key] == settings[key])
            && (forall key | key in blocks[k].settings && key !in settings :: r[k].settings[key] == blocks[k].settings[key]))
  {
  }

  // ---------------------------------------------------------------------------
  // The builder's state

  class Builder {
    var blocks: seq<Block>
    var editingBlock: Option<string>

    constructor(initial: seq<Block>)
      ensures blocks == initial && editingBlock == None
    {
      blocks := initial;
      editingBlock := None;
    }

    /** `handleDragEnd`: a drop outside the list changes nothing; otherwise the block at
        `source` moves to `destination`. */
    method HandleDragEnd(source: nat, destination: Option<nat>)
      requires source < |blocks|
      modifies this
      ensures destination.None? ==> blocks == old(blocks)
      ensures destination.Some? ==> blocks == Moved(old(blocks), source, destination.value)
      ensures editingBlock == old(editingBlock)
    {
      if destination.None? {
        return;
      }
      var s := blocks;
      var items := new Block[|s|](k requires 0 <= k < |s| => s[k]);
      assert items[..] == s;
      MoveInPlace(items, source, destination.value);
      blocks := items[..];
    }

    /** `addBlock(kind)` at clock reading `now`: a kind the toolbar does not offer changes
        nothing; otherwise one block with the kind's default content is appended and
        becomes the one being edited. */
    method AddBlock(kind: string, now: nat)
      modifies this
      ensures DefaultContent(kind).None? ==> blocks == old(blocks) && editingBlock == old(editingBlock)
      ensures DefaultContent(kind).Some? ==>
        && blocks == old(blocks) + [Block(NewId(kind, now), kind, DefaultContent(kind).value, map[])]
        && editingBlock == Some(NewId(kind, now))
    {
      var default := DefaultContent(kind);
      if default.None? {
        return;
      }
      var block := Block(NewId(kind, now), kind, default.value, map[]);
      blocks := blocks + [block];
      editingBlock := Some(block.id);
    }

    /** `removeBlock(id)`: the blocks with that id go, and the edited block is cleared when
        it was that one. */
    method RemoveBlock(id: string)
      modifies this
      ensures blocks == WithoutId(old(blocks), id)
      ensures editingBlock == if old(editingBlock) == Some(id) then None else old(editingBlock)
    {
      blocks := WithoutId(blocks, id);
      if editingBlock == Some(id) {
        editingBlock := None;
      }
    }

    method UpdateBlockContent(id: string, content: string)
      modifies this
      ensures blocks == UpdateContent(old(blocks), id, content)
      ensures editingBlock == old(editingBlock)
    {
      blocks := UpdateContent(blocks, id, content);
    }

    method UpdateBlockSettings(id: string, settings: map<string, string>)
      modifies this
      ensures blocks == UpdateSettings(old(blocks), id, settings)
      ensures editingBlock == old(editingBlock)
    {
      blocks := UpdateSettings(blocks, id, settings);
    }
  }
}
