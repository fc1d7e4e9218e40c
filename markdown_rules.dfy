/** The individual substitutions of the editor's preview renderer, each as a function
    on the whole text with the exact matching behaviour of its regular expression:
    line-anchored rules act on every line of the text split on '\n', span rules take
    leftmost, non-greedy, same-line matches, and the merge rules delete or shrink a
    closing tag, a whitespace run and an opening tag found together. */
module MarkdownRules {
  import opened Options
  import opened Text

  function Lines(s: string): seq<string> {
    Split(s, '\n')
  }

  function Unlines(ls: seq<string>): string {
    Join(ls, "\n")
  }

  lemma UnlinesLines(s: string)
    ensures Unlines(Lines(s)) == s
  {
    JoinSplit(s, '\n');
  }

  lemma LinesUnlines(ls: seq<string>)
    requires |ls| >= 1
    requires forall k | 0 <= k < |ls| :: '\n' !in ls[k]
    ensures Lines(Unlines(ls)) == ls
  {
    SplitJoin(ls, '\n');
  }

  lemma LinesSingle(l: string)
    requires '\n' !in l
    ensures Lines(l) == [l]
  {
    SplitNoSeparator(l, '\n');
  }

  /** Rewrites every line of `s` by `f`: what a `gm` replacement whose match is one
      whole line does. */
  function MapLines(s: string, f: string -> string): string {
    var ls := Lines(s);
    Unlines(seq(|ls|, k requires 0 <= k < |ls| => f(ls[k])))
  }

  /** A rewrite that keeps lines free of newlines leaves the line structure intact:
      line `k` of the result is `f` of line `k` of the input. */
  lemma MapLinesLines(s: string, f: string -> string)
    requires forall k | 0 <= k < |Lines(s)| :: '\n' !in f(Lines(s)[k])
    ensures |Lines(MapLines(s, f))| == |Lines(s)|
    ensures forall k | 0 <= k < |Lines(s)| :: Lines(MapLines(s, f))[k] == f(Lines(s)[k])
  {
    var ls := Lines(s);
    LinesUnlines(seq(|ls|, k requires 0 <= k < |ls| => f(ls[k])));
  }

  /** A rewrite that changes no line of `s` leaves `s` unchanged. */
  lemma MapLinesIdentity(s: string, f: string -> string)
    requires forall k | 0 <= k < |Lines(s)| :: f(Lines(s)[k]) == Lines(s)[k]
    ensures MapLines(s, f) == s
  {
    var ls := Lines(s);
    assert seq(|ls|, k requires 0 <= k < |ls| => f(ls[k])) == ls;
    UnlinesLines(s);
  }

  lemma MapLinesSingle(l: string, f: string -> string)
    requires '\n' !in l
    ensures MapLines(l, f) == f(l)
  {
    LinesSingle(l);
    assert seq(1, k requires 0 <= k < 1 => f([l][k])) == [f(l)];
  }

  /** `^<prefix>(.*$)` replaced by `<open>$1<close>`, on one line. */
  function WrapIfPrefixed(l: string, prefix: string, open: string, close: string): (r: string)
    ensures '\n' !in l && '\n' !in open && '\n' !in close ==> '\n' !in r
  {
    if StartsWith(l, prefix) then
      assert forall ch | ch in l[|prefix|..] :: ch in l;
      open + l[|prefix|..] + close
    else l
  }

  function H3Line(l: string): string { WrapIfPrefixed(l, "### ", "<h3>", "</h3>") }
  function H2Line(l: string): string { WrapIfPrefixed(l, "## ", "<h2>", "</h2>") }
  function H1Line(l: string): string { WrapIfPrefixed(l, "# ", "<h1>", "</h1>") }

  const BlockquoteOpen := "<blockquote class=\"border-l-4 border-neutral-300 pl-4 italic text-neutral-600\">"

  function QuoteLine(l: string): string { WrapIfPrefixed(l, "> ", BlockquoteOpen, "</blockquote>") }
  function BulletLine(l: string): string { WrapIfPrefixed(l, "* ", "<ul><li>", "</li></ul>") }

  /** `^\d\. (.*$)` replaced by `<ol><li>$1</li></ol>`: one digit, a dot and a space. */
  predicate NumberedPrefix(l: string) {
    |l| >= 3 && IsDigit(l[0]) && l[1] == '.' && l[2] == ' '
  }

  function NumberedLine(l: string): (r: string)
    ensures '\n' !in l ==> '\n' !in r
  {
    if NumberedPrefix(l) then
      assert forall ch | ch in l[3..] :: ch in l;
      "<ol><li>" + l[3..] + "</li></ol>"
    else l
  }

  /** `^(?!<[a-z]|\s*$).*$` replaced by `<p>$&</p>`: a line is wrapped unless it is blank
      or opens with `<` and a lower-case letter. */
  predicate ParagraphExempt(l: string) {
    AllSpace(l) || (|l| >= 2 && l[0] == '<' && IsLowerLetter(l[1]))
  }

  function ParagraphLine(l: string): (r: string)
    ensures '\n' !in l ==> '\n' !in r
  {
    if ParagraphExempt(l) then l else "<p>" + l + "</p>"
  }

  /** The three heading rules in their order: `### `, then `## `, then `# `. */
  function Headings(s: string): string {
    MapLines(MapLines(MapLines(s, H3Line), H2Line), H1Line)
  }

  /** The heading rules on one line, in their order. */
  function HeadingLine(l: string): string {
    H1Line(H2Line(H3Line(l)))
  }

  lemma HeadingLineCases(l: string)
    ensures HeadingLine(l) ==
      if StartsWith(l, "### ") then "<h3>" + l[4..] + "</h3>"
      else if StartsWith(l, "## ") then "<h2>" + l[3..] + "</h2>"
      else if StartsWith(l, "# ") then "<h1>" + l[2..] + "</h1>"
      else l
  {
    var l3 := H3Line(l);
    if StartsWith(l, "### ") {
      assert l3[0] == '<';
      assert !StartsWith(l3, "## ") && !StartsWith(l3, "# ");
    } else if StartsWith(l, "## ") {
      var l2 := H2Line(l3);
      assert l2[0] == '<';
      assert !StartsWith(l2, "# ");
    }
  }

  /** Each heading line gets the tag of its own level; every other line, `#### x`
      included, is left alone; no line is added or removed. */
  lemma HeadingsLines(s: string)
    ensures |Lines(Headings(s))| == |Lines(s)|
    ensures forall k | 0 <= k < |Lines(s)| :: Lines(Headings(s))[k] == HeadingLine(Lines(s)[k])
  {
    var s1 := MapLines(s, H3Line);
    var s2 := MapLines(s1, H2Line);
    MapLinesLines(s, H3Line);
    assert forall k | 0 <= k < |Lines(s1)| :: '\n' !in H2Line(Lines(s1)[k]);
    MapLinesLines(s1, H2Line);
    assert forall k | 0 <= k < |Lines(s2)| :: '\n' !in H1Line(Lines(s2)[k]);
    MapLinesLines(s2, H1Line);
  }

  /** A level-four heading line matches none of the three rules. */
  lemma LevelFourHeadingUnchanged(c: string)
    requires '\n' !in c
    ensures Headings("#### " + c) == "#### " + c
  {
    var l := "#### " + c;
    assert '\n' !in l;
    MapLinesSingle(l, H3Line);
    MapLinesSingle(l, H2Line);
    MapLinesSingle(l, H1Line);
    assert l[3] == '#' && l[2] == '#' && l[1] == '#';
  }

  /** The first line is a prefix of the text. */
  lemma LinesHead(s: string)
    ensures |Lines(s)[0]| <= |s| && Lines(s)[0] == s[..|Lines(s)[0]|]
  {
    var ls := Lines(s);
    UnlinesLines(s);
    if |ls| > 1 {
      assert Unlines(ls) == ls[0] + "\n" + Unlines(ls[1..]);
    }
  }

  /** Every line after the first starts after a newline of the text. */
  lemma LinesTail(s: string, k: nat)
    requires 0 < k < |Lines(s)|
    ensures exists i | 0 <= i < |s| :: s[i] == '\n' && StartsWith(s[i + 1..], Lines(s)[k])
  {
    var ls := Lines(s);
    UnlinesLines(s);
    var before := Unlines(ls[..k]);
    var after := Unlines(ls[k..]);
    assert ls == ls[..k] + ls[k..];
    JoinAppend(ls[..k], ls[k..], "\n");
    assert s == before + "\n" + after;
    assert after == ls[k] || after == ls[k] + "\n" + Unlines(ls[k + 1..]) by {
      assert ls[k..][0] == ls[k];
      if |ls[k..]| > 1 { assert ls[k..][1..] == ls[k + 1..]; }
    }
    var i := |before|;
    assert s[i] == '\n';
    assert s[i + 1..] == after;
  }

  /** The first `j >= from` where `delim` occurs, provided no newline comes first:
      a lazy `(.*?)` followed by `delim`, where `.` does not match a newline. */
  function CloseOnLine(s: string, delim: string, from: nat): (r: Option<nat>)
    ensures r.Some? ==> from <= r.value && OccursAt(s, delim, r.value) && '\n' !in s[from..r.value]
    ensures r.Some? ==> forall j | from <= j < r.value :: !OccursAt(s, delim, j)
    decreases |s| - from
  {
    if from + |delim| > |s| then None
    else if OccursAt(s, delim, from) then Some(from)
    else if s[from] == '\n' then None
    else
      var r := CloseOnLine(s, delim, from + 1);
      if r.Some? then
        assert s[from..r.value] == [s[from]] + s[from + 1..r.value];
        r
      else r
  }

  /** A global, non-greedy `<delim>(.*?)<delim>` replacement by `<open>$1<close>`:
      matches are leftmost, lie on one line and never overlap. */
  function ReplaceSpans(s: string, delim: string, open: string, close: string): string
    requires delim != []
    decreases |s|
  {
    if s == [] then []
    else if StartsWith(s, delim) && CloseOnLine(s, delim, |delim|).Some? then
      var j := CloseOnLine(s, delim, |delim|).value;
      open + s[|delim|..j] + close + ReplaceSpans(s[j + |delim|..], delim, open, close)
    else [s[0]] + ReplaceSpans(s[1..], delim, open, close)
  }

  /** Text in which the delimiter's first character never appears is left alone. */
  lemma {:induction false} SpansIdentity(s: string, delim: string, open: string, close: string)
    requires delim != [] && delim[0] !in s
    ensures ReplaceSpans(s, delim, open, close) == s
    decreases |s|
  {
    if s != [] {
      assert s[0] in s;
      assert s[1..] == s[1..] && forall x | x in s[1..] :: x in s;
      SpansIdentity(s[1..], delim, open, close);
      assert [s[0]] + s[1..] == s;
    }
  }

  lemma SpanCloses(c: string, rest: string, delim: string)
    requires delim != [] && delim[0] !in c && '\n' !in c
    ensures CloseOnLine(delim + c + delim + rest, delim, |delim|) == Some(|delim| + |c|)
  {
    var s := delim + c + delim + rest;
    var d := |delim|;
    forall j | d <= j < d + |c|
      ensures !OccursAt(s, delim, j)
    {
      assert s[j] == c[j - d];
      assert c[j - d] in c;
    }
    assert s[d + |c|..d + |c| + d] == delim;
    assert s[d..d + |c|] == c;
    CloseOnLineFinds(s, delim, d, d + |c|);
  }

  /** A delimited span on one line is wrapped in the tags, and scanning resumes after it. */
  lemma SpanWrapped(c: string, rest: string, delim: string, open: string, close: string)
    requires delim != [] && delim[0] !in c && '\n' !in c
    ensures ReplaceSpans(delim + c + delim + rest, delim, open, close)
         == open + c + close + ReplaceSpans(rest, delim, open, close)
  {
    var s := delim + c + delim + rest;
    var j := |delim| + |c|;
    assert CloseOnLine(s, delim, |delim|) == Some(j) by {
      SpanCloses(c, rest, delim);
    }
    assert StartsWith(s, delim) && s[|delim|..j] == c && s[j + |delim|..] == rest by {
      Parts4(delim, c, delim, rest);
    }
  }

  /** The four parts of a concatenation, as slices of it. */
  lemma Parts4(a: string, b: string, c: string, d: string)
    ensures var s := a + b + c + d;
      && |s| == |a| + |b| + |c| + |d|
      && s[..|a|] == a && s[|a|..|a| + |b|] == b
      && s[|a| + |b|..|a| + |b| + |c|] == c && s[|a| + |b| + |c|..] == d
  {
  }

  lemma Regroup5(a: string, b: string, c: string, d: string, e: string)
    ensures a + b + c + d + e == a + (b + c + d + e)
  {
  }

  lemma Regroup4(a: string, b: string, c: string, d: string)
    ensures a + b + c + d == a + (b + (c + d))
  {
  }

  lemma {:induction false} CloseOnLineFinds(s: string, delim: string, from: nat, j: nat)
    requires from <= j && OccursAt(s, delim, j) && '\n' !in s[from..j]
    requires forall i | from <= i < j :: !OccursAt(s, delim, i)
    ensures CloseOnLine(s, delim, from) == Some(j)
    decreases j - from
  {
    if from < j {
      assert s[from] == s[from..j][0];
      assert s[from..j][0] in s[from..j];
      assert s[from + 1..j] == s[from..j][1..];
      CloseOnLineFinds(s, delim, from + 1, j);
    }
  }

  /** Without the `m` flag both `$` of `\[(.*?)\]$$(.*?)$$` mean the end of the text, so
      the link pattern matches a `[` whose closing `]` is the last character of the
      text, with no newline between them. */
  predicate LinkAt(s: string, i: nat) {
    i + 1 < |s| && s[i] == '[' && s[|s| - 1] == ']' && '\n' !in s[i + 1..|s| - 1]
  }

  function FindLink(s: string, from: nat): (r: Option<nat>)
    ensures r.Some? ==> from <= r.value && LinkAt(s, r.value)
    ensures r.Some? ==> forall j: nat | from <= j < r.value :: !LinkAt(s, j)
    ensures r.None? ==> forall j: nat | from <= j :: !LinkAt(s, j)
    decreases |s| - from
  {
    if from + 1 >= |s| then None
    else if LinkAt(s, from) then Some(from)
    else FindLink(s, from + 1)
  }

  const LinkOpen := "<a href=\"\" target=\"_blank\" rel=\"noopener noreferrer\">"

  /** The link rule: the leftmost `[` that can close the text opens a link to `""`
      whose label runs to the final `]`; it fires at most once. */
  function LinkRule(s: string): (r: string)
    ensures (forall i: nat :: !LinkAt(s, i)) ==> r == s
  {
    match FindLink(s, 0)
    case None => s
    case Some(i) => s[..i] + LinkOpen + s[i + 1..|s| - 1] + "</a>"
  }

  /** The leftmost `[` that can close the text is the one the link rule rewrites. */
  lemma LinkRuleFirst(s: string, i: nat)
    requires LinkAt(s, i)
    requires forall j: nat | j < i :: !LinkAt(s, j)
    ensures LinkRule(s) == s[..i] + LinkOpen + s[i + 1..|s| - 1] + "</a>"
  {
    var f := FindLink(s, 0);
    assert f.Some?;
    assert f.value == i;
  }

  /** The link rule changes the text exactly when the text ends in a `[...]` that lies
      on its last line. */
  lemma LinkRuleChanges(s: string)
    ensures LinkRule(s) != s <==> exists i: nat :: LinkAt(s, i)
  {
    var f := FindLink(s, 0);
    if f.Some? {
      var r := LinkRule(s);
      assert r[|r| - 1] == '>';
    }
  }

  predicate ImageAt(s: string, i: nat) {
    i + 1 < |s| && s[i] == '!' && LinkAt(s, i + 1)
  }

  function FindImage(s: string, from: nat): (r: Option<nat>)
    ensures r.Some? ==> from <= r.value && ImageAt(s, r.value)
    ensures r.None? ==> forall j: nat | from <= j :: !ImageAt(s, j)
    decreases |s| - from
  {
    if from + 1 >= |s| then None
    else if ImageAt(s, from) then Some(from)
    else FindImage(s, from + 1)
  }

  const ImageClose := "\" class=\"max-w-full h-auto rounded-md my-4\" />"

  /** The image rule `!\[(.*?)\]$$(.*?)$$`, with the same end-of-text anchoring. */
  function ImageRule(s: string): (r: string)
    ensures (forall i: nat :: !ImageAt(s, i)) ==> r == s
  {
    match FindImage(s, 0)
    case None => s
    case Some(i) => s[..i] + "<img src=\"\" alt=\"" + s[i + 2..|s| - 1] + ImageClose
  }

  /** Run after the link rule, the image rule never changes the text: a text the link
      rule left alone has no link match for `!` to precede, and one it rewrote ends
      in `>`. */
  lemma ImageRuleDead(s: string)
    ensures ImageRule(LinkRule(s)) == LinkRule(s)
  {
    var r := LinkRule(s);
    LinkRuleChanges(s);
    if r != s {
      assert r[|r| - 1] == '>';
      assert forall i: nat :: !LinkAt(r, i);
    }
    assert forall i: nat :: !ImageAt(r, i);
  }

  /** A global `<close>\s*<open>` match at the start of `s`. The greedy `\s*` needs no
      backtracking: the opening tag cannot start with whitespace. */
  predicate MergeAt(s: string, close: string, open: string) {
    StartsWith(s, close) && StartsWith(s[|close| + LeadingSpaces(s[|close|..])..], open)
  }

  function MergeLen(s: string, close: string, open: string): (n: nat)
    requires MergeAt(s, close, open)
    ensures |close| <= n <= |s|
  {
    |close| + LeadingSpaces(s[|close|..]) + |open|
  }

  /** A global replacement of `<close>\s*<open>` by `rep`. */
  function Collapse(s: string, close: string, open: string, rep: string): string
    requires close != []
    decreases |s|
  {
    if s == [] then []
    else if MergeAt(s, close, open) then rep + Collapse(s[MergeLen(s, close, open)..], close, open, rep)
    else [s[0]] + Collapse(s[1..], close, open, rep)
  }

  lemma NotStartsWith(s: string, p: string, d: nat)
    requires d < |s| && d < |p| && s[d] != p[d]
    ensures !StartsWith(s, p)
  {
    if |p| <= |s| {
      assert s[..|p|][d] == s[d];
    }
  }

  lemma CollapseStep(s: string, close: string, open: string, rep: string)
    requires close != [] && s != [] && !MergeAt(s, close, open)
    ensures Collapse(s, close, open, rep) == [s[0]] + Collapse(s[1..], close, open, rep)
  {
  }

  /** Characters other than the tag's first one are copied through. */
  lemma {:induction false} CollapsePeel(x: string, y: string, close: string, open: string, rep: string)
    requires close != [] && close[0] !in x
    ensures Collapse(x + y, close, open, rep) == x + Collapse(y, close, open, rep)
    decreases |x|
  {
    if x != [] {
      var t, c := x[1..], Collapse(y, close, open, rep);
      assert (x + y)[1..] == t + y;
      assert Collapse(x + y, close, open, rep) == [x[0]] + Collapse(t + y, close, open, rep) by {
        assert (x + y)[0] == x[0] && x[0] in x;
        CollapseStep(x + y, close, open, rep);
      }
      assert Collapse(t + y, close, open, rep) == t + c by {
        assert forall ch | ch in t :: ch in x;
        CollapsePeel(t, y, close, open, rep);
      }
      assert [x[0]] + (t + c) == ([x[0]] + t) + c;
      assert [x[0]] + t == x;
    } else {
      assert x + y == y;
    }
  }

  /** A tag that differs from `close` at position `d` is copied through. */
  lemma CollapsePeelTag(t: string, y: string, close: string, open: string, rep: string, d: nat)
    requires close != [] && d < |t| && d < |close| && t[d] != close[d]
    requires close[0] !in t[1..]
    ensures Collapse(t + y, close, open, rep) == t + Collapse(y, close, open, rep)
  {
    forall p | 0 <= p < |t|
      ensures !StartsWith((t + y)[p..], close)
    {
      if p == 0 {
        assert (t + y)[0..][d] == t[d];
        NotStartsWith((t + y)[0..], close, d);
      } else {
        assert (t + y)[p..][0] == t[1..][p - 1];
        NotStartsWith((t + y)[p..], close, 0);
      }
    }
    CollapsePeelNoClose(t, y, close, open, rep);
  }

  /** The closing tag at the very end of the text is not followed by `open` and stays. */
  lemma CollapseCloseAtEnd(close: string, open: string, rep: string)
    requires close != [] && open != [] && close[0] !in close[1..]
    ensures Collapse(close, close, open, rep) == close
  {
    assert close[|close|..] == [];
    CollapseStep(close, close, open, rep);
    CollapsePeel(close[1..], [], close, open, rep);
    assert close[1..] + [] == close[1..];
  }

  /** A text without the closing tag is left alone. */
  lemma {:induction false} CollapseIdentity(s: string, close: string, open: string, rep: string)
    requires close != [] && close[0] !in s
    ensures Collapse(s, close, open, rep) == s
  {
    CollapsePeel(s, [], close, open, rep);
    assert s + [] == s;
    assert Collapse([], close, open, rep) == [];
  }

  lemma {:induction false} LeadingSpacesOf(ws: string, rest: string)
    requires AllSpace(ws) && (rest != [] ==> !IsSpace(rest[0]))
    ensures LeadingSpaces(ws + rest) == |ws|
    decreases |ws|
  {
    if ws != [] {
      assert (ws + rest)[1..] == ws[1..] + rest;
      LeadingSpacesOf(ws[1..], rest);
    } else {
      assert ws + rest == rest;
    }
  }

  /** A closing tag, a whitespace run and an opening tag that does not start with
      whitespace form one merge. */
  lemma MergeOf(close: string, ws: string, open: string, rest: string)
    requires AllSpace(ws) && open != [] && !IsSpace(open[0])
    ensures MergeAt(close + ws + open + rest, close, open)
    ensures MergeLen(close + ws + open + rest, close, open) == |close| + |ws| + |open|
    ensures (close + ws + open + rest)[|close| + |ws| + |open|..] == rest
  {
    var s := close + ws + open + rest;
    assert s[|close|..] == ws + (open + rest);
    LeadingSpacesOf(ws, open + rest);
    assert s[|close| + |ws|..] == open + rest;
  }

  /** Every merge is a closing tag, a whitespace run and an opening tag. */
  lemma MergeParts(s: string, close: string, open: string)
    requires MergeAt(s, close, open)
    ensures var n := MergeLen(s, close, open);
      var ws := s[|close|..n - |open|];
      AllSpace(ws) && s == close + ws + open + s[n..]
  {
    var w := LeadingSpaces(s[|close|..]);
    assert s[|close|..][..w] == s[|close|..|close| + w];
  }

  lemma NonSpaceAround(close: string, ws: string, open: string, rest: string)
    requires AllSpace(ws)
    ensures NonSpace(close + ws + open + rest) == NonSpace(close + open) + NonSpace(rest)
  {
    var a := close + ws;
    var b := a + open;
    assert close + ws + open + rest == b + rest;
    assert NonSpace(b + rest) == NonSpace(b) + NonSpace(rest) by {
      NonSpaceAppend(b, rest);
    }
    assert NonSpace(b) == NonSpace(a) + NonSpace(open) by {
      NonSpaceAppend(a, open);
    }
    assert NonSpace(a) == NonSpace(close) by {
      NonSpaceAppend(close, ws);
      NonSpaceOfSpace(ws);
    }
    assert NonSpace(close + open) == NonSpace(close) + NonSpace(open) by {
      NonSpaceAppend(close, open);
    }
  }

  lemma MergeKeepsTagsStep(s: string, close: string, open: string)
    requires close != [] && MergeAt(s, close, open)
    ensures NonSpace(s) == NonSpace(close + open) + NonSpace(s[MergeLen(s, close, open)..])
  {
    var n := MergeLen(s, close, open);
    var ws := s[|close|..n - |open|];
    MergeParts(s, close, open);
    NonSpaceAround(close, ws, open, s[n..]);
  }

  /** With `rep` equal to the two tags, a merge deletes only whitespace: the non-space
      characters, both tags included, come through in order. */
  lemma {:induction false} CollapseKeepsTags(s: string, close: string, open: string)
    requires close != []
    ensures NonSpace(Collapse(s, close, open, close + open)) == NonSpace(s)
    decreases |s|
  {
    var rep := close + open;
    if s != [] {
      if MergeAt(s, close, open) {
        var n := MergeLen(s, close, open);
        CollapseKeepsTags(s[n..], close, open);
        MergeKeepsTagsStep(s, close, open);
        NonSpaceAppend(rep, Collapse(s[n..], close, open, rep));
      } else {
        CollapseKeepsTags(s[1..], close, open);
        NonSpaceAppend([s[0]], Collapse(s[1..], close, open, rep));
        NonSpaceAppend([s[0]], s[1..]);
        assert [s[0]] + s[1..] == s;
      }
    }
  }

  const UlOpen := "<ul>"
  const UlClose := "</ul>"

  /** After the first closing tag comes another closing tag, so no merge starts there. */
  lemma NoMergeBeforeClose(rest: string)
    ensures !MergeAt(UlClose + (UlClose + rest), UlClose, UlOpen)
  {
    var s := UlClose + (UlClose + rest);
    assert s[..5] == UlClose;
    assert s[5..] == UlClose + rest;
    LeadingSpacesOf([], UlClose + rest);
    assert [] + (UlClose + rest) == UlClose + rest;
    NotStartsWith(UlClose + rest, UlOpen, 1);
  }

  lemma CollapseInnerPair()
    ensures Collapse(UlClose + UlOpen + UlOpen, UlClose, UlOpen, "") == UlOpen
  {
    var close, open := UlClose, UlOpen;
    MergeOf(close, [], open, open);
    var tail := close + open + open;
    assert close + [] + open + open == tail;
    assert tail[9..] == open;
    CollapsePeelTag(open, [], close, open, "", 1);
    assert open + [] == open;
  }

  lemma PairIsMerge()
    ensures MergeAt(UlClose + UlOpen, UlClose, UlOpen)
  {
    MergeOf(UlClose, [], UlOpen, []);
    assert UlClose + [] + UlOpen + [] == UlClose + UlOpen;
  }

  /** A closing tag followed by another closing tag is copied through. */
  lemma CloseBeforeClose(rest: string)
    ensures Collapse(UlClose + (UlClose + rest), UlClose, UlOpen, "")
         == UlClose + Collapse(UlClose + rest, UlClose, UlOpen, "")
  {
    NoMergeBeforeClose(rest);
    assert UlClose[0] !in UlClose[1..];
    CollapseTagThen(UlClose + rest, UlClose, UlOpen, "");
  }

  /** A closing tag that does not start a merge, and whose first character does not
      come back inside it, is copied through whole. */
  lemma CollapseTagThen(y: string, close: string, open: string, rep: string)
    requires close != [] && close[0] !in close[1..]
    requires !MergeAt(close + y, close, open)
    ensures Collapse(close + y, close, open, rep) == close + Collapse(y, close, open, rep)
  {
    var s, t := close + y, close[1..];
    var c := Collapse(y, close, open, rep);
    assert s[1..] == t + y && s[0] == close[0];
    assert Collapse(s, close, open, rep) == [close[0]] + Collapse(t + y, close, open, rep) by {
      CollapseStep(s, close, open, rep);
    }
    assert Collapse(t + y, close, open, rep) == t + c by {
      CollapsePeel(t, y, close, open, rep);
    }
    assert [close[0]] + (t + c) == ([close[0]] + t) + c;
    assert [close[0]] + close[1..] == close;
  }

  lemma CollapseNested()
    ensures Collapse(UlClose + UlClose + UlOpen + UlOpen, UlClose, UlOpen, "") == UlClose + UlOpen
  {
    var close, open := UlClose, UlOpen;
    CloseBeforeClose(open + open);
    CollapseInnerPair();
    assert close + (close + (open + open)) == close + close + open + open;
    assert close + (open + open) == close + open + open;
  }

  /** The merge that deletes `</ul>\s*<ul>` can leave a closing tag right before an
      opening one: in `</ul></ul><ul><ul>` the inner pair is deleted and the outer pair
      joins up into a new match. */
  lemma ListMergeLeavesBoundary()
    ensures MergeAt(Collapse(UlClose + UlClose + UlOpen + UlOpen, UlClose, UlOpen, ""), UlClose, UlOpen)
  {
    CollapseNested();
    PairIsMerge();
  }

  function TagOpen(tag: string): string { "<" + tag + ">" }
  function TagClose(tag: string): string { "</" + tag + ">" }

  predicate ListTag(tag: string) { tag == "ul" || tag == "ol" }

  function Li(c: string): string { "<li>" + c + "</li>" }

  /** The items glued together, as one list holds them. */
  function LiItems(cs: seq<string>): string
    decreases |cs|
  {
    if cs == [] then "" else Li(cs[0]) + LiItems(cs[1..])
  }

  /** The lines the list rules produce for items `cs`: one single-item list per line. */
  function ListLines(tag: string, cs: seq<string>): seq<string>
    decreases |cs|
  {
    if cs == [] then [] else [TagOpen(tag) + Li(cs[0]) + TagClose(tag)] + ListLines(tag, cs[1..])
  }

  /** `ListLines` joined on newlines, without its first opening tag. */
  function ListBody(tag: string, cs: seq<string>): string
    requires |cs| >= 1
    decreases |cs|
  {
    if |cs| == 1 then Li(cs[0]) + TagClose(tag)
    else Li(cs[0]) + TagClose(tag) + "\n" + TagOpen(tag) + ListBody(tag, cs[1..])
  }

  lemma {:induction false} UnlinesListLines(tag: string, cs: seq<string>)
    requires |cs| >= 1
    ensures Unlines(ListLines(tag, cs)) == TagOpen(tag) + ListBody(tag, cs)
    decreases |cs|
  {
    var ls := ListLines(tag, cs);
    assert ls[0] == TagOpen(tag) + Li(cs[0]) + TagClose(tag);
    if |cs| > 1 {
      assert ls[1..] == ListLines(tag, cs[1..]);
      UnlinesListLines(tag, cs[1..]);
    }
  }

  lemma ListTagFacts(tag: string)
    requires ListTag(tag)
    ensures var close, open := TagClose(tag), TagOpen(tag);
      && |close| == 5 && |open| == 4 && close[0] == '<' && close[1] == '/'
      && close[2] != 'l' && open[1] != '/' && !IsSpace(open[0])
      && '<' !in close[1..] && '<' !in open[1..]
  {
  }

  lemma LiOpenCopied(tag: string, x: string, rep: string)
    requires ListTag(tag)
    ensures Collapse("<li>" + x, TagClose(tag), TagOpen(tag), rep) == "<li>" + Collapse(x, TagClose(tag), TagOpen(tag), rep)
  {
    var close := TagClose(tag);
    ListTagFacts(tag);
    var liOpen := "<li>";
    assert liOpen[1] != close[1] && '<' !in liOpen[1..];
    CollapsePeelTag(liOpen, x, close, TagOpen(tag), rep, 1);
  }

  lemma LiCloseCopied(tag: string, y: string, rep: string)
    requires ListTag(tag)
    ensures Collapse("</li>" + y, TagClose(tag), TagOpen(tag), rep) == "</li>" + Collapse(y, TagClose(tag), TagOpen(tag), rep)
  {
    var close := TagClose(tag);
    ListTagFacts(tag);
    var liClose := "</li>";
    assert liClose[2] != close[2] && '<' !in liClose[1..];
    CollapsePeelTag(liClose, y, close, TagOpen(tag), rep, 2);
  }

  /** Text in front of `y` is copied through when no closing tag starts inside it. */
  lemma {:induction false} CollapsePeelNoClose(x: string, y: string, close: string, open: string, rep: string)
    requires close != []
    requires forall p | 0 <= p < |x| :: !StartsWith((x + y)[p..], close)
    ensures Collapse(x + y, close, open, rep) == x + Collapse(y, close, open, rep)
    decreases |x|
  {
    if x != [] {
      var t, c := x[1..], Collapse(y, close, open, rep);
      assert (x + y)[1..] == t + y;
      assert Collapse(x + y, close, open, rep) == [x[0]] + Collapse(t + y, close, open, rep) by {
        assert (x + y)[0..] == x + y;
        CollapseStep(x + y, close, open, rep);
      }
      assert Collapse(t + y, close, open, rep) == t + c by {
        forall p | 0 <= p < |t|
          ensures !StartsWith((t + y)[p..], close)
        {
          assert (t + y)[p..] == (x + y)[p + 1..];
        }
        CollapsePeelNoClose(t, y, close, open, rep);
      }
      assert [x[0]] + (t + c) == ([x[0]] + t) + c;
      assert [x[0]] + t == x;
    } else {
      assert x + y == y;
    }
  }

  /** A closing tag with no `<` after its first character cannot start inside text that
      does not contain it when what follows starts with `<`. */
  lemma NoCloseAcross(c: string, z: string, close: string)
    requires close != [] && '<' !in close[1..]
    requires !Contains(c, close) && z != [] && z[0] == '<'
    ensures forall p | 0 <= p < |c| :: !StartsWith((c + z)[p..], close)
  {
    forall p | 0 <= p < |c|
      ensures !StartsWith((c + z)[p..], close)
    {
      var u := (c + z)[p..];
      if p + |close| <= |c| {
        assert !OccursAt(c, close, p);
        assert u[..|close|] == c[p..p + |close|];
      } else if |close| <= |u| {
        var d := |c| - p;
        assert u[d] == z[0];
        assert close[d] == close[1..][d - 1];
        assert u[..|close|][d] != close[d];
      }
    }
  }

  /** Text without `<` contains no tag. */
  lemma NoLtNoTag(c: string, t: string)
    requires '<' !in c && t != [] && t[0] == '<'
    ensures !Contains(c, t)
  {
  }

  /** One list item without the list's closing tag is copied through by either list merge. */
  lemma CollapseLi(tag: string, c: string, y: string, rep: string)
    requires ListTag(tag) && !Contains(c, TagClose(tag))
    ensures Collapse(Li(c) + y, TagClose(tag), TagOpen(tag), rep) == Li(c) + Collapse(y, TagClose(tag), TagOpen(tag), rep)
  {
    var close, open := TagClose(tag), TagOpen(tag);
    ListTagFacts(tag);
    var tail := Collapse(y, close, open, rep);
    Regroup4("<li>", c, "</li>", y);
    Regroup4("<li>", c, "</li>", tail);
    LiOpenCopied(tag, c + ("</li>" + y), rep);
    NoCloseAcross(c, "</li>" + y, close);
    CollapsePeelNoClose(c, "</li>" + y, close, open, rep);
    LiCloseCopied(tag, y, rep);
  }

  /** A closing tag, whitespace and an opening tag are replaced together. */
  lemma CollapseAtMerge(close: string, ws: string, open: string, rest: string, rep: string)
    requires close != [] && AllSpace(ws) && open != [] && !IsSpace(open[0])
    ensures Collapse(close + ws + open + rest, close, open, rep) == rep + Collapse(rest, close, open, rep)
  {
    MergeOf(close, ws, open, rest);
  }

  lemma CollapseListBodyOne(tag: string, c: string)
    requires ListTag(tag) && !Contains(c, TagClose(tag))
    ensures Collapse(ListBody(tag, [c]), TagClose(tag), TagOpen(tag), "") == LiItems([c]) + TagClose(tag)
  {
    var close, open := TagClose(tag), TagOpen(tag);
    ListTagFacts(tag);
    CollapseLi(tag, c, close, "");
    CollapseCloseAtEnd(close, open, "");
    assert ListBody(tag, [c]) == Li(c) + close;
    assert LiItems([c]) == Li(c) by {
      assert [c][1..] == [];
    }
  }

  /** The newline between two single-item lists is one merge. */
  lemma MergeBetweenItems(tag: string, rest: string)
    requires ListTag(tag)
    ensures Collapse(TagClose(tag) + "\n" + TagOpen(tag) + rest, TagClose(tag), TagOpen(tag), "")
         == Collapse(rest, TagClose(tag), TagOpen(tag), "")
  {
    ListTagFacts(tag);
    var nl := "\n";
    assert AllSpace(nl);
    CollapseAtMerge(TagClose(tag), nl, TagOpen(tag), rest, "");
  }

  lemma CollapseListBodyStep(tag: string, c: string, rest: string)
    requires ListTag(tag) && !Contains(c, TagClose(tag))
    ensures Collapse(Li(c) + TagClose(tag) + "\n" + TagOpen(tag) + rest, TagClose(tag), TagOpen(tag), "")
         == Li(c) + Collapse(rest, TagClose(tag), TagOpen(tag), "")
  {
    var close, open := TagClose(tag), TagOpen(tag);
    var after := close + "\n" + open + rest;
    Regroup5(Li(c), close, "\n", open, rest);
    CollapseLi(tag, c, after, "");
    MergeBetweenItems(tag, rest);
  }


  lemma {:induction false} CollapseListBody(tag: string, cs: seq<string>)
    requires ListTag(tag) && |cs| >= 1
    requires forall k | 0 <= k < |cs| :: !Contains(cs[k], TagClose(tag))
    ensures Collapse(ListBody(tag, cs), TagClose(tag), TagOpen(tag), "") == LiItems(cs) + TagClose(tag)
    decreases |cs|
  {
    var close, open := TagClose(tag), TagOpen(tag);
    assert !Contains(cs[0], close);
    if |cs| == 1 {
      assert cs == [cs[0]];
      CollapseListBodyOne(tag, cs[0]);
    } else {
      var rest := cs[1..];
      assert forall k | 0 <= k < |rest| :: !Contains(rest[k], close) by {
        forall k | 0 <= k < |rest|
          ensures !Contains(rest[k], close)
        {
          assert rest[k] == cs[k + 1];
        }
      }
      var tail := Collapse(ListBody(tag, rest), close, open, "");
      assert Collapse(ListBody(tag, cs), close, open, "") == Li(cs[0]) + tail by {
        CollapseListBodyStep(tag, cs[0], ListBody(tag, rest));
      }
      assert tail == LiItems(rest) + close by {
        CollapseListBody(tag, rest);
      }
      assert LiItems(cs) == Li(cs[0]) + LiItems(rest);
    }
  }

  /** Consecutive list-rule lines merge into one list holding all the items, provided
      no item contains the list's own closing tag (other markup, such as `<strong>`, is
      allowed). */
  lemma ListMerge(tag: string, cs: seq<string>)
    requires ListTag(tag) && |cs| >= 1
    requires forall k | 0 <= k < |cs| :: !Contains(cs[k], TagClose(tag))
    ensures Collapse(Unlines(ListLines(tag, cs)), TagClose(tag), TagOpen(tag), "")
         == TagOpen(tag) + LiItems(cs) + TagClose(tag)
  {
    UnlinesListLines(tag, cs);
    ListTagFacts(tag);
    CollapsePeelTag(TagOpen(tag), ListBody(tag, cs), TagClose(tag), TagOpen(tag), "", 1);
    CollapseListBody(tag, cs);
  }
}
