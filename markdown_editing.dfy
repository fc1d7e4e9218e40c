/** The editing helpers of the editor page: the live word and character counts, and
    the toolbar's `insertMarkdown`, which wraps the selection of the text area in a
    prefix and a suffix and then selects the wrapped text again. */
module MarkdownEditing {
  import opened Options
  import opened Text
  import opened Lists

  // ---------------------------------------------------------------------------
  // Counting

  /** The characters the counter drops as markdown syntax: `#`, `*`, backtick, `_`, `~`. */
  predicate IsSyntax(c: char) {
    c == '#' || c == '*' || c == '`' || c == '_' || c == '~'
  }

  predicate NotSyntax(c: char) {
    !IsSyntax(c)
  }

  /** `markdown.replace(/[#*`_~]/g, '')`: every other character stays, and no syntax
      character is left. */
  function StripSyntax(s: string): (r: string)
    ensures forall c | c in r :: !IsSyntax(c)
    ensures forall c | c in s && !IsSyntax(c) :: c in r
    ensures IsSubsequence(r, s)
  {
    FilterIsSubsequence(s, NotSyntax);
    Filter(s, NotSyntax)
  }

  function CountSyntax(s: string): nat
    decreases |s|
  {
    if s == [] then 0 else (if IsSyntax(s[0]) then 1 else 0) + CountSyntax(s[1..])
  }

  /** `charCount`: the length of the text once the syntax characters are gone, which is
      the length minus the number of syntax characters. */
  function CharCount(markdown: string): (n: nat)
    ensures n == |markdown| - CountSyntax(markdown)
  {
    StripSyntaxLength(markdown);
    |StripSyntax(markdown)|
  }

  lemma {:induction false} StripSyntaxLength(s: string)
    ensures |StripSyntax(s)| + CountSyntax(s) == |s|
    decreases |s|
  {
    if s != [] {
      StripSyntaxLength(s[1..]);
    }
  }

  /** The pieces of `t` between whitespace characters, empty pieces included. */
  function SpacePieces(t: string): (r: seq<string>)
    ensures |r| >= 1
    decreases |t|
  {
    if t == [] then [""]
    else
      var rest := SpacePieces(t[1..]);
      if IsSpace(t[0]) then [""] + rest else [[t[0]] + rest[0]] + rest[1..]
  }

  predicate NonEmpty(w: string) {
    w != []
  }

  /** `t.split(/\s+/).filter(word => word.length > 0)`. */
  function Words(t: string): seq<string> {
    Filter(SpacePieces(t), NonEmpty)
  }

  /** `wordCount`. */
  function WordCount(markdown: string): nat {
    |Words(Trim(StripSyntax(markdown)))|
  }

  /** The number of word beginnings in `t`: characters other than whitespace that come
      first or right after whitespace; `afterSpace` says whether `t` is itself preceded
      by whitespace or by nothing. */
  function WordStarts(t: string, afterSpace: bool): nat
    decreases |t|
  {
    if t == [] then 0
    else (if afterSpace && !IsSpace(t[0]) then 1 else 0) + WordStarts(t[1..], IsSpace(t[0]))
  }

  lemma FilterCons<T(!new)>(x: T, xs: seq<T>, f: T -> bool)
    ensures Filter([x] + xs, f) == (if f(x) then [x] else []) + Filter(xs, f)
  {
    assert ([x] + xs)[1..] == xs;
  }

  lemma FirstPiece(t: string)
    ensures SpacePieces(t)[0] != [] <==> t != [] && !IsSpace(t[0])
  {
  }

  /** Splitting on whitespace and dropping the empty pieces leaves one word per word
      beginning. */
  lemma {:induction false} WordsAreRuns(t: string)
    ensures |Words(t)| == WordStarts(t, true)
    decreases |t|
  {
    if t != [] {
      var rest := t[1..];
      var r := SpacePieces(rest);
      WordsAreRuns(rest);
      assert r == [r[0]] + r[1..];
      FilterCons(r[0], r[1..], NonEmpty);
      FirstPiece(rest);
      if IsSpace(t[0]) {
        FilterCons("", r, NonEmpty);
      } else {
        FilterCons([t[0]] + r[0], r[1..], NonEmpty);
      }
    }
  }

  lemma {:induction false} WordStartsOfSpace(t: string, afterSpace: bool)
    requires AllSpace(t)
    ensures WordStarts(t, afterSpace) == 0
    decreases |t|
  {
    if t != [] {
      WordStartsOfSpace(t[1..], true);
    }
  }

  /** Counting word beginnings splits at any point, the second part knowing whether the
      first ended in whitespace. */
  lemma {:induction false} WordStartsAppend(a: string, b: string, afterSpace: bool)
    ensures WordStarts(a + b, afterSpace)
         == WordStarts(a, afterSpace) + WordStarts(b, if a == [] then afterSpace else IsSpace(a[|a| - 1]))
    decreases |a|
  {
    if a == [] {
      assert a + b == b;
    } else {
      assert (a + b)[1..] == a[1..] + b;
      WordStartsAppend(a[1..], b, IsSpace(a[0]));
    }
  }

  /** Trimming removes no word. */
  lemma WordStartsTrim(s: string)
    ensures WordStarts(Trim(s), true) == WordStarts(s, true)
  {
    if AllSpace(s) {
      WordStartsOfSpace(s, true);
    } else {
      TrimBounds(s);
      var l, e := LeadingSpaces(s), TrailingStart(s);
      var lead, mid, trail := s[..l], s[l..e], s[e..];
      assert s == lead + mid + trail;
      WordStartsAppend(lead + mid, trail, true);
      WordStartsAppend(lead, mid, true);
      WordStartsOfSpace(lead, true);
      WordStartsOfSpace(trail, IsSpace(s[e - 1]));
      assert lead != [] ==> IsSpace(lead[|lead| - 1]);
      assert lead + mid != [];
    }
  }

  /** The word count is the number of maximal runs of non-whitespace characters in the
      text without its syntax characters; a blank text has none. */
  lemma WordCountSpec(markdown: string)
    ensures WordCount(markdown) == WordStarts(StripSyntax(markdown), true)
    ensures AllSpace(StripSyntax(markdown)) ==> WordCount(markdown) == 0
  {
    var t := StripSyntax(markdown);
    WordsAreRuns(Trim(t));
    WordStartsTrim(t);
    if AllSpace(t) {
      WordStartsOfSpace(t, true);
    }
  }

  // ---------------------------------------------------------------------------
  // Inserting markdown around the selection

  /** A position clamped to the length of the text. */
  function Clamp(i: nat, n: nat): (r: nat)
    ensures r <= n && (i <= n ==> r == i)
  {
    if i <= n then i else n
  }

  /** `s.substring(a, b)`: both ends clamped to the length, then taken in order. */
  function Substring(s: string, a: nat, b: nat): (r: string)
    ensures a <= b <= |s| ==> r == s[a..b]
    ensures |r| <= |s|
  {
    var x, y := Clamp(a, |s|), Clamp(b, |s|);
    if x <= y then s[x..y] else s[y..x]
  }

  /** The new text and the selection the toolbar restores after it. */
  datatype Edit = Edit(text: string, selectionStart: nat, selectionEnd: nat)

  /** `insertMarkdown(prefix, suffix)` on the text area holding `markdown` with the
      selection `[start, end)`; nothing happens when there is no text area. */
  function InsertMarkdown(markdown: string, hasEditor: bool, start: nat, end: nat, prefix: string, suffix: string): (r: Option<Edit>)
    ensures r.None? <==> !hasEditor
  {
    if !hasEditor then None
    else
      var selected := Substring(markdown, start, end);
      var before := Substring(markdown, 0, start);
      var after := Substring(markdown, end, |markdown|);
      Some(Edit(before + prefix + selected + suffix + after, start + |prefix|, start + |prefix| + |selected|))
  }

  /** On a selection inside the text the result is the text before the selection, the
      prefix, the selected text, the suffix and the text after, so the text grows by the
      two markers. */
  lemma InsertMarkdownText(markdown: string, start: nat, end: nat, prefix: string, suffix: string)
    requires start <= end <= |markdown|
    ensures var r := InsertMarkdown(markdown, true, start, end, prefix, suffix).value;
      && r.text == markdown[..start] + prefix + markdown[start..end] + suffix + markdown[end..]
      && |r.text| == |markdown| + |prefix| + |suffix|
  {
  }

  /** The restored selection spans exactly the old selected text, and the text before the
      old selection and after it is unchanged. */
  lemma InsertMarkdownSelection(markdown: string, start: nat, end: nat, prefix: string, suffix: string)
    requires start <= end <= |markdown|
    ensures var r := InsertMarkdown(markdown, true, start, end, prefix, suffix).value;
      && r.selectionStart <= r.selectionEnd <= |r.text|
      && r.text[r.selectionStart..r.selectionEnd] == markdown[start..end]
      && r.text[..start] == markdown[..start]
      && r.text[r.selectionEnd + |suffix|..] == markdown[end..]
  {
    InsertMarkdownText(markdown, start, end, prefix, suffix);
    SplicedParts(markdown[..start], prefix, markdown[start..end], suffix, markdown[end..]);
  }

  lemma SplicedParts(a: string, p: string, m: string, q: string, b: string)
    ensures var t := a + p + m + q + b;
      && t[..|a|] == a
      && t[|a| + |p|..|a| + |p| + |m|] == m
      && t[|a| + |p| + |m| + |q|..] == b
  {
    var t := a + p + m + q + b;
    assert t == a + (p + (m + (q + b)));
  }
}
