/** The preview renderer of the editor page: the substitutions applied one after the
    other to the whole text, with the table pass between the list merges and the
    paragraph rules. */
module MarkdownRender {
  import opened Text
  import opened MarkdownRules
  import opened MarkdownTables

  const OlOpen := "<ol>"
  const OlClose := "</ol>"
  const POpen := "<p>"
  const PClose := "</p>"

  /** The inline rules in their order: bold, italic, link, image. */
  function Inline(s: string): string {
    ImageRule(LinkRule(ReplaceSpans(ReplaceSpans(s, "**", "<strong>", "</strong>"), "*", "<em>", "</em>")))
  }

  /** The quote and list-item line rules, then the two list merges. */
  function Blocks(s: string): string {
    var lists := MapLines(MapLines(MapLines(s, QuoteLine), BulletLine), NumberedLine);
    Collapse(Collapse(lists, UlClose, UlOpen, ""), OlClose, OlOpen, "")
  }

  /** The paragraph rule, then the paragraph merge, which keeps both tags. */
  function Paragraphs(s: string): string {
    Collapse(MapLines(s, ParagraphLine), PClose, POpen, PClose + POpen)
  }

  /** `renderMarkdown` as one function of its input. */
  function Render(s: string): string {
    Paragraphs(TablesPass(Blocks(Inline(Headings(s)))))
  }

  /** `renderMarkdown`: `text` is reassigned by each substitution in turn. */
  method RenderMarkdown(markdown: string) returns (text: string)
    ensures text == Render(markdown)
  {
    text := markdown;
    text := MapLines(text, H3Line);
    text := MapLines(text, H2Line);
    text := MapLines(text, H1Line);
    text := ReplaceSpans(text, "**", "<strong>", "</strong>");
    text := ReplaceSpans(text, "*", "<em>", "</em>");
    text := LinkRule(text);
    text := ImageRule(text);
    text := MapLines(text, QuoteLine);
    text := MapLines(text, BulletLine);
    text := MapLines(text, NumberedLine);
    text := Collapse(text, UlClose, UlOpen, "");
    text := Collapse(text, OlClose, OlOpen, "");
    text := RenderTables(text);
    text := MapLines(text, ParagraphLine);
    text := Collapse(text, PClose, POpen, PClose + POpen);
  }

  // ---------------------------------------------------------------------------
  // Stages that leave a text alone

  /** Text free of the characters the rules react to inside a line: no newline, no
      star, no closing bracket, no pipe and no `<`. */
  predicate Plain(c: string) {
    '\n' !in c && '*' !in c && ']' !in c && '|' !in c && '<' !in c
  }

  /** Without a closing bracket neither the link rule nor the image rule matches. */
  lemma NoBracketNoLink(s: string)
    requires ']' !in s
    ensures LinkRule(s) == s && ImageRule(s) == s
  {
    forall i: nat
      ensures !LinkAt(s, i)
    {
      if i + 1 < |s| {
        assert s[|s| - 1] in s;
      }
    }
    assert forall i: nat :: !ImageAt(s, i);
  }

  lemma InlinePlain(s: string)
    requires '*' !in s && ']' !in s
    ensures Inline(s) == s
  {
    SpansIdentity(s, "**", "<strong>", "</strong>");
    SpansIdentity(s, "*", "<em>", "</em>");
    NoBracketNoLink(s);
  }

  /** The heading rules on a text of one line. */
  lemma HeadingsSingle(l: string)
    requires '\n' !in l
    ensures Headings(l) == HeadingLine(l)
  {
    LinesSingle(l);
    HeadingsLines(l);
    UnlinesLines(Headings(l));
  }

  /** The heading rules leave alone a text none of whose lines is a heading. */
  lemma HeadingsIdentity(s: string)
    requires forall k | 0 <= k < |Lines(s)| :: HeadingLine(Lines(s)[k]) == Lines(s)[k]
    ensures Headings(s) == s
  {
    var h := Headings(s);
    HeadingsLines(s);
    assert Lines(h) == Lines(s);
    UnlinesLines(h);
    UnlinesLines(s);
  }

  /** `<t>c</t>`. */
  function Element(t: string, c: string): string {
    TagOpen(t) + c + TagClose(t)
  }

  /** `x` is copied through by the merge whatever follows it. */
  ghost predicate Passes(x: string, close: string, open: string, rep: string)
    requires close != []
  {
    forall y: string :: Collapse(x + y, close, open, rep) == x + Collapse(y, close, open, rep)
  }

  lemma PassesTag(t: string, close: string, open: string, rep: string, d: nat)
    requires close != [] && d < |t| && d < |close| && t[d] != close[d]
    requires close[0] !in t[1..]
    ensures Passes(t, close, open, rep)
  {
    forall y: string
      ensures Collapse(t + y, close, open, rep) == t + Collapse(y, close, open, rep)
    {
      CollapsePeelTag(t, y, close, open, rep, d);
    }
  }

  lemma PassesText(c: string, close: string, open: string, rep: string)
    requires close != [] && close[0] !in c
    ensures Passes(c, close, open, rep)
  {
    forall y: string
      ensures Collapse(c + y, close, open, rep) == c + Collapse(y, close, open, rep)
    {
      CollapsePeel(c, y, close, open, rep);
    }
  }

  lemma PassesConcat(a: string, b: string, close: string, open: string, rep: string)
    requires close != [] && Passes(a, close, open, rep) && Passes(b, close, open, rep)
    ensures Passes(a + b, close, open, rep)
  {
    forall y: string
      ensures Collapse(a + b + y, close, open, rep) == a + b + Collapse(y, close, open, rep)
    {
      assert a + b + y == a + (b + y);
      assert Collapse(a + (b + y), close, open, rep) == a + Collapse(b + y, close, open, rep);
    }
  }

  lemma PassesWhole(x: string, close: string, open: string, rep: string)
    requires close != [] && Passes(x, close, open, rep)
    ensures Collapse(x, close, open, rep) == x
  {
    assert Collapse(x + [], close, open, rep) == x + Collapse([], close, open, rep);
    assert x + [] == x;
  }

  /** A closing tag of the form `</..`, as all three merges use. */
  predicate EndTag(close: string) {
    |close| >= 3 && close[0] == '<' && close[1] == '/'
  }

  /** An element whose tag differs from the merge's closing tag in its first letter is
      copied through. */
  lemma PassesElement(t: string, c: string, close: string, open: string, rep: string)
    requires EndTag(close)
    requires t != [] && t[0] != '/' && t[0] != close[2] && '<' !in t && '<' !in c
    ensures Passes(Element(t, c), close, open, rep)
  {
    var o, e := TagOpen(t), TagClose(t);
    assert o[1] == t[0] && o[1..] == t + ">";
    assert e[2] == t[0] && e[1..] == "/" + t + ">";
    PassesTag(o, close, open, rep, 1);
    PassesText(c, close, open, rep);
    PassesTag(e, close, open, rep, 2);
    PassesConcat(o, c, close, open, rep);
    PassesConcat(o + c, e, close, open, rep);
  }

  lemma CollapseElement(t: string, c: string, close: string, open: string, rep: string)
    requires EndTag(close)
    requires t != [] && t[0] != '/' && t[0] != close[2] && '<' !in t && '<' !in c
    ensures Collapse(Element(t, c), close, open, rep) == Element(t, c)
  {
    PassesElement(t, c, close, open, rep);
    PassesWhole(Element(t, c), close, open, rep);
  }

  /** A tag that no rule after the headings reacts to: it starts with a lower-case
      letter other than the first letters of `ul`, `ol` and `p`. */
  predicate QuietTag(t: string) {
    t != [] && IsLowerLetter(t[0]) && t[0] != 'u' && t[0] != 'o' && t[0] != 'p' && Plain(t)
  }

  lemma ElementFacts(t: string, c: string)
    requires QuietTag(t) && Plain(c)
    ensures var x := Element(t, c);
      |x| >= 2 && x[0] == '<' && x[1] == t[0]
      && '*' !in x && ']' !in x && '|' !in x && '\n' !in x
  {
    var x := Element(t, c);
    assert x == "<" + t + ">" + c + "</" + t + ">";
  }

  lemma InlineOfElement(t: string, c: string)
    requires QuietTag(t) && Plain(c)
    ensures Inline(Element(t, c)) == Element(t, c)
  {
    ElementFacts(t, c);
    InlinePlain(Element(t, c));
  }

  lemma LineRulesOfElement(t: string, c: string)
    requires QuietTag(t) && Plain(c)
    ensures MapLines(MapLines(MapLines(Element(t, c), QuoteLine), BulletLine), NumberedLine) == Element(t, c)
  {
    var x := Element(t, c);
    ElementFacts(t, c);
    MapLinesSingle(x, QuoteLine);
    MapLinesSingle(x, BulletLine);
    MapLinesSingle(x, NumberedLine);
  }

  lemma BlocksOfElement(t: string, c: string)
    requires QuietTag(t) && Plain(c)
    ensures Blocks(Element(t, c)) == Element(t, c)
  {
    LineRulesOfElement(t, c);
    CollapseElement(t, c, UlClose, UlOpen, "");
    CollapseElement(t, c, OlClose, OlOpen, "");
  }

  /** The table pass is skipped on a text without a pipe. */
  lemma NoPipeNoTable(s: string)
    requires '|' !in s
    ensures TablesPass(s) == s
  {
  }

  /** A one-line text the paragraph rule exempts and the merge copies is left alone. */
  lemma ParagraphsOfLine(x: string)
    requires '\n' !in x && ParagraphExempt(x)
    requires Collapse(x, PClose, POpen, PClose + POpen) == x
    ensures Paragraphs(x) == x
  {
    MapLinesSingle(x, ParagraphLine);
  }

  lemma ParagraphsOfElement(t: string, c: string)
    requires QuietTag(t) && Plain(c)
    ensures Paragraphs(Element(t, c)) == Element(t, c)
  {
    ElementFacts(t, c);
    CollapseElement(t, c, PClose, POpen, PClose + POpen);
    ParagraphsOfLine(Element(t, c));
  }

  /** An element with a quiet tag survives everything after the heading rules. */
  lemma RestOfElement(t: string, c: string)
    requires QuietTag(t) && Plain(c)
    ensures Paragraphs(TablesPass(Blocks(Inline(Element(t, c))))) == Element(t, c)
  {
    InlineOfElement(t, c);
    BlocksOfElement(t, c);
    ElementFacts(t, c);
    ParagraphsOfElement(t, c);
  }

  // ---------------------------------------------------------------------------
  // Whole documents

  /** The heading prefixes and the tags the rules give them. */
  predicate HeadingPrefix(prefix: string, t: string) {
    (prefix == "# " && t == "h1") || (prefix == "## " && t == "h2") || (prefix == "### " && t == "h3")
  }

  lemma HeadingTags(t: string)
    requires t == "h1" || t == "h2" || t == "h3"
    ensures TagOpen(t) == "<" + t + ">" && TagClose(t) == "</" + t + ">"
    ensures t == "h1" ==> TagOpen(t) == "<h1>" && TagClose(t) == "</h1>"
    ensures t == "h2" ==> TagOpen(t) == "<h2>" && TagClose(t) == "</h2>"
    ensures t == "h3" ==> TagOpen(t) == "<h3>" && TagClose(t) == "</h3>"
  {
  }

  lemma OlTags()
    ensures TagOpen("ol") == OlOpen && TagClose("ol") == OlClose
  {
  }

  /** Exactly one heading rule matches a heading line: the one of its own level. */
  lemma HeadingLineOf(prefix: string, t: string, c: string)
    requires HeadingPrefix(prefix, t)
    ensures HeadingLine(prefix + c) == Element(t, c)
  {
    var l := prefix + c;
    assert l[..|prefix|] == prefix && l[|prefix|..] == c;
    HeadingLineCases(l);
    if prefix == "# " {
      NotStartsWith(l, "### ", 1);
      NotStartsWith(l, "## ", 1);
      HeadingTags(t);
    } else if prefix == "## " {
      NotStartsWith(l, "### ", 2);
      HeadingTags(t);
    } else {
      HeadingTags(t);
    }
  }

  /** A heading line of level one, two or three renders as that heading alone. */
  lemma RenderHeading(prefix: string, t: string, c: string)
    requires HeadingPrefix(prefix, t)
    requires Plain(c)
    ensures Render(prefix + c) == Element(t, c)
  {
    assert '\n' !in prefix + c;
    HeadingsSingle(prefix + c);
    HeadingLineOf(prefix, t, c);
    assert QuietTag(t);
    RestOfElement(t, c);
  }

  /** A level-four heading matches no heading rule and is rendered as a paragraph. */
  lemma RenderLevelFourHeading(c: string)
    requires Plain(c)
    ensures Render("#### " + c) == POpen + "#### " + c + PClose
  {
    var l := "#### " + c;
    assert Render(l) == POpen + l + PClose by {
      LevelFourLine(c);
      RenderParagraph(l);
    }
    InnerAssoc(POpen, "#### ", c, PClose);
  }

  lemma InnerAssoc(a: string, b: string, c: string, d: string)
    ensures a + (b + c) + d == a + b + c + d
  {
  }

  lemma LevelFourLine(c: string)
    requires Plain(c)
    ensures var l := "#### " + c;
      Plain(l) && !AllSpace(l) && HeadingLine(l) == l && !StartsWith(l, "> ") && !NumberedPrefix(l)
  {
    var l := "#### " + c;
    assert l[0] == '#' && l[1] == '#' && l[2] == '#' && l[3] == '#';
    NotStartsWith(l, "### ", 3);
    NotStartsWith(l, "## ", 2);
    NotStartsWith(l, "# ", 1);
    NotStartsWith(l, "> ", 0);
    HeadingLineCases(l);
  }

  /** The paragraph merge on one paragraph. */
  lemma CollapseParagraph(c: string)
    requires '<' !in c
    ensures Collapse(POpen + c + PClose, PClose, POpen, PClose + POpen) == POpen + c + PClose
  {
    var rep := PClose + POpen;
    assert POpen + c + PClose == POpen + (c + PClose);
    assert '<' !in POpen[1..];
    CollapsePeelTag(POpen, c + PClose, PClose, POpen, rep, 1);
    CollapsePeel(c, PClose, PClose, POpen, rep);
    CollapseCloseAtEnd(PClose, POpen, rep);
  }

  lemma BlocksOfPlain(c: string)
    requires Plain(c) && c != []
    requires !StartsWith(c, "> ") && !NumberedPrefix(c)
    ensures Blocks(c) == c
  {
    assert !StartsWith(c, "* ") by {
      assert c[0] in c;
    }
    MapLinesSingle(c, QuoteLine);
    MapLinesSingle(c, BulletLine);
    MapLinesSingle(c, NumberedLine);
    CollapseIdentity(c, UlClose, UlOpen, "");
    CollapseIdentity(c, OlClose, OlOpen, "");
  }

  lemma ParagraphsOfPlain(c: string)
    requires Plain(c) && !AllSpace(c)
    ensures Paragraphs(c) == POpen + c + PClose
  {
    MapLinesSingle(c, ParagraphLine);
    CollapseParagraph(c);
  }

  /** Plain text on one line that no other rule claims becomes one paragraph. */
  lemma RenderParagraph(c: string)
    requires Plain(c) && !AllSpace(c)
    requires HeadingLine(c) == c && !StartsWith(c, "> ") && !NumberedPrefix(c)
    ensures Render(c) == POpen + c + PClose
  {
    HeadingsSingle(c);
    InlinePlain(c);
    BlocksOfPlain(c);
    ParagraphsOfPlain(c);
  }

  // ---------------------------------------------------------------------------
  // An ordered list

  /** The source line of one numbered item: a digit, a dot, a space, the item. */
  function NumberedItem(d: char, c: string): string {
    [d] + ". " + c
  }

  /** The source lines of an ordered list: digit `ds[k]` before item `cs[k]`. */
  function NumberedSource(ds: seq<char>, cs: seq<string>): seq<string>
    requires |ds| == |cs|
  {
    seq(|cs|, k requires 0 <= k < |cs| => NumberedItem(ds[k], cs[k]))
  }

  lemma {:induction false} ListLinesLength(tag: string, cs: seq<string>)
    ensures |ListLines(tag, cs)| == |cs|
    decreases |cs|
  {
    if cs != [] {
      ListLinesLength(tag, cs[1..]);
    }
  }

  lemma {:induction false} ListLinesAt(tag: string, cs: seq<string>, k: nat)
    requires k < |cs|
    ensures |ListLines(tag, cs)| == |cs|
    ensures ListLines(tag, cs)[k] == TagOpen(tag) + Li(cs[k]) + TagClose(tag)
    decreases k
  {
    ListLinesLength(tag, cs);
    if k > 0 {
      ListLinesAt(tag, cs[1..], k - 1);
    }
  }

  lemma NumberedLineOf(d: char, c: string)
    requires IsDigit(d) && '\n' !in c
    ensures '\n' !in NumberedItem(d, c)
    ensures NumberedLine(NumberedItem(d, c)) == TagOpen("ol") + Li(c) + TagClose("ol")
  {
    var l := NumberedItem(d, c);
    assert NumberedPrefix(l);
    assert l[3..] == c;
  }

  /** The numbered-item rule turns the source lines into one single-item list each. */
  lemma NumberedLines(ds: seq<char>, cs: seq<string>)
    requires |ds| == |cs| >= 1
    requires forall k | 0 <= k < |cs| :: IsDigit(ds[k]) && '\n' !in cs[k]
    ensures MapLines(Unlines(NumberedSource(ds, cs)), NumberedLine) == Unlines(ListLines("ol", cs))
  {
    var ls := NumberedSource(ds, cs);
    var s := Unlines(ls);
    var m := MapLines(s, NumberedLine);
    ListLinesLength("ol", cs);
    forall k | 0 <= k < |cs|
      ensures '\n' !in ls[k] && '\n' !in NumberedLine(ls[k])
      ensures NumberedLine(ls[k]) == ListLines("ol", cs)[k]
    {
      ListLinesAt("ol", cs, k);
      NumberedLineOf(ds[k], cs[k]);
    }
    LinesUnlines(ls);
    MapLinesLines(s, NumberedLine);
    assert Lines(m) == ListLines("ol", cs);
    UnlinesLines(m);
  }

  /** No rule before the numbered-item rule matches a numbered line. */
  lemma NumberedItemQuiet(d: char, c: string)
    requires IsDigit(d) && Plain(c)
    ensures var l := NumberedItem(d, c);
      && HeadingLine(l) == l && QuoteLine(l) == l && BulletLine(l) == l
      && '*' !in l && ']' !in l && '\n' !in l
  {
    var l := NumberedItem(d, c);
    assert l[0] == d;
    assert HeadingLine(l) == l by {
      HeadingLineCases(l);
      NotStartsWith(l, "### ", 0);
      NotStartsWith(l, "## ", 0);
      NotStartsWith(l, "# ", 0);
    }
    assert !StartsWith(l, "> ") && !StartsWith(l, "* ") by {
      NotStartsWith(l, "> ", 0);
      NotStartsWith(l, "* ", 0);
    }
    assert l == [d] + (". " + c);
  }

  lemma NumberedSourceLines(ds: seq<char>, cs: seq<string>)
    requires |ds| == |cs| >= 1
    requires forall k | 0 <= k < |cs| :: IsDigit(ds[k]) && Plain(cs[k])
    ensures var ls := NumberedSource(ds, cs);
      && Lines(Unlines(ls)) == ls
      && (forall k | 0 <= k < |ls| :: HeadingLine(ls[k]) == ls[k] && QuoteLine(ls[k]) == ls[k] && BulletLine(ls[k]) == ls[k])
      && '*' !in Unlines(ls) && ']' !in Unlines(ls)
  {
    var ls := NumberedSource(ds, cs);
    forall k | 0 <= k < |ls|
      ensures HeadingLine(ls[k]) == ls[k] && QuoteLine(ls[k]) == ls[k] && BulletLine(ls[k]) == ls[k]
      ensures '*' !in ls[k] && ']' !in ls[k] && '\n' !in ls[k]
    {
      NumberedItemQuiet(ds[k], cs[k]);
    }
    LinesUnlines(ls);
    JoinNoChar(ls, "\n", '*');
    JoinNoChar(ls, "\n", ']');
  }

  /** No line rule before the numbered-item rule touches the source lines. */
  lemma NumberedSourceQuiet(ds: seq<char>, cs: seq<string>)
    requires |ds| == |cs| >= 1
    requires forall k | 0 <= k < |cs| :: IsDigit(ds[k]) && Plain(cs[k])
    ensures var s := Unlines(NumberedSource(ds, cs));
      MapLines(MapLines(Inline(Headings(s)), QuoteLine), BulletLine) == s
  {
    var s := Unlines(NumberedSource(ds, cs));
    NumberedSourceLines(ds, cs);
    HeadingsIdentity(s);
    InlinePlain(s);
    MapLinesIdentity(s, QuoteLine);
    MapLinesIdentity(s, BulletLine);
  }

  lemma PassesLi(c: string, close: string, open: string, rep: string)
    requires EndTag(close) && close[2] != 'l' && '<' !in c
    ensures Passes(Li(c), close, open, rep)
  {
    assert Li(c) == Element("li", c);
    PassesElement("li", c, close, open, rep);
  }

  /** The bullet-list merge copies the body of an ordered list through. */
  lemma {:induction false} PassesOrderedBody(cs: seq<string>)
    requires |cs| >= 1
    requires forall k | 0 <= k < |cs| :: '<' !in cs[k]
    ensures Passes(ListBody("ol", cs), UlClose, UlOpen, "")
    decreases |cs|
  {
    var close, open := UlClose, UlOpen;
    var oc, oo := TagClose("ol"), TagOpen("ol");
    var item := Li(cs[0]) + oc;
    PassesLi(cs[0], close, open, "");
    PassesTag(oc, close, open, "", 2);
    PassesConcat(Li(cs[0]), oc, close, open, "");
    if |cs| > 1 {
      PassesOrderedBody(cs[1..]);
      PassesText("\n", close, open, "");
      PassesTag(oo, close, open, "", 1);
      PassesConcat(item, "\n", close, open, "");
      PassesConcat(item + "\n", oo, close, open, "");
      PassesConcat(item + "\n" + oo, ListBody("ol", cs[1..]), close, open, "");
    }
  }

  lemma PassesOrderedLines(cs: seq<string>)
    requires |cs| >= 1
    requires forall k | 0 <= k < |cs| :: '<' !in cs[k]
    ensures Passes(TagOpen("ol") + ListBody("ol", cs), UlClose, UlOpen, "")
  {
    var oo := TagOpen("ol");
    PassesTag(oo, UlClose, UlOpen, "", 1);
    PassesOrderedBody(cs);
    PassesConcat(oo, ListBody("ol", cs), UlClose, UlOpen, "");
  }

  lemma BulletMergeSkipsOrdered(cs: seq<string>)
    requires |cs| >= 1
    requires forall k | 0 <= k < |cs| :: '<' !in cs[k]
    ensures Collapse(Unlines(ListLines("ol", cs)), UlClose, UlOpen, "") == Unlines(ListLines("ol", cs))
  {
    UnlinesListLines("ol", cs);
    PassesOrderedLines(cs);
    PassesWhole(TagOpen("ol") + ListBody("ol", cs), UlClose, UlOpen, "");
  }

  lemma {:induction false} LiItemsNoChar(cs: seq<string>, ch: char)
    requires ch !in "<li></li>"
    requires forall k | 0 <= k < |cs| :: ch !in cs[k]
    ensures ch !in LiItems(cs)
    decreases |cs|
  {
    if cs != [] {
      LiItemsNoChar(cs[1..], ch);
    }
  }

  /** A merge whose closing tag is not `</li>` copies list items through. */
  lemma {:induction false} PassesItems(cs: seq<string>, close: string, open: string, rep: string)
    requires EndTag(close) && close[2] != 'l'
    requires forall k | 0 <= k < |cs| :: '<' !in cs[k]
    ensures Passes(LiItems(cs), close, open, rep)
    decreases |cs|
  {
    if cs == [] {
      assert forall y: string :: [] + y == y;
    } else {
      PassesLi(cs[0], close, open, rep);
      PassesItems(cs[1..], close, open, rep);
      PassesConcat(Li(cs[0]), LiItems(cs[1..]), close, open, rep);
    }
  }

  /** One ordered list holding the items. */
  function OrderedList(cs: seq<string>): string {
    OlOpen + LiItems(cs) + OlClose
  }

  lemma PassesList(cs: seq<string>)
    requires forall k | 0 <= k < |cs| :: '<' !in cs[k]
    ensures Passes(OrderedList(cs), PClose, POpen, PClose + POpen)
  {
    var rep := PClose + POpen;
    var items := LiItems(cs);
    PassesTag(OlOpen, PClose, POpen, rep, 1);
    PassesItems(cs, PClose, POpen, rep);
    PassesTag(OlClose, PClose, POpen, rep, 2);
    PassesConcat(OlOpen, items, PClose, POpen, rep);
    PassesConcat(OlOpen + items, OlClose, PClose, POpen, rep);
  }

  lemma NoCharAround(a: string, m: string, b: string, ch: char)
    requires ch !in a && ch !in m && ch !in b
    ensures ch !in a + m + b
  {
  }

  lemma ListChars(cs: seq<string>, ch: char)
    requires ch == '|' || ch == '\n'
    requires forall k | 0 <= k < |cs| :: ch !in cs[k]
    ensures ch !in OrderedList(cs)
  {
    LiItemsNoChar(cs, ch);
    NoCharAround(OlOpen, LiItems(cs), OlClose, ch);
  }

  lemma ListExempt(cs: seq<string>)
    ensures ParagraphExempt(OrderedList(cs))
  {
    var x := OrderedList(cs);
    assert x[0] == '<' && x[1] == 'o';
  }

  /** The merged list passes both paragraph rules unchanged. */
  lemma ParagraphsOfListText(cs: seq<string>)
    requires forall k | 0 <= k < |cs| :: Plain(cs[k])
    ensures Paragraphs(OrderedList(cs)) == OrderedList(cs)
  {
    var x := OrderedList(cs);
    ListChars(cs, '\n');
    ListExempt(cs);
    PassesList(cs);
    PassesWhole(x, PClose, POpen, PClose + POpen);
    ParagraphsOfLine(x);
  }

  /** The merged list passes the table pass and both paragraph rules unchanged. */
  lemma ParagraphsOfList(cs: seq<string>)
    requires forall k | 0 <= k < |cs| :: Plain(cs[k])
    ensures Paragraphs(TablesPass(OrderedList(cs))) == OrderedList(cs)
  {
    ListChars(cs, '|');
    NoPipeNoTable(OrderedList(cs));
    ParagraphsOfListText(cs);
  }

  /** Consecutive numbered lines render as one ordered list holding every item. */
  lemma RenderOrderedList(ds: seq<char>, cs: seq<string>)
    requires |ds| == |cs| >= 1
    requires forall k | 0 <= k < |cs| :: IsDigit(ds[k]) && Plain(cs[k])
    ensures Render(Unlines(NumberedSource(ds, cs))) == OrderedList(cs)
  {
    var s := Unlines(NumberedSource(ds, cs));
    assert Blocks(Inline(Headings(s))) == OrderedList(cs) by {
      BlocksOfNumbered(ds, cs);
    }
    assert Paragraphs(TablesPass(OrderedList(cs))) == OrderedList(cs) by {
      ParagraphsOfList(cs);
    }
  }

  /** The line rules turn the numbered lines into list items, and the merges join them
      into one ordered list. */
  lemma BlocksOfNumbered(ds: seq<char>, cs: seq<string>)
    requires |ds| == |cs| >= 1
    requires forall k | 0 <= k < |cs| :: IsDigit(ds[k]) && Plain(cs[k])
    ensures Blocks(Inline(Headings(Unlines(NumberedSource(ds, cs))))) == OrderedList(cs)
  {
    var s := Unlines(NumberedSource(ds, cs));
    var items := Unlines(ListLines("ol", cs));
    assert MapLines(MapLines(Inline(Headings(s)), QuoteLine), BulletLine) == s by {
      NumberedSourceQuiet(ds, cs);
    }
    assert MapLines(s, NumberedLine) == items by {
      NumberedLines(ds, cs);
    }
    assert Collapse(items, UlClose, UlOpen, "") == items by {
      BulletMergeSkipsOrdered(cs);
    }
    assert Collapse(items, OlClose, OlOpen, "") == OrderedList(cs) by {
      forall k | 0 <= k < |cs|
        ensures !Contains(cs[k], TagClose("ol"))
      {
        NoLtNoTag(cs[k], TagClose("ol"));
      }
      ListMerge("ol", cs);
      OlTags();
    }
  }
}
