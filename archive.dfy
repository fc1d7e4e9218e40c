/** The academic archive page: the three-way paper filter and the citation text in the
    BibTeX, APA and MLA formats. */
module Archive {
  import opened Options
  import opened Text
  import opened Lists

  datatype PaperType = Journal | Conference | Thesis

  /** The type's name as the page's type filter spells it. */
  function TypeName(t: PaperType): (r: string)
    ensures r != "all"
  {
    match t
    case Journal => "journal"
    case Conference => "conference"
    case Thesis => "thesis"
  }

  /** A paper of the archive (its PDF link only feeds the view). */
  datatype Paper = Paper(
    id: string,
    title: string,
    authors: seq<string>,
    year: nat,
    journal: string,
    doi: string,
    abstractText: string,
    keywords: seq<string>,
    citations: nat,
    kind: PaperType)

  // ---------------------------------------------------------------------------
  // The filter

  /** The case-insensitive query is in the title, an author, the abstract or a keyword. */
  predicate MatchesSearch(p: Paper, query: string) {
    ContainsIgnoringCase(p.title, query) || AnyContainsIgnoringCase(p.authors, query)
    || ContainsIgnoringCase(p.abstractText, query) || AnyContainsIgnoringCase(p.keywords, query)
  }

  predicate MatchesType(p: Paper, selectedType: string) {
    selectedType == "all" || TypeName(p.kind) == selectedType
  }

  /** The year filter: `'all'`, or a year whose digits `parseInt` reads as the paper's. */
  predicate MatchesYear(p: Paper, selectedYear: string) {
    selectedYear == "all" || ParseNat(selectedYear) == Some(p.year)
  }

  predicate Keep(p: Paper, query: string, selectedType: string, selectedYear: string) {
    MatchesSearch(p, query) && MatchesType(p, selectedType) && MatchesYear(p, selectedYear)
  }

  function KeepTest(query: string, selectedType: string, selectedYear: string): Paper -> bool {
    p => Keep(p, query, selectedType, selectedYear)
  }

  /** `filteredPapers`. */
  function FilteredPapers(papers: seq<Paper>, query: string, selectedType: string, selectedYear: string): (r: seq<Paper>)
    ensures forall p :: p in r <==> p in papers && Keep(p, query, selectedType, selectedYear)
  {
    Filter(papers, KeepTest(query, selectedType, selectedYear))
  }

  /** The filter keeps the archive's order. */
  lemma FilteredPapersInOrder(papers: seq<Paper>, query: string, selectedType: string, selectedYear: string)
    ensures IsSubsequence(FilteredPapers(papers, query, selectedType, selectedYear), papers)
  {
    FilterIsSubsequence(papers, KeepTest(query, selectedType, selectedYear));
  }

  /** An empty query with both filters on `'all'` keeps the whole archive. */
  lemma NoFiltersKeepAll(papers: seq<Paper>)
    ensures FilteredPapers(papers, "", "all", "all") == papers
  {
    forall p | p in papers
      ensures Keep(p, "", "all", "all")
    {
      EmptyQueryMatches(p.title);
    }
    FilterKeepsAll(papers, KeepTest("", "all", "all"));
  }

  /** A specific type filter keeps only papers of that type. */
  lemma TypeFilterKeepsType(papers: seq<Paper>, query: string, t: PaperType, selectedYear: string)
    ensures forall p | p in FilteredPapers(papers, query, TypeName(t), selectedYear) :: p.kind == t
  {
    forall p | p in FilteredPapers(papers, query, TypeName(t), selectedYear)
      ensures p.kind == t
    {
      match p.kind
      case Journal => assert TypeName(Journal) == "journal";
      case Conference => assert TypeName(Conference) == "conference";
      case Thesis => assert TypeName(Thesis) == "thesis";
    }
  }

  // ---------------------------------------------------------------------------
  // Citations

  /** The BibTeX record as its seven lines. */
  function BibtexLines(p: Paper): seq<string> {
    [ "@article{" + p.id + ",",
      "  title = {" + p.title + "},",
      "  author = {" + Join(p.authors, " and ") + "},",
      "  year = {" + NatToString(p.year) + "},",
      "  journal = {" + p.journal + "},",
      "  doi = {" + p.doi + "}",
      "}" ]
  }

  /** The BibTeX record: it opens with `@article{id,`, and for a paper without line
      breaks it splits back into its seven lines (the head, one line for each field with
      the authors joined by `and`, and the closing brace). */
  function Bibtex(p: Paper): (r: string)
    ensures StartsWith(r, "@article{" + p.id + ",")
    ensures SingleLine(p) ==> Split(r, '\n') == BibtexLines(p)
  {
    JoinIsHeadFirst(BibtexLines(p), "\n");
    BibtexSplits(p);
    Join(BibtexLines(p), "\n")
  }

  /** The APA reference: the authors joined by commas in front, then the year, the title
      and the journal, and the DOI address at the end. */
  function Apa(p: Paper): (r: string)
    ensures StartsWith(r, Join(p.authors, ", "))
    ensures forall k | 0 <= k < |p.authors| :: Contains(r, p.authors[k])
    ensures Contains(r, "(" + NatToString(p.year) + ")")
    ensures Contains(r, p.title) && Contains(r, p.journal)
    ensures EndsWith(r, "https://doi.org/" + p.doi)
  {
    var a, y := Join(p.authors, ", "), NatToString(p.year);
    ApaEnds(a, y, p.title, p.journal, p.doi);
    ApaFields(a, y, p.title, p.journal, p.doi);
    AuthorsFound(p.authors, ", ", " (" + y + "). " + p.title + ". " + p.journal + ". https://doi.org/" + p.doi);
    ApaOf(a, y, p.title, p.journal, p.doi)
  }

  /** The APA text with the authors `a`, year `y`, title `t`, journal `j` and DOI `d`. */
  function ApaOf(a: string, y: string, t: string, j: string, d: string): string {
    a + " (" + y + "). " + t + ". " + j + ". https://doi.org/" + d
  }

  lemma ApaEnds(a: string, y: string, t: string, j: string, d: string)
    ensures ApaOf(a, y, t, j, d) == a + (" (" + y + "). " + t + ". " + j + ". https://doi.org/" + d)
    ensures StartsWith(ApaOf(a, y, t, j, d), a)
    ensures EndsWith(ApaOf(a, y, t, j, d), "https://doi.org/" + d)
  {
    var r := ApaOf(a, y, t, j, d);
    assert r[..|a|] == a;
    assert r == (a + " (" + y + "). " + t + ". " + j + ". ") + ("https://doi.org/" + d);
  }

  lemma ApaFields(a: string, y: string, t: string, j: string, d: string)
    ensures Contains(ApaOf(a, y, t, j, d), "(" + y + ")")
    ensures Contains(ApaOf(a, y, t, j, d), t)
    ensures Contains(ApaOf(a, y, t, j, d), j)
  {
    var r := ApaOf(a, y, t, j, d);
    assert Contains(r, "(" + y + ")") by {
      assert r == (a + " ") + ("(" + y + ")") + (". " + t + ". " + j + ". https://doi.org/" + d);
      ContainsPiece(a + " ", "(" + y + ")", ". " + t + ". " + j + ". https://doi.org/" + d);
    }
    assert Contains(r, t) by {
      assert r == (a + " (" + y + "). ") + t + (". " + j + ". https://doi.org/" + d);
      ContainsPiece(a + " (" + y + "). ", t, ". " + j + ". https://doi.org/" + d);
    }
    assert Contains(r, j) by {
      assert r == (a + " (" + y + "). " + t + ". ") + j + (". https://doi.org/" + d);
      ContainsPiece(a + " (" + y + "). " + t + ". ", j, ". https://doi.org/" + d);
    }
  }

  /** The MLA reference: the authors joined by commas in front, then the quoted title,
      the journal, the year and the DOI, closed by a full stop. */
  function Mla(p: Paper): (r: string)
    ensures StartsWith(r, Join(p.authors, ", "))
    ensures forall k | 0 <= k < |p.authors| :: Contains(r, p.authors[k])
    ensures Contains(r, "\"" + p.title + ".\"") && Contains(r, p.journal)
    ensures EndsWith(r, ", " + NatToString(p.year) + ", doi:" + p.doi + ".")
  {
    var a, y := Join(p.authors, ", "), NatToString(p.year);
    MlaEnds(a, y, p.title, p.journal, p.doi);
    MlaFields(a, y, p.title, p.journal, p.doi);
    AuthorsFound(p.authors, ", ", ". \"" + p.title + ".\" " + p.journal + ", " + y + ", doi:" + p.doi + ".");
    MlaOf(a, y, p.title, p.journal, p.doi)
  }

  /** The MLA text with the authors `a`, year `y`, title `t`, journal `j` and DOI `d`. */
  function MlaOf(a: string, y: string, t: string, j: string, d: string): string {
    a + ". \"" + t + ".\" " + j + ", " + y + ", doi:" + d + "."
  }

  lemma MlaEnds(a: string, y: string, t: string, j: string, d: string)
    ensures MlaOf(a, y, t, j, d) == a + (". \"" + t + ".\" " + j + ", " + y + ", doi:" + d + ".")
    ensures StartsWith(MlaOf(a, y, t, j, d), a)
    ensures EndsWith(MlaOf(a, y, t, j, d), ", " + y + ", doi:" + d + ".")
  {
    var r := MlaOf(a, y, t, j, d);
    assert r[..|a|] == a;
    assert r == (a + ". \"" + t + ".\" " + j) + (", " + y + ", doi:" + d + ".");
  }

  lemma MlaFields(a: string, y: string, t: string, j: string, d: string)
    ensures Contains(MlaOf(a, y, t, j, d), "\"" + t + ".\"")
    ensures Contains(MlaOf(a, y, t, j, d), j)
  {
    var r := MlaOf(a, y, t, j, d);
    assert Contains(r, "\"" + t + ".\"") by {
      assert r == (a + ". ") + ("\"" + t + ".\"") + (" " + j + ", " + y + ", doi:" + d + ".");
      ContainsPiece(a + ". ", "\"" + t + ".\"", " " + j + ", " + y + ", doi:" + d + ".");
    }
    assert Contains(r, j) by {
      assert r == (a + ". \"" + t + ".\" ") + j + (", " + y + ", doi:" + d + ".");
      ContainsPiece(a + ". \"" + t + ".\" ", j, ", " + y + ", doi:" + d + ".");
    }
  }

  /** Each author is found in the authors joined by `sep`, with anything after them. */
  lemma AuthorsFound(authors: seq<string>, sep: string, tail: string)
    ensures forall k | 0 <= k < |authors| :: Contains(Join(authors, sep) + tail, authors[k])
  {
    forall k | 0 <= k < |authors|
      ensures Contains(Join(authors, sep) + tail, authors[k])
    {
      JoinContains(authors, sep, k);
      ContainsWithin("", Join(authors, sep), tail, authors[k]);
      assert "" + Join(authors, sep) + tail == Join(authors, sep) + tail;
    }
  }

  /** `generateCitation`: a format name other than the three gives the empty text. */
  function GenerateCitation(p: Paper, format: string): (r: string)
    ensures format != "bibtex" && format != "apa" && format != "mla" ==> r == ""
    ensures format == "bibtex" || format == "apa" || format == "mla" ==> r != ""
  {
    if format == "bibtex" then Bibtex(p)
    else if format == "apa" then Apa(p)
    else if format == "mla" then Mla(p)
    else ""
  }

  /** No line break in any field of the paper. */
  predicate SingleLine(p: Paper) {
    && '\n' !in p.id && '\n' !in p.title && '\n' !in p.journal && '\n' !in p.doi
    && forall k | 0 <= k < |p.authors| :: '\n' !in p.authors[k]
  }

  lemma {:induction false} SplitLines(ls: seq<string>)
    requires |ls| >= 1
    requires forall k | 0 <= k < |ls| :: '\n' !in ls[k]
    ensures Split(Join(ls, "\n"), '\n') == ls
  {
    assert "\n" == ['\n'];
    SplitJoin(ls, '\n');
  }

  /** A paper without line breaks gives seven lines without line breaks, which the
      record's joining and splitting leave as they are. */
  lemma BibtexSplits(p: Paper)
    ensures SingleLine(p) ==> Split(Join(BibtexLines(p), "\n"), '\n') == BibtexLines(p)
  {
    if SingleLine(p) {
      var ls := BibtexLines(p);
      JoinNoChar(p.authors, " and ", '\n');
      DigitsHaveNoBreak(NatToString(p.year));
      assert forall k | 0 <= k < |ls| :: '\n' !in ls[k];
      SplitLines(ls);
    }
  }

  lemma DigitsHaveNoBreak(s: string)
    requires AllDigits(s)
    ensures '\n' !in s
  {
    assert forall k | 0 <= k < |s| :: s[k] != '\n';
  }

  lemma JoinIsHeadFirst(ls: seq<string>, sep: string)
    requires |ls| >= 1
    ensures StartsWith(Join(ls, sep), ls[0])
  {
    var j := Join(ls, sep);
    if |ls| > 1 {
      assert j == ls[0] + (sep + Join(ls[1..], sep));
    }
    assert j[..|ls[0]|] == ls[0];
  }

  /** Every author's name can be found in the citation of every format. */
  lemma CitationNamesAuthors(p: Paper, format: string, k: nat)
    requires format == "bibtex" || format == "apa" || format == "mla"
    requires k < |p.authors|
    ensures Contains(GenerateCitation(p, format), p.authors[k])
  {
    if format == "bibtex" {
      var ls := BibtexLines(p);
      JoinContains(p.authors, " and ", k);
      ContainsWithin("  author = {", Join(p.authors, " and "), "},", p.authors[k]);
      assert ls[2] == "  author = {" + Join(p.authors, " and ") + "},";
      JoinContains(ls, "\n", 2);
      ContainsTransitive(Join(ls, "\n"), ls[2], p.authors[k]);
    } else {
      var authors := Join(p.authors, ", ");
      JoinContains(p.authors, ", ", k);
      var rest := GenerateCitation(p, format)[|authors|..];
      assert GenerateCitation(p, format) == "" + authors + rest;
      ContainsWithin("", authors, rest, p.authors[k]);
    }
  }
}
