/** The paper list of the academic archive page: topic selection, the search and topic
    filters, the sort on year, citations or topic relevance in either direction, and the
    research and review tabs. */
module Academic {
  import opened Text
  import opened Lists

  datatype PaperType = Research | Review

  /** A paper as the page lists it (its two link fields only feed the view). */
  datatype Paper = Paper(
    id: int,
    title: string,
    authors: seq<string>,
    journal: string,
    year: int,
    abstractText: string,
    topics: seq<string>,
    citations: int,
    kind: PaperType)

  datatype SortBy = Date | Citations | Relevance

  datatype SortOrder = Asc | Desc

  /** `toggleSortOrder`: the other direction. */
  function ToggleSortOrder(order: SortOrder): (r: SortOrder)
    ensures r != order
  {
    if order == Asc then Desc else Asc
  }

  lemma ToggleSortOrderTwice(order: SortOrder)
    ensures ToggleSortOrder(ToggleSortOrder(order)) == order
  {
  }

  /** `toggleTopic`: flips whether the topic is selected and no other topic's; a selected
      topic is dropped with the rest kept in order, an unselected one goes to the end. */
  function ToggleTopic(selected: seq<string>, topic: string): (r: seq<string>)
    ensures topic in r <==> topic !in selected
    ensures forall t | t != topic :: t in r <==> t in selected
    ensures topic in selected ==> IsSubsequence(r, selected)
    ensures topic in selected ==> forall t :: t != topic ==> multiset(r)[t] == multiset(selected)[t]
    ensures topic !in selected ==> r == selected + [topic]
  {
    Toggle(selected, topic)
  }

  // ---------------------------------------------------------------------------
  // Filters

  /** The search test: an empty query keeps every paper; otherwise the lowercased query
      is in the title, the abstract or one of the authors. */
  predicate MatchesQuery(p: Paper, query: string) {
    query == [] || ContainsIgnoringCase(p.title, query) || ContainsIgnoringCase(p.abstractText, query)
    || AnyContainsIgnoringCase(p.authors, query)
  }

  /** The topic test: no selection keeps every paper; otherwise one selected topic is
      among the paper's. */
  predicate SharesTopic(p: Paper, selected: seq<string>) {
    |selected| == 0 || exists k | 0 <= k < |selected| :: selected[k] in p.topics
  }

  function QueryTest(query: string): Paper -> bool {
    p => MatchesQuery(p, query)
  }

  function TopicTest(selected: seq<string>): Paper -> bool {
    p => SharesTopic(p, selected)
  }

  /** The number of selected topics the paper has (a topic selected twice counts twice). */
  function Relevance(p: Paper, selected: seq<string>): (n: nat)
    ensures n <= |selected|
    ensures n == |Filter(selected, t => t in p.topics)|
    decreases |selected|
  {
    if selected == [] then 0
    else (if selected[0] in p.topics then 1 else 0) + Relevance(p, selected[1..])
  }

  /** With no topic selected every relevance is 0; otherwise the relevance is positive
      exactly when the paper passes the topic test. */
  lemma {:induction false} RelevanceShares(p: Paper, selected: seq<string>)
    ensures selected == [] ==> Relevance(p, selected) == 0
    ensures selected != [] ==> (Relevance(p, selected) > 0 <==> SharesTopic(p, selected))
    decreases |selected|
  {
    if selected != [] {
      var rest := selected[1..];
      RelevanceShares(p, rest);
      if Relevance(p, selected) > 0 {
        if selected[0] !in p.topics {
          var k :| 0 <= k < |rest| && rest[k] in p.topics;
          assert selected[k + 1] in p.topics;
        }
      } else {
        assert forall k | 0 <= k < |selected| :: selected[k] !in p.topics by {
          forall k | 0 <= k < |selected|
            ensures selected[k] !in p.topics
          {
            if k > 0 {
              assert selected[k] == rest[k - 1];
            }
          }
        }
      }
    }
  }

  // ---------------------------------------------------------------------------
  // Sorting

  /** The key the comparator subtracts. */
  function SortKey(sortBy: SortBy, selected: seq<string>, p: Paper): int {
    match sortBy
    case Date => p.year
    case Citations => p.citations
    case Relevance => Relevance(p, selected)
  }

  /** The key negated for the descending order, so that both orders sort ascending. */
  function OrderKey(sortBy: SortBy, order: SortOrder, selected: seq<string>): Paper -> int {
    p => if order == Asc then SortKey(sortBy, selected, p) else -SortKey(sortBy, selected, p)
  }

  /** The sort keeps the papers and orders them by the chosen key, ascending or
      descending; the order among papers with equal keys is left open. */
  function SortPapers(ps: seq<Paper>, sortBy: SortBy, order: SortOrder, selected: seq<string>): (r: seq<Paper>)
    ensures multiset(r) == multiset(ps)
    ensures order == Asc ==> forall i, j | 0 <= i < j < |r| :: SortKey(sortBy, selected, r[i]) <= SortKey(sortBy, selected, r[j])
    ensures order == Desc ==> forall i, j | 0 <= i < j < |r| :: SortKey(sortBy, selected, r[i]) >= SortKey(sortBy, selected, r[j])
  {
    var r := SortByKey(ps, OrderKey(sortBy, order, selected));
    OrderKeySorted(r, sortBy, order, selected);
    r
  }

  /** A list sorted on the order key is in ascending or descending order of the sort key. */
  lemma OrderKeySorted(r: seq<Paper>, sortBy: SortBy, order: SortOrder, selected: seq<string>)
    requires SortedByKey(r, OrderKey(sortBy, order, selected))
    ensures order == Asc ==> forall i, j | 0 <= i < j < |r| :: SortKey(sortBy, selected, r[i]) <= SortKey(sortBy, selected, r[j])
    ensures order == Desc ==> forall i, j | 0 <= i < j < |r| :: SortKey(sortBy, selected, r[i]) >= SortKey(sortBy, selected, r[j])
  {
    var key := OrderKey(sortBy, order, selected);
    if order == Desc {
      forall i, j | 0 <= i < j < |r|
        ensures SortKey(sortBy, selected, r[i]) >= SortKey(sortBy, selected, r[j])
      {
        assert key(r[i]) <= key(r[j]);
      }
    }
  }

  // ---------------------------------------------------------------------------
  // The list on the page

  predicate Kept(p: Paper, query: string, selected: seq<string>) {
    MatchesQuery(p, query) && SharesTopic(p, selected)
  }

  /** `filteredPapers`: the search filter, then the topic filter, then the sort. The list
      holds every paper that passes both filters as often as the archive does, and nothing
      else, in the order the sort controls ask for. */
  function FilteredPapers(papers: seq<Paper>, query: string, selected: seq<string>, sortBy: SortBy, order: SortOrder): (r: seq<Paper>)
    ensures forall p :: multiset(r)[p] == if Kept(p, query, selected) then multiset(papers)[p] else 0
    ensures order == Asc ==> forall i, j | 0 <= i < j < |r| :: SortKey(sortBy, selected, r[i]) <= SortKey(sortBy, selected, r[j])
    ensures order == Desc ==> forall i, j | 0 <= i < j < |r| :: SortKey(sortBy, selected, r[i]) >= SortKey(sortBy, selected, r[j])
  {
    BothFiltersCount(papers, query, selected);
    SortPapers(Filter(Filter(papers, QueryTest(query)), TopicTest(selected)), sortBy, order, selected)
  }

  /** The two filters in a row keep every copy of a paper that passes both, and nothing else. */
  lemma BothFiltersCount(papers: seq<Paper>, query: string, selected: seq<string>)
    ensures forall p ::
      multiset(Filter(Filter(papers, QueryTest(query)), TopicTest(selected)))[p]
        == if Kept(p, query, selected) then multiset(papers)[p] else 0
  {
    var searched := Filter(papers, QueryTest(query));
    forall p
      ensures multiset(Filter(searched, TopicTest(selected)))[p]
           == if Kept(p, query, selected) then multiset(papers)[p] else 0
    {
      FilterCount(papers, QueryTest(query), p);
      FilterCount(searched, TopicTest(selected), p);
    }
  }

  /** Membership in the list is passing both filters. */
  lemma FilteredPapersMembers(papers: seq<Paper>, query: string, selected: seq<string>, sortBy: SortBy, order: SortOrder, p: Paper)
    ensures p in FilteredPapers(papers, query, selected, sortBy, order) <==> p in papers && Kept(p, query, selected)
  {
    var r := FilteredPapers(papers, query, selected, sortBy, order);
    assert p in r <==> multiset(r)[p] > 0;
    assert p in papers <==> multiset(papers)[p] > 0;
  }

  /** With an empty query and no topic selected both filters keep every paper. */
  lemma NoFiltersKeepAll(papers: seq<Paper>)
    ensures Filter(Filter(papers, QueryTest("")), TopicTest([])) == papers
  {
    FilterKeepsAll(papers, QueryTest(""));
    FilterKeepsAll(papers, TopicTest([]));
  }

  // ---------------------------------------------------------------------------
  // Tabs

  predicate IsResearch(p: Paper) {
    p.kind == Research
  }

  predicate IsReview(p: Paper) {
    p.kind == Review
  }

  /** The Research tab. */
  function ResearchTab(ps: seq<Paper>): seq<Paper> {
    Filter(ps, IsResearch)
  }

  /** The Review tab. */
  function ReviewTab(ps: seq<Paper>): seq<Paper> {
    Filter(ps, IsReview)
  }

  /** Every paper of the list is on exactly one of the two tabs, as often as on the list. */
  lemma TabsPartition(ps: seq<Paper>)
    ensures multiset(ResearchTab(ps)) + multiset(ReviewTab(ps)) == multiset(ps)
    ensures forall p :: !(p in ResearchTab(ps) && p in ReviewTab(ps))
  {
    FilterPartition(ps, IsResearch, IsReview);
  }
}
