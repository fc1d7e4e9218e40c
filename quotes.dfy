/** The quote board: the category and search filter, the rating and date orders, and
    the row of stars drawn for a rating. Ratings are counted in tenths of a star. */
module Quotes {
  import opened Text
  import opened Lists

  datatype Quote = Quote(id: string, text: string, author: string, category: string, rating: nat, date: string)

  datatype SortBy = Rating | Date

  // ---------------------------------------------------------------------------
  // The filter

  predicate Keep(q: Quote, category: string, query: string) {
    && (category == "All" || q.category == category)
    && (ContainsIgnoringCase(q.text, query) || ContainsIgnoringCase(q.author, query))
  }

  function KeepTest(category: string, query: string): Quote -> bool {
    q => Keep(q, category, query)
  }

  function FilterQuotes(quotes: seq<Quote>, category: string, query: string): (r: seq<Quote>)
    ensures forall q :: q in r <==> q in quotes && Keep(q, category, query)
  {
    Filter(quotes, KeepTest(category, query))
  }

  /** The filter only drops quotes: what stays is in the board's order. */
  lemma FilterQuotesInOrder(quotes: seq<Quote>, category: string, query: string)
    ensures IsSubsequence(FilterQuotes(quotes, category, query), quotes)
  {
    FilterIsSubsequence(quotes, KeepTest(category, query));
  }

  /** The category `'All'` with an empty search keeps the whole board. */
  lemma NoFiltersKeepAll(quotes: seq<Quote>)
    ensures FilterQuotes(quotes, "All", "") == quotes
  {
    forall q | q in quotes
      ensures Keep(q, "All", "")
    {
      EmptyQueryMatches(q.text);
    }
    FilterKeepsAll(quotes, KeepTest("All", ""));
  }

  // ---------------------------------------------------------------------------
  // Dates and string order

  /** `a < b` on strings: at the first difference `a` has the smaller character, or `a`
      is a proper prefix of `b`. */
  predicate LexLess(a: string, b: string) {
    || (exists i | 0 <= i < |a| && i < |b| :: a[..i] == b[..i] && a[i] < b[i])
    || (|a| < |b| && a == b[..|a|])
  }

  /** A date as the board stores it, `YYYY-MM-DD`. */
  predicate WellFormedDate(d: string) {
    && |d| == 10 && d[4] == '-' && d[7] == '-'
    && forall i | 0 <= i < 10 && i != 4 && i != 7 :: IsDigit(d[i])
  }

  /** Two strings of one length that have a digit in the same places and the same
      character everywhere else. */
  predicate SameShape(a: string, b: string) {
    && |a| == |b|
    && forall i | 0 <= i < |a| :: (IsDigit(a[i]) && IsDigit(b[i])) || a[i] == b[i]
  }

  lemma DatesShareShape(a: string, b: string)
    requires WellFormedDate(a) && WellFormedDate(b)
    ensures SameShape(a, b)
  {
  }

  function Weight(c: char): nat {
    if IsDigit(c) then DigitValue(c) else 0
  }

  /** The digits of a date read as one decimal number, with 0 in place of each dash;
      for `YYYY-MM-DD` this is `YYYY * 10^6 + MM * 10^3 + DD`, which orders dates as
      the calendar does. */
  function DateValue(s: string): (n: nat)
    decreases |s|
  {
    if s == [] then 0 else 10 * DateValue(s[..|s| - 1]) + Weight(s[|s| - 1])
  }

  lemma LexLessLast(a: string, b: string)
    requires |a| == |b| > 0
    ensures var n := |a| - 1;
      LexLess(a, b) <==> LexLess(a[..n], b[..n]) || (a[..n] == b[..n] && a[n] < b[n])
  {
    var n := |a| - 1;
    if LexLess(a, b) {
      var i :| 0 <= i < |a| && i < |b| && a[..i] == b[..i] && a[i] < b[i];
      if i < n {
        assert a[..n][..i] == a[..i] && b[..n][..i] == b[..i];
        assert LexLess(a[..n], b[..n]);
      } else {
        assert a[..n] == b[..n];
      }
    }
    if LexLess(a[..n], b[..n]) {
      var i :| 0 <= i < n && a[..n][..i] == b[..n][..i] && a[..n][i] < b[..n][i];
      assert a[..n][..i] == a[..i] && b[..n][..i] == b[..i];
      assert LexLess(a, b);
    }
    if a[..n] == b[..n] && a[n] < b[n] {
      assert LexLess(a, b);
    }
  }

  lemma PlaceValue(p: nat, x: nat, q: nat, y: nat)
    requires x < 10 && y < 10
    ensures 10 * p + x < 10 * q + y <==> p < q || (p == q && x < y)
    ensures 10 * p + x == 10 * q + y <==> p == q && x == y
  {
    if p < q {
      assert 10 * p + x < 10 * (p + 1) <= 10 * q;
    } else if q < p {
      assert 10 * q + y < 10 * (q + 1) <= 10 * p;
    }
  }

  lemma WeightOrder(c: char, d: char)
    requires (IsDigit(c) && IsDigit(d)) || c == d
    ensures Weight(c) < Weight(d) <==> c < d
    ensures Weight(c) == Weight(d) <==> c == d
  {
  }

  /** On strings of one shape, numeric order of the values is string order. */
  lemma {:induction false} ShapeOrder(a: string, b: string)
    requires SameShape(a, b)
    ensures DateValue(a) < DateValue(b) <==> LexLess(a, b)
    ensures DateValue(a) == DateValue(b) <==> a == b
    decreases |a|
  {
    if |a| == 0 {
      assert a == b;
    } else {
      var n := |a| - 1;
      var a', b' := a[..n], b[..n];
      assert SameShape(a', b');
      ShapeOrder(a', b');
      LexLessLast(a, b);
      assert DateValue(a) == 10 * DateValue(a') + Weight(a[n]);
      assert DateValue(b) == 10 * DateValue(b') + Weight(b[n]);
      PlaceValue(DateValue(a'), Weight(a[n]), DateValue(b'), Weight(b[n]));
      WeightOrder(a[n], b[n]);
      assert a == a' + [a[n]] && b == b' + [b[n]];
    }
  }

  // ---------------------------------------------------------------------------
  // The sort

  /** The comparator `b.rating - a.rating` or `b.date - a.date`: the larger comes first. */
  function SortKey(sortBy: SortBy): Quote -> int {
    (q: Quote) => if sortBy == Rating then -(q.rating as int) else -(DateValue(q.date) as int)
  }

  /** The sort keeps the quotes and puts the larger rating, or the later date value,
      first; the order among equal keys is left open. */
  function SortQuotes(qs: seq<Quote>, sortBy: SortBy): (r: seq<Quote>)
    ensures multiset(r) == multiset(qs)
    ensures sortBy == Rating ==> forall i, j | 0 <= i < j < |r| :: r[i].rating >= r[j].rating
    ensures sortBy == Date ==> forall i, j | 0 <= i < j < |r| :: DateValue(r[i].date) >= DateValue(r[j].date)
  {
    var r := SortByKey(qs, SortKey(sortBy));
    SortKeyOrder(r, sortBy);
    r
  }

  lemma SortKeyOrder(r: seq<Quote>, sortBy: SortBy)
    requires SortedByKey(r, SortKey(sortBy))
    ensures sortBy == Rating ==> forall i, j | 0 <= i < j < |r| :: r[i].rating >= r[j].rating
    ensures sortBy == Date ==> forall i, j | 0 <= i < j < |r| :: DateValue(r[i].date) >= DateValue(r[j].date)
  {
    forall i, j | 0 <= i < j < |r|
      ensures SortKey(sortBy)(r[i]) <= SortKey(sortBy)(r[j])
    {
    }
  }

  /** `filteredQuotes`: the filter, then the sort. The board lists every quote that passes
      the filter as often as it holds it, and nothing else, in the order of the sort. */
  function FilteredQuotes(quotes: seq<Quote>, category: string, query: string, sortBy: SortBy): (r: seq<Quote>)
    ensures forall q :: multiset(r)[q] == if Keep(q, category, query) then multiset(quotes)[q] else 0
    ensures sortBy == Rating ==> forall i, j | 0 <= i < j < |r| :: r[i].rating >= r[j].rating
    ensures sortBy == Date ==> forall i, j | 0 <= i < j < |r| :: DateValue(r[i].date) >= DateValue(r[j].date)
  {
    FilterQuotesCount(quotes, category, query);
    SortQuotes(FilterQuotes(quotes, category, query), sortBy)
  }

  lemma FilterQuotesCount(quotes: seq<Quote>, category: string, query: string)
    ensures forall q ::
      multiset(FilterQuotes(quotes, category, query))[q]
        == if Keep(q, category, query) then multiset(quotes)[q] else 0
  {
    forall q
      ensures multiset(FilterQuotes(quotes, category, query))[q]
           == if Keep(q, category, query) then multiset(quotes)[q] else 0
    {
      FilterCount(quotes, KeepTest(category, query), q);
    }
  }

  /** Sorted by date, with every date written `YYYY-MM-DD`, the list is in reverse
      string order: no date sorts after one above it. */
  lemma ByDateReverseLexicographic(quotes: seq<Quote>, category: string, query: string)
    requires forall q | q in quotes :: WellFormedDate(q.date)
    ensures var r := FilteredQuotes(quotes, category, query, Date);
      forall i, j | 0 <= i < j < |r| :: !LexLess(r[i].date, r[j].date)
  {
    var r := FilteredQuotes(quotes, category, query, Date);
    var kept := FilterQuotes(quotes, category, query);
    assert multiset(r) == multiset(kept);
    forall i, j | 0 <= i < j < |r|
      ensures !LexLess(r[i].date, r[j].date)
    {
      assert r[i] in multiset(kept) && r[j] in multiset(kept);
      assert SortKey(Date)(r[i]) <= SortKey(Date)(r[j]);
      DatesShareShape(r[i].date, r[j].date);
      ShapeOrder(r[i].date, r[j].date);
    }
  }

  // ---------------------------------------------------------------------------
  // Stars

  datatype Star = Full | Half | Empty

  /** `Math.ceil` of a rating in tenths, in whole stars. */
  function CeilStars(rating: nat): nat {
    (rating + 9) / 10
  }

  /** `5 - Math.ceil(rating)`, as the number of times the second loop runs. */
  function EmptyStars(rating: nat): nat {
    if CeilStars(rating) <= 5 then 5 - CeilStars(rating) else 0
  }

  /** The star row: the whole stars, a half star for a fraction, then the empty ones. The
      whole stars are the rating rounded down, there is a half star exactly when the
      rating is not whole, and the empty stars fill up to the rating rounded up. */
  function Stars(rating: nat): (r: seq<Star>)
    ensures multiset(r)[Full] == rating / 10
    ensures multiset(r)[Half] == (if rating % 10 == 0 then 0 else 1)
    ensures multiset(r)[Empty] == EmptyStars(rating)
    ensures CeilStars(rating) == rating / 10 + multiset(r)[Half]
    ensures forall k | 0 <= k < |r| :: (r[k] == Full <==> k < rating / 10)
    ensures forall k | 0 <= k < |r| - 1 :: r[k] == Empty ==> r[k + 1] == Empty
  {
    RepeatCount(Full, rating / 10);
    RepeatCount(Empty, EmptyStars(rating));
    seq(rating / 10, _ => Full) + (if rating % 10 != 0 then [Half] else []) + seq(EmptyStars(rating), _ => Empty)
  }

  /** `renderStars`. */
  method RenderStars(rating: nat) returns (stars: seq<Star>)
    ensures stars == Stars(rating)
  {
    stars := [];
    var fullStars := rating / 10;
    var hasHalfStar := rating % 10 != 0;
    for i := 0 to fullStars
      invariant stars == seq(i, _ => Full)
    {
      stars := stars + [Full];
    }
    if hasHalfStar {
      stars := stars + [Half];
    }
    ghost var head := stars;
    var emptyStars := 5 - CeilStars(rating);
    var i := 0;
    while i < emptyStars
      invariant 0 <= i && (i == 0 || i <= emptyStars)
      invariant stars == head + seq(i, _ => Empty)
    {
      stars := stars + [Empty];
      i := i + 1;
    }
    assert i == EmptyStars(rating);
  }

  lemma {:induction false} RepeatCount(x: Star, n: nat)
    ensures multiset(seq(n, _ => x)) == multiset{}[x := n]
  {
    if n > 0 {
      RepeatCount(x, n - 1);
      assert seq(n, _ => x) == seq(n - 1, _ => x) + [x];
    } else {
      assert seq(n, _ => x) == [];
    }
  }

  /** A rating from 0 to 5 stars is always drawn with five stars. */
  lemma FiveStars(rating: nat)
    requires rating <= 50
    ensures |Stars(rating)| == 5
  {
  }
}
