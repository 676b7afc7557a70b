/** The search endpoint `POST /api/words` (src/app/api/words/route.ts): a filter
    chosen from the request, then a page of the matching words sorted by headword,
    with the total count and the number of pages. */
module WordSearch {
  import opened Common
  import opened Text
  import opened Order
  import opened Seqs
  import opened Entries

  /** An optional text field matched by an unanchored, case-insensitive regex; a
      missing field never matches. */
  predicate FieldContains(field: Option<string>, pattern: string) {
    field.Some? && ContainsFold(field.value, pattern)
  }

  /** The `$or` over `word`, `romanized` and `english`. */
  predicate AnyFieldContains(w: Word, pattern: string) {
    ContainsFold(w.word, pattern) || FieldContains(w.romanized, pattern) || FieldContains(w.english, pattern)
  }

  /** The three shapes the handler's `query` object can take. */
  datatype Query = ByIds(ids: seq<string>) | AnyField(pattern: string) | Everything

  predicate Matches(q: Query, w: Word) {
    match q
    case ByIds(ids) => w.id in ids
    case AnyField(p) => AnyFieldContains(w, p)
    case Everything => true
  }

  /** The request body; a missing `search`, `limit` or `page` takes the
      destructuring default "", 10 or 1. */
  datatype SearchRequest = SearchRequest(
    search: Option<string>,
    limit: Option<int>,
    page: Option<int>,
    ids: Option<seq<string>>)

  /** `ids && Array.isArray(ids) && ids.length > 0`. */
  predicate HasIds(req: SearchRequest) {
    req.ids.Some? && |req.ids.value| > 0
  }

  function SearchText(req: SearchRequest): string {
    req.search.GetOr("")
  }

  /** The filter: a non-empty id list wins; otherwise non-blank text is matched,
      untrimmed, against three fields; otherwise every word matches. */
  function QueryFor(req: SearchRequest): Query {
    if HasIds(req) then ByIds(req.ids.value)
    else if Trim(SearchText(req)) != "" then AnyField(SearchText(req))
    else Everything
  }

  /** What the chosen filter selects: with a non-empty id list, the words whose id
      is listed; otherwise, with non-blank text, the words containing it in one of
      the three fields; otherwise every word. */
  lemma QueryForSelects(req: SearchRequest, w: Word)
    ensures HasIds(req) ==> (Matches(QueryFor(req), w) <==> w.id in req.ids.value)
    ensures !HasIds(req) && !IsBlank(SearchText(req)) ==>
              (Matches(QueryFor(req), w) <==> AnyFieldContains(w, SearchText(req)))
    ensures !HasIds(req) && IsBlank(SearchText(req)) ==> Matches(QueryFor(req), w)
  {
  }

  /** `Math.max(parseInt(page), 1)` with the default 1. */
  function PageNumber(page: Option<int>): (p: int)
    ensures p >= 1
    ensures page.None? ==> p == 1
    ensures page.Some? && page.value >= 1 ==> p == page.value
    ensures page.Some? && page.value < 1 ==> p == 1
  {
    Max(page.GetOr(1), 1)
  }

  /** `Math.min(Math.max(parseInt(limit), 1), 100)` with the default 10. */
  function PageSize(limit: Option<int>): (l: int)
    ensures 1 <= l <= 100
    ensures limit.None? ==> l == 10
    ensures limit.Some? && 1 <= limit.value <= 100 ==> l == limit.value
    ensures limit.Some? && limit.value < 1 ==> l == 1
    ensures limit.Some? && limit.value > 100 ==> l == 100
  {
    Min(Max(limit.GetOr(10), 1), 100)
  }

  /** `Math.ceil(total / limit)`: the fewest pages of `limit` rows that hold `total` rows. */
  function PageCount(total: nat, limit: int): (pages: nat)
    requires limit >= 1
    ensures pages * limit >= total
    ensures pages == 0 || (pages - 1) * limit < total
  {
    (total + limit - 1) / limit
  }

  /** `skip = (pageNum - 1) * limitNum`: the rows on the pages before `page`,
      counted a page at a time. */
  function Offset(page: int, limit: int): (skip: nat)
    requires page >= 1 && limit >= 1
    decreases page
  {
    if page == 1 then 0 else Offset(page - 1, limit) + limit
  }

  /** The page-by-page count is the product of the handler. */
  lemma {:induction false} OffsetIsProduct(page: int, limit: int)
    requires page >= 1 && limit >= 1
    ensures Offset(page, limit) == (page - 1) * limit
    decreases page
  {
    if page > 1 {
      OffsetIsProduct(page - 1, limit);
      assert (page - 1) * limit == (page - 2) * limit + limit;
    }
  }

  function Headword(w: Word): string {
    w.word
  }

  /** `Matches` as a test that `Filter` can apply. */
  function MatchesQuery(q: Query): Word -> bool {
    w => Matches(q, w)
  }

  /** The words `find(query)` selects, in store order. */
  function Matching(store: seq<Word>, q: Query): seq<Word> {
    Filter(store, MatchesQuery(q))
  }

  /** `.sort({ word: 1 })`. */
  function ByHeadword(ws: seq<Word>): seq<Word> {
    SortBy(ws, Headword)
  }

  /** `.skip(skip).limit(limit)`: the rows from `skip` on, at most `limit` of them. */
  function Window(s: seq<Word>, skip: nat, limit: nat): (r: seq<Word>)
    ensures |r| == Max(0, Min(limit, |s| - skip))
    ensures forall i :: 0 <= i < |r| ==> r[i] == s[skip + i]
  {
    s[Min(skip, |s|)..Min(skip + limit, |s|)]
  }

  /** A window of a sorted list is sorted. */
  lemma WindowSorted(s: seq<Word>, skip: nat, limit: nat, key: Word -> string)
    requires SortedBy(s, key)
    ensures SortedBy(Window(s, skip, limit), key)
  {
    var r := Window(s, skip, limit);
    forall i, j | 0 <= i < j < |r| ensures LexLeq(key(r[i]), key(r[j])) {
      assert r[i] == s[skip + i] && r[j] == s[skip + j];
    }
  }

  /** A window holds only rows of the list it is cut from. */
  lemma WindowWithin(s: seq<Word>, skip: nat, limit: nat, w: Word)
    requires w in Window(s, skip, limit)
    ensures w in s
  {
    var r := Window(s, skip, limit);
    var i :| 0 <= i < |r| && r[i] == w;
    assert w == s[skip + i];
  }

  /** The search handler; `storeFails` stands for a database error caught by the handler. */
  function Search(store: seq<Word>, req: SearchRequest, storeFails: bool): (r: Response)
    ensures storeFails ==> r == Response(500, ErrorBody("Internal server error"))
    ensures !storeFails ==> r.status == 200 && r.body.SearchPage?
    ensures !storeFails ==>
      var page, limit := PageNumber(req.page), PageSize(req.limit);
      var matching := Matching(store, QueryFor(req));
      var skip := Offset(page, limit);
      && r.body.page == page && r.body.limit == limit
      && r.body.total == |matching|
      && r.body.pages == PageCount(|matching|, limit)
      && |r.body.results| == Max(0, Min(limit, |matching| - skip))
      && forall i :: 0 <= i < |r.body.results| ==> r.body.results[i] == ByHeadword(matching)[skip + i]
  {
    if storeFails then Response(500, ErrorBody("Internal server error"))
    else
      var page, limit := PageNumber(req.page), PageSize(req.limit);
      var matching := Matching(store, QueryFor(req));
      var skip := Offset(page, limit);
      Response(200, SearchPage(Window(ByHeadword(matching), skip, limit), |matching|, page, limit,
                               PageCount(|matching|, limit)))
  }

  /** The page is sorted by headword and never holds more than `limit` words. */
  lemma SearchResultsSorted(store: seq<Word>, req: SearchRequest)
    ensures var r := Search(store, req, false).body;
      |r.results| <= r.limit <= 100 && SortedBy(r.results, Headword)
  {
    var sorted := ByHeadword(Matching(store, QueryFor(req)));
    var skip, limit := Offset(PageNumber(req.page), PageSize(req.limit)), PageSize(req.limit);
    assert Search(store, req, false).body.results == Window(sorted, skip, limit);
    WindowSorted(sorted, skip, limit, Headword);
  }

  /** Every returned word is a stored word that satisfies the filter. */
  lemma SearchResultsMatch(store: seq<Word>, req: SearchRequest)
    ensures forall w :: w in Search(store, req, false).body.results ==> w in store && Matches(QueryFor(req), w)
  {
    var q := QueryFor(req);
    var matching := Matching(store, q);
    var sorted := ByHeadword(matching);
    var skip, limit := Offset(PageNumber(req.page), PageSize(req.limit)), PageSize(req.limit);
    var res := Search(store, req, false).body.results;
    assert res == Window(sorted, skip, limit);
    forall w | w in res ensures w in store && Matches(q, w) {
      WindowWithin(sorted, skip, limit, w);
      assert w in multiset(sorted);
      FilterMember(store, MatchesQuery(q), w);
    }
  }

  /** A non-empty id list decides the answer alone: the search text is ignored, and
      the words found are exactly the stored words whose id is listed. */
  lemma IdsTakePrecedence(store: seq<Word>, req: SearchRequest, otherSearch: Option<string>)
    requires HasIds(req)
    ensures Search(store, req, false) == Search(store, req.(search := otherSearch), false)
    ensures forall w :: w in Search(store, req, false).body.results ==> w in store && w.id in req.ids.value
  {
    var req' := req.(search := otherSearch);
    assert QueryFor(req) == QueryFor(req');
    SearchResultsMatch(store, req);
  }

  /** With no id list and blank text, every stored word counts towards the total. */
  lemma BlankSearchMatchesEverything(store: seq<Word>, req: SearchRequest)
    requires !HasIds(req) && IsBlank(SearchText(req))
    ensures Search(store, req, false).body.total == |store|
  {
    FilterAll(store, MatchesQuery(QueryFor(req)));
  }

  /** Searching for a stored headword finds that word: it counts towards the total. */
  lemma HeadwordFindsItself(store: seq<Word>, w: Word)
    requires w in store && !IsBlank(w.word)
    ensures w in Matching(store, QueryFor(SearchRequest(Some(w.word), None, None, None)))
  {
    ContainsFoldSelf(w.word);
    FilterMember(store, MatchesQuery(AnyField(w.word)), w);
  }

  /** A page that starts at the first row and is at least as large as the total
      holds every matching word: with an id list, every stored word whose id is
      listed; ids with no stored word are simply absent. */
  lemma FirstPageHoldsAllMatches(store: seq<Word>, req: SearchRequest)
    requires PageNumber(req.page) == 1
    requires |Matching(store, QueryFor(req))| <= PageSize(req.limit)
    ensures var r := Search(store, req, false);
      forall w :: w in store && Matches(QueryFor(req), w) ==> w in r.body.results
  {
    var q := QueryFor(req);
    var matching := Matching(store, q);
    var sorted := ByHeadword(matching);
    var r := Search(store, req, false);
    FilterMultiset(store, MatchesQuery(q));
    assert r.body.results == sorted;
    forall w | w in store && Matches(q, w) ensures w in r.body.results {
      assert w in multiset(store);
      assert w in multiset(matching);
      assert w in multiset(sorted);
    }
  }

  /** A page that is not full is the last one: the next page of the same size is empty. */
  lemma ConsecutivePagesAdjoin(store: seq<Word>, req: SearchRequest, p: int)
    requires p >= 1 && req.page == Some(p)
    ensures var here := Search(store, req, false).body;
      var next := Search(store, req.(page := Some(p + 1)), false).body;
      |here.results| < here.limit ==> next.results == []
  {
    var req' := req.(page := Some(p + 1));
    QueryIgnoresPage(req, Some(p + 1));
    var limit := PageSize(req.limit);
    var n := |Matching(store, QueryFor(req))|;
    var skip := Offset(p, limit);
    PageLength(store, req, n, skip, limit);
    PageLength(store, req', n, skip + limit, limit);
  }

  /** How many rows a page holds: at most `limit`, and none past the last match. */
  lemma PageLength(store: seq<Word>, req: SearchRequest, n: nat, skip: nat, limit: nat)
    requires n == |Matching(store, QueryFor(req))| && limit == PageSize(req.limit)
    requires req.page.Some? && req.page.value >= 1 && skip == Offset(req.page.value, limit)
    ensures Search(store, req, false).body.limit == limit
    ensures |Search(store, req, false).body.results| == Max(0, Min(limit, n - skip))
  {
  }

  /** The filter does not depend on the page asked for. */
  lemma QueryIgnoresPage(req: SearchRequest, page: Option<int>)
    ensures QueryFor(req.(page := page)) == QueryFor(req)
  {
    assert SearchText(req.(page := page)) == SearchText(req);
  }

  /** Fifteen matching words at ten per page: ten words on the first page, a total
      of fifteen and two pages. */
  lemma FifteenMatchesMakeTwoPages(store: seq<Word>, req: SearchRequest)
    requires req.page == Some(1) && req.limit == Some(10)
    requires |Matching(store, QueryFor(req))| == 15
    ensures var r := Search(store, req, false).body;
      |r.results| == 10 && r.total == 15 && r.pages == 2
  {
  }

  /** A body that carries only `ids`, as the anonymous bookmark list sends, gets
      the default page size: at most ten of the listed words come back, while
      `total` counts all of them. */
  lemma IdsOnlyRequestIsOnePageOfTen(store: seq<Word>, ids: seq<string>)
    requires |ids| > 0
    ensures var r := Search(store, SearchRequest(None, None, None, Some(ids)), false).body;
      |r.results| <= 10 && r.total == |Matching(store, ByIds(ids))|
  {
  }
}
