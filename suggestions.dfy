/** The suggestion endpoint `GET /api/words/suggestions?q=&limit=`
    (src/app/api/words/suggestions/route.ts): the same three-field match as the
    search, sorted by headword and cut to `limit`, with no page offset. */
module Suggestions {
  import opened Common
  import opened Text
  import opened Order
  import opened Seqs
  import opened Entries
  import opened WordSearch

  /** `parseInt(searchParams.get("limit") || "8")`: an absent or empty parameter means 8. */
  function SuggestionLimit(limit: Option<int>): (n: int)
    ensures limit.None? ==> n == 8
    ensures limit.Some? ==> n == limit.value
  {
    limit.GetOr(8)
  }

  /** MongoDB's `limit(n)`: `n` rows for positive `n`, all rows for 0, and `-n` rows
      (one batch) for negative `n`. */
  function Take(s: seq<Word>, n: int): (r: seq<Word>)
    ensures n > 0 ==> |r| == Min(n, |s|)
    ensures n == 0 ==> r == s
    ensures n < 0 ==> |r| == Min(-n, |s|)
    ensures r <= s
  {
    if n == 0 then s else s[..Min(if n > 0 then n else -n, |s|)]
  }

  /** The handler; `q` is the raw query parameter and `storeFails` a caught database error. */
  function Suggest(store: seq<Word>, q: Option<string>, limit: Option<int>, storeFails: bool): (r: Response)
    ensures !Present(q) ==> r == Response(400, ErrorBody("Invalid query"))
    ensures Present(q) && storeFails ==> r == Response(500, ErrorBody("Server Error"))
    ensures Present(q) && !storeFails ==>
      var sorted := ByHeadword(Matching(store, AnyField(q.value)));
      && r.status == 200 && r.body.WordArray?
      && r.body.words <= sorted
      && (SuggestionLimit(limit) > 0 ==> |r.body.words| == Min(SuggestionLimit(limit), |sorted|))
  {
    if !Present(q) then Response(400, ErrorBody("Invalid query"))
    else if storeFails then Response(500, ErrorBody("Server Error"))
    else Response(200, WordArray(Take(ByHeadword(Matching(store, AnyField(q.value))), SuggestionLimit(limit))))
  }

  /** A missing or empty `q` is refused before the store is consulted: the answer
      is the same whatever the store holds and whether or not it would fail. */
  lemma InvalidQueryIgnoresStore(s1: seq<Word>, s2: seq<Word>, q: Option<string>, limit: Option<int>, f1: bool, f2: bool)
    requires !Present(q)
    ensures Suggest(s1, q, limit, f1) == Suggest(s2, q, limit, f2)
  {
  }

  /** Every suggestion is a stored word that contains `q` case-insensitively in its
      headword, Nepali romanization or English gloss, and the list is sorted. */
  lemma SuggestionsMatchAndAreSorted(store: seq<Word>, q: string, limit: Option<int>)
    requires q != ""
    ensures var ws := Suggest(store, Some(q), limit, false).body.words;
      && SortedBy(ws, Headword)
      && forall w :: w in ws ==> w in store && AnyFieldContains(w, q)
  {
    var matching := Matching(store, AnyField(q));
    var sorted := ByHeadword(matching);
    var ws := Suggest(store, Some(q), limit, false).body.words;
    FilterMultiset(store, MatchesQuery(AnyField(q)));
    forall w | w in ws ensures w in store && AnyFieldContains(w, q) {
      var i :| 0 <= i < |ws| && ws[i] == w;
      assert w == sorted[i];
      assert w in multiset(sorted);
      assert w in multiset(matching);
    }
    forall i, j | 0 <= i < j < |ws| ensures LexLeq(Headword(ws[i]), Headword(ws[j])) {
      assert ws[i] == sorted[i] && ws[j] == sorted[j];
    }
  }

  /** The suggestion list starts at the first match, unlike a search page; the
      size is not capped at 100: a limit of 500 returns up to 500 words. */
  lemma SuggestionsAreNotCapped(store: seq<Word>, q: string)
    requires q != ""
    requires |Matching(store, AnyField(q))| >= 500
    ensures |Suggest(store, Some(q), Some(500), false).body.words| == 500
    ensures |Search(store, SearchRequest(Some(q), Some(500), None, None), false).body.results| == 100
  {
    var req := SearchRequest(Some(q), Some(500), None, None);
    var sorted := ByHeadword(Matching(store, AnyField(q)));
    assert |sorted| == |Matching(store, AnyField(q))|;
    assert SuggestionLimit(Some(500)) == 500;
    assert PageSize(Some(500)) == 100 && PageNumber(None) == 1 && Offset(1, 100) == 0;
    assert !IsBlank(q) ==> Matching(store, QueryFor(req)) == Matching(store, AnyField(q));
    if IsBlank(q) {
      // A blank q still matches through the regex, and the search then lists every word.
      FilterAll(store, MatchesQuery(QueryFor(req)));
      assert |store| >= |Matching(store, AnyField(q))|;
    }
  }
}
