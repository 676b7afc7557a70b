/** The synonym and antonym panel (src/components/thesaurus.tsx): the word list
    it asks the dictionary about, whether it renders at all, and where each
    word's badge links. */
module Thesaurus {
  import opened Common
  import opened Text
  import opened Order
  import opened Seqs

  /** `word && word.trim() !== ''`. */
  predicate Kept(word: string) {
    word != "" && Trim(word) != ""
  }

  function KeptTest(): string -> bool {
    (w: string) => Kept(w)
  }

  /** `allWords`: synonyms then antonyms, blanks dropped, sorted by code point.
      `Array.isArray(list) ? list : []` reads a missing or non-array list, which
      is `None` here, as empty. */
  function AllWords(synonyms: Option<seq<string>>, antonyms: Option<seq<string>>): (r: seq<string>)
    ensures SortedBy(r, Identity)
    ensures |r| <= |OrEmpty(synonyms)| + |OrEmpty(antonyms)|
  {
    SortBy(Filter(OrEmpty(synonyms) + OrEmpty(antonyms), KeptTest()), Identity)
  }

  /** A word is kept exactly when it is not white space only. */
  lemma KeptIffNotBlank(word: string)
    ensures Kept(word) <==> !IsBlank(word)
  {
    if word == "" {
      assert IsBlank(word);
    }
  }

  /** `allWords` holds each non-blank word as often as the two lists hold it
      together, duplicates included, and no blank word at all. */
  lemma AllWordsIsNonBlankPermutation(synonyms: Option<seq<string>>, antonyms: Option<seq<string>>, x: string)
    ensures multiset(AllWords(synonyms, antonyms))[x]
         == if IsBlank(x) then 0 else multiset(OrEmpty(synonyms) + OrEmpty(antonyms))[x]
  {
    FilterMultiset(OrEmpty(synonyms) + OrEmpty(antonyms), KeptTest());
    KeptIffNotBlank(x);
  }

  /** Any sorted arrangement of the kept words is `allWords`: the order does not
      depend on how the sort treats equal strings. */
  lemma AllWordsIsTheSortedKeptWords(synonyms: Option<seq<string>>, antonyms: Option<seq<string>>, r: seq<string>)
    requires SortedBy(r, Identity)
    requires multiset(r) == multiset(Filter(OrEmpty(synonyms) + OrEmpty(antonyms), KeptTest()))
    ensures r == AllWords(synonyms, antonyms)
  {
    SortedStringsUnique(r, AllWords(synonyms, antonyms));
  }

  /** No entry of `allWords` is empty or white space only. */
  lemma AllWordsHasNoBlank(synonyms: Option<seq<string>>, antonyms: Option<seq<string>>)
    ensures forall i :: 0 <= i < |AllWords(synonyms, antonyms)| ==> !IsBlank(AllWords(synonyms, antonyms)[i])
  {
    var r := AllWords(synonyms, antonyms);
    forall i | 0 <= i < |r| ensures !IsBlank(r[i]) {
      AllWordsIsNonBlankPermutation(synonyms, antonyms, r[i]);
      assert r[i] in multiset(r);
    }
  }

  /** `if (!hasSynonyms && !hasAntonyms) return null`. */
  predicate Renders(synonyms: Option<seq<string>>, antonyms: Option<seq<string>>) {
    |OrEmpty(synonyms)| > 0 || |OrEmpty(antonyms)| > 0
  }

  /** The panel shows whenever some word would be looked up. */
  lemma WordsImplyRender(synonyms: Option<seq<string>>, antonyms: Option<seq<string>>)
    requires AllWords(synonyms, antonyms) != []
    ensures Renders(synonyms, antonyms)
  {
  }

  /** The converse fails: the render test counts raw entries, so a list of blank
      strings still renders the panel while no word is looked up. */
  lemma BlankListsStillRender()
    ensures Renders(Some([" "]), None) && AllWords(Some([" "]), None) == []
  {
    var all := OrEmpty(Some([" "])) + OrEmpty(None);
    assert all == [" "];
    assert IsSpace(" "[0]);
    assert !Kept(" ");
    assert Filter(all, KeptTest()) == [];
  }

  /** A missing or non-array list behaves exactly like an empty one. */
  lemma MissingListReadsAsEmpty(other: Option<seq<string>>)
    ensures AllWords(None, other) == AllWords(Some([]), other) && AllWords(other, None) == AllWords(other, Some([]))
    ensures Renders(None, other) == Renders(Some([]), other) && Renders(other, None) == Renders(other, Some([]))
  {
  }

  /** What `useWordSuggestions` found for a word in the dictionary. */
  datatype Suggestion = Suggestion(id: string, word: string, english: Option<string>)

  datatype Link = WordPage(id: string) | SearchFor(text: string)

  /** `renderWordBadge(word)`: the word's page when the dictionary has it,
      otherwise a search for it. */
  function BadgeLink(word: string, suggestions: map<string, Suggestion>): (l: Link)
    ensures l.WordPage? <==> word in suggestions
    ensures l.WordPage? ==> l.id == suggestions[word].id
    ensures l.SearchFor? ==> l.text == word
  {
    if word in suggestions then WordPage(suggestions[word].id) else SearchFor(word)
  }

  /** The link target: `/words/<id>` or `/?q=<word>`; URI encoding is not modelled. */
  function Href(l: Link): (h: string)
    ensures l.WordPage? ==> h == "/words/" + l.id
    ensures l.SearchFor? ==> h == "/?q=" + l.text
  {
    match l
    case WordPage(id) => "/words/" + id
    case SearchFor(text) => "/?q=" + text
  }

  /** A word page and a search never share a target, and each kind of target
      determines the id or the text it carries. */
  lemma HrefsAreDistinct(a: Link, b: Link)
    requires Href(a) == Href(b)
    ensures a == b
  {
    var ha, hb := Href(a), Href(b);
    assert ha[1] == hb[1];
    if a.WordPage? && b.WordPage? {
      assert a.id == ha[7..] && b.id == hb[7..];
    } else if a.SearchFor? && b.SearchFor? {
      assert a.text == ha[4..] && b.text == hb[4..];
    }
  }
}
