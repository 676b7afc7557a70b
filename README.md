# next-shabda, modelled in Dafny

next-shabda is a Nepali–English web dictionary built on Next.js and MongoDB.
This project models the logic of its request handlers and client helpers:

- word search with paging;
- query suggestions;
- the admin-only create, update and delete endpoints for words;
- durable bookmarks, stored per user, and anonymous bookmarks, kept in local storage;
- the dashboard middleware;
- the profile and registration endpoints;
- the pairing and thesaurus helpers of the word page.

It also proves what those handlers promise.

Throughout the model:

- The words, bookmarks and users collections are sequences.
- The read-only handlers are functions that return a `Response`: an HTTP status and a JSON body.
- A handler that writes is a method on a store class (`WordCollection`, `BookmarkStore`, `UserStore`). Its `modifies` clause and its `ensures` clauses give the whole new state. Its `Valid()` invariant is distinct ids, distinct emails, or no duplicate bookmark pairs.
- The client hook is a class too. Its fields are the shown list, the local id list and the `isFetching` flag.
- A database error caught by a handler is the parameter `storeFails`.
- A fresh ObjectId is the parameter `newId`.
- The clock is the parameter `now`.
- bcrypt is a function parameter `hash`.

Modules:

| module | file | models |
|---|---|---|
| Common | common.dfy | `Option`, truthiness of an optional string, a missing list read as empty, `Max`/`Min` |
| Text | text.dfy | JavaScript `trim`, ASCII case folding, substring search |
| Order | order.dfy | code-point order on strings, a stable sort by key, the uniqueness of a sorted list of strings |
| Seqs | seqs.dfy | `filter`, `findOne`, `deleteOne` on a sequence |
| Entries | entries.dfy | `DictionaryEntry`, `Definition`, `Bookmark`, user records, sessions, responses |
| WordSearch | word_search.dfy | `POST /api/words` |
| Suggestions | suggestions.dfy | `GET /api/words/suggestions` |
| WordStore | word_store.dfy | `PUT /api/words`, `POST /api/word/create`, `PUT /api/word/update`, `DELETE /api/word/delete` |
| BookmarkApi | bookmarks.dfy | `POST /api/bookmarks/add`, `POST /api/bookmarks/remove`, `GET /api/bookmarks` |
| BookmarkHook | bookmark_hook.dfy | the `useBookmarks` hook |
| WordCard | word_card.dfy | `getPairedSenses`, `getPairedExamples` |
| Thesaurus | thesaurus.dfy | `allWords`, the render rule, the badge links |
| Middleware | middleware.dfy | the dashboard guard and its route matcher |
| Users | users.dfy | `GET`/`PATCH /api/users/profile`, `POST /api/auth/register` |

Modelling choices that the code settles:

- **Search text and regex.** The search text only has to be non-blank after `trim` to select the text filter. The regex is built from the untrimmed text, and so is the model's pattern.
- **Suggestion limit.** The suggestion limit is not clamped. MongoDB reads `limit(0)` as "no limit" and a negative limit as its absolute value, and the model does too.
- **Admin role.** The word endpoints and the middleware admit exactly the role string `"admin"`. Roles such as `"superadmin"` are refused.
- **Bookmark list session.** `GET /api/bookmarks` calls `getServerSession()` without the application's auth options, so its session may carry no user id. A session without an id selects no bookmark in the model.
- **Register failures.** A failure during registration is caught and answered with `{ error }` and the default status 200, and the model returns that.

## Model

| member | source | states |
|---|---|---|
| Text.Trim | src/app/api/words/route.ts:18 | The trimmed text is empty exactly when the text is white space only, under JavaScript's definition of white space. Otherwise it neither starts nor ends with white space. |
| Text.TrimIsCore | src/app/api/words/route.ts:18 | The trimmed text is a contiguous middle part of the input, and only white space was cut from each side. |
| Text.TrimIdempotent | src/app/api/users/profile/route.ts:73 | Trimming an already trimmed name changes nothing. |
| Text.SubstringAt | src/app/api/words/route.ts:19-24 | An unanchored match holds exactly when the pattern occurs at some position of the text. |
| Text.ContainsFoldOfFolded | src/app/api/words/route.ts:19 | A case-insensitive match depends only on the case-folded forms of the text and the pattern. |
| Text.ContainsFoldSelf | src/app/api/words/route.ts:19 | Every text matches itself case-insensitively. |
| Order.SortBy | src/app/api/words/route.ts:33 | `sort({ word: 1 })` returns the same words, as a permutation, ordered ascending by key. |
| Order.LexLeqRefl | src/components/thesaurus.tsx:34 | The string order is reflexive. |
| Order.LexLeqAntisym | src/components/thesaurus.tsx:34 | The string order is antisymmetric: two strings that each come no later than the other are equal. |
| Order.HeadIsLeast | src/components/thesaurus.tsx:34 | The head of a sorted list of strings comes no later than any of its members. |
| Order.SortedStringsUnique | src/components/thesaurus.tsx:34 | Two sorted lists of strings holding the same strings equally often are equal. |
| WordSearch.QueryFor | src/app/api/words/route.ts:14-25 | Chooses the filter: ids first, then non-blank text, then everything. What each choice selects is stated by `WordSearch.QueryForSelects`. |
| WordSearch.HasIds | src/app/api/words/route.ts:16 | The test `ids && Array.isArray(ids) && ids.length > 0` that picks the id lookup. Its effect is stated by `WordSearch.QueryForSelects` and `WordSearch.IdsTakePrecedence`. |
| WordSearch.AnyFieldContains | src/app/api/words/route.ts:19-24 | The `$or` of the three case-insensitive regexes on `word`, `romanized` and `english`, read as plain-text containment. Its use is stated by `WordSearch.QueryForSelects` and `Suggestions.SuggestionsMatchAndAreSorted`. |
| WordSearch.ByHeadword | src/app/api/words/route.ts:33 | `.sort({ word: 1 })`: the matches sorted by headword, as `Order.SortBy` states. Its use is stated by `WordSearch.SearchResultsSorted` and `WordSearch.Search`. |
| WordSearch.QueryForSelects | src/app/api/words/route.ts:14-25 | A non-empty `ids` list matches exactly the listed ids. Otherwise non-blank text matches a word whose `word`, `romanized` or `english` contains the text case-insensitively. Otherwise every word matches. |
| WordSearch.PageNumber | src/app/api/words/route.ts:27 | The page is at least 1. It defaults to 1, a value below 1 becomes 1, and any other value is kept. |
| WordSearch.PageSize | src/app/api/words/route.ts:28 | The limit lies in [1, 100]. It defaults to 10, values outside the range are clamped to its ends, and values inside are kept. |
| WordSearch.PageCount | src/app/api/words/route.ts:45 | `pages` is the fewest pages of `limit` rows that hold `total` rows, that is, `ceil(total / limit)`. |
| WordSearch.Window | src/app/api/words/route.ts:33 | `skip(s).limit(l)` returns `min(l, n - s)` rows, or none. Row i is input row `s + i`. |
| WordSearch.Offset | src/app/api/words/route.ts:31 | The rows on the pages before `page`, counted a page at a time. Its use is stated by `WordSearch.ConsecutivePagesAdjoin` and `WordSearch.FirstPageHoldsAllMatches`. |
| WordSearch.OffsetIsProduct | src/app/api/words/route.ts:31 | The page-by-page count equals `(page - 1) * limit`, the handler's `skip`. |
| WordSearch.Matching | src/app/api/words/route.ts:33-35 | The words `find(query)` selects, in store order. They are counted for `total`. What they are is stated by `WordSearch.SearchResultsMatch` and `WordSearch.BlankSearchMatchesEverything`. |
| WordSearch.Search | src/app/api/words/route.ts:6-52 | A caught error gives 500. Otherwise the answer is 200 with the clamped page and limit. `total` counts all matching words, on every page, and `pages = ceil(total / limit)`. The results are rows `[skip, skip + limit)` of the matches sorted by headword, with `skip = (page - 1) * limit`. |
| WordSearch.SearchResultsSorted | src/app/api/words/route.ts:33 | A page is sorted by headword and holds at most `limit` ≤ 100 words. |
| WordSearch.SearchResultsMatch | src/app/api/words/route.ts:16-33 | Every result is a stored word that satisfies the chosen filter. |
| WordSearch.IdsTakePrecedence | src/app/api/words/route.ts:16-17 | With a non-empty id list the search text is ignored, and every result has a listed id. |
| WordSearch.BlankSearchMatchesEverything | src/app/api/words/route.ts:14-18 | With no ids and blank or white-space-only text, `total` is the size of the whole collection. |
| WordSearch.HeadwordFindsItself | src/app/api/words/route.ts:18-24 | Searching for a stored word's non-blank headword, read as plain text, puts that word among the matches, so it counts toward `total`; whether it is on a given page depends on paging. A headword with regex metacharacters, such as "C++", is outside the plain-text reading. |
| WordSearch.FirstPageHoldsAllMatches | src/app/api/words/route.ts:16-33 | When all matches fit on the first page, every matching stored word is on it. Listed ids with no stored word are simply absent. |
| WordSearch.ConsecutivePagesAdjoin | src/app/api/words/route.ts:31-33 | If page p is not full, page p + 1 is empty. |
| WordSearch.FifteenMatchesMakeTwoPages | src/app/api/words/route.ts:31-45 | 15 matches at 10 per page give 10 results on page 1, a total of 15 and 2 pages. |
| WordSearch.IdsOnlyRequestIsOnePageOfTen | src/app/api/words/route.ts:10-28 | A body that carries only `ids` (the anonymous bookmark fetch) gets at most 10 words, while `total` counts every listed stored word. |
| Suggestions.SuggestionLimit | src/app/api/words/suggestions/route.ts:8 | The limit defaults to 8 when absent and is not clamped. |
| Suggestions.Take | src/app/api/words/suggestions/route.ts:29 | `limit(n)` returns a prefix of `min(n, size)` rows for positive n, `min(-n, size)` rows for negative n, and every row for 0. |
| Suggestions.Suggest | src/app/api/words/suggestions/route.ts:5-37 | A missing or empty `q` gives 400 "Invalid query". A caught error gives 500. Otherwise the answer is a prefix of the matches sorted by headword, and for a positive limit its length is `min(limit, matches)`. There is no skip. |
| Suggestions.InvalidQueryIgnoresStore | src/app/api/words/suggestions/route.ts:10-12 | The 400 answer to an invalid `q` does not depend on the store or on its failure. |
| Suggestions.SuggestionsMatchAndAreSorted | src/app/api/words/suggestions/route.ts:18-29 | Every suggestion is a stored word containing `q` case-insensitively in `word`, `english` or `romanized`, and the list is sorted. |
| Suggestions.SuggestionsAreNotCapped | src/app/api/words/suggestions/route.ts:8-29 | With 500 matches and limit 500, suggestions return 500 words where the search returns 100. |
| Entries.ParseStatus | src/models/Word.ts:27-31 | The schema's enum check: any status it accepts prints back as the given text. |
| Entries.ParseStatusName | src/models/Word.ts:27-31 | Each of the four statuses passes the enum check under its own name. |
| Entries.HasUserId | src/app/api/bookmarks/add/route.ts:9 | The session gate `session && session.user?.id`. Its use is stated by `BookmarkApi.BookmarkStore.Add`. |
| Entries.IsAdmin | src/app/api/word/create/route.ts:14 | The role test `role === "admin"` of the word endpoints. Its use is stated by `WordStore.WordCollection.Create` and `Middleware.DashboardAgreesWithWordGate`. |
| Entries.Public | src/app/api/users/profile/route.ts:21-24 | The public view keeps every user field except the password. |
| WordStore.NewWord | src/models/Word.ts:3-31 | The document `Word.create` stores is refused exactly when `status` is not one of the four names. Otherwise it holds the body's fields under the new id, `definitions` defaults to empty, and `status` defaults to approved. |
| WordStore.Patched | src/app/api/word/update/route.ts:29 | Every field present in the body replaces the stored one, every absent field is kept, and the id never changes. |
| WordStore.PatchedIdentityAndIdempotent | src/app/api/word/update/route.ts:29 | An empty body changes nothing, and applying a body twice equals applying it once. |
| WordStore.IndexOfId | src/app/api/word/update/route.ts:29 | `findById` finds the word with that id, or reports that none exists. |
| WordStore.WordCollection.Insert | src/app/api/word/create/route.ts:22-28 | Success appends exactly the new document and answers 201. A failure (schema, id collision or error) answers 400 and leaves the store unchanged. |
| WordStore.WordCollection.Put | src/app/api/words/route.ts:55-67 | A create with no session check: 201 with the stored document appended exactly when the store works, the id is fresh and the body is valid; otherwise 400 with the store unchanged. |
| WordStore.WordCollection.Create | src/app/api/word/create/route.ts:7-29 | No session gives 401 and any role other than "admin" gives 403, both before the store is touched. For an admin the create runs: 201 with the new document appended exactly when the store works, the id is fresh and the body is valid; otherwise 400 with the store unchanged. |
| WordStore.WordCollection.Update | src/app/api/word/update/route.ts:6-38 | The answers are 401, then 403, then 400 for a missing id, 500 on error, and 404 for an unknown id, each with the store unchanged. On success only the word with that id changes, taking the body's fields, and it is returned. |
| WordStore.WordCollection.Delete | src/app/api/word/delete/route.ts:6-37 | The same gates apply, and an unknown id gives 404. On success exactly that word is removed, the others stay in order, and no word with that id remains. |
| BookmarkApi.AfterAdd | src/app/api/bookmarks/add/route.ts:20-24 | The pair is present afterwards. The old records form a prefix of the new ones, one record is added only when the pair was absent, and the pairs stay free of duplicates. |
| BookmarkApi.AfterRemove | src/app/api/bookmarks/remove/route.ts:20 | `deleteOne` removes one copy of the pair, if there is one, and leaves every other record's count unchanged. Without duplicates the pair is gone afterwards. |
| BookmarkApi.AddThenRemove | src/app/api/bookmarks/add/route.ts:20-24 | Adding an absent pair and then removing it restores the collection exactly. |
| BookmarkApi.BookmarkStore.Add | src/app/api/bookmarks/add/route.ts:7-30 | 401 without a user id and 400 without a word id come first, then 500 on error, each with the store unchanged. An existing pair gives 400 "Bookmark already exists" with no new record. Otherwise exactly one record is appended and "Bookmark added" is answered. |
| BookmarkApi.BookmarkStore.Remove | src/app/api/bookmarks/remove/route.ts:7-26 | The same gates apply. Then at most one matching record is deleted, and "Bookmark removed" is answered even when none existed. |
| BookmarkApi.WordIdsOf | src/app/api/bookmarks/route.ts:15-16 | A session without a user id selects no word id, and there are never more ids than records. |
| BookmarkApi.WordIdsOfMember | src/app/api/bookmarks/route.ts:15-16 | An id is selected exactly when this user has a bookmark record for it. |
| BookmarkApi.ListBookmarks | src/app/api/bookmarks/route.ts:7-24 | No session user gives 401 and a caught error gives 500. Otherwise the answer is 200 with at most as many words as are stored. |
| BookmarkApi.ListedExactly | src/app/api/bookmarks/route.ts:15-18 | A word is listed exactly when it is stored and this user bookmarked its id. Bookmarks of deleted words and of other users do not show. |
| BookmarkApi.ListedOnce | src/app/api/bookmarks/route.ts:17 | The list has no repeated word, even when the user's bookmarks repeat an id. |
| BookmarkApi.OthersDoNotShow | src/app/api/bookmarks/route.ts:15 | Another user's new bookmark leaves this user's list unchanged. |
| BookmarkApi.AddedWordIsListed | src/app/api/bookmarks/route.ts:15-18 | After an add, the stored word appears in the user's list. |
| BookmarkApi.RemovedWordIsNotListed | src/app/api/bookmarks/route.ts:15-18 | After a remove, the word is no longer listed. |
| BookmarkHook.AnyKeyIs | src/hooks/use-bookmarks.ts:108-110 | True exactly when some shown entry's key, its `wordId` if non-empty and otherwise its `_id`, equals the id. |
| BookmarkHook.WithoutId | src/hooks/use-bookmarks.ts:81 | After the optimistic filter no entry has the removed `_id`, and the list does not grow. |
| BookmarkHook.WithoutIdKeepsOthers | src/hooks/use-bookmarks.ts:81 | An entry survives the filter exactly when it was shown and its `_id` differs from the removed id. |
| BookmarkHook.RemovedIsNotBookmarked | src/hooks/use-bookmarks.ts:78-110 | For the words the server sends, a removed id no longer reads as bookmarked. |
| BookmarkHook.LocalAdded | src/hooks/use-bookmarks.ts:59-62 | The id is present afterwards, the old list is a prefix of the new one, and the list grows by one only when the id was absent. |
| BookmarkHook.LocalAddedKeepsUnique | src/hooks/use-bookmarks.ts:60-61 | A local list without repeats keeps none after an add. |
| BookmarkHook.LocalRemoved | src/hooks/use-bookmarks.ts:93 | No copy of the id remains. |
| BookmarkHook.LocalRemovedKeepsOthers | src/hooks/use-bookmarks.ts:93 | Every other id keeps all of its occurrences. |
| BookmarkHook.LocalRemovedKeepsOrder | src/hooks/use-bookmarks.ts:93 | Removal works part by part, so the others keep their order. |
| BookmarkHook.LocalAddThenRemove | src/hooks/use-bookmarks.ts:59-94 | Saving an unsaved id and removing it again restores the local list. |
| BookmarkHook.BookmarksHook.BeginFetch | src/hooks/use-bookmarks.ts:13-39 | A non-forced call during a fetch does nothing. With a session user id the bookmark list is requested. An anonymous visitor with saved ids gets a `POST /api/words` with only those ids; without saved ids the list becomes empty with no request. The local list never changes. |
| BookmarkHook.BookmarksHook.FinishFetch | src/hooks/use-bookmarks.ts:17-45 | A good answer replaces the list and a failed one keeps it. `isFetching` is cleared either way. |
| BookmarkHook.Refetches | src/hooks/use-bookmarks.ts:56-71 | Whether `addBookmark` reaches `fetchBookmarks(true)`: after a local save it does, and after an id already saved it does not. After a request it does only when the answer is ok, since a failed answer throws past the refetch. Its use is stated by `BookmarkHook.BookmarksHook.AddBookmark`. |
| BookmarkHook.BookmarksHook.AddBookmark | src/hooks/use-bookmarks.ts:48-76 | When authenticated, the result is a request to the add endpoint, the local list is unchanged, and a refetch follows exactly when the server answers ok. Otherwise an absent id is appended once and a refetch follows; an id already present yields `AlreadySaved`, with nothing changed and no refetch. |
| BookmarkHook.BookmarksHook.RemoveBookmark | src/hooks/use-bookmarks.ts:78-106 | The optimistic filter runs first. Then comes either a request to the remove endpoint or removal of every local copy. |
| BookmarkHook.BookmarksHook.IsBookmarked | src/hooks/use-bookmarks.ts:108-111 | True exactly when some shown entry's key equals the id. |
| BookmarkHook.BookmarksHook.ToggleBookmark | src/hooks/use-bookmarks.ts:113-119 | An id that reads as bookmarked is removed, by a request to the remove endpoint when authenticated or locally otherwise; any other id is added, by a request to the add endpoint when authenticated, otherwise saved locally or reported as already saved. Each case states the new list and local ids. |
| WordCard.PairUp | src/components/word-card.tsx:19-28 | The pair list is as long as the longer input. Pair i holds each side's i-th text, or "" past that side's end. It is empty exactly when both inputs are. |
| WordCard.PairedSenses | src/components/word-card.tsx:16-29 | `PairUp` is applied to the senses, with a missing side read as empty. |
| WordCard.ExampleTexts | src/components/word-card.tsx:33-34 | A missing `examples` object gives two empty lists. Otherwise a missing side reads as empty and a present side is taken as given. |
| WordCard.PairedExamples | src/components/word-card.tsx:32-46 | The same zip with padding as the senses, over the examples. A missing `examples` object gives no pairs. |
| WordCard.ShowsMeanings | src/components/word-card.tsx:90 | The meanings section renders exactly when either sense list is non-empty. |
| WordCard.ShowsExamples | src/components/word-card.tsx:107 | The examples section renders exactly when either example list is non-empty, and never without `examples`. |
| Thesaurus.MissingListReadsAsEmpty | src/components/thesaurus.tsx:18-21 | A missing or non-array list gives the same word list and the same render decision as an empty one. |
| Thesaurus.AllWords | src/components/thesaurus.tsx:27-35 | The word list is sorted and no longer than both lists together. |
| Thesaurus.KeptIffNotBlank | src/components/thesaurus.tsx:31 | `word && word.trim() !== ''` holds exactly when the word is not white space only. |
| Thesaurus.AllWordsIsNonBlankPermutation | src/components/thesaurus.tsx:28-31 | Each non-blank word occurs as often as in synonyms ++ antonyms, duplicates kept, and each blank word does not occur. |
| Thesaurus.AllWordsHasNoBlank | src/components/thesaurus.tsx:31 | No entry is empty or white space only. |
| Thesaurus.AllWordsIsTheSortedKeptWords | src/components/thesaurus.tsx:27-35 | Every sorted arrangement of the kept words is `allWords`, so the result does not depend on how the sort breaks ties. |
| Thesaurus.Kept | src/components/thesaurus.tsx:31 | The filter test `word && word.trim() !== ''`. What it keeps is stated by `Thesaurus.KeptIffNotBlank`. |
| Thesaurus.Renders | src/components/thesaurus.tsx:23-41 | The panel renders when either list, read as an array, has an entry, blank or not. Its relation to the word list is stated by `Thesaurus.WordsImplyRender` and `Thesaurus.BlankListsStillRender`. |
| Thesaurus.WordsImplyRender | src/components/thesaurus.tsx:39-41 | If any word is looked up, the panel renders. |
| Thesaurus.BlankListsStillRender | src/components/thesaurus.tsx:23-41 | A synonym list holding only a blank string renders the panel while no word is looked up. |
| Thesaurus.BadgeLink | src/components/thesaurus.tsx:43-79 | A badge links to the word page exactly when a suggestion exists for the word. Otherwise it links to a search for the word. |
| Thesaurus.Href | src/components/thesaurus.tsx:49-66 | A word page is `/words/<id>` and a search is `/?q=<word>`. |
| Thesaurus.HrefsAreDistinct | src/components/thesaurus.tsx:49-66 | Two badges share a target only when their links are equal. |
| Middleware.Decide | src/middleware.ts:5-26 | Non-dashboard paths pass. On a dashboard path, no token redirects to "/signin" with `callbackUrl` set to the URL, and a role other than "admin" redirects to "/". The request passes exactly when it is not for the dashboard or the token's role is "admin". |
| Middleware.SignInBeforeRole | src/middleware.ts:11-22 | Authentication is checked before role. Without a token the redirect is to sign-in whatever the role. |
| Middleware.DashboardAgreesWithWordGate | src/middleware.ts:19 | The dashboard admits exactly the roles the word endpoints treat as admin. |
| Middleware.IsDashboardRoute | src/middleware.ts:7 | `pathname.startsWith("/dashboard")`, a test on characters. Its use is stated by `Middleware.Decide` and `Middleware.MatchedPathsAreDashboardRoutes`. |
| Middleware.MatcherRuns | src/middleware.ts:29-33 | The route matcher `/dashboard/:path*` runs the middleware on "/dashboard" and on paths below it only. Its use is stated by `Middleware.Respond`. |
| Middleware.MatchedPathsAreDashboardRoutes | src/middleware.ts:7-10 | Every path the matcher runs passes the guard's prefix test. |
| Middleware.Respond | src/middleware.ts:5-33 | Paths outside the matcher pass untouched. A matched path without a token is sent to "/signin" with `callbackUrl` set to the URL. A matched path whose token has a role other than "admin" is sent to "/". A request passes exactly when it is outside the matcher or its token's role is "admin". |
| Middleware.SiblingPathsPass | src/middleware.ts:7-33 | The guard's character prefix test alone would hold back "/dashboards". The matcher never runs the guard there, so "/dashboards" passes, and so does "/dash". |
| Users.IndexOfEmail | src/app/api/users/profile/route.ts:21-24 | `findOne({ email })` finds the first user with that email, or reports that none exists. |
| Users.IndexOfEmailUnique | src/models/User.ts:5 | Because emails are unique, the user found is the only one with that email. |
| Users.GetProfile | src/app/api/users/profile/route.ts:7-41 | No session email gives 401, an error gives 500 and an unknown user gives 404. The answer is 200 exactly when the user exists, and it carries the public view of a stored user with that email. |
| Users.PublicHidesPassword | src/app/api/users/profile/route.ts:23 | The public view does not depend on the password. |
| Users.HasEmail | src/app/api/users/profile/route.ts:11 | The session gate `session?.user?.email`. Its use is stated by `Users.GetProfile` and `Users.UserStore.PatchProfile`. |
| Users.AcceptedName | src/app/api/users/profile/route.ts:59 | The name test: `name` is a non-empty string whose trimmed form is not empty. What it accepts is stated by `Users.AcceptedNameIffNotBlank`. |
| Users.AcceptedNameIffNotBlank | src/app/api/users/profile/route.ts:59 | A name is accepted exactly when it is a string that is not white space only. |
| Users.Renamed | src/app/api/users/profile/route.ts:69-76 | The update sets the name and `updatedAt` and leaves every other field unchanged. |
| Users.NewUser | src/app/api/auth/register/route.ts:23-28 | A new user always has role user and the given hash as its password. It has no image, and `createdAt` and `updatedAt` are both the current time. |
| Users.UserStore.PatchProfile | src/app/api/users/profile/route.ts:44-98 | 401, then 400 for a missing, non-string or blank name, then 500, then 404, each with no write. On success only the matching user changes: it gets the trimmed name, which is non-empty and starts with no white space, and the new `updatedAt`, and the answer omits the password. |
| Users.UserStore.Register | src/app/api/auth/register/route.ts:6-36 | A missing or empty field gives 400. An unexpected failure gives an error body with status 200. A taken email gives 400 "User already exists". All three leave the store unchanged. Otherwise exactly one user with role user and the hashed password is appended, and 201 is answered. |
| Users.ProfileShowsRename | src/app/api/users/profile/route.ts:69-90 | After a rename, the profile shows the renamed user. |
| Users.RegisteredProfile | src/app/api/auth/register/route.ts:23-31 | A newly registered user's profile reads back as that user, without the password. |

## Left out

- Regular expressions: user text is compiled as a regex. The model matches it as plain text, folding A–Z only. Metacharacters, invalid patterns (which throw) and Unicode case folding are not modelled.
- Sort order: the model orders strings by code point, which is MongoDB's order for `word`. JavaScript's `sort()` in the thesaurus compares UTF-16 units, so it differs only for characters outside the Basic Multilingual Plane.
- `parseInt` on non-numeric `page`, `limit` or suggestion `limit`, which gives `NaN`, is not modelled. Neither are non-integral numbers.
- WordSearch.PageNumber and WordSearch.PageSize: the model reads JSON numbers as unbounded integers. In the source they are doubles, and `parseInt` reads their string form. So a number of 1e21 or more, printed in exponent form, gives 1: `{limit: 1e21}` gets limit 1 where the model gives 100, and `{page: 1e21}` gets page 1 where the model gives an empty page far out. Precision loss above 2^53 is not modelled either.
- WordSearch.Search and Suggestions.Suggest: the model fixes the order of words that share a headword to store order, through the stable `Order.SortBy`. `sort({ word: 1 })` leaves that order unspecified, and it need not even be consistent from one `skip`/`limit` page to the next. Homographs make such ties common. The sortedness, membership and counts these members state do not depend on this choice; the exact page contents and the suggestion prefix do.
- Thesaurus.BadgeLink: the suggestion map is modelled as a Dafny `map`. In the source it is a plain object, so a word such as "constructor", "toString" or "__proto__" finds an inherited property and the badge links to `/words/undefined`. The model links such a word to a search.
- Middleware.MatcherRuns: the matcher is read as "/dashboard" or a path starting "/dashboard/". Next.js details such as trailing-slash normalisation, `basePath`, locales and the data routes under `/_next` are not modelled.
- Non-string JSON values in request bodies are not modelled: a numeric `search` whose `trim` throws, non-string `wordId`, `email` or `name` in bookmarks and registration, and non-string array elements. The one exception is the `name` of a profile update, which is modelled.
- WordStore.WordCollection.Update: the patch carries only valid statuses. `findByIdAndUpdate` runs no validators, so an invalid status string in the body, which would be stored, is not modelled.
- ObjectId cast errors for malformed ids, which the handlers answer with 500.
- Words without a `word` field, which the schema allows. The model takes the required field of `DictionaryEntry`.
- The timestamps, `createdBy`/`updatedBy`/`approvedBy`, the four-tier role system, permissions and contribution counters. No handler reads or updates them.
- The connection cache in `src/lib/mongoose.ts`, NextAuth and Google sign-in in `src/lib/auth-options.ts` and `src/hooks/use-auth.ts`, and bcrypt. Only the session they yield enters the model, and the hash is a parameter.
- The random-word endpoint, which depends on `Math.random`.
- `src/hooks/use-word-suggestions.ts`, which fills the thesaurus suggestion map. The map is a parameter of `BadgeLink`.
- `src/hooks/use-search-suggestion.ts` and the UI components without decision logic.
- Concurrency: two simultaneous bookmark adds can both pass the duplicate check, since the collection has no unique index. The model is sequential, so `NoDuplicates` is an invariant here.
- Bookmark list session: how MongoDB matches `{ userId: undefined }` is not modelled. The model lets a session without a user id select no bookmark.
- The hook's toasts, the cross-tab `storage` event, JSON parsing of local storage and the timing of React state updates are not modelled. Server requests are returned as values, and their answers come back through `FinishFetch`.
- URI encoding of the search link, `encodeURIComponent`.
- Malformed JSON bodies are not modelled. Where `req.json()` runs outside `try`, they cause an unhandled error.
