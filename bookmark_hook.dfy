/** The client hook `useBookmarks` (src/hooks/use-bookmarks.ts): the shown
    bookmark list, the `isFetching` guard, and the anonymous path that keeps a
    list of word ids in local storage. Requests to the server are returned as
    values; their answers come back through `FinishFetch`. */
module BookmarkHook {
  import opened Common
  import opened Seqs
  import opened WordSearch

  /** `useSession().status`, with the session's user id when authenticated. */
  datatype AuthStatus = Loading | Authenticated(userId: Option<string>) | Unauthenticated

  /** An entry of the shown list: the server sends words, keyed by `_id`; an entry
      may also carry a `wordId`. */
  datatype Shown = Shown(id: string, wordId: Option<string>)

  /** `b.wordId?.toString() || b._id?.toString()`: a non-empty `wordId` wins. */
  function Key(b: Shown): string {
    if Present(b.wordId) then b.wordId.value else b.id
  }

  /** `bookmarks.some(b => key(b) === wordId)`. */
  function AnyKeyIs(bs: seq<Shown>, wordId: string): (r: bool)
    ensures r <==> exists i :: 0 <= i < |bs| && Key(bs[i]) == wordId
  {
    if |bs| == 0 then false
    else
      assert forall i :: 1 <= i < |bs| ==> bs[i] == bs[1..][i - 1];
      Key(bs[0]) == wordId || AnyKeyIs(bs[1..], wordId)
  }

  function IdIsNot(wordId: string): Shown -> bool {
    (b: Shown) => b.id != wordId
  }

  /** The optimistic update `prev.filter(b => b._id !== wordId)`. */
  function WithoutId(bs: seq<Shown>, wordId: string): (r: seq<Shown>)
    ensures forall i :: 0 <= i < |r| ==> r[i].id != wordId
    ensures |r| <= |bs|
  {
    Filter(bs, IdIsNot(wordId))
  }

  /** Exactly the entries whose `_id` is the removed id are dropped. */
  lemma WithoutIdKeepsOthers(bs: seq<Shown>, wordId: string, b: Shown)
    ensures b in WithoutId(bs, wordId) <==> b in bs && b.id != wordId
  {
    FilterMember(bs, IdIsNot(wordId), b);
  }

  /** The removal keys on `_id` while `isBookmarked` keys on `wordId` first; for
      the words the server sends (no `wordId`, or a `wordId` equal to `_id`) the
      two agree, and a removed word no longer reads as bookmarked. */
  lemma RemovedIsNotBookmarked(bs: seq<Shown>, wordId: string)
    requires forall i :: 0 <= i < |bs| ==> !Present(bs[i].wordId) || bs[i].wordId == Some(bs[i].id)
    ensures !AnyKeyIs(WithoutId(bs, wordId), wordId)
  {
    var r := WithoutId(bs, wordId);
    forall i | 0 <= i < |r| ensures Key(r[i]) != wordId {
      WithoutIdKeepsOthers(bs, wordId, r[i]);
      var k :| 0 <= k < |bs| && bs[k] == r[i];
    }
  }

  /** The local list after `addBookmark` on the anonymous path: `push` only when
      absent. */
  function LocalAdded(local: seq<string>, wordId: string): (r: seq<string>)
    ensures wordId in r
    ensures local <= r
    ensures |r| == if wordId in local then |local| else |local| + 1
  {
    if wordId in local then local else local + [wordId]
  }

  function IsNot(wordId: string): string -> bool {
    (x: string) => x != wordId
  }

  /** The local list after `removeBookmark` on the anonymous path:
      `local.filter(id => id !== wordId)`. */
  function LocalRemoved(local: seq<string>, wordId: string): (r: seq<string>)
    ensures wordId !in r
    ensures |r| <= |local|
  {
    Filter(local, IsNot(wordId))
  }

  /** Every other id keeps all of its occurrences. */
  lemma LocalRemovedKeepsOthers(local: seq<string>, wordId: string, x: string)
    requires x != wordId
    ensures multiset(LocalRemoved(local, wordId))[x] == multiset(local)[x]
  {
    FilterMultiset(local, IsNot(wordId));
  }

  /** The others also keep their order: removing from a concatenation is
      removing from each part. */
  lemma LocalRemovedKeepsOrder(a: seq<string>, b: seq<string>, wordId: string)
    ensures LocalRemoved(a + b, wordId) == LocalRemoved(a, wordId) + LocalRemoved(b, wordId)
  {
    FilterConcat(a, b, IsNot(wordId));
  }

  /** Saving an id that was not saved and removing it again restores the list. */
  lemma LocalAddThenRemove(local: seq<string>, wordId: string)
    requires wordId !in local
    ensures LocalRemoved(LocalAdded(local, wordId), wordId) == local
  {
    FilterConcat(local, [wordId], IsNot(wordId));
    FilterAll(local, IsNot(wordId));
    assert [wordId][1..] == [];
    assert Filter([wordId], IsNot(wordId)) == [];
  }

  /** A list without repeats keeps none after any number of anonymous adds. */
  lemma LocalAddedKeepsUnique(local: seq<string>, wordId: string)
    requires forall i, j :: 0 <= i < j < |local| ==> local[i] != local[j]
    ensures var r := LocalAdded(local, wordId); forall i, j :: 0 <= i < j < |r| ==> r[i] != r[j]
  {
    var r := LocalAdded(local, wordId);
    if wordId !in local {
      forall i, j | 0 <= i < j < |r| ensures r[i] != r[j] {
        assert j == |local| ==> r[i] in local && r[j] == wordId;
      }
    }
  }

  /** What `fetchBookmarks` sends, if anything. */
  datatype FetchRequest =
    | Skipped                      // another fetch is in flight and this one is not forced
    | NoRequest                    // nothing to ask
    | GetBookmarks                 // `GET /api/bookmarks`
    | PostWords(body: SearchRequest) // `POST /api/words` with `{ ids }`

  datatype AddOutcome = PostAdd(wordId: string) | SavedLocally | AlreadySaved

  /** Whether `addBookmark` goes on to `fetchBookmarks(true)`: a local save does;
      an id already saved returns first; a request to the add endpoint does only
      when the answer is ok (`ok`), since a failed answer throws past the refetch. */
  function Refetches(a: AddOutcome, ok: bool): bool {
    match a
    case PostAdd(_) => ok
    case SavedLocally => true
    case AlreadySaved => false
  }

  datatype RemoveOutcome = PostRemove(wordId: string) | RemovedLocally

  datatype ToggleOutcome = Removed(removal: RemoveOutcome) | Added(addition: AddOutcome)

  class BookmarksHook {
    const status: AuthStatus
    /** The JSON array under the local storage key "bookmarks". */
    var local: seq<string>
    var bookmarks: seq<Shown>
    var isFetching: bool

    constructor (status: AuthStatus, stored: seq<string>)
      ensures this.status == status && local == stored && bookmarks == [] && !isFetching
    {
      this.status := status;
      local := stored;
      bookmarks := [];
      isFetching := false;
    }

    /** `fetchBookmarks(force)` up to its request: a non-forced call while a fetch
        is in flight does nothing; an authenticated session with a user id asks the
        bookmark list; an anonymous visitor with saved ids asks those words; an
        anonymous visitor without saved ids gets an empty list at once. */
    method BeginFetch(force: bool) returns (req: FetchRequest)
      modifies this
      ensures local == old(local)
      ensures old(isFetching) && !force ==>
                req == Skipped && bookmarks == old(bookmarks) && isFetching == old(isFetching)
      ensures !old(isFetching) || force ==>
                if status.Authenticated? && Present(status.userId) then
                  req == GetBookmarks && isFetching && bookmarks == old(bookmarks)
                else if status.Unauthenticated? && |local| > 0 then
                  req == PostWords(SearchRequest(None, None, None, Some(local))) && isFetching
                  && bookmarks == old(bookmarks)
                else if status.Unauthenticated? then
                  req == NoRequest && !isFetching && bookmarks == []
                else
                  req == NoRequest && !isFetching && bookmarks == old(bookmarks)
    {
      if isFetching && !force {
        return Skipped;
      }
      isFetching := true;
      if status.Authenticated? && Present(status.userId) {
        req := GetBookmarks;
      } else if status.Unauthenticated? && |local| > 0 {
        req := PostWords(SearchRequest(None, None, None, Some(local)));
      } else {
        if status.Unauthenticated? {
          bookmarks := [];
        }
        req := NoRequest;
        isFetching := false;
      }
    }

    /** The end of a fetch: the results replace the list when the answer is
        good (`reply` is `None` for a failed request, which leaves the list) and
        `isFetching` is cleared either way. */
    method FinishFetch(reply: Option<seq<Shown>>)
      modifies this
      ensures !isFetching && local == old(local)
      ensures bookmarks == if reply.Some? then reply.value else old(bookmarks)
    {
      if reply.Some? {
        bookmarks := reply.value;
      }
      isFetching := false;
    }

    /** `addBookmark(wordId)`: authenticated, a request to the add endpoint,
        followed by a refetch only when it is answered ok; otherwise the id is
        saved locally and a refetch follows, unless the id was already there, in
        which case nothing changes and no refetch follows. */
    method AddBookmark(wordId: string) returns (a: AddOutcome)
      modifies this
      ensures bookmarks == old(bookmarks) && isFetching == old(isFetching)
      ensures status.Authenticated? ==> a == PostAdd(wordId) && local == old(local)
      ensures status.Authenticated? ==> forall ok :: Refetches(a, ok) == ok
      ensures !status.Authenticated? ==> local == LocalAdded(old(local), wordId)
      ensures !status.Authenticated? ==> a == if wordId in old(local) then AlreadySaved else SavedLocally
      ensures !status.Authenticated? ==> forall ok :: Refetches(a, ok) <==> wordId !in old(local)
    {
      if status.Authenticated? {
        return PostAdd(wordId);
      }
      if wordId !in local {
        local := local + [wordId];
        a := SavedLocally;
      } else {
        a := AlreadySaved;
      }
    }

    /** `removeBookmark(wordId)`: the optimistic update first, then either a
        request to the remove endpoint or the removal of every local copy. */
    method RemoveBookmark(wordId: string) returns (a: RemoveOutcome)
      modifies this
      ensures isFetching == old(isFetching)
      ensures bookmarks == WithoutId(old(bookmarks), wordId)
      ensures status.Authenticated? ==> a == PostRemove(wordId) && local == old(local)
      ensures !status.Authenticated? ==> a == RemovedLocally && local == LocalRemoved(old(local), wordId)
    {
      bookmarks := WithoutId(bookmarks, wordId);
      if status.Authenticated? {
        a := PostRemove(wordId);
      } else {
        local := LocalRemoved(local, wordId);
        a := RemovedLocally;
      }
    }

    /** `isBookmarked(wordId)`. */
    function IsBookmarked(wordId: string): (r: bool)
      reads this
      ensures r <==> exists i :: 0 <= i < |bookmarks| && Key(bookmarks[i]) == wordId
    {
      AnyKeyIs(bookmarks, wordId)
    }

    /** `toggleBookmark(wordId)`: a remove when the id reads as bookmarked, an add
        otherwise. */
    method ToggleBookmark(wordId: string) returns (t: ToggleOutcome)
      modifies this
      ensures isFetching == old(isFetching)
      ensures old(IsBookmarked(wordId)) ==>
                t == Removed(if status.Authenticated? then PostRemove(wordId) else RemovedLocally)
                && bookmarks == WithoutId(old(bookmarks), wordId)
                && local == (if status.Authenticated? then old(local) else LocalRemoved(old(local), wordId))
      ensures !old(IsBookmarked(wordId)) ==>
                t == Added(if status.Authenticated? then PostAdd(wordId)
                           else if wordId in old(local) then AlreadySaved
                           else SavedLocally)
                && bookmarks == old(bookmarks)
                && local == (if status.Authenticated? then old(local) else LocalAdded(old(local), wordId))
    {
      if IsBookmarked(wordId) {
        var a := RemoveBookmark(wordId);
        t := Removed(a);
      } else {
        var a := AddBookmark(wordId);
        t := Added(a);
      }
    }
  }
}
