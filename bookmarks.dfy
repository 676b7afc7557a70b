/** The durable bookmark registry: `POST /api/bookmarks/add`,
    `POST /api/bookmarks/remove` (src/app/api/bookmarks/add/route.ts,
    src/app/api/bookmarks/remove/route.ts) over the Bookmark collection, and the
    read-only list `GET /api/bookmarks` (src/app/api/bookmarks/route.ts) that
    resolves a user's bookmarks to words. */
module BookmarkApi {
  import opened Common
  import opened Seqs
  import opened Entries
  import opened WordSearch

  /** No (userId, wordId) pair is stored twice. The collection has no unique index;
      in a sequential run the duplicate check of `add` keeps this true. */
  predicate NoDuplicates(rs: seq<Bookmark>) {
    forall i, j :: 0 <= i < j < |rs| ==> rs[i] != rs[j]
  }

  function SameRecord(b: Bookmark): Bookmark -> bool {
    (x: Bookmark) => x == b
  }

  /** The collection after `findOne({ userId, wordId })` and, when that finds
      nothing, `Bookmark.create({ userId, wordId })`. */
  function AfterAdd(rs: seq<Bookmark>, b: Bookmark): (r: seq<Bookmark>)
    ensures b in r
    ensures rs <= r
    ensures |r| == if b in rs then |rs| else |rs| + 1
    ensures NoDuplicates(rs) ==> NoDuplicates(r)
  {
    if b in rs then rs else rs + [b]
  }

  /** Deleting the first copy of a record from a collection without duplicates
      leaves no copy of it and still no duplicates. */
  lemma RemoveFirstCopy(rs: seq<Bookmark>, i: nat)
    requires i < |rs| && NoDuplicates(rs)
    ensures rs[i] !in RemoveAt(rs, i)
    ensures NoDuplicates(RemoveAt(rs, i))
  {
    var r := RemoveAt(rs, i);
    forall j | 0 <= j < |r| ensures r[j] != rs[i] {
      if j < i { assert r[j] == rs[j]; } else { assert r[j] == rs[j + 1]; }
    }
    forall j, k | 0 <= j < k < |r| ensures r[j] != r[k] {
      var j' := if j < i then j else j + 1;
      var k' := if k < i then k else k + 1;
      assert r[j] == rs[j'] && r[k] == rs[k'] && j' < k';
    }
  }

  /** The collection after `deleteOne({ userId, wordId })`: the first matching
      record goes, if there is one, and no other record changes. */
  function AfterRemove(rs: seq<Bookmark>, b: Bookmark): (r: seq<Bookmark>)
    ensures multiset(r) == multiset(rs) - multiset{b}
    ensures |r| == if b in rs then |rs| - 1 else |rs|
    ensures b !in rs ==> r == rs
    ensures NoDuplicates(rs) ==> NoDuplicates(r) && b !in r
  {
    var i := FirstIndex(rs, SameRecord(b));
    assert b in rs <==> i >= 0 by {
      assert i >= 0 ==> rs[i] == b;
      assert i == -1 ==> forall j :: 0 <= j < |rs| ==> rs[j] != b;
    }
    if i == -1 then rs
    else
      assert NoDuplicates(rs) ==> NoDuplicates(RemoveAt(rs, i)) && b !in RemoveAt(rs, i) by {
        if NoDuplicates(rs) { RemoveFirstCopy(rs, i); }
      }
      RemoveAt(rs, i)
  }

  /** Adding a pair that was not stored and removing it again restores the collection. */
  lemma AddThenRemove(rs: seq<Bookmark>, b: Bookmark)
    requires b !in rs
    ensures AfterRemove(AfterAdd(rs, b), b) == rs
  {
    var added := rs + [b];
    var i := FirstIndex(added, SameRecord(b));
    assert added[|rs|] == b;
    assert forall j :: 0 <= j < |rs| ==> added[j] != b;
    assert i == |rs|;
    assert RemoveAt(added, i) == rs;
  }

  class BookmarkStore {
    var records: seq<Bookmark>

    ghost predicate Valid()
      reads this
    {
      NoDuplicates(records)
    }

    constructor (initial: seq<Bookmark>)
      requires NoDuplicates(initial)
      ensures Valid() && records == initial
    {
      records := initial;
    }

    /** `POST /api/bookmarks/add`: 401 without a session user id, 400 without a
        word id, 500 when the database fails; an existing pair is refused with 400
        and otherwise exactly one record is appended. */
    method Add(session: Option<SessionUser>, wordId: Option<string>, storeFails: bool) returns (r: Response)
      requires Valid()
      modifies this
      ensures Valid()
      ensures !HasUserId(session) ==> r == Response(401, ErrorBody("Unauthorized")) && records == old(records)
      ensures HasUserId(session) && !Present(wordId) ==>
                r == Response(400, ErrorBody("Word ID is required")) && records == old(records)
      ensures HasUserId(session) && Present(wordId) && storeFails ==>
                r == Response(500, ErrorBody("Internal server error")) && records == old(records)
      ensures HasUserId(session) && Present(wordId) && !storeFails ==>
                var b := Bookmark(session.value.id.value, wordId.value);
                && records == AfterAdd(old(records), b)
                && (b in old(records) ==> r == Response(400, MessageBody("Bookmark already exists")))
                && (b !in old(records) ==> r == Response(200, MessageBody("Bookmark added")))
    {
      if !HasUserId(session) {
        return Response(401, ErrorBody("Unauthorized"));
      }
      if !Present(wordId) {
        return Response(400, ErrorBody("Word ID is required"));
      }
      if storeFails {
        return Response(500, ErrorBody("Internal server error"));
      }
      var b := Bookmark(session.value.id.value, wordId.value);
      if FirstIndex(records, SameRecord(b)) >= 0 {
        return Response(400, MessageBody("Bookmark already exists"));
      }
      assert forall j :: 0 <= j < |records| ==> records[j] != b;
      records := records + [b];
      r := Response(200, MessageBody("Bookmark added"));
    }

    /** `POST /api/bookmarks/remove`: the same two gates and 500 on a database
        failure; otherwise at most one matching record is deleted and the answer is
        "Bookmark removed" whether or not one existed. */
    method Remove(session: Option<SessionUser>, wordId: Option<string>, storeFails: bool) returns (r: Response)
      requires Valid()
      modifies this
      ensures Valid()
      ensures !HasUserId(session) ==> r == Response(401, ErrorBody("Unauthorized")) && records == old(records)
      ensures HasUserId(session) && !Present(wordId) ==>
                r == Response(400, ErrorBody("Word ID is required")) && records == old(records)
      ensures HasUserId(session) && Present(wordId) && storeFails ==>
                r == Response(500, ErrorBody("Internal server error")) && records == old(records)
      ensures HasUserId(session) && Present(wordId) && !storeFails ==>
                records == AfterRemove(old(records), Bookmark(session.value.id.value, wordId.value))
                && r == Response(200, MessageBody("Bookmark removed"))
    {
      if !HasUserId(session) {
        return Response(401, ErrorBody("Unauthorized"));
      }
      if !Present(wordId) {
        return Response(400, ErrorBody("Word ID is required"));
      }
      if storeFails {
        return Response(500, ErrorBody("Internal server error"));
      }
      records := AfterRemove(records, Bookmark(session.value.id.value, wordId.value));
      r := Response(200, MessageBody("Bookmark removed"));
    }
  }

  function OwnedBy(userId: string): Bookmark -> bool {
    (b: Bookmark) => b.userId == userId
  }

  /** `Bookmark.find({ userId }).select("wordId")` mapped to the word ids. A session
      without a user id selects no record. */
  function WordIdsOf(rs: seq<Bookmark>, userId: Option<string>): (ids: seq<string>)
    ensures userId.None? ==> ids == []
    ensures |ids| <= |rs|
  {
    if userId.None? then []
    else
      var mine := Filter(rs, OwnedBy(userId.value));
      seq(|mine|, i requires 0 <= i < |mine| => mine[i].wordId)
  }

  /** A word id is listed for a user exactly when that user has bookmarked it. */
  lemma WordIdsOfMember(rs: seq<Bookmark>, userId: Option<string>, wordId: string)
    ensures wordId in WordIdsOf(rs, userId) <==> userId.Some? && Bookmark(userId.value, wordId) in rs
  {
    if userId.Some? {
      var mine := Filter(rs, OwnedBy(userId.value));
      var ids := WordIdsOf(rs, userId);
      FilterMember(rs, OwnedBy(userId.value), Bookmark(userId.value, wordId));
      if wordId in ids {
        var k :| 0 <= k < |ids| && ids[k] == wordId;
        assert mine[k] == Bookmark(userId.value, wordId);
      }
      if Bookmark(userId.value, wordId) in rs {
        var k :| 0 <= k < |mine| && mine[k] == Bookmark(userId.value, wordId);
        assert ids[k] == wordId;
      }
    }
  }

  /** `GET /api/bookmarks`: 401 without a session user, 500 when the database
      fails, otherwise the stored words whose id is among the user's bookmarks,
      in store order (`Word.find({ _id: { $in: wordIds } })`). */
  function ListBookmarks(records: seq<Bookmark>, words: seq<Word>, session: Option<SessionUser>, storeFails: bool)
    : (r: Response)
    ensures session.None? ==> r == Response(401, ErrorBody("Unauthorized"))
    ensures session.Some? && storeFails ==> r == Response(500, ErrorBody("Internal Server Error"))
    ensures session.Some? && !storeFails ==> r.status == 200 && r.body.ResultsBody? && |r.body.found| <= |words|
  {
    if session.None? then Response(401, ErrorBody("Unauthorized"))
    else if storeFails then Response(500, ErrorBody("Internal Server Error"))
    else Response(200, ResultsBody(Matching(words, ByIds(WordIdsOf(records, session.value.id)))))
  }

  /** The list holds exactly the stored words this user bookmarked: words
      bookmarked only by others are not listed, and bookmarks of deleted words
      are silently dropped. */
  lemma ListedExactly(records: seq<Bookmark>, words: seq<Word>, session: SessionUser, w: Word)
    ensures w in ListBookmarks(records, words, Some(session), false).body.found <==>
              w in words && session.id.Some? && Bookmark(session.id.value, w.id) in records
  {
    var q := ByIds(WordIdsOf(records, session.id));
    FilterMember(words, MatchesQuery(q), w);
    WordIdsOfMember(records, session.id, w.id);
  }

  /** Filtering a collection with distinct ids keeps the ids distinct. */
  lemma {:induction false} FilterKeepsDistinct(ws: seq<Word>, keep: Word -> bool)
    requires DistinctIds(ws)
    ensures DistinctIds(Filter(ws, keep))
    decreases |ws|
  {
    if |ws| > 0 {
      var rest := Filter(ws[1..], keep);
      FilterKeepsDistinct(ws[1..], keep);
      if keep(ws[0]) {
        forall j | 0 <= j < |rest| ensures rest[j].id != ws[0].id {
          FilterMember(ws[1..], keep, rest[j]);
          var k :| 0 <= k < |ws[1..]| && ws[1..][k] == rest[j];
          assert ws[k + 1] == rest[j];
        }
        var r := Filter(ws, keep);
        assert r == [ws[0]] + rest;
        forall i, j | 0 <= i < j < |r| ensures r[i].id != r[j].id {
          assert r[j] == rest[j - 1];
          assert i > 0 ==> r[i] == rest[i - 1];
        }
      } else {
        assert Filter(ws, keep) == rest;
      }
    }
  }

  /** A word bookmarked twice is still listed once: the `$in` lookup reads each
      stored word at most once. */
  lemma ListedOnce(records: seq<Bookmark>, words: seq<Word>, session: SessionUser)
    requires DistinctIds(words)
    ensures DistinctIds(ListBookmarks(records, words, Some(session), false).body.found)
  {
    FilterKeepsDistinct(words, MatchesQuery(ByIds(WordIdsOf(records, session.id))));
  }

  /** Another user's bookmark does not change what this user's list shows. */
  lemma OthersDoNotShow(records: seq<Bookmark>, words: seq<Word>, session: SessionUser, other: Bookmark)
    requires session.id.Some? ==> other.userId != session.id.value
    ensures ListBookmarks(records + [other], words, Some(session), false)
         == ListBookmarks(records, words, Some(session), false)
  {
    if session.id.Some? {
      var keep := OwnedBy(session.id.value);
      FilterConcat(records, [other], keep);
      assert [other][1..] == [];
      assert Filter([other], keep) == [];
      assert Filter(records + [other], keep) == Filter(records, keep);
      assert WordIdsOf(records + [other], session.id) == WordIdsOf(records, session.id);
    }
  }

  /** After a successful add, the bookmarked word shows in the user's list. */
  lemma AddedWordIsListed(records: seq<Bookmark>, words: seq<Word>, session: SessionUser, w: Word)
    requires session.id.Some? && w in words
    ensures w in ListBookmarks(AfterAdd(records, Bookmark(session.id.value, w.id)), words, Some(session), false)
                 .body.found
  {
    ListedExactly(AfterAdd(records, Bookmark(session.id.value, w.id)), words, session, w);
  }

  /** After a remove, the word no longer shows in the user's list. */
  lemma RemovedWordIsNotListed(records: seq<Bookmark>, words: seq<Word>, session: SessionUser, w: Word)
    requires NoDuplicates(records) && session.id.Some?
    ensures w !in ListBookmarks(AfterRemove(records, Bookmark(session.id.value, w.id)), words, Some(session), false)
                  .body.found
  {
    ListedExactly(AfterRemove(records, Bookmark(session.id.value, w.id)), words, session, w);
  }
}
