/** The words collection and the handlers that change it: the unguarded
    `PUT /api/words` (src/app/api/words/route.ts), and the admin-only
    `POST /api/word/create`, `PUT /api/word/update?id=` and
    `DELETE /api/word/delete?id=` (src/app/api/word/.../route.ts). */
module WordStore {
  import opened Common
  import opened Seqs
  import opened Entries

  /** A create body (`Partial<DictionaryEntry>`); `status` is raw text because the
      schema, not the handler, checks it against the enum. */
  datatype WordInput = WordInput(
    word: string,
    english: Option<string>,
    romanized: Option<string>,
    phonetic: Option<string>,
    definitions: Option<seq<Definition>>,
    status: Option<string>)

  /** The document `Word.create(body)` builds under the id MongoDB assigns: the
      schema defaults applied, or nothing when the enum check on `status` fails. */
  function NewWord(body: WordInput, id: string): (r: Option<Word>)
    ensures r.Some? <==> body.status.None? || ParseStatus(body.status.value).Some?
    ensures r.Some? ==> r.value.id == id && r.value.word == body.word && r.value.english == body.english
                        && r.value.romanized == body.romanized && r.value.phonetic == body.phonetic
    ensures r.Some? && body.definitions.None? ==> r.value.definitions == []
    ensures r.Some? && body.definitions.Some? ==> r.value.definitions == body.definitions.value
    ensures r.Some? && body.status.None? ==> r.value.status == Approved
    ensures r.Some? && body.status.Some? ==> StatusName(r.value.status) == body.status.value
  {
    var status := if body.status.None? then Some(Approved) else ParseStatus(body.status.value);
    if status.None? then None
    else Some(Word(id, body.word, body.english, body.romanized, body.phonetic,
                   body.definitions.GetOr([]), status.value))
  }

  /** An update body: each field present replaces the stored one. */
  datatype WordPatch = WordPatch(
    word: Option<string>,
    english: Option<string>,
    romanized: Option<string>,
    phonetic: Option<string>,
    definitions: Option<seq<Definition>>,
    status: Option<Status>)

  /** A patched field: the body's value when it has one, the stored one otherwise. */
  function Replaced<T>(stored: T, given: Option<T>): T {
    given.GetOr(stored)
  }

  /** `findByIdAndUpdate(id, body)`: the body's fields over the stored ones. */
  function Patched(w: Word, p: WordPatch): (r: Word)
    ensures r.id == w.id
    ensures p.word.Some? ==> r.word == p.word.value
    ensures p.word.None? ==> r.word == w.word
    ensures p.english.Some? ==> r.english == p.english
    ensures p.english.None? ==> r.english == w.english
    ensures p.romanized.Some? ==> r.romanized == p.romanized
    ensures p.romanized.None? ==> r.romanized == w.romanized
    ensures p.phonetic.Some? ==> r.phonetic == p.phonetic
    ensures p.phonetic.None? ==> r.phonetic == w.phonetic
    ensures p.definitions.Some? ==> r.definitions == p.definitions.value
    ensures p.definitions.None? ==> r.definitions == w.definitions
    ensures p.status.Some? ==> r.status == p.status.value
    ensures p.status.None? ==> r.status == w.status
  {
    Word(w.id, Replaced(w.word, p.word), if p.english.Some? then p.english else w.english,
         if p.romanized.Some? then p.romanized else w.romanized,
         if p.phonetic.Some? then p.phonetic else w.phonetic,
         Replaced(w.definitions, p.definitions), Replaced(w.status, p.status))
  }

  /** An empty body changes nothing, and applying the same body twice is the same
      as applying it once. */
  lemma PatchedIdentityAndIdempotent(w: Word, p: WordPatch)
    ensures Patched(w, WordPatch(None, None, None, None, None, None)) == w
    ensures Patched(Patched(w, p), p) == Patched(w, p)
  {
  }

  predicate IdIs(id: string, w: Word) {
    w.id == id
  }

  function WithId(id: string): Word -> bool {
    w => IdIs(id, w)
  }

  /** Position of the word with this id, or -1 (`findById`). */
  function IndexOfId(ws: seq<Word>, id: string): (i: int)
    ensures -1 <= i < |ws|
    ensures i >= 0 ==> ws[i].id == id
    ensures i == -1 <==> forall j :: 0 <= j < |ws| ==> ws[j].id != id
  {
    FirstIndex(ws, WithId(id))
  }

  class WordCollection {
    var words: seq<Word>

    ghost predicate Valid()
      reads this
    {
      DistinctIds(words)
    }

    constructor (initial: seq<Word>)
      requires DistinctIds(initial)
      ensures Valid() && words == initial
    {
      words := initial;
    }

    /** `Word.create(body)`: the new document is appended, or the store is left as
        it was and 400 is answered when the schema refuses the body, the assigned
        id is taken, or the database fails. */
    method Insert(body: WordInput, newId: string, storeFails: bool) returns (r: Response)
      requires Valid()
      modifies this
      ensures Valid()
      ensures storeFails || IndexOfId(old(words), newId) >= 0 || NewWord(body, newId).None? ==>
                r == Response(400, ErrorBody("Failed to create word.")) && words == old(words)
      ensures !storeFails && IndexOfId(old(words), newId) == -1 && NewWord(body, newId).Some? ==>
                var w := NewWord(body, newId).value;
                r == Response(201, WordBody(w)) && words == old(words) + [w] && |words| == |old(words)| + 1
    {
      var created := NewWord(body, newId);
      if storeFails || IndexOfId(words, newId) >= 0 || created.None? {
        r := Response(400, ErrorBody("Failed to create word."));
      } else {
        words := words + [created.value];
        r := Response(201, WordBody(created.value));
      }
    }

    /** `PUT /api/words`: a create with no session or role check at all. */
    method Put(body: WordInput, newId: string, storeFails: bool) returns (r: Response)
      requires Valid()
      modifies this
      ensures Valid()
      ensures r.status == 201 || r.status == 400
      ensures r.status == 400 ==> words == old(words)
      ensures r.status == 201 ==> r.body.WordBody? && words == old(words) + [r.body.doc]
      ensures r.status == 201 ==> r.body.WordBody? && NewWord(body, newId) == Some(r.body.doc)
      ensures !storeFails && IndexOfId(old(words), newId) == -1 && NewWord(body, newId).Some? ==>
                r.status == 201
      ensures storeFails || IndexOfId(old(words), newId) >= 0 || NewWord(body, newId).None? ==>
                r == Response(400, ErrorBody("Failed to create word.")) && words == old(words)
    {
      r := Insert(body, newId, storeFails);
    }

    /** `POST /api/word/create`: 401 without a session, 403 unless the role is
        exactly "admin"; only then does the create run. */
    method Create(session: Option<SessionUser>, body: WordInput, newId: string, storeFails: bool)
      returns (r: Response)
      requires Valid()
      modifies this
      ensures Valid()
      ensures session.None? ==> r == Response(401, ErrorBody("Unauthorized")) && words == old(words)
      ensures session.Some? && !IsAdmin(session) ==>
                r == Response(403, ErrorBody("Admin access required")) && words == old(words)
      ensures IsAdmin(session) ==> (r.status == 201 || r.status == 400)
      ensures r.status == 201 ==> r.body.WordBody? && words == old(words) + [r.body.doc]
      ensures r.status == 201 ==> r.body.WordBody? && NewWord(body, newId) == Some(r.body.doc)
      ensures r.status != 201 ==> words == old(words)
      ensures (IsAdmin(session) && !storeFails && IndexOfId(old(words), newId) == -1
               && NewWord(body, newId).Some?) ==> r.status == 201
      ensures (IsAdmin(session) && (storeFails || IndexOfId(old(words), newId) >= 0
               || NewWord(body, newId).None?)) ==>
                r == Response(400, ErrorBody("Failed to create word.")) && words == old(words)
    {
      if session.None? {
        return Response(401, ErrorBody("Unauthorized"));
      }
      if !IsAdmin(session) {
        return Response(403, ErrorBody("Admin access required"));
      }
      r := Insert(body, newId, storeFails);
    }

    /** `PUT /api/word/update?id=`: after the same two gates, 400 without an id,
        404 for an unknown id; otherwise that one word takes the body's fields. */
    method Update(session: Option<SessionUser>, id: Option<string>, patch: WordPatch, storeFails: bool)
      returns (r: Response)
      requires Valid()
      modifies this
      ensures Valid()
      ensures session.None? ==> r == Response(401, ErrorBody("Unauthorized"))
      ensures session.Some? && !IsAdmin(session) ==> r == Response(403, ErrorBody("Admin access required"))
      ensures IsAdmin(session) && !Present(id) ==> r == Response(400, ErrorBody("Word ID is required"))
      ensures IsAdmin(session) && Present(id) && storeFails ==>
                r == Response(500, ErrorBody("Internal server error"))
      ensures IsAdmin(session) && Present(id) && !storeFails && IndexOfId(old(words), id.value) == -1 ==>
                r == Response(404, ErrorBody("Word not found"))
      ensures r.status != 200 ==> words == old(words)
      ensures r.status == 200 ==>
                IsAdmin(session) && Present(id) && !storeFails &&
                var i := IndexOfId(old(words), id.value);
                0 <= i && words == old(words)[i := Patched(old(words)[i], patch)]
                && r == Response(200, WordBody(words[i]))
      ensures IsAdmin(session) && Present(id) && !storeFails && IndexOfId(old(words), id.value) >= 0 ==>
                r.status == 200
    {
      if session.None? {
        return Response(401, ErrorBody("Unauthorized"));
      }
      if !IsAdmin(session) {
        return Response(403, ErrorBody("Admin access required"));
      }
      if !Present(id) {
        return Response(400, ErrorBody("Word ID is required"));
      }
      if storeFails {
        return Response(500, ErrorBody("Internal server error"));
      }
      var i := IndexOfId(words, id.value);
      if i == -1 {
        return Response(404, ErrorBody("Word not found"));
      }
      var updated := Patched(words[i], patch);
      words := words[i := updated];
      r := Response(200, WordBody(updated));
    }

    /** `DELETE /api/word/delete?id=`: the same gates as update; an unknown id is
        404, not a silent success; otherwise exactly that word is removed. */
    method Delete(session: Option<SessionUser>, id: Option<string>, storeFails: bool) returns (r: Response)
      requires Valid()
      modifies this
      ensures Valid()
      ensures session.None? ==> r == Response(401, ErrorBody("Unauthorized"))
      ensures session.Some? && !IsAdmin(session) ==> r == Response(403, ErrorBody("Admin access required"))
      ensures IsAdmin(session) && !Present(id) ==> r == Response(400, ErrorBody("Word ID is required"))
      ensures IsAdmin(session) && Present(id) && storeFails ==>
                r == Response(500, ErrorBody("Internal server error"))
      ensures IsAdmin(session) && Present(id) && !storeFails && IndexOfId(old(words), id.value) == -1 ==>
                r == Response(404, ErrorBody("Word not found"))
      ensures r.status != 200 ==> words == old(words)
      ensures r.status == 200 ==>
                IsAdmin(session) && Present(id) && !storeFails &&
                var i := IndexOfId(old(words), id.value);
                0 <= i && words == RemoveAt(old(words), i)
                && r == Response(200, MessageBody("Word deleted successfully"))
                && |words| == |old(words)| - 1
                && forall j :: 0 <= j < |words| ==> words[j].id != id.value
      ensures IsAdmin(session) && Present(id) && !storeFails && IndexOfId(old(words), id.value) >= 0 ==>
                r.status == 200
    {
      if session.None? {
        return Response(401, ErrorBody("Unauthorized"));
      }
      if !IsAdmin(session) {
        return Response(403, ErrorBody("Admin access required"));
      }
      if !Present(id) {
        return Response(400, ErrorBody("Word ID is required"));
      }
      if storeFails {
        return Response(500, ErrorBody("Internal server error"));
      }
      var i := IndexOfId(words, id.value);
      if i == -1 {
        return Response(404, ErrorBody("Word not found"));
      }
      ghost var before := words;
      words := RemoveAt(words, i);
      forall j | 0 <= j < |words| ensures words[j].id != id.value {
        if j < i { assert words[j] == before[j]; } else { assert words[j] == before[j + 1]; }
      }
      r := Response(200, MessageBody("Word deleted successfully"));
    }
  }
}
