/** The application's records (src/lib/types.ts, src/models) and the JSON
    responses its route handlers send. */
module Entries {
  import opened Common

  /** Moderation state of a word; the schema default is `Approved`. */
  datatype Status = Draft | Pending | Approved | Rejected

  /** The schema's enum check on `status`: the four names and nothing else. */
  function ParseStatus(s: string): (r: Option<Status>)
    ensures r.Some? ==> StatusName(r.value) == s
  {
    if s == "draft" then Some(Draft)
    else if s == "pending" then Some(Pending)
    else if s == "approved" then Some(Approved)
    else if s == "rejected" then Some(Rejected)
    else None
  }

  function StatusName(st: Status): string {
    match st
    case Draft => "draft"
    case Pending => "pending"
    case Approved => "approved"
    case Rejected => "rejected"
  }

  /** Every status survives the enum check under its own name. */
  lemma ParseStatusName(st: Status)
    ensures ParseStatus(StatusName(st)) == Some(st)
  {
  }

  /** Senses or examples: Nepali and English texts paired by position. Either
      list may be missing in a stored document. */
  datatype Parallel = Parallel(nepali: Option<seq<string>>, english: Option<seq<string>>)

  /** One sense group of an entry; `examples`, `synonyms` and `antonyms` may be missing. */
  datatype Definition = Definition(
    grammar: string,
    etymology: string,
    senses: Parallel,
    examples: Option<Parallel>,
    synonyms: Option<seq<string>>,
    antonyms: Option<seq<string>>)

  /** A dictionary entry (`DictionaryEntry`) as stored in the words collection. */
  datatype Word = Word(
    id: string,
    word: string,
    english: Option<string>,
    romanized: Option<string>,
    phonetic: Option<string>,
    definitions: seq<Definition>,
    status: Status)

  /** All stored words have different ids, as MongoDB's `_id` index guarantees. */
  predicate DistinctIds(ws: seq<Word>) {
    forall i, j :: 0 <= i < j < |ws| ==> ws[i].id != ws[j].id
  }

  /** A durable bookmark: both fields are required by the schema. */
  datatype Bookmark = Bookmark(userId: string, wordId: string)

  datatype UserRole = User | Editor | Admin | Superadmin

  /** A stored user; `password` holds a hash and is missing for federated sign-ins. */
  datatype UserRecord = UserRecord(
    id: string,
    email: string,
    name: string,
    password: Option<string>,
    image: Option<string>,
    role: UserRole,
    createdAt: int,
    updatedAt: int)

  /** A user as the profile endpoints send it: the same record with no password field. */
  datatype PublicUser = PublicUser(
    id: string,
    email: string,
    name: string,
    image: Option<string>,
    role: UserRole,
    createdAt: int,
    updatedAt: int)

  function Public(u: UserRecord): (p: PublicUser)
    ensures p.id == u.id && p.email == u.email && p.name == u.name && p.image == u.image
    ensures p.role == u.role && p.createdAt == u.createdAt && p.updatedAt == u.updatedAt
  {
    PublicUser(u.id, u.email, u.name, u.image, u.role, u.createdAt, u.updatedAt)
  }

  /** The part of a NextAuth session the handlers read. `role` is the raw string
      carried by the session token. */
  datatype SessionUser = SessionUser(id: Option<string>, email: Option<string>, role: Option<string>)

  /** The session carries a truthy `user.id`. */
  predicate HasUserId(session: Option<SessionUser>) {
    session.Some? && Present(session.value.id)
  }

  /** The session's role is exactly the string "admin". */
  predicate IsAdmin(session: Option<SessionUser>) {
    session.Some? && session.value.role == Some("admin")
  }

  /** JSON bodies of the responses. */
  datatype Body =
    | ErrorBody(error: string)
    | MessageBody(message: string)
    | SearchPage(results: seq<Word>, total: int, page: int, limit: int, pages: int)
    | WordArray(words: seq<Word>)
    | ResultsBody(found: seq<Word>)
    | WordBody(doc: Word)
    | UserBody(user: PublicUser)
    | ThrownBody

  /** An HTTP status with its JSON body; `NextResponse.json` without a status means 200. */
  datatype Response = Response(status: int, body: Body)
}
