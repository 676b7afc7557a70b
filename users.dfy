/** User accounts: the profile endpoints `GET` and `PATCH /api/users/profile`
    (src/app/api/users/profile/route.ts) and registration
    `POST /api/auth/register` (src/app/api/auth/register/route.ts), over the
    users collection, whose `email` index is unique. */
module Users {
  import opened Common
  import opened Text
  import opened Seqs
  import opened Entries

  predicate DistinctEmails(us: seq<UserRecord>) {
    forall i, j :: 0 <= i < j < |us| ==> us[i].email != us[j].email
  }

  function EmailIs(email: string): UserRecord -> bool {
    (u: UserRecord) => u.email == email
  }

  /** `User.findOne({ email })`: the position of the user with this email, or -1. */
  function IndexOfEmail(us: seq<UserRecord>, email: string): (i: int)
    ensures -1 <= i < |us|
    ensures i >= 0 ==> us[i].email == email
    ensures i >= 0 ==> forall j :: 0 <= j < i ==> us[j].email != email
    ensures i == -1 <==> forall j :: 0 <= j < |us| ==> us[j].email != email
  {
    FirstIndex(us, EmailIs(email))
  }

  /** With distinct emails, the user found is the only one with that email. */
  lemma IndexOfEmailUnique(us: seq<UserRecord>, email: string, k: nat)
    requires DistinctEmails(us) && k < |us| && us[k].email == email
    ensures IndexOfEmail(us, email) == k
  {
    var i := IndexOfEmail(us, email);
    assert i >= 0 && i <= k;
  }

  /** `session?.user?.email` is truthy. */
  predicate HasEmail(session: Option<SessionUser>) {
    session.Some? && Present(session.value.email)
  }

  /** `GET /api/users/profile`: 401 without a session email, 500 when the
      database fails, 404 for an unknown email, otherwise the user without the
      password field. */
  function GetProfile(users: seq<UserRecord>, session: Option<SessionUser>, storeFails: bool): (r: Response)
    ensures !HasEmail(session) ==> r == Response(401, ErrorBody("Unauthorized"))
    ensures HasEmail(session) && storeFails ==> r == Response(500, ErrorBody("Internal server error"))
    ensures HasEmail(session) && !storeFails && IndexOfEmail(users, session.value.email.value) == -1 ==>
              r == Response(404, ErrorBody("User not found"))
    ensures r.status == 200 <==>
              HasEmail(session) && !storeFails && IndexOfEmail(users, session.value.email.value) >= 0
    ensures r.status == 200 ==>
              r.body.UserBody? && exists u :: u in users && u.email == session.value.email.value && r.body.user == Public(u)
  {
    if !HasEmail(session) then Response(401, ErrorBody("Unauthorized"))
    else if storeFails then Response(500, ErrorBody("Internal server error"))
    else
      var i := IndexOfEmail(users, session.value.email.value);
      if i == -1 then Response(404, ErrorBody("User not found"))
      else Response(200, UserBody(Public(users[i])))
  }

  /** The public view does not depend on the stored password at all. */
  lemma PublicHidesPassword(u: UserRecord, p: Option<string>)
    ensures Public(u.(password := p)) == Public(u)
  {
  }

  /** The `name` member of a PATCH body: absent, some non-string JSON value, or text. */
  datatype NameField = Absent | NonString | Text(text: string)

  /** `name && typeof name === "string" && name.trim().length > 0`. */
  predicate AcceptedName(name: NameField) {
    name.Text? && name.text != "" && |Trim(name.text)| > 0
  }

  /** A name is accepted exactly when it is text that is not white space only. */
  lemma AcceptedNameIffNotBlank(name: NameField)
    ensures AcceptedName(name) <==> name.Text? && !IsBlank(name.text)
  {
    if name.Text? && name.text == "" {
      assert IsBlank(name.text);
    }
  }

  /** The `$set` of the update: the new name and the time of the update. */
  function Renamed(u: UserRecord, name: string, now: int): (v: UserRecord)
    ensures v.name == name && v.updatedAt == now
    ensures v.(name := u.name, updatedAt := u.updatedAt) == u
  {
    u.(name := name, updatedAt := now)
  }

  /** The record `new User({ email, password: hashed, name, role: "user" })`
      saves: the schema defaults fill `createdAt` and `updatedAt`, and no `image`. */
  function NewUser(id: string, email: string, hashed: string, name: string, now: int): (u: UserRecord)
    ensures u.id == id && u.email == email && u.name == name
    ensures u.password == Some(hashed) && u.role == User && u.image.None?
    ensures u.createdAt == now && u.updatedAt == now
  {
    UserRecord(id, email, name, Some(hashed), None, User, now, now)
  }

  class UserStore {
    var users: seq<UserRecord>

    ghost predicate Valid()
      reads this
    {
      DistinctEmails(users)
    }

    constructor (initial: seq<UserRecord>)
      requires DistinctEmails(initial)
      ensures Valid() && users == initial
    {
      users := initial;
    }

    /** `PATCH /api/users/profile`: 401 without a session email, 400 for a name
        that is missing, not a string or blank (before any write), 500 when the
        database fails, 404 for an unknown email; otherwise that user alone gets
        the trimmed name and the new update time. */
    method PatchProfile(session: Option<SessionUser>, name: NameField, now: int, storeFails: bool)
      returns (r: Response)
      requires Valid()
      modifies this
      ensures Valid()
      ensures !HasEmail(session) ==> r == Response(401, ErrorBody("Unauthorized"))
      ensures HasEmail(session) && !AcceptedName(name) ==> r == Response(400, ErrorBody("Name is required"))
      ensures HasEmail(session) && AcceptedName(name) && storeFails ==>
                r == Response(500, ErrorBody("Internal server error"))
      ensures (HasEmail(session) && AcceptedName(name) && !storeFails
               && IndexOfEmail(old(users), session.value.email.value) == -1) ==>
                r == Response(404, ErrorBody("User not found"))
      ensures r.status != 200 ==> users == old(users)
      ensures r.status == 200 ==>
                HasEmail(session) && AcceptedName(name) && !storeFails &&
                var i := IndexOfEmail(old(users), session.value.email.value);
                && 0 <= i
                && users == old(users)[i := Renamed(old(users)[i], Trim(name.text), now)]
                && users[i].name != "" && !IsSpace(users[i].name[0])
                && r == Response(200, UserBody(Public(users[i])))
      ensures (HasEmail(session) && AcceptedName(name) && !storeFails
               && IndexOfEmail(old(users), session.value.email.value) >= 0) ==> r.status == 200
    {
      if !HasEmail(session) {
        return Response(401, ErrorBody("Unauthorized"));
      }
      if !AcceptedName(name) {
        return Response(400, ErrorBody("Name is required"));
      }
      if storeFails {
        return Response(500, ErrorBody("Internal server error"));
      }
      var i := IndexOfEmail(users, session.value.email.value);
      if i == -1 {
        return Response(404, ErrorBody("User not found"));
      }
      var updated := Renamed(users[i], Trim(name.text), now);
      users := users[i := updated];
      assert forall j :: 0 <= j < |users| ==> users[j].email == old(users)[j].email;
      r := Response(200, UserBody(Public(updated)));
    }

    /** `POST /api/auth/register`: 400 when email, password or name is missing or
        empty; an unexpected failure answers an error body with the default status
        200; 400 for an email already taken; otherwise exactly one user is appended,
        always with role "user" and the hashed password, and 201 is answered. */
    method Register(email: Option<string>, password: Option<string>, name: Option<string>,
                    hash: string -> string, newId: string, now: int, storeFails: bool)
      returns (r: Response)
      requires Valid()
      modifies this
      ensures Valid()
      ensures !Present(email) || !Present(password) || !Present(name) ==>
                r == Response(400, ErrorBody("Missing required field")) && users == old(users)
      ensures Present(email) && Present(password) && Present(name) && storeFails ==>
                r == Response(200, ThrownBody) && users == old(users)
      ensures (Present(email) && Present(password) && Present(name) && !storeFails
               && IndexOfEmail(old(users), email.value) >= 0) ==>
                r == Response(400, ErrorBody("User already exists")) && users == old(users)
      ensures (Present(email) && Present(password) && Present(name) && !storeFails
               && IndexOfEmail(old(users), email.value) == -1) ==>
                r == Response(201, MessageBody("User successfully registered"))
                && users == old(users) + [NewUser(newId, email.value, hash(password.value), name.value, now)]
    {
      if !Present(email) || !Present(password) || !Present(name) {
        return Response(400, ErrorBody("Missing required field"));
      }
      if storeFails {
        return Response(200, ThrownBody);
      }
      if IndexOfEmail(users, email.value) >= 0 {
        return Response(400, ErrorBody("User already exists"));
      }
      var u := NewUser(newId, email.value, hash(password.value), name.value, now);
      users := users + [u];
      r := Response(201, MessageBody("User successfully registered"));
    }
  }

  /** After a rename, the profile shows the new name and time and no password. */
  lemma ProfileShowsRename(users: seq<UserRecord>, session: SessionUser, i: nat, name: string, now: int)
    requires DistinctEmails(users) && i < |users|
    requires session.email == Some(users[i].email) && users[i].email != ""
    ensures var after := users[i := Renamed(users[i], name, now)];
      GetProfile(after, Some(session), false) == Response(200, UserBody(Public(Renamed(users[i], name, now))))
  {
    var after := users[i := Renamed(users[i], name, now)];
    assert forall j :: 0 <= j < |after| ==> after[j].email == users[j].email;
    IndexOfEmailUnique(after, users[i].email, i);
  }

  /** A newly registered user can read their profile at once: role "user", no
      password field. */
  lemma RegisteredProfile(users: seq<UserRecord>, session: SessionUser, u: UserRecord)
    requires DistinctEmails(users) && IndexOfEmail(users, u.email) == -1
    requires session.email == Some(u.email) && u.email != ""
    ensures GetProfile(users + [u], Some(session), false) == Response(200, UserBody(Public(u)))
  {
    var after := users + [u];
    assert forall j :: 0 <= j < |users| ==> after[j] == users[j];
    IndexOfEmailUnique(after, u.email, |users|);
  }
}
