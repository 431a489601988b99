/** `POST /auth/signup`: validates the body against the signup schema, refuses an email
    that is already registered and saves the new user. The Zod email check is the
    parameter `isEmail`. */
module AuthRoute {
  import opened Wrappers
  import opened Db
  import Text

  const FieldsRequired: string := "All Fields are required"
  const EmailTaken: string := "User with this email already exists"
  const UserCreated: string := "User created successfully"
  const SignupFailed: string := "Something went wrong"

  /** The request body; a field is `None` when it is absent or not a string. */
  datatype SignupBody = SignupBody(userName: Option<string>, email: Option<string>, password: Option<string>)

  /** `SignupSchema.safeParse(body).success`: a name of 3 to 30 characters, an email the
      email check accepts and a password of 6 to 100 characters. */
  predicate SchemaAccepts(body: SignupBody, isEmail: string -> bool) {
    && body.userName.Some? && 3 <= |body.userName.value| <= 30
    && body.email.Some? && isEmail(body.email.value)
    && body.password.Some? && 6 <= |body.password.value| <= 100
  }

  /** The fields a new User document is built with; Mongoose keeps only the fields the
      schema declares, so a name under another key arrives as `None`. */
  datatype UserDraft = UserDraft(userName: Option<string>, email: string, password: string)

  /** `new User({ user_name, email, password })` as the route writes it: the schema calls the
      name `userName`, so the `user_name` key is dropped. */
  function DraftAsWritten(body: SignupBody): (d: UserDraft)
    requires body.userName.Some? && body.email.Some? && body.password.Some?
    ensures d.userName.None?
  {
    UserDraft(None, body.email.value, body.password.value)
  }

  /** The draft with the name under the schema's key. */
  function Draft(body: SignupBody): (d: UserDraft)
    requires body.userName.Some? && body.email.Some? && body.password.Some?
    ensures d.userName == body.userName && d.email == body.email.value && d.password == body.password.value
  {
    UserDraft(body.userName, body.email.value, body.password.value)
  }

  /** The key the route puts the name under: `user_name`, as the route is written, or the
      schema's own `userName`. */
  datatype NameKey = SnakeCaseKey | SchemaKey

  function DraftWith(key: NameKey, body: SignupBody): (d: UserDraft)
    requires body.userName.Some? && body.email.Some? && body.password.Some?
    ensures key.SnakeCaseKey? ==> d.userName.None?
    ensures key.SchemaKey? ==> d.userName == body.userName
    ensures d.email == body.email.value && d.password == body.password.value
  {
    match key
    case SnakeCaseKey => DraftAsWritten(body)
    case SchemaKey => Draft(body)
  }

  /** `save()`: the document the schema's validators and unique indexes let through, or
      `None` when saving throws. The name is trimmed, is required and must then be 3 to 30
      characters long; email and password are required; name and email are unique. */
  function Saved(users: seq<User>, id: Id, d: UserDraft): (r: Option<User>)
    ensures d.userName.None? ==> r.None?
    ensures r.Some? ==> Fresh(users, id, r.value) && r.value.email == d.email && r.value.password == d.password
    ensures r.Some? ==> r.value.userName == Text.Trim(d.userName.value) && 3 <= |r.value.userName| <= 30
  {
    if d.userName.None? then None
    else
      var name := Text.Trim(d.userName.value);
      if 3 <= |name| <= 30 && d.email != "" && d.password != ""
         && (forall i :: 0 <= i < |users| ==> users[i].userName != name)
         && (forall i :: 0 <= i < |users| ==> users[i].email != d.email)
      then Some(User(id, name, d.email, d.password))
      else None
  }

  /** `user.save()` of a document that passes the schema and the unique indexes. */
  method InsertUser(db: Store, u: User)
    requires db.Valid() && Fresh(db.users, db.nextId, u)
    modifies db
    ensures db.Valid()
    ensures db.users == old(db.users) + [u] && db.nextId == old(db.nextId) + 1
    ensures db.conversations == old(db.conversations) && db.messages == old(db.messages) && db.clock == old(db.clock)
  {
    FreshKeepsUsersOk(db.users, db.nextId, u);
    CounterAdvance(db.conversations, db.messages, db.nextId, db.nextId + 1);
    db.users, db.nextId := db.users + [u], db.nextId + 1;
  }

  /** `u` takes the next id, and its email and name are unused. */
  predicate Fresh(users: seq<User>, id: Id, u: User) {
    && u.id == id
    && (forall i :: 0 <= i < |users| ==> users[i].email != u.email)
    && (forall i :: 0 <= i < |users| ==> users[i].userName != u.userName)
  }

  /** Adding a fresh user keeps ids ascending and below the counter, and emails and names
      unique. */
  lemma FreshKeepsUsersOk(users: seq<User>, id: Id, u: User)
    requires UsersOk(users, id) && Fresh(users, id, u)
    ensures UsersOk(users + [u], id + 1)
  {
    var s := users + [u];
    forall i, j | 0 <= i < j < |s|
      ensures s[i].id < s[j].id && s[i].email != s[j].email && s[i].userName != s[j].userName
    {
      assert s[i] == users[i];
      if j < |users| {
        assert s[j] == users[j];
      }
    }
  }

  /** As written, the save never succeeds: the document lacks the required name, so every
      signup that passes the schema and the email check ends in 500. */
  lemma AsWrittenSaveAlwaysThrows(users: seq<User>, id: Id, body: SignupBody)
    requires body.userName.Some? && body.email.Some? && body.password.Some?
    ensures Saved(users, id, DraftAsWritten(body)).None?
  {
  }

  /** `User.findOne({ email })` finds a document. */
  predicate EmailRegistered(users: seq<User>, email: string) {
    exists i :: 0 <= i < |users| && users[i].email == email
  }

  /** The route, with the name saved under `key`: `SnakeCaseKey` is the route as written,
      `SchemaKey` the corrected one. Store calls, in order: the lookup by email (0) and the
      save (1). */
  method Signup(db: Store, body: SignupBody, isEmail: string -> bool, fault: Fault, key: NameKey)
    returns (reply: Reply<()>)
    requires db.Valid()
    modifies db
    ensures db.Valid()
    ensures db.conversations == old(db.conversations) && db.messages == old(db.messages)
    ensures db.clock == old(db.clock)
    ensures !SchemaAccepts(body, isEmail) ==> reply == Reply(BadRequest, FieldsRequired, None) && unchanged(db)
    ensures SchemaAccepts(body, isEmail) && !Survives(fault, 1) ==>
      reply == Reply(ServerError, SignupFailed, None) && unchanged(db)
    ensures SchemaAccepts(body, isEmail) && Survives(fault, 1) && EmailRegistered(old(db.users), body.email.value) ==>
      reply == Reply(Conflict, EmailTaken, None) && unchanged(db)
    ensures SchemaAccepts(body, isEmail) && Survives(fault, 1) && !EmailRegistered(old(db.users), body.email.value) ==>
      var saved := Saved(old(db.users), old(db.nextId), DraftWith(key, body));
      if Survives(fault, 2) && saved.Some? then
        && reply == Reply(Created, UserCreated, None)
        && db.users == old(db.users) + [saved.value]
        && db.nextId == old(db.nextId) + 1
      else reply == Reply(ServerError, SignupFailed, None) && unchanged(db)
  {
    if !SchemaAccepts(body, isEmail) {
      return Reply(BadRequest, FieldsRequired, None);
    }
    var email := body.email.value;
    if !Survives(fault, 1) {
      return Reply(ServerError, SignupFailed, None);
    }
    if EmailRegistered(db.users, email) {
      return Reply(Conflict, EmailTaken, None);
    }
    var saved := Saved(db.users, db.nextId, DraftWith(key, body));
    if !Survives(fault, 2) || saved.None? {
      return Reply(ServerError, SignupFailed, None);
    }
    InsertUser(db, saved.value);
    reply := Reply(Created, UserCreated, None);
  }

  /** The route as written never creates a user: whatever the body and whichever store
      call fails, the answer is not 201 and the store is left as it was. */
  method SignupAsWritten(db: Store, body: SignupBody, isEmail: string -> bool, fault: Fault)
    returns (reply: Reply<()>)
    requires db.Valid()
    modifies db
    ensures db.Valid()
    ensures reply.status != Created
    ensures reply.status == BadRequest || reply.status == Conflict || reply.status == ServerError
    ensures db.users == old(db.users) && db.nextId == old(db.nextId)
  {
    if SchemaAccepts(body, isEmail) {
      AsWrittenSaveAlwaysThrows(db.users, db.nextId, body);
    }
    reply := Signup(db, body, isEmail, fault, SnakeCaseKey);
  }

  /** With an email check that refuses the empty string, a body that passes the schema,
      with a fresh email and a fresh trimmed name of at least 3 characters, is saved; the
      stored password is the submitted one (no hashing happens in the route). */
  lemma FreshSignupIsSaved(users: seq<User>, id: Id, body: SignupBody, isEmail: string -> bool)
    requires !isEmail("")
    requires SchemaAccepts(body, isEmail)
    requires !EmailRegistered(users, body.email.value)
    requires 3 <= |Text.Trim(body.userName.value)|
    requires forall i :: 0 <= i < |users| ==> users[i].userName != Text.Trim(body.userName.value)
    ensures Saved(users, id, Draft(body)) ==
      Some(User(id, Text.Trim(body.userName.value), body.email.value, body.password.value))
  {
    Text.TrimIsInnerSlice(body.userName.value);
  }
}
