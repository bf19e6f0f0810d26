/**
 * `AuthController`: the login, register and edit handlers. Each either
 * answers the request or passes exactly one `http-errors` error to `next`.
 */
module AuthController {
  import opened Wrappers
  import opened Text
  import opened Http
  import opened Primitives
  import opened UserModel
  import opened Store

  /** `req.user`, as the bearer gate sets it. */
  datatype AuthUser = AuthUser(id: Id)

  /** The `{ access_token, id }` body of a successful login. */
  function TokenBody(token: string, id: Id): Json {
    JObj(map["access_token" := JStr(token), "id" := JNum(id)])
  }

  /** The `{ id }` body of a successful registration. */
  function IdBody(id: Id): Json {
    JObj(map["id" := JNum(id)])
  }

  // ---------------------------------------------------------------------
  // Specifications
  // ---------------------------------------------------------------------

  /** `login`: authenticate, sign `{ id }`, answer 201; any failure becomes a 401. */
  function LoginResult(db: Db, body: Fields, c: Crypto): Outcome {
    LoginReply(AuthenticateResult(db, Lookup(body, Username), Lookup(body, Password), c), c)
  }

  /** What `login` answers once `authenticate` has returned or thrown. */
  function LoginReply(authenticated: Result<Id, Error>, c: Crypto): Outcome {
    match authenticated
    case Failure(_) => Next(CreateError(Unauthorized))
    case Success(id) =>
      match c.sign(Claims(id))
      case None => Next(CreateError(Unauthorized))
      case Some(token) => Respond(201, JsonBody(TokenBody(token, id)))
  }

  /**
   * The `catch` of `register`: a duplicate key is a 409 (checked first), a
   * `ValidationError` a 400, anything else a 500; the original error is
   * always attached as `cause`.
   */
  function ClassifyRegisterError(error: Error): (err: Error)
    ensures err.cause == Some(error)
    ensures error.code == Some(11000) ==> err.status == Some(409)
    ensures error.code != Some(11000) && error.name == "ValidationError" ==> err.status == Some(400)
    ensures error.code != Some(11000) && error.name != "ValidationError" ==> err.status == Some(500)
    ensures err.status.Some? && err.message == (if err.status == Some(409) then "Conflict"
      else if err.status == Some(400) then "Bad Request" else "Internal Server Error")
  {
    var status :=
      if error.code == Some(11000) then Conflict
      else if error.name == "ValidationError" then BadRequest
      else InternalServerError;
    CreateError(status).(cause := Some(error))
  }

  /** `register`: build the document, save it, answer 201 with `{ id }`. */
  function RegisterResult(db: Db, body: Fields, c: Crypto): (Db, Outcome) {
    var (db', saved) := SaveResult(db, CastBody(body, c), c);
    match saved
    case Success(id) => (db', Respond(201, JsonBody(IdBody(id))))
    case Failure(e) => (db', Next(ClassifyRegisterError(e)))
  }

  /** `editPatch`: update the caller's own record with validators, answer 204; any failure becomes a 400. */
  function EditResult(db: Db, user: AuthUser, patch: Fields, c: Crypto): (Db, Outcome) {
    var (db', updated) := UpdateResult(db, user.id, patch, c);
    match updated
    case Success(_) => (db', Respond(204, NoBody))
    case Failure(_) => (db', Next(CreateError(BadRequest)))
  }

  // ---------------------------------------------------------------------
  // Handlers
  // ---------------------------------------------------------------------

  method Login(store: UserStore, body: Fields, c: Crypto) returns (out: Outcome)
    requires store.Valid()
    ensures out == LoginResult(store.State(), body, c)
  {
    var user := store.Authenticate(Lookup(body, Username), Lookup(body, Password), c);
    if user.Failure? {
      return Next(CreateError(Unauthorized));
    }
    var token := c.sign(Claims(user.value));
    if token.None? {
      return Next(CreateError(Unauthorized));
    }
    out := Respond(201, JsonBody(TokenBody(token.value, user.value)));
  }

  method Register(store: UserStore, body: Fields, c: Crypto) returns (out: Outcome)
    requires store.Valid()
    modifies store
    ensures store.Valid()
    ensures (store.State(), out) == RegisterResult(old(store.State()), body, c)
  {
    var user := new UserDocument(body, c);
    var saved := store.Save(user, c);
    if saved.Success? {
      out := Respond(201, JsonBody(IdBody(saved.value)));
    } else {
      out := Next(ClassifyRegisterError(saved.error));
    }
  }

  method EditPatch(store: UserStore, user: AuthUser, body: Fields, c: Crypto) returns (out: Outcome)
    requires store.Valid()
    modifies store
    ensures store.Valid()
    ensures (store.State(), out) == EditResult(old(store.State()), user, body, c)
  {
    var updated := store.FindByIdAndUpdate(user.id, body, c);
    if updated.Success? {
      out := Respond(204, NoBody);
    } else {
      out := Next(CreateError(BadRequest));
    }
  }

  // ---------------------------------------------------------------------
  // Login
  // ---------------------------------------------------------------------

  /** The body of a login request. */
  function Credentials(username: string, password: string): Fields {
    map[Username := username, Password := password]
  }

  lemma CredentialsLookup(username: string, password: string)
    ensures Lookup(Credentials(username, password), Username) == Some(username)
    ensures Lookup(Credentials(username, password), Password) == Some(password)
  {
  }

  /**
   * Login answers 201 exactly when a record has the trimmed username, bcrypt
   * accepts the password and signing succeeds; the body is then the token of
   * `{ id }` and that id. Every other request gets the same 401 error.
   */
  lemma LoginIff(db: Db, username: string, password: string, c: Crypto)
    requires Indexed(db)
    ensures var out := LoginResult(db, Credentials(username, password), c);
      && (out.Respond? <==> exists id :: id in db.users && db.users[id].username == Trim(username)
                                   && c.compare(password, db.users[id].password) && c.sign(Claims(id)).Some?)
      && (out.Respond? ==> exists id :: id in db.users && db.users[id].username == Trim(username)
                                   && out == Respond(201, JsonBody(TokenBody(c.sign(Claims(id)).value, id))))
      && (out.Next? ==> out == Next(CreateError(Unauthorized)))
  {
    CredentialsLookup(username, password);
    AuthenticateIff(db, username, password, c);
    var r := AuthenticateResult(db, Some(username), Some(password), c);
    assert LoginResult(db, Credentials(username, password), c) == LoginReply(r, c);
    LoginReplyIff(db, Trim(username), password, r, c);
  }

  /** `LoginIff` once the lookup is done, for a name that is already trimmed. */
  lemma LoginReplyIff(db: Db, name: string, password: string, r: Result<Id, Error>, c: Crypto)
    requires Indexed(db)
    requires r.Success? <==> exists id :: id in db.users && db.users[id].username == name
                                        && c.compare(password, db.users[id].password)
    requires r.Success? ==> r.value in db.users && db.users[r.value].username == name
    ensures var out := LoginReply(r, c);
      && (out.Respond? <==> exists id :: id in db.users && db.users[id].username == name
                                   && c.compare(password, db.users[id].password) && c.sign(Claims(id)).Some?)
      && (out.Respond? ==> exists id :: id in db.users && db.users[id].username == name
                                   && out == Respond(201, JsonBody(TokenBody(c.sign(Claims(id)).value, id))))
      && (out.Next? ==> out == Next(CreateError(Unauthorized)))
  {
    if r.Success? {
      forall id | id in db.users && db.users[id].username == name ensures id == r.value {
        UsernamesUnique(db, id, r.value);
      }
    }
  }

  /**
   * A record whose username is the trimmed login name and whose stored hash
   * bcrypt accepts for the password logs in, with the token of its own id.
   */
  lemma LoginAsStoredUser(db: Db, id: Id, username: string, password: string, c: Crypto)
    requires Indexed(db)
    requires id in db.users && db.users[id].username == Trim(username)
    requires c.compare(password, db.users[id].password)
    requires c.sign(Claims(id)).Some?
    ensures LoginResult(db, Credentials(username, password), c)
      == Respond(201, JsonBody(TokenBody(c.sign(Claims(id)).value, id)))
  {
    AuthenticateIff(db, username, password, c);
    var r := AuthenticateResult(db, Some(username), Some(password), c);
    UsernamesUnique(db, r.value, id);
    CredentialsLookup(username, password);
  }

  /**
   * An unknown username and a wrong password for a known one get the very
   * same outcome. (Response time is not part of the outcome.)
   */
  lemma LoginFailuresIndistinguishable(db: Db, unknown: string, p1: string, known: string, p2: string, c: Crypto)
    requires Indexed(db)
    requires forall id :: id in db.users ==> db.users[id].username != Trim(unknown)
    requires exists id :: id in db.users && db.users[id].username == Trim(known) && !c.compare(p2, db.users[id].password)
    ensures LoginResult(db, Credentials(unknown, p1), c) == LoginResult(db, Credentials(known, p2), c)
      == Next(CreateError(Unauthorized))
  {
    var id :| id in db.users && db.users[id].username == Trim(known) && !c.compare(p2, db.users[id].password);
    forall other | other in db.users && db.users[other].username == Trim(known)
      ensures !c.compare(p2, db.users[other].password)
    {
      UsernamesUnique(db, other, id);
    }
    CredentialsLookup(unknown, p1);
    CredentialsLookup(known, p2);
    AuthenticateIff(db, unknown, p1, c);
    AuthenticateIff(db, known, p2, c);
    assert AuthenticateResult(db, Some(unknown), Some(p1), c).Failure?;
    assert AuthenticateResult(db, Some(known), Some(p2), c).Failure?;
  }

  // ---------------------------------------------------------------------
  // Register
  // ---------------------------------------------------------------------

  /**
   * Every register outcome, in the order the checks happen: a missing or
   * rejected path is a 400, a bcrypt failure a 500, a taken username a 409,
   * and otherwise a 201 with the new id. The store changes only on a 201.
   */
  lemma RegisterOutcomes(db: Db, body: Fields, c: Crypto)
    ensures var (db', out) := RegisterResult(db, body, c);
      var admitted := forall f: Field :: f in body && Admit(f, body[f], c).Success?;
      && (!admitted ==> db' == db && out.Next? && out.err.status == Some(400))
      && (admitted && c.hash(body[Password], SaltRounds).Failure? ==>
            db' == db && out.Next? && out.err.status == Some(500))
      && (admitted && c.hash(body[Password], SaltRounds).Success? && Trim(body[Username]) in db.byName ==>
            db' == db && out == Next(ClassifyRegisterError(DuplicateKey)) && out.err.status == Some(409))
      && (admitted && c.hash(body[Password], SaltRounds).Success? && Trim(body[Username]) !in db.byName ==>
            out == Respond(201, JsonBody(IdBody(db.nextId))))
  {
    var paths := CastBody(body, c);
    ValidIffAllAdmitted(body, c);
    if PathsValid(paths) {
      HashOnSaveOnlyReplacesPassword(paths, c);
    }
  }

  /**
   * A successful registration stores exactly one new record: the trimmed
   * username and names, the bcrypt hash (cost 8) of the untrimmed password,
   * and the ciphertext of the trimmed lower-case email. No other record changes.
   */
  lemma RegisterStoresRecord(db: Db, body: Fields, c: Crypto)
    requires Indexed(db)
    requires RegisterResult(db, body, c).1.Respond?
    ensures forall f: Field :: f in body && Admit(f, body[f], c).Success?
    ensures c.hash(body[Password], SaltRounds).Success?
    ensures var db' := RegisterResult(db, body, c).0;
      && Indexed(db')
      && db.nextId !in db.users
      && db'.users == db.users[db.nextId := User(Trim(body[Username]), c.hash(body[Password], SaltRounds).value,
           Trim(body[FirstName]), Trim(body[LastName]), c.encrypt(ToLower(Trim(body[Email]))))]
  {
    RegisterOutcomes(db, body, c);
    var paths := CastBody(body, c);
    ValidIffAllAdmitted(body, c);
    RecordOfBody(body, c);
    HashOnSaveOnlyReplacesPassword(paths, c);
    var u := RecordOf(HashOnSave(paths, c).value);
    assert u.username == Trim(body[Username]);
    SaveStoresRecord(db, paths, c);
  }

  /** Registering keeps the collection invariant. */
  lemma RegisterPreservesInv(db: Db, body: Fields, c: Crypto)
    requires Inv(db)
    ensures Inv(RegisterResult(db, body, c).0)
  {
    SavePreservesInv(db, body, c);
  }

  /**
   * After registering, logging in with the same username and password
   * succeeds with the new id, given that bcrypt accepts a password against
   * its own hash and that the token can be signed.
   */
  lemma RegisterThenLogin(db: Db, body: Fields, c: Crypto)
    requires Indexed(db) && HashMatches(c)
    requires RegisterResult(db, body, c).1.Respond?
    requires c.sign(Claims(db.nextId)).Some?
    ensures LoginResult(RegisterResult(db, body, c).0, Credentials(body[Username], body[Password]), c)
      == Respond(201, JsonBody(TokenBody(c.sign(Claims(db.nextId)).value, db.nextId)))
  {
    RegisterStoresRecord(db, body, c);
    var db' := RegisterResult(db, body, c).0;
    assert c.compare(body[Password], db'.users[db.nextId].password);
    LoginAsStoredUser(db', db.nextId, body[Username], body[Password], c);
  }

  // ---------------------------------------------------------------------
  // Edit
  // ---------------------------------------------------------------------

  /** A failed edit is always the same 400 error and leaves the store unchanged. */
  lemma EditFailureIsBadRequest(db: Db, user: AuthUser, patch: Fields, c: Crypto)
    ensures var (db', out) := EditResult(db, user, patch, c);
      out.Next? ==> db' == db && out == Next(CreateError(BadRequest))
    ensures var (db', out) := EditResult(db, user, patch, c);
      out.Respond? ==> out == Respond(204, NoBody)
    ensures !PatchAdmitted(patch, c) ==> EditResult(db, user, patch, c) == (db, Next(CreateError(BadRequest)))
  {
  }

  /**
   * An edit changes only the caller's own record, and only the supplied
   * paths of it; an id with no record gives 204 and changes nothing.
   */
  lemma EditTouchesOnlyOwnRecord(db: Db, user: AuthUser, patch: Fields, c: Crypto)
    ensures var db' := EditResult(db, user, patch, c).0;
      && db'.users.Keys == db.users.Keys
      && (forall id :: id in db.users && id != user.id ==> db'.users[id] == db.users[id])
    ensures user.id !in db.users && PatchAdmitted(patch, c) ==>
      EditResult(db, user, patch, c) == (db, Respond(204, NoBody))
    ensures var db' := EditResult(db, user, patch, c).0;
      user.id in db.users && db' != db ==>
        PatchAdmitted(patch, c) && db'.users[user.id] == Apply(db.users[user.id], patch, c)
  {
  }

  /**
   * An edit answers 204 exactly when every supplied path is admitted and
   * either no record has the caller's id or no other record holds the new
   * username. On an existing record the patch is then applied; a username
   * held by another record is a 400 and changes nothing.
   */
  lemma EditAppliesPatch(db: Db, user: AuthUser, patch: Fields, c: Crypto)
    ensures EditResult(db, user, patch, c).1 == Respond(204, NoBody) <==>
      && PatchAdmitted(patch, c)
      && (user.id !in db.users || !NameTakenByOther(db, user.id, Apply(db.users[user.id], patch, c).username))
    ensures (PatchAdmitted(patch, c) && user.id in db.users
             && !NameTakenByOther(db, user.id, Apply(db.users[user.id], patch, c).username)) ==>
      EditResult(db, user, patch, c).0.users == db.users[user.id := Apply(db.users[user.id], patch, c)]
    ensures (PatchAdmitted(patch, c) && user.id in db.users
             && NameTakenByOther(db, user.id, Apply(db.users[user.id], patch, c).username)) ==>
      EditResult(db, user, patch, c) == (db, Next(CreateError(BadRequest)))
  {
  }

  /**
   * The pre-save hook does not run on `findByIdAndUpdate`: a password set
   * through an edit is stored exactly as supplied, not hashed.
   */
  lemma EditStoresPasswordAsGiven(db: Db, user: AuthUser, password: string, c: Crypto)
    requires Indexed(db)
    requires user.id in db.users
    requires 10 <= |password| <= 300
    ensures var (db', out) := EditResult(db, user, map[Password := password], c);
      && out == Respond(204, NoBody)
      && db'.users == db.users[user.id := db.users[user.id].(password := password)]
      && Indexed(db')
  {
    var patch := map[Password := password];
    assert Admit(Password, password, c).Success?;
    assert PatchAdmitted(patch, c);
    var prior := db.users[user.id];
    assert Apply(prior, patch, c) == prior.(password := password);
    UpdateIndexed(db, user.id, patch, c);
  }

  /**
   * After a password edit, logging in with the new password succeeds only
   * if bcrypt accepts the password compared against itself: the stored
   * value is the plain password, not a hash of it.
   */
  lemma EditedPasswordLogin(db: Db, user: AuthUser, username: string, password: string, c: Crypto)
    requires Indexed(db)
    requires user.id in db.users && db.users[user.id].username == Trim(username)
    requires 10 <= |password| <= 300
    ensures var db' := EditResult(db, user, map[Password := password], c).0;
      LoginResult(db', Credentials(username, password), c).Respond? <==>
        c.compare(password, password) && c.sign(Claims(user.id)).Some?
  {
    EditStoresPasswordAsGiven(db, user, password, c);
    var db' := EditResult(db, user, map[Password := password], c).0;
    LoginWithOwnName(db', user.id, username, password, c);
  }

  /** Logging in under a record's own username succeeds exactly when that record's password matches and signing works. */
  lemma LoginWithOwnName(db: Db, id: Id, username: string, password: string, c: Crypto)
    requires Indexed(db)
    requires id in db.users && db.users[id].username == Trim(username)
    ensures LoginResult(db, Credentials(username, password), c).Respond? <==>
      c.compare(password, db.users[id].password) && c.sign(Claims(id)).Some?
  {
    LoginIff(db, username, password, c);
    forall other | other in db.users && db.users[other].username == Trim(username) ensures other == id {
      UsernamesUnique(db, other, id);
    }
  }

  /** Editing keeps the collection invariant. */
  lemma EditPreservesInv(db: Db, user: AuthUser, patch: Fields, c: Crypto)
    requires Inv(db)
    ensures Inv(EditResult(db, user, patch, c).0)
  {
    UpdatePreservesInv(db, user.id, patch, c);
  }
}
