/**
 * The `users` collection: records by id, with the unique index on
 * `username`. Saving a new document, `findOne` by username inside the
 * `authenticate` static, and `findByIdAndUpdate` with validators are its
 * operations. Each is a function on a `Db` value; the `UserStore` class
 * holds the collection and performs them in place.
 */
module Store {
  import opened Wrappers
  import opened Text
  import opened Http
  import opened Primitives
  import opened UserModel

  /** The collection: records by id, the unique username index, and the next free id. */
  datatype Db = Db(users: map<Id, User>, byName: map<string, Id>, nextId: Id)

  /** The index maps each stored username to the one record holding it, and ids are below `nextId`. */
  ghost predicate Indexed(db: Db) {
    && (forall id :: id in db.users ==>
          id < db.nextId && db.users[id].username in db.byName && db.byName[db.users[id].username] == id)
    && (forall n :: n in db.byName ==> db.byName[n] in db.users && db.users[db.byName[n]].username == n)
  }

  /** The collection invariant: the index holds and every record is well formed. */
  ghost predicate Inv(db: Db) {
    Indexed(db) && forall id :: id in db.users ==> WellFormed(db.users[id])
  }

  /** Usernames are unique across records. */
  lemma UsernamesUnique(db: Db, a: Id, b: Id)
    requires Indexed(db)
    requires a in db.users && b in db.users && db.users[a].username == db.users[b].username
    ensures a == b
  {
  }

  /** The error `save()` rejects with when validation fails. */
  const ValidationFailed: Error := Error("ValidationError", "User validation failed", None, None, None)

  /** The driver's error for a second record with the same username. */
  const DuplicateKey: Error := Error("MongoServerError", "E11000 duplicate key error", None, Some(11000), None)

  /** What `authenticate` throws for an unknown user and for a wrong password alike. */
  const InvalidLogin: Error := PlainError("Invalid login attempt.")

  /** What bcrypt throws when `compare` is given no password. */
  const MissingPassword: Error := PlainError("data and hash arguments required")

  /** `findOne({ username })`: the id of the record with that username. */
  function FindByUsername(db: Db, name: string): (r: Option<Id>)
    ensures r.Some? ==> r.value in db.users && db.users[r.value].username == name
    ensures Indexed(db) && r.None? ==> forall id :: id in db.users ==> db.users[id].username != name
  {
    if name in db.byName && db.byName[name] in db.users && db.users[db.byName[name]].username == name
    then Some(db.byName[name]) else None
  }

  /** Inserting a record: refused with the duplicate-key error when its username is taken. */
  function Insert(db: Db, u: User): (Db, Result<Id, Error>) {
    if u.username in db.byName then (db, Failure(DuplicateKey))
    else (Db(db.users[db.nextId := u], db.byName[u.username := db.nextId], db.nextId + 1), Success(db.nextId))
  }

  /** `save()` of a new document: validate, run the pre-save hook, insert. */
  function SaveResult(db: Db, paths: map<Field, Result<string, Error>>, c: Crypto): (Db, Result<Id, Error>) {
    if !PathsValid(paths) then (db, Failure(ValidationFailed))
    else match HashOnSave(paths, c)
      case Failure(m) => (db, Failure(PlainError(m)))
      case Success(hashed) => Insert(db, RecordOf(hashed))
  }

  /**
   * `User.authenticate(username, password)`: the id of the matching record.
   * Schema setters also run on query filters, so the username is trimmed
   * before the lookup; a missing username matches no record.
   */
  function AuthenticateResult(db: Db, username: Option<string>, password: Option<string>, c: Crypto): Result<Id, Error> {
    var found := if username.Some? then FindByUsername(db, Trim(username.value)) else None;
    match found
    case None => Failure(InvalidLogin)
    case Some(id) =>
      match password
      case None => Failure(MissingPassword)
      case Some(p) => if c.compare(p, db.users[id].password) then Success(id) else Failure(InvalidLogin)
  }

  /** By uniqueness, the record `findOne` returns is the only one with that username. */
  lemma FindByUsernameUnique(db: Db, name: string, password: string, c: Crypto)
    requires Indexed(db)
    ensures var found := FindByUsername(db, name);
      (found.Some? && c.compare(password, db.users[found.value].password)) <==>
      exists id :: id in db.users && db.users[id].username == name && c.compare(password, db.users[id].password)
  {
    var found := FindByUsername(db, name);
    if found.Some? {
      forall id | id in db.users && db.users[id].username == name ensures id == found.value {
        UsernamesUnique(db, id, found.value);
      }
    }
  }

  /**
   * `authenticate` returns a record exactly when one has the (trimmed)
   * username and bcrypt accepts the password against its stored hash;
   * an unknown username and a wrong password throw the same error.
   */
  lemma AuthenticateIff(db: Db, username: string, password: string, c: Crypto)
    requires Indexed(db)
    ensures var r := AuthenticateResult(db, Some(username), Some(password), c);
      && (r.Success? <==> exists id :: id in db.users && db.users[id].username == Trim(username)
                                      && c.compare(password, db.users[id].password))
      && (r.Success? ==> r.value in db.users && db.users[r.value].username == Trim(username))
      && (r.Failure? ==> r.error == InvalidLogin)
  {
    var name := Trim(username);
    FindByUsernameUnique(db, name, password, c);
    var found := FindByUsername(db, name);
    assert AuthenticateResult(db, Some(username), Some(password), c)
      == if found.Some? && c.compare(password, db.users[found.value].password) then Success(found.value)
         else Failure(InvalidLogin);
  }

  /** Every supplied path of an update is admitted by its setters and validators. */
  predicate PatchAdmitted(patch: Fields, c: Crypto) {
    forall f :: f in patch ==> Admit(f, patch[f], c).Success?
  }

  /** The value a path takes after an admitted update: the new value if supplied, else the old one. */
  function Patched(f: Field, before: string, patch: Fields, c: Crypto): string
    requires PatchAdmitted(patch, c)
  {
    if f in patch then Admit(f, patch[f], c).value else before
  }

  /** A record after an admitted update. No hook runs, so a new password is stored as given. */
  function Apply(u: User, patch: Fields, c: Crypto): User
    requires PatchAdmitted(patch, c)
  {
    User(Patched(Username, u.username, patch, c), Patched(Password, u.password, patch, c),
         Patched(FirstName, u.firstName, patch, c), Patched(LastName, u.lastName, patch, c),
         Patched(Email, u.email, patch, c))
  }

  /** The unique index refuses `name` for record `id`: another record already holds it. */
  predicate NameTakenByOther(db: Db, id: Id, name: string) {
    name in db.byName && db.byName[name] != id
  }

  /**
   * `findByIdAndUpdate(id, patch, { runValidators: true })`: `Success(true)`
   * when a record was updated, `Success(false)` when no record has that id.
   */
  function UpdateResult(db: Db, id: Id, patch: Fields, c: Crypto): (Db, Result<bool, Error>) {
    if !PatchAdmitted(patch, c) then (db, Failure(ValidationFailed))
    else if id !in db.users then (db, Success(false))
    else
      var prior := db.users[id];
      var u := Apply(prior, patch, c);
      if NameTakenByOther(db, id, u.username) then (db, Failure(DuplicateKey))
      else (Db(db.users[id := u], (db.byName - {prior.username})[u.username := id], db.nextId), Success(true))
  }

  /** Inserting keeps the index. */
  lemma InsertIndexed(db: Db, u: User)
    requires Indexed(db)
    ensures Indexed(Insert(db, u).0)
  {
  }

  /** Saving keeps the index. */
  lemma SaveIndexed(db: Db, paths: map<Field, Result<string, Error>>, c: Crypto)
    requires Indexed(db)
    ensures Indexed(SaveResult(db, paths, c).0)
  {
    if PathsValid(paths) && HashOnSave(paths, c).Success? {
      InsertIndexed(db, RecordOf(HashOnSave(paths, c).value));
    }
  }

  /** A save that gets past validation, the hook and the unique index adds exactly its record under the next id. */
  lemma SaveStoresRecord(db: Db, paths: map<Field, Result<string, Error>>, c: Crypto)
    requires Indexed(db) && PathsValid(paths) && HashOnSave(paths, c).Success?
    requires RecordOf(HashOnSave(paths, c).value).username !in db.byName
    ensures var (db', r) := SaveResult(db, paths, c);
      && r == Success(db.nextId)
      && Indexed(db')
      && db.nextId !in db.users
      && db'.users == db.users[db.nextId := RecordOf(HashOnSave(paths, c).value)]
  {
    SaveIndexed(db, paths, c);
  }

  /** An update keeps the index. */
  lemma UpdateIndexed(db: Db, id: Id, patch: Fields, c: Crypto)
    requires Indexed(db)
    ensures Indexed(UpdateResult(db, id, patch, c).0)
  {
    var (db', r) := UpdateResult(db, id, patch, c);
    if r == Success(true) {
      var prior := db.users[id];
      var u := Apply(prior, patch, c);
      forall id2 | id2 in db'.users
        ensures id2 < db'.nextId && db'.users[id2].username in db'.byName && db'.byName[db'.users[id2].username] == id2
      {
        if id2 != id {
          assert db.users[id2].username != prior.username;
        }
      }
    }
  }

  /** Registering keeps the collection invariant: the new record is well formed. */
  lemma SavePreservesInv(db: Db, body: Fields, c: Crypto)
    requires Inv(db)
    ensures Inv(SaveResult(db, CastBody(body, c), c).0)
  {
    var paths := CastBody(body, c);
    SaveIndexed(db, paths, c);
    if PathsValid(paths) && HashOnSave(paths, c).Success? {
      RecordWellFormed(body, c);
      HashOnSaveOnlyReplacesPassword(paths, c);
    }
  }

  /** An update keeps the collection invariant: an admitted username or name is trimmed and valid. */
  lemma UpdatePreservesInv(db: Db, id: Id, patch: Fields, c: Crypto)
    requires Inv(db)
    ensures Inv(UpdateResult(db, id, patch, c).0)
  {
    UpdateIndexed(db, id, patch, c);
    var (db', r) := UpdateResult(db, id, patch, c);
    if r == Success(true) {
      var u := db'.users[id];
      if Username in patch { AdmittedIsTrimmed(Username, patch[Username], c); }
      if FirstName in patch { AdmittedIsTrimmed(FirstName, patch[FirstName], c); }
      if LastName in patch { AdmittedIsTrimmed(LastName, patch[LastName], c); }
      assert WellFormed(u);
    }
  }

  /** The collection. */
  class UserStore {
    var users: map<Id, User>
    var byName: map<string, Id>
    var nextId: Id

    function State(): Db
      reads this
    {
      Db(users, byName, nextId)
    }

    ghost predicate Valid()
      reads this
    {
      Indexed(State())
    }

    constructor ()
      ensures Valid() && State() == Db(map[], map[], 0)
    {
      users, byName, nextId := map[], map[], 0;
    }

    /** `doc.save()`: validation, then the pre-save hook (which rewrites the document), then the insert. */
    method Save(doc: UserDocument, c: Crypto) returns (r: Result<Id, Error>)
      requires Valid()
      modifies this, doc
      ensures Valid()
      ensures (State(), r) == SaveResult(old(State()), old(doc.paths), c)
      ensures doc.paths == if PathsValid(old(doc.paths)) && HashOnSave(old(doc.paths), c).Success?
                           then HashOnSave(old(doc.paths), c).value else old(doc.paths)
    {
      if !doc.IsValid() {
        return Failure(ValidationFailed);
      }
      var failure := doc.HashPassword(c);
      if failure.Some? {
        return Failure(PlainError(failure.value));
      }
      var u := RecordOf(doc.paths);
      if u.username in byName {
        return Failure(DuplicateKey);
      }
      SaveIndexed(State(), old(doc.paths), c);
      r := Success(nextId);
      users := users[nextId := u];
      byName := byName[u.username := nextId];
      nextId := nextId + 1;
    }

    /** The `authenticate` static: find the user by username and compare the password with bcrypt. */
    method Authenticate(username: Option<string>, password: Option<string>, c: Crypto) returns (r: Result<Id, Error>)
      requires Valid()
      ensures r == AuthenticateResult(State(), username, password, c)
      ensures r.Success? ==> r.value in users && c.compare(password.value, users[r.value].password)
    {
      if username.None? {
        return Failure(InvalidLogin);
      }
      var name := Trim(username.value);
      if name !in byName {
        return Failure(InvalidLogin);
      }
      var id := byName[name];
      if password.None? {
        return Failure(MissingPassword);
      }
      if !c.compare(password.value, users[id].password) {
        return Failure(InvalidLogin);
      }
      r := Success(id);
    }

    /** `findByIdAndUpdate(id, patch, { runValidators: true })`. */
    method FindByIdAndUpdate(id: Id, patch: Fields, c: Crypto) returns (r: Result<bool, Error>)
      requires Valid()
      modifies this
      ensures Valid()
      ensures (State(), r) == UpdateResult(old(State()), id, patch, c)
    {
      if !PatchAdmitted(patch, c) {
        return Failure(ValidationFailed);
      }
      if id !in users {
        return Success(false);
      }
      var prior := users[id];
      var u := Apply(prior, patch, c);
      if u.username in byName && byName[u.username] != id {
        return Failure(DuplicateKey);
      }
      UpdateIndexed(State(), id, patch, c);
      users := users[id := u];
      byName := (byName - {prior.username})[u.username := id];
      r := Success(true);
    }
  }
}
