/**
 * The `User` schema: the email setter and getter, the setters and validators
 * declared on each path, the output transform, the pre-save hashing hook,
 * and the document a registration builds.
 */
module UserModel {
  import opened Wrappers
  import opened Text
  import opened Http
  import opened Primitives

  // ---------------------------------------------------------------------
  // Email setter and getter
  // ---------------------------------------------------------------------

  /** What `setEmail` throws for a string that is not an address. */
  const NotAnEmail: Error := PlainError("ValidationError")

  /** What `getEmail` throws for the literal string `'undefined'`. */
  const DecryptUndefined: Error := PlainError("Error in decrypt")

  /** `setEmail`: reject anything that is not an address, else encrypt its lower-case form. */
  function SetEmail(email: string, c: Crypto): (r: Result<string, Error>)
    ensures r.Success? <==> c.isEmail(email)
    ensures r.Failure? ==> r.error == NotAnEmail
    ensures r.Success? ==> r.value == c.encrypt(ToLower(email))
  {
    if !c.isEmail(email) then Failure(NotAnEmail) else Success(c.encrypt(ToLower(email)))
  }

  /** `getEmail`: refuse the literal `'undefined'`, else decrypt. */
  function GetEmail(stored: string, c: Crypto): (r: Result<string, Error>)
    ensures stored == "undefined" ==> r == Failure(DecryptUndefined)
    ensures stored != "undefined" ==>
      (r.Success? <==> c.decrypt(stored).Success?) &&
      (r.Success? ==> r.value == c.decrypt(stored).value)
  {
    if stored == "undefined" then Failure(DecryptUndefined)
    else match c.decrypt(stored)
      case Success(plain) => Success(plain)
      case Failure(message) => Failure(PlainError(message))
  }

  /** The setter's checks come before any use of the cipher: a rejected address never reaches it. */
  lemma SetEmailRejectsBeforeEncrypting(email: string, c1: Crypto, c2: Crypto)
    requires c1.isEmail == c2.isEmail
    requires !c1.isEmail(email)
    ensures SetEmail(email, c1) == SetEmail(email, c2) == Failure(NotAnEmail)
  {
  }

  /** The getter refuses `'undefined'` whatever the cipher would have made of it. */
  lemma GetEmailRefusesUndefined(c1: Crypto, c2: Crypto)
    ensures GetEmail("undefined", c1) == GetEmail("undefined", c2) == Failure(DecryptUndefined)
  {
  }

  /**
   * Reading back a stored address gives its lower-case form, given a cipher
   * that round-trips and writes hex (hex can never spell `'undefined'`).
   */
  lemma EmailRoundTrip(email: string, c: Crypto)
    requires RoundTrips(c) && EmitsHex(c)
    requires c.isEmail(email)
    ensures GetEmail(SetEmail(email, c).value, c) == Success(ToLower(email))
  {
    var stored := c.encrypt(ToLower(email));
    assert IsHex(stored);
    assert !IsHexDigit("undefined"[0]);
    assert c.decrypt(stored) == Success(ToLower(email));
  }

  // ---------------------------------------------------------------------
  // Schema paths: setters and validators
  // ---------------------------------------------------------------------

  /** The schema's paths. */
  datatype Field = Username | Password | FirstName | LastName | Email

  /** A request body, restricted to the schema's paths and to string values. */
  type Fields = map<Field, string>

  /** `req.body[f]`: the value supplied for a path, or `None` when absent. */
  function Lookup(body: Fields, f: Field): Option<string> {
    if f in body then Some(body[f]) else None
  }

  const UsernameMinLength := 4
  const UsernameMaxLength := 20
  const PasswordMinLength := 10
  const PasswordMaxLength := 300

  /**
   * The setters of a path applied to a raw value. Mongoose runs a path's
   * setters last-declared-first, so the email path trims, lower-cases and
   * then calls `setEmail`; `password` has no setter and is not trimmed.
   */
  function Cast(f: Field, raw: string, c: Crypto): (r: Result<string, Error>)
    ensures f == Password ==> r == Success(raw)
    ensures f in {Username, FirstName, LastName} ==> r == Success(Trim(raw))
    ensures f == Email ==> r == SetEmail(ToLower(Trim(raw)), c)
  {
    match f
    case Password => Success(raw)
    case Email => SetEmail(ToLower(Trim(raw)), c)
    case _ => Success(Trim(raw))
  }

  /** The validators of a path (`required`, `minlength`, `maxlength`) on a value after its setters. */
  predicate Accepts(f: Field, v: string) {
    match f
    case Username => v != [] && UsernameMinLength <= |v| <= UsernameMaxLength
    case Password => v != [] && PasswordMinLength <= |v| <= PasswordMaxLength
    case _ => v != []
  }

  /** A path's setters followed by its validators; `Failure` when either rejects the value. */
  function Admit(f: Field, raw: string, c: Crypto): (r: Result<string, Error>)
    ensures f == Username ==> (r.Success? <==> 4 <= |Trim(raw)| <= 20)
    ensures f == Password ==> (r.Success? <==> 10 <= |raw| <= 300)
    ensures f == FirstName || f == LastName ==> (r.Success? <==> Trim(raw) != [])
    ensures f == Email ==> (r.Success? <==> c.isEmail(ToLower(Trim(raw))) && c.encrypt(ToLower(Trim(raw))) != [])
    ensures r.Success? ==> r.value == (match f
      case Password => raw
      case Email => c.encrypt(ToLower(Trim(raw)))
      case _ => Trim(raw))
  {
    ToLowerIdempotent(Trim(raw));
    match Cast(f, raw, c)
    case Failure(e) => Failure(e)
    case Success(v) => if Accepts(f, v) then Success(v) else Failure(PlainError("validation failed"))
  }

  /** A username is admitted exactly when its trimmed form has 4 to 20 characters. */
  lemma UsernameRule(raw: string, c: Crypto)
    ensures Admit(Username, raw, c).Success? <==> 4 <= |Trim(raw)| <= 20
    ensures Admit(Username, raw, c).Success? ==> Admit(Username, raw, c).value == Trim(raw)
  {
  }

  /** A password is admitted exactly when it has 10 to 300 characters, and is kept untrimmed. */
  lemma PasswordRule(raw: string, c: Crypto)
    ensures Admit(Password, raw, c).Success? <==> 10 <= |raw| <= 300
    ensures Admit(Password, raw, c).Success? ==> Admit(Password, raw, c).value == raw
  {
  }

  /** A first or last name is admitted exactly when it holds a character other than white space. */
  lemma NameRule(f: Field, raw: string, c: Crypto)
    requires f == FirstName || f == LastName
    ensures Admit(f, raw, c).Success? <==> exists i :: 0 <= i < |raw| && !IsSpace(raw[i])
    ensures Admit(f, raw, c).Success? ==> Admit(f, raw, c).value == Trim(raw)
  {
    TrimEmptyIffAllSpace(raw);
  }

  /** An email is admitted exactly when its trimmed lower-case form is an address with non-empty ciphertext. */
  lemma EmailRule(raw: string, c: Crypto)
    ensures Admit(Email, raw, c).Success? <==>
      c.isEmail(ToLower(Trim(raw))) && c.encrypt(ToLower(Trim(raw))) != []
    ensures Admit(Email, raw, c).Success? ==> Admit(Email, raw, c).value == c.encrypt(ToLower(Trim(raw)))
  {
    var lowered := ToLower(Trim(raw));
    ToLowerIdempotent(Trim(raw));
    assert Cast(Email, raw, c) == SetEmail(lowered, c);
    if c.isEmail(lowered) {
      var v := c.encrypt(lowered);
      assert Cast(Email, raw, c) == Success(v);
      assert Accepts(Email, v) <==> v != [];
      assert Admit(Email, raw, c).Success? <==> v != [];
    }
  }

  // ---------------------------------------------------------------------
  // Stored records
  // ---------------------------------------------------------------------

  /** A stored user: `password` holds the bcrypt hash and `email` the ciphertext. */
  datatype User = User(username: string, password: string, firstName: string, lastName: string, email: string)

  /** What every stored record satisfies: a valid trimmed username and trimmed non-empty names. */
  predicate WellFormed(u: User) {
    && UsernameMinLength <= |u.username| <= UsernameMaxLength && IsTrimmed(u.username)
    && u.firstName != [] && IsTrimmed(u.firstName)
    && u.lastName != [] && IsTrimmed(u.lastName)
  }

  /** A value admitted for a trimmed path is trimmed, so it passes as-is if admitted again. */
  lemma AdmittedIsTrimmed(f: Field, raw: string, c: Crypto)
    requires f == Username || f == FirstName || f == LastName
    requires Admit(f, raw, c).Success?
    ensures IsTrimmed(Admit(f, raw, c).value)
    ensures Admit(f, Admit(f, raw, c).value, c) == Admit(f, raw, c)
  {
    TrimIdempotent(raw);
  }

  // ---------------------------------------------------------------------
  // Output transform
  // ---------------------------------------------------------------------

  /** The `toObject` transform: delete `_id` and `__v`. */
  function Transform(ret: map<string, Json>): (r: map<string, Json>)
    ensures r.Keys == ret.Keys - {"_id", "__v"}
    ensures forall k :: k in r ==> r[k] == ret[k]
  {
    ret - {"_id", "__v"}
  }

  /** The plain object of a stored user with virtuals: `_id`, the `id` virtual and the stored paths. */
  function PlainObject(id: Id, u: User): map<string, Json> {
    map["_id" := JNum(id), "id" := JNum(id), "username" := JStr(u.username),
        "password" := JStr(u.password), "firstName" := JStr(u.firstName),
        "lastName" := JStr(u.lastName), "email" := JStr(u.email)]
  }

  /**
   * The transform hides `_id` but keeps the `id` virtual, the stored password
   * hash and the email ciphertext (`toObject` runs virtual getters, not path getters).
   */
  lemma ToObjectKeepsPassword(id: Id, u: User)
    ensures var o := Transform(PlainObject(id, u));
      && "_id" !in o && "__v" !in o && o["id"] == JNum(id)
      && o["password"] == JStr(u.password) && o["email"] == JStr(u.email)
  {
  }

  /** The transform is idempotent. */
  lemma TransformIdempotent(ret: map<string, Json>)
    ensures Transform(Transform(ret)) == Transform(ret)
  {
  }

  // ---------------------------------------------------------------------
  // Documents
  // ---------------------------------------------------------------------

  /** The paths of a new document: each supplied value after its setters. */
  function CastBody(body: Fields, c: Crypto): (paths: map<Field, Result<string, Error>>)
    ensures paths.Keys == body.Keys
    ensures forall f :: f in paths ==> paths[f] == Cast(f, body[f], c)
    ensures Password in body ==> paths[Password] == Success(body[Password])
    ensures Username in body ==> paths[Username] == Success(Trim(body[Username]))
    ensures FirstName in body ==> paths[FirstName] == Success(Trim(body[FirstName]))
    ensures LastName in body ==> paths[LastName] == Success(Trim(body[LastName]))
    ensures Email in body ==>
      (paths[Email].Success? <==> c.isEmail(ToLower(Trim(body[Email])))) &&
      (paths[Email].Success? ==> paths[Email].value == c.encrypt(ToLower(Trim(body[Email]))))
  {
    var paths := map f | f in body :: Cast(f, body[f], c);
    if Email in body then ToLowerIdempotent(Trim(body[Email])); paths else paths
  }

  /** Document validation: every path is required, set without a setter error, and accepted. */
  predicate PathsValid(paths: map<Field, Result<string, Error>>) {
    forall f: Field :: f in paths && paths[f].Success? && Accepts(f, paths[f].value)
  }

  /** Every path is present and was set without a setter error. */
  predicate PathsSet(paths: map<Field, Result<string, Error>>) {
    forall f: Field :: f in paths && paths[f].Success?
  }

  /** The record a document stores. */
  function RecordOf(paths: map<Field, Result<string, Error>>): User
    requires PathsSet(paths)
  {
    User(paths[Username].value, paths[Password].value, paths[FirstName].value,
         paths[LastName].value, paths[Email].value)
  }

  /** A body makes a valid document exactly when every path is present and admitted. */
  lemma ValidIffAllAdmitted(body: Fields, c: Crypto)
    ensures PathsValid(CastBody(body, c)) <==> forall f: Field :: f in body && Admit(f, body[f], c).Success?
  {
    var paths := CastBody(body, c);
    if PathsValid(paths) {
      forall f: Field ensures f in body && Admit(f, body[f], c).Success? {
        assert f in paths && paths[f].Success? && Accepts(f, paths[f].value);
      }
    }
  }

  /**
   * The record of a valid document: trimmed username and names, the
   * password as given, and the ciphertext of the trimmed lower-case email.
   */
  lemma RecordOfBody(body: Fields, c: Crypto)
    requires PathsValid(CastBody(body, c))
    ensures RecordOf(CastBody(body, c)) == User(Trim(body[Username]), body[Password],
      Trim(body[FirstName]), Trim(body[LastName]), c.encrypt(ToLower(Trim(body[Email]))))
  {
    var paths := CastBody(body, c);
    assert Username in paths && FirstName in paths && LastName in paths && Password in paths && Email in paths;
    assert paths[Email] == SetEmail(ToLower(Trim(body[Email])), c);
    ToLowerIdempotent(Trim(body[Email]));
  }

  /** A valid document's record is well formed. */
  lemma RecordWellFormed(body: Fields, c: Crypto)
    requires PathsValid(CastBody(body, c))
    ensures WellFormed(RecordOf(CastBody(body, c)))
  {
    var paths := CastBody(body, c);
    assert paths[Username].Success? && paths[FirstName].Success? && paths[LastName].Success?;
  }

  /** The message bcrypt gives when asked to hash a missing value. */
  const MissingData := "data and salt arguments required"

  /** A user document built from a request body (`new User({...})`). */
  class UserDocument {
    /** Each supplied path after its setters; a setter that threw leaves a `Failure` (a cast error). */
    var paths: map<Field, Result<string, Error>>

    constructor (body: Fields, c: Crypto)
      ensures paths == CastBody(body, c)
    {
      paths := CastBody(body, c);
    }

    /** `validate()`: true when the document has no validation or cast error. */
    predicate IsValid()
      reads this
    {
      PathsValid(paths)
    }

    /**
     * The `pre('save')` hook: replace `password` by `bcrypt.hash(password, 8)`.
     * When hashing fails the hook rejects with the library's message and the
     * document is left as it was.
     */
    method HashPassword(c: Crypto) returns (failure: Option<string>)
      modifies this
      ensures var h := HashOnSave(old(paths), c);
        (failure.None? <==> h.Success?) &&
        (h.Success? ==> paths == h.value) &&
        (h.Failure? ==> failure == Some(h.error) && paths == old(paths))
    {
      if Password in paths && paths[Password].Success? {
        var h := c.hash(paths[Password].value, SaltRounds);
        if h.Success? {
          paths := paths[Password := Success(h.value)];
          failure := None;
        } else {
          failure := Some(h.error);
        }
      } else {
        failure := Some(MissingData);
      }
    }
  }

  /** The paths after the pre-save hook, or bcrypt's error message. */
  function HashOnSave(paths: map<Field, Result<string, Error>>, c: Crypto): (r: Result<map<Field, Result<string, Error>>, string>)
    ensures r.Success? ==> r.value.Keys == paths.Keys && Password in r.value && r.value[Password].Success?
    ensures r.Success? ==> forall f :: f in paths && f != Password ==> r.value[f] == paths[f]
  {
    if Password in paths && paths[Password].Success? then
      match c.hash(paths[Password].value, SaltRounds)
      case Success(h) => Success(paths[Password := Success(h)])
      case Failure(m) => Failure(m)
    else Failure(MissingData)
  }

  /**
   * On a validated document the hook fails only when bcrypt does; otherwise
   * the password becomes its hash at cost 8 and the other paths are kept.
   */
  lemma HashOnSaveOnlyReplacesPassword(paths: map<Field, Result<string, Error>>, c: Crypto)
    requires PathsValid(paths)
    ensures var h := HashOnSave(paths, c);
      h.Success? <==> c.hash(paths[Password].value, SaltRounds).Success?
    ensures var h := HashOnSave(paths, c);
      h.Success? ==>
        && PathsSet(h.value)
        && RecordOf(h.value) == RecordOf(paths).(password := c.hash(paths[Password].value, SaltRounds).value)
  {
    assert Password in paths && paths[Password].Success?;
  }
}
