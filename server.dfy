/**
 * The application's error-handling middleware, and how an outcome of the
 * router becomes the HTTP response.
 */
module Server {
  import opened Wrappers
  import opened Text
  import opened Http
  import opened Primitives
  import opened UserModel
  import opened Store
  import opened AuthController
  import opened AuthRouter

  /** A response: status and body. */
  datatype Response = Response(status: int, body: Body)

  /** The environment name under which the handler adds diagnostics. */
  const Development := "development"

  const DevBadRequestMessage := "The request cannot or will not be processed due to something that is perceived to be a client error (for example, validation error)."
  const DevUnauthorizedMessage := "Credentials invalid or not provided."
  const DevConflictMessage := "The username and/or email address is already registered."

  /** `err.status || 500`: a missing (or zero) status counts as 500. */
  function EffectiveStatus(status: Option<int>): int {
    if status.Some? && status.value != 0 then status.value else 500
  }

  /** The development message: fixed texts for 400, 401 and 409, the error's own otherwise. */
  function DevMessage(status: int, message: string): string {
    if status == 400 then DevBadRequestMessage
    else if status == 401 then DevUnauthorizedMessage
    else if status == 409 then DevConflictMessage
    else message
  }

  /** `{ status, message }` of a cause; a `status` that is `undefined` is left out by `JSON.stringify`. */
  function CauseJson(cause: Option<Error>): Json {
    match cause
    case None => JNull
    case Some(e) =>
      var fields := map["message" := JStr(e.message)];
      JObj(if e.status.Some? then fields["status" := JNum(e.status.value)] else fields)
  }

  /**
   * The error handler: `{ status, message }`, or in development
   * `{ status, message, cause }` with the fixed messages for 400, 401 and
   * 409 and `cause` the `{ status, message }` of the error's cause.
   */
  function HandleError(env: string, err: Error): (r: Response)
    ensures r.status == (if err.status.Some? && err.status.value != 0 then err.status.value else 500)
    ensures r.body.JsonBody? && r.body.json.JObj?
    ensures "status" in r.body.json.fields && r.body.json.fields["status"] == JNum(r.status)
    ensures env != Development ==>
      r.body.json.fields.Keys == {"status", "message"} && r.body.json.fields["message"] == JStr(err.message)
    ensures env == Development ==>
      && r.body.json.fields.Keys == {"status", "message", "cause"}
      && r.body.json.fields["message"] == JStr(
           if r.status == 400 then DevBadRequestMessage
           else if r.status == 401 then DevUnauthorizedMessage
           else if r.status == 409 then DevConflictMessage
           else err.message)
      && (err.cause.None? ==> r.body.json.fields["cause"] == JNull)
      && (err.cause.Some? ==>
            var cause := err.cause.value;
            && r.body.json.fields["cause"].JObj?
            && r.body.json.fields["cause"].fields.Keys == (if cause.status.Some? then {"status", "message"} else {"message"})
            && r.body.json.fields["cause"].fields["message"] == JStr(cause.message)
            && (cause.status.Some? ==> r.body.json.fields["cause"].fields["status"] == JNum(cause.status.value)))
  {
    var status := EffectiveStatus(err.status);
    if env != Development then
      Response(status, JsonBody(JObj(map["status" := JNum(status), "message" := JStr(err.message)])))
    else
      Response(status, JsonBody(JObj(map["status" := JNum(status), "message" := JStr(DevMessage(status, err.message)),
                                        "cause" := CauseJson(err.cause)])))
  }

  /** The response of the application to a handler's outcome. */
  function Reply(env: string, out: Outcome): Response {
    match out
    case Respond(status, body) => Response(status, body)
    case Next(err) => HandleError(env, err)
  }

  /** The response status is the error's status, or 500 when it has none. */
  lemma StatusDefaultsTo500(env: string, err: Error)
    ensures err.status.None? ==> HandleError(env, err).status == 500
    ensures err.status.Some? && err.status.value != 0 ==> HandleError(env, err).status == err.status.value
    ensures HandleError(env, err).body.JsonBody? && HandleError(env, err).body.json.JObj?
    ensures HandleError(env, err).body.json.fields["status"] == JNum(HandleError(env, err).status)
  {
  }

  /** Outside development the body is exactly `{ status, message }`, the message unchanged. */
  lemma ProductionBody(env: string, err: Error)
    requires env != Development
    ensures var r := HandleError(env, err);
      r.body.JsonBody? && r.body.json.JObj? &&
      r.body.json.fields.Keys == {"status", "message"} &&
      r.body.json.fields["message"] == JStr(err.message)
  {
  }

  /**
   * In development, 400, 401 and 409 get their fixed messages whatever the
   * error said, every other status keeps the error's message, and `cause`
   * is `null` exactly when the error has none.
   */
  lemma DevelopmentBody(err: Error)
    ensures var r := HandleError(Development, err);
      && r.body.JsonBody? && r.body.json.JObj?
      && r.body.json.fields.Keys == {"status", "message", "cause"}
      && (r.status == 400 ==> r.body.json.fields["message"] == JStr(DevBadRequestMessage))
      && (r.status == 401 ==> r.body.json.fields["message"] == JStr(DevUnauthorizedMessage))
      && (r.status == 409 ==> r.body.json.fields["message"] == JStr(DevConflictMessage))
      && (r.status != 400 && r.status != 401 && r.status != 409 ==>
            r.body.json.fields["message"] == JStr(err.message))
      && (r.body.json.fields["cause"] == JNull <==> err.cause.None?)
      && (err.cause.Some? ==>
            var cause := err.cause.value;
            && r.body.json.fields["cause"].JObj?
            && r.body.json.fields["cause"].fields.Keys == (if cause.status.Some? then {"status", "message"} else {"message"})
            && r.body.json.fields["cause"].fields["message"] == JStr(cause.message)
            && (cause.status.Some? ==> r.body.json.fields["cause"].fields["status"] == JNum(cause.status.value)))
  {
  }

  /** The development messages depend only on the status for 400, 401 and 409. */
  lemma DevelopmentMessagesFixed(e1: Error, e2: Error)
    requires e1.status == e2.status && e1.status.Some?
    requires e1.status.value == 400 || e1.status.value == 401 || e1.status.value == 409
    ensures HandleError(Development, e1).body.json.fields["message"]
         == HandleError(Development, e2).body.json.fields["message"]
  {
  }

  /** The response to an error made by `createError(status)`. */
  lemma ErrorResponse(env: string, s: HttpStatus)
    ensures var r := Reply(env, Next(CreateError(s)));
      && r.status == s.Code()
      && r.body.json.fields["message"] == JStr(if env == Development then DevMessage(s.Code(), s.ReasonPhrase()) else s.ReasonPhrase())
  {
  }

  /**
   * A login with an unknown username and one with a wrong password get the
   * same response in every environment: the one for a `createError(401)`
   * (see `ErrorResponse`).
   */
  lemma LoginFailureResponsesIdentical(env: string, db: Db, unknown: string, p1: string, known: string, p2: string, c: Crypto)
    requires Indexed(db)
    requires forall id :: id in db.users ==> db.users[id].username != Trim(unknown)
    requires exists id :: id in db.users && db.users[id].username == Trim(known) && !c.compare(p2, db.users[id].password)
    ensures Reply(env, LoginResult(db, Credentials(unknown, p1), c)) == Reply(env, LoginResult(db, Credentials(known, p2), c))
      == Reply(env, Next(CreateError(Unauthorized)))
  {
    LoginFailuresIndistinguishable(db, unknown, p1, known, p2, c);
  }

  /**
   * A registration whose username is taken answers 409; in development its
   * body names the conflict and carries the driver's error as `cause`.
   */
  lemma DuplicateRegistrationResponse(env: string, db: Db, body: Fields, c: Crypto)
    requires forall f: Field :: f in body && Admit(f, body[f], c).Success?
    requires c.hash(body[Password], SaltRounds).Success?
    requires Trim(body[Username]) in db.byName
    ensures var r := Reply(env, RegisterResult(db, body, c).1);
      && r.status == 409
      && (env == Development ==> r.body.json.fields == map["status" := JNum(409),
            "message" := JStr(DevConflictMessage), "cause" := CauseJson(Some(DuplicateKey))])
      && (env != Development ==> r.body.json.fields == map["status" := JNum(409), "message" := JStr("Conflict")])
  {
    RegisterOutcomes(db, body, c);
    var out := RegisterResult(db, body, c).1;
    assert out == Next(ClassifyRegisterError(DuplicateKey));
    ClassifiedDuplicate(env);
  }

  /** The response to the 409 that `register` builds from a duplicate key. */
  lemma ClassifiedDuplicate(env: string)
    ensures var r := Reply(env, Next(ClassifyRegisterError(DuplicateKey)));
      && r.status == 409
      && (env == Development ==> r.body.json.fields == map["status" := JNum(409),
            "message" := JStr(DevConflictMessage), "cause" := CauseJson(Some(DuplicateKey))])
      && (env != Development ==> r.body.json.fields == map["status" := JNum(409), "message" := JStr("Conflict")])
  {
  }

  /** A `PATCH /edit` the gate refuses is answered 401 and leaves the store as it was. */
  lemma RefusedEditIsUnauthorized(env: string, db: Db, req: Request, c: Crypto)
    requires req.verb == "PATCH" && PathMatches(req.path, "/edit")
    requires AuthenticateJwt(req.authorization, c).Refuse?
    ensures DispatchResult(db, req, c).1.Some?
    ensures Reply(env, DispatchResult(db, req, c).1.value).status == 401
    ensures DispatchResult(db, req, c).0 == db
  {
    EditIsGated(db, req, c);
  }
}
