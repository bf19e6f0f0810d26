# Auth microservice — Dafny model

A model of an Express/Mongoose authentication service with three routes:

- `POST /register` builds a `User` document from the body and saves it. Building the document runs the schema's setters; saving runs the validators, then the pre-save hook that replaces the password by its bcrypt hash at cost 8. It answers 201 `{ id }`, or 409, 400 or 500 depending on the error.
- `POST /login` runs the `authenticate` static: `findOne` by username, then `bcrypt.compare`. It signs a token for `{ id }` and answers 201 `{ access_token, id }`. Every failure is the same 401.
- `PATCH /edit` sits behind the `authenticateJWT` bearer gate. It runs `findByIdAndUpdate` with validators on the caller's own record and answers 204. Any failure is a 400.

The application's error handler turns every error into `{ status, message }`. In development it adds fixed messages for 400, 401 and 409 and a `cause` object.

Modules, one per source file plus shared pieces:

- `Wrappers`: `Option` and `Result`.
- `Text`: JavaScript `trim`, `toLowerCase` and `split(' ')`.
- `Http`: JSON values, `http-errors` errors, handler outcomes.
- `Primitives`: the libraries the service calls (bcrypt, the AES-256-CBC cipher, `validator.isEmail`, `jsonwebtoken`). They are fields of a `Crypto` value of functions passed to every operation. Assumptions about them are predicates: `EmitsHex`, `RoundTrips`, `HashMatches`.
- `UserModel`: the email setter and getter, per-path setters and validators, the `toObject` transform, and the document class with its pre-save hook.
- `Store`: the `users` collection with its unique username index. Each operation is a function on a `Db` value. The `UserStore` class holds the collection and performs the same operations in place, proved equal to those functions.
- `AuthController`: `login`, `register`, `editPatch`. Each is a specification function and a method over `UserStore` proved against it.
- `AuthRouter`: `authenticateJWT`, the route table and dispatch.
- `Server`: the error-handling middleware.

Behaviours of the code that a reader might not expect, all modelled as written:

- The `toObject` transform removes only `_id` and `__v`. The password hash and the email ciphertext stay in the output.
- `editPatch` on an id with no record answers 204 and changes nothing. It does not answer "not found".
- `findByIdAndUpdate` runs no save hook, so a password set through `/edit` is stored unhashed. Logging in afterwards then depends on bcrypt accepting the password compared against itself, which a real bcrypt does not do for a value that is not a hash (`AuthController.EditedPasswordLogin`).
- `/edit` can change any path, the username included; the unique index still refuses a username another record holds.

## Model

| member | source | states |
|---|---|---|
| Text.Trim | src/models/user-model.js:71 | the result is a contiguous slice of the input with no surrounding white space, and everything removed before and after it is white space |
| Text.TrimIdempotent | src/models/user-model.js:71 | trimming an already trimmed value changes nothing |
| Text.TrimEmptyIffAllSpace | src/models/user-model.js:81-90 | `trim` gives the empty string exactly when every character is white space, so `required` on a trimmed path rejects blank values |
| Text.ToLowerIdempotent | src/models/user-model.js:95 | lower-casing twice is lower-casing once, so the email setter's second `toLowerCase` changes nothing |
| Text.Split | src/routes/auth-router.js:30 | `split(' ')` yields at least one part and no part contains a space |
| Text.JoinSplit | src/routes/auth-router.js:30 | joining the parts with the separator gives back the header |
| Text.SplitHead | src/routes/auth-router.js:30 | the first part is the header up to the first space, and there is one part exactly when there is no space |
| Text.SplitTail | src/routes/auth-router.js:30 | the parts after the first are the split of the text after the first space |
| UserModel.SetEmail | src/models/user-model.js:24-39 | succeeds exactly when `isEmail` accepts; the stored value is the ciphertext of the lower-case address, a rejection is `Error('ValidationError')` |
| UserModel.GetEmail | src/models/user-model.js:47-60 | the literal `'undefined'` throws `Error('Error in decrypt')`; anything else is decrypted |
| UserModel.SetEmailRejectsBeforeEncrypting | src/models/user-model.js:24-27 | a rejected address fails the same way whatever the cipher, so it never reaches encryption |
| UserModel.GetEmailRefusesUndefined | src/models/user-model.js:47-50 | `'undefined'` is refused whatever the cipher |
| UserModel.EmailRoundTrip | src/models/user-model.js:24-60 | with a cipher that round-trips and writes hex, reading back a stored address gives its lower-case form |
| UserModel.Admit | src/models/user-model.js:66-98 | per path: a username exactly when its trimmed form has 4 to 20 characters, a password exactly when it has 10 to 300, a name exactly when its trimmed form is non-empty, an email exactly when its trimmed lower-case form passes `isEmail` with non-empty ciphertext; the stored value is the trimmed form, the raw password, or the ciphertext |
| UserModel.UsernameRule | src/models/user-model.js:67-74 | a username is admitted exactly when its trimmed form has 4 to 20 characters, and the trimmed form is stored |
| UserModel.PasswordRule | src/models/user-model.js:75-80 | a password is admitted exactly when it has 10 to 300 characters, and is kept untrimmed |
| UserModel.NameRule | src/models/user-model.js:81-90 | a first or last name is admitted exactly when it has a non-space character, and the trimmed form is stored |
| UserModel.EmailRule | src/models/user-model.js:91-98 | an email is admitted exactly when its trimmed lower-case form passes `isEmail` and encrypts to a non-empty string; the ciphertext is stored |
| UserModel.AdmittedIsTrimmed | src/models/user-model.js:67-90 | an admitted username or name is trimmed, and admitting it again gives the same value |
| UserModel.Transform | src/models/user-model.js:111-114 | the output has the input's keys minus `_id` and `__v`, each with its value unchanged |
| UserModel.ToObjectKeepsPassword | src/models/user-model.js:99-116 | the object view has no `_id` or `__v` but keeps `id`, the password hash and the email ciphertext |
| UserModel.TransformIdempotent | src/models/user-model.js:111-114 | applying the transform twice is applying it once |
| UserModel.CastBody | src/controllers/auth-controller.js:57-63 | the new document has exactly the supplied paths: username and names trimmed, the password as given, the email rejected unless its trimmed lower-case form passes `isEmail` and otherwise stored as its ciphertext |
| UserModel.ValidIffAllAdmitted | src/models/user-model.js:66-98 | a document validates exactly when all five paths are present and admitted |
| UserModel.RecordOfBody | src/models/user-model.js:66-98 | a valid document holds the trimmed username and names, the password as given, and the ciphertext of the trimmed lower-case email |
| UserModel.RecordWellFormed | src/models/user-model.js:66-98 | a valid document's record is well formed |
| UserModel.UserDocument.constructor | src/controllers/auth-controller.js:57-63 | `new User({...})` holds each supplied path after its setters |
| UserModel.UserDocument.HashPassword | src/models/user-model.js:119-121 | the hook replaces the password by its bcrypt hash, or fails with bcrypt's message and leaves the document as it was |
| UserModel.HashOnSave | src/models/user-model.js:119-121 | on success only the password path changes, and it holds a set value |
| UserModel.HashOnSaveOnlyReplacesPassword | src/models/user-model.js:119-121 | on a valid document the hook fails exactly when bcrypt does; otherwise the record is the same except for the password, now its hash at cost 8 |
| Store.UsernamesUnique | src/models/user-model.js:70 | under the index invariant, two records with the same username are the same record |
| Store.FindByUsername | src/models/user-model.js:131 | a result is a record with that username; no result means no record has it |
| Store.FindByUsernameUnique | src/models/user-model.js:131-132 | the found record accepts the password exactly when some record with that username does |
| Store.AuthenticateIff | src/models/user-model.js:130-136 | `authenticate` returns a record exactly when one has the trimmed username and bcrypt accepts the password; otherwise it throws `Invalid login attempt.` |
| Store.InsertIndexed | src/models/user-model.js:70 | inserting keeps the unique index consistent |
| Store.SaveIndexed | src/controllers/auth-controller.js:65 | saving keeps the unique index consistent |
| Store.SaveStoresRecord | src/controllers/auth-controller.js:65 | a save that passes validation, the hook and the unique index adds exactly its record under a fresh id |
| Store.UpdateIndexed | src/controllers/auth-controller.js:97 | an update keeps the unique index consistent |
| Store.SavePreservesInv | src/controllers/auth-controller.js:57-65 | saving keeps every record well formed and the index consistent |
| Store.UpdatePreservesInv | src/controllers/auth-controller.js:97 | an update with validators keeps every record well formed and the index consistent |
| Store.UserStore.Save | src/controllers/auth-controller.js:65 | `save()` validates, runs the hook and inserts, leaving the collection and document as `SaveResult` says |
| Store.UserStore.Authenticate | src/models/user-model.js:130-136 | the in-place lookup and compare give the `AuthenticateResult` answer; a returned record accepts the password |
| Store.UserStore.FindByIdAndUpdate | src/controllers/auth-controller.js:97 | the update leaves the collection and result as `UpdateResult` says and keeps the index |
| AuthController.ClassifyRegisterError | src/controllers/auth-controller.js:70-85 | code 11000 is a 409, then `ValidationError` is a 400, anything else a 500; the original error is always the cause |
| AuthController.Login | src/controllers/auth-controller.js:22-46 | the handler answers exactly what `LoginResult` says and changes nothing |
| AuthController.Register | src/controllers/auth-controller.js:55-86 | the handler leaves the store and answers as `RegisterResult` says |
| AuthController.EditPatch | src/controllers/auth-controller.js:95-105 | the handler leaves the store and answers as `EditResult` says |
| AuthController.LoginIff | src/controllers/auth-controller.js:22-46 | login answers 201 exactly when a record has the trimmed username, bcrypt accepts the password and signing succeeds, with that record's token and id; otherwise the 401 error |
| AuthController.LoginReplyIff | src/controllers/auth-controller.js:28-45 | given what `authenticate` returned, the reply is the token of the unique matching record or the 401 error |
| AuthController.LoginAsStoredUser | src/controllers/auth-controller.js:22-42 | a record whose username and password match logs in with the token of its own id |
| AuthController.LoginFailuresIndistinguishable | src/controllers/auth-controller.js:43-45 | an unknown username and a wrong password for a known one give the very same outcome |
| AuthController.RegisterOutcomes | src/controllers/auth-controller.js:55-86 | a rejected path gives 400, a bcrypt failure 500, a taken username 409, else 201 with the next id; the store changes only on 201 |
| AuthController.RegisterStoresRecord | src/controllers/auth-controller.js:57-69 | a 201 stores exactly one new record: trimmed username and names, the hashed password, the ciphertext of the trimmed lower-case email |
| AuthController.RegisterPreservesInv | src/controllers/auth-controller.js:55-86 | registering keeps every record well formed and the index consistent |
| AuthController.RegisterThenLogin | src/controllers/auth-controller.js:22-69 | after a successful registration, logging in with the same username and password gives the new id's token |
| AuthController.EditFailureIsBadRequest | src/controllers/auth-controller.js:95-105 | a failed edit is the 400 error and changes nothing; a success is 204 with no body |
| AuthController.EditTouchesOnlyOwnRecord | src/controllers/auth-controller.js:97 | an edit changes only the caller's record and only the supplied paths; an unknown id gives 204 and no change |
| AuthController.EditAppliesPatch | src/controllers/auth-controller.js:97-99 | an edit answers 204 exactly when every supplied path is admitted and the id is unknown or no other record holds the new username; on an existing record the patch is then applied, and a username held by another record gives 400 with no change |
| AuthController.EditStoresPasswordAsGiven | src/controllers/auth-controller.js:97 | a password set through an edit is stored exactly as supplied, not hashed; only that record's password changes and the index stays consistent |
| AuthController.LoginWithOwnName | src/controllers/auth-controller.js:22-46 | logging in under a record's own username succeeds exactly when that record's password matches and signing works |
| AuthController.EditedPasswordLogin | src/controllers/auth-controller.js:97 | after a password edit, logging in with the new password succeeds exactly when bcrypt accepts the password against itself and signing works |
| AuthController.EditPreservesInv | src/controllers/auth-controller.js:97 | editing keeps every record well formed and the index consistent |
| AuthRouter.AuthenticateJwt | src/routes/auth-router.js:27-47 | the gate passes exactly when the header is `Bearer` or starts with `Bearer `, a token follows and it verifies, and then sets the user to `{ id }` of its claims; every refusal is the 401 error |
| AuthRouter.BearerScheme | src/routes/auth-router.js:30-34 | the scheme is `Bearer` exactly when the header is `Bearer` or starts with `Bearer ` |
| AuthRouter.BearerHeadOnlyIf | src/routes/auth-router.js:30-34 | a first part `Bearer` means the header is `Bearer` or starts with `Bearer ` |
| AuthRouter.BearerHeadIf | src/routes/auth-router.js:30-34 | a header that is `Bearer` or starts with `Bearer ` has first part `Bearer` |
| AuthRouter.BearerToken | src/routes/auth-router.js:30 | `Bearer <token>` with a space-free token parses to that scheme and token |
| AuthRouter.GateIff | src/routes/auth-router.js:27-47 | the gate passes exactly when the scheme is `Bearer` and a token is present and verifies, with `req.user` = `{ id }` of its claims; every refusal is the 401 error |
| AuthRouter.SchemeCheckedBeforeVerify | src/routes/auth-router.js:30-36 | a missing header or another scheme is refused whatever the verifier |
| AuthRouter.MatchRoute | src/routes/auth-router.js:53-55 | a match is a route with that method and path; no match means no route has them |
| AuthRouter.OnlyEditGuarded | src/routes/auth-router.js:53-55 | only `/edit` has the gate in front of it |
| AuthRouter.EditIsGated | src/routes/auth-router.js:55 | `PATCH /edit` with a refused token is a 401 and leaves the store as it was; with an accepted one it is `editPatch` for the token's user |
| AuthRouter.LoginAndRegisterUngated | src/routes/auth-router.js:53-54 | `POST /login` and `POST /register` run their handlers whatever the header says |
| AuthRouter.Dispatch | src/routes/auth-router.js:53-55 | routing leaves the store and the outcome as `DispatchResult` says |
| Server.HandleError | src/server.js:25-63 | the status is the error's status, or 500 when it is missing or zero, and the body echoes it; outside development exactly `{ status, message }` with the error's message; in development `{ status, message, cause }` with the fixed 400, 401 and 409 messages and `cause` the cause's `{ status, message }` or `null` |
| Server.StatusDefaultsTo500 | src/server.js:26-33 | the response status is the error's status, or 500 when it has none; the body's `status` equals it |
| Server.ProductionBody | src/server.js:28-35 | outside development the body is exactly `{ status, message }`, with the error's own message |
| Server.DevelopmentBody | src/server.js:37-61 | in development 400, 401 and 409 get their fixed messages, others keep the error's message; `cause` is `null` exactly when there is no cause, and otherwise is `{ status, message }` of the cause, `status` left out when the cause has none |
| Server.DevelopmentMessagesFixed | src/server.js:37-47 | in development the message for 400, 401 and 409 depends only on the status |
| Server.ErrorResponse | src/server.js:25-47 | a `createError(s)` error is answered with status `s` and the standard or development message |
| Server.LoginFailureResponsesIdentical | src/controllers/auth-controller.js:43-45 | an unknown username and a wrong password get the same response in every environment |
| Server.DuplicateRegistrationResponse | src/server.js:45-61 | registering a taken username answers 409 with the conflict message and the driver error as `cause` in development, and `Conflict` otherwise |
| Server.ClassifiedDuplicate | src/controllers/auth-controller.js:72-75 | the response to the 409 built from a duplicate key, in and out of development |
| Server.RefusedEditIsUnauthorized | src/routes/auth-router.js:43-46 | a refused `PATCH /edit` is answered 401 and does not touch the store |

## Left out

- Server.HandleError: the `stack` fields of the development body and of its `cause` are not modelled; stack traces are runtime text with no fixed content.
- UserModel.Admit: the text of a validator's message is a fixed placeholder; only the error's name `ValidationError` affects behaviour.
- Text.ToLower: only ASCII letters are lower-cased; full Unicode case mapping is not modelled.
- String lengths are counted in characters, not UTF-16 code units, so `minlength` and `maxlength` differ for characters outside the Basic Multilingual Plane.
- Request bodies are maps from the five schema paths to strings. Non-string values, casts of numbers and extra keys are not modelled.
- AuthController.LoginFailuresIndistinguishable: response time is not modelled. An unknown username skips `bcrypt.compare` (src/models/user-model.js:132) while a wrong password runs it, so the two failures can take different times; only the outcomes are proved equal.
- Store.AuthenticateResult: a login body without `username` is treated as matching no record. Mongoose may drop an `undefined` filter value and then match any record; that query behaviour is not modelled.
- Token claims always carry a numeric id. A token without `id` and an id that is not a valid ObjectId are not modelled. Ids are naturals from a counter, not ObjectIds.
- The `timestamps` option (`createdAt`, `updatedAt`) is not modelled; no operation reads those fields.
- Concurrency is not modelled: two registrations racing on one username are serialised by the store's unique index, and the model treats each request as atomic.
- Environment configuration, key loading and the cipher's IV and key come from the process environment and are part of the `Crypto` parameter and the `env` string.
- The catch-all router in `src/routes/router.js` (its 404 for unknown paths) is not part of this model; `DispatchResult` answers `None` for a request no route matches.
- Database connection, HTTP server start-up, `helmet`, request logging and `console.log` are I/O and are not modelled.
- The cryptographic strength of bcrypt, AES-256-CBC and RS256 is not modelled; the libraries are opaque functions with stated assumptions.
