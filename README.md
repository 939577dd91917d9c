# Auth-Service core, modelled in Dafny

This project models the authentication core of Auth-Service, a Python
service that registers users, logs them in by email and password or by a
Google ID token, and issues, verifies, revokes and rotates JSON Web Tokens.
The model covers seven parts, all over one user directory keyed by user id:

- the token service (`JWTTokenService`): access and refresh tokens (RFC 7519, HMAC SHA-256 as in section 3.2 of RFC 7518), verification by the `type` claim, the in-memory revocation set, and rotation;
- the user service (`UserService`): registration with id and email uniqueness checks, deletion, the field-by-field update merge, and lookup by id or email;
- the email/password strategy;
- the Google strategy, with just-in-time provisioning of users (the ID Token of section 2 of OpenID Connect Core 1.0 is checked by an oracle);
- the orchestrator (`AuthenticationService`), which dispatches `login` by strategy name;
- the JSON user repository: the in-memory `user_dict` that every other part reads and writes;
- the DynamoDB value codec (`_serialize` / `_deserialize`).

Layout, one module per source file, plus shared modules:

| file | module | models |
|---|---|---|
| wrappers.dfy | Wrappers | `Option`, `Result` |
| errors.dfy | Errors | the exceptions the core raises |
| models.dfy | Models | `User`, credentials |
| dicts.dfy | Dicts | a Python `dict` with string keys, in insertion order |
| json_user_repository.dfy | UserRepository | logic/repository/json_user_repository.py |
| user_service.dfy | UserServices | logic/services/user_service.py |
| jwt_token_service.dfy | TokenService | logic/services/jwt_token_service.py |
| password_strategy.dfy | PasswordStrategy | logic/startegies/password_startegy.py |
| google_strategy.dfy | GoogleStrategy | logic/startegies/google_strategy.py |
| authentication_service.dfy | AuthenticationServices | logic/services/authentication_service.py |
| folds.dfy | Folds | the key-by-key conversion loop of aws_proxy/dynamoDb/dynamo_operations.py |
| dynamo_codec.dfy | DynamoCodec | aws_proxy/dynamoDb/dynamo_operations.py |

Objects whose fields the source updates in place are classes:
- the repository has `userDict`;
- the token service has `revokedTokens`;
- the service and strategy objects hold their repository as a constant.

Pure branching is done by functions. The loops of the source are methods with loop invariants, each proved equal to a specification function:
- `get_user_by_email` is proved equal to `FindByEmail`;
- `_serialize` and `_deserialize` are proved equal to `MapEntries`.

Things outside the program's own logic become parameters:
- the clock: one integer-seconds argument for each `datetime.now` call;
- password hashing and checking: the functions `hashPassword` and `verifyPassword`;
- the Google verifier: the partial function `verifyOauth2Token`;
- pydantic's `EmailStr` validation of a new user's email: the partial function `emailStr`, giving the normalised address;
- the fresh user id and timestamps: a `Provision` value.

A signed token is modelled as an injective encoding of its payload, key and algorithm.

## Model

| member | source | states |
|---|---|---|
| Dicts.Get | auth_service/logic/repository/json_user_repository.py:47 | `d.get(k)` is present exactly when `k` is a key, and then it is the value stored under `k` |
| Dicts.Set | auth_service/logic/repository/json_user_repository.py:29 | after `d[k] = v` the key `k` maps to `v` and every other key maps to what it did; a new key is appended at the end |
| Dicts.SetKeepsDistinct | auth_service/logic/repository/json_user_repository.py:56 | assignment keeps the keys distinct |
| Dicts.Pop | auth_service/logic/repository/json_user_repository.py:64 | after `pop(k, None)` the key is gone, every other key maps to what it did, and popping an absent key changes nothing |
| Dicts.PopKeepsDistinct | auth_service/logic/repository/json_user_repository.py:64 | removal keeps the keys distinct |
| Dicts.SetSet | auth_service/logic/repository/json_user_repository.py:56 | writing the same id twice keeps only the second value |
| Dicts.PopPop | auth_service/logic/repository/json_user_repository.py:64 | deleting twice is deleting once |
| UserRepository.FindByEmail | auth_service/logic/repository/json_user_repository.py:34-41 | the result has the requested email; it is None exactly when no stored user has that email; otherwise it is the first such user in insertion order |
| UserRepository.JsonUserRepository.constructor | auth_service/logic/repository/json_user_repository.py:16-23 | the directory starts as the loaded records |
| UserRepository.JsonUserRepository.CreateUser | auth_service/logic/repository/json_user_repository.py:25-32 | the user is stored under its id, overwriting any entry there, and returned; keys stay distinct |
| UserRepository.JsonUserRepository.GetUserByEmail | auth_service/logic/repository/json_user_repository.py:34-41 | the loop's result is FindByEmail of the directory |
| UserRepository.JsonUserRepository.GetUserById | auth_service/logic/repository/json_user_repository.py:43-50 | the result is the entry under the id, or None |
| UserRepository.JsonUserRepository.UpdateUser | auth_service/logic/repository/json_user_repository.py:52-58 | the entry at the user's id is replaced or inserted; nothing is returned |
| UserRepository.JsonUserRepository.DeleteUser | auth_service/logic/repository/json_user_repository.py:60-66 | the id is removed; an absent id is a no-op |
| UserRepository.CreateThenGet | auth_service/logic/repository/json_user_repository.py:25-50 | after `create_user(u)`, `get_user_by_id(u.id)` returns `u`, and every other id sees what it saw before |
| UserRepository.SetKeepsUniqueEmails | auth_service/logic/services/user_service.py:35-44 | storing a user whose email is not yet present keeps emails unique |
| UserRepository.FindAfterSet | auth_service/logic/repository/json_user_repository.py:25-41 | once a user with a fresh email is stored, the email lookup returns exactly that user |
| UserRepository.FindMissAfterSet | auth_service/logic/repository/json_user_repository.py:25-41 | storing a user under a different email leaves a missing email missing |
| UserRepository.SameEmailNotUnique | auth_service/logic/repository/json_user_repository.py:25-32 | two users with one email stored under two ids break email uniqueness, since `create_user` checks nothing |
| UserServices.UserService.constructor | auth_service/logic/services/user_service.py:21-22 | the service keeps the repository it is given |
| UserServices.UserService.RegisterUser | auth_service/logic/services/user_service.py:24-45 | an existing id is a Conflict before the email is looked at; then an existing email is a Conflict; both leave the directory unchanged; otherwise the directory gains exactly one entry, the input with its password replaced by its hash, and that user is returned; email uniqueness is preserved |
| UserServices.UserService.DeleteUser | auth_service/logic/services/user_service.py:47-60 | an absent id is NotFound and nothing changes; otherwise exactly that id is removed |
| UserServices.UserService.MergeUpdate | auth_service/logic/services/user_service.py:75-85 | email is replaced only by a non-empty one; name always becomes the input's, even None; apps are replaced only by non-empty ones; the password is rehashed only when non-empty and different from the stored hash; `updated_at` is replaced only when non-empty; `id` and `created_at` never change |
| UserServices.UserService.UpdateUserById | auth_service/logic/services/user_service.py:62-87 | an absent id is NotFound and nothing changes; otherwise the stored user, merged as above, is written back under its id |
| UserServices.UserService.GetUserInfo | auth_service/logic/services/user_service.py:89-114 | BadRequest when neither id nor email is given; a given id takes precedence over the email; a failed lookup is NotFound; a found user is one in the directory |
| TokenService.Encode | auth_service/logic/services/jwt_token_service.py:53 | a signed token determines its payload, key and algorithm |
| TokenService.DecodeEncode | auth_service/logic/services/jwt_token_service.py:75 | decoding under the signing key gives the payload back before `exp` and is ExpiredSignature from `exp` on; any other key is InvalidToken |
| TokenService.JwtTokenService.constructor | auth_service/logic/services/jwt_token_service.py:17-39 | the settings are stored; a missing or empty revocation store becomes an empty set |
| TokenService.JwtTokenService.GenerateAccessToken | auth_service/logic/services/jwt_token_service.py:41-53 | the token verifies as an access token, with the user's id, apps and email, in this model (which checks only `exp`, see Left out) for exactly as long as the clock is before the first reading plus the lifetime in minutes |
| TokenService.JwtTokenService.GenerateRefreshToken | auth_service/logic/services/jwt_token_service.py:55-68 | the token verifies as a refresh token, with the user's id, apps and email, in this model (which checks only `exp`, see Left out) exactly while it is unrevoked and the clock is before the first reading plus the lifetime in days |
| TokenService.JwtTokenService.VerifyAccessToken | auth_service/logic/services/jwt_token_service.py:70-82 | a payload exactly for a token signed with the service's key and algorithm, unexpired and typed "access"; None otherwise, never an error; revocation is not consulted |
| TokenService.JwtTokenService.VerifyRefreshTokenAgainst | auth_service/logic/services/jwt_token_service.py:84-100 | a revoked token is None before decoding; otherwise a payload exactly for a signed, unexpired token typed "refresh"; None otherwise, never an error |
| TokenService.JwtTokenService.VerifyRefreshToken | auth_service/logic/services/jwt_token_service.py:84-100 | against the service's own revocation set: a revoked token gives None; a payload exactly for an unrevoked, signed, unexpired token typed "refresh", which the token encodes |
| TokenService.JwtTokenService.RevokeRefreshToken | auth_service/logic/services/jwt_token_service.py:102-105 | the token is added to the revocation set whatever its validity, and nothing else changes; the set only grows, and revoking an already revoked token changes nothing |
| TokenService.JwtTokenService.RotateRefreshToken | auth_service/logic/services/jwt_token_service.py:107-121 | a token that fails refresh verification gives None and leaves the revocation set unchanged; otherwise the old token is revoked and a refresh token for the old `sub`, `email` and `apps` is returned |
| TokenService.JwtTokenService.RotationUser | auth_service/logic/services/jwt_token_service.py:117-120 | the placeholder user has the payload's `sub`, `email` and `apps`, no name and an empty hash |
| TokenService.JwtTokenService.KindsAreExclusive | auth_service/logic/services/jwt_token_service.py:76-96 | no token verifies both as an access token and as a refresh token |
| TokenService.JwtTokenService.RotationIsSingleUse | auth_service/logic/services/jwt_token_service.py:107-114 | after a successful rotation the old token no longer verifies at any clock, so rotating it again fails |
| TokenService.JwtTokenService.RotatedToken | auth_service/logic/services/jwt_token_service.py:113-121 | the new token keeps `sub`, `email` and `apps` and is typed "refresh"; it equals the old token exactly when the clock readings reproduce the old `exp` and `iat`; it verifies exactly when it differs from the old token, is unrevoked and is unexpired |
| TokenService.JwtTokenService.AccessLifetime | auth_service/logic/services/jwt_token_service.py:45-53 | with both readings in the same second, a verified access token has `exp = iat + 60 * access_exp` and `sub` the user's id |
| PasswordStrategy.EmailPasswordStrategy.constructor | auth_service/logic/startegies/password_startegy.py:17-18 | the strategy keeps its repository and password checker |
| PasswordStrategy.EmailPasswordStrategy.Authenticate | auth_service/logic/startegies/password_startegy.py:20-47 | a missing `email` or `password` is a KeyError before any lookup; an unknown email is NotFound; a known email with a verifying password returns exactly the stored user; a known email with a password that does not verify is Unauthorized("Invalid credentials"); the directory is only read |
| PasswordStrategy.EmailPasswordStrategy.AuthenticateAsWritten | auth_service/logic/startegies/password_startegy.py:36-37 | as written, success exactly when both fields are present and the email is known, whatever the password |
| PasswordStrategy.EmailPasswordStrategy.WrongPasswordAccepted | auth_service/logic/startegies/password_startegy.py:36-47 | for a known email and a password that does not verify, the code as written logs the user in where the intended check is Unauthorized |
| GoogleStrategy.NewUser | auth_service/logic/startegies/google_strategy.py:60-67 | a provisioned user has the email and name it is given (Decide gives it the `EmailStr`-validated email), the fresh id, an empty password hash and no apps |
| GoogleStrategy.GoogleAuthStrategy.constructor | auth_service/logic/startegies/google_strategy.py:20-21 | the strategy keeps its repository, its token verifier and the `EmailStr` validator of the `User` model (auth_service/models/users.py:8) |
| GoogleStrategy.GoogleAuthStrategy.Decide | auth_service/logic/startegies/google_strategy.py:24-70 | a missing or empty `id_token` is NotFound and a verifier failure is Forbidden, neither writing; success exactly when the token verifies and its email is either stored or accepted by `EmailStr`; an existing email returns that stored user with no write; an absent email builds a `User` whose `EmailStr` field either rejects the address (ValidationError, no write) or stores its normalised form, and exactly that one user is written and returned |
| GoogleStrategy.GoogleAuthStrategy.Authenticate | auth_service/logic/startegies/google_strategy.py:24-70 | the result is Decide's, and the directory receives at most the single write Decide names |
| GoogleStrategy.GoogleAuthStrategy.ProvisionKeepsEmailsUnique | auth_service/logic/startegies/google_strategy.py:58-68 | when the claims' email is in `EmailStr` normal form, provisioning keeps emails unique in the directory |
| GoogleStrategy.GoogleAuthStrategy.ProvisionOnce | auth_service/logic/startegies/google_strategy.py:58-70 | when the claims' email is in `EmailStr` normal form, after a user is provisioned for a token the same token finds that user and writes nothing |
| GoogleStrategy.GoogleAuthStrategy.DuplicateProvision | auth_service/logic/startegies/google_strategy.py:58-68 | when validation rewrites the claims' email, the lookup at line 58 uses the raw address and misses the stored user, so the same token provisions a second user with the same stored email and emails stop being unique |
| AuthenticationServices.WithPlaceholderTokens | auth_service/logic/services/authentication_service.py:25-31 | a strategy error propagates unchanged; a user is returned exactly, with the fixed strings "access token" and "refresh token" |
| AuthenticationServices.AuthenticationService.constructor | auth_service/logic/services/authentication_service.py:11-16 | the service keeps its strategy map |
| AuthenticationServices.AuthenticationService.Lookup | auth_service/logic/services/authentication_service.py:20-22 | a known name gives its strategy; an unknown one is ValueError "Unsupported authentication strategy: <name>" |
| AuthenticationServices.AuthenticationService.Login | auth_service/logic/services/authentication_service.py:18-31 | an unknown name fails with ValueError and invokes no strategy; otherwise the result is the strategy's, with placeholder tokens; only the Google strategy may write, and only what its Decide names |
| AuthenticationServices.AuthenticationService.Logout | auth_service/logic/services/authentication_service.py:33-39 | the message is "User ", the id, then " logged out"; no state is touched |
| AuthenticationServices.AuthenticationService.LogoutInjective | auth_service/logic/services/authentication_service.py:39 | the user id can be recovered from the logout message |
| DynamoCodec.ParseNatToString | auth_service/aws_proxy/dynamoDb/dynamo_operations.py:79 | for every natural number, its decimal text passes `isdigit` and parses back to the number; the digit limit of `str` and `int` is applied on top of this by SerializeValue and DeserializeValue |
| Folds.MapEntries | auth_service/aws_proxy/dynamoDb/dynamo_operations.py:50-62 | the key-by-key conversion loop; on success its keys are exactly the input's keys |
| Folds.MapEntriesErrSticks | auth_service/aws_proxy/dynamoDb/dynamo_operations.py:61-62 | once a prefix fails, the whole conversion fails with that error |
| Folds.MapEntriesOk | auth_service/aws_proxy/dynamoDb/dynamo_operations.py:50-62 | the conversion succeeds exactly when every value converts |
| Folds.MapEntriesFirstError | auth_service/aws_proxy/dynamoDb/dynamo_operations.py:61-62 | the error raised is that of the first value, in order, that fails to convert |
| Folds.MapEntriesLength | auth_service/aws_proxy/dynamoDb/dynamo_operations.py:50-52 | with distinct keys, the output has as many entries as the input |
| Folds.MapEntriesAt | auth_service/aws_proxy/dynamoDb/dynamo_operations.py:50-52 | with distinct keys, entry `i` of the output is key `i` with its converted value, for one `i` |
| Folds.MapEntriesPointwise | auth_service/aws_proxy/dynamoDb/dynamo_operations.py:50-52 | with distinct keys, entry `i` of the output is key `i` with its converted value |
| DynamoCodec.SerializeValue | auth_service/aws_proxy/dynamoDb/dynamo_operations.py:51-62 | a value fails exactly when it is a list, with "Unsupported type for <k>: <class 'list'>", or an int of more than 4300 digits, with the ValueError of `str`; otherwise a single tag: S with the string, BOOL with the bool, N with the int's decimal text or the float's text, NULL with True |
| DynamoCodec.Serialize | auth_service/aws_proxy/dynamoDb/dynamo_operations.py:44-64 | the loop's result is MapEntries over SerializeValue |
| DynamoCodec.DeserializeValue | auth_service/aws_proxy/dynamoDb/dynamo_operations.py:72-85 | fails exactly on an attribute with no tag, on N with a non-string payload, or on N with a digit text longer than 4300 characters (the ValueError of `int`, naming the length); S, BOOL and unknown tags pass the payload through; N gives the int the digits denote when its text is all digits and the float of the text otherwise; NULL gives None |
| DynamoCodec.DeserializeItem | auth_service/aws_proxy/dynamoDb/dynamo_operations.py:66-87 | None exactly for a missing or empty item; otherwise the output keys are the item's keys |
| DynamoCodec.Deserialize | auth_service/aws_proxy/dynamoDb/dynamo_operations.py:66-87 | the loop's result is DeserializeItem |
| DynamoCodec.RoundTripValue | auth_service/aws_proxy/dynamoDb/dynamo_operations.py:51-83 | a string, bool, None, non-negative int of at most 4300 digits or non-digit float text deserialises back to itself |
| DynamoCodec.SerializeRoundTripping | auth_service/aws_proxy/dynamoDb/dynamo_operations.py:44-64 | serialising round-tripping values with distinct keys succeeds, keeps the keys in order and distinct, and each attribute deserialises to its value |
| DynamoCodec.RoundTrip | auth_service/aws_proxy/dynamoDb/dynamo_operations.py:44-87 | a non-empty item with distinct keys and such values comes back unchanged, entries in the same order |
| DynamoCodec.EmptyItemBecomesNone | auth_service/aws_proxy/dynamoDb/dynamo_operations.py:67-68 | an empty item serialises to an empty item, which deserialises to None, not to an empty item |
| DynamoCodec.NegativeIntBecomesFloat | auth_service/aws_proxy/dynamoDb/dynamo_operations.py:78-79 | a negative int of at most 4300 digits serialises to N "-…", which comes back as a float |
| DynamoCodec.UnknownTagPassesThrough | auth_service/aws_proxy/dynamoDb/dynamo_operations.py:84-85 | an unknown tag yields its payload unchanged |
| DynamoCodec.UserItem | auth_service/logic/repository/dynamo_user_repository.py:23-25 | the dumped user has nine attributes, with `apps` a list and only strings or None before it |
| DynamoCodec.UserItemRejected | auth_service/aws_proxy/dynamoDb/dynamo_operations.py:61-62 | serialising a dumped user always fails at `apps`, even when the list is empty |

## Left out

- File I/O: reading the records file with `json.load` and rewriting it after every change. The repository's constructor takes the loaded records as a parameter.
- Storage form: the repository stores `model_dump()` dicts and rebuilds `User` objects on reads; the model stores `User` values and takes that rebuild as identity.
- pydantic validation of `User` (`extra="forbid"`, the timestamp defaults, and `EmailStr` anywhere but the Google strategy's new user): the timestamps of a provisioned user come from the `Provision` value, and users handed to the repository and the user service are taken as already validated.
- GoogleStrategy.GoogleAuthStrategy.emailStr: the `EmailStr` normalisation and validity rules (whitespace, domain case, Unicode normal form) are an oracle parameter, not computed. ProvisionOnce and ProvisionKeepsEmailsUnique hold only for claims whose email the oracle keeps unchanged; DuplicateProvision states what happens otherwise.
- bcrypt: `hash_password` and `verify_password` are the uninterpreted functions `hashPassword` and `verifyPassword`. Salting, which makes real hashing non-deterministic, is not modelled.
- `generate_user_id` (a uuid) is not modelled: the new id is supplied in `Provision`.
- PyJWT internals: the token is an injective encoding. Only the `exp` check is modelled, with no leeway; PyJWT's checks of `iat`, `nbf` and claim types are not. Claim times are whole seconds, as PyJWT encodes them.
- `datetime.now` is not called: each reading is an integer-seconds parameter.
- Google token verification: the oracle `verifyOauth2Token`. Its network access and audience checks are left out, and so is a verified payload lacking `email`, which would raise KeyError at `payload["email"]`.
- async/await: every call is sequential. The one place where the missing `await` matters is recorded under Findings.
- Concurrency, and sharing one revocation store between service instances.
- TokenService.JwtTokenService.constructor: a store given as `Some(s)` becomes the value `s`. The model does not capture the aliasing of a caller's set through `revoked_tokens_store or set()`.
- The revocation set is per instance; the separate set kept by the HTTP middleware (middleware/auth_dependency.py) is not part of this model.
- DynamoCodec.SerializeValue, DynamoCodec.DeserializeValue: the digit limit of int/str conversion is the Python 3.11 default of 4300 (MaxStrDigits), which the code needs for `datetime.UTC`; a limit changed through `sys.set_int_max_str_digits` or PYTHONINTMAXSTRDIGITS is not modelled, and `int` is taken to count every character of an all-digit text, leading zeros included.
- DynamoCodec.DeserializeValue: `float(text)` is not computed. Any non-digit N text gives `PyFloat(text)`, so malformed text that makes `float` raise ValueError in Python is not an error in the model.
- DynamoCodec.DeserializeValue: `str.isdigit` (IsDigits) is modelled for ASCII digits only. Unicode digits such as superscripts, which `isdigit` accepts and `int` rejects, are not modelled.
- DynamoCodec.SerializeValue: a float is carried as the decimal text `str(v)` would print, so float formatting is not modelled. Value types other than those of Py, for example dicts, sets and datetimes, are represented only by lists.
- The DynamoDB client calls (`create_item`, `get_item`, `update_item`, `delete_item`), the DynamoDB user repository, and the boto3 client manager: network I/O.
- The wiring in logic/factory.py is not part of this model. It calls `AuthenticationService` with `token_service` and `user_repository` arguments that its constructor does not accept.
- The `logout` signature in logic/interfaces/iauthentication_service.py differs from the implementation; the model follows the implementation.
- `AuthenticationService.login` mints no tokens: it returns the fixed strings "access token" and "refresh token" (auth_service/logic/services/authentication_service.py:27-31), and the model keeps them.
- `AuthenticationService.login` raises ValueError for an unknown strategy name (auth_service/logic/services/authentication_service.py:21-22), not a NotFound error.
- `AuthenticationService.logout` revokes nothing and reads no state; it only builds the message (auth_service/logic/services/authentication_service.py:33-39).
- `AuthenticationService` has no refresh operation; refresh-token rotation exists only on the token service, which the orchestrator does not call.
- The password strategy raises NotFound for an unknown email and Unauthorized for a wrong password (auth_service/logic/startegies/password_startegy.py:25-47); the model keeps the two apart.
- `UserService.update_user_by_id` does not check that a new email is unused (auth_service/logic/services/user_service.py:75-76), so email uniqueness is proved only for registration and for Google provisioning of an email in `EmailStr` normal form.
- The FastAPI layer, configuration loading, interfaces and empty stubs are not part of this model.

## Findings

| source | as written | input that shows it | evidently intended | confidence | as-written member | corrected member |
|---|---|---|---|---|---|---|
| auth_service/logic/startegies/password_startegy.py:36 | `verify_password` is `async` and is called without `await`; the condition tests a coroutine object, which is always truthy | credentials naming a registered email with any wrong password: the user is returned | return the user only when the password verifies, otherwise raise Unauthorized | high, not executed | PasswordStrategy.EmailPasswordStrategy.WrongPasswordAccepted | PasswordStrategy.EmailPasswordStrategy.Authenticate |
