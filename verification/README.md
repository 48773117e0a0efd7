# Account lifecycle of the users controller, in Dafny

This project models the account controllers of `src/controllers/users.js`.
Each controller is a pure transition from a state and a request to a result and a new state.
The controllers are register, verify, reverify, login, logout, updateSubscription, updateAvatar and remove, plus the page slice of getAll.

The state (`Users.State`) has four parts:
- the account collection, a sequence of `Accounts.Account` records in natural order, so that `findOne` answers with the first match;
- the avatar directory, a set of file names;
- the upload directory, which holds the temporary files the upload middleware writes;
- the outbox of verification mails handed to the mailer.

The results are `Outcome.Result` values over the error taxonomy ValidationError, Conflict, NotFound, AlreadyVerified, Unauthorized and Internal. A call that ends in `next(e)` is Internal.

The foreign libraries and the environment are inputs:
- `Users.Config` holds the server base address (`http://localhost:${PORT}`), the schema default subscription, `gravatar.url`, `validPassword` and `jwt.sign` (None when signing throws).
- `Users.Fresh` holds the new document id, the salted password hash and the `nanoid` token of one registration. Reverify takes its `nanoid` token as a parameter.
- Each Joi schema verdict, the success of `Jimp.read` and the success of `writeAsync` are booleans passed to the call.
- The listing `fs.readdir` answers for the avatar directory is a sequence passed to updateAvatar. The lemmas about the directory assume it names exactly the files of the directory (`Avatars.Lists`).

The collection invariant `Accounts.WellFormed` has three parts: one account per id, one account per email, and no verified account holding a verification token. Every controller keeps it (the `ensures` of each controller and of `Users.Step`).

Two behaviours of the code are kept as written:
- reverify sets the new token on the loaded document but never saves it. The collection is left unchanged, and the mailed link fails with NotFound (`Lifecycle.ReverifyLinkIsDead`).
- A rejected avatar filename returns before the cleanup, so the temporary upload stays (`Lifecycle.AvatarRejectedNameKeepsUpload`).

Three more behaviours of the code are kept as written:
- An image that fails to decode ends in `next(e)` (Internal), not in a validation error.
- The temporary file is removed only on the paths after the filename check, not on every exit path.
- A named temporary file that does not exist cannot be read by `Jimp.read`, so that call also ends in Internal with nothing changed.

## Model

| member | source | states |
|---|---|---|
| Accounts.Find | src/controllers/users.js:100 | `findOne` answers with the first account the query matches, and None only when no account matches |
| Accounts.UpdateById | src/controllers/users.js:155-158 | a partial update writes only the fields its patch names, and only on the account with the given id; the others are left as they are |
| Accounts.RemoveById | src/controllers/users.js:362 | removing by id keeps every other account, adds none, and leaves no account with that id |
| Accounts.UpdateByIdIdempotent | src/controllers/users.js:256 | writing the same partial update twice has the effect of writing it once |
| Users.Register | src/controllers/users.js:94-141 | only a successful registration changes the collection, only for a free email, and the collection invariant survives |
| Lifecycle.RegisterRefusals | src/controllers/users.js:96-109 | an invalid body gives ValidationError and an email in use gives Conflict, with the state unchanged |
| Lifecycle.RegisterAddsOneAccount | src/controllers/users.js:110-122 | a free email adds exactly one account after the old ones: unverified, holding the mailed token, no session, default tier, the gravatar URL of the email |
| Lifecycle.RegisterMailsBeforeInsert | src/controllers/users.js:114-122 | the mail is sent before the insert: when the insert fails on an existing id, the mail has gone out and no account was added |
| Lifecycle.RegisterTwiceConflicts | src/controllers/users.js:100-109 | registering an email a second time gives Conflict and leaves the first account as it is |
| Users.Verify | src/controllers/users.js:143-168 | verify succeeds exactly when some account holds the token; a token no account holds gives NotFound with the state unchanged; the invariant is kept |
| Lifecycle.VerifyConsumesToken | src/controllers/users.js:145-158 | the first holder of the token becomes verified with a null token; no other field and no other account changes |
| Lifecycle.VerifyTwiceNotFound | src/controllers/users.js:145-153 | a token only one account holds can be consumed once: the second verify gives NotFound and changes nothing |
| Users.Reverify | src/controllers/users.js:170-204 | reverify never changes the collection; on success it emits one mail carrying the new token to the email |
| Lifecycle.ReverifyOutcomes | src/controllers/users.js:176-198 | NotFound exactly when no account has the email, AlreadyVerified exactly when it is verified, success exactly when it is not |
| Lifecycle.ReverifyLinkIsDead | src/controllers/users.js:191-194 | the mailed token was never saved, so verifying with it gives NotFound |
| Users.Login | src/controllers/users.js:206-247 | a failed login leaves the state unchanged; a session is only issued for the email asked about |
| Lifecycle.LoginRefusalIsUniform | src/controllers/users.js:212-220 | a missing account, a wrong password and an unverified account give one identical reply, and no other reason gives it |
| Lifecycle.LoginStoresToken | src/controllers/users.js:222-230 | on success the account's stored token is exactly the returned token and nothing else changes; good credentials with working signing always succeed |
| Users.Logout | src/controllers/users.js:249-266 | logout succeeds exactly when the body passes validation; a rejected body gives ValidationError with the state unchanged; the invariant is kept |
| Lifecycle.LogoutClearsToken | src/controllers/users.js:256 | logout writes only the caller's token, and writes null |
| Lifecycle.LogoutIdempotent | src/controllers/users.js:256 | a second logout returns the same reply and state as the first |
| Users.UpdateSubscription | src/controllers/users.js:286-308 | the update succeeds exactly when the body passes validation; a rejected body gives ValidationError with the state unchanged; files and mails are not touched |
| Lifecycle.UpdateSubscriptionWritesOnlySubscription | src/controllers/users.js:294-296 | only the caller's subscription field is written, and it gets the requested tier |
| Users.UpdateAvatar | src/controllers/users.js:310-357 | once the filename passes validation the temporary file is gone on every path; a rejected filename gives ValidationError and changes nothing; a failed upload does not change the collection; success needs the file present and decodable |
| Lifecycle.AvatarReplaced | src/controllers/users.js:320-340 | success leaves exactly one stored file prefixed by the id, `{id}_{originalname}`; other files are untouched; only avatarURL changes, to the corrected URL `{base}/avatars/{name}` of the finding below |
| Lifecycle.AvatarDecodeFailureKeepsFiles | src/controllers/users.js:318-352 | an image that does not decode deletes no stored file and keeps avatarURL, but removes the temporary file |
| Lifecycle.AvatarWriteFailureLeavesNone | src/controllers/users.js:320-352 | a failed write after the scan leaves no file for the id, keeps avatarURL, and removes the temporary file |
| Lifecycle.AvatarRejectedNameKeepsUpload | src/controllers/users.js:314-317 | a rejected filename returns ValidationError with the temporary file still present |
| Users.Remove | src/controllers/users.js:359-375 | remove answers with the id and keeps the invariant, the files and the outbox |
| Lifecycle.RemoveDeletesAccount | src/controllers/users.js:359-375 | no account with the id remains, every other account does, and stored avatar files stay on disk |
| Paging.Page | src/controllers/users.js:28 | the page is the run of the listing between the clamped start and end; indices past the end give a shorter or empty page, never an error |
| Users.Step | src/controllers/users.js:377-390 | no controller breaks the collection invariant |
| Lifecycle.VerificationIsPermanent | src/controllers/users.js:94-375 | no request changes an account's email or turns `verify` back to false |
| Lifecycle.RegisterVerifyLoginLogout | src/controllers/users.js:94-266 | register, verify with the mailed token, login, logout: every step succeeds and the account ends verified with no session token |
| Avatars.DeleteMatching | src/controllers/users.js:320-326 | the loop over the listing deletes exactly the listed files whose names start with the id; over a full listing, no file of the id remains and every other file does |
| Avatars.AvatarName | src/controllers/users.js:329 | the stored name starts with the id, and the original filename can be read back from it |
| Avatars.AvatarUrl | src/controllers/users.js:332-336 | the public URL keeps the base address and leads back to the stored file |
| Avatars.AsWrittenUrlLosesBase | src/controllers/users.js:332-336 | with an `http://` base, the URL `path.join` builds loses the base and does not lead back to the file |

## Left out

- HTTP response bodies and status codes: only the outcome is modelled, and `Result` is its payload.
- getById and getCurrent: they only read, and `usersService.getOne` is not part of this model.
- The generic `update` (users.js:268-284): it writes an arbitrary request body and could break the verified-implies-no-token invariant. `Users.Step` covers every other controller.
- The route wiring, the auth and pagination middleware, the mailer and server start-up are not part of this model. A sent mail is one `Mail` entry in the outbox; delivery and its failures are not modelled.
- Password hashing, JWT signing and expiry, `nanoid`, gravatar, and Jimp decoding and resizing are the inputs described above. The resize to 250×250 changes only pixels and is not modelled.
- Storage failures other than these are not modelled: the insert clashing on an existing id (Internal), and a failed `Jimp.read` or `writeAsync`. A failing `findOne` or `usersService.update` is not modelled.
- A request without an uploaded file (`req.file` undefined) throws at users.js:313 and ends in `next(e)`. The model always receives a file name. A named file that is missing fails like an undecodable image.
- Users.UpdateAvatar: uses the corrected URL of the finding below, not the string `path.join` produces.
- Lifecycle.AvatarReplaced: the avatarURL it proves is the corrected URL of the finding below, not the string `path.join` produces.
- `Users.Config.sign` depends only on the claims. `jwt.sign` also stamps `iat` and `exp` from the clock, so two real logins with the same claims get different tokens. The clock is abstracted away, and no property depends on two tokens being equal or different.
- Avatars.JoinedUrlAsWritten: models only the separator collapsing of POSIX `path.join`, not the resolution of `.` and `..` segments or Windows separators.
- Paging.Page: `startIndex` and `endIndex` are integers. `undefined` and `NaN` arguments of `slice` are not modelled.
- Users.Register: the document defaults (`verify` false, `token` null, the default subscription) come from the Mongoose schema. `src/models/user.js` is not part of this model, so they are assumptions, and the subscription is an unconstrained string.
- Lifecycle.VerifyTwiceNotFound: assumes only one account holds the token. Unique `nanoid` tokens are a probabilistic guarantee the code does not check.
- Concurrency: two uploads or two reverifies racing on one account are outside a sequential model.
- Removing an account does not delete its avatar file. The model keeps this behaviour.

## Findings

| source | as written | input that shows it | evidently intended | confidence | as-written member | corrected member |
|---|---|---|---|---|---|---|
| src/controllers/users.js:332-336 | the avatar URL is built with `path.join`, which normalizes the whole string as a file path and collapses every run of `/` | base `http://localhost:3000`, name `u1_a.png` gives `http:/localhost:3000/avatars/u1_a.png` | `{base}/avatars/{name}`, keeping the `//` after the scheme | medium: the string is certainly malformed, but browsers' URL parsers accept `http:/host` for special schemes, so the visible effect may be small; not executed | Avatars.AsWrittenUrlLosesBase | Avatars.AvatarUrl |
