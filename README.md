# Notes App: a verified model of the sign-in flow, the note store and the dashboard list

This project models the decision logic of a small notes application (an Express and
MongoDB back end, a React front end) in Dafny, and proves properties of that model.
It covers four parts:

- **Sign-in.** The email one-time-password flow and the Google sign-in of
  `backend/controllers/authController.js`, modelled as a class `Auth.AuthStore`. Its
  fields are the User collection (by email), the OTP collection (in insertion order)
  and the next user id. `RegisterUser`, `VerifyOtp` and `GoogleLogin` are methods, and
  `RegisterUser` and `VerifyOtp` take the current time `now` as an explicit input;
  `GoogleLogin` reads no clock. `Logout` changes no state and is a function. Each
  returns the HTTP status, the message, the response data and the session cookie it
  sets.
- **Notes.** The note handlers of `backend/controllers/notesController.js`, modelled
  as a class `Notes.NoteStore` over the Note collection. The authenticated caller is
  a parameter. `getNotes` is a read-only function; create, update and delete are
  methods.
- **Validation.** The validators of `backend/utils/validators.js` and the User schema
  of `backend/models/User.js`. They become length predicates, a hand-coded email
  pattern proved equal to the schema's regular expression, and `UserSchema.Create`,
  which applies the lowercase setter, the defaults and the schema validation.
- **Dashboard.** The dashboard page of `frontend/src/pages/Dashboard.jsx`, modelled as
  a class `Dashboard.DashboardState`. It holds the note list, the create form, the
  loading flag and the alert. The list transforms (prepend, replace by id, remove by
  id, and the pinned / other split) are functions with lemmas.

Modules:

| module | file |
|---|---|
| `Wrappers` (`Option`) | `Wrappers.dfy` |
| `Seqs` (filtering, counting, subsequences) | `Seqs.dfy` |
| `Validators` | `Validators.dfy` |
| `UserSchema` | `UserSchema.dfy` |
| `Otp` | `Otp.dfy` |
| `Session` | `Session.dfy` |
| `Auth` | `Auth.dfy` |
| `Notes` | `Notes.dfy` |
| `Dashboard` | `Dashboard.dfy` |

Randomness, foreign services and failures are modelled as follows:

- `crypto.randomInt` is a nondeterministic choice in its range.
- `validator.isEmail` is a predicate the store is constructed with.
- Google's token check is an optional identity claim passed to `GoogleLogin`.
- Whether the OTP mail was delivered is a boolean parameter.
- The server's answer to the dashboard's create, update and pin requests is an optional note, where None means the request failed. The answer to a delete request is a boolean that says whether it succeeded.

Some behaviours the model makes explicit:

- **The expiry boundary.** A code is rejected only when `now > createdAt + 600000`. At exactly ten minutes it is still accepted (`Auth.ExpiryBoundary`).
- **A repeat verification.** Once an email is registered, a repeat `verifyOTP` takes the registered-user shortcut, whatever code is sent (`Auth.RegisterThenVerify`).
- **Registering again.** A new registration replaces the earlier code. The earlier code then fails with "Invalid OTP", unless the second random draw produced the same six digits (`Auth.RegisterTwice`).
- **`isEmail` versus the schema pattern.** `validator.isEmail` accepts addresses that the schema's pattern refuses, such as a four-letter final label like `.info` (`UserSchema.FourLetterLabel`). For such an address `verifyOTP` deletes the code before `User.create` fails. The caller gets 500, and every retry gets "OTP not found or expired" (`Auth.SchemaRefusalConsumesCode`).

## Model

| member | source | states |
|---|---|---|
| Validators.ValidName | backend/utils/validators.js:7-9 | a name is valid exactly when it has 2 to 50 characters |
| Validators.ValidNoteTitle | backend/utils/validators.js:21-23 | a title is valid exactly when it has 1 to 100 characters |
| Validators.ValidNoteContent | backend/utils/validators.js:25-27 | note content is valid exactly when it has 1 to 10000 characters |
| Validators.ValidPassword | backend/utils/validators.js:11-19 | the strength rule as written, by counts: at least 8 characters and a count of at least one for each of the four character classes; `PasswordRule` states it by the classes' members |
| Validators.PasswordRule | backend/utils/validators.js:11-19 | a password is strong exactly when it has at least 8 characters and contains a lower-case letter, an upper-case letter, a digit and a symbol |
| UserSchema.ParseProvider | backend/models/User.js:23-27 | an auth provider name is accepted exactly when it is `email` or `google` |
| UserSchema.ProviderName | backend/models/User.js:23-27 | the stored name of every provider is accepted and parses back to that provider |
| UserSchema.Lower | backend/models/User.js:13 | lower-casing keeps the length, turns each ASCII upper-case letter into its lower-case letter, and keeps every other character unchanged |
| UserSchema.LowerIdempotent | backend/models/User.js:13 | lower-casing an already lower-cased email changes nothing |
| UserSchema.EmailPattern | backend/models/User.js:14-17 | an address matching the pattern has at least 6 characters (a local part, `@`, and a domain of at least 4); `EmailPatternIsRegex` relates it to the regular expression |
| UserSchema.EmailPatternIsRegex | backend/models/User.js:14-17 | the hand-coded email check accepts exactly the strings the schema's regular expression matches |
| UserSchema.DomainFromBlocks | backend/models/User.js:15 | a dotted domain followed by one or more labels of 2 or 3 word characters ends in a single such label after a dotted prefix |
| UserSchema.LowerKeepsPattern | backend/models/User.js:13-17 | lower-casing an address neither makes it match the pattern nor stops it matching |
| UserSchema.ThreeLetterLabel | backend/models/User.js:15 | `ann@example.com` matches the pattern |
| UserSchema.FourLetterLabel | backend/models/User.js:15 | `ann@example.info` does not match the pattern, because a final label has at most 3 characters |
| UserSchema.Create | backend/models/User.js:3-31 | creation succeeds exactly when the name is non-empty and at most 50 characters, the email matches the pattern and any given provider is in the enum; the created record is valid, its email is lower-cased, its provider defaults to `email` and `isVerified` defaults to false |
| Otp.DecimalString | backend/controllers/authController.js:13 | the decimal text of a number is digits only, with a leading zero only for 0 |
| Otp.DecimalRoundTrip | backend/controllers/authController.js:13 | reading back the decimal text of a number gives the number |
| Otp.DecimalLength | backend/controllers/authController.js:13 | a number in [10^(k-1), 10^k) has exactly k digits |
| Otp.GenerateOtp | backend/controllers/authController.js:12-14 | every generated code is six decimal digits without a leading zero, with a value in [100000, 999999) |
| Otp.Newest | backend/controllers/authController.js:126 | no record is found exactly when the email has none; otherwise the record found belongs to the email and no record for it was created later |
| Otp.WithoutEmail | backend/controllers/authController.js:142 | `OTP.deleteMany({ email })`, here and at registration: what is left holds no record for the email, keeps every record of every other email, and keeps their order |
| Otp.Issue | backend/controllers/authController.js:63-67 | deleting then inserting leaves the new record last, after records of other emails drawn from the collection |
| Otp.IssueReplaces | backend/controllers/authController.js:63-67 | after deleting and re-inserting, the new record is the email's only record, other emails keep their records, and no email has two records |
| Otp.NewestIsOnly | backend/controllers/authController.js:126 | when every email has at most one record, the newest record for an email is its single record |
| Otp.NewestAfterIssue | backend/controllers/authController.js:63-67 | right after registration, the newest record for the email is the one just issued |
| Otp.Expired | backend/controllers/authController.js:137 | the expiry test `Date.now() > createdAt + 10 * 60 * 1000`, inclusive of the 600000 ms boundary; `ExpiryWindow` states the boundary |
| Otp.ExpiryWindow | backend/controllers/authController.js:137 | a code is not expired at or before its creation time nor at exactly 600000 ms after it, is expired at 600001 ms, and once expired stays expired |
| Session.SessionCookie | backend/controllers/authController.js:108-113 | the session cookie is httpOnly and SameSite strict, is secure exactly in production, and is presented for exactly seven days after it is set |
| Session.LogoutCookie | backend/controllers/authController.js:233-236 | the logout cookie replaces `token`, is httpOnly, and is never presented again |
| Auth.Logout | backend/controllers/authController.js:231-242 | logout always answers 200 and ends the session at every later time |
| Auth.AuthStore.RegisterUser | backend/controllers/authController.js:40-89 | the three 400 checks in order, leaving the OTPs untouched; otherwise the mail carries a fresh code, the code becomes the email's only record, and the reply is 500 when mailing fails, else 200 naming the stored user or the submitted name |
| Auth.AuthStore.IssueOtp | backend/controllers/authController.js:61-67 | a fresh valid code replaces every earlier record for the email; every email keeps at most one record |
| Auth.AuthStore.VerifyOtp | backend/controllers/authController.js:94-173 | missing fields give 400; a registered email logs in with nothing changed; otherwise the newest record decides "OTP not found or expired", "Invalid OTP" or "OTP has expired" in that order with nothing changed; else the email's codes are deleted and the user is created (201 with a session cookie) or creation fails (500) |
| Auth.AuthStore.GoogleLogin | backend/controllers/authController.js:178-226 | a missing token gives 400 and a rejected token 500, with nothing changed; a known email logs in unchanged; an unknown one is created as a verified Google user and logged in, or creation fails with 500 |
| Auth.AuthStore.CreateUser | backend/controllers/authController.js:145-168 | when the schema accepts the fields the user is stored under the email with a fresh id and logged in; when it refuses them nothing is stored and the answer is 500 |
| Auth.RegisterThenVerify | backend/controllers/authController.js:104-123 | registration then verification within ten minutes creates a verified email user and leaves no code; a second verification with any code logs in with 200 and the same session cookie |
| Auth.ExpiryBoundary | backend/controllers/authController.js:137-139 | a code is accepted exactly ten minutes after it was issued and rejected as expired one millisecond later |
| Auth.RegisterTwice | backend/controllers/authController.js:63-67 | after a second registration, the first code fails with "Invalid OTP" unless both draws gave the same code |
| Auth.SchemaRefusalConsumesCode | backend/controllers/authController.js:141-149 | for an address `isEmail` accepts and the schema refuses, verification answers 500 and a retry finds no code |
| Notes.IndexOf | backend/controllers/notesController.js:64 | no note is found exactly when no note has the id; otherwise the position found holds a note with that id |
| Notes.ApplyUpdate | backend/controllers/notesController.js:83-87 | an update never changes a note's id, owner or creation time |
| Notes.TitleRejected | backend/controllers/notesController.js:75-77 | an update is refused for its title exactly when a title is supplied and it is longer than 100 characters |
| Notes.ContentRejected | backend/controllers/notesController.js:79-81 | an update is refused for its content exactly when content is supplied and it is longer than 10000 characters |
| Notes.ReplaceAt | backend/controllers/notesController.js:83-87 | when ids are distinct, replacing by id changes exactly the one note with that id |
| Notes.RemoveAt | backend/controllers/notesController.js:116 | when ids are distinct, removing by id removes exactly the one note with that id and keeps the others in order |
| Notes.OwnedBy | backend/controllers/notesController.js:9 | `Note.find({ user })`: every note returned belongs to the owner and comes from the collection |
| Notes.InsertNewest | backend/controllers/notesController.js:9 | inserting into a newest-first list keeps it newest first and adds exactly the inserted note |
| Notes.SortNewestFirst | backend/controllers/notesController.js:9 | the sorted notes are newest first and are a permutation of the input |
| Notes.ListingOwned | backend/controllers/notesController.js:9 | the sorted listing holds only the owner's notes |
| Notes.ListingComplete | backend/controllers/notesController.js:9 | the sorted listing holds every one of the owner's notes |
| Notes.NoteStore.GetNotes | backend/controllers/notesController.js:7-18 | the listing holds exactly the caller's notes, newest first, and its count is its length |
| Notes.NoteStore.CreateNote | backend/controllers/notesController.js:23-54 | missing fields, then an invalid title, then invalid content give 400 with nothing changed; otherwise a new unpinned note with a fresh id, the caller as owner and the default colour when none is given is appended and returned with 201 |
| Notes.NoteStore.UpdateNote | backend/controllers/notesController.js:59-96 | 404 when no note has the id, 401 for a non-owner, then 400 for a supplied invalid title or content, all with nothing changed; otherwise only that note changes, by the supplied fields; ids and owners never change |
| Notes.NoteStore.DeleteNote | backend/controllers/notesController.js:101-122 | 404 when no note has the id and 401 for a non-owner, with nothing changed; otherwise exactly that note is removed |
| Dashboard.TrimStart | frontend/src/pages/Dashboard.jsx:30 | the result is a suffix that does not start with white space, and everything dropped is white space |
| Dashboard.TrimEnd | frontend/src/pages/Dashboard.jsx:30 | the result is a prefix that does not end with white space, and everything dropped is white space |
| Dashboard.Trim | frontend/src/pages/Dashboard.jsx:30 | a string trims to the empty string exactly when it is all white space |
| Dashboard.CanSubmit | frontend/src/pages/Dashboard.jsx:30 | a draft that can be submitted has a non-empty title and content; `SubmitGuard` ties it to trimming |
| Dashboard.SubmitGuard | frontend/src/pages/Dashboard.jsx:30 | a draft can be submitted exactly when neither its title nor its content trims to the empty string |
| Dashboard.DashboardState.HandleCreateNote | frontend/src/pages/Dashboard.jsx:28-43 | a form whose title or content is blank sends nothing and changes nothing; otherwise the form is sent, and on success the created note goes first with the old list after it in order and the form is cleared; on failure only the alert changes; loading ends false |
| Notes.ReplaceById | frontend/src/pages/Dashboard.jsx:48 | replacing by id (also used for pinning) keeps the ids distinct when they were distinct; `ReplaceKeepsIds` states what changes |
| Notes.ReplaceKeepsIds | frontend/src/pages/Dashboard.jsx:48 | replacing by id keeps the length, keeps the id at every position, and leaves every note with another id unchanged |
| Dashboard.EditRequest | frontend/src/pages/Dashboard.jsx:47 | sending the whole edited note makes the stored note equal to it |
| Dashboard.DashboardState.HandleUpdateNote | frontend/src/pages/Dashboard.jsx:45-53 | the request carries the edited note; on success the returned note replaces the entry with its id, on failure the list is kept; the alert says which |
| Notes.WithoutId | frontend/src/pages/Dashboard.jsx:58 | the filtered list is no longer than the original, and every entry left comes from it and has another id; `RemoveById` states that nothing else is dropped |
| Notes.RemoveById | frontend/src/pages/Dashboard.jsx:58 | removing by id leaves no entry with that id and keeps every other entry, in order |
| Dashboard.DashboardState.HandleDeleteNote | frontend/src/pages/Dashboard.jsx:55-63 | on success every entry with the id is removed, on failure the list is kept; the alert says which |
| Dashboard.PinRequest | frontend/src/pages/Dashboard.jsx:67 | the pin request asks for the negation of the current pin state, and on the server it flips the pin and nothing else |
| Dashboard.DashboardState.HandlePinNote | frontend/src/pages/Dashboard.jsx:65-73 | the request asks only for the opposite pin state; on success the returned note replaces the entry with its id and the alert says pinned or unpinned by the returned state; on failure the list is kept |
| Dashboard.Pinned | frontend/src/pages/Dashboard.jsx:75 | the pinned section holds only pinned notes from the list |
| Dashboard.Others | frontend/src/pages/Dashboard.jsx:76 | the other section holds only unpinned notes from the list |
| Dashboard.SplitPartitions | frontend/src/pages/Dashboard.jsx:75-76 | the pinned and other notes split the list: each note is in exactly one part, nothing is lost or duplicated, and both keep the list's order |
| Dashboard.PinMovesOne | frontend/src/pages/Dashboard.jsx:65-76 | pinning or unpinning one note changes only that entry and moves exactly one note between the pinned and other sections |

## Left out

- Sending mail and its HTML body are I/O. Only whether delivery succeeded is modelled.
- `generateToken` (JWT signing) is not part of this model. A session is an opaque token carrying the user id.
- Cookie transport, HTTP, routing and the `protect` middleware are not modelled. The authenticated caller is a parameter.
- `validator.isEmail` is not part of this model. It is a predicate given to the store.
- Google's `verifyIdToken` is not part of this model. Its outcome is an optional identity claim.
- `getMe` and the dashboard's `fetchNotes` are read-only fetches. They are left out.
- The catch-all 500 replies are modelled only for failures the model can name: mail delivery, a refused token and a schema refusal in `User.create`. Database errors are not modelled.
- Handlers run one at a time. Concurrent requests, and the interleavings that could break one-record-per-email, are not modelled.
- `User.findOne({ email })` is modelled as a lookup by the email as submitted, and users are keyed by that email, so one email has at most one user. Two parts of Mongoose are not modelled:
  - lower-casing the query value, so two spellings of an address that differ only in case are two keys;
  - the unique index on the stored, lower-cased email.
- `backend/models/OTP.js` is not part of this model. In particular, any automatic expiry index on the OTP collection is not modelled: records stay until a handler deletes them.
- `backend/models/Note.js` is not part of this model. A new note is assumed unpinned, and `runValidators` on update is assumed to accept what `updateNote`'s own checks let through. An update whose body carries an empty title or content assigns it.
- Notes are kept in insertion order. A listing is ordered only by creation time: the model promises no order among notes with equal creation times, and neither does MongoDB.
- Lengths count sequence elements (characters). The source's length rules count differently:
  - `validator.isLength` counts a surrogate pair as one character and, in recent versions, does not count the variation selectors U+FE0E and U+FE0F at all. These are inside the Basic Multilingual Plane, so a title consisting only of U+FE0F gets 400 from `createNote` but passes `Validators.ValidNoteTitle`;
  - Mongoose's `maxlength` counts UTF-16 code units, so a character outside the Basic Multilingual Plane counts twice;
  - `validator.isStrongPassword` compares `password.length`, in UTF-16 code units, with its minimum length. So `"Aa1!xy😀"`, 7 characters but 8 code units, passes `validatePassword` but is refused by `Validators.ValidPassword`.
- The `lowercase` setter is modelled for ASCII letters only. `UserSchema.LowerKeepsPattern`, and `UserSchema.Create` succeeding exactly when the email matches the pattern, rely on that restriction. JavaScript's `toLowerCase` maps other characters too: U+212A KELVIN SIGN becomes `k`, so the source stores `"\u212Aann@example.com"` as `kann@example.com`, while the model's `Create` refuses that address because U+212A is not a word character.
- `IsSpace` lists the white space and line terminators `String.prototype.trim` removes. Unicode's space-separator category is written out as of its current version.
- `validatePassword` is modelled as `Validators.ValidPassword`, but no handler in the modelled code calls it.
- Request fields are strings, and a field that is absent or falsy is the empty string. Numbers, objects and other non-string JSON values are not modelled. For example, a body whose `email` is the object `{"$ne": null}` passes the `!email` check of `verifyOTP` (authController.js:99) and reaches `User.findOne` (line 104) as a query operator.
- Alerts closing themselves and all rendering are UI and are not modelled.
