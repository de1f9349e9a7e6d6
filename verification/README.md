# Contact manager: accounts, sessions and owner-scoped contacts

A Dafny model of the request handlers of a small Flask contact manager
(`app.py`). Users sign up with a name, an email and a password. They log in
with the email and password and then keep a personal list of contacts on a
dashboard: new, edit and delete. Edit and delete act only on the caller's own
contacts. For anyone else's contact they do nothing and still complete
normally.

The handlers are modelled as pure transition functions over an abstract
store. A `State` holds the database and the session. The database is two
immutable maps, users by key and contacts by key. It also holds a bound above
every key handed out so far, and the way the database picks new keys (see
below). The session is `Option<UserId>`. Each
handler returns a `Transition`: the new state and an `Outcome`. An outcome
stands for the flash category and redirect of the original.

Each handler is defined on states that satisfy the invariant `AppState.Valid`:
the database is consistent, and a session names an existing user. The initial
state satisfies it, and `App.Run` proves that every sequence of requests keeps
it. So the requirement excludes no state the application can actually reach.

Modules:

- `Wrappers` (wrappers.dfy): `Option`.
- `Passwords` (passwords.dfy): the password hasher, kept abstract. A digest is
  a symbolic term built from a salt and the password. `Check` is the only thing
  that looks inside it. The salt is the hasher's randomness and is a request
  parameter.
- `Tables` (tables.dfy): the `users` and `contacts` rows and the database.
  It also holds the lookup by email, row insertion, and the consistency
  invariant. The invariant covers keys below the allocator, the owner foreign
  key and unique emails.
- `AppState` (appstate.dfy): session, outcomes, transitions, the state invariant.
- `Accounts` (accounts.dfy): `/signup`, `/login`, `/logout`.
- `Dashboard` (dashboard.dfy): POST `/dashboard` with the `new`, `edit` and
  `delete` actions.
- `App` (app.py as a whole, app.dfy): request dispatch and runs of several
  requests. This module also holds the properties that span requests and a
  worked scenario.

Behaviour of `app.py` worth knowing before reading the contracts:

- There is no profile-update route and no check of how fresh a login is.
  `login_user` (app.py:58) only records the user.
- Edit and delete look the contact up with `Contacts.query.get(id)`
  (app.py:114, 123). For an unknown key that returns `None`, and reading
  `.user_id` on the next line (app.py:115, 124) raises. The request ends in a
  server error instead of the usual redirect. So a caller can tell "no such
  contact" from "not yours", which the silent skip for a non-owner does not
  reveal. The model reports `ServerError` and changes nothing.
- `/logout` is itself behind `login_required` (app.py:133). A second logout is
  therefore redirected to the login page. The model reports `LoginRequired`,
  and the state is unchanged.
- The tables declare integer primary keys without AUTOINCREMENT (app.py:15,
  22). On the default SQLite database (app.py:8) a new row gets one more than
  the largest key in use, so the key of a deleted last row is handed out
  again. A database given through `DATABASE_URL` with a key sequence never
  reuses a key. The model has both, as `Tables.Allocator`.

## Model

| member | source | states |
|---|---|---|
| `Passwords.CheckAcceptsHashed` | app.py:89 | The digest stored at signup verifies against the password it was made from, whatever salt was drawn. |
| `Passwords.CheckRejectsOthers` | app.py:55 | A stored digest rejects every password other than the one it was made from. |
| `Tables.FirstWithEmail` | app.py:52 | The email query's `first()`, scanned in key order. It finds a row with that email whose key is the least in range, or reports that no row in range has that email. |
| `Tables.FindByEmail` | app.py:77 | The result always has the asked email. In a consistent database it is `None` exactly when no user has that email. When a user has that email, the result is that user's key, because emails are unique. |
| `Tables.InsertUser` | app.py:89-91 | Adds exactly one user row under a key not in use. Every other row is left as it was. The database stays consistent, emails unique included, when the email was not registered. |
| `Tables.LargestKeyBelow` | app.py:15 | Finds the largest key of the table below the bound, with no key between it and the bound, or reports that there is no key below the bound. |
| `Tables.NewKey` | app.py:15 | The key of a new row is not in use and lies above every key in use. A sequence gives its next value. SQLite's default gives one more than the largest key in use, or 1 for an empty table. |
| `Tables.InsertContact` | app.py:105-107 | Adds exactly one contact row under a key not in use and leaves all other rows alone. With a key sequence, the new key lies above every key handed out before. The database stays consistent when the owner exists. |
| `Accounts.ValidateSignup` | app.py:78-88 | The signup checks run in the order: duplicate email, name length < 3, email length < 5, password length < 8, password mismatch. The result is `None` exactly when no check fails. Otherwise it is a failing check, and every check ranked before it passes. |
| `Accounts.Signup` | app.py:68-94 | With a session the handler does nothing and reports `RedirectIndex`; it reports `RedirectIndex` only then. Without a session, every form that fails a check is rejected, and an account is created exactly when the email is unregistered, the name has at least 3 characters, the email at least 5, the password at least 8 and the two passwords match. A rejection reports the first failing check and leaves the state unchanged. Success adds exactly one user with the given name and email and the digest `Hash(salt, password1)`, never the plaintext. Other users and all contacts are unchanged, the session is unchanged, and emails stay unique. |
| `Accounts.Login` | app.py:45-66 | Login never changes the database. With a session it does nothing and reports `RedirectIndex`, which it reports only then. Without one: `NotRegistered` exactly when no user has the email. For a registered email, `WrongPassword` exactly when the password check fails and `LoggedIn` exactly when it passes, so a wrong password is never reported as unregistered. On success the session is the key of the user with that email and that password. |
| `Accounts.Logout` | app.py:132-136 | Logout leaves the database unchanged and leaves no session. Without a session it reports `LoginRequired` (the `login_required` guard). Otherwise it reports `LoggedOut`. |
| `Dashboard.CreateContact` | app.py:101-107 | Adds exactly one contact with the posted fields, unvalidated, owned by the caller. It uses a fresh key and leaves every other row alone. |
| `Dashboard.EditContact` | app.py:109-120 | A non-owner's edit changes nothing. The owner's edit changes only that contact's name, email and mobile, and keeps its key and owner. Every other contact and every user is unchanged. |
| `Dashboard.DeleteContact` | app.py:121-127 | A non-owner's delete changes nothing. The owner's delete removes exactly that contact. Every remaining contact is unchanged. |
| `Dashboard.Post` | app.py:96-130 | Without a session it reports `LoginRequired` and changes nothing. Edit or delete of an unknown key, negative or absent, is a `ServerError` that commits nothing. Every other authenticated POST reports the same `DashboardDone`, owner or not. `new` adds exactly the posted contact, owned by the session's user. An unknown action changes nothing. Contacts of other users are untouched. Users and the session never change. |
| `App.Step` | app.py:45-136 | Every handler keeps the database consistent and the session pointing at an existing user. The allocator never changes, users are never altered, and a contact present before and after keeps its owner. With a key sequence, a new contact's key lies above every key handed out before. A contact whose owner is not the session's user comes through unchanged. |
| `App.Run` | app.py:14-26 | After any sequence of requests the state is still valid and the allocator unchanged. In particular, no two users share an email. |
| `App.OwnerFixed` | app.py:105 | With a key sequence, over any run, a contact key present at both ends has the owner it had at the start. The owner is fixed when the contact is created and no later request changes it. |
| `App.OwnerKeptOrGone` | app.py:115-125 | With a key sequence, over any run, each initial contact either survives with its owner or is gone. A gone contact's key lies below the sequence's next value, so that key is never handed out again. |
| `App.ForeignRunLeavesContact` | app.py:114-127 | If no request of a run is made while a contact's owner is logged in, the contact is present and unchanged at the end. |
| `App.SignupThenLogin` | app.py:89-93 | From no session, an acceptable signup succeeds. Logging in next with the same email and password succeeds, and the session becomes the newly created user with the signed-up name, email and digest. |
| `App.SignupThenWrongPassword` | app.py:55-56 | After a signup, logging in with that email and any other password is rejected as `WrongPassword`, never as unregistered, and changes nothing. |
| `App.KeyReuseChangesOwner` | app.py:15-26 | With SQLite's default allocation, Alice deletes her only contact, Bob logs in and saves a new one. The new contact gets the freed key, so that key is present at both ends of the run with different owners. |
| `App.SecondSignupRejected` | app.py:77-79 | After a successful signup, a second signup with the same email is rejected as `EmailExists` whatever else the form holds, and it changes nothing. |
| `App.LogoutTwice` | app.py:132-135 | A second logout finds no session, reports `LoginRequired` and changes nothing. |
| `App.ForeignDeleteScenario` | app.py:101-127 | Alice creates contact "Bob". Bob then signs up, logs in and posts a delete of that key. The handler reports the usual `DashboardDone`, and the contact is still there, owned by Alice. |

## Left out

- Flask routing, templates, `flash` wording, redirects and the `next` target after login (app.py:60-66). Only the outcome category is kept.
- GET requests to `/`, `/login`, `/signup` and `/dashboard` only render a page and change nothing, so they are not modelled.
- SQLAlchemy, the database URL and table creation (app.py:7-12, 28-30) are replaced by maps.
- Column length limits (150, 15) are storage declarations that no handler checks.
- werkzeug hashing is abstract: a symbolic digest. The model assumes no two passwords share a digest. Timing-safe comparison and hash formats are out.
- flask_login's cookie and remember-me persistence (app.py:32-39, 58) are reduced to an `Option<UserId>` session. Users are never deleted, so `load_user` always finds the session's user, and the model does not model it separately.
- Missing form fields (`len(None)` raises) and a non-numeric `id` (`int(...)` raises) are out. Form fields are typed as present strings and an already-parsed `int`.
- App.OwnerFixed: the by-key statement holds only with a key sequence (a `DATABASE_URL` database with a sequence, or SQLite AUTOINCREMENT). Under SQLite's default a deleted last key is handed out again, to any user. `App.KeyReuseChangesOwner` shows this. What holds for both allocators is that a single request never changes the owner of a contact present before and after it (`App.Step`).
- App.OwnerKeptOrGone: likewise stated only with a key sequence. Under SQLite's default, a deleted contact's key can come back.
- Key allocation for `users`: both allocators are modelled for both tables. Users are never deleted, so they give users the same keys.
- SQLite's fallback to a random unused key once the largest key reaches 2^63 - 1 is not modelled.
- `Tables.FirstWithEmail`: `first()` without `ORDER BY` has no promised order. The model scans in key order, and with unique emails at most one row can match anyway.
- Concurrency, transactions and the race between the email check and the insert.
- The `__main__` development server (app.py:138-139).
