# Avatar platform: handler logic and state, modelled in Dafny

The system is a small Flask site (`app.py`). Users sign up and log in with an e-mail and a password. They browse a catalog of four demo "avatar" products, and they can open a product page only when logged in. This project models the decisions the request handlers and the one-time initializer make, over this state:

- the **users table**: a map keyed by the lower-cased e-mail, so e-mails are unique;
- the **products table**: a sequence in insertion order, with unique slugs;
- the **session**: the e-mail key of the logged-in user, or nobody;
- the process-wide **initialized flag**.

Together they form the class `App.AppState`. Its methods mirror the handlers. `Valid()` is the invariant every handler keeps:

- every key is its row's e-mail, lower-cased and non-empty;
- user ids are distinct and lie in 1..|users|;
- product slugs are unique, and product ids run 1..|products|;
- the session names an existing user.

A handler's answer is a `Web.Response`: a redirect (to a named route or to a literal URL, with its flash message), a rendered page, or not-found.

Modules:

- `Optional`: the absent/present value.
- `Text`: ASCII lower-casing and `startswith`.
- `Passwords`: the salted hash and its check.
- `Models`: rows, table invariants, signup verdict, seed step, slug lookup.
- `Web`: responses, `@login_required`, and the redirect guards together with the two findings.
- `App`: the state class, plus the lemmas and client methods that relate several calls.

Password hashing belongs to a library. `Passwords.Hash` is a concrete salted stand-in. The only property the model uses is `Passwords.CheckHash`: a stored hash accepts exactly the password it was made from. The random salt becomes a parameter of `Signup`. Whether the store is reachable during initialization becomes a parameter of `EnsureInitialized`.

The post-login guard is commented "Security: ensure next is internal" (app.py:130). But the check under it (app.py:131) accepts any target that starts with `/`, including the protocol-relative `//host`. The model follows the code as written; see Findings.

## Model

| member | source | states |
|---|---|---|
| `Text.Lower` | app.py:102 | Lower-casing keeps the length and maps each character through the ASCII case mapping. |
| `Text.LowerIdempotent` | app.py:102-107 | A lower-cased e-mail is a fixed point of lower-casing, so stored keys are already normalised. |
| `Text.LowerIgnoresCase` | app.py:123-125 | Two e-mails that differ only in ASCII letter case give the same lookup key. |
| `Passwords.CheckHash` | app.py:23-27 | `check_password` on the hash that `set_password` made from `p` accepts `q` exactly when `q == p`, for every salt. |
| `Passwords.DigestInjective` | app.py:24 | Under one salt, equal digests mean equal passwords. |
| `Models.Registered` | app.py:110-113 | Inserting an account adds exactly the new key and leaves every other row unchanged. The new row holds the e-mail and name, and a hash that checks against the password. |
| `Models.RegisteredValid` | app.py:19 | Inserting an e-mail that is not yet taken keeps e-mails unique and normalised and ids distinct, and grows the table by exactly one. |
| `Models.SignupCheck` | app.py:104-109 | The signup branch is "missing fields" iff the e-mail or the password is empty. It is "duplicate" iff both are present and the lower-cased e-mail is registered. Otherwise the account is accepted. |
| `Models.SeedRowsValid` | app.py:44-52 | The seed inserts exactly the four demo products, in list order, with distinct slugs and ids 1..4. |
| `Models.SeededIdempotent` | app.py:43-53 | Seeding keeps the catalog valid and leaves it non-empty. A second seed changes nothing, so seeding twice never duplicates a row. |
| `Models.FindBySlug` | app.py:85 | The lookup finds nothing iff no row has the slug. Otherwise it returns the first row with that slug. |
| `Web.ProductPath` | app.py:88 | A product's URL is `/product/` followed by its slug. |
| `Web.LoginRequired` | app.py:94 | `@login_required` sends an anonymous request to the login form with the requested path as `next`. |
| `Web.LoginRedirectTarget` | app.py:129-133 | After login, the browser goes to `next` iff it is present, non-empty and starts with `/`, and to the dashboard otherwise. So the target is never a path without a leading `/`. |
| `Web.SignupRedirectTarget` | app.py:116-117 | After signup, the browser goes to `next` iff it is present and non-empty, with no other check, and to the dashboard otherwise. |
| `Web.SafeRedirectTarget` | app.py:130-133 | Corrected guard: it follows `next` iff it is a same-origin path. What it follows never names another host. |
| `Web.LoginGuardRejectsSchemes` | app.py:131 | The written login guard never follows a URL that has a scheme (`http:`, `javascript:`). |
| `Web.SafeGuardNarrowsLoginGuard` | app.py:131-133 | The corrected guard agrees with the written one wherever it follows `next`. The two differ exactly on targets that start with `//` or `/\`. |
| `Web.LoginGuardAcceptsProtocolRelative` | app.py:131 | The written guard follows `//evil.example/x`, which names another host. The corrected guard sends it to the dashboard. |
| `Web.SignupRedirectIsOpen` | app.py:116-117 | The signup redirect follows `http://evil.example/x`. The corrected guard sends it to the dashboard. |
| `Web.ProductNextSurvivesLogin` | app.py:88-132 | The `next` that a product redirect carries passes the login guard, so the browser returns to that product page. |
| `App.AppState.constructor` | app.py:58 | A process starts with the stored tables, nobody logged in, and the flag unset. |
| `App.AppState.CreateTables` | app.py:41-53 | The products become the four demo rows in order when the catalog was empty. Otherwise they stay as they were. Users and session are unchanged. |
| `App.AppState.EnsureInitialized` | app.py:58-71 | Afterwards the flag is always set. The first call seeds when the store is available and changes nothing when seeding fails. Once the flag is set, a call changes nothing. |
| `App.AppState.LoadUser` | app.py:36-38 | Finds a user iff some row has the given id, and then returns exactly that row. |
| `App.AppState.ViewProduct` | app.py:83-91 | An unknown slug is not found, whether or not anyone is logged in. For a known slug, an anonymous visitor is redirected to `/login` with `next=/product/<slug>`. A logged-in user gets the page of a product with that slug. |
| `App.AppState.ViewDashboard` | app.py:93-96 | The dashboard renders iff someone is logged in. Otherwise the answer is the login-required redirect. |
| `App.AppState.Signup` | app.py:98-117 | Missing fields and duplicate e-mails leave users and session unchanged and redirect to the signup form with a warning. Acceptance inserts exactly one user, keyed by the lower-cased e-mail and holding the password's hash, logs that user in, and redirects to the unchecked `next`. Validity, and so e-mail uniqueness, is preserved. |
| `App.AppState.Login` | app.py:120-135 | Login succeeds iff the lower-cased e-mail is registered and the password checks. Success sets the session and redirects through the guard. Every failure gets the same redirect and flash and leaves the session unchanged. The tables never change. |
| `App.AppState.Logout` | app.py:138-143 | Afterwards nobody is logged in. An anonymous request gets the login-required redirect, and a logged-in one is redirected home with "Logged out.". |
| `App.SignupThenLoginRoundTrip` | app.py:110-126 | After a signup with (e-mail, password), login with that e-mail in any letter case succeeds exactly with that password. |
| `App.SignupKeepsOtherLogins` | app.py:110-113 | A signup does not change whether any other e-mail can log in. |
| `App.SecondSignupIsDuplicate` | app.py:102-109 | After a signup, a second signup with the same e-mail in any letter case is refused as a duplicate. |
| `App.SignupLogoutLogin` | app.py:98-143 | Through the handlers: signing up, logging out and logging in again with a differently-cased e-mail ends with that user logged in, and exactly one row was added. |
| `App.VisitProductAnonymously` | app.py:83-132 | An anonymous visit to an existing product is redirected to the login form with `next=/product/<slug>`. A successful login with that `next` redirects to `/product/<slug>`, where the product is then rendered. |
| `App.ServeProductRequest` | app.py:60-91 | The `before_request` hook runs before the product handler: afterwards the flag is set and the answer is the handler's on the initialized state. On a fresh process over an empty, reachable store, the first anonymous visit to a demo product is sent to log in. |
| `App.LoginIgnoresEmailCase` | app.py:123-126 | Whether a login succeeds does not depend on the letter case of the typed e-mail. |
| `Web.SignupRedirectVersusSafe` | app.py:116-117 | The signup redirect and the corrected guard differ exactly on the non-empty `next` values that are not same-origin paths. |

## Left out

- Flask routing, `render_template`, flash rendering, `url_for` string building (query-string percent-encoding included) and `app.run`. Handler results are the `Response` datatype instead.
- The `index`, `products` and GET `signup`/`login` routes: they only render a template. `products` lists the table in insertion order, which is the `products` sequence itself.
- SQLAlchemy and SQLite: schema creation, sessions and commits, query builders. The tables are an in-memory map and sequence. Row ids are modelled as the next integer, as SQLite assigns them when rows are never deleted.
- A store failure after a failed initialization is not modelled. Requests then touch an in-memory table that is always there, instead of raising a server error.
- Which step of initialization failed (schema creation or commit) is not modelled. Only the observable effect is kept: the products are unchanged and the flag is set anyway.
- Concurrent first requests racing on the initialized flag.
- The `before_request` dispatch itself: the handler methods do not require `initialized`, and callers run `EnsureInitialized` before each handler. `App.ServeProductRequest` shows that order for the product page. The client methods `SignupLogoutLogin` and `VisitProductAnonymously` start from any valid state, whether or not it is initialized.
- flask_login cookie and session mechanics, and the `SECRET_KEY` configuration with its hard-coded fallback. Only the session's current user is kept.
- The crash when the `email` form field is absent (`None.lower()`) and the `int(user_id)` conversion in `load_user`. Form fields are possibly-empty strings, and the user id is an integer.
- `Text.Lower`: only the ASCII case mapping is modelled, not Python's full Unicode `str.lower()`.
- `Passwords.Hash`: the salted hash of the library is replaced by a simple salted encoding. Only the check-accepts-exactly-its-password property is relied on. One-wayness is not modelled.
- The column length limits (`String(150)` and so on) are not enforced by SQLite and are not modelled.

## Findings

| source | as written | input that shows it | evidently intended | confidence | as-written member | corrected member |
|---|---|---|---|---|---|---|
| app.py:131 | `next_page.startswith('/')` accepts any target that begins with `/` | `next=//evil.example/x` after a successful login redirects to another host (protocol-relative URL) | follow `next` only when it is a same-origin path, as the comment "ensure next is internal" says | high (not executed) | `Web.LoginGuardAcceptsProtocolRelative` | `Web.SafeRedirectTarget` |
| app.py:116-117 | `redirect(next_page or url_for('dashboard'))` follows `next` unchecked | `next=http://evil.example/x` after a successful signup redirects off-site | apply the same-origin guard that login applies | medium (not executed) | `Web.SignupRedirectIsOpen` | `Web.SafeRedirectTarget` |

The handler methods `Login` and `Signup` follow the code as written: they redirect through `LoginRedirectTarget` and `SignupRedirectTarget`. `SafeRedirectTarget` is the corrected guard, and `SafeGuardNarrowsLoginGuard` proves that it changes the login behaviour only on the protocol-relative forms.
