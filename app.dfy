/** The application state the request handlers and the one-time initializer
    act on: the two tables, the session's current user and the process-wide
    "initialized" flag. */
module App {
  import opened Optional
  import opened Text
  import opened Passwords
  import opened Models
  import opened Web

  class AppState {
    /** The users table, keyed by the (lower-cased) e-mail. */
    var users: map<string, User>
    /** The products table, in insertion order. */
    var products: seq<Product>
    /** The session: the e-mail key of the logged-in user, if any. */
    var current: Option<string>
    /** `_app_initialized`. */
    var initialized: bool

    ghost predicate Valid()
      reads this
    {
      UsersValid(users) && CatalogValid(products) &&
      (current.Some? ==> current.value in users)
    }

    /** A fresh process over whatever the store already holds: nobody is
        logged in and initialization has not run. */
    constructor (storedUsers: map<string, User>, storedProducts: seq<Product>)
      requires UsersValid(storedUsers) && CatalogValid(storedProducts)
      ensures Valid()
      ensures users == storedUsers && products == storedProducts
      ensures current == None && !initialized
    {
      users := storedUsers;
      products := storedProducts;
      current := None;
      initialized := false;
    }

    /** `create_tables`: when the catalog is empty, insert the demo rows one by
        one, in list order; otherwise leave it alone. */
    method CreateTables()
      requires Valid()
      modifies this
      ensures Valid()
      ensures products == Seeded(old(products))
      ensures users == old(users) && current == old(current) && initialized == old(initialized)
    {
      SeedRowsValid();
      if |products| == 0 {
        var demo := Demo;
        for i := 0 to |demo|
          invariant products == SeedRows()[..i]
          invariant users == old(users) && current == old(current) && initialized == old(initialized)
        {
          products := products + [Row(demo[i], |products| + 1)];
        }
        assert products == SeedRows()[..|SeedRows()|];
      }
    }

    /** `_ensure_initialized`: the first call runs the seed step, which takes
        effect only when the store is available (a failure is swallowed);
        either way the flag ends up set, and later calls do nothing. */
    method EnsureInitialized(storeAvailable: bool)
      requires Valid()
      modifies this
      ensures Valid()
      ensures initialized
      ensures old(initialized) ==> products == old(products)
      ensures !old(initialized) ==>
                products == (if storeAvailable then Seeded(old(products)) else old(products))
      ensures users == old(users) && current == old(current)
    {
      if initialized {
        return;
      }
      if storeAvailable {
        CreateTables();
      }
      initialized := true;
    }

    /** `load_user`: the row whose generated id is `userId`, if any. */
    method LoadUser(userId: int) returns (u: Option<User>)
      requires Valid()
      ensures u.Some? <==> exists k :: k in users && users[k].id == userId
      ensures u.Some? ==> u.value.id == userId && u.value.email in users
                          && users[u.value.email] == u.value
    {
      var keys := users.Keys;
      while keys != {}
        invariant keys <= users.Keys
        invariant forall k :: k in users && k !in keys ==> users[k].id != userId
        decreases keys
      {
        var k :| k in keys;
        if users[k].id == userId {
          return Some(users[k]);
        }
        keys := keys - {k};
      }
      return None;
    }

    /** `product(slug)`: an unknown slug is not found, whoever asks; a known one
        sends an anonymous visitor to log in, with the product page as `next`,
        and is rendered for a logged-in user. */
    function ViewProduct(slug: string): (r: Response)
      reads this
      ensures r.NotFound? <==> forall i :: 0 <= i < |products| ==> products[i].slug != slug
      ensures r.Redirect? <==> !r.NotFound? && current.None?
      ensures r.Redirect? ==> r == Redirect(Endpoint(LoginForm(Some(ProductPath(slug)))), None)
      ensures r.Render? ==> current.Some? && r.page.ProductDetail?
                            && r.page.product in products && r.page.product.slug == slug
    {
      match FindBySlug(products, slug)
      case None => NotFound
      case Some(p) =>
        if current.None? then Redirect(Endpoint(LoginForm(Some(ProductPath(slug)))), None)
        else Render(ProductDetail(p))
    }

    /** `dashboard`: only for a logged-in user. */
    function ViewDashboard(): (r: Response)
      reads this
      ensures r.Render? <==> current.Some?
      ensures r.Render? ==> r.page == DashboardPage
      ensures !r.Render? ==> r == LoginRequired("/dashboard")
    {
      if current.None? then LoginRequired("/dashboard") else Render(DashboardPage)
    }

    /** `signup` (POST): reject missing fields, reject an e-mail already
        registered in any letter case, otherwise insert the account with the
        hash of its password, log it in and redirect to `next` unchecked. */
    method Signup(name: Option<string>, email: string, password: string,
                  next: Option<string>, salt: nat) returns (resp: Response)
      requires Valid()
      modifies this
      ensures Valid()
      ensures products == old(products) && initialized == old(initialized)
      ensures SignupCheck(old(users), email, password) == MissingFields ==>
                users == old(users) && current == old(current)
                && resp == Redirect(Endpoint(SignupForm), Some(MissingFieldsFlash))
      ensures SignupCheck(old(users), email, password) == AlreadyRegistered ==>
                users == old(users) && current == old(current)
                && resp == Redirect(Endpoint(SignupForm), Some(DuplicateEmailFlash))
      ensures SignupCheck(old(users), email, password) == Accepted ==>
                users == Registered(old(users), Lower(email), name, password, salt)
                && |users| == |old(users)| + 1
                && current == Some(Lower(email))
                && resp == Redirect(SignupRedirectTarget(next), Some(AccountCreatedFlash))
    {
      var key := Lower(email);
      if key == "" || password == "" {
        return Redirect(Endpoint(SignupForm), Some(MissingFieldsFlash));
      }
      if key in users {
        return Redirect(Endpoint(SignupForm), Some(DuplicateEmailFlash));
      }
      LowerIdempotent(email);
      RegisteredValid(users, key, name, password, salt);
      users := Registered(users, key, name, password, salt);
      current := Some(key);
      resp := Redirect(SignupRedirectTarget(next), Some(AccountCreatedFlash));
    }

    /** `login` (POST): log in exactly when the lower-cased e-mail is registered
        and the password checks against its hash; every failure, unknown
        e-mail or wrong password, gets the same answer and leaves the session
        as it was. */
    method Login(email: string, password: string, next: Option<string>) returns (resp: Response)
      requires Valid()
      modifies this
      ensures Valid()
      ensures users == old(users) && products == old(products) && initialized == old(initialized)
      ensures Authenticates(old(users), email, password) ==>
                current == Some(Lower(email))
                && resp == Redirect(LoginRedirectTarget(next), Some(LoggedInFlash))
      ensures !Authenticates(old(users), email, password) ==>
                current == old(current)
                && resp == Redirect(Endpoint(LoginForm(None)), Some(InvalidCredentialsFlash))
    {
      var key := Lower(email);
      if key in users && Check(users[key].passwordHash, password) {
        current := Some(key);
        return Redirect(LoginRedirectTarget(next), Some(LoggedInFlash));
      }
      return Redirect(Endpoint(LoginForm(None)), Some(InvalidCredentialsFlash));
    }

    /** `logout`: login-only; ends the session of a logged-in user. */
    method Logout() returns (resp: Response)
      requires Valid()
      modifies this
      ensures Valid()
      ensures current == None
      ensures users == old(users) && products == old(products) && initialized == old(initialized)
      ensures old(current).None? ==> resp == LoginRequired("/logout")
      ensures old(current).Some? ==> resp == Redirect(Endpoint(Index), Some(LoggedOutFlash))
    {
      if current.None? {
        return LoginRequired("/logout");
      }
      current := None;
      resp := Redirect(Endpoint(Index), Some(LoggedOutFlash));
    }
  }

  // ------------------------------------------------- properties across calls

  /** Signup-then-login round trip: once an account is created, logging in
      with the same e-mail in any letter case succeeds with exactly the
      password it was created with. */
  lemma SignupThenLoginRoundTrip(users: map<string, User>, name: Option<string>,
                                 email: string, password: string, salt: nat,
                                 loginEmail: string, loginPassword: string)
    requires SignupCheck(users, email, password) == Accepted
    requires Lower(loginEmail) == Lower(email)
    ensures var after := Registered(users, Lower(email), name, password, salt);
            Authenticates(after, loginEmail, loginPassword) <==> loginPassword == password
  {
    var r := Registered(users, Lower(email), name, password, salt);
    assert r[Lower(email)].passwordHash == Hash(salt, password);
    CheckHash(salt, password, loginPassword);
  }

  /** A signup changes nobody else's login. */
  lemma SignupKeepsOtherLogins(users: map<string, User>, name: Option<string>,
                               email: string, password: string, salt: nat,
                               other: string, otherPassword: string)
    requires SignupCheck(users, email, password) == Accepted
    requires Lower(other) != Lower(email)
    ensures var after := Registered(users, Lower(email), name, password, salt);
            Authenticates(after, other, otherPassword) == Authenticates(users, other, otherPassword)
  {
  }

  /** E-mail uniqueness: after one account is created, a second signup with
      the same e-mail in any letter case is refused as a duplicate. */
  lemma SecondSignupIsDuplicate(users: map<string, User>, name: Option<string>,
                                email: string, password: string, salt: nat,
                                email2: string, password2: string)
    requires SignupCheck(users, email, password) == Accepted
    requires Lower(email2) == Lower(email) && password2 != ""
    ensures var after := Registered(users, Lower(email), name, password, salt);
            SignupCheck(after, email2, password2) == AlreadyRegistered
  {
  }

  /** The Anonymous -> Authenticated -> Anonymous -> Authenticated cycle
      through the handlers: sign up, log out, log back in with the e-mail in
      another case. */
  method SignupLogoutLogin(app: AppState, name: Option<string>, email: string, password: string,
                           salt: nat, loginEmail: string, next: Option<string>)
    requires app.Valid()
    requires email != "" && password != "" && Lower(email) !in app.users
    requires Lower(loginEmail) == Lower(email)
    modifies app
    ensures app.Valid()
    ensures app.current == Some(Lower(email))
    ensures Lower(email) in app.users && |app.users| == |old(app.users)| + 1
  {
    var r1 := app.Signup(name, email, password, None, salt);
    assert app.current == Some(Lower(email));
    var r2 := app.Logout();
    assert r2 == Redirect(Endpoint(Index), Some(LoggedOutFlash));
    SignupThenLoginRoundTrip(old(app.users), name, email, password, salt, loginEmail, password);
    var r3 := app.Login(loginEmail, password, next);
    assert r3.to == LoginRedirectTarget(next);
  }

  /** The protected product page: an anonymous visitor is sent to log in with
      the page as `next`, and a successful login sends them back to it, where
      the product is rendered. */
  method VisitProductAnonymously(app: AppState, slug: string, email: string, password: string)
    returns (r1: Response, r2: Response)
    requires app.Valid() && app.current.None?
    requires exists i :: 0 <= i < |app.products| && app.products[i].slug == slug
    requires Authenticates(app.users, email, password)
    modifies app
    ensures r1 == Redirect(Endpoint(LoginForm(Some(ProductPath(slug)))), None)
    ensures r2 == Redirect(Url(ProductPath(slug)), Some(LoggedInFlash))
    ensures app.current.Some?
    ensures app.ViewProduct(slug).Render?
  {
    r1 := app.ViewProduct(slug);
    ProductNextSurvivesLogin(slug);
    r2 := app.Login(email, password, r1.to.endpoint.next);
  }

  /** A request for a product page as the application serves it: the
      `before_request` hook runs first, then the handler. On a process that
      starts over an empty store, the very first anonymous visit to a demo
      product is sent to log in, not answered with not-found. */
  method ServeProductRequest(app: AppState, storeAvailable: bool, slug: string) returns (r: Response)
    requires app.Valid()
    modifies app
    ensures app.Valid() && app.initialized
    ensures r == app.ViewProduct(slug)
    ensures !old(app.initialized) && storeAvailable && old(app.products) == [] && app.current.None?
            && (exists i :: 0 <= i < |Demo| && Demo[i].slug == slug)
            ==> r == Redirect(Endpoint(LoginForm(Some(ProductPath(slug)))), None)
  {
    app.EnsureInitialized(storeAvailable);
    SeedRowsValid();
    r := app.ViewProduct(slug);
  }

  /** Logging in does not depend on the letter case of the e-mail typed. */
  lemma LoginIgnoresEmailCase(users: map<string, User>, email: string, typed: string, password: string)
    requires |typed| == |email|
    requires forall i :: 0 <= i < |email| ==> LowerChar(typed[i]) == LowerChar(email[i])
    ensures Authenticates(users, typed, password) == Authenticates(users, email, password)
  {
    LowerIgnoresCase(typed, email);
  }
}
