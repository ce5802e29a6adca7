/** What a handler answers: a redirect (with the flash message queued for the
    next page), a rendered page or a not-found response; and the choice of
    where to send the browser after signup and login. */
module Web {
  import opened Optional
  import opened Text
  import opened Models

  /** Routes the handlers redirect to by name, as `url_for` would build them. */
  datatype Endpoint =
    | Index                          // "/"
    | SignupForm                     // "/signup"
    | LoginForm(next: Option<string>) // "/login", with `?next=...` when present
    | Dashboard                      // "/dashboard"

  /** A redirect location: a named route, or a literal URL taken from the request. */
  datatype Target = Endpoint(endpoint: Endpoint) | Url(path: string)

  datatype Category = Success | Warning | Danger | Info | Message

  datatype Flash = Flash(text: string, category: Category)

  datatype Page = ProductDetail(product: Product) | DashboardPage

  datatype Response = Redirect(to: Target, flash: Option<Flash>) | Render(page: Page) | NotFound

  const MissingFieldsFlash := Flash("Please provide email and password.", Warning)
  const DuplicateEmailFlash := Flash("Account already exists with that email.", Warning)
  const AccountCreatedFlash := Flash("Account created. Logged in.", Success)
  const LoggedInFlash := Flash("Logged in successfully.", Success)
  const InvalidCredentialsFlash := Flash("Invalid credentials.", Danger)
  const LoggedOutFlash := Flash("Logged out.", Info)
  /** The framework's default notice when a login-only route is hit anonymously. */
  const LoginRequiredFlash := Flash("Please log in to access this page.", Message)

  /** The path of a product page, as `url_for('product', slug=slug)` gives it. */
  function ProductPath(slug: string): (p: string)
    ensures StartsWith(p, "/product/") && p[|"/product/"|..] == slug
  {
    "/product/" + slug
  }

  /** What `@login_required` answers an anonymous request for `path`: back to
      the login form, remembering where the visitor was going. */
  function LoginRequired(path: string): (r: Response)
    ensures r.Redirect? && r.to.Endpoint? && r.to.endpoint.LoginForm?
    ensures r.to.endpoint.next == Some(path)
  {
    Redirect(Endpoint(LoginForm(Some(path))), Some(LoginRequiredFlash))
  }

  // ------------------------------------------------------- redirect guards

  /** A URL scheme such as "http:" or "javascript:": a letter, then letters,
      digits, '+', '-' or '.', then ':'. */
  ghost predicate HasScheme(s: string)
  {
    exists i :: 0 < i < |s| && s[i] == ':' && IsSchemeStart(s[0])
             && forall j :: 0 < j < i ==> IsSchemeChar(s[j])
  }

  predicate IsSchemeStart(c: char) { 'a' <= c <= 'z' || 'A' <= c <= 'Z' }

  predicate IsSchemeChar(c: char)
  {
    IsSchemeStart(c) || '0' <= c <= '9' || c == '+' || c == '-' || c == '.'
  }

  /** A redirect location that a browser resolves to another host: an absolute
      URL with a scheme, or a protocol-relative one ("//host/..."; browsers
      read "/\host" the same way). */
  ghost predicate NamesOtherHost(s: string)
  {
    HasScheme(s) || StartsWith(s, "//") || StartsWith(s, "/\\")
  }

  /** The post-login redirect as written: `next` when it is present, non-empty
      and starts with '/', else the dashboard. */
  function LoginRedirectTarget(next: Option<string>): (t: Target)
    ensures t.Url? <==> next.Some? && |next.value| > 0 && next.value[0] == '/'
    ensures t.Url? ==> t.path == next.value
    ensures t.Endpoint? ==> t.endpoint == Dashboard
  {
    if next.Some? && next.value != "" && StartsWith(next.value, "/") then Url(next.value)
    else Endpoint(Dashboard)
  }

  /** The post-signup redirect as written: `next_page or url_for('dashboard')`,
      with no check on `next` at all. */
  function SignupRedirectTarget(next: Option<string>): (t: Target)
    ensures t.Url? <==> next.Some? && next.value != ""
    ensures t.Url? ==> t.path == next.value
    ensures t.Endpoint? ==> t.endpoint == Dashboard
  {
    if next.Some? && next.value != "" then Url(next.value) else Endpoint(Dashboard)
  }

  /** A same-origin path: one leading '/', not followed by a second '/' or '\'. */
  predicate IsLocalPath(s: string)
  {
    |s| > 0 && s[0] == '/' && (|s| == 1 || (s[1] != '/' && s[1] != '\\'))
  }

  /** The corrected guard: follow `next` only when it is a same-origin path. */
  function SafeRedirectTarget(next: Option<string>): (t: Target)
    ensures t.Url? <==> next.Some? && IsLocalPath(next.value)
    ensures t.Url? ==> t.path == next.value && !NamesOtherHost(t.path)
    ensures t.Endpoint? ==> t.endpoint == Dashboard
  {
    if next.Some? && IsLocalPath(next.value) then Url(next.value) else Endpoint(Dashboard)
  }

  /** The login guard does keep out every URL with a scheme. */
  lemma LoginGuardRejectsSchemes(next: Option<string>)
    ensures LoginRedirectTarget(next).Url? ==> !HasScheme(LoginRedirectTarget(next).path)
  {
  }

  /** The corrected guard only narrows the written one: where it follows `next`
      the written one does too, and they differ exactly on the
      protocol-relative forms. */
  lemma SafeGuardNarrowsLoginGuard(next: Option<string>)
    ensures SafeRedirectTarget(next).Url? ==> LoginRedirectTarget(next) == SafeRedirectTarget(next)
    ensures LoginRedirectTarget(next) != SafeRedirectTarget(next) <==>
              next.Some? && (StartsWith(next.value, "//") || StartsWith(next.value, "/\\"))
  {
  }

  /** The signup redirect differs from the corrected guard exactly on the
      non-empty `next` values that are not same-origin paths. */
  lemma SignupRedirectVersusSafe(next: Option<string>)
    ensures SignupRedirectTarget(next) != SafeRedirectTarget(next) <==>
              next.Some? && next.value != "" && !IsLocalPath(next.value)
  {
  }

  /** Finding: the login guard follows a protocol-relative URL to another host. */
  lemma LoginGuardAcceptsProtocolRelative()
    ensures LoginRedirectTarget(Some("//evil.example/x")) == Url("//evil.example/x")
    ensures NamesOtherHost("//evil.example/x")
    ensures SafeRedirectTarget(Some("//evil.example/x")) == Endpoint(Dashboard)
  {
  }

  /** Finding: the signup redirect follows an absolute URL to another host. */
  lemma SignupRedirectIsOpen()
    ensures SignupRedirectTarget(Some("http://evil.example/x")) == Url("http://evil.example/x")
    ensures NamesOtherHost("http://evil.example/x")
    ensures SafeRedirectTarget(Some("http://evil.example/x")) == Endpoint(Dashboard)
  {
    var s := "http://evil.example/x";
    assert s[4] == ':' && IsSchemeStart(s[0]);
    assert forall j :: 0 < j < 4 ==> IsSchemeChar(s[j]);
  }

  /** The protected-page round trip: the `next` a product redirect carries is
      accepted by the login guard and leads back to the product page. */
  lemma ProductNextSurvivesLogin(slug: string)
    ensures LoginRedirectTarget(Some(ProductPath(slug))) == Url(ProductPath(slug))
    ensures SafeRedirectTarget(Some(ProductPath(slug))) == Url(ProductPath(slug))
  {
  }
}
