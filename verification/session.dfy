/** public/js/auth.js: the simulated login session. The state is the value under
    the storage key `ticketapp_session`; page redirects become returned URLs. */
module Session {
  import opened Options

  /** What the session key can hold. auth.js stores plain text (`active`);
      public/js/app.js stores the JSON of a `{ username, token, isAuthenticated: true }`
      record under the same key, modelled as `UserRecord`. */
  datatype SessionValue = Text(text: string) | UserRecord(username: string)

  /** The session key: absent, or holding a value. */
  type Slot = Option<SessionValue>

  const ACTIVE := "active"
  const TEST_EMAIL := "test@user.com"
  const TEST_PASSWORD := "password123"

  const HOME_URL := "/"
  const LOGIN_URL := "/login"
  const DASHBOARD_URL := "/dashboard"

  /** Lines 16-18: logged in exactly when the key holds the text `active`. */
  predicate IsAuthenticated(slot: Slot) {
    slot == Some(Text(ACTIVE))
  }

  /** Whether a login attempt succeeded, and the session it leaves. */
  datatype LoginResult = LoginResult(success: bool, slot: Slot)

  /** A session after a user action, and where the page goes next (`None` when it stays). */
  datatype Step = Step(slot: Slot, redirect: Option<string>)

  /** Lines 44-51: only the test e-mail with the test password logs in; a
      failed attempt touches nothing. */
  function SimulateLogin(slot: Slot, email: string, password: string): (r: LoginResult)
    ensures r.success <==> email == TEST_EMAIL && password == TEST_PASSWORD
    ensures r.success ==> IsAuthenticated(r.slot)
    ensures !r.success ==> r.slot == slot
  {
    if email == TEST_EMAIL && password == TEST_PASSWORD then LoginResult(true, Some(Text(ACTIVE)))
    else LoginResult(false, slot)
  }

  /** Lines 77-87, the login form's submit handler: success goes to the dashboard,
      failure removes the session key and stays on the page. */
  function SubmitLogin(slot: Slot, email: string, password: string): (r: Step)
    ensures IsAuthenticated(r.slot) <==> email == TEST_EMAIL && password == TEST_PASSWORD
    ensures !IsAuthenticated(r.slot) ==> r.slot.None?
    ensures r.redirect.Some? <==> IsAuthenticated(r.slot)
    ensures r.redirect.Some? ==> r.redirect.value == DASHBOARD_URL
  {
    var attempt := SimulateLogin(slot, email, password);
    if attempt.success then Step(attempt.slot, Some(DASHBOARD_URL))
    else Step(None, None)
  }

  /** Lines 56-60: remove the session and go to the landing page. */
  function HandleLogout(slot: Slot): (r: Step)
    ensures !IsAuthenticated(r.slot) && r.slot.None?
    ensures r.redirect == Some(HOME_URL)
  {
    Step(None, Some(HOME_URL))
  }

  /** Lines 35-39: send visitors who are not logged in to `targetUrl`. */
  function RequireAuthentication(slot: Slot, targetUrl: string): (r: Option<string>)
    ensures r.Some? <==> !IsAuthenticated(slot)
    ensures r.Some? ==> r.value == targetUrl
  {
    if !IsAuthenticated(slot) then Some(targetUrl) else None
  }

  /** Lines 24-28: send visitors who are logged in to `targetUrl`. */
  function RequireUnauthenticated(slot: Slot, targetUrl: string): (r: Option<string>)
    ensures r.Some? <==> IsAuthenticated(slot)
    ensures r.Some? ==> r.value == targetUrl
  {
    if IsAuthenticated(slot) then Some(targetUrl) else None
  }

  /** Line 73: opening the login page with the default target. */
  function OpenLoginPage(slot: Slot): (r: Option<string>)
    ensures r == (if IsAuthenticated(slot) then Some(DASHBOARD_URL) else None)
  {
    RequireUnauthenticated(slot, DASHBOARD_URL)
  }

  /** In every state exactly one of the two guards redirects. */
  lemma GuardsExclusive(slot: Slot, toLogin: string, toDashboard: string)
    ensures RequireAuthentication(slot, toLogin).Some? != RequireUnauthenticated(slot, toDashboard).Some?
  {
  }

  /** A successful submit lets the dashboard guard through and makes the login page
      bounce to the dashboard; a logout afterwards sends the dashboard back to login. */
  lemma LoginLogoutCycle(slot: Slot)
    ensures var s1 := SubmitLogin(slot, TEST_EMAIL, TEST_PASSWORD).slot;
            && RequireAuthentication(s1, LOGIN_URL) == None
            && OpenLoginPage(s1) == Some(DASHBOARD_URL)
            && RequireAuthentication(HandleLogout(s1).slot, LOGIN_URL) == Some(LOGIN_URL)
  {
  }

  /** A failed submit always leaves the visitor logged out, whatever the session was. */
  lemma FailedSubmitLogsOut(slot: Slot, email: string, password: string)
    requires email != TEST_EMAIL || password != TEST_PASSWORD
    ensures !IsAuthenticated(SubmitLogin(slot, email, password).slot)
    ensures RequireAuthentication(SubmitLogin(slot, email, password).slot, LOGIN_URL) == Some(LOGIN_URL)
  {
  }
}
