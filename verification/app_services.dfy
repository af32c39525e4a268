/** public/js/app.js: `TicketService.validateTicket`, a second validator that
    returns a list of messages, and `AuthService`, a credential check that writes
    a user record under the same session key public/js/auth.js uses. */
module AppServices {
  import opened Options
  import Strings
  import opened TicketModel
  import TicketValidation
  import Session

  // ------------------------------------------------------------- TicketService

  const TITLE_MANDATORY := "Title field is mandatory and cannot be empty."
  /** The status message embeds `ALLOWED_STATUSES.join(', ')`. */
  const STATUS_MANDATORY := "Status field is mandatory and must be one of: open, in_progress, closed."

  /** The `{ isValid, errors }` object. */
  datatype Report = Report(isValid: bool, errors: seq<string>)

  /** Lines 62-82: the title message, then the status message, each when its check fails. */
  function ValidateTicket(ticket: Fields): (r: Report)
    ensures r.isValid <==> r.errors == []
    ensures TITLE_MANDATORY in r.errors <==> (ticket.title.None? || Strings.IsBlank(ticket.title.value))
    ensures STATUS_MANDATORY in r.errors <==> !exists st: Status :: ticket.status == Some(st.Name())
    ensures forall e :: e in r.errors ==> e == TITLE_MANDATORY || e == STATUS_MANDATORY
    ensures |r.errors| <= 2
    ensures |r.errors| == 2 ==> r.errors == [TITLE_MANDATORY, STATUS_MANDATORY]
  {
    TitleMissingIff(ticket.title);
    StatusUnknownIff(ticket.status);
    var errors := (if TitleMissing(ticket.title) then [TITLE_MANDATORY] else [])
                  + (if StatusUnknown(ticket.status) then [STATUS_MANDATORY] else []);
    if |errors| > 0 then Report(false, errors) else Report(true, [])
  }

  /** The two validators agree: each message is reported exactly when the other
      validator sets the matching error, so they accept the same candidates. */
  lemma ValidatorsAgree(ticket: Fields)
    ensures ValidateTicket(ticket).isValid == TicketValidation.Validate(ticket).isValid
    ensures (TITLE_MANDATORY in ValidateTicket(ticket).errors) == (TicketValidation.Validate(ticket).titleError != "")
    ensures (STATUS_MANDATORY in ValidateTicket(ticket).errors) == (TicketValidation.Validate(ticket).statusError != "")
  {
    var r := ValidateTicket(ticket);
    var v := TicketValidation.Validate(ticket);
    if !r.isValid {
      assert r.errors[0] in r.errors;
    }
  }

  // ------------------------------------------------------------- AuthService

  /** Lines 7-11. */
  const USER_CREDENTIALS: map<string, string> := map["testuser" := "password123", "admin" := "adminpass"]

  /** Lines 36-44: a session counts when the key holds a record with
      `isAuthenticated: true`. A `Text` value stands for text that is not such a
      record, like auth.js's `active`, which does not parse as JSON; other JSON
      text carrying the flag is not modelled, so every `Text` value fails. */
  predicate IsAuthenticated(slot: Session.Slot) {
    slot.Some? && slot.value.UserRecord?
  }

  /** Lines 14-27: `USER_CREDENTIALS[username] === password`; a failure leaves the
      session alone. */
  function Login(slot: Session.Slot, username: string, password: string): (r: Session.LoginResult)
    ensures r.success <==> (username, password) in {("testuser", "password123"), ("admin", "adminpass")}
    ensures r.success ==> r.slot == Some(Session.UserRecord(username)) && IsAuthenticated(r.slot)
    ensures !r.success ==> r.slot == slot
  {
    if username in USER_CREDENTIALS && USER_CREDENTIALS[username] == password then
      Session.LoginResult(true, Some(Session.UserRecord(username)))
    else
      Session.LoginResult(false, slot)
  }

  /** Lines 29-34: remove the session key and go to the login page. */
  function Logout(slot: Session.Slot): (r: Session.Step)
    ensures r.slot.None? && !IsAuthenticated(r.slot)
    ensures r.redirect == Some(Session.LOGIN_URL)
  {
    Session.Step(None, Some(Session.LOGIN_URL))
  }

  /** The two scripts never both see a login: a session written by one is not
      accepted by the other, so a successful `AuthService.login` still leaves the
      auth.js dashboard guard redirecting to the login page. */
  lemma SessionsDisagree(slot: Session.Slot, username: string, password: string)
    ensures !(IsAuthenticated(slot) && Session.IsAuthenticated(slot))
    ensures Login(slot, username, password).success ==>
              Session.RequireAuthentication(Login(slot, username, password).slot, Session.LOGIN_URL).Some?
  {
  }
}
