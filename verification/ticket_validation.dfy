/** `validateTicket` of public/js/tickets.js: the gate every save passes. */
module TicketValidation {
  import opened Options
  import Strings
  import opened TicketModel

  const TITLE_ERROR := "Ticket title cannot be empty."
  const STATUS_ERROR := "Status must be one of: 'open', 'in_progress', or 'closed'."

  /** The `{ isValid, titleError, statusError }` object; an empty error string
      means that field passed. */
  datatype Verdict = Verdict(isValid: bool, titleError: string, statusError: string)

  /** Both checks run independently, so a candidate failing both gets both messages. */
  function Validate(data: Fields): (v: Verdict)
    ensures v.titleError != "" <==> (data.title.None? || Strings.IsBlank(data.title.value))
    ensures v.statusError != "" <==> !exists st: Status :: data.status == Some(st.Name())
    ensures v.titleError != "" ==> v.titleError == TITLE_ERROR
    ensures v.statusError != "" ==> v.statusError == STATUS_ERROR
    ensures v.isValid <==> v.titleError == "" && v.statusError == ""
  {
    TitleMissingIff(data.title);
    StatusUnknownIff(data.status);
    var titleFails := TitleMissing(data.title);
    var statusFails := StatusUnknown(data.status);
    Verdict(
      !titleFails && !statusFails,
      if titleFails then TITLE_ERROR else "",
      if statusFails then STATUS_ERROR else "")
  }
}
