/** The records of the ticket store (public/js/tickets.js and public/js/app.js):
    tickets as they sit in browser storage, the field bundle a form submits, the
    three known statuses, and order-preserving selection of tickets. */
module TicketModel {
  import opened Options
  import Strings

  /** The three statuses a ticket is meant to have. */
  datatype Status = Open | InProgress | Closed {
    /** The string stored in a ticket's `status` field. */
    function Name(): string {
      match this
      case Open => "open"
      case InProgress => "in_progress"
      case Closed => "closed"
    }
  }

  /** `VALID_STATUSES` (tickets.js) and `ALLOWED_STATUSES` (app.js), in their order. */
  const VALID_STATUSES: seq<string> := [Open.Name(), InProgress.Name(), Closed.Name()]

  /** `VALID_STATUSES.includes(s)`. */
  predicate IsValidStatus(s: string) {
    s in VALID_STATUSES
  }

  /** Reads a status string back into a `Status`, if it names one. */
  function ParseStatus(s: string): (r: Option<Status>)
    ensures r.Some? <==> IsValidStatus(s)
    ensures r.Some? ==> r.value.Name() == s
  {
    if s == "open" then Some(Open)
    else if s == "in_progress" then Some(InProgress)
    else if s == "closed" then Some(Closed)
    else None
  }

  /** Naming a status and parsing it back gives the status again. */
  lemma ParseName(st: Status)
    ensures ParseStatus(st.Name()) == Some(st)
  {
  }

  /** A stored ticket. `status` is the raw stored string: storage may hold any
      string there, not only the three known ones. `priority` may be absent: an
      edit whose form has no priority field spreads `undefined` over it and the
      JSON encoding then drops the key. */
  datatype Ticket = Ticket(
    id: int,
    title: string,
    status: string,
    priority: Option<string>,
    assignedTo: string,
    description: string,
    created: string)

  /** The field bundle `ticketData` that is validated and then written over a
      ticket. `title` and `status` are optional because the validators accept
      objects in which they are missing. */
  datatype Fields = Fields(
    title: Option<string>,
    status: Option<string>,
    description: string,
    priority: Option<string>,
    assignedTo: string)

  /** The title check shared by both validators: missing, or blank once trimmed. */
  predicate TitleMissing(title: Option<string>) {
    title.None? || Strings.JsTrim(title.value) == ""
  }

  /** The status check shared by both validators: missing, or not a known status. */
  predicate StatusUnknown(status: Option<string>) {
    status.None? || !IsValidStatus(status.value)
  }

  /** A ticket that passes both checks: what every ticket written by a save satisfies. */
  predicate WellFormed(t: Ticket) {
    !Strings.IsBlank(t.title) && IsValidStatus(t.status)
  }

  /** The title check holds exactly for missing or all-white-space titles. */
  lemma TitleMissingIff(title: Option<string>)
    ensures TitleMissing(title) <==> (title.None? || Strings.IsBlank(title.value))
  {
    if title.Some? {
      Strings.JsTrimEmptyIffBlank(title.value);
    }
  }

  /** The status check passes exactly for the names of the three statuses. */
  lemma StatusUnknownIff(status: Option<string>)
    ensures !StatusUnknown(status) <==> exists st: Status :: status == Some(st.Name())
  {
    if !StatusUnknown(status) {
      var st := ParseStatus(status.value).value;
      assert status == Some(st.Name());
    }
  }

  /** The ids present in a collection. */
  function Ids(ts: seq<Ticket>): set<int> {
    set i | 0 <= i < |ts| :: ts[i].id
  }

  /** No two tickets share an id. */
  predicate UniqueIds(ts: seq<Ticket>) {
    forall i, j :: 0 <= i < j < |ts| ==> ts[i].id != ts[j].id
  }

  /** The per-ticket tests used to select tickets. */
  datatype Criterion =
    | StatusIs(status: string)      // `t.status === status`
    | StatusNotValid                // status outside the three known ones
    | IdIs(id: int)                 // `t.id == id`
    | IdIsNot(id: int)              // `t.id != id`

  predicate Matches(c: Criterion, t: Ticket) {
    match c
    case StatusIs(s) => t.status == s
    case StatusNotValid => !IsValidStatus(t.status)
    case IdIs(k) => t.id == k
    case IdIsNot(k) => t.id != k
  }

  /** `Array.prototype.filter`: the tickets meeting `c`, in their original order. */
  function Select(ts: seq<Ticket>, c: Criterion): (r: seq<Ticket>)
    ensures |r| <= |ts|
    ensures forall t :: t in r <==> t in ts && Matches(c, t)
  {
    if ts == [] then []
    else
      (if Matches(c, ts[0]) then [ts[0]] else []) + Select(ts[1..], c)
  }

  /** The number of tickets meeting `c`. */
  function Count(ts: seq<Ticket>, c: Criterion): nat {
    |Select(ts, c)|
  }

  /** Counting peels off the first ticket. */
  lemma CountFirst(ts: seq<Ticket>, c: Criterion)
    requires ts != []
    ensures Count(ts, c) == (if Matches(c, ts[0]) then 1 else 0) + Count(ts[1..], c)
  {
  }

  /** Selection distributes over concatenation, which is what keeping the
      original relative order means. */
  lemma {:induction false} SelectAppend(a: seq<Ticket>, b: seq<Ticket>, c: Criterion)
    ensures Select(a + b, c) == Select(a, c) + Select(b, c)
  {
    if a == [] {
      assert a + b == b;
    } else {
      assert (a + b)[1..] == a[1..] + b;
      SelectAppend(a[1..], b, c);
    }
  }

  /** When every ticket meets `c`, selection is the identity. */
  lemma {:induction false} SelectAll(ts: seq<Ticket>, c: Criterion)
    requires forall i :: 0 <= i < |ts| ==> Matches(c, ts[i])
    ensures Select(ts, c) == ts
  {
    if ts != [] {
      SelectAll(ts[1..], c);
    }
  }

  /** When no ticket meets `c`, selection is empty. */
  lemma {:induction false} SelectNone(ts: seq<Ticket>, c: Criterion)
    requires forall i :: 0 <= i < |ts| ==> !Matches(c, ts[i])
    ensures Select(ts, c) == []
  {
    if ts != [] {
      SelectNone(ts[1..], c);
    }
  }

  /** The tickets with id `k`: exactly one in a collection with unique ids that
      contains `k`. */
  lemma {:induction false} SelectUniqueId(ts: seq<Ticket>, k: int)
    requires UniqueIds(ts) && k in Ids(ts)
    ensures |Select(ts, IdIs(k))| == 1
    ensures |Select(ts, IdIsNot(k))| == |ts| - 1
  {
    if ts[0].id == k {
      SelectNone(ts[1..], IdIs(k));
      SelectAll(ts[1..], IdIsNot(k));
    } else {
      assert k in Ids(ts[1..]) by {
        var i :| 0 <= i < |ts| && ts[i].id == k;
        assert ts[1..][i - 1].id == k;
      }
      SelectUniqueId(ts[1..], k);
    }
  }
}
