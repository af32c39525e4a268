/** `calculateTicketSummary` of public/js/tickets.js: the dashboard cards and the
    filter-tab counts. */
module TicketSummary {
  import opened TicketModel

  /** The object `{ total, open, in_progress, closed }`. */
  datatype Summary = Summary(total: int, open: int, inProgress: int, closed: int)

  /** The count shown for one status. */
  function Bucket(s: Summary, st: Status): int {
    match st
    case Open => s.open
    case InProgress => s.inProgress
    case Closed => s.closed
  }

  /** `if (summary.hasOwnProperty(status)) summary[status]++`. The summary object
      owns exactly the four keys it was built with, so a status spelled `total`
      bumps the total; any other unknown status bumps nothing. */
  function Bump(s: Summary, status: string): (r: Summary)
    ensures forall st: Status :: Bucket(r, st) == Bucket(s, st) + (if status == st.Name() then 1 else 0)
    ensures r.total == s.total + (if status == "total" then 1 else 0)
    ensures r == s <==> status !in {"total", Open.Name(), InProgress.Name(), Closed.Name()}
  {
    if status == "total" then s.(total := s.total + 1)
    else if status == "open" then s.(open := s.open + 1)
    else if status == "in_progress" then s.(inProgress := s.inProgress + 1)
    else if status == "closed" then s.(closed := s.closed + 1)
    else s
  }

  /** The `forEach` over the tickets, from the first to the last. */
  function Tally(s: Summary, ts: seq<Ticket>): (r: Summary)
    ensures r.total == s.total + Count(ts, StatusIs("total"))
    ensures r.open == s.open + Count(ts, StatusIs(Open.Name()))
    ensures r.inProgress == s.inProgress + Count(ts, StatusIs(InProgress.Name()))
    ensures r.closed == s.closed + Count(ts, StatusIs(Closed.Name()))
    decreases |ts|
  {
    if ts == [] then s
    else
      CountFirst(ts, StatusIs("total"));
      CountFirst(ts, StatusIs(Open.Name()));
      CountFirst(ts, StatusIs(InProgress.Name()));
      CountFirst(ts, StatusIs(Closed.Name()));
      Tally(Bump(s, ts[0].status), ts[1..])
  }

  /** The summary starts with `total` set to the number of tickets and all three
      buckets at zero. */
  function Summarize(ts: seq<Ticket>): (s: Summary)
    ensures s.total == |ts| + Count(ts, StatusIs("total"))
    ensures forall st: Status :: Bucket(s, st) == Count(ts, StatusIs(st.Name()))
  {
    Tally(Summary(|ts|, 0, 0, 0), ts)
  }

  /** Every ticket has exactly one of the three known statuses or an unknown one. */
  lemma {:induction false} StatusPartition(ts: seq<Ticket>)
    ensures Count(ts, StatusIs(Open.Name())) + Count(ts, StatusIs(InProgress.Name()))
            + Count(ts, StatusIs(Closed.Name())) + Count(ts, StatusNotValid) == |ts|
  {
    if ts != [] {
      StatusPartition(ts[1..]);
    }
  }

  /** Tickets whose status is `total` are among those with an unknown status. */
  lemma {:induction false} TotalStatusIsUnknown(ts: seq<Ticket>)
    ensures Count(ts, StatusIs("total")) <= Count(ts, StatusNotValid)
  {
    if ts != [] {
      TotalStatusIsUnknown(ts[1..]);
    }
  }

  /** No unknown status is counted exactly when every status is known. */
  lemma NoneUnknownIff(ts: seq<Ticket>)
    ensures Count(ts, StatusNotValid) == 0 <==> forall i :: 0 <= i < |ts| ==> IsValidStatus(ts[i].status)
  {
    if forall i :: 0 <= i < |ts| ==> IsValidStatus(ts[i].status) {
      SelectNone(ts, StatusNotValid);
    } else {
      var i :| 0 <= i < |ts| && !IsValidStatus(ts[i].status);
      assert ts[i] in Select(ts, StatusNotValid);
    }
  }

  /** The three buckets never exceed the total, and they add up to it exactly
      when every stored status is one of the three known ones. */
  lemma SummaryBounds(ts: seq<Ticket>)
    ensures var s := Summarize(ts);
            s.open + s.inProgress + s.closed <= s.total
    ensures var s := Summarize(ts);
            s.open + s.inProgress + s.closed == s.total
            <==> forall i :: 0 <= i < |ts| ==> IsValidStatus(ts[i].status)
  {
    var s := Summarize(ts);
    assert Bucket(s, Open) == s.open && Bucket(s, InProgress) == s.inProgress && Bucket(s, Closed) == s.closed;
    StatusPartition(ts);
    TotalStatusIsUnknown(ts);
    NoneUnknownIff(ts);
  }

  /** The total is the number of tickets unless some status is literally `total`. */
  lemma TotalIsLength(ts: seq<Ticket>)
    ensures Summarize(ts).total >= |ts|
    ensures Summarize(ts).total == |ts| <==> forall i :: 0 <= i < |ts| ==> ts[i].status != "total"
  {
    if forall i :: 0 <= i < |ts| ==> ts[i].status != "total" {
      SelectNone(ts, StatusIs("total"));
    } else {
      var i :| 0 <= i < |ts| && ts[i].status == "total";
      assert ts[i] in Select(ts, StatusIs("total"));
    }
  }
}
