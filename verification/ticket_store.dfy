/** The collection logic of public/js/tickets.js: the first-run seed, `loadTickets`,
    and what `handleSaveTicket` and `handleDeleteTicket` do to the stored
    collection. The storage slot is `Option<seq<Ticket>>` (an absent key is
    `None`); the clock and the confirmation dialog are parameters. */
module TicketStore {
  import opened Options
  import Strings
  import opened TicketModel
  import opened TicketValidation
  import opened TicketSummary

  // ---------------------------------------------------------------- the form

  /** The ticket form as `handleSaveTicket` reads it. `id` is `None` when the
      hidden id field is empty; `priority` and `assignedTo` are `None` when their
      form element is missing. */
  datatype Form = Form(
    id: Option<int>,
    title: string,
    status: string,
    priority: Option<string>,
    description: string,
    assignedTo: Option<string>)

  const UNASSIGNED := "Unassigned"

  /** Lines 178-184: `ticketData`, with `assignedTo` defaulting when missing or empty. */
  function FieldsOf(f: Form): (d: Fields)
    ensures d.title == Some(f.title) && d.status == Some(f.status)
    ensures d.description == f.description && d.priority == f.priority
    ensures d.assignedTo != ""
    ensures f.assignedTo.Some? && f.assignedTo.value != "" ==> d.assignedTo == f.assignedTo.value
    ensures !(f.assignedTo.Some? && f.assignedTo.value != "") ==> d.assignedTo == UNASSIGNED
  {
    var assignee := if f.assignedTo.Some? && f.assignedTo.value != "" then f.assignedTo.value else UNASSIGNED;
    Fields(Some(f.title), Some(f.status), f.description, f.priority, assignee)
  }

  /** `t` holds exactly the editable fields of `d`. */
  predicate Carries(t: Ticket, d: Fields) {
    && d.title == Some(t.title)
    && d.status == Some(t.status)
    && d.description == t.description
    && d.priority == t.priority
    && d.assignedTo == t.assignedTo
  }

  // ------------------------------------------------------------- save

  /** `tickets.findIndex(t => t.id == id)`: the first position holding `id`. */
  function FindIndex(ts: seq<Ticket>, id: int): (r: Option<nat>)
    ensures r.Some? <==> id in Ids(ts)
    ensures r.Some? ==> FirstWithId(ts, r.value, id)
  {
    if ts == [] then None
    else if ts[0].id == id then Some(0)
    else
      var r := FindIndex(ts[1..], id);
      assert id in Ids(ts) <==> id in Ids(ts[1..]) by {
        if id in Ids(ts) {
          var i :| 0 <= i < |ts| && ts[i].id == id;
          assert ts[1..][i - 1].id == id;
        }
        if id in Ids(ts[1..]) {
          var i :| 0 <= i < |ts[1..]| && ts[1..][i].id == id;
          assert ts[i + 1].id == id;
        }
      }
      if r.Some? then Some(r.value + 1) else None
  }

  /** Position `i` is the first one holding id `k`. */
  ghost predicate FirstWithId(ts: seq<Ticket>, i: int, k: int) {
    0 <= i < |ts| && ts[i].id == k && forall j :: 0 <= j < i ==> ts[j].id != k
  }

  /** `after` is `before` with position `i` rewritten from `d`, keeping its id and
      creation time, and every other position untouched. */
  ghost predicate UpdatedAt(before: seq<Ticket>, after: seq<Ticket>, i: int, d: Fields) {
    && |after| == |before|
    && 0 <= i < |before|
    && after[i].id == before[i].id
    && after[i].created == before[i].created
    && Carries(after[i], d)
    && forall j :: 0 <= j < |before| && j != i ==> after[j] == before[j]
  }

  /** `after` is `before` followed by one ticket with id `id`, creation time
      `created` and the fields of `d`. */
  ghost predicate Appended(before: seq<Ticket>, after: seq<Ticket>, d: Fields, id: int, created: string) {
    && |after| == |before| + 1
    && after[..|before|] == before
    && after[|before|].id == id
    && after[|before|].created == created
    && Carries(after[|before|], d)
  }

  /** Line 201: `{ ...tickets[index], ...ticketData }`. */
  function Overwrite(t: Ticket, d: Fields): (u: Ticket)
    requires d.title.Some? && d.status.Some?
    ensures u.id == t.id && u.created == t.created
    ensures Carries(u, d)
  {
    t.(title := d.title.value, status := d.status.value, description := d.description,
       priority := d.priority, assignedTo := d.assignedTo)
  }

  /** Lines 205-209: `{ id: Date.now(), ...ticketData, created: <ISO time> }`. */
  function NewTicket(d: Fields, now: int, iso: string): (t: Ticket)
    requires d.title.Some? && d.status.Some?
    ensures t.id == now && t.created == iso
    ensures Carries(t, d)
  {
    Ticket(now, d.title.value, d.status.value, d.priority, d.assignedTo, d.description, iso)
  }

  /** What a save reports and the collection it leaves behind. */
  datatype SaveResult = SaveResult(verdict: Verdict, tickets: seq<Ticket>)

  /** `handleSaveTicket` on the collection `ts`; `now` stands for `Date.now()` and
      `iso` for the ISO time stamp. An invalid form changes nothing. An edit
      rewrites the first ticket with the form's id in place, or silently does
      nothing when no ticket has that id. A new ticket is appended with id `now`,
      which is not checked against the ids already present. */
  function Save(ts: seq<Ticket>, form: Form, now: int, iso: string): (r: SaveResult)
    ensures r.verdict == Validate(FieldsOf(form))
    ensures !r.verdict.isValid ==> r.tickets == ts
    ensures r.verdict.isValid && form.id.None? ==> Appended(ts, r.tickets, FieldsOf(form), now, iso)
    ensures r.verdict.isValid && form.id.Some? && form.id.value !in Ids(ts) ==> r.tickets == ts
    ensures r.verdict.isValid && form.id.Some? && form.id.value in Ids(ts) ==>
              exists i :: FirstWithId(ts, i, form.id.value) && UpdatedAt(ts, r.tickets, i, FieldsOf(form))
  {
    var data := FieldsOf(form);
    var verdict := Validate(data);
    if !verdict.isValid then SaveResult(verdict, ts)
    else if form.id.Some? then
      match FindIndex(ts, form.id.value)
      case Some(i) =>
        var after := ts[i := Overwrite(ts[i], data)];
        assert UpdatedAt(ts, after, i, data);
        SaveResult(verdict, after)
      case None => SaveResult(verdict, ts)
    else
      SaveResult(verdict, ts + [NewTicket(data, now, iso)])
  }

  // ------------------------------------------------------------- delete

  /** `handleDeleteTicket`: when the user confirms, keep the tickets whose id
      differs from `id`, in order. */
  function Delete(ts: seq<Ticket>, id: int, confirmed: bool): (r: seq<Ticket>)
    ensures !confirmed ==> r == ts
    ensures confirmed ==> forall t :: t in r <==> t in ts && t.id != id
    ensures confirmed ==> |r| == |ts| - Count(ts, IdIs(id))
    ensures id !in Ids(ts) ==> r == ts
  {
    if confirmed then
      IdCriteriaSplit(ts, id);
      assert id !in Ids(ts) ==> Select(ts, IdIsNot(id)) == ts by {
        if id !in Ids(ts) {
          SelectAll(ts, IdIsNot(id));
        }
      }
      Select(ts, IdIsNot(id))
    else ts
  }

  /** Every ticket either has id `k` or does not. */
  lemma {:induction false} IdCriteriaSplit(ts: seq<Ticket>, k: int)
    ensures Count(ts, IdIs(k)) + Count(ts, IdIsNot(k)) == |ts|
  {
    if ts != [] {
      IdCriteriaSplit(ts[1..], k);
    }
  }

  /** Deleting keeps the relative order of the tickets that stay. */
  lemma DeleteKeepsOrder(a: seq<Ticket>, b: seq<Ticket>, id: int)
    ensures Delete(a + b, id, true) == Delete(a, id, true) + Delete(b, id, true)
  {
    SelectAppend(a, b, IdIsNot(id));
  }

  /** In a collection with unique ids, deleting a present id removes exactly one ticket. */
  lemma DeleteRemovesOne(ts: seq<Ticket>, id: int)
    requires UniqueIds(ts) && id in Ids(ts)
    ensures |Delete(ts, id, true)| == |ts| - 1
    ensures id !in Ids(Delete(ts, id, true))
  {
    SelectUniqueId(ts, id);
  }

  // ------------------------------------------------------------- invariants

  /** The store invariant: every ticket well formed and ids unique. */
  predicate Consistent(ts: seq<Ticket>) {
    (forall i :: 0 <= i < |ts| ==> WellFormed(ts[i])) && UniqueIds(ts)
  }

  /** A ticket carrying validated fields is well formed. */
  lemma CarriesValid(t: Ticket, d: Fields)
    requires Validate(d).isValid && Carries(t, d)
    ensures WellFormed(t)
  {
  }

  /** A save keeps the invariant, provided a new ticket's id is not already taken. */
  lemma SaveKeepsConsistent(ts: seq<Ticket>, form: Form, now: int, iso: string)
    requires Consistent(ts)
    requires form.id.None? ==> now !in Ids(ts)
    ensures Consistent(Save(ts, form, now, iso).tickets)
  {
    var r := Save(ts, form, now, iso);
    var d := FieldsOf(form);
    if r.verdict.isValid {
      if form.id.None? {
        AppendKeepsConsistent(ts, r.tickets, d, now, iso);
      } else if form.id.value in Ids(ts) {
        var i :| FirstWithId(ts, i, form.id.value) && UpdatedAt(ts, r.tickets, i, d);
        UpdateKeepsConsistent(ts, r.tickets, i, d);
      }
    }
  }

  /** Appending a valid ticket with an unused id keeps the invariant. */
  lemma AppendKeepsConsistent(ts: seq<Ticket>, after: seq<Ticket>, d: Fields, now: int, iso: string)
    requires Consistent(ts) && Validate(d).isValid && now !in Ids(ts)
    requires Appended(ts, after, d, now, iso)
    ensures Consistent(after)
  {
    CarriesValid(after[|ts|], d);
    forall i | 0 <= i < |ts|
      ensures after[i] == ts[i]
    {
      assert after[..|ts|][i] == after[i];
    }
    forall i, j | 0 <= i < j < |after|
      ensures after[i].id != after[j].id
    {
      if j == |ts| {
        assert after[i].id in Ids(ts);
      }
    }
  }

  /** Rewriting one ticket from valid fields, keeping its id, keeps the invariant. */
  lemma UpdateKeepsConsistent(ts: seq<Ticket>, after: seq<Ticket>, i: int, d: Fields)
    requires Consistent(ts) && Validate(d).isValid
    requires UpdatedAt(ts, after, i, d)
    ensures Consistent(after)
  {
    CarriesValid(after[i], d);
  }

  /** Selection keeps ids unique. */
  lemma {:induction false} SelectKeepsUnique(ts: seq<Ticket>, c: Criterion)
    requires UniqueIds(ts)
    ensures UniqueIds(Select(ts, c))
  {
    if ts != [] {
      SelectKeepsUnique(ts[1..], c);
      var rest := Select(ts[1..], c);
      forall j | 0 <= j < |rest|
        ensures rest[j].id != ts[0].id
      {
        assert rest[j] in ts[1..];
      }
    }
  }

  /** A delete keeps the invariant. */
  lemma DeleteKeepsConsistent(ts: seq<Ticket>, id: int, confirmed: bool)
    requires Consistent(ts)
    ensures Consistent(Delete(ts, id, confirmed))
  {
    if confirmed {
      SelectKeepsUnique(ts, IdIsNot(id));
      var r := Delete(ts, id, confirmed);
      forall i | 0 <= i < |r|
        ensures WellFormed(r[i])
      {
        assert r[i] in ts;
      }
    }
  }

  // ------------------------------------------------------------- seed and load

  /** Lines 12-17: the four example tickets. The four clock readings of the
      source are taken as one stamp. */
  function SeedTickets(created: string): (r: seq<Ticket>)
    ensures |r| == 4
    ensures forall i :: 0 <= i < |r| ==> r[i].id == i + 1 && r[i].created == created
  {
    [ Ticket(1, "Database connection failing after update", "open", Some("High"), "Alice",
             "Intermittent connection failures after deploying v1.2.", created),
      Ticket(2, "Login button intermittently non-responsive", "open", Some("Medium"), "Bob",
             "Reported by three users this morning.", created),
      Ticket(3, "Refactor ticket filtering logic", "in_progress", Some("High"), "Charlie",
             "Requires review of backend filtering criteria.", created),
      Ticket(4, "Need to update footer copyright year", "closed", Some("Low"), "Alice",
             "Change 2024 to 2025.", created) ]
  }

  /** Lines 11-18: seed the storage slot when `getItem` gives a falsy value,
      which among the modelled values is only the absent key. A stored empty
      array is truthy text and is left alone. */
  function Boot(stored: Option<seq<Ticket>>, now: string): (r: Option<seq<Ticket>>)
    ensures r.Some?
    ensures stored.Some? ==> r == stored
    ensures stored.None? ==> r.value == SeedTickets(now)
  {
    if stored.None? then Some(SeedTickets(now)) else stored
  }

  /** `loadTickets`: an absent key reads as the empty collection. */
  function LoadTickets(stored: Option<seq<Ticket>>): (r: seq<Ticket>)
    ensures stored.Some? ==> r == stored.value
    ensures stored.None? ==> r == []
  {
    stored.GetOr([])
  }

  /** On empty storage the first load returns the four seeded tickets, with ids
      1 to 4 and statuses open, open, in_progress, closed. */
  lemma FirstLoadIsSeed(now: string)
    ensures var ts := LoadTickets(Boot(None, now));
            && |ts| == 4
            && (forall i :: 0 <= i < 4 ==> ts[i].id == i + 1)
            && [ts[0].status, ts[1].status, ts[2].status, ts[3].status]
               == [Open.Name(), Open.Name(), InProgress.Name(), Closed.Name()]
  {
  }

  /** The four seed titles are not blank: each starts with a capital letter. */
  lemma SeedTitlesNotBlank()
    ensures !Strings.IsBlank("Database connection failing after update")
    ensures !Strings.IsBlank("Login button intermittently non-responsive")
    ensures !Strings.IsBlank("Refactor ticket filtering logic")
    ensures !Strings.IsBlank("Need to update footer copyright year")
  {
    var a, b, c, d := "Database connection failing after update", "Login button intermittently non-responsive",
                      "Refactor ticket filtering logic", "Need to update footer copyright year";
    assert a[0] == 'D' && b[0] == 'L' && c[0] == 'R' && d[0] == 'N';
    assert !Strings.IsJsWhitespace(a[0]) && !Strings.IsJsWhitespace(b[0]);
    assert !Strings.IsJsWhitespace(c[0]) && !Strings.IsJsWhitespace(d[0]);
  }

  /** The seeded tickets satisfy the store invariant. */
  lemma SeedIsConsistent(now: string)
    ensures Consistent(SeedTickets(now))
  {
    var ts := SeedTickets(now);
    SeedTitlesNotBlank();
    assert WellFormed(ts[0]) && WellFormed(ts[1]);
    assert WellFormed(ts[2]) && WellFormed(ts[3]);
  }

  /** The dashboard shows the seed as 4 total, 2 open, 1 in progress, 1 closed. */
  lemma SeedSummary(now: string)
    ensures Summarize(SeedTickets(now)) == Summary(4, 2, 1, 1)
  {
    var ts := SeedTickets(now);
    var s := Summarize(ts);
    assert ts[0].status == ts[1].status == Open.Name();
    assert ts[2].status == InProgress.Name() && ts[3].status == Closed.Name();
    assert s.total == 4 by {
      SelectNone(ts, StatusIs("total"));
    }
    assert s.open == 2 by {
      CountOfFour(ts, StatusIs(Open.Name()));
      assert Bucket(s, Open) == s.open;
    }
    assert s.inProgress == 1 by {
      CountOfFour(ts, StatusIs(InProgress.Name()));
      assert Bucket(s, InProgress) == s.inProgress;
    }
    assert s.closed == 1 by {
      CountOfFour(ts, StatusIs(Closed.Name()));
      assert Bucket(s, Closed) == s.closed;
    }
  }

  /** Counting in a collection of four tickets, one at a time. */
  lemma CountOfFour(ts: seq<Ticket>, c: Criterion)
    requires |ts| == 4
    ensures Count(ts, c) == (if Matches(c, ts[0]) then 1 else 0) + (if Matches(c, ts[1]) then 1 else 0)
                            + (if Matches(c, ts[2]) then 1 else 0) + (if Matches(c, ts[3]) then 1 else 0)
  {
    CountFirst(ts, c);
    CountFirst(ts[1..], c);
    CountFirst(ts[2..], c);
    CountFirst(ts[3..], c);
    assert ts[1..][1..] == ts[2..] && ts[2..][1..] == ts[3..] && ts[3..][1..] == [];
  }

  /** A stored collection, even an empty one, is loaded as it is. */
  lemma LoadKeepsStored(ts: seq<Ticket>, now: string)
    ensures LoadTickets(Boot(Some(ts), now)) == ts
  {
  }

  /** The seed block runs at most once: booting again changes nothing. */
  lemma BootIdempotent(stored: Option<seq<Ticket>>, now: string, later: string)
    ensures Boot(Boot(stored, now), later) == Boot(stored, now)
  {
  }

  // ------------------------------------------------------------- sessions of use

  /** One user action on the tickets page. */
  datatype Action =
    | SaveAction(form: Form, now: int, iso: string)
    | DeleteAction(id: int, confirmed: bool)

  function Apply(ts: seq<Ticket>, a: Action): seq<Ticket> {
    match a
    case SaveAction(form, now, iso) => Save(ts, form, now, iso).tickets
    case DeleteAction(id, confirmed) => Delete(ts, id, confirmed)
  }

  /** The collection after a series of actions, each reloading what the previous one saved. */
  function Run(ts: seq<Ticket>, actions: seq<Action>): seq<Ticket>
    decreases |actions|
  {
    if actions == [] then ts else Run(Apply(ts, actions[0]), actions[1..])
  }

  /** Every create in the series gets a clock value not yet used as an id. */
  predicate FreshClock(ts: seq<Ticket>, actions: seq<Action>)
    decreases |actions|
  {
    actions != [] ==>
      && (actions[0].SaveAction? && actions[0].form.id.None? ==> actions[0].now !in Ids(ts))
      && FreshClock(Apply(ts, actions[0]), actions[1..])
  }

  /** Starting from a consistent collection, any series of saves and deletes whose
      creates get fresh clock values keeps ids unique and every ticket well formed. */
  lemma {:induction false} RunKeepsConsistent(ts: seq<Ticket>, actions: seq<Action>)
    requires Consistent(ts) && FreshClock(ts, actions)
    ensures Consistent(Run(ts, actions))
    decreases |actions|
  {
    if actions != [] {
      var next := Apply(ts, actions[0]);
      assert Consistent(next) by {
        match actions[0]
        case SaveAction(form, now, iso) => SaveKeepsConsistent(ts, form, now, iso);
        case DeleteAction(id, confirmed) => DeleteKeepsConsistent(ts, id, confirmed);
      }
      RunKeepsConsistent(next, actions[1..]);
    }
  }
}

/** Worked examples on the seeded collection. */
module TicketScenarios {
  import opened Options
  import Strings
  import opened TicketModel
  import opened TicketValidation
  import opened TicketListing
  import opened TicketStore

  /** Creating "Fix bug" with a clock value outside 1..4 adds a fifth ticket with
      that id and keeps the invariant. */
  lemma CreateOnSeed(now: int, iso: string, created: string)
    requires now !in {1, 2, 3, 4}
    ensures var r := Save(SeedTickets(created), Form(None, "Fix bug", "open", None, "", None), now, iso);
            && r.verdict.isValid
            && |r.tickets| == 5
            && r.tickets[4].id == now
            && Consistent(r.tickets)
  {
    var seed := SeedTickets(created);
    var form := Form(None, "Fix bug", "open", None, "", None);
    assert !Strings.IsJsWhitespace(form.title[0]);
    assert Ids(seed) == {1, 2, 3, 4} by {
      assert seed[0].id == 1 && seed[1].id == 2 && seed[2].id == 3 && seed[3].id == 4;
    }
    SeedIsConsistent(created);
    SaveKeepsConsistent(seed, form, now, iso);
  }

  /** A create with an empty title reports only the title error and changes nothing. */
  lemma EmptyTitleOnSeed(now: int, iso: string, created: string)
    ensures var r := Save(SeedTickets(created), Form(None, "", "open", None, "", None), now, iso);
            && r.verdict == Verdict(false, TITLE_ERROR, "")
            && r.tickets == SeedTickets(created)
  {
    var d := FieldsOf(Form(None, "", "open", None, "", None));
    assert d.status == Some(Open.Name());
  }

  /** Deleting ticket 2 leaves three tickets, none with id 2. */
  lemma DeleteOnSeed(created: string)
    ensures var r := Delete(SeedTickets(created), 2, true);
            |r| == 3 && 2 !in Ids(r)
  {
    var seed := SeedTickets(created);
    SeedIsConsistent(created);
    assert seed[1].id == 2;
    DeleteRemovesOne(seed, 2);
  }

  /** The `closed` tab shows only ticket 4. */
  lemma ClosedTabOnSeed(created: string)
    ensures FilterView(SeedTickets(created), "closed") == [SeedTickets(created)[3]]
  {
    var seed := SeedTickets(created);
    CountOfFour(seed, StatusIs("closed"));
    assert seed[3] in FilterView(seed, "closed");
    var r := FilterView(seed, "closed");
    assert |r| == 1;
    assert r[0] in seed && r[0].status == "closed";
  }
}
