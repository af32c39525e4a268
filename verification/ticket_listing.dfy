/** The data part of `renderTicketTable` in public/js/tickets.js: the status
    filter chosen by a tab, then `sort((a, b) => a.id - b.id)`. The sort is
    ECMAScript's `Array.prototype.sort`, which is stable. */
module TicketListing {
  import opened TicketModel
  import opened TicketSummary

  /** The tab value that shows every ticket. */
  const ALL_FILTER := "all"

  /** Lines 103-105: `all` shows everything, any other value the tickets whose
      status is exactly that value. */
  function FilterView(ts: seq<Ticket>, filter: string): (r: seq<Ticket>)
    ensures filter == ALL_FILTER ==> r == ts
    ensures filter != ALL_FILTER ==> forall t :: t in r <==> t in ts && t.status == filter
    ensures |r| <= |ts|
  {
    if filter != ALL_FILTER then Select(ts, StatusIs(filter)) else ts
  }

  /** Filtering keeps the relative order of what it keeps. */
  lemma FilterKeepsOrder(a: seq<Ticket>, b: seq<Ticket>, filter: string)
    ensures FilterView(a + b, filter) == FilterView(a, filter) + FilterView(b, filter)
  {
    if filter != ALL_FILTER {
      SelectAppend(a, b, StatusIs(filter));
    }
  }

  /** The row count of each status tab is the count its tab label shows (lines
      163-167), and the `all` tab lists the total minus the tickets whose status
      is the literal `total`. */
  lemma TabCountsMatchSummary(ts: seq<Ticket>, st: Status)
    ensures |FilterView(ts, st.Name())| == Bucket(Summarize(ts), st)
    ensures |FilterView(ts, ALL_FILTER)| + Count(ts, StatusIs("total")) == Summarize(ts).total
  {
  }

  /** Ascending by id. */
  predicate SortedById(ts: seq<Ticket>) {
    forall i, j :: 0 <= i < j < |ts| ==> ts[i].id <= ts[j].id
  }

  /** Places `t` before the first ticket whose id is not smaller. */
  function Insert(t: Ticket, ts: seq<Ticket>): (r: seq<Ticket>)
    requires SortedById(ts)
    ensures SortedById(r)
    ensures multiset(r) == multiset(ts) + multiset{t}
    decreases |ts|
  {
    if ts == [] || t.id <= ts[0].id then
      PrependSorted(t, ts);
      [t] + ts
    else
      var rest := Insert(t, ts[1..]);
      BoundedBelow(rest, ts[1..], t, ts[0].id);
      PrependSorted(ts[0], rest);
      HeadTail(ts);
      [ts[0]] + rest
  }

  /** A ticket whose id bounds a sorted collection from below can go first. */
  lemma PrependSorted(x: Ticket, ts: seq<Ticket>)
    requires SortedById(ts)
    requires ts == [] || x.id <= ts[0].id
    ensures SortedById([x] + ts)
  {
  }

  /** A non-empty collection is its head followed by its tail. */
  lemma HeadTail(ts: seq<Ticket>)
    requires ts != []
    ensures ts == [ts[0]] + ts[1..]
    ensures multiset(ts) == multiset{ts[0]} + multiset(ts[1..])
  {
    assert ts == [ts[0]] + ts[1..];
  }

  /** A rearrangement of `ts` plus `t` keeps any lower bound on ids they share. */
  lemma BoundedBelow(r: seq<Ticket>, ts: seq<Ticket>, t: Ticket, lo: int)
    requires multiset(r) == multiset(ts) + multiset{t}
    requires lo <= t.id && forall i :: 0 <= i < |ts| ==> lo <= ts[i].id
    ensures forall i :: 0 <= i < |r| ==> lo <= r[i].id
  {
    forall i | 0 <= i < |r|
      ensures lo <= r[i].id
    {
      assert r[i] in multiset(r);
      assert r[i] == t || r[i] in ts;
    }
  }

  /** Inserting `t` puts it ahead of every ticket already there with the same id. */
  lemma {:induction false} InsertSelect(t: Ticket, ts: seq<Ticket>, k: int)
    requires SortedById(ts)
    ensures Select(Insert(t, ts), IdIs(k)) == (if t.id == k then [t] else []) + Select(ts, IdIs(k))
    decreases |ts|
  {
    if ts == [] || t.id <= ts[0].id {
      assert Insert(t, ts) == [t] + ts;
      SelectAppend([t], ts, IdIs(k));
    } else {
      var rest := Insert(t, ts[1..]);
      assert Insert(t, ts) == [ts[0]] + rest;
      InsertSelect(t, ts[1..], k);
      SelectPast(t, ts, rest, k);
    }
  }

  /** The step of `InsertSelect` where `t` moves past the first ticket, whose id
      is smaller. */
  lemma SelectPast(t: Ticket, ts: seq<Ticket>, rest: seq<Ticket>, k: int)
    requires ts != [] && ts[0].id < t.id
    requires Select(rest, IdIs(k)) == (if t.id == k then [t] else []) + Select(ts[1..], IdIs(k))
    ensures Select([ts[0]] + rest, IdIs(k)) == (if t.id == k then [t] else []) + Select(ts, IdIs(k))
  {
    var c := IdIs(k);
    var mine := if t.id == k then [t] else [];
    var head := if ts[0].id == k then [ts[0]] else [];
    var tail := Select(ts[1..], c);
    assert Select([ts[0]], c) == head;
    SelectAppend([ts[0]], rest, c);
    assert ts == [ts[0]] + ts[1..];
    SelectAppend([ts[0]], ts[1..], c);
    EmptyCommutes(head, mine, tail);
  }

  /** When one of two prefixes is empty their order does not matter. */
  lemma EmptyCommutes<T>(a: seq<T>, b: seq<T>, rest: seq<T>)
    requires a == [] || b == []
    ensures a + (b + rest) == b + (a + rest)
  {
    if a == [] {
      assert a + (b + rest) == b + rest;
    } else {
      assert a + (b + rest) == a + rest;
    }
  }

  /** Line 108: a stable insertion sort by id. The result is ascending, is a
      permutation of the input, and tickets sharing an id keep their relative
      order. */
  function SortById(ts: seq<Ticket>): (r: seq<Ticket>)
    ensures SortedById(r)
    ensures multiset(r) == multiset(ts)
    ensures forall k :: Select(r, IdIs(k)) == Select(ts, IdIs(k))
    decreases |ts|
  {
    if ts == [] then []
    else
      var rest := SortById(ts[1..]);
      assert ts == [ts[0]] + ts[1..];
      assert forall k :: Select(Insert(ts[0], rest), IdIs(k)) == Select(ts, IdIs(k)) by {
        forall k
          ensures Select(Insert(ts[0], rest), IdIs(k)) == Select(ts, IdIs(k))
        {
          InsertSelect(ts[0], rest, k);
          SelectAppend([ts[0]], ts[1..], IdIs(k));
        }
      }
      Insert(ts[0], rest)
  }

  /** The rows of the ticket table: the filtered tickets, ascending by id. */
  function ListView(ts: seq<Ticket>, filter: string): (r: seq<Ticket>)
    ensures SortedById(r)
    ensures multiset(r) == multiset(FilterView(ts, filter))
    ensures forall t :: t in r <==> t in ts && (filter == ALL_FILTER || t.status == filter)
  {
    var rows := SortById(FilterView(ts, filter));
    assert forall t :: t in rows <==> t in multiset(rows);
    rows
  }
}
