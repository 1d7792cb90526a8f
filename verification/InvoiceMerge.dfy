/** Invoices as payment providers report them: events may arrive late, twice and in any order,
    and every one of them is merged into the invoice's row. */
module InvoiceMerge {
  import opened Outcomes
  import opened Text

  datatype Amounts = Amounts(subtotal: int, tax: int, total: int, paid: int, due: int)

  /** The columns that every event overwrites. */
  datatype Details = Details(currency: string, invoiceNumber: string, subscriptionId: Option<nat>,
                             periodStart: Option<int>, periodEnd: Option<int>, issuedAt: Option<int>,
                             dueAt: Option<int>, paidAt: Option<int>, hostedUrl: string, pdfUrl: string)

  /** What an event says, and what the row of an invoice holds: `at` is the event's creation. */
  datatype Content = Content(at: Option<int>, eventId: string, status: string, amounts: Amounts, details: Details)

  predicate Ends(status: string) {
    status == "void" || status == "uncollectible"
  }

  predicate Before(a: Option<int>, b: Option<int>) {
    a.Some? && b.Some? && a.value < b.value
  }

  /** The assignments of ON CONFLICT DO UPDATE; all of them read the old row. */
  function Merge(row: Content, event: Content): Content {
    Content(
      if event.at.None? || row.at.None? || Before(row.at, event.at) then event.at else row.at,
      if row.at.None? || Before(row.at, event.at) then event.eventId else row.eventId,
      if row.status == "paid" && !Ends(event.status) then "paid" else event.status,
      if Before(event.at, row.at) then row.amounts else event.amounts,
      event.details)
  }

  // ---------------------------------------------------------------- the table

  datatype InvoiceKey = InvoiceKey(provider: string, invoiceId: string)

  datatype Row = Row(id: nat, tenant: nat, createdAt: int, updatedAt: int, content: Content)

  datatype Message = Message(provider: string, invoiceId: string, tenant: nat, content: Content, now: int)

  datatype InvoiceError = NoProvider | NoInvoiceId | NoTenant | Database

  function KeyOf(m: Message): InvoiceKey {
    InvoiceKey(Normalize(m.provider), m.invoiceId)
  }

  function Check(m: Message): Option<InvoiceError> {
    if Normalize(m.provider) == "" then Some(NoProvider)
    else if m.invoiceId == "" then Some(NoInvoiceId)
    else if m.tenant == 0 then Some(NoTenant)
    else None
  }

  /** An accepted event makes the row or is merged into it. */
  function Deliver(rows: map<InvoiceKey, Row>, m: Message, id: nat): map<InvoiceKey, Row> {
    var k := KeyOf(m);
    if k in rows then rows[k := rows[k].(updatedAt := m.now, content := Merge(rows[k].content, m.content))]
    else rows[k := Row(id, m.tenant, m.now, m.now, m.content)]
  }

  /** Different invoices have different rows: an event makes or changes the row of its own
      invoice, found by provider in normal form and invoice id, and leaves every other one alone. */
  lemma InvoicesApart(rows: map<InvoiceKey, Row>, m: Message, id: nat)
    ensures var k, next := InvoiceKey(Normalize(m.provider), m.invoiceId), Deliver(rows, m, id);
            && next.Keys == rows.Keys + {k} && (forall j <- rows.Keys :: j != k ==> next[j] == rows[j])
            && next[k].updatedAt == m.now
            && (if k in rows then
                  && next[k].id == rows[k].id && next[k].tenant == rows[k].tenant && next[k].createdAt == rows[k].createdAt
                  && next[k].content == Merge(rows[k].content, m.content)
                else next[k] == Row(id, m.tenant, m.now, m.now, m.content))
  {
  }

  /** What a merge makes of status, details and time: paid stays unless the invoice is voided or
      given up, details are the event's, and an event created earlier changes no more than these. */
  lemma MergedExactly(row: Content, event: Content)
    ensures var merged := Merge(row, event);
            && merged.details == event.details
            && merged.status == (if row.status == "paid" && event.status !in {"void", "uncollectible"} then "paid"
                                 else event.status)
            && (row.at.Some? && event.at.Some? && event.at.value < row.at.value ==>
                  merged.at == row.at && merged.eventId == row.eventId && merged.amounts == row.amounts)
            && (row.at.Some? && event.at.Some? && event.at.value > row.at.value ==>
                  merged.at == event.at && merged.eventId == event.eventId && merged.amounts == event.amounts)
  {
  }

  /** What is refused, and why. */
  lemma RefusedExactly(m: Message)
    ensures Check(m) == Some(NoProvider) <==> Normalize(m.provider) == ""
    ensures Check(m) == Some(NoInvoiceId) <==> Normalize(m.provider) != "" && m.invoiceId == ""
    ensures Check(m) == Some(NoTenant) <==> Normalize(m.provider) != "" && m.invoiceId != "" && m.tenant == 0
    ensures Check(m) != Some(Database)
  {
  }

  class InvoiceService {
    var rows: map<InvoiceKey, Row>
    var nextId: nat

    /** Row ids are handed out once. */
    ghost predicate Valid()
      reads this
    {
      && (forall k <- rows.Keys :: rows[k].id < nextId)
      && (forall j, k :: j in rows && k in rows && rows[j].id == rows[k].id ==> j == k)
    }

    constructor ()
      ensures Valid() && rows == map[]
    {
      rows, nextId := map[], 1;
    }

    method UpsertFromProviderEvent(m: Message, healthy: bool) returns (r: Result<nat, InvoiceError>)
      requires Valid()
      modifies this
      ensures Valid()
      ensures r.Ok? <==> Normalize(m.provider) != "" && m.invoiceId != "" && m.tenant != 0 && healthy
      // Every invoice of a provider has a row of its own.
      ensures r.Ok? ==>
                var k := InvoiceKey(Normalize(m.provider), m.invoiceId);
                && rows.Keys == old(rows).Keys + {k} && rows[k].id == r.value
                && (forall j <- old(rows).Keys :: j != k ==> rows[j] == old(rows)[j])
                && rows[k].updatedAt == m.now
                && (if k in old(rows) then
                      && rows[k].id == old(rows)[k].id && rows[k].tenant == old(rows)[k].tenant
                      && rows[k].createdAt == old(rows)[k].createdAt
                      && rows[k].content == Merge(old(rows)[k].content, m.content)
                    else rows[k].tenant == m.tenant && rows[k].createdAt == m.now && rows[k].content == m.content)
      ensures r.Ok? ==> rows == Deliver(old(rows), m, old(nextId)) && KeyOf(m) in rows && rows[KeyOf(m)].id == r.value
      ensures r.Err? ==> rows == old(rows) && r.error == if Check(m).Some? then Check(m).value else Database
    {
      hide Merge;
      var provider := Normalize(m.provider);
      if provider == "" { return Err(NoProvider); }
      if m.invoiceId == "" { return Err(NoInvoiceId); }
      if m.tenant == 0 { return Err(NoTenant); }
      if !healthy { return Err(Database); }
      var k := InvoiceKey(provider, m.invoiceId);
      if k in rows {
        var row := rows[k];
        rows := rows[k := Row(row.id, row.tenant, row.createdAt, m.now, Merge(row.content, m.content))];
      } else {
        rows := rows[k := Row(nextId, m.tenant, m.now, m.now, m.content)];
        nextId := nextId + 1;
      }
      r := Ok(rows[k].id);
    }
  }

  // ---------------------------------------------------------------- any order of delivery

  /** The table after a run of accepted events; ids count up. */
  function After(inbox: seq<Message>): map<InvoiceKey, Row> {
    if inbox == [] then map[] else Deliver(After(inbox[..|inbox| - 1]), inbox[|inbox| - 1], |inbox|)
  }

  /** The events of one invoice, in the order of their delivery. */
  function EventsOf(inbox: seq<Message>, k: InvoiceKey): seq<Content> {
    if inbox == [] then []
    else
      var last := inbox[|inbox| - 1];
      EventsOf(inbox[..|inbox| - 1], k) + if KeyOf(last) == k then [last.content] else []
  }

  function Folded(events: seq<Content>): Content
    requires events != []
  {
    var n := |events| - 1;
    if n == 0 then events[0] else Merge(Folded(events[..n]), events[n])
  }

  lemma {:induction false} RowsFold(inbox: seq<Message>, k: InvoiceKey)
    ensures k in After(inbox) <==> EventsOf(inbox, k) != []
    ensures k in After(inbox) ==> After(inbox)[k].content == Folded(EventsOf(inbox, k))
  {
    hide Merge;
    if inbox != [] {
      var n := |inbox| - 1;
      RowsFold(inbox[..n], k);
      var events := EventsOf(inbox[..n], k);
      if KeyOf(inbox[n]) == k {
        assert (events + [inbox[n].content])[..|events|] == events;
      } else {
        assert events + [] == events;
      }
    }
  }

  predicate Dated(events: seq<Content>) {
    forall e <- events :: e.at.Some?
  }

  /** No event of the list was created after the i-th. */
  ghost predicate Newest(events: seq<Content>, i: nat)
    requires i < |events| && Dated(events)
  {
    forall j :: 0 <= j < |events| ==> events[j].at.value <= events[i].at.value
  }

  /** Of the newest events the last delivered gives the amounts and the first the id;
      the details are those of the last event of all. */
  lemma {:induction false} FoldedIsNewest(events: seq<Content>) returns (first: nat, last: nat)
    requires events != [] && Dated(events)
    ensures first <= last < |events| && Newest(events, first) && Newest(events, last)
    ensures forall j :: 0 <= j < first || last < j < |events| ==> events[j].at.value < events[first].at.value
    ensures Folded(events).at == events[first].at == events[last].at
    ensures Folded(events).eventId == events[first].eventId && Folded(events).amounts == events[last].amounts
    ensures Folded(events).details == events[|events| - 1].details
  {
    hide Folded;
    var n := |events| - 1;
    assert events == events[..n] + [events[n]];
    FoldedSnoc(events[..n], events[n]);
    if n == 0 {
      return 0, 0;
    }
    first, last := FoldedIsNewest(events[..n]);
    var time := events[n].at.value;
    if time > events[first].at.value {
      first, last := n, n;
    } else if time == events[first].at.value {
      last := n;
    }
    assert forall j :: 0 <= j < n ==> events[..n][j] == events[j];
  }

  /** Each creation time belongs to one event; the same event may be delivered again. */
  ghost predicate TimesIdentify(events: seq<Content>) {
    forall a, b :: a in events && b in events && a.at.Some? && a.at == b.at ==> a.eventId == b.eventId && a.amounts == b.amounts
  }

  predicate SameEvents(a: seq<Content>, b: seq<Content>) {
    (forall e <- a :: e in b) && forall e <- b :: e in a
  }

  /** However the dated events of an invoice are ordered and repeated, its row ends with the
      amounts, the time and the id of the newest. */
  lemma NewestWins(inbox: seq<Message>, k: InvoiceKey, newest: Content)
    requires Dated(EventsOf(inbox, k)) && TimesIdentify(EventsOf(inbox, k)) && newest in EventsOf(inbox, k)
    requires forall e <- EventsOf(inbox, k) :: e.at.value <= newest.at.value
    ensures k in After(inbox)
    ensures var row := After(inbox)[k].content;
            row.amounts == newest.amounts && row.at == newest.at && row.eventId == newest.eventId
  {
    var events := EventsOf(inbox, k);
    RowsFold(inbox, k);
    var first, last := FoldedIsNewest(events);
    var i :| 0 <= i < |events| && events[i] == newest;
    assert events[first].at.value == newest.at.value == events[last].at.value;
    assert events[first] in events && events[last] in events;
  }

  lemma OrderIrrelevant(inbox: seq<Message>, shuffled: seq<Message>, k: InvoiceKey)
    requires Dated(EventsOf(inbox, k)) && TimesIdentify(EventsOf(inbox, k)) && EventsOf(inbox, k) != []
    requires SameEvents(EventsOf(inbox, k), EventsOf(shuffled, k))
    ensures k in After(inbox) && k in After(shuffled)
    ensures var a, b := After(inbox)[k].content, After(shuffled)[k].content;
            a.amounts == b.amounts && a.at == b.at && a.eventId == b.eventId
  {
    var events := EventsOf(inbox, k);
    var first, last := FoldedIsNewest(events);
    assert events[first] in events;
    forall e | e in events ensures e.at.value <= events[first].at.value {
      var i :| 0 <= i < |events| && events[i] == e;
    }
    NewestWins(inbox, k, events[first]);
    NewestWins(shuffled, k, events[first]);
  }

  // ---------------------------------------------------------------- the status

  /** Whether the invoice was reported paid after it was last voided or given up. */
  predicate PaidSinceEnded(events: seq<Content>) {
    var n := |events| - 1;
    events != [] && (events[n].status == "paid" || (!Ends(events[n].status) && PaidSinceEnded(events[..n])))
  }

  /** The status is paid exactly as long as a payment stands; otherwise it is whatever came
      last, in the order of delivery. */
  lemma {:induction false} FoldedStatus(events: seq<Content>)
    requires events != []
    ensures Folded(events).status == if PaidSinceEnded(events) then "paid" else events[|events| - 1].status
  {
    var n := |events| - 1;
    if n > 0 {
      FoldedStatus(events[..n]);
      if events[n - 1].status == "paid" { PaidLast(events[..n]); }
    }
  }

  lemma PaidLast(events: seq<Content>)
    requires events != [] && events[|events| - 1].status == "paid"
    ensures PaidSinceEnded(events)
  {
  }

  lemma {:induction false} PaidAnywhere(events: seq<Content>, i: nat)
    requires i < |events| && events[i].status == "paid" && forall e <- events :: !Ends(e.status)
    ensures PaidSinceEnded(events)
  {
    var n := |events| - 1;
    if i < n {
      PaidAnywhere(events[..n], i);
    }
    assert events[n] in events;
  }

  /** Without void and uncollectible events a payment, whenever it is delivered, is final. */
  lemma {:induction false} PaidStays(inbox: seq<Message>, k: InvoiceKey, e: Content)
    requires e in EventsOf(inbox, k) && e.status == "paid" && forall f <- EventsOf(inbox, k) :: !Ends(f.status)
    ensures k in After(inbox) && After(inbox)[k].content.status == "paid"
  {
    var events := EventsOf(inbox, k);
    RowsFold(inbox, k);
    var i :| 0 <= i < |events| && events[i] == e;
    PaidAnywhere(events, i);
    FoldedStatus(events);
  }

  // ---------------------------------------------------------------- where order matters

  /** Two unpaid events: the status is that of the later delivery, not of the newer event. */
  lemma StatusFollowsDelivery(a: Content, b: Content)
    requires a.status != "paid" && b.status != "paid"
    ensures Folded([a, b]).status == b.status && Folded([b, a]).status == a.status
  {
  }

  /** Two events of the same moment: the row mixes the amounts of one with the id of the other. */
  lemma EqualTimesMix(a: Content, b: Content)
    requires a.at.Some? && a.at == b.at
    ensures Folded([a, b]).amounts == b.amounts && Folded([a, b]).eventId == a.eventId
  {
  }

  // ---------------------------------------------------------------- events without a time

  /** The events after the last one without a time. */
  function AfterUndated(events: seq<Content>): (tail: seq<Content>)
    ensures Dated(tail) && forall e <- tail :: e in events
  {
    if events == [] || events[|events| - 1].at.None? then [] else AfterUndated(events[..|events| - 1]) + [events[|events| - 1]]
  }

  /** An event without a time makes the row forget all before it: time, id and amounts are those
      of the events after the last such one; if there are none, there is no time, and the
      amounts are the last ones. */
  lemma {:induction false} UndatedRestarts(events: seq<Content>)
    requires events != []
    ensures var row, tail := Folded(events), AfterUndated(events);
            if tail == [] then row.at == None && row.amounts == events[|events| - 1].amounts
            else row.at == Folded(tail).at && row.eventId == Folded(tail).eventId && row.amounts == Folded(tail).amounts
  {
    hide Folded, AfterUndated;
    var n := |events| - 1;
    var front, last := events[..n], events[n];
    assert events == front + [last];
    FoldedSnoc(front, last);
    AfterUndatedSnoc(front, last);
    if front != [] && last.at.Some? {
      UndatedRestarts(front);
      FoldedSnoc(AfterUndated(front), last);
    } else if last.at.Some? {
      FoldedSnoc([], last);
    }
  }

  lemma FoldedSnoc(events: seq<Content>, e: Content)
    ensures Folded(events + [e]) == if events == [] then e else Merge(Folded(events), e)
  {
    hide Merge;
    assert (events + [e])[..|events|] == events;
  }

  lemma AfterUndatedSnoc(events: seq<Content>, e: Content)
    ensures AfterUndated(events + [e]) == if e.at.None? then [] else AfterUndated(events) + [e]
    ensures AfterUndated([]) == []
  {
    assert (events + [e])[..|events|] == events;
  }

  lemma NewestTime(events: seq<Content>, i: nat, e: Content)
    requires i < |events| && Dated(events) && Newest(events, i) && e in events
    ensures e.at.value <= events[i].at.value
  {
  }

  lemma SameTimeSameEvent(events: seq<Content>, a: Content, b: Content)
    requires TimesIdentify(events) && a in events && b in events && a.at.Some? && a.at == b.at
    ensures a.eventId == b.eventId && a.amounts == b.amounts
  {
  }

  /** Exactly when the newest event of all wins: it has been delivered after the last event
      without a time. */
  lemma NewestWinsExactly(events: seq<Content>, newest: Content)
    requires newest in events && newest.at.Some? && TimesIdentify(events)
    requires forall e <- events :: e.at.Some? ==> e.at.value <= newest.at.value
    ensures var row := Folded(events);
            (row.at == newest.at && row.eventId == newest.eventId && row.amounts == newest.amounts) <==>
            exists e <- AfterUndated(events) :: e.at == newest.at
  {
    hide Merge, Folded, AfterUndated, TimesIdentify;
    var tail := AfterUndated(events);
    UndatedRestarts(events);
    if tail != [] {
      var first, last := FoldedIsNewest(tail);
      assert tail[first] in events && tail[last] in events;
      if e :| e in tail && e.at == newest.at {
        NewestTime(tail, first, e);
        assert tail[first].at == newest.at == tail[last].at;
        SameTimeSameEvent(events, tail[first], newest);
        SameTimeSameEvent(events, tail[last], newest);
      }
    }
  }

  /** An event without a time makes the row forget its own, and an older event takes over. */
  lemma UndatedForgets(older: Content, newer: Content, undated: Content)
    requires older.at.Some? && newer.at.Some? && older.at.value < newer.at.value && undated.at.None?
    ensures Folded([newer, undated, older]).amounts == older.amounts && Folded([newer, older]).amounts == newer.amounts
  {
  }
}
