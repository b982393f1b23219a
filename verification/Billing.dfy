/** The subscription webhook machine: one row per organization, and an audit trail of its status changes. */
module Billing {
  import opened Prelude

  /** Provider ids are NULL until the provider has sent them. */
  datatype Subscription = Subscription(
    provider: string, subscriptionId: Option<string>, customerId: Option<string>,
    plan: string, status: string, periodEnd: Option<int>)

  datatype WebhookEvent = WebhookEvent(
    org: string, subscriptionId: string, customerId: string, plan: string, status: string, periodEnd: Option<int>)

  datatype AuditEntry = AuditEntry(org: string, action: string, entityId: string, previous: string, current: string)

  datatype Books = Books(rows: map<string, Subscription>, audit: seq<AuditEntry>)

  /** The read and the write of one event may each fail. */
  datatype Fault = Fault(readFails: bool, writeFails: bool)

  const NO_FAULT := Fault(false, false)

  function LifecycleAction(status: string): string {
    if status == "active" then "subscription.activated"
    else if status == "past_due" then "subscription.past_due"
    else if status == "cancelled" then "subscription.cancelled"
    else ""
  }

  /** ON CONFLICT DO UPDATE leaves the provider of an existing row alone. */
  function RowFor(row: Option<Subscription>, e: WebhookEvent): Subscription {
    Subscription(if row.Some? then row.value.provider else "dodo",
                 Some(e.subscriptionId), Some(e.customerId), e.plan, e.status, e.periodEnd)
  }

  function RowIn(rows: map<string, Subscription>, org: string): Option<Subscription> {
    if org in rows then Some(rows[org]) else None
  }

  function StatusOf(row: Option<Subscription>): Option<string> {
    if row.Some? then Some(row.value.status) else None
  }

  function RowOf(rows: map<string, Subscription>, e: WebhookEvent): Subscription { RowFor(RowIn(rows, e.org), e) }

  /** The unique indexes on provider ids, against the rows of other organizations. */
  predicate Collides(rows: map<string, Subscription>, e: WebhookEvent) {
    exists org :: org in rows && org != e.org
                  && rows[org].provider == RowOf(rows, e).provider
                  && (rows[org].subscriptionId == Some(e.subscriptionId) || rows[org].customerId == Some(e.customerId))
  }

  function Entry(previous: Option<string>, e: WebhookEvent): seq<AuditEntry> {
    if LifecycleAction(e.status) == "" then []
    else [AuditEntry(e.org, LifecycleAction(e.status), e.subscriptionId,
                     if previous.Some? then previous.value else "", e.status)]
  }

  predicate Blank(e: WebhookEvent) { e.org == "" || e.status == "" }

  /** What GetSubscription tells of the status; a failed read counts as no row. */
  function Seen(rows: map<string, Subscription>, e: WebhookEvent, readFails: bool): Option<string> {
    if readFails then None else StatusOf(RowIn(rows, e.org))
  }

  predicate Refused(s: Books, e: WebhookEvent, writeFails: bool) { writeFails || Collides(s.rows, e) }

  /** The upsert, and the audit entry that follows it where it succeeds. */
  function Write(s: Books, e: WebhookEvent, seen: Option<string>, writeFails: bool): Books {
    if Refused(s, e, writeFails) then s else Books(s.rows[e.org := RowOf(s.rows, e)], s.audit + Entry(seen, e))
  }

  /** One delivery that nothing interrupts; an event that repeats the status is dropped. */
  function Process(s: Books, e: WebhookEvent, fault: Fault): (Books, bool) {
    if Blank(e) then (s, false)
    else
      var seen := Seen(s.rows, e, fault.readFails);
      if seen == Some(e.status) then (s, true)
      else (Write(s, e, seen, fault.writeFails), !Refused(s, e, fault.writeFails))
  }

  class BillingService {
    var rows: map<string, Subscription>
    var audit: seq<AuditEntry>

    ghost function State(): Books
      reads this
    {
      Books(rows, audit)
    }

    constructor ()
      ensures State() == Books(map[], [])
    {
      rows, audit := map[], [];
    }

    /** The first transaction of a delivery: the organization's row, `None` where there is none or the read fails. */
    method GetSubscription(org: string, readFails: bool) returns (row: Option<Subscription>)
      ensures row == if readFails then None else RowIn(rows, org)
    {
      if readFails || org !in rows {
        return None;
      }
      row := Some(rows[org]);
    }

    /** The second: INSERT ... ON CONFLICT (organization_id) DO UPDATE. */
    method UpsertSubscriptionByProvider(e: WebhookEvent, writeFails: bool) returns (ok: bool)
      modifies this`rows
      ensures ok == !Refused(old(State()), e, writeFails)
      ensures rows == if ok then old(rows)[e.org := RowOf(old(rows), e)] else old(rows)
      ensures ok ==>
                && e.org in rows
                && rows[e.org].provider == (if e.org in old(rows) then old(rows)[e.org].provider else "dodo")
                && rows[e.org].subscriptionId == Some(e.subscriptionId) && rows[e.org].customerId == Some(e.customerId)
                && rows[e.org].plan == e.plan && rows[e.org].status == e.status && rows[e.org].periodEnd == e.periodEnd
    {
      if writeFails || Collides(rows, e) {
        return false;
      }
      var provider := "dodo";
      if e.org in rows {
        provider := rows[e.org].provider;
      }
      var row := Subscription(provider, Some(e.subscriptionId), Some(e.customerId), e.plan, e.status, e.periodEnd);
      rows := rows[e.org := row];
      ok := true;
    }

    method ProcessWebhookEvent(e: WebhookEvent, fault: Fault) returns (ok: bool)
      modifies this
      ensures (State(), ok) == Process(old(State()), e, fault)
    {
      if e.org == "" || e.status == "" {
        return false;
      }
      var existing := GetSubscription(e.org, fault.readFails);
      var previous := "";
      if existing.Some? {
        previous := existing.value.status;
        if previous == e.status {
          return true;
        }
      }
      ok := UpsertSubscriptionByProvider(e, fault.writeFails);
      if !ok {
        return false;
      }
      var action := LifecycleAction(e.status);
      assert audit + [] == audit;
      if action != "" {
        audit := audit + [AuditEntry(e.org, action, e.subscriptionId, previous, e.status)];
      }
    }
  }

  // ----- Deliveries that interleave -----

  /** A delivery between its read and its write. */
  datatype Delivery = Delivery(event: WebhookEvent, seen: Option<string>)

  datatype Desk = Desk(books: Books, inFlight: map<int, Delivery>)

  /** Deliveries are numbered. One that is cut off before its write finishes with a failed one. */
  datatype Act = Arrive(d: int, e: WebhookEvent, readFails: bool) | Finish(d: int, writeFails: bool)

  function Perform(desk: Desk, act: Act): Desk {
    match act
    case Arrive(d, e, readFails) =>
      var seen := Seen(desk.books.rows, e, readFails);
      if d in desk.inFlight || Blank(e) || seen == Some(e.status) then desk
      else desk.(inFlight := desk.inFlight[d := Delivery(e, seen)])
    case Finish(d, writeFails) =>
      if d !in desk.inFlight then desk
      else
        var delivery := desk.inFlight[d];
        Desk(Write(desk.books, delivery.event, delivery.seen, writeFails), desk.inFlight - {d})
  }

  function Work(desk: Desk, acts: seq<Act>): Desk
    decreases |acts|
  {
    if acts == [] then desk else Perform(Work(desk, acts[..|acts| - 1]), acts[|acts| - 1])
  }

  /** Undisturbed, the two transactions of a delivery are one `Process`. */
  lemma UndisturbedIsProcess(desk: Desk, d: int, e: WebhookEvent, fault: Fault)
    requires d !in desk.inFlight
    ensures Perform(Perform(desk, Arrive(d, e, fault.readFails)), Finish(d, fault.writeFails))
         == Desk(Process(desk.books, e, fault).0, desk.inFlight)
  {
    var delivery := Delivery(e, Seen(desk.books.rows, e, fault.readFails));
    assert desk.inFlight[d := delivery] - {d} == desk.inFlight;
  }

  // ----- What concerns one organization -----

  /** One organization's share of the books. */
  datatype Ledger = Ledger(row: Option<Subscription>, trail: seq<AuditEntry>)

  function TrailOf(audit: seq<AuditEntry>, org: string): seq<AuditEntry>
    decreases |audit|
  {
    if audit == [] then []
    else
      var last := audit[|audit| - 1];
      TrailOf(audit[..|audit| - 1], org) + if last.org == org then [last] else []
  }

  function LedgerOf(books: Books, org: string): Ledger { Ledger(RowIn(books.rows, org), TrailOf(books.audit, org)) }

  /** Posting one event to the organization's share alone. */
  function Post(l: Ledger, e: WebhookEvent): Ledger {
    if StatusOf(l.row) == Some(e.status) then l
    else Ledger(Some(RowFor(l.row, e)), l.trail + Entry(StatusOf(l.row), e))
  }

  function PostAll(l: Ledger, events: seq<WebhookEvent>): Ledger
    decreases |events|
  {
    if events == [] then l else Post(PostAll(l, events[..|events| - 1]), events[|events| - 1])
  }

  /** The organization's events, in the order in which they arrive. */
  function EventsOf(acts: seq<Act>, org: string): seq<WebhookEvent>
    decreases |acts|
  {
    if acts == [] then []
    else
      var last := acts[|acts| - 1];
      EventsOf(acts[..|acts| - 1], org) + if last.Arrive? && last.e.org == org then [last.e] else []
  }

  ghost predicate Quiet(desk: Desk, org: string) {
    forall d :: d in desk.inFlight ==> desk.inFlight[d].event.org != org
  }

  /** A step that neither fails the organization's deliveries nor lets two of them overlap. */
  ghost predicate OrderlyStep(desk: Desk, act: Act, org: string) {
    match act
    case Arrive(d, e, readFails) => e.org == org ==> !Blank(e) && !readFails && d !in desk.inFlight && Quiet(desk, org)
    case Finish(d, writeFails) =>
      d in desk.inFlight && desk.inFlight[d].event.org == org ==>
        !Refused(desk.books, desk.inFlight[d].event, writeFails)
  }

  /** Whatever happens to other organizations, this one's deliveries succeed one after the other. */
  ghost predicate Orderly(desk: Desk, acts: seq<Act>, org: string)
    decreases |acts|
  {
    acts == [] || (
      && Orderly(desk, acts[..|acts| - 1], org)
      && OrderlyStep(Work(desk, acts[..|acts| - 1]), acts[|acts| - 1], org))
  }

  /** The last event has been read and not yet written; those before it are posted. */
  ghost predicate Underway(desk: Desk, org: string, start: Ledger, events: seq<WebhookEvent>, d: int) {
    && events != [] && d in desk.inFlight
    && desk.inFlight[d].event == events[|events| - 1] && events[|events| - 1].org == org
    && (forall b :: b in desk.inFlight && desk.inFlight[b].event.org == org ==> b == d)
    && LedgerOf(desk.books, org) == PostAll(start, events[..|events| - 1])
    && desk.inFlight[d].seen == StatusOf(RowIn(desk.books.rows, org))
    && desk.inFlight[d].seen != Some(events[|events| - 1].status)
  }

  ghost predicate Posted(desk: Desk, org: string, start: Ledger, events: seq<WebhookEvent>) {
    || (Quiet(desk, org) && LedgerOf(desk.books, org) == PostAll(start, events))
    || (exists d :: Underway(desk, org, start, events, d))
  }

  lemma TrailGrows(audit: seq<AuditEntry>, seen: Option<string>, e: WebhookEvent, org: string)
    ensures TrailOf(audit + Entry(seen, e), org) == TrailOf(audit, org) + if e.org == org then Entry(seen, e) else []
  {
    if Entry(seen, e) == [] {
      assert audit + [] == audit && TrailOf(audit, org) + [] == TrailOf(audit, org);
    } else {
      var more := audit + Entry(seen, e);
      assert more[..|more| - 1] == audit;
    }
  }

  /** A write touches its own organization's share and no other. */
  lemma WriteIsLocal(s: Books, e: WebhookEvent, seen: Option<string>, writeFails: bool, org: string)
    ensures e.org != org ==> LedgerOf(Write(s, e, seen, writeFails), org) == LedgerOf(s, org)
    ensures e.org == org && !Refused(s, e, writeFails) ==>
              LedgerOf(Write(s, e, seen, writeFails), org)
              == Ledger(Some(RowFor(RowIn(s.rows, org), e)), TrailOf(s.audit, org) + Entry(seen, e))
  {
    TrailGrows(s.audit, seen, e, org);
    assert TrailOf(s.audit, org) + [] == TrailOf(s.audit, org);
  }

  lemma ArrivalIsPosted(desk: Desk, org: string, start: Ledger, events: seq<WebhookEvent>, act: Act)
    requires Posted(desk, org, start, events) && OrderlyStep(desk, act, org) && act.Arrive?
    ensures Posted(Perform(desk, act), org, start, events + if act.e.org == org then [act.e] else [])
  {
    var after := Perform(desk, act);
    if act.e.org == org {
      var more := events + [act.e];
      assert more[..|more| - 1] == events;
      if after != desk { assert Underway(after, org, start, more, act.d); }
    } else {
      assert events + [] == events;
      if d :| Underway(desk, org, start, events, d) { assert Underway(after, org, start, events, d); }
    }
  }

  lemma FinishIsPosted(desk: Desk, org: string, start: Ledger, events: seq<WebhookEvent>, act: Act)
    requires Posted(desk, org, start, events) && OrderlyStep(desk, act, org) && act.Finish?
    ensures Posted(Perform(desk, act), org, start, events)
  {
    if act.d in desk.inFlight {
      var delivery := desk.inFlight[act.d];
      WriteIsLocal(desk.books, delivery.event, delivery.seen, act.writeFails, org);
      if d :| Underway(desk, org, start, events, d) {
        if delivery.event.org != org { assert Underway(Perform(desk, act), org, start, events, d); }
      }
    }
  }

  /**
   * Projection: however the deliveries of all organizations interleave, if one
   * organization's neither fail nor overlap each other, its share of the books is
   * what posting its own events in order makes of it.
   */
  lemma {:induction false} OrderlyRunsPost(desk: Desk, acts: seq<Act>, org: string)
    requires Quiet(desk, org) && Orderly(desk, acts, org)
    ensures Posted(Work(desk, acts), org, LedgerOf(desk.books, org), EventsOf(acts, org))
    decreases |acts|
  {
    if acts != [] {
      var init, act := acts[..|acts| - 1], acts[|acts| - 1];
      var start, events := LedgerOf(desk.books, org), EventsOf(init, org);
      OrderlyRunsPost(desk, init, org);
      if act.Arrive? {
        ArrivalIsPosted(Work(desk, init), org, start, events, act);
      } else {
        FinishIsPosted(Work(desk, init), org, start, events, act);
        assert events + [] == events;
      }
    }
  }

  // ----- What an organization's events make of its share -----

  /** The status the organization stands at after a list of events: the last one's, if there is one. */
  function LastStatus(initial: Option<string>, events: seq<WebhookEvent>): Option<string> {
    if events == [] then initial else Some(events[|events| - 1].status)
  }

  /** One entry for each event that differs from the one before it and has a lifecycle action. */
  function Trail(initial: Option<string>, events: seq<WebhookEvent>): seq<AuditEntry>
    decreases |events|
  {
    if events == [] then []
    else
      var init, e := events[..|events| - 1], events[|events| - 1];
      var before := LastStatus(initial, init);
      Trail(initial, init) + if before == Some(e.status) then [] else Entry(before, e)
  }

  lemma {:induction false} PostedStatusAndTrail(l: Ledger, events: seq<WebhookEvent>)
    ensures StatusOf(PostAll(l, events).row) == LastStatus(StatusOf(l.row), events)
    ensures PostAll(l, events).trail == l.trail + Trail(StatusOf(l.row), events)
    decreases |events|
  {
    if events != [] {
      var init, e := events[..|events| - 1], events[|events| - 1];
      PostedStatusAndTrail(l, init);
      var before := LastStatus(StatusOf(l.row), init);
      var added := if before == Some(e.status) then [] else Entry(before, e);
      assert l.trail + Trail(StatusOf(l.row), init) + added == l.trail + (Trail(StatusOf(l.row), init) + added);
      assert PostAll(l, init).trail + [] == PostAll(l, init).trail;
    }
  }

  /** The status is always the last event's, and the trail is that of the statuses alone. */
  lemma StatusAndTrail(desk: Desk, acts: seq<Act>, org: string)
    requires Quiet(desk, org) && Orderly(desk, acts, org) && Quiet(Work(desk, acts), org)
    ensures var before, after := LedgerOf(desk.books, org), LedgerOf(Work(desk, acts).books, org);
            && StatusOf(after.row) == LastStatus(StatusOf(before.row), EventsOf(acts, org))
            && after.trail == before.trail + Trail(StatusOf(before.row), EventsOf(acts, org))
  {
    OrderlyRunsPost(desk, acts, org);
    PostedStatusAndTrail(LedgerOf(desk.books, org), EventsOf(acts, org));
  }

  /** Event `k` opens the last block of equal statuses. */
  ghost predicate OpensLastBlock(initial: Option<string>, events: seq<WebhookEvent>, k: int) {
    && 0 <= k < |events|
    && (forall j :: k <= j < |events| ==> events[j].status == events[k].status)
    && LastStatus(initial, events[..k]) != Some(events[k].status)
  }

  lemma {:induction false} PostedRowIsOpeners(l: Ledger, events: seq<WebhookEvent>, k: int)
    requires OpensLastBlock(StatusOf(l.row), events, k)
    ensures PostAll(l, events).row == Some(RowFor(l.row, events[k]))
    decreases |events|
  {
    var init, e := events[..|events| - 1], events[|events| - 1];
    PostedStatusAndTrail(l, init);
    PostedProvider(l, init, e);
    if k == |events| - 1 {
      assert events[..k] == init;
    } else {
      assert init[..k] == events[..k];
      PostedRowIsOpeners(l, init, k);
    }
  }

  lemma {:induction false} PostedProvider(l: Ledger, events: seq<WebhookEvent>, e: WebhookEvent)
    ensures RowFor(PostAll(l, events).row, e) == RowFor(l.row, e)
    decreases |events|
  {
    if events != [] { PostedProvider(l, events[..|events| - 1], e); }
  }

  /** Plan, provider ids and period come from the event that opened the last block, not from the last event. */
  lemma RowComesFromOpener(desk: Desk, acts: seq<Act>, org: string, k: int)
    requires Quiet(desk, org) && Orderly(desk, acts, org) && Quiet(Work(desk, acts), org)
    requires OpensLastBlock(StatusOf(RowIn(desk.books.rows, org)), EventsOf(acts, org), k)
    ensures RowIn(Work(desk, acts).books.rows, org) == Some(RowOf(desk.books.rows, EventsOf(acts, org)[k]))
    ensures var row, opener := Work(desk, acts).books.rows[org], EventsOf(acts, org)[k];
            && row.subscriptionId == Some(opener.subscriptionId) && row.customerId == Some(opener.customerId)
            && row.plan == opener.plan && row.status == opener.status && row.periodEnd == opener.periodEnd
            && (org in desk.books.rows ==> row.provider == desk.books.rows[org].provider)
  {
    OrderlyRunsPost(desk, acts, org);
    PostedRowIsOpeners(LedgerOf(desk.books, org), EventsOf(acts, org), k);
    EventsAreTheOrganizations(acts, org);
  }

  lemma {:induction false} EventsAreTheOrganizations(acts: seq<Act>, org: string)
    ensures forall i :: 0 <= i < |EventsOf(acts, org)| ==> EventsOf(acts, org)[i].org == org
    decreases |acts|
  {
    if acts != [] { EventsAreTheOrganizations(acts[..|acts| - 1], org); }
  }

  lemma {:induction false} PostingWithoutChange(l: Ledger, events: seq<WebhookEvent>)
    requires forall i :: 0 <= i < |events| ==> StatusOf(l.row) == Some(events[i].status)
    ensures PostAll(l, events) == l
    decreases |events|
  {
    if events != [] {
      PostingWithoutChange(l, events[..|events| - 1]);
      assert StatusOf(l.row) == Some(events[|events| - 1].status);
    }
  }

  /** If no event differs from what was there, the initial row stands and nothing is logged. */
  lemma RowStaysWithoutChange(desk: Desk, acts: seq<Act>, org: string)
    requires Quiet(desk, org) && Orderly(desk, acts, org) && Quiet(Work(desk, acts), org)
    requires forall i :: 0 <= i < |EventsOf(acts, org)| ==>
                           StatusOf(RowIn(desk.books.rows, org)) == Some(EventsOf(acts, org)[i].status)
    ensures LedgerOf(Work(desk, acts).books, org) == LedgerOf(desk.books, org)
  {
    OrderlyRunsPost(desk, acts, org);
    PostingWithoutChange(LedgerOf(desk.books, org), EventsOf(acts, org));
  }

  /** One of the two always applies. */
  lemma {:induction false} SomeEventOpensOrNoneDiffers(initial: Option<string>, events: seq<WebhookEvent>)
    ensures (exists k :: OpensLastBlock(initial, events, k))
            || (forall i :: 0 <= i < |events| ==> initial == Some(events[i].status))
    decreases |events|
  {
    if events != [] {
      var init, e := events[..|events| - 1], events[|events| - 1];
      SomeEventOpensOrNoneDiffers(initial, init);
      if LastStatus(initial, init) != Some(e.status) {
        assert OpensLastBlock(initial, events, |events| - 1);
      } else if k :| OpensLastBlock(initial, init, k) {
        assert init[..k] == events[..k];
        assert OpensLastBlock(initial, events, k);
      }
    }
  }

  // ----- Success -----

  /**
   * A delivery whose read succeeds reports success exactly if the organization
   * then stands at the event's status; one whose read fails, exactly if it wrote.
   * Without success nothing changes.
   */
  lemma SuccessExactly(s: Books, e: WebhookEvent, fault: Fault)
    ensures var (after, ok) := Process(s, e, fault);
            && (!fault.readFails ==> (ok <==> !Blank(e) && StatusOf(RowIn(after.rows, e.org)) == Some(e.status)))
            && (fault.readFails ==> (ok <==> !Blank(e) && !fault.writeFails && !Collides(s.rows, e)))
            && (!ok ==> after == s)
  {
  }

  // ----- What is logged -----

  /** The three lifecycle statuses are logged under their own action, with what went before; no other status is. */
  lemma ChangeIsLogged(l: Ledger, e: WebhookEvent)
    requires StatusOf(l.row) != Some(e.status)
    ensures var before := if l.row.Some? then l.row.value.status else "";
            && (e.status == "active" ==>
                  Post(l, e).trail
                  == l.trail + [AuditEntry(e.org, "subscription.activated", e.subscriptionId, before, "active")])
            && (e.status == "past_due" ==>
                  Post(l, e).trail
                  == l.trail + [AuditEntry(e.org, "subscription.past_due", e.subscriptionId, before, "past_due")])
            && (e.status == "cancelled" ==>
                  Post(l, e).trail
                  == l.trail + [AuditEntry(e.org, "subscription.cancelled", e.subscriptionId, before, "cancelled")])
            && (e.status !in {"active", "past_due", "cancelled"} ==> Post(l, e).trail == l.trail)
  {
    assert l.trail + [] == l.trail;
  }

  // ----- Provider ids -----

  /** Two organizations of one provider share neither a subscription id nor a customer id. */
  ghost predicate UniqueProviderIds(rows: map<string, Subscription>) {
    forall a, b :: a in rows && b in rows && a != b && rows[a].provider == rows[b].provider ==>
                     && (rows[a].subscriptionId.Some? ==> rows[a].subscriptionId != rows[b].subscriptionId)
                     && (rows[a].customerId.Some? ==> rows[a].customerId != rows[b].customerId)
  }

  /** The upsert is refused exactly if the row would break the unique indexes. */
  lemma CollidesExactly(rows: map<string, Subscription>, e: WebhookEvent)
    requires UniqueProviderIds(rows)
    ensures Collides(rows, e) <==> !UniqueProviderIds(rows[e.org := RowOf(rows, e)])
  {
    var after := rows[e.org := RowOf(rows, e)];
    if org :| org in rows && org != e.org && rows[org].provider == RowOf(rows, e).provider
              && (rows[org].subscriptionId == Some(e.subscriptionId) || rows[org].customerId == Some(e.customerId)) {
      assert org in after && e.org in after && after[org] == rows[org] && after[e.org] == RowOf(rows, e);
    }
  }

  /** So they hold in every run, however deliveries interleave and fail. */
  lemma {:induction false} ProviderIdsStayUnique(desk: Desk, acts: seq<Act>)
    requires UniqueProviderIds(desk.books.rows)
    ensures UniqueProviderIds(Work(desk, acts).books.rows)
    decreases |acts|
  {
    if acts != [] {
      var before, act := Work(desk, acts[..|acts| - 1]), acts[|acts| - 1];
      ProviderIdsStayUnique(desk, acts[..|acts| - 1]);
      if act.Finish? && act.d in before.inFlight {
        CollidesExactly(before.books.rows, before.inFlight[act.d].event);
      }
    }
  }

  // ----- Overlap -----

  /** Two deliveries that are both read before either is written. */
  function Overlapped(s: Books, e: WebhookEvent, f: WebhookEvent): Books {
    var read := Perform(Perform(Desk(s, map[]), Arrive(0, e, false)), Arrive(1, f, false));
    Perform(Perform(read, Finish(0, false)), Finish(1, false)).books
  }

  function InTurn(s: Books, e: WebhookEvent, f: WebhookEvent): Books {
    Process(Process(s, e, NO_FAULT).0, f, NO_FAULT).0
  }

  /** The event would not change the books if it were delivered now. */
  predicate Idle(s: Books, e: WebhookEvent) {
    Blank(e) || Collides(s.rows, e) || StatusOf(RowIn(s.rows, e.org)) == Some(e.status)
  }

  /** What the two overlapping deliveries leave. */
  lemma OverlapSpelledOut(s: Books, e: WebhookEvent, f: WebhookEvent)
    ensures var first := if Blank(e) || Seen(s.rows, e, false) == Some(e.status) then s
                         else Write(s, e, Seen(s.rows, e, false), false);
            Overlapped(s, e, f)
            == if Blank(f) || Seen(s.rows, f, false) == Some(f.status) then first
               else Write(first, f, Seen(s.rows, f, false), false)
  {
  }

  /** A write for the same organization decides nothing about collisions. */
  lemma SameRoomForBoth(s: Books, e: WebhookEvent, f: WebhookEvent)
    requires e.org == f.org
    ensures Collides(s.rows[e.org := RowOf(s.rows, e)], f) <==> Collides(s.rows, f)
  {
    var after := s.rows[e.org := RowOf(s.rows, e)];
    assert RowOf(after, f).provider == RowOf(s.rows, f).provider;
    forall org | org != f.org ensures RowIn(after, org) == RowIn(s.rows, org) {
    }
    if Collides(after, f) {
      var org :| org in after && org != f.org && after[org].provider == RowOf(after, f).provider
                 && (after[org].subscriptionId == Some(f.subscriptionId)
                     || after[org].customerId == Some(f.customerId));
      assert RowIn(after, org) == RowIn(s.rows, org);
    }
    if Collides(s.rows, f) {
      var org :| org in s.rows && org != f.org && s.rows[org].provider == RowOf(s.rows, f).provider
                 && (s.rows[org].subscriptionId == Some(f.subscriptionId)
                     || s.rows[org].customerId == Some(f.customerId));
      assert RowIn(after, org) == RowIn(s.rows, org) && org in after;
    }
  }

  lemma IdleOverlap(s: Books, e: WebhookEvent, f: WebhookEvent)
    requires e.org != f.org || Idle(s, e) || Idle(s, f)
    ensures Overlapped(s, e, f) == InTurn(s, e, f) || Overlapped(s, e, f) == InTurn(s, f, e)
  {
    OverlapSpelledOut(s, e, f);
    if e.org == f.org {
      SameRoomForBoth(s, e, f);
    } else {
      assert Overlapped(s, e, f) == InTurn(s, e, f);
    }
  }

  lemma BusyOverlap(s: Books, e: WebhookEvent, f: WebhookEvent)
    requires e.org == f.org && !Idle(s, e) && !Idle(s, f)
    ensures var x := StatusOf(RowIn(s.rows, e.org));
            Overlapped(s, e, f) == Books(s.rows[e.org := RowOf(s.rows, f)], s.audit + Entry(x, e) + Entry(x, f))
  {
    OverlapSpelledOut(s, e, f);
    SameRoomForBoth(s, e, f);
    assert s.rows[e.org := RowOf(s.rows, e)][e.org := RowOf(s.rows, f)] == s.rows[e.org := RowOf(s.rows, f)];
  }

  lemma BusyInTurn(s: Books, e: WebhookEvent, f: WebhookEvent)
    requires e.org == f.org && !Idle(s, e) && !Idle(s, f)
    ensures var x := StatusOf(RowIn(s.rows, e.org));
            InTurn(s, e, f)
            == if f.status == e.status then Books(s.rows[e.org := RowOf(s.rows, e)], s.audit + Entry(x, e))
               else Books(s.rows[e.org := RowOf(s.rows, f)], s.audit + Entry(x, e) + Entry(Some(e.status), f))
  {
    SameRoomForBoth(s, e, f);
    assert s.rows[e.org := RowOf(s.rows, e)][e.org := RowOf(s.rows, f)] == s.rows[e.org := RowOf(s.rows, f)];
  }

  /** The three outcomes, told apart by the rows and the entries of the second event. */
  lemma BusyOutcomes(s: Books, e: WebhookEvent, f: WebhookEvent)
    requires e.org == f.org && !Idle(s, e) && !Idle(s, f)
    ensures var x := StatusOf(RowIn(s.rows, e.org));
            var both := s.audit + Entry(x, e) + Entry(x, f);
            && (LifecycleAction(f.status) == "" ==> both == s.audit + Entry(x, e))
            && (LifecycleAction(f.status) == "" && f.status == e.status ==> both == s.audit + Entry(x, f))
            && (LifecycleAction(f.status) != "" ==>
                  && (f.status == e.status ==> both != s.audit + Entry(x, e) && both != s.audit + Entry(x, f))
                  && (f.status != e.status ==> both != s.audit + Entry(x, e) + Entry(Some(e.status), f)))
            && (f.status != e.status ==>
                  s.rows[e.org := RowOf(s.rows, f)] != s.rows[e.org := RowOf(s.rows, e)])
  {
    var x := StatusOf(RowIn(s.rows, e.org));
    var both, n := s.audit + Entry(x, e) + Entry(x, f), |s.audit + Entry(x, e)|;
    if LifecycleAction(f.status) == "" {
      assert both == s.audit + Entry(x, e);
      assert f.status == e.status ==> s.audit + Entry(x, e) == s.audit == s.audit + Entry(x, f);
    } else {
      assert |both| == n + 1 && both[n] == Entry(x, f)[0];
      var other := s.audit + Entry(x, e) + Entry(Some(e.status), f);
      assert |other| == n + 1 && other[n] == Entry(Some(e.status), f)[0];
      assert f.status == e.status ==> |s.audit + Entry(x, f)| == |s.audit| + 1 == n;
    }
    assert s.rows[e.org := RowOf(s.rows, f)][e.org].status == f.status;
    assert s.rows[e.org := RowOf(s.rows, e)][e.org].status == e.status;
  }

  /**
   * Two overlapping deliveries leave what some order of them one after the other
   * would leave, exactly if they concern different organizations, or one of them
   * is idle, or the second has nothing to log. Otherwise the log shows a change
   * that did not happen: the second entry names a status that was already gone.
   */
  lemma OverlapIsSerialExactly(s: Books, e: WebhookEvent, f: WebhookEvent)
    ensures Overlapped(s, e, f) == InTurn(s, e, f) || Overlapped(s, e, f) == InTurn(s, f, e)
            <==> e.org != f.org || Idle(s, e) || Idle(s, f) || LifecycleAction(f.status) == ""
  {
    if e.org != f.org || Idle(s, e) || Idle(s, f) {
      IdleOverlap(s, e, f);
    } else {
      BusyOverlap(s, e, f);
      BusyInTurn(s, e, f);
      BusyInTurn(s, f, e);
      BusyOutcomes(s, e, f);
    }
  }

  // ----- Replays -----

  function ProcessAll(s: Books, events: seq<WebhookEvent>): Books
    decreases |events|
  {
    if events == [] then s
    else Process(ProcessAll(s, events[..|events| - 1]), events[|events| - 1], NO_FAULT).0
  }

  /** A second delivery, whatever the event and the rows, does nothing. */
  lemma ReplayIsIdle(s: Books, e: WebhookEvent)
    ensures var t := Process(s, e, NO_FAULT).0; Process(t, e, NO_FAULT).0 == t
  {
  }

  lemma {:induction false} ProcessAllAppends(s: Books, first: seq<WebhookEvent>, second: seq<WebhookEvent>)
    ensures ProcessAll(s, first + second) == ProcessAll(ProcessAll(s, first), second)
    decreases |second|
  {
    if second == [] {
      assert first + second == first;
    } else {
      assert (first + second)[..|first + second| - 1] == first + second[..|second| - 1];
      ProcessAllAppends(s, first, second[..|second| - 1]);
    }
  }

  function Copies(n: nat, e: WebhookEvent): seq<WebhookEvent> { seq(n, _ => e) }

  lemma {:induction false} CopiesAreIdle(s: Books, n: nat, e: WebhookEvent)
    requires Process(s, e, NO_FAULT).0 == s
    ensures ProcessAll(s, Copies(n, e)) == s
    decreases n
  {
    if n > 0 {
      assert Copies(n, e)[..n - 1] == Copies(n - 1, e);
      CopiesAreIdle(s, n - 1, e);
    }
  }

  /** Delivering any event of a run any number of extra times, in place, changes neither rows nor trail. */
  lemma ReplaysChangeNothing(s: Books, before: seq<WebhookEvent>, e: WebhookEvent, n: nat, after: seq<WebhookEvent>)
    ensures ProcessAll(s, before + [e] + Copies(n, e) + after) == ProcessAll(s, before + [e] + after)
  {
    var t := ProcessAll(s, before + [e]);
    assert (before + [e])[..|before + [e]| - 1] == before;
    ReplayIsIdle(ProcessAll(s, before), e);
    CopiesAreIdle(t, n, e);
    ProcessAllAppends(s, before + [e], Copies(n, e));
    ProcessAllAppends(s, before + [e] + Copies(n, e), after);
    ProcessAllAppends(s, before + [e], after);
  }

  /**
   * With failures the promise narrows: redelivering an event is idle exactly when
   * the event is blank, the row could be read, the write failed too, or the write
   * repeats the row as it stands and has nothing to log. An event that had been
   * dropped the first time overwrites plan, ids and period.
   */
  lemma ReplayUnderFaultsIsIdleExactly(s: Books, e: WebhookEvent, fault: Fault)
    ensures var t := Process(s, e, NO_FAULT).0;
            Process(t, e, fault).0 == t
            <==> Blank(e) || !fault.readFails || Refused(t, e, fault.writeFails)
                 || (RowIn(t.rows, e.org) == Some(RowOf(t.rows, e)) && LifecycleAction(e.status) == "")
  {
    var t := Process(s, e, NO_FAULT).0;
    if !Blank(e) && fault.readFails && !Refused(t, e, fault.writeFails) {
      var after := Process(t, e, fault).0;
      assert |after.audit| == |t.audit| + |Entry(None, e)|;
      assert after.rows[e.org] == RowOf(t.rows, e);
      if RowIn(t.rows, e.org) == Some(RowOf(t.rows, e)) {
        assert t.rows[e.org := RowOf(t.rows, e)] == t.rows;
        assert t.audit + [] == t.audit;
      }
    }
  }

  /** A dropped change of plan goes through when it is redelivered on a failed read. */
  lemma DroppedEventOverwrites()
    ensures var row := Subscription("dodo", Some("s"), Some("c"), "pro", "trialing", None);
            var s, e := Books(map["o" := row], []), WebhookEvent("o", "s", "c", "enterprise", "trialing", None);
            && Process(s, e, NO_FAULT).0 == s
            && Process(s, e, Fault(true, false)).0 == Books(map["o" := row.(plan := "enterprise")], [])
  {
  }

  /** Two overlapping deliveries of one activation are both logged. */
  lemma OverlapLogsTwice()
    ensures var s, e := Books(map[], []), WebhookEvent("o", "s", "c", "pro", "active", None);
            && Overlapped(s, e, e).audit
               == [AuditEntry("o", "subscription.activated", "s", "", "active"),
                   AuditEntry("o", "subscription.activated", "s", "", "active")]
            && |InTurn(s, e, e).audit| == 1
  {
  }
}
