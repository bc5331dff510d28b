/**
 * The application shell (src/app/App.tsx). It owns the ticket list, the
 * notification feed, the selected ticket and the flag of the "new ticket"
 * dialog. Each handler replaces these in one atomic step; the new values are
 * computed by the pure list operations below. The clock (`now`) and the
 * generated ids are parameters.
 */
module App {
  import opened Wrappers
  import opened TicketForm
  import opened TicketStats
  import TicketDetail

  /** The four kinds of notification. */
  datatype NotificationType = GeneralNotice | TicketNotice | StatusNotice | AssignmentNotice

  /** An entry of the notification feed. */
  datatype Notification = Notification(
    id: string,
    title: string,
    message: string,
    timestamp: nat,
    read: bool,
    kind: NotificationType)

  // ---------------------------------------------------------------------------
  // The ticket list

  predicate HasId(ts: seq<Ticket>, id: string) {
    exists t :: t in ts && t.id == id
  }

  /** Ticket ids are unique within the list. */
  predicate UniqueIds(ts: seq<Ticket>) {
    forall i, j :: 0 <= i < j < |ts| ==> ts[i].id != ts[j].id
  }

  /** The first list entry with the given id. */
  function FindById(ts: seq<Ticket>, id: string): (r: Option<Ticket>)
    ensures r.None? <==> !HasId(ts, id)
    ensures r.Some? ==> r.value in ts && r.value.id == id
  {
    if ts == [] then None
    else
      assert forall t :: t in ts <==> t == ts[0] || t in ts[1..];
      if ts[0].id == id then Some(ts[0]) else FindById(ts[1..], id)
  }

  /** With unique ids, looking up an entry's id finds that entry. */
  lemma {:induction false} FindUnique(ts: seq<Ticket>, k: nat)
    requires UniqueIds(ts) && k < |ts|
    ensures FindById(ts, ts[k].id) == Some(ts[k])
  {
    if k > 0 {
      assert ts[0].id != ts[k].id;
      assert ts[1..][k - 1] == ts[k];
      FindUnique(ts[1..], k - 1);
    }
  }

  /** The selection, when there is one, is the live list entry with its id. */
  predicate SelectionConsistent(ts: seq<Ticket>, sel: Option<Ticket>) {
    sel.Some? ==> FindById(ts, sel.value.id) == sel
  }

  /** `handleSelectTicket` with an entry of the list establishes consistency. */
  lemma SelectEstablishesConsistency(ts: seq<Ticket>, t: Ticket)
    requires UniqueIds(ts) && t in ts
    ensures SelectionConsistent(ts, Some(t))
  {
    var k :| 0 <= k < |ts| && ts[k] == t;
    FindUnique(ts, k);
  }

  /** No ticket was updated before it was created. */
  predicate TimesOrdered(ts: seq<Ticket>) {
    forall t :: t in ts ==> t.createdAt <= t.updatedAt
  }

  /** The clock reading `now` is not earlier than any ticket's last update. */
  predicate NotAfter(ts: seq<Ticket>, now: nat) {
    forall t :: t in ts ==> t.updatedAt <= now
  }

  // ---------------------------------------------------------------------------
  // Creating a ticket

  /** The ticket `handleCreateTicket` builds from the submitted draft. */
  function NewTicket(d: Draft, id: string, now: nat): (t: Ticket)
    ensures t.id == id && t.status == Open
    ensures t.createdAt == now && t.updatedAt == now
    ensures Draft(t.title, t.description, t.priority, t.assignedAgent, t.requesterName, t.requesterEmail) == d
  {
    Ticket(id, d.title, d.description, d.priority, Open, d.assignedAgent, now, now,
           d.requesterName, d.requesterEmail)
  }

  /** The unread "New Ticket Created" notification. */
  function CreatedNotice(t: Ticket, notifId: string, now: nat): (n: Notification)
    ensures n.kind == TicketNotice && !n.read && n.title == "New Ticket Created"
  {
    Notification(notifId, "New Ticket Created", "Ticket " + t.id + ": " + t.title, now, false, TicketNotice)
  }

  /**
   * Prepending a ticket with a fresh id keeps the ids unique and the selection
   * consistent, and keeps every ticket's timestamps in order.
   */
  lemma CreateKeepsInvariant(ts: seq<Ticket>, sel: Option<Ticket>, d: Draft, id: string, now: nat)
    requires UniqueIds(ts) && SelectionConsistent(ts, sel) && !HasId(ts, id)
    ensures UniqueIds([NewTicket(d, id, now)] + ts)
    ensures SelectionConsistent([NewTicket(d, id, now)] + ts, sel)
    ensures TimesOrdered(ts) ==> TimesOrdered([NewTicket(d, id, now)] + ts)
    ensures NotAfter(ts, now) ==> NotAfter([NewTicket(d, id, now)] + ts, now)
  {
    var t := NewTicket(d, id, now);
    var ts' := [t] + ts;
    assert ts'[1..] == ts;
    forall i, j | 0 <= i < j < |ts'| ensures ts'[i].id != ts'[j].id {
      if i == 0 {
        assert ts'[j] == ts[j - 1] && ts[j - 1] in ts;
      }
    }
    if sel.Some? {
      assert sel.value in ts;
    }
  }

  /** A new ticket counts as open and changes no other counter. */
  lemma CreateRaisesOpen(ts: seq<Ticket>, d: Draft, id: string, now: nat)
    ensures ComputeStats([NewTicket(d, id, now)] + ts)
         == ComputeStats(ts).(open := ComputeStats(ts).open + 1)
  {
    StatsPrepend(NewTicket(d, id, now), ts);
  }

  // ---------------------------------------------------------------------------
  // Updating a status and assigning an agent

  /** The two in-place changes the detail pane can ask for. */
  datatype TicketEdit = SetStatus(status: Status) | SetAgent(agent: string)

  /**
   * `{ ...ticket, status, updatedAt: new Date() }` and
   * `{ ...ticket, assignedAgent: agent, updatedAt: new Date() }`: the edited
   * field takes exactly the requested value (even when it already had it),
   * `updatedAt` becomes `now`, and nothing else changes.
   */
  function Edit(t: Ticket, e: TicketEdit, now: nat): (r: Ticket)
    ensures r.updatedAt == now
    ensures r.status == (if e.SetStatus? then e.status else t.status)
    ensures r.assignedAgent == (if e.SetAgent? then Some(e.agent) else t.assignedAgent)
    ensures r.(status := t.status, assignedAgent := t.assignedAgent, updatedAt := t.updatedAt) == t
  {
    match e
    case SetStatus(s) => t.(status := s, updatedAt := now)
    case SetAgent(a) => t.(assignedAgent := Some(a), updatedAt := now)
  }

  /**
   * `tickets.map(ticket => ticket.id === ticketId ? edited : ticket)`: the list
   * keeps its length and order, every matching entry is edited and every
   * other entry is left as it was.
   */
  function EditById(ts: seq<Ticket>, id: string, e: TicketEdit, now: nat): (r: seq<Ticket>)
    ensures |r| == |ts|
    ensures forall i :: 0 <= i < |ts| ==>
      r[i] == if ts[i].id == id then Edit(ts[i], e, now) else ts[i]
  {
    if ts == [] then []
    else [if ts[0].id == id then Edit(ts[0], e, now) else ts[0]] + EditById(ts[1..], id, e, now)
  }

  /** The unread notification a matching update or assignment prepends. */
  function EditNotice(id: string, e: TicketEdit, notifId: string, now: nat): (n: Notification)
    ensures !n.read && n.timestamp == now
    ensures e.SetStatus? ==> n.kind == StatusNotice && n.title == "Status Updated"
    ensures e.SetAgent? ==> n.kind == AssignmentNotice && n.title == "Agent Assigned"
  {
    match e
    case SetStatus(s) =>
      Notification(notifId, "Status Updated", "Ticket " + id + " status changed to " + TicketDetail.StatusLabel(s),
                   now, false, StatusNotice)
    case SetAgent(a) =>
      Notification(notifId, "Agent Assigned", a + " has been assigned to ticket " + id,
                   now, false, AssignmentNotice)
  }

  /**
   * The selection after an edit: when the selected ticket has the edited id
   * and the list holds it, the edited list entry; otherwise unchanged.
   */
  function SelectionAfterEdit(ts: seq<Ticket>, sel: Option<Ticket>, id: string, e: TicketEdit, now: nat): (r: Option<Ticket>)
    ensures r.Some? <==> sel.Some?
    ensures r.Some? ==> r.value.id == sel.value.id
    ensures sel.Some? && sel.value.id != id ==> r == sel
    ensures sel.Some? && sel.value.id == id && HasId(ts, id) ==> r.value.updatedAt == now
  {
    if sel.Some? && sel.value.id == id && HasId(ts, id) then Some(Edit(FindById(ts, id).value, e, now))
    else sel
  }

  /**
   * An edit keeps the ids unique, and the refreshed selection is again the
   * live entry with the same id, so the detail pane shows the new values.
   */
  lemma EditKeepsInvariant(ts: seq<Ticket>, sel: Option<Ticket>, id: string, e: TicketEdit, now: nat)
    requires UniqueIds(ts) && SelectionConsistent(ts, sel)
    ensures UniqueIds(EditById(ts, id, e, now))
    ensures SelectionConsistent(EditById(ts, id, e, now), SelectionAfterEdit(ts, sel, id, e, now))
    ensures SelectionAfterEdit(ts, sel, id, e, now).Some? <==> sel.Some?
    ensures sel.Some? ==> SelectionAfterEdit(ts, sel, id, e, now).value.id == sel.value.id
    ensures sel.Some? && sel.value.id == id ==> SelectionAfterEdit(ts, sel, id, e, now) == Some(Edit(sel.value, e, now))
  {
    var ts' := EditById(ts, id, e, now);
    assert forall i :: 0 <= i < |ts| ==> ts'[i].id == ts[i].id;
    if sel.Some? {
      var x := sel.value;
      assert x in ts;
      var k :| 0 <= k < |ts| && ts[k] == x;
      FindUnique(ts', k);
    }
  }

  /** An id that matches no ticket changes no ticket. */
  lemma EditUnknownId(ts: seq<Ticket>, id: string, e: TicketEdit, now: nat)
    requires !HasId(ts, id)
    ensures EditById(ts, id, e, now) == ts
  {
    forall i | 0 <= i < |ts| ensures ts[i].id != id {
      assert ts[i] in ts;
    }
  }

  /** With unique ids an edit replaces exactly the one entry with that id. */
  lemma EditReplacesOne(ts: seq<Ticket>, k: nat, e: TicketEdit, now: nat)
    requires UniqueIds(ts) && k < |ts|
    ensures EditById(ts, ts[k].id, e, now) == ts[k := Edit(ts[k], e, now)]
  {
  }

  /**
   * Changing one ticket's status from s to s' moves one ticket from counter s
   * to counter s'; when s == s' every counter stays.
   */
  lemma UpdateStatusMovesCount(ts: seq<Ticket>, k: nat, s': Status, now: nat)
    requires UniqueIds(ts) && k < |ts|
    ensures forall s :: CountOf(ComputeStats(EditById(ts, ts[k].id, SetStatus(s'), now)), s)
                     == CountOf(ComputeStats(ts), s)
                        - (if s == ts[k].status then 1 else 0)
                        + (if s == s' then 1 else 0)
  {
    EditReplacesOne(ts, k, SetStatus(s'), now);
    StatsReplace(ts, k, Edit(ts[k], SetStatus(s'), now));
  }

  /** Assigning an agent changes no counter. */
  lemma {:induction false} AssignKeepsCounts(ts: seq<Ticket>, id: string, agent: string, now: nat, s: Status)
    ensures Count(EditById(ts, id, SetAgent(agent), now), s) == Count(ts, s)
  {
    if ts != [] {
      var ts' := EditById(ts, id, SetAgent(agent), now);
      assert ts' == [ts'[0]] + ts'[1..] && ts == [ts[0]] + ts[1..];
      assert ts'[1..] == EditById(ts[1..], id, SetAgent(agent), now);
      AssignKeepsCounts(ts[1..], id, agent, now, s);
      CountAppend([ts'[0]], ts'[1..], s);
      CountAppend([ts[0]], ts[1..], s);
    }
  }

  lemma AssignKeepsStats(ts: seq<Ticket>, id: string, agent: string, now: nat)
    ensures ComputeStats(EditById(ts, id, SetAgent(agent), now)) == ComputeStats(ts)
  {
    AssignKeepsCounts(ts, id, agent, now, Open);
    AssignKeepsCounts(ts, id, agent, now, InProgress);
    AssignKeepsCounts(ts, id, agent, now, Resolved);
    AssignKeepsCounts(ts, id, agent, now, Closed);
  }

  /** With a clock that does not run backwards, `updatedAt >= createdAt` survives an edit. */
  lemma EditKeepsTimesOrdered(ts: seq<Ticket>, id: string, e: TicketEdit, now: nat)
    requires TimesOrdered(ts) && NotAfter(ts, now)
    ensures TimesOrdered(EditById(ts, id, e, now)) && NotAfter(EditById(ts, id, e, now), now)
  {
    var ts' := EditById(ts, id, e, now);
    forall t | t in ts' ensures t.createdAt <= t.updatedAt <= now {
      var i :| 0 <= i < |ts'| && ts'[i] == t;
      assert ts[i] in ts;
    }
  }

  // ---------------------------------------------------------------------------
  // The notification feed

  /** `notifications.map(n => n.id === id ? { ...n, read: true } : n)`. */
  function MarkRead(ns: seq<Notification>, id: string): (r: seq<Notification>)
    ensures |r| == |ns|
    ensures forall i :: 0 <= i < |ns| ==>
      r[i].read == (ns[i].read || ns[i].id == id) && r[i].(read := ns[i].read) == ns[i]
  {
    if ns == [] then []
    else [if ns[0].id == id then ns[0].(read := true) else ns[0]] + MarkRead(ns[1..], id)
  }

  /** Marking read twice is marking read once. */
  lemma MarkReadIdempotent(ns: seq<Notification>, id: string)
    ensures MarkRead(MarkRead(ns, id), id) == MarkRead(ns, id)
  {
    var once := MarkRead(ns, id);
    var twice := MarkRead(once, id);
    forall i | 0 <= i < |ns| ensures twice[i] == once[i] {
      assert once[i].id == ns[i].id;
    }
  }

  /** `notifications.map(n => ({ ...n, read: true }))`. */
  function MarkAllRead(ns: seq<Notification>): (r: seq<Notification>)
    ensures |r| == |ns|
    ensures forall i :: 0 <= i < |ns| ==> r[i].read && r[i].(read := ns[i].read) == ns[i]
  {
    if ns == [] then [] else [ns[0].(read := true)] + MarkAllRead(ns[1..])
  }

  /** `notifications.filter(n => n.id !== id)`. */
  function Dismiss(ns: seq<Notification>, id: string): (r: seq<Notification>)
    ensures |r| <= |ns|
    ensures forall n :: n in r <==> n in ns && n.id != id
  {
    if ns == [] then []
    else
      var rest := Dismiss(ns[1..], id);
      assert forall n :: n in ns <==> n == ns[0] || n in ns[1..];
      if ns[0].id != id then [ns[0]] + rest else rest
  }

  /** How many entries carry the given id. */
  function Occurrences(ns: seq<Notification>, id: string): (c: nat)
    ensures c <= |ns|
    ensures c == 0 <==> forall n :: n in ns ==> n.id != id
  {
    if ns == [] then 0
    else
      assert forall n :: n in ns <==> n == ns[0] || n in ns[1..];
      (if ns[0].id == id then 1 else 0) + Occurrences(ns[1..], id)
  }

  /** Dismiss removes every entry with the id (so exactly one when the id occurs once). */
  lemma {:induction false} DismissRemovesOccurrences(ns: seq<Notification>, id: string)
    ensures |Dismiss(ns, id)| == |ns| - Occurrences(ns, id)
  {
    if ns != [] {
      DismissRemovesOccurrences(ns[1..], id);
    }
  }

  /** Dismiss works entry by entry, so the remaining entries keep their relative order. */
  lemma {:induction false} DismissAppend(a: seq<Notification>, b: seq<Notification>, id: string)
    ensures Dismiss(a + b, id) == Dismiss(a, id) + Dismiss(b, id)
  {
    if a == [] {
      assert a + b == b;
    } else {
      assert (a + b)[0] == a[0];
      assert (a + b)[1..] == a[1..] + b;
      DismissAppend(a[1..], b, id);
    }
  }

  /** Dismissing an id that is not in the feed changes nothing. */
  lemma {:induction false} DismissAbsent(ns: seq<Notification>, id: string)
    requires Occurrences(ns, id) == 0
    ensures Dismiss(ns, id) == ns
  {
    if ns != [] {
      assert ns[0] in ns;
      DismissAbsent(ns[1..], id);
    }
  }

  /** After marking all read, whatever a dismiss leaves is still read. */
  lemma DismissAfterMarkAllRead(ns: seq<Notification>, id: string)
    ensures forall n :: n in Dismiss(MarkAllRead(ns), id) ==> n.read
  {
    var all := MarkAllRead(ns);
    forall n | n in Dismiss(all, id) ensures n.read {
      var i :| 0 <= i < |all| && all[i] == n;
    }
  }

  // ---------------------------------------------------------------------------
  // The shell's state

  /** The four `useState` cells of the application shell. */
  class Dashboard {
    var tickets: seq<Ticket>
    var notifications: seq<Notification>
    var selected: Option<Ticket>
    var newTicketDialogOpen: bool

    ghost predicate Valid()
      reads this
    {
      UniqueIds(tickets) && SelectionConsistent(tickets, selected)
    }

    /** The shell on first render: the seed lists, nothing selected, dialog closed. */
    constructor (seedTickets: seq<Ticket>, seedNotifications: seq<Notification>)
      requires UniqueIds(seedTickets)
      ensures Valid()
      ensures tickets == seedTickets && notifications == seedNotifications
      ensures selected == None && !newTicketDialogOpen
    {
      tickets := seedTickets;
      notifications := seedNotifications;
      selected := None;
      newTicketDialogOpen := false;
    }

    /** The "New Ticket" button and the dialog's own open/close changes. */
    method SetNewTicketDialogOpen(open: bool)
      requires Valid()
      modifies this
      ensures Valid()
      ensures newTicketDialogOpen == open
      ensures tickets == old(tickets) && notifications == old(notifications) && selected == old(selected)
    {
      newTicketDialogOpen := open;
    }

    /**
     * `handleCreateTicket`: one open ticket with the submitted fields goes in
     * front of the unchanged list, one unread "New Ticket Created"
     * notification goes in front of the unchanged feed, and the dialog closes.
     */
    method CreateTicket(d: Draft, ticketId: string, notifId: string, now: nat)
      requires Valid()
      requires !HasId(tickets, ticketId)
      modifies this
      ensures Valid()
      ensures tickets == [NewTicket(d, ticketId, now)] + old(tickets)
      ensures notifications == [CreatedNotice(tickets[0], notifId, now)] + old(notifications)
      ensures selected == old(selected)
      ensures !newTicketDialogOpen
    {
      var t := NewTicket(d, ticketId, now);
      CreateKeepsInvariant(tickets, selected, d, ticketId, now);
      tickets := [t] + tickets;
      notifications := [CreatedNotice(t, notifId, now)] + notifications;
      newTicketDialogOpen := false;
    }

    /**
     * The body shared by `handleUpdateStatus` and `handleAssignAgent`. When
     * some ticket matches, its edit is applied, one notification is
     * prepended and a selection with that id is refreshed; when none
     * matches, nothing changes.
     */
    method ApplyEdit(ticketId: string, e: TicketEdit, notifId: string, now: nat)
      requires Valid()
      modifies this
      ensures Valid()
      ensures tickets == EditById(old(tickets), ticketId, e, now)
      ensures notifications == if HasId(old(tickets), ticketId)
                               then [EditNotice(ticketId, e, notifId, now)] + old(notifications)
                               else old(notifications)
      ensures selected.Some? <==> old(selected).Some?
      ensures selected.Some? ==> selected == FindById(tickets, old(selected).value.id)
      ensures !HasId(old(tickets), ticketId) ==> tickets == old(tickets) && selected == old(selected)
      ensures newTicketDialogOpen == old(newTicketDialogOpen)
    {
      EditKeepsInvariant(tickets, selected, ticketId, e, now);
      if !HasId(tickets, ticketId) {
        EditUnknownId(tickets, ticketId, e, now);
      }
      var edited := EditById(tickets, ticketId, e, now);
      if HasId(tickets, ticketId) {
        selected := SelectionAfterEdit(tickets, selected, ticketId, e, now);
        notifications := [EditNotice(ticketId, e, notifId, now)] + notifications;
      }
      tickets := edited;
    }

    /** `handleUpdateStatus`: sets the matching ticket's status to exactly `status`. */
    method UpdateStatus(ticketId: string, status: Status, notifId: string, now: nat)
      requires Valid()
      modifies this
      ensures Valid()
      ensures tickets == EditById(old(tickets), ticketId, SetStatus(status), now)
      ensures notifications == if HasId(old(tickets), ticketId)
                               then [EditNotice(ticketId, SetStatus(status), notifId, now)] + old(notifications)
                               else old(notifications)
      ensures selected.Some? <==> old(selected).Some?
      ensures selected.Some? ==> selected == FindById(tickets, old(selected).value.id)
      ensures !HasId(old(tickets), ticketId) ==> tickets == old(tickets) && selected == old(selected)
      ensures newTicketDialogOpen == old(newTicketDialogOpen)
    {
      ApplyEdit(ticketId, SetStatus(status), notifId, now);
    }

    /** `handleAssignAgent`: sets the matching ticket's agent to exactly `agent`. */
    method AssignAgent(ticketId: string, agent: string, notifId: string, now: nat)
      requires Valid()
      modifies this
      ensures Valid()
      ensures tickets == EditById(old(tickets), ticketId, SetAgent(agent), now)
      ensures notifications == if HasId(old(tickets), ticketId)
                               then [EditNotice(ticketId, SetAgent(agent), notifId, now)] + old(notifications)
                               else old(notifications)
      ensures selected.Some? <==> old(selected).Some?
      ensures selected.Some? ==> selected == FindById(tickets, old(selected).value.id)
      ensures !HasId(old(tickets), ticketId) ==> tickets == old(tickets) && selected == old(selected)
      ensures newTicketDialogOpen == old(newTicketDialogOpen)
    {
      ApplyEdit(ticketId, SetAgent(agent), notifId, now);
    }

    /** `handleSelectTicket`, called by the list with one of its entries. */
    method SelectTicket(t: Ticket)
      requires Valid() && t in tickets
      modifies this
      ensures Valid()
      ensures selected == Some(t)
      ensures tickets == old(tickets) && notifications == old(notifications)
      ensures newTicketDialogOpen == old(newTicketDialogOpen)
    {
      SelectEstablishesConsistency(tickets, t);
      selected := Some(t);
    }

    /** `handleMarkNotificationAsRead`. */
    method MarkNotificationAsRead(id: string)
      requires Valid()
      modifies this
      ensures Valid()
      ensures notifications == MarkRead(old(notifications), id)
      ensures tickets == old(tickets) && selected == old(selected)
      ensures newTicketDialogOpen == old(newTicketDialogOpen)
    {
      notifications := MarkRead(notifications, id);
    }

    /** `handleMarkAllNotificationsAsRead`. */
    method MarkAllNotificationsAsRead()
      requires Valid()
      modifies this
      ensures Valid()
      ensures notifications == MarkAllRead(old(notifications))
      ensures tickets == old(tickets) && selected == old(selected)
      ensures newTicketDialogOpen == old(newTicketDialogOpen)
    {
      notifications := MarkAllRead(notifications);
    }

    /** `handleDismissNotification`. */
    method DismissNotification(id: string)
      requires Valid()
      modifies this
      ensures Valid()
      ensures notifications == Dismiss(old(notifications), id)
      ensures tickets == old(tickets) && selected == old(selected)
      ensures newTicketDialogOpen == old(newTicketDialogOpen)
    {
      notifications := Dismiss(notifications, id);
    }

    /**
     * The wiring of the detail pane to the shell: an event in the pane of the
     * selected ticket is turned into a request, which the matching handler
     * applies. An event that yields no request (choosing "unassigned",
     * "Move to ..." on a closed ticket, or any event with nothing selected)
     * changes nothing.
     */
    method OnDetailEvent(ev: TicketDetail.DetailEvent, notifId: string, now: nat)
      requires Valid()
      modifies this
      ensures Valid()
      ensures TicketDetail.Handle(old(selected), ev).None? ==>
        tickets == old(tickets) && notifications == old(notifications) && selected == old(selected)
      ensures ev.PressStatus? && old(selected).Some? ==>
        selected.Some? && selected.value.status == ev.status && selected.value.updatedAt == now
      ensures ev.ChooseAgent? && ev.value != TicketDetail.Unassigned && old(selected).Some? ==>
        selected.Some? && selected.value.assignedAgent == Some(ev.value)
      ensures ev.PressMoveToNext? && old(selected).Some? && old(selected).value.status != Closed ==>
        selected.Some? && selected.value.status == TicketDetail.NextStatus(old(selected).value.status).value
      ensures TicketDetail.Handle(old(selected), ev).Some? ==>
        match TicketDetail.Handle(old(selected), ev).value
        case UpdateStatus(id, s) =>
          tickets == EditById(old(tickets), id, SetStatus(s), now)
          && notifications == [EditNotice(id, SetStatus(s), notifId, now)] + old(notifications)
          && selected == Some(Edit(old(selected).value, SetStatus(s), now))
        case AssignAgent(id, a) =>
          tickets == EditById(old(tickets), id, SetAgent(a), now)
          && notifications == [EditNotice(id, SetAgent(a), notifId, now)] + old(notifications)
          && selected == Some(Edit(old(selected).value, SetAgent(a), now))
      ensures newTicketDialogOpen == old(newTicketDialogOpen)
    {
      var request := TicketDetail.Handle(selected, ev);
      if request.Some? {
        var r := request.value;
        if r.UpdateStatus? {
          EditKeepsInvariant(tickets, selected, r.ticketId, SetStatus(r.status), now);
          UpdateStatus(r.ticketId, r.status, notifId, now);
        } else {
          EditKeepsInvariant(tickets, selected, r.ticketId, SetAgent(r.agent), now);
          AssignAgent(r.ticketId, r.agent, notifId, now);
        }
      }
    }
  }
}
