# IT support ticket dashboard — state model

This project models the logic underneath an in-memory support-ticket dashboard
written in React. The dashboard's shell owns four pieces of state: the ticket
list, the notification feed, the selected ticket and the "new ticket" dialog
flag. Six handlers replace that state. A detail pane turns clicks into
status-update and agent-assignment requests. A stats strip counts tickets per
status. A form collects new tickets and resets itself after each submit.

Modules follow the source files:

- `Wrappers` (`wrappers.dfy`): `Option`, for `T | null` and optional fields.
- `TicketForm` (`ticket_form.dfy`): the `Priority` and `Status` enumerations, the
  `Ticket` record, the submitted `Draft`, and the class `NewTicketForm` with the
  form's five state cells and its submit-then-reset step.
- `TicketStats` (`ticket_stats.dfy`): the per-status filter counts and their laws.
- `TicketDetail` (`ticket_detail.dfy`): the lifecycle order, `nextStatus`, the
  status labels built with `replace`, the rendered pane and the mapping from
  user events to requests.
- `App` (`app.dfy`): the pure list operations behind each handler (map by id,
  prepend, filter), their lemmas, and the class `Dashboard` whose fields are the
  shell's four state cells and whose methods are the handlers.

Time is an abstract `nat` clock reading `now`. Both a new ticket's id and a
notification's id are parameters. A new ticket id must not already be in the
list, because the source builds it from the clock and does not check it.
`Dashboard.Valid()` says two things. Ticket ids are unique. The selection, when
there is one, equals the list entry with its id. The constructor establishes
both, and every handler keeps them.

Two behaviours of the code are easy to misread, and the model keeps them as written:

- Creating a ticket puts its notification at the FRONT of the feed, like the
  status-update and agent-assignment handlers do.
- Dismissing removes every entry with the id, which is exactly one entry only
  when the id occurs once (`DismissRemovesOccurrences`).

## Model

| member | source | states |
|---|---|---|
| `TicketForm.ParsePriority` | src/app/components/ticket-form.tsx:14 | a string is a priority only if it is one of the four literals low, medium, high, critical |
| `TicketForm.ParseStatus` | src/app/components/ticket-form.tsx:15 | a string is a status only if it is one of open, in-progress, resolved, closed |
| `TicketForm.EnumerationsRoundTrip` | src/app/components/ticket-form.tsx:14-15 | each enumeration value's literal reads back as that value |
| `TicketDetail.ReplaceFirst` | src/app/components/ticket-detail.tsx:63 | `replace` with a one-character pattern keeps the length |
| `TicketDetail.ReplaceFirstOnlyFirst` | src/app/components/ticket-detail.tsx:63 | `replace` changes a position exactly when it holds the pattern and no earlier position does |
| `TicketDetail.ReplaceAbsent` | src/app/components/ticket-detail.tsx:63 | `replace` with a pattern that does not occur returns the string unchanged |
| `TicketDetail.ReplaceAfterPrefix` | src/app/components/ticket-detail.tsx:63 | `replace` keeps a prefix that does not hold the pattern and replaces in the rest |
| `TicketDetail.StatusNameDash` | src/app/components/ticket-detail.tsx:63 | only the in-progress literal holds a dash, so only its label changes, to "in progress" |
| `TicketForm.InitialFields` | src/app/components/ticket-form.tsx:28-32 | the form starts with four empty text fields and priority medium, which the required fields do not let submit |
| `TicketForm.Submittable` | src/app/components/ticket-form.tsx:71-106 | the form can be submitted exactly when none of the four `required` fields (title, description, name, email) is empty |
| `TicketForm.Payload` | src/app/components/ticket-form.tsx:36-42 | the submitted object carries exactly the five field values and no agent; id, status and timestamps are absent from its type |
| `TicketForm.PayloadRoundTrip` | src/app/components/ticket-form.tsx:36-42 | a draft without an agent is recovered from its five fields, so nothing else is sent |
| `TicketForm.NewTicketForm.constructor` | src/app/components/ticket-form.tsx:28-32 | the form's five cells start at the initial values |
| `TicketForm.NewTicketForm.Submit` | src/app/components/ticket-form.tsx:34-49 | runs only when the required fields are filled in, forwards those five values, then returns to the initial state, which cannot be submitted until filled in again |
| `TicketStats.Count` | src/app/components/ticket-stats.tsx:11-14 | a filter length is at most the list length and is zero exactly when no ticket has that status |
| `TicketStats.WithStatus` | src/app/components/ticket-stats.tsx:11-14 | the filter keeps exactly the tickets with the given status and never grows the list |
| `TicketStats.ComputeStats` | src/app/components/ticket-stats.tsx:10-15 | each counter is the number of tickets with that status, at most the list length, and the four add up to the list length |
| `TicketStats.CountsAddUp` | src/app/components/ticket-stats.tsx:10-15 | every ticket is counted under exactly one of the four statuses |
| `TicketStats.CountPermutation` | src/app/components/ticket-stats.tsx:10-15 | a counter is the same for any reordering of the list |
| `TicketStats.StatsPermutation` | src/app/components/ticket-stats.tsx:10-15 | all four counters are the same for any reordering of the list |
| `TicketStats.StatsPrepend` | src/app/components/ticket-stats.tsx:10-15 | a ticket put in front raises its own status's counter by one and no other |
| `TicketStats.StatsReplace` | src/app/components/ticket-stats.tsx:10-15 | replacing one ticket moves one unit from its old status's counter to its new one; equal statuses change nothing |
| `TicketDetail.Rank` | src/app/components/ticket-detail.tsx:46 | each status's position in `statusFlow`: the entry at that position is the status |
| `TicketDetail.StatusLabel` | src/app/App.tsx:204 | `status.replace("-", " ")` is "in progress" for in-progress and the status's own literal for the other three |
| `TicketDetail.IndexOf` | src/app/components/ticket-detail.tsx:47 | `indexOf` gives the first position holding the value, or -1 exactly when it is absent |
| `TicketDetail.IndexOfIsRank` | src/app/components/ticket-detail.tsx:46-47 | the lookup in `statusFlow` gives each status's lifecycle position |
| `TicketDetail.NextStatus` | src/app/components/ticket-detail.tsx:46-48 | the successor is one lifecycle step further, never the current status, and absent exactly for closed |
| `TicketDetail.Advance` | src/app/components/ticket-detail.tsx:157-165 | k presses of "Move to ..." go exactly k lifecycle steps further, and yield nothing exactly when that would pass closed |
| `TicketDetail.AdvanceReachesClosed` | src/app/components/ticket-detail.tsx:157-165 | pressing "Move to ..." at most three times from any status reaches closed |
| `TicketDetail.AdvanceStopsAtClosed` | src/app/components/ticket-detail.tsx:157 | a closed ticket offers no further step |
| `TicketDetail.SelectorValue` | src/app/components/ticket-detail.tsx:119 | the selector shows "unassigned" for an absent or empty agent and the agent's name otherwise |
| `TicketDetail.OnAgentChosen` | src/app/components/ticket-detail.tsx:120-124 | choosing "unassigned" emits nothing; any other value is emitted unchanged with the ticket's id |
| `TicketDetail.Render` | src/app/components/ticket-detail.tsx:33-165 | no selection gives only the placeholder; otherwise exactly the ticket's own status button is highlighted and "Move to ..." is shown unless closed, naming the status one lifecycle step further on |
| `TicketDetail.Handle` | src/app/components/ticket-detail.tsx:146-165 | with nothing selected no request is emitted; every request carries the selected ticket's id |
| `TicketDetail.AnyStatusRequestable` | src/app/components/ticket-detail.tsx:146-155 | each of the four statuses, backwards included, can be requested from any status |
| `TicketDetail.MoveToNextRequestsSuccessor` | src/app/components/ticket-detail.tsx:157-165 | "Move to ..." requests exactly the successor, which differs from the current status, and is absent only when closed |
| `TicketDetail.AgentGuard` | src/app/components/ticket-detail.tsx:120-124 | through the pane, "unassigned" yields no assignment and any other value yields an assignment to exactly that value |
| `App.FindById` | src/app/App.tsx:190 | the lookup by id finds a list entry with that id, and finds nothing exactly when no entry has it |
| `App.FindUnique` | src/app/App.tsx:190 | with unique ids, looking up an entry's id finds that very entry |
| `App.SelectEstablishesConsistency` | src/app/App.tsx:258-260 | selecting an entry of the list makes the selection equal to the list entry with its id |
| `App.NewTicket` | src/app/App.tsx:156-162 | the new ticket is open, carries the given id, has createdAt = updatedAt = now, and copies the submitted fields verbatim |
| `App.CreatedNotice` | src/app/App.tsx:166-173 | the creation notification is unread, of kind ticket, titled "New Ticket Created" |
| `App.CreateKeepsInvariant` | src/app/App.tsx:156-163 | prepending a ticket with a fresh id keeps ids unique, the selection consistent and timestamps ordered |
| `App.CreateRaisesOpen` | src/app/App.tsx:159-163 | a created ticket raises the open counter by one and leaves the other three unchanged |
| `App.Edit` | src/app/App.tsx:191-195 | the edited field takes exactly the requested value, even if unchanged; updatedAt becomes now; every other field stays |
| `App.EditById` | src/app/App.tsx:189-214 | length and order are kept; matching entries are edited and all others are left as they were |
| `App.EditNotice` | src/app/App.tsx:201-208 | a matching update prepends an unread "Status Updated" notification of kind status, an assignment an "Agent Assigned" one of kind assignment |
| `App.SelectionAfterEdit` | src/app/App.tsx:196-198 | the selection keeps its presence and its id; a selection with another id is untouched, and one with the edited id is re-stamped with now |
| `App.EditKeepsInvariant` | src/app/App.tsx:196-198 | after an update or assignment the ids stay unique and the selection keeps its id and is again the live list entry, carrying the edit |
| `App.EditUnknownId` | src/app/App.tsx:189-214 | an id that matches no ticket changes no ticket |
| `App.EditReplacesOne` | src/app/App.tsx:189-213 | with unique ids an edit replaces exactly the one entry with that id |
| `App.UpdateStatusMovesCount` | src/app/App.tsx:188-215 | a status change from s to s' lowers counter s by one and raises s' by one; s = s' leaves the counters as they were |
| `App.AssignKeepsCounts` | src/app/App.tsx:225-252 | an assignment changes no status counter |
| `App.AssignKeepsStats` | src/app/App.tsx:225-252 | an assignment leaves all four counters as they were |
| `App.EditKeepsTimesOrdered` | src/app/App.tsx:191-195 | given a clock not earlier than any timestamp, updatedAt >= createdAt still holds after an edit |
| `App.MarkRead` | src/app/App.tsx:262-268 | entries with the id become read, other entries and all other fields are untouched, length and order kept |
| `App.MarkReadIdempotent` | src/app/App.tsx:262-268 | marking read twice gives the same feed as marking read once |
| `App.MarkAllRead` | src/app/App.tsx:270-274 | every entry becomes read with all other fields, the length and the order kept |
| `App.Dismiss` | src/app/App.tsx:276-278 | the result holds exactly the entries whose id differs from the given one |
| `App.Occurrences` | src/app/App.tsx:277 | the number of entries with an id is zero exactly when no entry has it |
| `App.DismissRemovesOccurrences` | src/app/App.tsx:276-278 | dismiss removes every entry with the id, so exactly one when the id occurs once |
| `App.DismissAppend` | src/app/App.tsx:276-278 | dismiss works entry by entry, so the kept entries keep their relative order |
| `App.DismissAbsent` | src/app/App.tsx:276-278 | dismissing an absent id is a no-op |
| `App.DismissAfterMarkAllRead` | src/app/App.tsx:270-278 | after marking all read, every entry a dismiss leaves is still read |
| `App.Dashboard.constructor` | src/app/App.tsx:26-133 | the shell starts with the seed lists, no selection and the dialog closed |
| `App.Dashboard.SetNewTicketDialogOpen` | src/app/App.tsx:327 | the dialog flag takes the given value and nothing else changes |
| `App.Dashboard.CreateTicket` | src/app/App.tsx:150-182 | one new open ticket goes in front of the unchanged list, one "New Ticket Created" notification in front of the unchanged feed; the dialog closes |
| `App.Dashboard.ApplyEdit` | src/app/App.tsx:188-215 | the list is edited by id; one notification is prepended exactly when some ticket matches; the selection keeps its id and mirrors the list |
| `App.Dashboard.UpdateStatus` | src/app/App.tsx:184-219 | the matching ticket gets exactly the requested status; a miss leaves tickets, feed and selection unchanged |
| `App.Dashboard.AssignAgent` | src/app/App.tsx:221-256 | the matching ticket gets exactly the given agent; a miss leaves tickets, feed and selection unchanged |
| `App.Dashboard.SelectTicket` | src/app/App.tsx:258-260 | the selection becomes the given list entry and stays consistent |
| `App.Dashboard.MarkNotificationAsRead` | src/app/App.tsx:262-268 | the feed becomes `MarkRead` of the old feed; nothing else changes |
| `App.Dashboard.MarkAllNotificationsAsRead` | src/app/App.tsx:270-274 | the feed becomes `MarkAllRead` of the old feed; nothing else changes |
| `App.Dashboard.DismissNotification` | src/app/App.tsx:276-278 | the feed becomes `Dismiss` of the old feed; nothing else changes |
| `App.Dashboard.OnDetailEvent` | src/app/App.tsx:343-348 | a pane event that yields no request changes nothing; a status request edits the list by id and prepends one status notice, an assignment request likewise; afterwards the selected ticket has the pressed status, the successor status after "Move to ...", or the chosen agent, and the selection is the edited selected ticket with its timestamp set to `now` |

## Left out

- Rendering: JSX, styling, icons, cards, badges, selects, dialogs, the toaster and every `toast` call.
- `src/app/components/ticket-list.tsx`: it only renders the list and emits the selection, which `SelectTicket` takes.
- Dates: `Date`, `Date.now()` and date formatting. Time is a `nat` parameter, and the model does not assume a monotone clock except where a lemma says so.
- `App.NewTicket`, `App.CreatedNotice`, `App.Edit`, `App.EditNotice`: one `now` stands for every clock read of a handler. The source reads the clock separately for `createdAt`, `updatedAt` and the notification timestamp (src/app/App.tsx:160, 161, 170), and those reads can fall in different milliseconds. `createdAt == updatedAt` for a new ticket holds only under this abstraction.
- Id generation from `Date.now()`: ticket and notification ids are parameters. Notification ids are not assumed unique. Dismiss and mark-read act on every entry with the id because `filter` and `map` do.
- React closures and batching: each handler is one atomic step over the current state. Two handler calls that read the same stale `tickets` or `notifications` before a re-render are not modelled; there the second call's result would overwrite the first's.
- The seed tickets and notification, the current user and the agent roster: the constructor takes any seed with unique ids. An assignable agent is any string.
- The form's four `onChange` setters and the priority select's `onValueChange`: each replaces one field, and the class's fields are assignable directly.
- The email pattern on the form's email input: `Submittable` models only the non-empty required fields.
- The notifications menu and the user menu: they are not part of this model, so the unread count they display is not modelled.
- `App.SelectionAfterEdit`, `App.Dashboard.ApplyEdit`: with duplicate ticket ids, the source refreshes the selection from the last matching entry. The model uses the first (`FindById`). The two agree because ids are unique in `Dashboard.Valid()`. `App.EditById` itself edits every matching entry, as `tickets.map` does.
