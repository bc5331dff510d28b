/**
 * The ticket record, its two enumerations and the "raise a new ticket" form
 * (src/app/components/ticket-form.tsx).
 */
module TicketForm {
  import opened Wrappers

  /** Ticket priority: exactly four values. */
  datatype Priority = Low | Medium | High | Critical

  /** Ticket status: exactly four values, declared in lifecycle order. */
  datatype Status = Open | InProgress | Resolved | Closed

  /** The string literal each priority is in the source. */
  function PriorityName(p: Priority): string {
    match p
    case Low => "low"
    case Medium => "medium"
    case High => "high"
    case Critical => "critical"
  }

  /** The string literal each status is in the source. */
  function StatusName(s: Status): string {
    match s
    case Open => "open"
    case InProgress => "in-progress"
    case Resolved => "resolved"
    case Closed => "closed"
  }

  /** A string is a priority only if it is one of the four literals. */
  function ParsePriority(x: string): (r: Option<Priority>)
    ensures r.Some? ==> PriorityName(r.value) == x
    ensures r.None? ==> forall p: Priority :: PriorityName(p) != x
  {
    if x == "low" then Some(Low)
    else if x == "medium" then Some(Medium)
    else if x == "high" then Some(High)
    else if x == "critical" then Some(Critical)
    else None
  }

  /** A string is a status only if it is one of the four literals. */
  function ParseStatus(x: string): (r: Option<Status>)
    ensures r.Some? ==> StatusName(r.value) == x
    ensures r.None? ==> forall s: Status :: StatusName(s) != x
  {
    if x == "open" then Some(Open)
    else if x == "in-progress" then Some(InProgress)
    else if x == "resolved" then Some(Resolved)
    else if x == "closed" then Some(Closed)
    else None
  }

  lemma EnumerationsRoundTrip(p: Priority, s: Status)
    ensures ParsePriority(PriorityName(p)) == Some(p)
    ensures ParseStatus(StatusName(s)) == Some(s)
  {
  }

  /** A support ticket; timestamps are abstract clock readings. */
  datatype Ticket = Ticket(
    id: string,
    title: string,
    description: string,
    priority: Priority,
    status: Status,
    assignedAgent: Option<string>,
    createdAt: nat,
    updatedAt: nat,
    requesterName: string,
    requesterEmail: string)

  /**
   * What the form hands to its receiver: a ticket without id, status and
   * timestamps, which the receiver supplies.
   */
  datatype Draft = Draft(
    title: string,
    description: string,
    priority: Priority,
    assignedAgent: Option<string>,
    requesterName: string,
    requesterEmail: string)

  /** The five values the form holds while it is being filled in. */
  datatype FormFields = FormFields(
    title: string,
    description: string,
    priority: Priority,
    requesterName: string,
    requesterEmail: string)

  /**
   * The browser lets the form submit only when every field marked `required`
   * is non-empty (the email pattern is not modelled).
   */
  predicate Submittable(f: FormFields): (ok: bool)
    ensures ok <==> "" !in [f.title, f.description, f.requesterName, f.requesterEmail]
  {
    f.title != [] && f.description != [] && f.requesterName != [] && f.requesterEmail != []
  }

  /** The form's values on first render and after every submit. */
  function InitialFields(): (f: FormFields)
    ensures f.title == [] && f.description == [] && f.requesterName == [] && f.requesterEmail == []
    ensures f.priority == Medium
    ensures !Submittable(f)
  {
    FormFields("", "", Medium, "", "")
  }

  /** The form values a draft carries. */
  function FieldsOf(d: Draft): FormFields {
    FormFields(d.title, d.description, d.priority, d.requesterName, d.requesterEmail)
  }

  /** The object passed to `onSubmit`: the five field values and nothing else. */
  function Payload(f: FormFields): (d: Draft)
    ensures FieldsOf(d) == f
    ensures d.assignedAgent.None?
  {
    Draft(f.title, f.description, f.priority, None, f.requesterName, f.requesterEmail)
  }

  /** Payload loses nothing: a draft without an agent is the payload of its own fields. */
  lemma PayloadRoundTrip(d: Draft)
    requires d.assignedAgent.None?
    ensures Payload(FieldsOf(d)) == d
  {
  }

  /** The form component's five `useState` cells. */
  class NewTicketForm {
    var title: string
    var description: string
    var priority: Priority
    var requesterName: string
    var requesterEmail: string

    function Fields(): FormFields
      reads this
    {
      FormFields(title, description, priority, requesterName, requesterEmail)
    }

    constructor ()
      ensures Fields() == InitialFields()
    {
      title := "";
      description := "";
      priority := Medium;
      requesterName := "";
      requesterEmail := "";
    }

    /**
     * `handleSubmit`, which the browser runs only once the required fields are
     * filled in: forwards the current values, then resets every field. The
     * state afterwards is the initial state, which cannot be submitted again
     * until it is filled in anew.
     */
    method Submit() returns (submitted: Draft)
      requires Submittable(Fields())
      modifies this
      ensures submitted == Payload(old(Fields()))
      ensures Submittable(FieldsOf(submitted))
      ensures Fields() == InitialFields()
    {
      submitted := Payload(Fields());
      title := "";
      description := "";
      priority := Medium;
      requesterName := "";
      requesterEmail := "";
    }
  }
}
