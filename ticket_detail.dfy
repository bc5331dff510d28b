/**
 * The detail pane of the selected ticket (src/app/components/ticket-detail.tsx):
 * the status lifecycle, the per-status and "move to next" controls, and the
 * agent selector with its "unassigned" guard. The pane holds no state; it
 * turns user events into requests for the shell.
 */
module TicketDetail {
  import opened Wrappers
  import opened TicketForm

  /** `statusFlow`: the lifecycle order open, in-progress, resolved, closed. */
  const StatusFlow: seq<Status> := [Open, InProgress, Resolved, Closed]

  /** The position of a status in the lifecycle, read off its declaration. */
  function Rank(s: Status): (r: nat)
    ensures r < |StatusFlow| && StatusFlow[r] == s
  {
    match s
    case Open => 0
    case InProgress => 1
    case Resolved => 2
    case Closed => 3
  }

  /** JavaScript's `s.replace(from, to)` with a one-character string pattern. */
  function ReplaceFirst(s: string, from: char, to: char): (r: string)
    ensures |r| == |s|
  {
    if s == [] then []
    else if s[0] == from then [to] + s[1..]
    else [s[0]] + ReplaceFirst(s[1..], from, to)
  }

  /**
   * Only the first occurrence is replaced: a position changes exactly when it
   * holds `from` and no earlier position does.
   */
  lemma {:induction false} ReplaceFirstOnlyFirst(s: string, from: char, to: char)
    ensures forall i :: 0 <= i < |s| ==>
      ReplaceFirst(s, from, to)[i] == if s[i] == from && from !in s[..i] then to else s[i]
  {
    if s != [] && s[0] != from {
      ReplaceFirstOnlyFirst(s[1..], from, to);
      assert forall i :: 1 <= i < |s| ==> s[1..][..i - 1] == s[1..i] && s[..i] == [s[0]] + s[1..i];
    }
  }

  /** Replacing a character that does not occur leaves the string unchanged. */
  lemma {:induction false} ReplaceAbsent(s: string, from: char, to: char)
    requires from !in s
    ensures ReplaceFirst(s, from, to) == s
  {
    if s != [] {
      ReplaceAbsent(s[1..], from, to);
    }
  }

  /** A prefix free of the character is kept, and the rest is replaced. */
  lemma {:induction false} ReplaceAfterPrefix(p: string, s: string, from: char, to: char)
    requires from !in p
    ensures ReplaceFirst(p + s, from, to) == p + ReplaceFirst(s, from, to)
  {
    if p != [] {
      assert p[0] in p && (p + s)[0] == p[0];
      assert (p + s)[1..] == p[1..] + s;
      ReplaceAfterPrefix(p[1..], s, from, to);
      calc {
        ReplaceFirst(p + s, from, to);
        [p[0]] + ReplaceFirst(p[1..] + s, from, to);
        [p[0]] + (p[1..] + ReplaceFirst(s, from, to));
        { assert [p[0]] + p[1..] == p; }
        p + ReplaceFirst(s, from, to);
      }
    } else {
      assert p + s == s;
    }
  }

  /** Only in-progress has a dash in its literal, and it is the third character. */
  lemma StatusNameDash(s: Status)
    ensures s == InProgress ==> ReplaceFirst(StatusName(s), '-', ' ') == "in progress"
    ensures s != InProgress ==> ReplaceFirst(StatusName(s), '-', ' ') == StatusName(s)
  {
    match s
    case Open => ReplaceAbsent("open", '-', ' ');
    case InProgress =>
      assert "in-progress" == "in" + "-progress";
      ReplaceAfterPrefix("in", "-progress", '-', ' ');
    case Resolved => ReplaceAbsent("resolved", '-', ' ');
    case Closed => ReplaceAbsent("closed", '-', ' ');
  }

  /**
   * `status.replace("-", " ")`, the text shown for a status: "in progress"
   * for in-progress, the status's own literal for the other three.
   */
  function StatusLabel(s: Status): (r: string)
    ensures s == InProgress ==> r == "in progress"
    ensures s != InProgress ==> r == StatusName(s)
  {
    StatusNameDash(s);
    ReplaceFirst(StatusName(s), '-', ' ')
  }

  /** `Array.prototype.indexOf`: the first position holding `x`, or -1. */
  function IndexOf(xs: seq<Status>, x: Status): (i: int)
    ensures -1 <= i < |xs|
    ensures i == -1 <==> x !in xs
    ensures 0 <= i ==> xs[i] == x && x !in xs[..i]
  {
    if xs == [] then -1
    else if xs[0] == x then 0
    else
      var j := IndexOf(xs[1..], x);
      if j == -1 then -1
      else
        assert xs[..j + 1] == [xs[0]] + xs[1..][..j];
        j + 1
  }

  /** The lookup in `statusFlow` agrees with the declaration order. */
  lemma IndexOfIsRank(s: Status)
    ensures IndexOf(StatusFlow, s) == Rank(s)
  {
    var i := IndexOf(StatusFlow, s);
    assert s in StatusFlow;
    assert StatusFlow[i] == s;
  }

  /**
   * `nextStatus`: the successor of `s` in the lifecycle, or none for a closed
   * ticket. It is never `s` itself and always one step further along.
   */
  function NextStatus(s: Status): (r: Option<Status>)
    ensures r.None? <==> s == Closed
    ensures r.Some? ==> r.value != s && Rank(r.value) == Rank(s) + 1
  {
    var i := IndexOf(StatusFlow, s);
    IndexOfIsRank(s);
    if i < |StatusFlow| - 1 then Some(StatusFlow[i + 1]) else None
  }

  /**
   * The status reached by pressing "Move to ..." `k` times: `k` steps further
   * along the lifecycle, or none when that would go past closed (the button
   * is gone once the ticket is closed).
   */
  function Advance(s: Status, k: nat): (r: Option<Status>)
    ensures r.None? <==> Rank(s) + k > 3
    ensures r.Some? ==> Rank(r.value) == Rank(s) + k
    decreases k
  {
    if k == 0 then Some(s)
    else match NextStatus(s)
      case None => None
      case Some(t) => Advance(t, k - 1)
  }

  /** From any status, at most three presses of "Move to ..." reach closed. */
  lemma {:induction false} AdvanceReachesClosed(s: Status)
    ensures Advance(s, 3 - Rank(s)) == Some(Closed)
    decreases 3 - Rank(s)
  {
    match NextStatus(s)
    case None =>
    case Some(t) => AdvanceReachesClosed(t);
  }

  /** A closed ticket offers no further step. */
  lemma AdvanceStopsAtClosed(k: nat)
    requires k > 0
    ensures Advance(Closed, k) == None
  {
  }

  /** What the pane asks the shell to do. */
  datatype Request =
    | UpdateStatus(ticketId: string, status: Status)
    | AssignAgent(ticketId: string, agent: string)
  {
    function TicketId(): string {
      match this
      case UpdateStatus(id, _) => id
      case AssignAgent(id, _) => id
    }
  }

  /** What the user does in the pane. */
  datatype DetailEvent =
    | PressStatus(status: Status)  // one of the four per-status buttons
    | PressMoveToNext              // the "Move to ..." button
    | ChooseAgent(value: string)   // a value picked in the agent selector

  /** The selector item that stands for "no agent". */
  const Unassigned: string := "unassigned"

  /** `ticket.assignedAgent || "unassigned"`: an absent or empty agent shows as unassigned. */
  function SelectorValue(t: Ticket): (v: string)
    ensures t.assignedAgent.None? || t.assignedAgent.value == "" ==> v == Unassigned
    ensures t.assignedAgent.Some? && t.assignedAgent.value != "" ==> v == t.assignedAgent.value
  {
    match t.assignedAgent
    case Some(a) => if a != "" then a else Unassigned
    case None => Unassigned
  }

  /** `onValueChange`: "unassigned" emits nothing; any other value is forwarded as is. */
  function OnAgentChosen(t: Ticket, value: string): (r: Option<Request>)
    ensures r.None? <==> value == Unassigned
    ensures r.Some? ==> r.value == AssignAgent(t.id, value)
  {
    if value != Unassigned then Some(AssignAgent(t.id, value)) else None
  }

  /** What the pane shows: a placeholder, or the controls of one ticket. */
  datatype DetailView =
    | Placeholder
    | Detail(
        ticketId: string,
        selectorValue: string,
        highlighted: seq<bool>,    // per status button, in `statusFlow` order
        moveTo: Option<Status>)    // target of "Move to ...", if shown

  /**
   * The pane for the current selection. Exactly one status button, the
   * ticket's own, is highlighted; "Move to ..." is shown unless the ticket
   * is closed.
   */
  function Render(sel: Option<Ticket>): (v: DetailView)
    ensures v.Placeholder? <==> sel.None?
    ensures v.Detail? ==> v.ticketId == sel.value.id && v.selectorValue == SelectorValue(sel.value)
    ensures v.Detail? ==> |v.highlighted| == |StatusFlow|
    ensures v.Detail? ==>
      forall i :: 0 <= i < |StatusFlow| ==> (v.highlighted[i] <==> i == Rank(sel.value.status))
    ensures v.Detail? ==> (v.moveTo.None? <==> sel.value.status == Closed)
    ensures v.Detail? && v.moveTo.Some? ==> Rank(v.moveTo.value) == Rank(sel.value.status) + 1
  {
    match sel
    case None => Placeholder
    case Some(t) =>
      IndexOfIsRank(t.status);
      Detail(t.id, SelectorValue(t),
             seq(|StatusFlow|, i requires 0 <= i < |StatusFlow| => t.status == StatusFlow[i]),
             NextStatus(t.status))
  }

  /** The request an event in the pane triggers, if any. */
  function Handle(sel: Option<Ticket>, ev: DetailEvent): (r: Option<Request>)
    ensures sel.None? ==> r.None?
    ensures r.Some? ==> r.value.TicketId() == sel.value.id
  {
    match sel
    case None => None
    case Some(t) =>
      match ev
      case PressStatus(s) => Some(UpdateStatus(t.id, s))
      case PressMoveToNext =>
        (match NextStatus(t.status)
         case Some(n) => Some(UpdateStatus(t.id, n))
         case None => None)
      case ChooseAgent(value) => OnAgentChosen(t, value)
  }

  /** No forward-only guard: every status, backwards included, can be requested from every status. */
  lemma AnyStatusRequestable(t: Ticket, s: Status)
    ensures Handle(Some(t), PressStatus(s)) == Some(UpdateStatus(t.id, s))
  {
  }

  /** "Move to ..." requests exactly the successor, so never the current status. */
  lemma MoveToNextRequestsSuccessor(t: Ticket)
    ensures t.status == Closed <==> Handle(Some(t), PressMoveToNext).None?
    ensures t.status != Closed ==>
      Handle(Some(t), PressMoveToNext) == Some(UpdateStatus(t.id, NextStatus(t.status).value))
      && NextStatus(t.status).value != t.status
  {
  }

  /** The agent selector never assigns "unassigned" and forwards every other value with the ticket's id. */
  lemma AgentGuard(t: Ticket, value: string)
    ensures Handle(Some(t), ChooseAgent(value)) == if value == Unassigned then None else Some(AssignAgent(t.id, value))
  {
  }
}
