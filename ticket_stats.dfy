/** The per-status counters of the dashboard (src/app/components/ticket-stats.tsx). */
module TicketStats {
  import opened TicketForm

  /** `tickets.filter((t) => t.status === s)`. */
  function WithStatus(ts: seq<Ticket>, s: Status): (r: seq<Ticket>)
    ensures |r| <= |ts|
    ensures forall t :: t in r <==> t in ts && t.status == s
  {
    if ts == [] then []
    else
      var rest := WithStatus(ts[1..], s);
      assert forall t :: t in ts <==> t == ts[0] || t in ts[1..];
      if ts[0].status == s then [ts[0]] + rest else rest
  }

  /**
   * `tickets.filter((t) => t.status === s).length`: at most the list length,
   * and zero exactly when no ticket has status `s`.
   */
  function Count(ts: seq<Ticket>, s: Status): (n: nat)
    ensures n <= |ts|
    ensures n == 0 <==> forall t :: t in ts ==> t.status != s
  {
    var kept := WithStatus(ts, s);
    assert kept != [] ==> kept[0] in kept;
    |kept|
  }

  /** The four counters shown on the dashboard. */
  datatype Stats = Stats(open: nat, inProgress: nat, resolved: nat, closed: nat)

  /** The counter that belongs to status `s`. */
  function CountOf(st: Stats, s: Status): nat {
    match s
    case Open => st.open
    case InProgress => st.inProgress
    case Resolved => st.resolved
    case Closed => st.closed
  }

  /**
   * The `stats` object. Because status has exactly four values, the counters
   * add up to the number of tickets, and none exceeds it.
   */
  function ComputeStats(ts: seq<Ticket>): (r: Stats)
    ensures forall s :: CountOf(r, s) == Count(ts, s) <= |ts|
    ensures r.open + r.inProgress + r.resolved + r.closed == |ts|
  {
    CountsAddUp(ts);
    Stats(Count(ts, Open), Count(ts, InProgress), Count(ts, Resolved), Count(ts, Closed))
  }

  /** Filtering distributes over concatenation. */
  lemma {:induction false} WithStatusAppend(a: seq<Ticket>, b: seq<Ticket>, s: Status)
    ensures WithStatus(a + b, s) == WithStatus(a, s) + WithStatus(b, s)
  {
    if a == [] {
      assert a + b == b;
    } else {
      assert (a + b)[0] == a[0];
      assert (a + b)[1..] == a[1..] + b;
      WithStatusAppend(a[1..], b, s);
    }
  }

  lemma {:induction false} CountAppend(a: seq<Ticket>, b: seq<Ticket>, s: Status)
    ensures Count(a + b, s) == Count(a, s) + Count(b, s)
  {
    WithStatusAppend(a, b, s);
  }

  /** Every ticket is counted under exactly one status. */
  lemma {:induction false} CountsAddUp(ts: seq<Ticket>)
    ensures Count(ts, Open) + Count(ts, InProgress) + Count(ts, Resolved) + Count(ts, Closed) == |ts|
  {
    if ts != [] {
      CountsAddUp(ts[1..]);
    }
  }

  /** The counters depend only on which tickets there are, not on their order. */
  lemma {:induction false} CountPermutation(a: seq<Ticket>, b: seq<Ticket>, s: Status)
    requires multiset(a) == multiset(b)
    ensures Count(a, s) == Count(b, s)
    decreases |a|
  {
    if a == [] {
      assert |b| == |multiset(b)| == 0;
    } else {
      var x := a[0];
      assert x in multiset(b);
      var i :| 0 <= i < |b| && b[i] == x;
      assert a == [x] + a[1..];
      assert b == b[..i] + [x] + b[i + 1..];
      var rest := b[..i] + b[i + 1..];
      assert multiset(a) == multiset{x} + multiset(a[1..]);
      assert multiset(b) == multiset(b[..i]) + multiset{x} + multiset(b[i + 1..]);
      assert multiset(rest) == multiset(b[..i]) + multiset(b[i + 1..]);
      assert multiset(a[1..]) == multiset(a) - multiset{x};
      assert multiset(rest) == multiset(b) - multiset{x};
      CountPermutation(a[1..], rest, s);
      CountAppend([x], a[1..], s);
      CountAppend(b[..i] + [x], b[i + 1..], s);
      CountAppend(b[..i], [x], s);
      CountAppend(b[..i], b[i + 1..], s);
    }
  }

  lemma StatsPermutation(a: seq<Ticket>, b: seq<Ticket>)
    requires multiset(a) == multiset(b)
    ensures ComputeStats(a) == ComputeStats(b)
  {
    CountPermutation(a, b, Open);
    CountPermutation(a, b, InProgress);
    CountPermutation(a, b, Resolved);
    CountPermutation(a, b, Closed);
  }

  /** Putting one more ticket in front raises its status's counter by one. */
  lemma {:induction false} StatsPrepend(t: Ticket, ts: seq<Ticket>)
    ensures forall s :: CountOf(ComputeStats([t] + ts), s)
                     == CountOf(ComputeStats(ts), s) + (if s == t.status then 1 else 0)
  {
    forall s ensures Count([t] + ts, s) == Count(ts, s) + (if s == t.status then 1 else 0) {
      CountAppend([t], ts, s);
    }
  }

  /**
   * Replacing the ticket at `k`: the old status's counter drops by one and the
   * new one's rises by one; when the two statuses agree nothing changes.
   */
  lemma {:induction false} StatsReplace(ts: seq<Ticket>, k: nat, t: Ticket)
    requires k < |ts|
    ensures forall s :: CountOf(ComputeStats(ts[k := t]), s)
                     == CountOf(ComputeStats(ts), s)
                        - (if s == ts[k].status then 1 else 0)
                        + (if s == t.status then 1 else 0)
  {
    var pre, post := ts[..k], ts[k + 1..];
    assert ts == pre + [ts[k]] + post;
    assert ts[k := t] == pre + [t] + post;
    forall s ensures Count(ts[k := t], s) == Count(ts, s)
                     - (if s == ts[k].status then 1 else 0) + (if s == t.status then 1 else 0)
    {
      CountAppend(pre + [ts[k]], post, s);
      CountAppend(pre, [ts[k]], s);
      CountAppend(pre + [t], post, s);
      CountAppend(pre, [t], s);
    }
  }
}
