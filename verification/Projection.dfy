/** A Run as its events tell it (crates/attractor-monitor/src/projection.rs):
    the incremental fold behind every page of the Monitor. Fields that are
    plain copies of an event's payload are left out. */
module Projection {
  import opened Wrappers
  import opened JournalEvents

  datatype ViewStatus = NoEvents | Running | Completed | Failed | Stopped

  datatype End = End(reason: EndReason, at: int)

  datatype AttemptView = AttemptView(
    attempt: nat, pid: Option<nat>, startedAt: Option<int>, ended: Option<End>,
    lastHeartbeat: Option<int>, lastEventAt: int, lastActivityAt: int)

  datatype NodeVisit = NodeVisit(node: string, visits: nat, lastStatus: Option<string>)

  datatype StageFact = StageFact(node: string, retry: Option<nat>, seq_: nat)

  datatype GateView = GateView(question: string, node: string, requestedAt: int)

  datatype View = View(
    lastSeq: nat, status: ViewStatus, attempts: seq<AttemptView>, currentNode: Option<string>,
    visited: seq<NodeVisit>, steps: nat, cost: int, retries: seq<StageFact>, failures: seq<StageFact>,
    pipelineError: Option<string>, gate: Option<GateView>, answered: seq<string>, stopRequested: Option<string>)

  const NO_VIEW: View := View(0, NoEvents, [], None, [], 0, 0, [], [], None, None, [], None)

  function Max(a: int, b: int): int { if a < b then b else a }

  // ---------------------------------------------------------------------
  // Attempts
  // ---------------------------------------------------------------------

  /** The first record of an Attempt, or the length when there is none. */
  function AttemptIndex(attempts: seq<AttemptView>, n: nat): (i: nat)
    ensures i <= |attempts|
    ensures i < |attempts| ==> attempts[i].attempt == n
    ensures forall k | 0 <= k < i :: attempts[k].attempt != n
  {
    if attempts == [] || attempts[0].attempt == n then 0 else 1 + AttemptIndex(attempts[1..], n)
  }

  /** Where a record of a new Attempt goes. */
  function InsertIndex(attempts: seq<AttemptView>, n: nat): (i: nat)
    ensures i <= |attempts|
    ensures i < |attempts| ==> attempts[i].attempt > n
    ensures forall k | 0 <= k < i :: attempts[k].attempt <= n
  {
    if attempts == [] || attempts[0].attempt > n then 0 else 1 + InsertIndex(attempts[1..], n)
  }

  function NewAttempt(n: nat, ts: int): AttemptView { AttemptView(n, None, None, None, None, ts, ts) }

  /** The list in which Attempt `n` has a record. */
  function WithAttempt(attempts: seq<AttemptView>, n: nat, ts: int): seq<AttemptView> {
    if AttemptIndex(attempts, n) < |attempts| then attempts
    else
      var at := InsertIndex(attempts, n);
      attempts[..at] + [NewAttempt(n, ts)] + attempts[at..]
  }

  lemma WithAttemptHas(attempts: seq<AttemptView>, n: nat, ts: int)
    ensures AttemptIndex(WithAttempt(attempts, n, ts), n) < |WithAttempt(attempts, n, ts)|
  {
    var all := WithAttempt(attempts, n, ts);
    if AttemptIndex(attempts, n) == |attempts| {
      assert all[InsertIndex(attempts, n)].attempt == n;
    }
  }

  /** What one event does to the record of its Attempt. */
  function Noted(a: AttemptView, e: JournalEvent): (r: AttemptView)
    ensures r.attempt == a.attempt
  {
    var seen := a.(lastEventAt := Max(a.lastEventAt, e.ts),
                   lastActivityAt := if e.data.Heartbeat? then a.lastActivityAt else Max(a.lastActivityAt, e.ts));
    match e.data
    case AttemptStarted(pid) => seen.(pid := Some(pid), startedAt := Some(e.ts))
    case AttemptEnded(reason) => seen.(ended := Some(End(reason, e.ts)))
    case Heartbeat(_) => seen.(lastHeartbeat := Some(e.ts))
    case _ => seen
  }

  function NoteAttempt(attempts: seq<AttemptView>, e: JournalEvent): seq<AttemptView> {
    var all := WithAttempt(attempts, e.attempt, e.ts);
    WithAttemptHas(attempts, e.attempt, e.ts);
    var i := AttemptIndex(all, e.attempt);
    all[i := Noted(all[i], e)]
  }

  function EndStatus(reason: EndReason): ViewStatus {
    match reason
    case Completed => ViewStatus.Completed
    case Stopped => ViewStatus.Stopped
    case Failed => ViewStatus.Failed
    case Error => ViewStatus.Failed
    case BudgetExhausted => ViewStatus.Failed
    case MaxSteps => ViewStatus.Failed
  }

  /** The last record decides. */
  function StatusOf(attempts: seq<AttemptView>): ViewStatus {
    if attempts == [] || attempts[|attempts| - 1].ended.None? then ViewStatus.Running
    else EndStatus(attempts[|attempts| - 1].ended.value.reason)
  }

  // ---------------------------------------------------------------------
  // Node visits
  // ---------------------------------------------------------------------

  function VisitIndex(visited: seq<NodeVisit>, node: string): (i: nat)
    ensures i <= |visited|
    ensures i < |visited| ==> visited[i].node == node
    ensures forall k | 0 <= k < i :: visited[k].node != node
  {
    if visited == [] || visited[0].node == node then 0 else 1 + VisitIndex(visited[1..], node)
  }

  /** `None` counts a visit, `Some` records how one went. */
  function Visit(visited: seq<NodeVisit>, node: string, status: Option<string>): seq<NodeVisit> {
    var i := VisitIndex(visited, node);
    var all := if i < |visited| then visited else visited + [NodeVisit(node, 0, None)];
    all[i := if status.Some? then all[i].(lastStatus := status) else all[i].(visits := all[i].visits + 1)]
  }

  // ---------------------------------------------------------------------
  // Events
  // ---------------------------------------------------------------------

  /** One event of a known type, the status aside. */
  function Told(v: View, e: JournalEvent): (r: View)
    ensures r.attempts == v.attempts && r.lastSeq == v.lastSeq
  {
    match e.data
    case AttemptEnded(_) => v.(currentNode := None, gate := None)
    case StageStarted(node) =>
      v.(steps := v.steps + 1, currentNode := Some(node), visited := Visit(v.visited, node, None))
    case StageCompleted(node, status) => v.(visited := Visit(v.visited, node, Some(status)))
    case StageFailed(node, _) =>
      v.(visited := Visit(v.visited, node, Some("failed")), failures := v.failures + [StageFact(node, None, e.seq_)])
    case StageRetrying(node, retry) => v.(retries := v.retries + [StageFact(node, Some(retry), e.seq_)])
    case PipelineCompleted => v.(currentNode := None)
    case PipelineFailed(error) => v.(currentNode := None, pipelineError := Some(error))
    case HumanInputRequested(question, node) => v.(gate := Some(GateView(question, node, e.ts)))
    case HumanInputAnswered(question) =>
      v.(gate := if v.gate.Some? && v.gate.value.question == question then None else v.gate,
         answered := v.answered + [question])
    case StopRequested(source) => v.(stopRequested := Some(source))
    case LlmInvoked(cost) => v.(cost := v.cost + cost)
    case _ => v
  }

  /** `RunView::apply`: an unknown event changes nothing at all. */
  function Applied(v: View, e: JournalEvent): View {
    if e.data.Unknown? then v
    else
      var attempts := NoteAttempt(v.attempts, e);
      Told(v.(lastSeq := Max(v.lastSeq, e.seq_), attempts := attempts), e).(status := StatusOf(attempts))
  }

  function Fold(events: seq<JournalEvent>): View
    decreases |events|
  {
    if events == [] then NO_VIEW else Applied(Fold(events[..|events| - 1]), events[|events| - 1])
  }

  lemma FoldSnoc(events: seq<JournalEvent>, e: JournalEvent)
    ensures Fold(events + [e]) == Applied(Fold(events), e)
  {
    assert (events + [e])[..|events|] == events;
  }

  /** Unknown events may as well not be there. */
  lemma {:induction false} FoldKnown(events: seq<JournalEvent>)
    ensures Fold(Known(events)) == Fold(events)
    decreases |events|
  {
    hide Applied;
    if events != [] {
      var before, last := events[..|events| - 1], events[|events| - 1];
      FoldKnown(before);
      KnownConcat(before, [last]);
      assert before + [last] == events;
      assert [last][1..] == [];
      if last.data.Unknown? {
        assert Known([last]) == [] && Known(before) + [] == Known(before);
        UnknownChangesNothing(Fold(before), last);
      } else {
        FoldSnoc(Known(before), last);
      }
    }
  }

  lemma UnknownChangesNothing(v: View, e: JournalEvent)
    ensures e.data.Unknown? ==> Applied(v, e) == v
  {
  }

  // ---------------------------------------------------------------------
  // What the records mean
  // ---------------------------------------------------------------------

  /** The events of one Attempt. */
  function Of(events: seq<JournalEvent>, n: nat): seq<JournalEvent>
    decreases |events|
  {
    if events == [] then []
    else
      var e := events[|events| - 1];
      var rest := Of(events[..|events| - 1], n);
      if e.attempt == n && !e.data.Unknown? then rest + [e] else rest
  }

  /** A record made of one Attempt's own events, the first of which creates it. */
  function Record(events: seq<JournalEvent>): AttemptView
    requires events != []
    decreases |events|
  {
    var e := events[|events| - 1];
    if |events| == 1 then Noted(NewAttempt(e.attempt, e.ts), e) else Noted(Record(events[..|events| - 1]), e)
  }

  predicate Sorted(attempts: seq<AttemptView>) {
    forall i, j | 0 <= i < j < |attempts| :: attempts[i].attempt < attempts[j].attempt
  }

  function RecordFor(attempts: seq<AttemptView>, n: nat): Option<AttemptView> {
    var i := AttemptIndex(attempts, n);
    if i < |attempts| then Some(attempts[i]) else None
  }

  /** In order, and for every number the record is the one that the events of
      that Attempt alone make. */
  ghost predicate Faithful(attempts: seq<AttemptView>, events: seq<JournalEvent>) {
    Sorted(attempts) && forall n: nat :: FaithfulAt(attempts, events, n)
  }

  ghost predicate FaithfulAt(attempts: seq<AttemptView>, events: seq<JournalEvent>, n: nat) {
    RecordFor(attempts, n) == if Of(events, n) == [] then None else Some(Record(Of(events, n)))
  }

  lemma IndexIs(attempts: seq<AttemptView>, i: nat)
    requires Sorted(attempts) && i < |attempts|
    ensures AttemptIndex(attempts, attempts[i].attempt) == i
  {
    var k := AttemptIndex(attempts, attempts[i].attempt);
    assert k < |attempts| ==> attempts[k].attempt == attempts[i].attempt;
  }

  lemma RecordIs(attempts: seq<AttemptView>, i: nat)
    requires Sorted(attempts) && i < |attempts|
    ensures RecordFor(attempts, attempts[i].attempt) == Some(attempts[i])
  {
    hide AttemptIndex;
    IndexIs(attempts, i);
  }

  /** Making room for an Attempt keeps the order and every other record. */
  lemma WithAttemptIs(attempts: seq<AttemptView>, n: nat, ts: int)
    requires Sorted(attempts)
    ensures var all := WithAttempt(attempts, n, ts);
      && Sorted(all) && RecordFor(all, n) == Some(match RecordFor(attempts, n) case Some(a) => a case None => NewAttempt(n, ts))
    ensures forall m | m != n :: RecordFor(WithAttempt(attempts, n, ts), m) == RecordFor(attempts, m)
  {
    hide AttemptIndex, InsertIndex;
    if AttemptIndex(attempts, n) == |attempts| {
      var at := InsertIndex(attempts, n);
      var all := WithAttempt(attempts, n, ts);
      assert all == attempts[..at] + [NewAttempt(n, ts)] + attempts[at..];
      InsertSorted(attempts, at, NewAttempt(n, ts));
      RecordIs(all, at);
      forall m | m != n ensures RecordFor(all, m) == RecordFor(attempts, m) {
        SameRecord(attempts, all, at, m);
      }
    }
  }

  lemma InsertSorted(attempts: seq<AttemptView>, at: nat, a: AttemptView)
    requires Sorted(attempts) && at <= |attempts|
    requires forall k | 0 <= k < at :: attempts[k].attempt < a.attempt
    requires at < |attempts| ==> a.attempt < attempts[at].attempt
    ensures Sorted(attempts[..at] + [a] + attempts[at..])
  {
    forall k | at <= k < |attempts| ensures a.attempt < attempts[k].attempt {
      if at < k { assert attempts[at].attempt < attempts[k].attempt; }
    }
  }

  lemma SameRecord(attempts: seq<AttemptView>, all: seq<AttemptView>, at: nat, m: nat)
    requires Sorted(attempts) && Sorted(all) && at <= |attempts| && |all| == |attempts| + 1
    requires forall k | 0 <= k < at :: all[k] == attempts[k]
    requires forall k | at < k < |all| :: all[k] == attempts[k - 1]
    requires all[at].attempt != m
    ensures RecordFor(all, m) == RecordFor(attempts, m)
  {
    hide AttemptIndex;
    var i := AttemptIndex(attempts, m);
    if i < |attempts| {
      var j := if i < at then i else i + 1;
      assert all[j] == attempts[i];
      RecordIs(all, j);
    } else {
      assert forall k | 0 <= k < |all| :: all[k].attempt != m;
    }
  }

  /** Taking note of an event touches its own Attempt's record only. */
  lemma NoteAttemptIs(attempts: seq<AttemptView>, e: JournalEvent)
    requires Sorted(attempts)
    ensures Sorted(NoteAttempt(attempts, e))
    ensures RecordFor(NoteAttempt(attempts, e), e.attempt)
         == Some(Noted(match RecordFor(attempts, e.attempt) case Some(a) => a case None => NewAttempt(e.attempt, e.ts), e))
    ensures forall m | m != e.attempt :: RecordFor(NoteAttempt(attempts, e), m) == RecordFor(attempts, m)
  {
    hide AttemptIndex, WithAttempt, Noted;
    var all := WithAttempt(attempts, e.attempt, e.ts);
    WithAttemptIs(attempts, e.attempt, e.ts);
    WithAttemptHas(attempts, e.attempt, e.ts);
    var i := AttemptIndex(all, e.attempt);
    var after := all[i := Noted(all[i], e)];
    assert after == NoteAttempt(attempts, e);
    assert forall k | 0 <= k < |all| :: after[k].attempt == all[k].attempt;
    RecordIs(after, i);
    forall m | m != e.attempt ensures RecordFor(after, m) == RecordFor(all, m) {
      SameNumbers(all, after, m);
    }
  }

  lemma SameNumbers(a: seq<AttemptView>, b: seq<AttemptView>, m: nat)
    requires |a| == |b| && forall k | 0 <= k < |a| :: a[k].attempt == b[k].attempt
    ensures AttemptIndex(a, m) == AttemptIndex(b, m)
  {
    hide AttemptIndex;
  }

  /** MAIN RESULT. However the Attempts' events are mixed, the view's records
      are in order and each is made of its own Attempt's events alone. */
  lemma {:induction false} FoldFaithful(events: seq<JournalEvent>)
    ensures Faithful(Fold(events).attempts, events)
    decreases |events|
  {
    hide NoteAttempt, Noted, RecordFor, Record, Sorted;
    if events == [] {
      NothingFaithful();
    } else {
      var before, e := events[..|events| - 1], events[|events| - 1];
      var v := Fold(before);
      FoldFaithful(before);
      if !e.data.Unknown? {
        NoteAttemptIs(v.attempts, e);
        assert Fold(events).attempts == NoteAttempt(v.attempts, e);
        forall n: nat ensures FaithfulAt(Fold(events).attempts, events, n) {
          assert FaithfulAt(v.attempts, before, n);
          if n == e.attempt { RecordSnoc(Of(before, n), e); }
        }
      } else {
        forall n: nat ensures FaithfulAt(Fold(events).attempts, events, n) {
          assert FaithfulAt(v.attempts, before, n);
        }
      }
    }
  }

  lemma NothingFaithful()
    ensures Faithful([], [])
  {
  }

  lemma RecordSnoc(events: seq<JournalEvent>, e: JournalEvent)
    ensures Record(events + [e]) == Noted(if events == [] then NewAttempt(e.attempt, e.ts) else Record(events), e)
  {
    hide Noted;
    assert (events + [e])[..|events|] == events;
  }
}
