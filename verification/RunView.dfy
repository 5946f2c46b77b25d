/** The projection as it runs (crates/attractor-monitor/src/projection.rs:232-478):
    one object, changed in place per event, and what its counts add up to. */
module RunView {
  import opened Wrappers
  import opened JournalEvents
  import opened Projection

  predicate IsStage(data: EventData) {
    data.StageStarted? || data.StageCompleted? || data.StageFailed? || data.StageRetrying?
  }

  class RunView {
    var lastSeq: nat
    var status: ViewStatus
    var attempts: seq<AttemptView>
    var currentNode: Option<string>
    var visited: seq<NodeVisit>
    var steps: nat
    var cost: int
    var retries: seq<StageFact>
    var failures: seq<StageFact>
    var pipelineError: Option<string>
    var gate: Option<GateView>
    var answered: seq<string>
    var stopRequested: Option<string>

    function Value(): View
      reads this
    {
      View(lastSeq, status, attempts, currentNode, visited, steps, cost, retries, failures, pipelineError, gate,
           answered, stopRequested)
    }

    constructor ()
      ensures Value() == NO_VIEW
    {
      lastSeq, status, attempts, currentNode := 0, NoEvents, [], None;
      visited, steps, cost, retries, failures := [], 0, 0, [], [];
      pipelineError, gate, answered, stopRequested := None, None, [], None;
    }

    /** Find the record of an Attempt, or make one in its place. */
    method AttemptMut(n: nat, ts: int) returns (i: nat)
      modifies this`attempts
      ensures attempts == WithAttempt(old(attempts), n, ts)
      ensures i == AttemptIndex(attempts, n) < |attempts|
    {
      i := 0;
      while i < |attempts| && attempts[i].attempt != n
        invariant i <= |attempts| && forall k | 0 <= k < i :: attempts[k].attempt != n
      {
        i := i + 1;
      }
      if i == |attempts| {
        var at := 0;
        while at < |attempts| && attempts[at].attempt <= n
          invariant at <= |attempts| && forall k | 0 <= k < at :: attempts[k].attempt <= n
        {
          at := at + 1;
        }
        assert at == InsertIndex(attempts, n);
        attempts := attempts[..at] + [NewAttempt(n, ts)] + attempts[at..];
        assert attempts == WithAttempt(old(attempts), n, ts);
        i := at;
        WithAttemptHas(old(attempts), n, ts);
        assert forall k | 0 <= k < at :: attempts[k].attempt != n;
      }
    }

    method VisitNode(node: string, status: Option<string>)
      modifies this`visited
      ensures visited == Visit(old(visited), node, status)
    {
      var i := 0;
      while i < |visited| && visited[i].node != node
        invariant i <= |visited| && forall k | 0 <= k < i :: visited[k].node != node
      {
        i := i + 1;
      }
      if i == |visited| {
        visited := visited + [NodeVisit(node, 0, None)];
      }
      if status.Some? {
        visited := visited[i := visited[i].(lastStatus := status)];
      } else {
        visited := visited[i := visited[i].(visits := visited[i].visits + 1)];
      }
    }

    method RecomputeStatus()
      modifies this`status
      ensures status == StatusOf(attempts)
    {
      status := if attempts == [] || attempts[|attempts| - 1].ended.None? then ViewStatus.Running
                else EndStatus(attempts[|attempts| - 1].ended.value.reason);
    }

    /** Take in one event. */
    method Apply(e: JournalEvent)
      modifies this
      ensures Value() == Applied(old(Value()), e)
    {
      hide AttemptIndex, WithAttempt, Visit, StatusOf;
      if e.data.Unknown? {
        return;
      }
      lastSeq := Max(lastSeq, e.seq_);
      var i := AttemptMut(e.attempt, e.ts);
      var a := attempts[i];
      a := a.(lastEventAt := Max(a.lastEventAt, e.ts));
      if !e.data.Heartbeat? {
        a := a.(lastActivityAt := Max(a.lastActivityAt, e.ts));
      }
      match e.data {
        case AttemptStarted(pid) => a := a.(pid := Some(pid), startedAt := Some(e.ts));
        case AttemptEnded(reason) => a := a.(ended := Some(End(reason, e.ts)));
        case Heartbeat(_) => a := a.(lastHeartbeat := Some(e.ts));
        case _ =>
      }
      attempts := attempts[i := a];
      assert attempts == NoteAttempt(old(attempts), e);
      Tell(e);
      RecomputeStatus();
    }

    /** What a stage event says. */
    method TellStage(e: JournalEvent)
      requires IsStage(e.data)
      modifies this
      ensures Value() == Told(old(Value()), e)
    {
      hide Visit, VisitIndex;
      match e.data {
        case StageStarted(node) =>
          steps := steps + 1;
          currentNode := Some(node);
          VisitNode(node, None);
        case StageCompleted(node, status) =>
          VisitNode(node, Some(status));
        case StageFailed(node, _) =>
          VisitNode(node, Some("failed"));
          failures := failures + [StageFact(node, None, e.seq_)];
        case StageRetrying(node, retry) =>
          retries := retries + [StageFact(node, Some(retry), e.seq_)];
      }
    }

    /** The part of an event that is not about its Attempt. */
    method Tell(e: JournalEvent)
      requires !e.data.Unknown?
      modifies this
      ensures Value() == Told(old(Value()), e)
    {
      hide Visit, VisitIndex;
      if IsStage(e.data) {
        TellStage(e);
        return;
      }
      match e.data {
        case AttemptEnded(_) =>
          currentNode := None;
          gate := None;
        case PipelineCompleted =>
          currentNode := None;
        case PipelineFailed(error) =>
          currentNode := None;
          pipelineError := Some(error);
        case HumanInputRequested(question, node) =>
          gate := Some(GateView(question, node, e.ts));
        case HumanInputAnswered(question) =>
          if gate.Some? && gate.value.question == question {
            gate := None;
          }
          answered := answered + [question];
        case StopRequested(source) =>
          stopRequested := Some(source);
        case LlmInvoked(cost) =>
          this.cost := this.cost + cost;
        case _ =>
      }
    }
  }

  /** `fold`: a fresh view that takes in every event. */
  method FoldEvents(events: seq<JournalEvent>) returns (view: RunView)
    ensures fresh(view) && view.Value() == Fold(events)
  {
    view := new RunView();
    var i := 0;
    while i < |events|
      invariant i <= |events| && fresh(view) && view.Value() == Fold(events[..i])
    {
      assert events[..i + 1][..i] == events[..i];
      view.Apply(events[i]);
      i := i + 1;
    }
    assert events[..i] == events;
  }

  // ---------------------------------------------------------------------
  // Counts
  // ---------------------------------------------------------------------

  /** The stages that began at a node. */
  function Starts(events: seq<JournalEvent>, node: string): nat
    decreases |events|
  {
    if events == [] then 0
    else
      Starts(events[..|events| - 1], node)
      + if events[|events| - 1].data.StageStarted? && events[|events| - 1].data.node == node then 1 else 0
  }

  function VisitsAt(visited: seq<NodeVisit>, node: string): nat {
    var i := VisitIndex(visited, node);
    if i < |visited| then visited[i].visits else 0
  }

  function TotalVisits(visited: seq<NodeVisit>): nat
    decreases |visited|
  {
    if visited == [] then 0 else TotalVisits(visited[..|visited| - 1]) + visited[|visited| - 1].visits
  }

  predicate NodesUnique(visited: seq<NodeVisit>) {
    forall i, j | 0 <= i < j < |visited| :: visited[i].node != visited[j].node
  }

  lemma {:induction false} TotalUpdate(visited: seq<NodeVisit>, i: nat, v: NodeVisit)
    requires i < |visited|
    ensures TotalVisits(visited[i := v]) == TotalVisits(visited) - visited[i].visits + v.visits
    decreases |visited|
  {
    var n := |visited| - 1;
    if i < n {
      TotalUpdate(visited[..n], i, v);
      assert visited[i := v][..n] == visited[..n][i := v];
    } else {
      assert visited[i := v][..n] == visited[..n];
    }
  }

  lemma VisitIndexIs(visited: seq<NodeVisit>, i: nat)
    requires NodesUnique(visited) && i < |visited|
    ensures VisitIndex(visited, visited[i].node) == i
  {
  }

  lemma SameIndex(a: seq<NodeVisit>, b: seq<NodeVisit>, node: string)
    requires |a| == |b| && forall k | 0 <= k < |a| :: a[k].node == b[k].node
    ensures VisitIndex(a, node) == VisitIndex(b, node)
  {
    hide VisitIndex;
  }

  /** Replacing one node's record changes that node's count only. */
  lemma UpdateCounts(visited: seq<NodeVisit>, i: nat, v: NodeVisit)
    requires NodesUnique(visited) && i < |visited| && v.node == visited[i].node
    ensures var after := visited[i := v];
      && NodesUnique(after)
      && TotalVisits(after) == TotalVisits(visited) - visited[i].visits + v.visits
      && VisitsAt(after, v.node) == v.visits
      && forall other | other != v.node :: VisitsAt(after, other) == VisitsAt(visited, other)
  {
    hide VisitIndex;
    TotalUpdate(visited, i, v);
    VisitIndexIs(visited[i := v], i);
    forall other | other != v.node ensures VisitIndex(visited[i := v], other) == VisitIndex(visited, other) {
      SameIndex(visited, visited[i := v], other);
    }
  }

  /** A record without visits counts for nothing. */
  lemma RoomCounts(visited: seq<NodeVisit>, node: string)
    requires NodesUnique(visited) && VisitIndex(visited, node) == |visited|
    ensures var all := visited + [NodeVisit(node, 0, None)];
      && NodesUnique(all)
      && TotalVisits(all) == TotalVisits(visited)
      && forall any :: VisitsAt(all, any) == VisitsAt(visited, any)
  {
    hide VisitIndex;
    var all := visited + [NodeVisit(node, 0, None)];
    assert all[..|visited|] == visited;
    forall any ensures VisitsAt(all, any) == VisitsAt(visited, any) {
      var j, k := VisitIndex(visited, any), VisitIndex(all, any);
      assert j < |visited| ==> all[j] == visited[j] && k == j;
      assert j == |visited| ==> k >= |visited|;
    }
  }

  /** One visit is one more at that node and in total, and at no other node;
      an outcome is none at all. */
  lemma VisitCounts(visited: seq<NodeVisit>, node: string, status: Option<string>)
    requires NodesUnique(visited)
    ensures var after := Visit(visited, node, status); var more := if status.None? then 1 else 0;
      && NodesUnique(after)
      && TotalVisits(after) == TotalVisits(visited) + more
      && VisitsAt(after, node) == VisitsAt(visited, node) + more
      && forall other | other != node :: VisitsAt(after, other) == VisitsAt(visited, other)
  {
    hide NodesUnique, TotalVisits, VisitIndex;
    var i := VisitIndex(visited, node);
    if i == |visited| {
      RoomCounts(visited, node);
    }
    var all := if i < |visited| then visited else visited + [NodeVisit(node, 0, None)];
    var v := if status.Some? then all[i].(lastStatus := status) else all[i].(visits := all[i].visits + 1);
    UpdateCounts(all, i, v);
    assert Visit(visited, node, status) == all[i := v];
  }

  ghost predicate CountsAdd(v: View, events: seq<JournalEvent>) {
    NodesUnique(v.visited) && TotalVisits(v.visited) == v.steps
    && forall node :: VisitsAt(v.visited, node) == Starts(events, node)
  }

  /** MAIN RESULT. Every node's visit count is the number of stages that began
      there, and together they are the view's step count. */
  lemma {:induction false} CountsAlwaysAdd(events: seq<JournalEvent>)
    ensures CountsAdd(Fold(events), events)
    decreases |events|
  {
    hide NoteAttempt, StatusOf, Visit, NodesUnique, TotalVisits, VisitsAt;
    if events == [] {
      NothingAdds();
    } else {
      var v, e := Fold(events[..|events| - 1]), events[|events| - 1];
      CountsAlwaysAdd(events[..|events| - 1]);
      match e.data {
        case StageStarted(node) => VisitCounts(v.visited, node, None);
        case StageCompleted(node, status) => VisitCounts(v.visited, node, Some(status));
        case StageFailed(node, _) => VisitCounts(v.visited, node, Some("failed"));
        case _ =>
      }
    }
  }

  lemma NothingAdds()
    ensures CountsAdd(NO_VIEW, [])
  {
  }
}
