/** What a Run's view says, told by its events alone: each field by a reading of
    the event list that knows nothing of the fold
    (crates/attractor-monitor/src/projection.rs:300-478). */
module ProjectionMeaning {
  import opened Wrappers
  import opened JournalEvents
  import opened Projection

  // ---------------------------------------------------------------------
  // Readings
  // ---------------------------------------------------------------------

  /** What all invocations cost together. */
  function CostOf(events: seq<JournalEvent>): int
    decreases |events|
  {
    if events == [] then 0
    else
      CostOf(events[..|events| - 1])
      + if events[|events| - 1].data.LlmInvoked? then events[|events| - 1].data.cost else 0
  }

  /** Each failed stage, in order. */
  function FailuresOf(events: seq<JournalEvent>): seq<StageFact>
    decreases |events|
  {
    if events == [] then []
    else
      var e := events[|events| - 1];
      FailuresOf(events[..|events| - 1]) + if e.data.StageFailed? then [StageFact(e.data.node, None, e.seq_)] else []
  }

  /** Each retry, in order. */
  function RetriesOf(events: seq<JournalEvent>): seq<StageFact>
    decreases |events|
  {
    if events == [] then []
    else
      var e := events[|events| - 1];
      RetriesOf(events[..|events| - 1])
      + if e.data.StageRetrying? then [StageFact(e.data.node, Some(e.data.retry), e.seq_)] else []
  }

  /** Each question answered, in order. */
  function AnsweredOf(events: seq<JournalEvent>): seq<string>
    decreases |events|
  {
    if events == [] then []
    else
      var e := events[|events| - 1];
      AnsweredOf(events[..|events| - 1]) + if e.data.HumanInputAnswered? then [e.data.question] else []
  }

  /** Who asked last for a stop. */
  function StopOf(events: seq<JournalEvent>): Option<string>
    decreases |events|
  {
    if events == [] then None
    else if events[|events| - 1].data.StopRequested? then Some(events[|events| - 1].data.source)
    else StopOf(events[..|events| - 1])
  }

  /** The last failure of the pipeline as a whole. */
  function ErrorOf(events: seq<JournalEvent>): Option<string>
    decreases |events|
  {
    if events == [] then None
    else if events[|events| - 1].data.PipelineFailed? then Some(events[|events| - 1].data.error)
    else ErrorOf(events[..|events| - 1])
  }

  /** An event that puts its node on the list of visited ones. */
  predicate NamesNode(data: EventData) { data.StageStarted? || data.StageCompleted? || data.StageFailed? }

  /** The nodes named, in the order in which they first were. */
  function NodesOf(events: seq<JournalEvent>): seq<string>
    decreases |events|
  {
    if events == [] then []
    else
      var rest, data := NodesOf(events[..|events| - 1]), events[|events| - 1].data;
      if NamesNode(data) && data.node !in rest then rest + [data.node] else rest
  }

  /** How the last stage of a node that came to an end went. */
  function OutcomeOf(events: seq<JournalEvent>, node: string): Option<string>
    decreases |events|
  {
    if events == [] then None
    else
      var data := events[|events| - 1].data;
      if data.StageCompleted? && data.node == node then Some(data.status)
      else if data.StageFailed? && data.node == node then Some("failed")
      else OutcomeOf(events[..|events| - 1], node)
  }

  /** A stage began at `node` and nothing has left it since. */
  predicate StandsAt(events: seq<JournalEvent>, i: nat, node: string) {
    && i < |events| && events[i].data == StageStarted(node)
    && forall j | i < j < |events| :: !Leaves(events[j].data)
  }

  predicate Leaves(data: EventData) {
    data.StageStarted? || data.AttemptEnded? || data.PipelineCompleted? || data.PipelineFailed?
  }

  /** A question was put, none since, it has not been answered, and no Attempt
      has ended. */
  predicate Waits(events: seq<JournalEvent>, i: nat, g: GateView) {
    && i < |events| && events[i].data == HumanInputRequested(g.question, g.node) && events[i].ts == g.requestedAt
    && forall j | i < j < |events| :: !Settles(events[j].data, g.question)
  }

  predicate Settles(data: EventData, question: string) {
    data.HumanInputRequested? || data.AttemptEnded? || data == HumanInputAnswered(question)
  }

  predicate Largest(n: nat, events: seq<JournalEvent>) {
    && (forall e | e in events && !e.data.Unknown? :: e.seq_ <= n)
    && (n > 0 ==> exists i :: 0 <= i < |events| && !events[i].data.Unknown? && events[i].seq_ == n)
  }

  // ---------------------------------------------------------------------
  // What the view has to say
  // ---------------------------------------------------------------------

  predicate ListsMean(v: View, events: seq<JournalEvent>) {
    && v.cost == CostOf(events)
    && v.failures == FailuresOf(events) && v.retries == RetriesOf(events) && v.answered == AnsweredOf(events)
    && v.stopRequested == StopOf(events) && v.pipelineError == ErrorOf(events)
  }

  ghost predicate NodeMeans(v: View, events: seq<JournalEvent>) {
    forall node :: v.currentNode == Some(node) <==> exists i :: StandsAt(events, i, node)
  }

  ghost predicate GateMeans(v: View, events: seq<JournalEvent>) {
    forall g :: v.gate == Some(g) <==> exists i :: Waits(events, i, g)
  }

  ghost predicate VisitedMeans(visited: seq<NodeVisit>, events: seq<JournalEvent>) {
    && |visited| == |NodesOf(events)|
    && forall k | 0 <= k < |visited| ::
         visited[k].node == NodesOf(events)[k] && visited[k].lastStatus == OutcomeOf(events, visited[k].node)
  }

  ghost predicate ViewMeans(v: View, events: seq<JournalEvent>) {
    Largest(v.lastSeq, events) && ListsMean(v, events) && NodeMeans(v, events) && GateMeans(v, events)
    && VisitedMeans(v.visited, events)
  }

  // ---------------------------------------------------------------------
  // One more event
  // ---------------------------------------------------------------------

  lemma ListsStep(v: View, events: seq<JournalEvent>)
    requires events != [] && ListsMean(v, events[..|events| - 1])
    ensures ListsMean(Applied(v, events[|events| - 1]), events)
  {
    hide NoteAttempt, Visit, StatusOf, CostOf, FailuresOf, RetriesOf, AnsweredOf, StopOf, ErrorOf;
    ListsSnoc(events);
  }

  /** What one more event adds to each reading. */
  lemma ListsSnoc(events: seq<JournalEvent>)
    requires events != []
    ensures var before, e := events[..|events| - 1], events[|events| - 1];
      && CostOf(events) == CostOf(before) + (if e.data.LlmInvoked? then e.data.cost else 0)
      && FailuresOf(events) == (if e.data.StageFailed? then FailuresOf(before) + [StageFact(e.data.node, None, e.seq_)] else FailuresOf(before))
      && RetriesOf(events) == (if e.data.StageRetrying? then RetriesOf(before) + [StageFact(e.data.node, Some(e.data.retry), e.seq_)]
                               else RetriesOf(before))
      && AnsweredOf(events) == (if e.data.HumanInputAnswered? then AnsweredOf(before) + [e.data.question] else AnsweredOf(before))
      && StopOf(events) == (if e.data.StopRequested? then Some(e.data.source) else StopOf(before))
      && ErrorOf(events) == (if e.data.PipelineFailed? then Some(e.data.error) else ErrorOf(before))
  {
  }

  lemma LargestStep(v: View, events: seq<JournalEvent>)
    requires events != [] && Largest(v.lastSeq, events[..|events| - 1])
    ensures Largest(Applied(v, events[|events| - 1]).lastSeq, events)
  {
    hide NoteAttempt, Visit, StatusOf;
    var before, e := events[..|events| - 1], events[|events| - 1];
    var n := Applied(v, e).lastSeq;
    forall any | any in events && !any.data.Unknown? ensures any.seq_ <= n {
      if any != e { assert any in before; }
    }
    if n > 0 && n == v.lastSeq {
      var i :| 0 <= i < |before| && !before[i].data.Unknown? && before[i].seq_ == n;
      assert events[i] == before[i];
    } else if n > 0 {
      assert events[|events| - 1].seq_ == n;
    }
  }

  lemma StandsSnoc(events: seq<JournalEvent>, node: string)
    requires events != []
    ensures var before, data := events[..|events| - 1], events[|events| - 1].data;
      (exists i :: StandsAt(events, i, node))
      <==> data == StageStarted(node) || (!Leaves(data) && exists i :: StandsAt(before, i, node))
  {
    var n := |events| - 1;
    var before, data := events[..n], events[n].data;
    if data == StageStarted(node) {
      assert StandsAt(events, n, node);
    } else if !Leaves(data) && exists i :: StandsAt(before, i, node) {
      var i: nat :| StandsAt(before, i, node);
      assert StandsAt(events, i, node);
    }
    if exists i: nat :: StandsAt(events, i, node) {
      var i: nat :| StandsAt(events, i, node);
      if i < n { assert StandsAt(before, i, node); }
    }
  }

  lemma NodeStep(v: View, events: seq<JournalEvent>)
    requires events != [] && NodeMeans(v, events[..|events| - 1])
    ensures NodeMeans(Applied(v, events[|events| - 1]), events)
  {
    hide NoteAttempt, Visit, StatusOf, StandsAt;
    var before, e := events[..|events| - 1], events[|events| - 1];
    forall node
      ensures Applied(v, e).currentNode == Some(node) <==> exists i :: StandsAt(events, i, node)
    {
      StandsSnoc(events, node);
    }
  }

  lemma WaitsSnoc(events: seq<JournalEvent>, g: GateView)
    requires events != []
    ensures var before, e := events[..|events| - 1], events[|events| - 1];
      (exists i :: Waits(events, i, g))
      <==> (e.data == HumanInputRequested(g.question, g.node) && e.ts == g.requestedAt)
           || (!Settles(e.data, g.question) && exists i :: Waits(before, i, g))
  {
    var n := |events| - 1;
    var before, e := events[..n], events[n];
    if e.data == HumanInputRequested(g.question, g.node) && e.ts == g.requestedAt {
      assert Waits(events, n, g);
    } else if !Settles(e.data, g.question) && exists i :: Waits(before, i, g) {
      var i: nat :| Waits(before, i, g);
      assert Waits(events, i, g);
    }
    if exists i: nat :: Waits(events, i, g) {
      var i: nat :| Waits(events, i, g);
      if i < n { assert Waits(before, i, g); }
    }
  }

  lemma GateStep(v: View, events: seq<JournalEvent>)
    requires events != [] && GateMeans(v, events[..|events| - 1])
    ensures GateMeans(Applied(v, events[|events| - 1]), events)
  {
    hide NoteAttempt, Visit, StatusOf, Waits;
    var before, e := events[..|events| - 1], events[|events| - 1];
    forall g
      ensures Applied(v, e).gate == Some(g) <==> exists i :: Waits(events, i, g)
    {
      WaitsSnoc(events, g);
    }
  }

  lemma {:induction false} NotNamed(events: seq<JournalEvent>, node: string)
    requires node !in NodesOf(events)
    ensures OutcomeOf(events, node) == None
    decreases |events|
  {
    if events != [] { NotNamed(events[..|events| - 1], node); }
  }

  lemma {:induction false} NodesDistinct(events: seq<JournalEvent>)
    ensures forall i, j | 0 <= i < j < |NodesOf(events)| :: NodesOf(events)[i] != NodesOf(events)[j]
    decreases |events|
  {
    if events != [] { NodesDistinct(events[..|events| - 1]); }
  }

  /** A visit at a node, or how one went. */
  lemma VisitStep(visited: seq<NodeVisit>, events: seq<JournalEvent>, node: string, status: Option<string>)
    requires events != [] && VisitedMeans(visited, events[..|events| - 1])
    requires var data := events[|events| - 1].data;
      || (data == StageStarted(node) && status == None)
      || (data.StageCompleted? && data.node == node && status == Some(data.status))
      || (data.StageFailed? && data.node == node && status == Some("failed"))
    ensures VisitedMeans(Visit(visited, node, status), events)
  {
    hide VisitIndex, NodesOf, OutcomeOf;
    var before := events[..|events| - 1];
    NodesDistinct(before);
    NodesSnoc(events);
    OutcomeSnoc(events);
    var i := VisitIndex(visited, node);
    if i == |visited| {
      forall k | 0 <= k < |visited| ensures NodesOf(before)[k] != node {
        assert visited[k].node != node;
      }
      NotNamed(before, node);
    } else {
      assert NodesOf(before)[i] == node;
    }
  }

  lemma NodesSnoc(events: seq<JournalEvent>)
    requires events != []
    ensures var rest, data := NodesOf(events[..|events| - 1]), events[|events| - 1].data;
      NodesOf(events) == if NamesNode(data) && data.node !in rest then rest + [data.node] else rest
  {
  }

  lemma OutcomeSnoc(events: seq<JournalEvent>)
    requires events != []
    ensures var before, data := events[..|events| - 1], events[|events| - 1].data;
      forall node :: OutcomeOf(events, node)
                  == if data.StageCompleted? && data.node == node then Some(data.status)
                     else if data.StageFailed? && data.node == node then Some("failed")
                     else OutcomeOf(before, node)
  {
  }

  lemma VisitedStep(v: View, events: seq<JournalEvent>)
    requires events != [] && VisitedMeans(v.visited, events[..|events| - 1])
    ensures VisitedMeans(Applied(v, events[|events| - 1]).visited, events)
  {
    hide NoteAttempt, Visit, StatusOf, NodesOf, OutcomeOf;
    match events[|events| - 1].data {
      case StageStarted(node) => VisitStep(v.visited, events, node, None);
      case StageCompleted(node, status) => VisitStep(v.visited, events, node, Some(status));
      case StageFailed(node, _) => VisitStep(v.visited, events, node, Some("failed"));
      case _ =>
        NodesSnoc(events);
        OutcomeSnoc(events);
    }
  }

  /** MAIN RESULT. For every event list the folded view says what the events
      say: the cost is the sum of all invocations, each list holds its events
      in order, the node is where a stage began that nothing has left, and the
      gate is the question still open. */
  lemma {:induction false} FoldMeans(events: seq<JournalEvent>)
    ensures ViewMeans(Fold(events), events)
    decreases |events|
  {
    hide Applied, Largest, ListsMean, NodeMeans, GateMeans, VisitedMeans;
    if events == [] {
      NothingMeans();
    } else {
      var v := Fold(events[..|events| - 1]);
      FoldMeans(events[..|events| - 1]);
      LargestStep(v, events);
      ListsStep(v, events);
      NodeStep(v, events);
      GateStep(v, events);
      VisitedStep(v, events);
    }
  }

  lemma NothingMeans()
    ensures ViewMeans(NO_VIEW, [])
  {
  }
}
