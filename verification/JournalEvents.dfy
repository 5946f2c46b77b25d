/** Run Journal events (crates/attractor-journal/src/event.rs). Payload fields
    that no modelled reader looks at are left out. A cost is a whole number of
    the smallest unit it is written in. */
module JournalEvents {
  datatype EndReason = Completed | Failed | Stopped | BudgetExhausted | MaxSteps | Error

  datatype EventData =
    | AttemptStarted(pid: nat)
    | AttemptEnded(reason: EndReason)
    | Heartbeat(pid: nat)
    | StageStarted(node: string)
    | StageCompleted(node: string, status: string)
    | StageFailed(node: string, error: string)
    | StageRetrying(node: string, retry: nat)
    | PipelineCompleted
    | PipelineFailed(error: string)
    | HumanInputRequested(question: string, node: string)
    | HumanInputAnswered(question: string)
    | StopRequested(source: string)
    | LlmInvoked(cost: int)
    | Other(typeName: string)
    | Unknown(typeName: string)

  datatype JournalEvent = JournalEvent(seq_: nat, ts: int, attempt: nat, data: EventData)

  /** Strictly increasing sequence numbers, the first above 0. */
  predicate Ascending(events: seq<JournalEvent>) {
    (forall i | 0 <= i < |events| :: events[i].seq_ > 0)
    && forall i, j | 0 <= i < j < |events| :: events[i].seq_ < events[j].seq_
  }

  /** The events that `read_all` and `tail` keep. */
  function Known(events: seq<JournalEvent>): (r: seq<JournalEvent>) {
    if events == [] then []
    else if events[0].data.Unknown? then Known(events[1..])
    else [events[0]] + Known(events[1..])
  }

  lemma {:induction false} KnownConcat(a: seq<JournalEvent>, b: seq<JournalEvent>)
    ensures Known(a + b) == Known(a) + Known(b)
    decreases |a|
  {
    if a == [] {
      assert a + b == b;
    } else {
      assert (a + b)[1..] == a[1..] + b;
      KnownConcat(a[1..], b);
    }
  }

  lemma {:induction false} KnownMembers(events: seq<JournalEvent>)
    ensures forall e | e in Known(events) :: e in events && !e.data.Unknown?
    ensures forall e | e in events && !e.data.Unknown? :: e in Known(events)
    decreases |events|
  {
    if events != [] {
      KnownMembers(events[1..]);
      assert forall e :: e in events <==> e == events[0] || e in events[1..];
    }
  }

  /** Dropping unknown events keeps the order of the numbers. */
  lemma {:induction false} KnownAscending(events: seq<JournalEvent>)
    requires Ascending(events)
    ensures Ascending(Known(events))
    decreases |events|
  {
    if events != [] {
      KnownAscending(events[1..]);
      KnownMembers(events[1..]);
      var rest := Known(events[1..]);
      forall j | 0 <= j < |rest| ensures events[0].seq_ < rest[j].seq_ {
        assert rest[j] in events[1..];
      }
      ConsAscending(events[0], rest);
    }
  }

  lemma ConsAscending(e: JournalEvent, rest: seq<JournalEvent>)
    requires e.seq_ > 0 && Ascending(rest) && forall j | 0 <= j < |rest| :: e.seq_ < rest[j].seq_
    ensures Ascending([e] + rest)
  {
    assert forall i | 0 < i < |rest| + 1 :: ([e] + rest)[i] == rest[i - 1];
  }
}
