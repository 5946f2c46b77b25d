/** Run status, derived a second time straight from the journal
    (crates/attractor-journal/src/status.rs:61-96), and its agreement with the
    projection. Times are in milliseconds. */
module RunStatus {
  import opened Wrappers
  import opened JournalEvents
  import opened Projection

  const CRASH_AFTER: int := 120000

  datatype Status = Running | Completed | Failed | Stopped | Crashed

  /** A time and the process that was seen alive then. */
  datatype Sign = Sign(at: int, pid: nat)

  // ---------------------------------------------------------------------
  // What the events of one Attempt say
  // ---------------------------------------------------------------------

  function Ends(own: seq<JournalEvent>): seq<End>
    decreases |own|
  {
    if own == [] then []
    else
      var e := own[|own| - 1];
      Ends(own[..|own| - 1]) + if e.data.AttemptEnded? then [End(e.data.reason, e.ts)] else []
  }

  function LastBeat(own: seq<JournalEvent>): Option<Sign>
    decreases |own|
  {
    if own == [] then None
    else if own[|own| - 1].data.Heartbeat? then Some(Sign(own[|own| - 1].ts, own[|own| - 1].data.pid))
    else LastBeat(own[..|own| - 1])
  }

  function LastStart(own: seq<JournalEvent>): Option<Sign>
    decreases |own|
  {
    if own == [] then None
    else if own[|own| - 1].data.AttemptStarted? then Some(Sign(own[|own| - 1].ts, own[|own| - 1].data.pid))
    else LastStart(own[..|own| - 1])
  }

  function LatestAt(own: seq<JournalEvent>): int
    requires own != []
    decreases |own|
  {
    var e := own[|own| - 1];
    if |own| == 1 then e.ts else Max(LatestAt(own[..|own| - 1]), e.ts)
  }

  /** The latest time at which something other than a heartbeat happened; the
      event that opens the record counts whatever it is. */
  function LatestActivity(own: seq<JournalEvent>): int
    requires own != []
    decreases |own|
  {
    var e := own[|own| - 1];
    if |own| == 1 then e.ts
    else if e.data.Heartbeat? then LatestActivity(own[..|own| - 1])
    else Max(LatestActivity(own[..|own| - 1]), e.ts)
  }

  /** The record of an Attempt, field by field. */
  lemma {:induction false} RecordMeans(own: seq<JournalEvent>)
    requires own != []
    ensures var a := Record(own);
      && a.ended == (if Ends(own) == [] then None else Some(Ends(own)[|Ends(own)| - 1]))
      && a.lastHeartbeat == (match LastBeat(own) case Some(s) => Some(s.at) case None => None)
      && a.startedAt == (match LastStart(own) case Some(s) => Some(s.at) case None => None)
      && a.pid == (match LastStart(own) case Some(s) => Some(s.pid) case None => None)
      && a.lastEventAt == LatestAt(own) && a.lastActivityAt == LatestActivity(own)
    decreases |own|
  {
    var rest := own[..|own| - 1];
    if |own| > 1 {
      RecordMeans(rest);
    } else {
      assert rest == [];
    }
  }

  // ---------------------------------------------------------------------
  // derive_status
  // ---------------------------------------------------------------------

  function MaxAttempt(events: seq<JournalEvent>): nat
    decreases |events|
  {
    if events == [] then 0 else Max(MaxAttempt(events[..|events| - 1]), events[|events| - 1].attempt)
  }

  function Ended(reason: EndReason): Status {
    match reason
    case Completed => Status.Completed
    case Stopped => Status.Stopped
    case Failed => Status.Failed
    case Error => Status.Failed
    case BudgetExhausted => Status.Failed
    case MaxSteps => Status.Failed
  }

  /** Silent too long, with no process to show for it. */
  predicate Gone(seenAt: int, pid: Option<nat>, now: int, alive: nat -> bool) {
    now - seenAt > CRASH_AFTER && !(pid.Some? && alive(pid.value))
  }

  function OpenStatus(beat: Option<Sign>, start: Option<Sign>, indexed: int, now: int, alive: nat -> bool): Status {
    var sign := if beat.Some? then beat else start;
    var gone := match sign case Some(s) => Gone(s.at, Some(s.pid), now, alive) case None => Gone(indexed, None, now, alive);
    if gone then Status.Crashed else Status.Running
  }

  /** The status in terms of the last Attempt's own events. */
  function StatusIn(own: seq<JournalEvent>, indexed: int, now: int, alive: nat -> bool): Status {
    if Ends(own) != [] then Ended(Ends(own)[0].reason) else OpenStatus(LastBeat(own), LastStart(own), indexed, now, alive)
  }

  /** What one more event adds to the scan of Attempt `n`. */
  lemma ScanStep(events: seq<JournalEvent>, i: nat, n: nat)
    requires i < |events|
    ensures var was, own, e := Of(events[..i], n), Of(events[..i + 1], n), events[i];
      && (e.attempt == n && e.data.AttemptEnded? ==> Ends(own) == Ends(was) + [End(e.data.reason, e.ts)])
      && (!(e.attempt == n && e.data.AttemptEnded?) ==> Ends(own) == Ends(was))
      && LastBeat(own) == (if e.attempt == n && e.data.Heartbeat? then Some(Sign(e.ts, e.data.pid)) else LastBeat(was))
      && LastStart(own) == (if e.attempt == n && e.data.AttemptStarted? then Some(Sign(e.ts, e.data.pid)) else LastStart(was))
  {
    assert events[..i + 1][..i] == events[..i];
    var was := Of(events[..i], n);
    assert (was + [events[i]])[..|was|] == was;
  }

  /** Scan the last Attempt; its first `AttemptEnded` decides. */
  method DeriveStatus(events: seq<JournalEvent>, indexed: int, now: int, alive: nat -> bool) returns (r: Status)
    ensures r == StatusIn(Of(events, MaxAttempt(events)), indexed, now, alive)
  {
    hide Of, Ends, LastBeat, LastStart, Gone;
    var last, i := 0, 0;
    while i < |events|
      invariant i <= |events| && last == MaxAttempt(events[..i])
    {
      assert events[..i + 1][..i] == events[..i];
      last, i := if last < events[i].attempt then events[i].attempt else last, i + 1;
    }
    assert events[..i] == events;
    var beat, start: Option<Sign> := None, None;
    i := 0;
    NothingSaid(last);
    assert events[..0] == [];
    while i < |events|
      invariant i <= |events|
      invariant Ends(Of(events[..i], last)) == []
      invariant beat == LastBeat(Of(events[..i], last)) && start == LastStart(Of(events[..i], last))
    {
      var e := events[i];
      ScanStep(events, i, last);
      i := i + 1;
      if e.attempt == last {
        match e.data {
          case AttemptEnded(reason) =>
            FirstEndStays(events, i, last);
            return Ended(reason);
          case Heartbeat(pid) => beat := Some(Sign(e.ts, pid));
          case AttemptStarted(pid) => start := Some(Sign(e.ts, pid));
          case _ =>
        }
      }
    }
    assert events[..i] == events;
    var sign := if beat.Some? then beat else start;
    var gone := match sign case Some(s) => Gone(s.at, Some(s.pid), now, alive) case None => Gone(indexed, None, now, alive);
    return if gone then Status.Crashed else Status.Running;
  }

  lemma NothingSaid(n: nat)
    ensures var own := Of([], n); Ends(own) == [] && LastBeat(own) == None && LastStart(own) == None
  {
  }

  /** Later events only add ends behind the first. */
  lemma {:induction false} FirstEndStays(events: seq<JournalEvent>, i: nat, n: nat)
    requires i <= |events|
    ensures Ends(Of(events[..i], n)) <= Ends(Of(events, n))
    decreases |events| - i
  {
    hide Of, Ends;
    if i < |events| {
      FirstEndStays(events, i + 1, n);
      ScanStep(events, i, n);
    } else {
      assert events[..i] == events;
    }
  }

  // ---------------------------------------------------------------------
  // Agreement
  // ---------------------------------------------------------------------

  predicate AllKnown(events: seq<JournalEvent>) { forall e | e in events :: !e.data.Unknown? }

  lemma {:induction false} OfMax(events: seq<JournalEvent>, n: nat)
    requires AllKnown(events)
    ensures Of(events, n) != [] ==> n <= MaxAttempt(events)
    ensures events != [] ==> Of(events, MaxAttempt(events)) != []
    decreases |events|
  {
    if events != [] {
      var before := events[..|events| - 1];
      OfMax(before, n);
      OfMax(before, MaxAttempt(before));
      assert events[|events| - 1] in events;
    }
  }

  /** The projection's last record is the last Attempt's. */
  lemma LastRecord(events: seq<JournalEvent>)
    requires AllKnown(events) && events != []
    ensures var attempts := Fold(events).attempts; var own := Of(events, MaxAttempt(events));
      own != [] && attempts != [] && attempts[|attempts| - 1] == Record(own)
  {
    hide Fold, AttemptIndex, Of, Record, MaxAttempt;
    var attempts, last := Fold(events).attempts, MaxAttempt(events);
    FoldFaithful(events);
    OfMax(events, last);
    assert FaithfulAt(attempts, events, last);
    var end := |attempts| - 1;
    RecordIs(attempts, end);
    assert FaithfulAt(attempts, events, attempts[end].attempt);
    OfMax(events, attempts[end].attempt);
    assert forall i | 0 <= i <= end :: attempts[i].attempt <= attempts[end].attempt;
  }

  lemma FoldStatus(events: seq<JournalEvent>)
    requires AllKnown(events) && events != []
    ensures Fold(events).status == StatusOf(Fold(events).attempts)
  {
    hide NoteAttempt, Told, StatusOf;
    assert events[|events| - 1] in events;
  }

  /** How the Monitor shows a derived status: it has no clock and no probe. */
  function Shown(s: Status): ViewStatus {
    match s
    case Running => ViewStatus.Running
    case Completed => ViewStatus.Completed
    case Failed => ViewStatus.Failed
    case Stopped => ViewStatus.Stopped
    case Crashed => ViewStatus.Running
  }

  /** MAIN RESULT. The two derivations agree exactly when the first and the
      last `AttemptEnded` of the last Attempt mean the same: always, if there
      is at most one. */
  lemma StatusesAgree(events: seq<JournalEvent>, indexed: int, now: int, alive: nat -> bool)
    requires AllKnown(events) && events != []
    ensures var own := Of(events, MaxAttempt(events)); var ends := Ends(own);
      (Fold(events).status == Shown(StatusIn(own, indexed, now, alive)))
      <==> (ends == [] || Ended(ends[0].reason) == Ended(ends[|ends| - 1].reason))
  {
    hide Fold, Of, Record, MaxAttempt, Ends, LastBeat, LastStart;
    var own := Of(events, MaxAttempt(events));
    LastRecord(events);
    FoldStatus(events);
    RecordMeans(own);
  }

  /** One that ended twice, first stopped and then completed. */
  function EndedTwice(): seq<JournalEvent> {
    [JournalEvent(1, 0, 1, AttemptEnded(EndReason.Stopped)), JournalEvent(2, 0, 1, AttemptEnded(EndReason.Completed))]
  }

  lemma EndedTwiceOwn()
    ensures MaxAttempt(EndedTwice()) == 1 && Of(EndedTwice(), 1) == EndedTwice()
    ensures Ends(EndedTwice()) == [End(EndReason.Stopped, 0), End(EndReason.Completed, 0)]
  {
    var events := EndedTwice();
    var first := [events[0]];
    assert events[..1] == first && first[..0] == [];
    assert MaxAttempt(first) == 1;
    assert Of(first, 1) == first && first + [events[1]] == events;
    assert Ends(first) == [End(EndReason.Stopped, 0)];
  }

  /** Two ends that differ do make the derivations disagree. */
  lemma TwoEndsDisagree(indexed: int, now: int, alive: nat -> bool)
    ensures var events := EndedTwice();
      && Fold(events).status == ViewStatus.Completed
      && StatusIn(Of(events, MaxAttempt(events)), indexed, now, alive) == Status.Stopped
  {
    hide Of, Ends, MaxAttempt, Fold, Record, LastBeat, LastStart;
    EndedTwiceOwn();
    LastRecord(EndedTwice());
    FoldStatus(EndedTwice());
    RecordMeans(EndedTwice());
  }
}
