/** What the two statuses, the records and the findings mean, in terms of the
    events and with every limit written out
    (crates/attractor-journal/src/status.rs:61-96,
    crates/attractor-monitor/src/findings.rs:155-258). */
module StatusMeaning {
  import opened Wrappers
  import opened JournalEvents
  import opened Projection
  import RunStatus
  import Findings
  import ProjectionMeaning

  // ---------------------------------------------------------------------
  // Readings
  // ---------------------------------------------------------------------

  /** Event `i` is the last of its kind among the events of an Attempt. */
  ghost predicate LastBeatAt(own: seq<JournalEvent>, i: nat) {
    i < |own| && own[i].data.Heartbeat? && forall j | i < j < |own| :: !own[j].data.Heartbeat?
  }

  ghost predicate LastStartAt(own: seq<JournalEvent>, i: nat) {
    i < |own| && own[i].data.AttemptStarted? && forall j | i < j < |own| :: !own[j].data.AttemptStarted?
  }

  ghost predicate FirstEndAt(own: seq<JournalEvent>, i: nat) {
    i < |own| && own[i].data.AttemptEnded? && forall j | 0 <= j < i :: !own[j].data.AttemptEnded?
  }

  ghost predicate LastEndAt(own: seq<JournalEvent>, i: nat) {
    i < |own| && own[i].data.AttemptEnded? && forall j | i < j < |own| :: !own[j].data.AttemptEnded?
  }

  /** An event that counts as activity: none but the first may be a heartbeat. */
  predicate Counts(own: seq<JournalEvent>, i: nat, beats: bool) {
    i < |own| && (beats || i == 0 || !own[i].data.Heartbeat?)
  }

  /** `t` is the latest time of an event that counts. */
  ghost predicate Latest(t: int, own: seq<JournalEvent>, beats: bool) {
    && (exists i: nat :: Counts(own, i, beats) && own[i].ts == t)
    && forall i: nat :: Counts(own, i, beats) ==> own[i].ts <= t
  }

  predicate NoBeat(own: seq<JournalEvent>) { forall e | e in own :: !e.data.Heartbeat? }
  predicate NoStart(own: seq<JournalEvent>) { forall e | e in own :: !e.data.AttemptStarted? }
  predicate NoEnd(own: seq<JournalEvent>) { forall e | e in own :: !e.data.AttemptEnded? }

  // ---------------------------------------------------------------------
  // The scans find those events
  // ---------------------------------------------------------------------

  lemma {:induction false} BeatIs(own: seq<JournalEvent>)
    ensures match RunStatus.LastBeat(own)
      case Some(s) => exists i: nat :: LastBeatAt(own, i) && s == RunStatus.Sign(own[i].ts, own[i].data.pid)
      case None => NoBeat(own)
    decreases |own|
  {
    if own != [] {
      var n := |own| - 1;
      BeatIs(own[..n]);
      if own[n].data.Heartbeat? {
        assert LastBeatAt(own, n);
      } else if RunStatus.LastBeat(own).Some? {
        var s := RunStatus.LastBeat(own).value;
        var i: nat :| LastBeatAt(own[..n], i) && s == RunStatus.Sign(own[..n][i].ts, own[..n][i].data.pid);
        assert LastBeatAt(own, i);
      } else {
        assert own == own[..n] + [own[n]];
      }
    }
  }

  lemma {:induction false} StartIs(own: seq<JournalEvent>)
    ensures match RunStatus.LastStart(own)
      case Some(s) => exists i: nat :: LastStartAt(own, i) && s == RunStatus.Sign(own[i].ts, own[i].data.pid)
      case None => NoStart(own)
    decreases |own|
  {
    if own != [] {
      var n := |own| - 1;
      StartIs(own[..n]);
      if own[n].data.AttemptStarted? {
        assert LastStartAt(own, n);
      } else if RunStatus.LastStart(own).Some? {
        var s := RunStatus.LastStart(own).value;
        var i: nat :| LastStartAt(own[..n], i) && s == RunStatus.Sign(own[..n][i].ts, own[..n][i].data.pid);
        assert LastStartAt(own, i);
      } else {
        assert own == own[..n] + [own[n]];
      }
    }
  }

  lemma {:induction false} FirstEndIs(own: seq<JournalEvent>)
    ensures RunStatus.Ends(own) == [] <==> NoEnd(own)
    ensures RunStatus.Ends(own) != [] ==>
      exists i: nat :: FirstEndAt(own, i) && RunStatus.Ends(own)[0] == End(own[i].data.reason, own[i].ts)
    decreases |own|
  {
    if own != [] {
      var n := |own| - 1;
      FirstEndIs(own[..n]);
      assert own == own[..n] + [own[n]];
      if RunStatus.Ends(own[..n]) != [] {
        var i: nat :| FirstEndAt(own[..n], i) && RunStatus.Ends(own[..n])[0] == End(own[..n][i].data.reason, own[..n][i].ts);
        assert FirstEndAt(own, i);
        assert own[i] in own;
      } else if own[n].data.AttemptEnded? {
        assert FirstEndAt(own, n);
        assert own[n] in own;
      }
    }
  }

  lemma {:induction false} LastEndIs(own: seq<JournalEvent>)
    ensures var ends := RunStatus.Ends(own);
      ends != [] ==> exists i: nat :: LastEndAt(own, i) && ends[|ends| - 1] == End(own[i].data.reason, own[i].ts)
    decreases |own|
  {
    var ends := RunStatus.Ends(own);
    if own != [] && ends != [] {
      var n := |own| - 1;
      LastEndIs(own[..n]);
      if own[n].data.AttemptEnded? {
        assert LastEndAt(own, n);
      } else {
        var i: nat :| LastEndAt(own[..n], i) && ends[|ends| - 1] == End(own[..n][i].data.reason, own[..n][i].ts);
        assert LastEndAt(own, i);
      }
    }
  }

  lemma {:induction false} LatestIs(own: seq<JournalEvent>)
    requires own != []
    ensures Latest(RunStatus.LatestAt(own), own, true)
    decreases |own|
  {
    LatestSnoc(own, true);
    if |own| > 1 { LatestIs(own[..|own| - 1]); }
  }

  lemma {:induction false} ActivityIs(own: seq<JournalEvent>)
    requires own != []
    ensures Latest(RunStatus.LatestActivity(own), own, false)
    decreases |own|
  {
    LatestSnoc(own, false);
    if |own| > 1 { ActivityIs(own[..|own| - 1]); }
  }

  lemma LatestSnoc(own: seq<JournalEvent>, beats: bool)
    requires own != []
    ensures var n := |own| - 1;
      && (n == 0 ==> Latest(own[0].ts, own, beats))
      && (n > 0 && !Counts(own, n, beats) ==> forall t | Latest(t, own[..n], beats) :: Latest(t, own, beats))
      && (n > 0 && Counts(own, n, beats) ==>
            forall t | Latest(t, own[..n], beats) :: Latest(if t < own[n].ts then own[n].ts else t, own, beats))
  {
    var n := |own| - 1;
    assert n == 0 ==> Counts(own, 0, beats);
    forall t | n > 0 && Latest(t, own[..n], beats)
      ensures Latest(if Counts(own, n, beats) && t < own[n].ts then own[n].ts else t, own, beats)
    {
      var i: nat :| Counts(own[..n], i, beats) && own[..n][i].ts == t;
      assert Counts(own, i, beats);
      forall j: nat | Counts(own, j, beats) && j < n ensures own[j].ts <= t {
        assert Counts(own[..n], j, beats) && own[..n][j].ts == own[j].ts;
      }
    }
  }

  // ---------------------------------------------------------------------
  // Records
  // ---------------------------------------------------------------------

  ghost predicate RecordSays(a: AttemptView, own: seq<JournalEvent>) {
    && (if NoEnd(own) then a.ended == None
        else exists i: nat :: LastEndAt(own, i) && a.ended == Some(End(own[i].data.reason, own[i].ts)))
    && (if NoBeat(own) then a.lastHeartbeat == None
        else exists i: nat :: LastBeatAt(own, i) && a.lastHeartbeat == Some(own[i].ts))
    && (if NoStart(own) then a.startedAt == None && a.pid == None
        else exists i: nat :: LastStartAt(own, i) && a.startedAt == Some(own[i].ts) && a.pid == Some(own[i].data.pid))
    && Latest(a.lastEventAt, own, true) && Latest(a.lastActivityAt, own, false)
  }

  lemma PresentBeat(own: seq<JournalEvent>, i: nat)
    requires i < |own|
    ensures LastBeatAt(own, i) ==> !NoBeat(own)
    ensures LastStartAt(own, i) ==> !NoStart(own)
  {
    assert own[i] in own;
  }

  /** Every record of the view is what the events of its Attempt say. */
  lemma RecordIsSaid(own: seq<JournalEvent>)
    requires own != []
    ensures RecordSays(Record(own), own)
  {
    hide Record, RunStatus.Ends, RunStatus.LastBeat, RunStatus.LastStart, RunStatus.LatestAt, RunStatus.LatestActivity;
    hide Latest, NoEnd;
    RunStatus.RecordMeans(own);
    BeatIs(own);
    StartIs(own);
    FirstEndIs(own);
    LastEndIs(own);
    LatestIs(own);
    ActivityIs(own);
  }

  // ---------------------------------------------------------------------
  // Statuses
  // ---------------------------------------------------------------------

  /** The last Attempt is the one with the largest number. */
  lemma {:induction false} LastAttemptIs(events: seq<JournalEvent>)
    requires events != []
    ensures exists e :: e in events && e.attempt == RunStatus.MaxAttempt(events)
    ensures forall e | e in events :: e.attempt <= RunStatus.MaxAttempt(events)
    decreases |events|
  {
    var n := |events| - 1;
    assert events == events[..n] + [events[n]];
    assert events[n] in events;
    if n > 0 {
      LastAttemptIs(events[..n]);
      var e :| e in events[..n] && e.attempt == RunStatus.MaxAttempt(events[..n]);
      assert e in events;
    }
  }

  /** Two minutes without a sign of life, the process of the last sign gone. */
  ghost predicate SilentAndGone(own: seq<JournalEvent>, indexed: int, now: int, alive: nat -> bool) {
    if !NoBeat(own) then forall i: nat :: LastBeatAt(own, i) ==> now - own[i].ts > 120000 && !alive(own[i].data.pid)
    else if !NoStart(own) then forall i: nat :: LastStartAt(own, i) ==> now - own[i].ts > 120000 && !alive(own[i].data.pid)
    else now - indexed > 120000
  }

  lemma SilentIs(own: seq<JournalEvent>, indexed: int, now: int, alive: nat -> bool)
    ensures RunStatus.OpenStatus(RunStatus.LastBeat(own), RunStatus.LastStart(own), indexed, now, alive)
         == if SilentAndGone(own, indexed, now, alive) then RunStatus.Crashed else RunStatus.Running
  {
    hide RunStatus.LastBeat, RunStatus.LastStart;
    BeatIs(own);
    StartIs(own);
    forall i: nat | i < |own| ensures LastBeatAt(own, i) ==> !NoBeat(own) ensures LastStartAt(own, i) ==> !NoStart(own) {
      PresentBeat(own, i);
    }
  }

  /** MAIN RESULT. The derived status, with its table and its limit. */
  lemma DerivedMeans(own: seq<JournalEvent>, indexed: int, now: int, alive: nat -> bool)
    ensures var r := RunStatus.StatusIn(own, indexed, now, alive);
      if NoEnd(own) then r == if SilentAndGone(own, indexed, now, alive) then RunStatus.Crashed else RunStatus.Running
      else exists i: nat :: FirstEndAt(own, i) &&
             r == if own[i].data.reason == EndReason.Completed then RunStatus.Completed
                  else if own[i].data.reason == EndReason.Stopped then RunStatus.Stopped
                  else RunStatus.Failed
  {
    hide RunStatus.Ends, RunStatus.LastBeat, RunStatus.LastStart, RunStatus.OpenStatus, NoEnd, SilentAndGone;
    FirstEndIs(own);
    SilentIs(own, indexed, now, alive);
  }

  /** The same of the view's status: here the last end decides. */
  lemma ShownMeans(events: seq<JournalEvent>)
    requires RunStatus.AllKnown(events) && events != []
    ensures var own := Of(events, RunStatus.MaxAttempt(events)); var r := Fold(events).status;
      if NoEnd(own) then r == ViewStatus.Running
      else exists i: nat :: LastEndAt(own, i) &&
             r == if own[i].data.reason == EndReason.Completed then ViewStatus.Completed
                  else if own[i].data.reason == EndReason.Stopped then ViewStatus.Stopped
                  else ViewStatus.Failed
  {
    hide Fold, Of, Record, RunStatus.MaxAttempt, RunStatus.Ends, NoEnd;
    var own := Of(events, RunStatus.MaxAttempt(events));
    RunStatus.LastRecord(events);
    RunStatus.FoldStatus(events);
    RecordIsSaid(own);
  }

  // ---------------------------------------------------------------------
  // Findings
  // ---------------------------------------------------------------------

  /** Two minutes without a sign of life, and the started process gone. */
  ghost predicate SilentFor(own: seq<JournalEvent>, now: int) {
    if !NoBeat(own) then forall i: nat :: LastBeatAt(own, i) ==> now - own[i].ts > 120000
    else if !NoStart(own) then forall i: nat :: LastStartAt(own, i) ==> now - own[i].ts > 120000
    else forall e | e in own :: now - e.ts > 120000
  }

  ghost predicate StartedIsGone(own: seq<JournalEvent>, alive: nat -> bool) {
    forall i: nat :: LastStartAt(own, i) ==> !alive(own[i].data.pid)
  }

  lemma LatestOld(t: int, own: seq<JournalEvent>, now: int)
    requires Latest(t, own, true)
    ensures now - t > 120000 <==> forall e | e in own :: now - e.ts > 120000
  {
    forall i: nat | i < |own| ensures own[i].ts <= t { assert Counts(own, i, true); }
    var k: nat :| Counts(own, k, true) && own[k].ts == t;
    assert own[k] in own;
  }

  lemma CrashedIs(a: AttemptView, own: seq<JournalEvent>, now: int, env: Findings.Env)
    requires RecordSays(a, own)
    ensures Findings.IsCrashed(a, now, env) <==> SilentFor(own, now) && StartedIsGone(own, env.alive)
  {
    hide Latest, NoEnd;
    LatestOld(a.lastEventAt, own, now);
    forall i: nat | i < |own| ensures LastBeatAt(own, i) ==> !NoBeat(own) ensures LastStartAt(own, i) ==> !NoStart(own) {
      PresentBeat(own, i);
    }
  }

  /** MAIN RESULT. When a Run is reported as crashed, in terms of its events. */
  lemma CrashMeans(events: seq<JournalEvent>, now: int, env: Findings.Env)
    requires RunStatus.AllKnown(events) && events != []
    ensures var own := Of(events, RunStatus.MaxAttempt(events));
      Findings.CrashReported(Fold(events), now, env)
      <==> NoEnd(own) && SilentFor(own, now) && StartedIsGone(own, env.alive)
  {
    hide Fold, Of, Record, RunStatus.MaxAttempt, SilentFor, StartedIsGone, Findings.IsCrashed, NoEnd;
    var own := Of(events, RunStatus.MaxAttempt(events));
    RunStatus.LastRecord(events);
    RecordIsSaid(own);
    CrashedIs(Record(own), own, now, env);
  }

  /** A recent heartbeat, but nothing else for longer than the node may take,
      ten minutes if it does not say. */
  ghost predicate BeatingButIdle(own: seq<JournalEvent>, node: string, now: int, env: Findings.Env) {
    && (exists i: nat :: LastBeatAt(own, i) && now - own[i].ts <= 120000)
    && forall i: nat :: Counts(own, i, false) ==>
         now - own[i].ts > if env.timeout(node).Some? then env.timeout(node).value else 600000
  }

  lemma LatestOldFor(t: int, own: seq<JournalEvent>, now: int, limit: int)
    requires Latest(t, own, false)
    ensures now - t > limit <==> forall i: nat :: Counts(own, i, false) ==> now - own[i].ts > limit
  {
    var k: nat :| Counts(own, k, false) && own[k].ts == t;
  }

  lemma LastBeatUnique(own: seq<JournalEvent>, i: nat, j: nat)
    requires LastBeatAt(own, i) && LastBeatAt(own, j)
    ensures i == j
  {
  }

  lemma StalledIs(v: View, a: AttemptView, own: seq<JournalEvent>, node: string, now: int, env: Findings.Env)
    requires RecordSays(a, own) && v.currentNode == Some(node)
    ensures Findings.IsStalled(v, a, now, env) <==> BeatingButIdle(own, node, now, env)
  {
    hide Latest, NoEnd, NoStart, LastBeatAt;
    var limit := if env.timeout(node).Some? then env.timeout(node).value else 600000;
    LatestOldFor(a.lastActivityAt, own, now, limit);
    forall i: nat, j: nat | LastBeatAt(own, i) && LastBeatAt(own, j) ensures i == j { LastBeatUnique(own, i, j); }
    if i: nat :| LastBeatAt(own, i) { BeatPresent(own, i); }
  }

  lemma BeatPresent(own: seq<JournalEvent>, i: nat)
    requires LastBeatAt(own, i)
    ensures i < |own| && !NoBeat(own)
  {
    assert own[i] in own;
  }

  /** MAIN RESULT. When a Run is reported as stalled, in terms of its events. */
  lemma StallMeans(events: seq<JournalEvent>, now: int, env: Findings.Env)
    requires RunStatus.AllKnown(events) && events != []
    ensures var v := Fold(events); var own := Of(events, RunStatus.MaxAttempt(events));
      (Findings.Live(v).Some? && Findings.IsStalled(v, Findings.Live(v).value, now, env))
      <==> NoEnd(own) && exists node, i :: ProjectionMeaning.StandsAt(events, i, node) && BeatingButIdle(own, node, now, env)
  {
    hide Fold, Of, Record, RunStatus.MaxAttempt, Findings.IsStalled, NoEnd, BeatingButIdle, ProjectionMeaning.StandsAt;
    var v, own := Fold(events), Of(events, RunStatus.MaxAttempt(events));
    RunStatus.LastRecord(events);
    RecordIsSaid(own);
    ProjectionMeaning.FoldMeans(events);
    NodeIs(v, events);
    if v.currentNode.Some? {
      StalledIs(v, Record(own), own, v.currentNode.value, now, env);
    } else {
      NotStalled(v, Record(own), now, env);
    }
  }

  lemma NotStalled(v: View, a: AttemptView, now: int, env: Findings.Env)
    requires v.currentNode == None
    ensures !Findings.IsStalled(v, a, now, env)
  {
  }

  /** One finding for every stage that failed, in order. */
  function FailuresFound(events: seq<JournalEvent>): seq<Findings.Finding>
    decreases |events|
  {
    if events == [] then []
    else
      var e := events[|events| - 1];
      FailuresFound(events[..|events| - 1])
      + if e.data.StageFailed? then [Findings.Finding(Findings.StageFailed, Some(e.data.node), Some(e.seq_))] else []
  }

  /** One for every retry but the first of a stage. */
  function RetriesFound(events: seq<JournalEvent>): seq<Findings.Finding>
    decreases |events|
  {
    if events == [] then []
    else
      var e := events[|events| - 1];
      RetriesFound(events[..|events| - 1])
      + if e.data.StageRetrying? && e.data.retry >= 2
        then [Findings.Finding(Findings.Retrying, Some(e.data.node), Some(e.seq_))] else []
  }

  lemma {:induction false} FailuresAre(events: seq<JournalEvent>)
    ensures Findings.FactFindings(ProjectionMeaning.FailuresOf(events), Findings.StageFailed, 0) == FailuresFound(events)
    decreases |events|
  {
    if events != [] {
      var rest := ProjectionMeaning.FailuresOf(events[..|events| - 1]);
      FailuresAre(events[..|events| - 1]);
      var e := events[|events| - 1];
      if e.data.StageFailed? {
        assert (rest + [StageFact(e.data.node, None, e.seq_)])[..|rest|] == rest;
      } else {
        assert ProjectionMeaning.FailuresOf(events) == rest;
      }
    }
  }

  lemma {:induction false} RetriesAre(events: seq<JournalEvent>)
    ensures Findings.FactFindings(ProjectionMeaning.RetriesOf(events), Findings.Retrying, 2) == RetriesFound(events)
    decreases |events|
  {
    if events != [] {
      var rest := ProjectionMeaning.RetriesOf(events[..|events| - 1]);
      RetriesAre(events[..|events| - 1]);
      var e := events[|events| - 1];
      if e.data.StageRetrying? {
        assert (rest + [StageFact(e.data.node, Some(e.data.retry), e.seq_)])[..|rest|] == rest;
      } else {
        assert ProjectionMeaning.RetriesOf(events) == rest;
      }
    }
  }

  /** MAIN RESULT. Everything the Monitor finds about a Run, in terms of its
      events: a crash, else a stall; then every failed stage and every repeated
      retry; then the question that is waiting. */
  lemma FindingsMean(events: seq<JournalEvent>, now: int, env: Findings.Env)
    requires RunStatus.AllKnown(events) && events != []
    ensures var own := Of(events, RunStatus.MaxAttempt(events));
      var crashed := NoEnd(own) && SilentFor(own, now) && StartedIsGone(own, env.alive);
      exists life, waiting ::
        && Findings.Due(Fold(events), now, env) == life + FailuresFound(events) + RetriesFound(events) + waiting
        && (if crashed then life == [Findings.Finding(Findings.Crashed, None, None)] else StallFound(life, events, own, now, env))
        && GateFound(waiting, events)
  {
    hide Fold, Of, RunStatus.MaxAttempt, SilentFor, StartedIsGone, Findings.LifeFindings, Findings.GateFindings, NoEnd;
    hide StallFound, GateFound, FailuresFound, RetriesFound;
    var v, own := Fold(events), Of(events, RunStatus.MaxAttempt(events));
    CrashMeans(events, now, env);
    FactsMean(events);
    LifeMeans(events, now, env);
    var life, waiting := Findings.LifeFindings(v, now, env), Findings.GateFindings(v);
    assert Findings.Due(v, now, env) == life + FailuresFound(events) + RetriesFound(events) + waiting;
  }

  lemma FactsMean(events: seq<JournalEvent>)
    ensures var v := Fold(events);
      && Findings.FactFindings(v.failures, Findings.StageFailed, 0) == FailuresFound(events)
      && Findings.FactFindings(v.retries, Findings.Retrying, 2) == RetriesFound(events)
      && GateFound(Findings.GateFindings(v), events)
  {
    hide Fold, Findings.FactFindings, FailuresFound, RetriesFound, Findings.GateFindings, GateFound;
    ProjectionMeaning.FoldMeans(events);
    FailuresAre(events);
    RetriesAre(events);
    GateFoundIs(Fold(events), events);
  }

  lemma LifeMeans(events: seq<JournalEvent>, now: int, env: Findings.Env)
    requires RunStatus.AllKnown(events) && events != []
    ensures var v := Fold(events); var own := Of(events, RunStatus.MaxAttempt(events)); var life := Findings.LifeFindings(v, now, env);
      if Findings.CrashReported(v, now, env) then life == [Findings.Finding(Findings.Crashed, None, None)]
      else StallFound(life, events, own, now, env)
  {
    hide Fold, Of, RunStatus.MaxAttempt, Findings.IsCrashed, Findings.IsStalled, StallFound;
    var v, own := Fold(events), Of(events, RunStatus.MaxAttempt(events));
    StallMeans(events, now, env);
    ProjectionMeaning.FoldMeans(events);
    if !Findings.CrashReported(v, now, env) { StallFoundIs(v, events, own, now, env); }
  }

  /** A stall at the node where the Run stands, or nothing. */
  ghost predicate StallFound(life: seq<Findings.Finding>, events: seq<JournalEvent>, own: seq<JournalEvent>, now: int, env: Findings.Env) {
    if NoEnd(own) && exists node, i :: ProjectionMeaning.StandsAt(events, i, node) && BeatingButIdle(own, node, now, env)
    then exists node, i :: ProjectionMeaning.StandsAt(events, i, node) && life == [Findings.Finding(Findings.Stalled, Some(node), None)]
    else life == []
  }

  /** The question still open, or nothing. */
  ghost predicate GateFound(waiting: seq<Findings.Finding>, events: seq<JournalEvent>) {
    if exists g, i :: ProjectionMeaning.Waits(events, i, g)
    then exists g, i :: ProjectionMeaning.Waits(events, i, g)
                     && waiting == [Findings.Finding(Findings.HumanGateWaiting, Some(g.node), None)]
    else waiting == []
  }

  lemma GateFoundIs(v: View, events: seq<JournalEvent>)
    requires ProjectionMeaning.GateMeans(v, events)
    ensures GateFound(Findings.GateFindings(v), events)
  {
    hide ProjectionMeaning.Waits;
    GateIs(v, events);
  }

  lemma StallFoundIs(v: View, events: seq<JournalEvent>, own: seq<JournalEvent>, now: int, env: Findings.Env)
    requires ProjectionMeaning.NodeMeans(v, events) && !Findings.CrashReported(v, now, env)
    requires (Findings.Live(v).Some? && Findings.IsStalled(v, Findings.Live(v).value, now, env))
        <==> NoEnd(own) && exists node, i :: ProjectionMeaning.StandsAt(events, i, node) && BeatingButIdle(own, node, now, env)
    ensures StallFound(Findings.LifeFindings(v, now, env), events, own, now, env)
  {
    hide ProjectionMeaning.StandsAt, Findings.IsCrashed, Findings.IsStalled, NoEnd, BeatingButIdle;
    NodeIs(v, events);
    if v.currentNode.None? && Findings.Live(v).Some? { NotStalled(v, Findings.Live(v).value, now, env); }
  }

  lemma GateIs(v: View, events: seq<JournalEvent>)
    requires ProjectionMeaning.GateMeans(v, events)
    ensures v.gate.Some? <==> exists g, i :: ProjectionMeaning.Waits(events, i, g)
    ensures forall g, i :: ProjectionMeaning.Waits(events, i, g) ==> v.gate == Some(g)
  {
    hide ProjectionMeaning.Waits;
    if v.gate.Some? {
      var g := v.gate.value;
      assert v.gate == Some(g);
    }
    forall g, i | ProjectionMeaning.Waits(events, i, g) ensures v.gate == Some(g) {
      assert exists k: nat :: ProjectionMeaning.Waits(events, k, g);
    }
  }

  lemma NodeIs(v: View, events: seq<JournalEvent>)
    requires ProjectionMeaning.NodeMeans(v, events)
    ensures v.currentNode.Some? ==> exists i :: ProjectionMeaning.StandsAt(events, i, v.currentNode.value)
    ensures forall node, i :: ProjectionMeaning.StandsAt(events, i, node) ==> v.currentNode == Some(node)
  {
    hide ProjectionMeaning.StandsAt;
    if v.currentNode.Some? {
      var node := v.currentNode.value;
      assert v.currentNode == Some(node);
    }
    forall node, i | ProjectionMeaning.StandsAt(events, i, node) ensures v.currentNode == Some(node) {
      assert exists k: nat :: ProjectionMeaning.StandsAt(events, k, node);
    }
  }
}
