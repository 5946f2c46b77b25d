/** What every reachable state of the execution loop keeps, over any history
    of steps, crashes, stops and resumes of one Run. */
module EngineSafety {
  import opened Wrappers
  import opened EngineGraph
  import opened Engine

  // ---------------------------------------------------------------------
  // The parts of the invariant, for one memory state
  // ---------------------------------------------------------------------

  /** The counters say how many attempts were begun. */
  ghost predicate Counted(cfg: Config, steps: nat, attempts: nat, log: seq<Event>) {
    steps == attempts == Begun(log) && steps <= cfg.maxSteps
  }

  /** The nodes completed are those walked, and each has the outcome with
      which it was last left. */
  ghost predicate Keyed(outcomes: map<string, Outcome>, completed: seq<string>, trail: seq<Stage>) {
    && completed == Nodes(trail)
    && (forall n :: n in outcomes <==> n in completed)
    && forall n | n in outcomes :: LastOutcome(trail, n) == Some(outcomes[n])
  }

  ghost predicate HasEdge(cfg: Config, a: string, b: string) {
    exists e :: e in cfg.edges && e.from == a && e.to == b
  }

  /** How a walk may go on to `b`: from its origin, along an edge from the node
      it left last, or along an edge from that node into an exit and back to
      the retry target of a gate that had failed. */
  ghost predicate Linked(cfg: Config, walk: Walk, b: string) {
    if walk.trail == [] then b == walk.origin
    else HasEdge(cfg, walk.trail[|walk.trail| - 1].node, b) || SentBack(cfg, walk.trail, b)
  }

  ghost predicate SentBack(cfg: Config, trail: seq<Stage>, b: string)
    requires trail != []
  {
    && (exists x :: IsExit(cfg, x) && HasEdge(cfg, trail[|trail| - 1].node, x))
    && exists g :: FailedGate(cfg, trail, g) && BackTo(cfg, g, Some(b))
  }

  /** A goal gate that had not succeeded when it was last left. */
  ghost predicate FailedGate(cfg: Config, trail: seq<Stage>, g: string) {
    && g in cfg.nodes && cfg.nodes[g].goalGate
    && LastOutcome(trail, g).Some?
    && (LastOutcome(trail, g).value.status == Retry || LastOutcome(trail, g).value.status == Fail
        || LastOutcome(trail, g).value.status == Skipped)
  }

  ghost predicate Chained(cfg: Config, walk: Walk) {
    forall i | 0 <= i < |walk.trail| :: Linked(cfg, walk.(trail := walk.trail[..i]), walk.trail[i].node)
  }

  /** An active node is the current one, the attempts of its visit are those
      begun since an edge was taken, and they are counted: all of them, unless
      its handler resumes what was interrupted. */
  ghost predicate Tried(cfg: Config, node: string, active: Option<string>, tries: nat, visit: seq<string>) {
    && tries <= MaxAttempts(cfg, node)
    && (active == None ==> visit == [] && tries == 0)
    && (active.Some? ==> active == Some(node) && SameVisit(visit, node))
    && (active.Some? ==> tries <= |visit| && (!Resumes(cfg, node) ==> |visit| == tries))
  }

  ghost predicate SameVisit(visit: seq<string>, node: string) { forall n | n in visit :: n == node }

  /** An exit is active only while every visited gate is satisfied. */
  ghost predicate Gated(cfg: Config, active: Option<string>, node: string, outcomes: map<string, Outcome>) {
    active.Some? && IsExit(cfg, node) ==> Failing(cfg, outcomes) == {}
  }

  /** The loop counters are the visits of quality nodes. */
  ghost predicate Budgeted(cfg: Config, quality: map<string, nat>, log: seq<Event>) {
    forall key :: Count(quality, key) == KeyVisits(cfg, log, key)
  }

  function Lookup(m: map<string, string>, key: string): Option<string> { if key in m then Some(m[key]) else None }

  /** The upstream node, the context and the footprints are those of the edges
      taken. */
  ghost predicate Derived(cfg: Config, prev: Option<string>, ctx: Context, footprint: map<string, string>, log: seq<Event>) {
    && prev == LastLeft(log)
    && (forall key :: Lookup(ctx, key) == ContextAt(cfg, log, key))
    && forall n :: Lookup(footprint, n) == FootprintAt(cfg, log, n)
  }

  /** Over budget by no more than the cost last reported. */
  ghost predicate Afforded(cfg: Config, cost: real, log: seq<Event>) {
    cost <= cfg.maxBudget || cost <= cfg.maxBudget + LastCost(log)
  }

  /** The context holds no run controls and all that a process starts with. */
  ghost predicate Contextual(cfg: Config, ctx: Context) {
    NoReserved(ctx) && InitialContext(cfg).Keys <= ctx.Keys
  }

  /** All but the loop counters. */
  ghost predicate Base(cfg: Config, m: Mem, log: seq<Event>) {
    && m.node in cfg.nodes
    && Counted(cfg, m.steps, m.attempts, log)
    && Keyed(m.outcomes, m.completed, WalkOf(cfg, log).trail) && Linked(cfg, WalkOf(cfg, log), m.node)
    && Tried(cfg, m.node, m.active, m.tries, VisitLog(log)) && Gated(cfg, m.active, m.node, m.outcomes)
    && Derived(cfg, m.prev, m.ctx, m.footprint, log) && Afforded(cfg, m.cost, log) && Contextual(cfg, m.ctx)
  }

  ghost predicate Sound(cfg: Config, m: Mem, log: seq<Event>) { Base(cfg, m, log) && Budgeted(cfg, m.quality, log) }

  // ---------------------------------------------------------------------
  // Phases
  // ---------------------------------------------------------------------

  /** About to begin an attempt. The first one at a quality node is counted
      already, and within the limit. */
  ghost predicate ReadyOk(cfg: Config, m: Mem, first: bool, log: seq<Event>) {
    && Base(cfg, m, log) && m.active == Some(m.node) && m.tries < MaxAttempts(cfg, m.node)
    && if first && IsQuality(cfg, m.node) then Owing(cfg, m.quality, m.node, log) else Budgeted(cfg, m.quality, log)
  }

  /** The loop counters are one visit ahead. */
  ghost predicate Owing(cfg: Config, quality: map<string, nat>, node: string, log: seq<Event>) {
    && KeyVisits(cfg, log, LoopKey(node, From(log))) + 1 <= cfg.maxFix(node)
    && forall key :: Count(quality, key) == KeyVisits(cfg, log, key) + if key == LoopKey(node, From(log)) then 1 else 0
  }

  /** What the checkpoint says while a handler has an attempt: all of memory,
      with the attempt counted unless it would be asked again. */
  function Interrupted(cfg: Config, m: Mem): Mem {
    if Resumes(cfg, m.node) && m.tries > 0 then m.(tries := m.tries - 1) else m
  }

  ghost predicate RunningOk(cfg: Config, m: Mem, disk: Option<Checkpoint>, log: seq<Event>) {
    && Sound(cfg, m, log) && m.active == Some(m.node) && m.tries > 0
    && m.cost <= cfg.maxBudget && disk == Some(Save(cfg, Interrupted(cfg, m)))
  }

  /** The walk of a completed Run ends at the node that ended it. */
  function FinalWalk(cfg: Config, m: Mem, log: seq<Event>): Walk
    requires m.node in m.outcomes
  {
    Extended(WalkOf(cfg, log), m.node, m.outcomes[m.node])
  }

  ghost predicate CompletedOk(cfg: Config, m: Mem, log: seq<Event>) {
    && m.node in m.outcomes && Keyed(m.outcomes, m.completed, FinalWalk(cfg, m, log).trail)
    && Chained(cfg, FinalWalk(cfg, m, log)) && Afforded(cfg, m.cost, log)
    && forall key :: Lookup(m.ctx, key) == FinalContextAt(cfg, m.outcomes[m.node], log, key)
  }

  /** A completed Run's context has the last node's updates, too. */
  function FinalContextAt(cfg: Config, o: Outcome, log: seq<Event>, key: string): Option<string> {
    if key in o.updates then Some(o.updates[key]) else ContextAt(cfg, log, key)
  }

  ghost predicate ProcOk(cfg: Config, w: World) {
    && (w.proc.Top? ==> Sound(cfg, w.proc.m, w.log))
    && (w.proc.Ready? ==> ReadyOk(cfg, w.proc.m, w.proc.first, w.log))
    && (w.proc.Running? ==> RunningOk(cfg, w.proc.m, w.disk, w.log))
    && (w.proc.Stopped? ==> Sound(cfg, w.proc.m, w.log) && w.disk == Some(Save(cfg, w.proc.m)))
    && (w.proc.Completed? ==> CompletedOk(cfg, w.proc.m, w.log))
  }

  /** The checkpoint is one that this Run wrote, and restores to a sound state. */
  ghost predicate DiskOk(cfg: Config, w: World) {
    && (w.disk.None? ==> w.proc.Completed? || w.log == [])
    && (w.disk.Some? ==> CheckpointOk(cfg, w.disk.value, w.log))
  }

  ghost predicate CheckpointOk(cfg: Config, cp: Checkpoint, log: seq<Event>) {
    cp == Save(cfg, Restore(cfg, cp)) && Sound(cfg, Restore(cfg, cp), log)
  }

  /** What the loop's head leads to. */
  ghost predicate NextOk(cfg: Config, p: Proc, log: seq<Event>) {
    (p.Ready? && p.first && ReadyOk(cfg, p.m, true, log)) || (p.Top? && Sound(cfg, p.m, log)) || p.Failed?
  }

  /** Of the whole history. */
  ghost predicate LogOk(cfg: Config, log: seq<Event>) {
    && Chained(cfg, WalkOf(cfg, log)) && Begun(log) <= cfg.maxSteps
    && (forall n, u | IsQuality(cfg, n) :: Visits(log, n, u) <= cfg.maxFix(n))
    && (VisitLog(log) != [] ==>
          SameVisit(VisitLog(log), VisitLog(log)[0])
          && (!Resumes(cfg, VisitLog(log)[0]) ==> |VisitLog(log)| <= MaxAttempts(cfg, VisitLog(log)[0])))
  }

  ghost predicate Inv(cfg: Config, w: World) { ProcOk(cfg, w) && DiskOk(cfg, w) && LogOk(cfg, w.log) }

  // ---------------------------------------------------------------------
  // Saving and restoring
  // ---------------------------------------------------------------------

  /** What was saved is what is restored. */
  lemma RestoreSave(cfg: Config, m: Mem)
    requires Contextual(cfg, m.ctx)
    ensures Restore(cfg, Save(cfg, m)) == m && Compatible(cfg, Save(cfg, m))
  {
    assert Unreserved(m.ctx) == m.ctx;
    assert InitialContext(cfg) + m.ctx == m.ctx;
  }

  /** A context that holds what the process started with has a clean input. */
  lemma InputClean(cfg: Config, ctx: Context)
    requires Contextual(cfg, ctx)
    ensures NoReserved(cfg.input)
  {
    assert forall k | k in cfg.input :: k in InitialContext(cfg).Keys;
  }

  lemma FreshSound(cfg: Config)
    requires Valid(cfg) && NoReserved(cfg.input)
    ensures Sound(cfg, Fresh(cfg), [])
  {
  }

  // ---------------------------------------------------------------------
  // Events that leave a sound state sound
  // ---------------------------------------------------------------------

  lemma ReportedReads(cfg: Config, log: seq<Event>, e: Event)
    requires e.Reported?
    ensures var l := log + [e];
      Begun(l) == Begun(log) && VisitLog(l) == VisitLog(log) && WalkOf(cfg, l) == WalkOf(cfg, log)
    ensures LastCost(log + [e]) == CostOf(e.o)
    ensures forall n, u :: Visits(log + [e], n, u) == Visits(log, n, u)
    ensures SameEdges(cfg, log, log + [e]) && forall key :: KeyVisits(cfg, log + [e], key) == KeyVisits(cfg, log, key)
  {
    assert (log + [e])[..|log|] == log;
  }

  /** What depends on the edges taken only. */
  ghost predicate SameEdges(cfg: Config, log: seq<Event>, later: seq<Event>) {
    && LastLeft(later) == LastLeft(log)
    && (forall key :: ContextAt(cfg, later, key) == ContextAt(cfg, log, key))
    && forall n :: FootprintAt(cfg, later, n) == FootprintAt(cfg, log, n)
  }

  lemma BeganReads(cfg: Config, log: seq<Event>, e: Event)
    requires e.Began?
    ensures var l := log + [e];
      Begun(l) == Begun(log) + 1 && VisitLog(l) == VisitLog(log) + [e.node] && LastCost(l) == LastCost(log)
      && WalkOf(cfg, l) == WalkOf(cfg, log)
    ensures forall n, u :: Visits(log + [e], n, u)
                        == Visits(log, n, u) + if e.first && n == e.node && u == From(log) then 1 else 0
    ensures SameEdges(cfg, log, log + [e])
    ensures forall key :: KeyVisits(cfg, log + [e], key)
                       == KeyVisits(cfg, log, key)
                          + if e.first && IsQuality(cfg, e.node) && LoopKey(e.node, From(log)) == key then 1 else 0
  {
    hide LoopKey, From;
    assert (log + [e])[..|log|] == log;
  }

  lemma MovedReads(cfg: Config, log: seq<Event>, e: Event)
    requires e.Moved?
    ensures var l := log + [e];
      Begun(l) == Begun(log) && VisitLog(l) == [] && LastCost(l) == LastCost(log) && LastLeft(l) == Some(e.node)
      && WalkOf(cfg, l) == if e.restart then Walk(e.to, []) else Extended(WalkOf(cfg, log), e.node, e.o)
    ensures forall n, u :: Visits(log + [e], n, u) == if e.reset then 0 else Visits(log, n, u)
    ensures forall key :: KeyVisits(cfg, log + [e], key) == if e.reset then 0 else KeyVisits(cfg, log, key)
    ensures forall key :: ContextAt(cfg, log + [e], key) == FinalContextAt(cfg, e.o, log, key)
    ensures forall n :: FootprintAt(cfg, log + [e], n)
                     == if e.reset then None
                        else if e.node == n && IsQuality(cfg, n) && e.o.status == Fail && e.o.footprint.Some? then e.o.footprint
                        else FootprintAt(cfg, log, n)
  {
    assert (log + [e])[..|log|] == log;
  }

  /** Visits from one upstream node are visits under its key. */
  lemma {:induction false} VisitsKeyed(cfg: Config, log: seq<Event>, n: string, u: string)
    requires IsQuality(cfg, n)
    ensures Visits(log, n, u) <= KeyVisits(cfg, log, LoopKey(n, u))
    decreases |log|
  {
    hide LoopKey, From;
    if log != [] { VisitsKeyed(cfg, log[..|log| - 1], n, u); }
  }

  /** A report moves nothing but the cost last reported. */
  lemma ReportedKeeps(cfg: Config, m: Mem, log: seq<Event>, o: Outcome)
    requires Sound(cfg, m, log) && m.cost <= cfg.maxBudget
    ensures Sound(cfg, m, log + [Reported(o)])
  {
    hide Keyed, Linked, WalkOf, Tried, Gated, Contextual, Begun, Visits, KeyVisits, VisitLog, LastCost, LastLeft, ContextAt,
         FootprintAt;
    ReportedReads(cfg, log, Reported(o));
  }

  // ---------------------------------------------------------------------
  // Top
  // ---------------------------------------------------------------------

  lemma VisitKeeps(cfg: Config, m: Mem, log: seq<Event>)
    requires Base(cfg, m, log) && (IsExit(cfg, m.node) ==> Failing(cfg, m.outcomes) == {})
    requires if IsQuality(cfg, m.node) then Owing(cfg, m.quality, m.node, log) else Budgeted(cfg, m.quality, log)
    ensures NextOk(cfg, Visit(cfg, m), log)
  {
    hide Counted, Keyed, Linked, WalkOf, Budgeted, Owing, Derived, Afforded, Contextual, VisitLog, Failing;
  }

  lemma EnteredKeeps(cfg: Config, m: Mem, log: seq<Event>)
    requires Sound(cfg, m, log) && IsQuality(cfg, m.node)
    requires Count(m.quality, LoopKey(m.node, Upstream(m))) + 1 <= cfg.maxFix(m.node)
    ensures Base(cfg, Entered(m), log) && Owing(cfg, Entered(m).quality, m.node, log)
  {
    hide Counted, Keyed, Linked, WalkOf, Tried, Gated, Afforded, Contextual, VisitLog, LoopKey, KeyVisits, LastLeft, ContextAt,
         FootprintAt;
    assert Upstream(m) == From(log);
    var key := LoopKey(m.node, Upstream(m));
    assert Entered(m).quality == m.quality[key := Count(m.quality, key) + 1];
  }

  lemma AtNodeKeeps(cfg: Config, m: Mem, log: seq<Event>)
    requires Sound(cfg, m, log) && !IsExit(cfg, m.node)
    ensures NextOk(cfg, AtNode(cfg, m), log)
  {
    hide Base, Budgeted, NextOk, Owing, Count, LoopKey, Visit;
    if IsQuality(cfg, m.node) {
      if Count(m.quality, LoopKey(m.node, Upstream(m))) + 1 <= cfg.maxFix(m.node) {
        EnteredKeeps(cfg, m, log);
        VisitKeeps(cfg, Entered(m), log);
      } else {
        FailureIsOk(cfg, QualityExhausted, log);
      }
    } else {
      VisitKeeps(cfg, m, log);
    }
  }

  lemma FailureIsOk(cfg: Config, why: Failure, log: seq<Event>)
    ensures NextOk(cfg, Failed(why), log)
  {
  }

  /** Going back from an exit: no attempt was begun there. */
  lemma SentBackKeeps(cfg: Config, m: Mem, log: seq<Event>, gate: string)
    requires Valid(cfg) && Sound(cfg, m, log) && IsExit(cfg, m.node) && gate in Failing(cfg, m.outcomes)
    requires RetryTarget(cfg, gate).Some? && RetryTarget(cfg, gate).value in cfg.nodes
    ensures Sound(cfg, m.(node := RetryTarget(cfg, gate).value), log)
  {
    hide Counted, WalkOf, LastOutcome, Budgeted, Derived, Afforded, Contextual, VisitLog, RetryTarget, HasEdge;
    var to, trail := RetryTarget(cfg, gate).value, WalkOf(cfg, log).trail;
    RetryTargetIs(cfg, gate);
    FailingIs(cfg, m.outcomes);
    assert gate in m.outcomes;
    assert m.active == None;
    SomewhereLeft(trail, gate);
    assert FailedGate(cfg, trail, gate);
    assert !SentBack(cfg, trail, m.node);
    assert HasEdge(cfg, trail[|trail| - 1].node, m.node);
    assert SentBack(cfg, trail, to);
  }

  lemma SomewhereLeft(trail: seq<Stage>, n: string)
    ensures LastOutcome(trail, n).Some? ==> trail != []
  {
  }

  lemma AtExitKeeps(cfg: Config, m: Mem, log: seq<Event>, met: string)
    requires Valid(cfg) && Sound(cfg, m, log) && IsExit(cfg, m.node)
    ensures NextOk(cfg, AtExit(cfg, m, met), log)
  {
    hide Base, Budgeted, ReadyOk, Failing, Visit, RetryTarget;
    var failing := Failing(cfg, m.outcomes);
    if failing == {} {
      VisitKeeps(cfg, m, log);
    } else {
      var gate := Picked(failing, met);
      PickedIsNode(cfg, m.outcomes, gate);
      if RetryTarget(cfg, gate).Some? && RetryTarget(cfg, gate).value in cfg.nodes { SentBackKeeps(cfg, m, log, gate); }
    }
  }

  /** What decides at an exit. While some goal gate has failed, one of them
      does, the one met first if it has: the loop goes back to its target, or
      fails because there is none or it is no node. Only when none has failed
      is the exit's handler up, as long as attempts are left. */
  lemma AtExitMeans(cfg: Config, m: Mem, met: string)
    ensures (exists g :: FailedNow(cfg, m.outcomes, g)) ==>
              exists g :: FailedNow(cfg, m.outcomes, g) && (FailedNow(cfg, m.outcomes, met) ==> g == met)
                          && SendsBack(cfg, m, g, AtExit(cfg, m, met))
    ensures (forall g :: !FailedNow(cfg, m.outcomes, g)) ==>
              var tries := if m.active == Some(m.node) then m.tries else 0;
              AtExit(cfg, m, met) == if tries >= MaxAttempts(cfg, m.node) then Failed(RetriesExhausted)
                                     else Ready(m.(active := Some(m.node), tries := tries), true)
  {
    hide BackTo;
    var failing := Failing(cfg, m.outcomes);
    FailingIs(cfg, m.outcomes);
    if failing != {} {
      var gate := Picked(failing, met);
      RetryTargetIs(cfg, gate);
      assert FailedNow(cfg, m.outcomes, gate) && SendsBack(cfg, m, gate, AtExit(cfg, m, met));
    }
    if g :| FailedNow(cfg, m.outcomes, g) { assert g in failing; }
  }

  /** What becomes of the loop at an exit when gate `g` has failed. */
  ghost predicate SendsBack(cfg: Config, m: Mem, g: string, p: Proc)
    requires g in cfg.nodes
  {
    && (BackTo(cfg, g, None) ==> p == Failed(GateUnsatisfied(g)))
    && forall to :: BackTo(cfg, g, Some(to)) ==> p == if to in cfg.nodes then Top(m.(node := to)) else Failed(NodeNotFound(to))
  }

  lemma PickedIsNode(cfg: Config, outcomes: map<string, Outcome>, gate: string)
    requires gate in Failing(cfg, outcomes)
    ensures gate in cfg.nodes
  {
  }

  // ---------------------------------------------------------------------
  // Ready and Running
  // ---------------------------------------------------------------------

  /** One more attempt begun: `tries` counts it, or need not. */
  lemma BeginKeeps(cfg: Config, m: Mem, first: bool, log: seq<Event>, tries: nat)
    requires ReadyOk(cfg, m, first, log) && m.steps < cfg.maxSteps && m.cost <= cfg.maxBudget
    requires tries == m.tries + 1 || (tries == m.tries && Resumes(cfg, m.node))
    ensures Sound(cfg, m.(steps := m.steps + 1, attempts := m.attempts + 1, tries := tries), log + [Began(m.node, first)])
  {
    hide Keyed, Linked, WalkOf, Gated, Contextual, Begun, Visits, KeyVisits, VisitLog, LastCost, LoopKey, Count, From, LastLeft,
         ContextAt, FootprintAt;
    BeganReads(cfg, log, Began(m.node, first));
  }

  lemma BeginLogged(cfg: Config, m: Mem, first: bool, log: seq<Event>)
    requires ReadyOk(cfg, m, first, log) && m.steps < cfg.maxSteps && LogOk(cfg, log)
    ensures LogOk(cfg, log + [Began(m.node, first)])
  {
    hide Keyed, Linked, WalkOf, Gated, Contextual, Derived, Afforded, Begun, Visits, KeyVisits, VisitLog, LoopKey, Count, From;
    var l := log + [Began(m.node, first)];
    BeganReads(cfg, log, Began(m.node, first));
    if IsQuality(cfg, m.node) { VisitsKeyed(cfg, log, m.node, From(log)); }
    var visit := VisitLog(log);
    assert VisitLog(l) == visit + [m.node];
    assert m.active.Some?;
    assert SameVisit(visit, m.node);
    assert (visit + [m.node])[0] in visit + [m.node];
  }

  lemma ReportedLogged(cfg: Config, log: seq<Event>, e: Event)
    requires LogOk(cfg, log) && e.Reported?
    ensures LogOk(cfg, log + [e])
  {
    hide Begun, Visits, KeyVisits, VisitLog, LastCost, WalkOf, Chained, LastLeft, ContextAt, FootprintAt;
    ReportedReads(cfg, log, e);
  }

  lemma MovedLogged(cfg: Config, m: Mem, told: seq<Event>, log: seq<Event>, o: Outcome, edge: Edge)
    requires Sound(cfg, m, log) && told == log + [Reported(o)] && LogOk(cfg, told)
    ensures LogOk(cfg, told + [Leaving(m.node, o, edge)])
  {
    hide Keyed, Linked, Counted, Tried, Gated, Derived, Budgeted, Afforded, Contextual, Begun, Visits, VisitLog, WalkOf,
         LastCost;
    ReportedReads(cfg, log, Reported(o));
    MovedReads(cfg, told, Leaving(m.node, o, edge));
    ChainedSnoc(cfg, WalkOf(cfg, log), m.node, o);
  }

  lemma SavedOk(cfg: Config, m: Mem, log: seq<Event>)
    requires Sound(cfg, m, log)
    ensures CheckpointOk(cfg, Save(cfg, m), log)
  {
    hide Counted, Keyed, Linked, WalkOf, Tried, Gated, Derived, Budgeted, Afforded;
    RestoreSave(cfg, m);
  }

  lemma ReadyKeeps(cfg: Config, w: World, input: Input)
    requires Inv(cfg, w) && w.proc.Ready?
    ensures Inv(cfg, ReadyStep(cfg, w, w.proc.m, w.proc.first, input))
  {
    hide Sound, Base, Budgeted, Owing, LogOk, CheckpointOk;
    var m, first := w.proc.m, w.proc.first;
    if m.steps < cfg.maxSteps && m.cost <= cfg.maxBudget && input.written {
      var saved := m.(steps := m.steps + 1, attempts := m.attempts + 1,
                      tries := if Resumes(cfg, m.node) then m.tries else m.tries + 1);
      BeginKeeps(cfg, m, first, w.log, m.tries + 1);
      BeginKeeps(cfg, m, first, w.log, saved.tries);
      SavedOk(cfg, saved, w.log + [Began(m.node, first)]);
      BeginLogged(cfg, m, first, w.log);
    }
  }

  lemma CheckpointReported(cfg: Config, cp: Checkpoint, log: seq<Event>, o: Outcome)
    requires CheckpointOk(cfg, cp, log) && cp.totalCost <= cfg.maxBudget
    ensures CheckpointOk(cfg, cp, log + [Reported(o)])
  {
    hide Sound;
    ReportedKeeps(cfg, Restore(cfg, cp), log, o);
  }

  lemma PaidKeeps(cfg: Config, m: Mem, log: seq<Event>, o: Outcome)
    requires Sound(cfg, m, log) && m.cost <= cfg.maxBudget
    ensures Sound(cfg, m.(cost := m.cost + CostOf(o)), log + [Reported(o)])
  {
    hide Keyed, Linked, WalkOf, Tried, Gated, Contextual, Begun, Visits, KeyVisits, VisitLog, LastCost, LastLeft, ContextAt,
         FootprintAt;
    ReportedReads(cfg, log, Reported(o));
  }

  lemma RetriedKeeps(cfg: Config, w: World, o: Outcome, written: bool)
    requires Inv(cfg, w) && w.proc.Running? && More(cfg, w.proc.m)
    ensures Inv(cfg, Retried(cfg, w, w.proc.m, o, written))
  {
    hide Base, Budgeted, LogOk, CheckpointOk;
    var m, e := w.proc.m, Reported(o);
    ReportedKeeps(cfg, m, w.log, o);
    ReportedLogged(cfg, w.log, e);
    CheckpointReported(cfg, w.disk.value, w.log, o);
    PaidKeeps(cfg, m, w.log, o);
    SavedOk(cfg, m.(cost := m.cost + CostOf(o)), w.log + [e]);
  }

  lemma ChainedSnoc(cfg: Config, walk: Walk, node: string, o: Outcome)
    requires Chained(cfg, walk) && Linked(cfg, walk, node)
    ensures Chained(cfg, Extended(walk, node, o))
  {
    hide Linked;
    var longer := Extended(walk, node, o);
    forall i | 0 <= i < |longer.trail| ensures Linked(cfg, longer.(trail := longer.trail[..i]), longer.trail[i].node) {
      assert longer.trail[..i] == walk.trail[..i];
      if i == |walk.trail| { assert walk.trail[..i] == walk.trail; }
    }
  }

  lemma KeyedSnoc(m: Mem, o: Outcome, trail: seq<Stage>)
    requires Keyed(m.outcomes, m.completed, trail)
    ensures Keyed(m.outcomes[m.node := o], m.completed + [m.node], trail + [Stage(m.node, o)])
  {
    assert (trail + [Stage(m.node, o)])[..|trail|] == trail;
  }

  lemma ExitedKeeps(cfg: Config, w: World, o: Outcome, written: bool)
    requires Inv(cfg, w) && w.proc.Running?
    ensures Inv(cfg, Exited(cfg, w.(log := w.log + [Reported(o)]), w.proc.m, o, written))
  {
    hide CheckpointOk, Chained, Keyed, Counted, Linked, WalkOf, Tried, Gated, Budgeted, Contextual, NoReserved, LastCost,
         Begun, Visits, KeyVisits, VisitLog, LastLeft, ContextAt, FootprintAt;
    var m, e := w.proc.m, Reported(o);
    ReportedReads(cfg, w.log, e);
    CheckpointReported(cfg, w.disk.value, w.log, o);
    ChainedSnoc(cfg, WalkOf(cfg, w.log), m.node, o);
    KeyedSnoc(m, o, WalkOf(cfg, w.log).trail);
  }

  /** Recording a node keeps its walk, outcomes and context in order. */
  lemma RecordKeeps(cfg: Config, m: Mem, o: Outcome, edge: Edge, log: seq<Event>)
    requires Sound(cfg, m, log) && m.cost <= cfg.maxBudget && NoReserved(o.updates)
    requires edge in cfg.edges && edge.from == m.node && edge.to in cfg.nodes
    ensures Sound(cfg, Follow(Record(cfg, m, o).(ctx := m.ctx + o.updates), edge),
                  log + [Reported(o)] + [Leaving(m.node, o, edge)])
  {
    hide Keyed, Linked, Derived, Begun, Visits, KeyVisits, VisitLog, WalkOf, LastCost, LastLeft, ContextAt, FootprintAt, Failing,
         LoopKey;
    ReportedReads(cfg, log, Reported(o));
    MovedReads(cfg, log + [Reported(o)], Leaving(m.node, o, edge));
    WalkGoesOn(cfg, m, o, edge, WalkOf(cfg, log));
    DerivedGoesOn(cfg, m, o, edge, log);
  }

  lemma DerivedGoesOn(cfg: Config, m: Mem, o: Outcome, edge: Edge, log: seq<Event>)
    requires Derived(cfg, m.prev, m.ctx, m.footprint, log)
    ensures var next := Follow(Record(cfg, m, o).(ctx := m.ctx + o.updates), edge);
      Derived(cfg, next.prev, next.ctx, next.footprint, log + [Reported(o)] + [Leaving(m.node, o, edge)])
  {
    hide LastLeft, ContextAt, FootprintAt, WalkOf, KeyVisits, Visits, Begun, VisitLog, LastCost;
    ReportedReads(cfg, log, Reported(o));
    MovedReads(cfg, log + [Reported(o)], Leaving(m.node, o, edge));
  }

  lemma WalkGoesOn(cfg: Config, m: Mem, o: Outcome, edge: Edge, walk: Walk)
    requires Keyed(m.outcomes, m.completed, walk.trail) && edge in cfg.edges && edge.from == m.node
    ensures var next := Follow(Record(cfg, m, o).(ctx := m.ctx + o.updates), edge);
      var after := if edge.loopRestart then Walk(edge.to, []) else Extended(walk, m.node, o);
      Keyed(next.outcomes, next.completed, after.trail) && Linked(cfg, after, next.node)
  {
    KeyedSnoc(m, o, walk.trail);
    assert HasEdge(cfg, m.node, edge.to);
  }

  lemma RecordedKeeps(cfg: Config, w: World, o: Outcome, written: bool)
    requires Inv(cfg, w) && w.proc.Running?
    ensures Inv(cfg, Recorded(cfg, w.(log := w.log + [Reported(o)]), w.proc.m, o, written))
  {
    hide CheckpointOk, Sound, LogOk, NoReserved, SelectEdge, Follow, Departed, Record;
    var m, e := w.proc.m, Reported(o);
    ReportedLogged(cfg, w.log, e);
    CheckpointReported(cfg, w.disk.value, w.log, o);
    if NoReserved(o.updates) {
      var r := Record(cfg, m, o).(ctx := m.ctx + o.updates);
      RecordedNode(cfg, m, o);
      SelectedIsEdge(cfg, r.node, o, r.ctx);
      DepartedKeeps(cfg, w.(log := w.log + [e]), m, o, SelectEdge(cfg, r.node, o, r.ctx), written, w.log);
    }
  }

  lemma RecordedNode(cfg: Config, m: Mem, o: Outcome)
    ensures Record(cfg, m, o).node == m.node
  {
  }

  lemma DepartedKeeps(cfg: Config, told: World, m: Mem, o: Outcome, selected: Option<Edge>, written: bool, log: seq<Event>)
    requires Sound(cfg, m, log) && m.cost <= cfg.maxBudget && NoReserved(o.updates) && LogOk(cfg, log)
    requires told.log == log + [Reported(o)] && LogOk(cfg, told.log) && told.disk.Some? && DiskOk(cfg, told)
    requires selected.Some? ==> selected.value in cfg.edges && selected.value.from == m.node
    ensures Inv(cfg, Departed(cfg, told, Record(cfg, m, o).(ctx := m.ctx + o.updates), o, selected, written))
  {
    hide CheckpointOk, Sound, LogOk, NoReserved, Follow, Record;
    var r := Record(cfg, m, o).(ctx := m.ctx + o.updates);
    RecordedNode(cfg, m, o);
    RecordCompletes(cfg, m, o, log);
    if selected.Some? && selected.value.to in cfg.nodes && written {
      var edge := selected.value;
      RecordKeeps(cfg, m, o, edge, log);
      SavedOk(cfg, Follow(r, edge), told.log + [Leaving(m.node, o, edge)]);
      MovedLogged(cfg, m, told.log, log, o, edge);
    }
  }

  /** A Run may end at the node just recorded. */
  lemma RecordCompletes(cfg: Config, m: Mem, o: Outcome, log: seq<Event>)
    requires Sound(cfg, m, log) && m.cost <= cfg.maxBudget && LogOk(cfg, log)
    ensures CompletedOk(cfg, Record(cfg, m, o).(ctx := m.ctx + o.updates, active := None, tries := 0),
                        log + [Reported(o)])
  {
    hide Keyed, Chained, Linked, WalkOf, Counted, Tried, Gated, Budgeted, Contextual, LastCost, Begun, Visits, KeyVisits,
         VisitLog, LastLeft, ContextAt, FootprintAt;
    ReportedReads(cfg, log, Reported(o));
    ChainedSnoc(cfg, WalkOf(cfg, log), m.node, o);
    KeyedSnoc(m, o, WalkOf(cfg, log).trail);
  }

  lemma SelectedIsEdge(cfg: Config, node: string, o: Outcome, ctx: Context)
    ensures match SelectEdge(cfg, node, o, ctx) case None => true case Some(e) => e in cfg.edges && e.from == node
  {
    SelectEdgeMeans(cfg, node, o, ctx);
  }

  // ---------------------------------------------------------------------
  // All steps
  // ---------------------------------------------------------------------

  lemma TopKeeps(cfg: Config, w: World, input: Input)
    requires Valid(cfg) && Inv(cfg, w) && w.proc.Top?
    ensures Inv(cfg, TopStep(cfg, w, w.proc.m, input))
  {
    hide Base, Budgeted, LogOk, CheckpointOk, ReadyOk, AtNode, AtExit, Valid;
    var m := w.proc.m;
    if IsExit(cfg, m.node) {
      AtExitKeeps(cfg, m, w.log, input.met);
    } else {
      AtNodeKeeps(cfg, m, w.log);
      SavedOk(cfg, m, w.log);
    }
  }

  lemma RunningKeeps(cfg: Config, w: World, input: Input)
    requires Inv(cfg, w) && w.proc.Running?
    ensures Inv(cfg, RunningStep(cfg, w, w.proc.m, input))
  {
    hide Base, Budgeted, LogOk, CheckpointOk, Retried, Exited, Recorded;
    match input.reply
    case Erred(_) =>
    case Returned(o) =>
      if More(cfg, w.proc.m) { RetriedKeeps(cfg, w, o, input.written); }
      ExitedKeeps(cfg, w, o, input.written);
      RecordedKeeps(cfg, w, o, input.written);
  }

  lemma StartKeeps(cfg: Config, w: World)
    requires Valid(cfg) && Inv(cfg, w) && !w.proc.Completed?
    ensures Inv(cfg, Started(cfg, w))
  {
    hide Sound, LogOk, ReadyOk, NoReserved;
    if w.disk.None? && NoReserved(cfg.input) { FreshSound(cfg); }
  }

  lemma StepKeeps(cfg: Config, w: World, act: Label)
    requires Valid(cfg) && Inv(cfg, w)
    ensures Inv(cfg, Step(cfg, w, act))
  {
    hide Sound, LogOk, CheckpointOk, TopStep, ReadyStep, RunningStep, Started, Valid;
    match act
    case Start => if !w.proc.Completed? { StartKeeps(cfg, w); }
    case Crash =>
    case Tick(input) =>
      if w.proc.Top? { TopKeeps(cfg, w, input); }
      if w.proc.Ready? { ReadyKeeps(cfg, w, input); }
      if w.proc.Running? { RunningKeeps(cfg, w, input); }
  }

  lemma {:induction false} RunKeeps(cfg: Config, acts: seq<Label>)
    requires Valid(cfg)
    ensures Inv(cfg, Run(cfg, EMPTY, acts))
    decreases |acts|
  {
    hide Inv, Step, Valid;
    if acts == [] {
      EmptyInv(cfg);
    } else {
      RunKeeps(cfg, acts[..|acts| - 1]);
      StepKeeps(cfg, Run(cfg, EMPTY, acts[..|acts| - 1]), acts[|acts| - 1]);
    }
  }

  lemma EmptyInv(cfg: Config)
    ensures Inv(cfg, EMPTY)
  {
  }
}
