/** What whole runs of the execution loop guarantee. */
module EngineRuns {
  import opened Wrappers
  import opened EngineGraph
  import opened Engine
  import opened EngineSafety

  // ---------------------------------------------------------------------
  // Bounds that survive crashes
  // ---------------------------------------------------------------------

  /** MAIN RESULT. Over any history of crashes, stops, failures and resumes of
      one Run, the attempts begun never exceed `max_steps`, and the checkpoint
      knows their number. The attempts since an edge was last taken are all at
      one node, and never more than its `max_attempts` unless its handler
      resumes what was interrupted. Each quality node is visited from each
      upstream node, the one whose edge was taken last, at most
      `max_fix_iterations` times, until a saved `reset_quality_loop_state`
      edge; and the checkpoint's loop counters are exactly these visits. */
  lemma AttemptBoundsSurviveCrashes(cfg: Config, acts: seq<Label>)
    requires Valid(cfg)
    ensures var w := Run(cfg, EMPTY, acts);
      && Begun(w.log) <= cfg.maxSteps
      && (w.disk.Some? ==> w.disk.value.stepCount == w.disk.value.totalHandlerAttempts == Begun(w.log))
      && (VisitLog(w.log) != [] ==>
            var node := VisitLog(w.log)[0];
            SameVisit(VisitLog(w.log), node) && (!Resumes(cfg, node) ==> |VisitLog(w.log)| <= MaxAttempts(cfg, node)))
    ensures forall n, u | IsQuality(cfg, n) :: Visits(Run(cfg, EMPTY, acts).log, n, u) <= cfg.maxFix(n)
    ensures Run(cfg, EMPTY, acts).disk.Some? ==>
              forall key :: Count(Run(cfg, EMPTY, acts).disk.value.qualityLoopCounters, key)
                         == KeyVisits(cfg, Run(cfg, EMPTY, acts).log, key)
  {
    hide Run, Visits, VisitLog, Begun, ProcOk, Keyed, Linked, WalkOf, Tried, Gated, Derived, Count, KeyVisits, Afforded, Contextual,
         Valid;
    RunKeeps(cfg, acts);
  }

  /** MAIN RESULT. In every state and checkpoint, whatever the history, the
      upstream node is the one whose edge was taken last; each context key
      holds what the node last left among those that set it wrote, or what the
      Run began with; and each quality node's footprint is that of its last
      failure since a reset. A completed Run's context has the last node's
      updates on top. */
  lemma StateComesFromEdges(cfg: Config, acts: seq<Label>)
    requires Valid(cfg)
    ensures var w := Run(cfg, EMPTY, acts);
      && (Live(w.proc) || w.proc.Stopped? ==>
            Derived(cfg, w.proc.m.prev, w.proc.m.ctx, w.proc.m.footprint, w.log))
      && (w.disk.Some? ==>
            Derived(cfg, w.disk.value.previousNode, w.disk.value.contextSnapshot, w.disk.value.qualityLastFootprint, w.log))
    ensures var w := Run(cfg, EMPTY, acts);
      w.proc.Completed? && w.proc.m.node in w.proc.m.outcomes ==>
        forall key :: Lookup(w.proc.m.ctx, key) == FinalContextAt(cfg, w.proc.m.outcomes[w.proc.m.node], w.log, key)
  {
    hide Run, Counted, Keyed, Linked, WalkOf, Tried, Gated, Derived, Budgeted, Owing, Afforded, ContextAt, LogOk, Valid, NoReserved,
         Chained;
    RunKeeps(cfg, acts);
    var w := Run(cfg, EMPTY, acts);
    if w.disk.Some? { SavedContext(cfg, w.disk.value, w.log); }
  }

  lemma SavedContext(cfg: Config, cp: Checkpoint, log: seq<Event>)
    requires CheckpointOk(cfg, cp, log)
    ensures Derived(cfg, cp.previousNode, cp.contextSnapshot, cp.qualityLastFootprint, log)
  {
    hide Counted, Keyed, Linked, WalkOf, Tried, Gated, Derived, Budgeted, Afforded;
  }

  /** MAIN RESULT. A process gives up on a quality node at the loop head if and
      only if it was visited `max_fix_iterations` times since the last reset,
      under the key of this node and the node left last. */
  lemma QualityExhaustedExactly(cfg: Config, acts: seq<Label>, input: Input)
    requires Valid(cfg) && Run(cfg, EMPTY, acts).proc.Top?
    ensures var w := Run(cfg, EMPTY, acts); var m := w.proc.m;
      TickStep(cfg, w, input).proc == Failed(QualityExhausted)
      <==> (m.cost <= cfg.maxBudget && !input.stop && IsQuality(cfg, m.node)
            && KeyVisits(cfg, w.log, LoopKey(m.node, From(w.log))) + 1 > cfg.maxFix(m.node))
  {
    hide Run, Counted, Keyed, Linked, WalkOf, Tried, Gated, Afforded, Contextual, LogOk, DiskOk, LoopKey, KeyVisits, Save, Failing,
         RetryTarget;
    RunKeeps(cfg, acts);
    var w := Run(cfg, EMPTY, acts);
    var m := w.proc.m;
    assert Upstream(m) == From(w.log);
    assert Count(m.quality, LoopKey(m.node, Upstream(m))) == KeyVisits(cfg, w.log, LoopKey(m.node, Upstream(m)));
  }

  // ---------------------------------------------------------------------
  // Walks and gates
  // ---------------------------------------------------------------------

  /** A process that has the pipeline's state in hand, or ended with it. */
  predicate Holds(p: Proc) { p.Top? || p.Ready? || p.Running? || p.Stopped? || p.Completed? }

  /** In the middle of the loop: the nodes completed are those walked, each
      with the outcome it was last left with, and the walk may go on to `node`. */
  ghost predicate OnWalk(cfg: Config, walk: Walk, completed: seq<string>, outcomes: map<string, Outcome>, node: string) {
    Keyed(outcomes, completed, walk.trail) && Chained(cfg, walk) && Linked(cfg, walk, node)
  }

  /** MAIN RESULT. In every state of every process, and in every checkpoint,
      the completed nodes are a walk: it starts at the start node or at the
      target of the last `loop_restart` edge, and each node follows along an
      edge, or along an edge into an exit and back to the retry target of a
      goal gate that had failed when it was last left. Outcomes are kept for
      exactly these nodes. An exit's handler runs only when every goal gate on
      the walk succeeded, at least partly. */
  lemma WalkAndGateSafety(cfg: Config, acts: seq<Label>)
    requires Valid(cfg)
    ensures var w := Run(cfg, EMPTY, acts); var walk := WalkOf(cfg, w.log);
      && (Live(w.proc) || w.proc.Stopped? ==>
            OnWalk(cfg, walk, w.proc.m.completed, w.proc.m.outcomes, w.proc.m.node))
      && (w.disk.Some? ==>
            var cp := w.disk.value; OnWalk(cfg, walk, cp.completedNodes, cp.nodeOutcomes, cp.currentNode))
      && (w.proc.Completed? ==>
            var m := w.proc.m;
            && m.node in m.outcomes
            && Keyed(m.outcomes, m.completed, FinalWalk(cfg, m, w.log).trail) && Chained(cfg, FinalWalk(cfg, m, w.log)))
      && (w.proc.Running? && IsExit(cfg, w.proc.m.node) ==> forall g :: !FailedGate(cfg, walk.trail, g))
  {
    hide Run, WalkOf, Keyed, Linked, Counted, Tried, Derived, Budgeted, Afforded, Contextual, Chained, Begun, Visits, VisitLog, Valid;
    RunKeeps(cfg, acts);
    var w := Run(cfg, EMPTY, acts);
    if w.proc.Running? && IsExit(cfg, w.proc.m.node) { GatesSatisfied(cfg, w.proc.m, WalkOf(cfg, w.log).trail); }
  }

  lemma GatesSatisfied(cfg: Config, m: Mem, trail: seq<Stage>)
    requires Keyed(m.outcomes, m.completed, trail) && Failing(cfg, m.outcomes) == {}
    ensures forall g :: !FailedGate(cfg, trail, g)
  {
    forall g ensures !FailedGate(cfg, trail, g) {
      LeftIsNode(trail, g);
      assert g !in Failing(cfg, m.outcomes);
    }
  }

  lemma {:induction false} LeftIsNode(trail: seq<Stage>, n: string)
    ensures LastOutcome(trail, n).Some? <==> n in Nodes(trail)
    decreases |trail|
  {
    if trail != [] { LeftIsNode(trail[..|trail| - 1], n); }
  }

  // ---------------------------------------------------------------------
  // Cost
  // ---------------------------------------------------------------------

  /** MAIN RESULT. No attempt runs above budget, so the total exceeds it by no
      more than the one cost reported last. */
  lemma OvershootIsOneAttempt(cfg: Config, acts: seq<Label>)
    requires Valid(cfg)
    ensures var w := Run(cfg, EMPTY, acts);
      && (w.proc.Running? ==> w.proc.m.cost <= cfg.maxBudget)
      && (Holds(w.proc) ==> Afforded(cfg, w.proc.m.cost, w.log))
      && (w.disk.Some? ==> Afforded(cfg, w.disk.value.totalCost, w.log))
  {
    hide Run, Keyed, Linked, WalkOf, Counted, Tried, Gated, Derived, Budgeted, Afforded, Contextual, LogOk, Valid;
    RunKeeps(cfg, acts);
  }

  predicate NonNegative(log: seq<Event>) { forall e | e in log && e.Reported? && e.o.cost.Some? :: e.o.cost.value >= 0.0 }

  /** Nothing is booked twice: what a process or a checkpoint has booked was
      reported, as long as no cost is negative. */
  ghost predicate Covered(w: World) {
    NonNegative(w.log) ==>
      && (Holds(w.proc) ==> w.proc.m.cost <= TotalCost(w.log))
      && (w.disk.Some? ==> w.disk.value.totalCost <= TotalCost(w.log))
  }

  /** Everything reported so far is booked, but for the last report when it is
      that of the exit that ended the Run. */
  predicate Booked(cfg: Config, w: World) {
    Holds(w.proc) ==>
      w.proc.m.cost == TotalCost(w.log) - if w.proc.Completed? && IsExit(cfg, w.proc.m.node) then LastCost(w.log) else 0.0
  }

  lemma TotalSnoc(log: seq<Event>, e: Event)
    ensures TotalCost(log + [e]) == TotalCost(log) + if e.Reported? then CostOf(e.o) else 0.0
    ensures LastCost(log + [e]) == if e.Reported? then CostOf(e.o) else LastCost(log)
  {
    assert (log + [e])[..|log|] == log;
  }

  lemma NonNegativeSnoc(log: seq<Event>, e: Event)
    ensures NonNegative(log + [e]) <==> NonNegative(log) && (e.Reported? ==> CostOf(e.o) >= 0.0)
  {
    if NonNegative(log + [e]) {
      assert forall x | x in log :: x in log + [e];
      assert e in log + [e];
    }
  }

  lemma ReadyCost(cfg: Config, w: World, input: Input)
    requires w.proc.Ready?
    ensures var w' := ReadyStep(cfg, w, w.proc.m, w.proc.first, input);
      (Booked(cfg, w) ==> Booked(cfg, w')) && (Covered(w) ==> Covered(w'))
  {
    hide TotalCost, LastCost, NonNegative;
    var e := Began(w.proc.m.node, w.proc.first);
    TotalSnoc(w.log, e);
    NonNegativeSnoc(w.log, e);
  }

  lemma ExitedCost(cfg: Config, w: World, o: Outcome, written: bool)
    requires w.proc.Running? && IsExit(cfg, w.proc.m.node)
    ensures var w' := Exited(cfg, w.(log := w.log + [Reported(o)]), w.proc.m, o, written);
      (Booked(cfg, w) ==> Booked(cfg, w')) && (Covered(w) ==> Covered(w'))
  {
    hide TotalCost, LastCost, NonNegative, NoReserved;
    TotalSnoc(w.log, Reported(o));
    NonNegativeSnoc(w.log, Reported(o));
  }

  lemma RetriedCost(cfg: Config, w: World, o: Outcome, written: bool)
    requires w.proc.Running?
    ensures var w' := Retried(cfg, w, w.proc.m, o, written);
      (Booked(cfg, w) ==> Booked(cfg, w')) && (Covered(w) ==> Covered(w'))
  {
    hide TotalCost, LastCost, NonNegative;
    TotalSnoc(w.log, Reported(o));
    NonNegativeSnoc(w.log, Reported(o));
  }

  lemma RecordedCost(cfg: Config, w: World, o: Outcome, written: bool)
    requires w.proc.Running? && !IsExit(cfg, w.proc.m.node)
    ensures var w' := Recorded(cfg, w.(log := w.log + [Reported(o)]), w.proc.m, o, written);
      (Booked(cfg, w) ==> Booked(cfg, w')) && (Covered(w) ==> Covered(w'))
  {
    hide TotalCost, LastCost, NonNegative, NoReserved, SelectEdge;
    var told := w.log + [Reported(o)];
    TotalSnoc(w.log, Reported(o));
    NonNegativeSnoc(w.log, Reported(o));
    forall e: Event | e.Moved?
      ensures TotalCost(told + [e]) == TotalCost(told) && (NonNegative(told + [e]) <==> NonNegative(told))
    {
      TotalSnoc(told, e);
      NonNegativeSnoc(told, e);
    }
  }

  lemma TickCost(cfg: Config, w: World, input: Input)
    ensures (Booked(cfg, w) ==> Booked(cfg, TickStep(cfg, w, input))) && (Covered(w) ==> Covered(TickStep(cfg, w, input)))
  {
    hide TotalCost, LastCost, NonNegative, Recorded, Exited, Retried, ReadyStep, NoReserved;
    if w.proc.Ready? { ReadyCost(cfg, w, input); }
    if w.proc.Running? && input.reply.Returned? {
      var o := input.reply.o;
      RetriedCost(cfg, w, o, input.written);
      if IsExit(cfg, w.proc.m.node) {
        ExitedCost(cfg, w, o, input.written);
      } else {
        RecordedCost(cfg, w, o, input.written);
      }
    }
  }

  /** MAIN RESULT. Whatever the history, a total never exceeds the sum of the
      costs reported, if none is negative. */
  lemma {:induction false} CostIsReported(cfg: Config, acts: seq<Label>)
    ensures Covered(Run(cfg, EMPTY, acts))
    decreases |acts|
  {
    hide TickStep, TotalCost, LastCost, NonNegative, NoReserved;
    if acts != [] {
      var w := Run(cfg, EMPTY, acts[..|acts| - 1]);
      CostIsReported(cfg, acts[..|acts| - 1]);
      match acts[|acts| - 1]
      case Tick(input) => TickCost(cfg, w, input);
      case Start => StartCost(cfg, w);
      case Crash =>
    } else {
      NothingBooked();
    }
  }

  lemma StartCost(cfg: Config, w: World)
    requires Covered(w)
    ensures Covered(Started(cfg, w))
  {
    hide NoReserved;
    if NonNegative(w.log) { TotalNonNegative(w.log); }
  }

  lemma NothingBooked()
    ensures TotalCost([]) == 0.0
  {
  }

  lemma {:induction false} TotalNonNegative(log: seq<Event>)
    requires NonNegative(log)
    ensures TotalCost(log) >= 0.0
    decreases |log|
  {
    if log != [] {
      assert log[|log| - 1] in log;
      TotalNonNegative(log[..|log| - 1]);
    }
  }

  /** MAIN RESULT. Without interruption the total is exactly the sum of what
      every returned attempt reported, the exit's last one aside. */
  lemma {:induction false} CostIsConserved(cfg: Config, inputs: seq<Input>)
    ensures Booked(cfg, Ticks(cfg, Step(cfg, EMPTY, Start), inputs))
    decreases |inputs|
  {
    hide TickStep, TotalCost, LastCost, NoReserved;
    if inputs == [] {
      NothingBooked();
    } else {
      CostIsConserved(cfg, inputs[..|inputs| - 1]);
      TickCost(cfg, Ticks(cfg, Step(cfg, EMPTY, Start), inputs[..|inputs| - 1]), inputs[|inputs| - 1]);
    }
  }

  /** Steps of one process. */
  function Ticks(cfg: Config, w: World, inputs: seq<Input>): World
    decreases |inputs|
  {
    if inputs == [] then w else TickStep(cfg, Ticks(cfg, w, inputs[..|inputs| - 1]), inputs[|inputs| - 1])
  }

  // ---------------------------------------------------------------------
  // Termination
  // ---------------------------------------------------------------------

  predicate Live(p: Proc) { p.Top? || p.Ready? || p.Running? }

  /** Steps left, then how far the current visit is. */
  function Measure(cfg: Config, p: Proc): int {
    match p
    case Top(m) => 4 * (cfg.maxSteps - m.steps) + if IsExit(cfg, m.node) then 3 else 2
    case Ready(m, _) => 4 * (cfg.maxSteps - m.steps) + 1
    case Running(m) => 4 * (cfg.maxSteps - m.steps) + 4
    case _ => 0
  }

  ghost predicate StepsOk(cfg: Config, p: Proc) { Live(p) ==> p.m.steps <= cfg.maxSteps }

  lemma InvSteps(cfg: Config, w: World)
    requires Inv(cfg, w)
    ensures StepsOk(cfg, w.proc)
  {
    hide Keyed, Linked, WalkOf, Tried, Gated, Derived, Budgeted, Afforded, Contextual, LogOk, DiskOk, Begun;
  }

  /** Every step of a live process uses something up: at a gate that fails it
      leaves the exit, elsewhere it stops, fails or begins an attempt. */
  lemma TickDecreases(cfg: Config, w: World, input: Input)
    requires Valid(cfg) && Live(w.proc) && w.proc.m.steps <= cfg.maxSteps
    ensures var p := TickStep(cfg, w, input).proc; StepsOk(cfg, p) && 0 <= Measure(cfg, p) < Measure(cfg, w.proc)
  {
    hide NoReserved, SelectEdge, Save, Failing, RetryTarget;
    if w.proc.Top? && IsExit(cfg, w.proc.m.node) {
      AtExitDecreases(cfg, w.proc.m, input.met);
    }
  }

  lemma AtExitDecreases(cfg: Config, m: Mem, met: string)
    requires Valid(cfg) && IsExit(cfg, m.node)
    ensures var p := AtExit(cfg, m, met);
      p.Failed? || (p.Ready? && p.m.steps == m.steps) || (p.Top? && p.m.steps == m.steps && !IsExit(cfg, p.m.node))
  {
    hide NoReserved, RetryTarget;
    var failing := Failing(cfg, m.outcomes);
    if failing != {} {
      PickedIsNode(cfg, m.outcomes, Picked(failing, met));
      RetryTargetIs(cfg, Picked(failing, met));
    }
  }

  lemma {:induction false} TicksDecrease(cfg: Config, w: World, inputs: seq<Input>)
    requires Valid(cfg) && StepsOk(cfg, w.proc)
    ensures var p := Ticks(cfg, w, inputs).proc;
      StepsOk(cfg, p) && (Live(p) ==> Live(w.proc) && Measure(cfg, p) + |inputs| <= Measure(cfg, w.proc))
    decreases |inputs|
  {
    hide TickStep, Valid, Measure;
    if inputs != [] {
      var before := Ticks(cfg, w, inputs[..|inputs| - 1]);
      TicksDecrease(cfg, w, inputs[..|inputs| - 1]);
      if Live(before.proc) {
        TickDecreases(cfg, before, inputs[|inputs| - 1]);
      } else {
        EndedStays(cfg, before, inputs[|inputs| - 1]);
      }
    }
  }

  lemma EndedStays(cfg: Config, w: World, input: Input)
    requires !Live(w.proc)
    ensures TickStep(cfg, w, input) == w
  {
  }

  /** MAIN RESULT. Whatever the handlers reply, a process ends by itself: from
      any reachable state within 4 * max_steps + 5 steps of the loop. */
  lemma EveryRunHalts(cfg: Config, acts: seq<Label>, inputs: seq<Input>)
    requires Valid(cfg) && |inputs| > 4 * cfg.maxSteps + 4
    ensures !Live(Ticks(cfg, Run(cfg, EMPTY, acts), inputs).proc)
  {
    hide Inv, Run, Valid, Ticks;
    RunKeeps(cfg, acts);
    var w := Run(cfg, EMPTY, acts);
    InvSteps(cfg, w);
    TicksDecrease(cfg, w, inputs);
    MeasureRange(cfg, w.proc);
    MeasureRange(cfg, Ticks(cfg, w, inputs).proc);
  }

  lemma MeasureRange(cfg: Config, p: Proc)
    requires StepsOk(cfg, p)
    ensures 0 <= Measure(cfg, p) <= 4 * cfg.maxSteps + 4
  {
  }

  // ---------------------------------------------------------------------
  // Stage boundaries are transparent
  // ---------------------------------------------------------------------

  /** Handlers, and the order of the gates, as functions of the state. */
  datatype Env = Env(handle: Mem -> Reply, met: map<string, Outcome> -> string)

  function Go(cfg: Config, env: Env, w: World): World {
    match w.proc
    case Top(m) => TickStep(cfg, w, Input(false, env.met(m.outcomes), Erred(false), true))
    case Ready(m, _) => TickStep(cfg, w, Input(false, "", Erred(false), true))
    case Running(m) => TickStep(cfg, w, Input(false, "", env.handle(m), true))
    case _ => w
  }

  /** A stop request between stages, and a resume. */
  function StopAndResume(cfg: Config, w: World): World
    requires w.proc.Top?
  {
    Step(cfg, Step(cfg, w, Tick(Input(true, "", Erred(false), true))), Start)
  }

  function CrashAndResume(cfg: Config, w: World): World { Step(cfg, Step(cfg, w, Crash), Start) }

  /** Where a stop is honoured. */
  predicate CanStop(cfg: Config, p: Proc) { p.Top? && !IsExit(cfg, p.m.node) && p.m.cost <= cfg.maxBudget }

  /** Where the checkpoint is that of the current loop head. */
  predicate AtSaved(cfg: Config, w: World) { w.proc.Top? && w.disk == Some(Save(cfg, w.proc.m)) }

  /** Where no checkpoint was written yet. */
  predicate AtFirst(cfg: Config, w: World) { w.proc == Top(Fresh(cfg)) && w.disk.None? }

  /** Where the checkpoint is that of the exit from which a failed gate sent
      the Run back here. */
  predicate AtSentBack(cfg: Config, env: Env, w: World) {
    && w.proc.Top? && w.disk.Some?
    && var x := Restore(cfg, w.disk.value);
      IsExit(cfg, x.node) && x.cost <= cfg.maxBudget && AtExit(cfg, x, env.met(x.outcomes)) == w.proc
  }

  predicate HeadOk(cfg: Config, env: Env, w: World) {
    w.proc.Top? ==> AtSaved(cfg, w) || AtFirst(cfg, w) || AtSentBack(cfg, env, w)
  }

  /** A crash, a resume, and the way back to where the process was: the head
      itself, or one step past the exit. */
  function CrashAndReturn(cfg: Config, env: Env, w: World): World {
    var resumed := CrashAndResume(cfg, w);
    if resumed.proc == w.proc then resumed else Go(cfg, env, resumed)
  }

  datatype Piece = OneStep | Stop | Kill

  /** A run with cuts at some of its stage boundaries. */
  function CutRun(cfg: Config, env: Env, w: World, pieces: seq<Piece>): World
    decreases |pieces|
  {
    if pieces == [] then w
    else
      var before := CutRun(cfg, env, w, pieces[..|pieces| - 1]);
      match pieces[|pieces| - 1]
      case OneStep => Go(cfg, env, before)
      case Stop => if CanStop(cfg, before.proc) then StopAndResume(cfg, before) else before
      case Kill => if before.proc.Top? then CrashAndReturn(cfg, env, before) else before
  }

  function UncutRun(cfg: Config, env: Env, w: World, n: nat): World {
    if n == 0 then w else Go(cfg, env, UncutRun(cfg, env, w, n - 1))
  }

  function Length(pieces: seq<Piece>): nat
    decreases |pieces|
  {
    if pieces == [] then 0
    else Length(pieces[..|pieces| - 1]) + if pieces[|pieces| - 1].OneStep? then 1 else 0
  }

  /** A stop checkpoint restores exactly the loop head it was saved from. */
  lemma StopIsTransparent(cfg: Config, w: World)
    requires Valid(cfg) && Inv(cfg, w) && CanStop(cfg, w.proc)
    ensures StopAndResume(cfg, w).proc == w.proc && StopAndResume(cfg, w).log == w.log
  {
    hide Counted, Keyed, Linked, WalkOf, Tried, Gated, Derived, Budgeted, Afforded, LogOk, DiskOk;
    RestoreSave(cfg, w.proc.m);
    InputClean(cfg, w.proc.m.ctx);
  }

  /** So does an edge checkpoint after a crash. */
  lemma CrashIsTransparent(cfg: Config, w: World)
    requires Valid(cfg) && Inv(cfg, w) && AtSaved(cfg, w)
    ensures CrashAndResume(cfg, w).proc == w.proc && CrashAndResume(cfg, w).log == w.log
  {
    hide Counted, Keyed, Linked, WalkOf, Tried, Gated, Derived, Budgeted, Afforded, LogOk, DiskOk;
    RestoreSave(cfg, w.proc.m);
    InputClean(cfg, w.proc.m.ctx);
  }

  /** So does a crash where no checkpoint says the head itself: the resumed
      process begins again, or passes the exit and is sent back again. */
  lemma CrashReturns(cfg: Config, env: Env, w: World)
    requires Valid(cfg) && Inv(cfg, w) && w.proc.Top? && HeadOk(cfg, env, w)
    ensures var back := CrashAndReturn(cfg, env, w);
      back.proc == w.proc && back.log == w.log && HeadOk(cfg, env, back)
  {
    hide Counted, Keyed, Linked, WalkOf, Tried, Gated, Derived, Budgeted, Afforded, LogOk, AtExit, Fresh, Restore, Save;
    InputClean(cfg, w.proc.m.ctx);
    if AtSaved(cfg, w) { CrashIsTransparent(cfg, w); }
    if w.disk.Some? { OwnCheckpoint(cfg, w.disk.value, w.log); }
    DiskStays(cfg, w);
  }

  lemma OwnCheckpoint(cfg: Config, cp: Checkpoint, log: seq<Event>)
    requires CheckpointOk(cfg, cp, log)
    ensures Compatible(cfg, cp) && cp.currentNode in cfg.nodes
  {
    hide Counted, Keyed, Linked, WalkOf, Tried, Gated, Derived, Budgeted, Afforded;
    RestoreSave(cfg, Restore(cfg, cp));
  }

  lemma DiskStays(cfg: Config, w: World)
    requires !w.proc.Completed?
    ensures CrashAndResume(cfg, w).disk == w.disk && CrashAndResume(cfg, w).log == w.log
  {
  }

  /** Every loop head of a process is one of these places. */
  lemma GoKeepsHead(cfg: Config, env: Env, w: World)
    requires Valid(cfg) && Inv(cfg, w) && HeadOk(cfg, env, w)
    ensures HeadOk(cfg, env, Go(cfg, env, w))
  {
    hide Inv, Save, Restore, AtExit, AtNode, NoReserved, SelectEdge, Record, Follow, Fresh;
    if w.proc.Running? && Go(cfg, env, w).proc.Top? { EdgesAreSaved(cfg, env, w); }
    if w.proc.Top? {
      HeadOrBack(cfg, env, w);
    }
  }

  lemma HeadOrBack(cfg: Config, env: Env, w: World)
    requires Valid(cfg) && Inv(cfg, w) && HeadOk(cfg, env, w) && w.proc.Top?
    ensures HeadOk(cfg, env, Go(cfg, env, w))
  {
    hide Counted, Keyed, Linked, WalkOf, Tried, Gated, Derived, Budgeted, Afforded, LogOk, DiskOk, AtExit, LoopKey;
    var m := w.proc.m;
    RestoreSave(cfg, m);
    if AtSentBack(cfg, env, w) {
      var x := Restore(cfg, w.disk.value);
      AtExitDecreases(cfg, x, env.met(x.outcomes));
    }
    if IsExit(cfg, m.node) { AtExitDecreases(cfg, m, env.met(m.outcomes)); }
    NothingFailsYet(cfg, env.met(map[]));
  }

  lemma NothingFailsYet(cfg: Config, met: string)
    ensures !AtExit(cfg, Fresh(cfg), met).Top?
  {
  }

  lemma StartHead(cfg: Config, env: Env, w: World)
    requires Inv(cfg, w) && !w.proc.Completed?
    ensures HeadOk(cfg, env, Started(cfg, w))
  {
    hide Sound, LogOk;
  }

  /** After a crash in the middle of an attempt the new process stands at the
      loop head of that visit, with all of memory as it was before the attempt,
      but for the attempt's own count: kept, unless the handler resumes what
      was interrupted. What comes of that is in `EngineCrashes`. */
  lemma CrashMidAttempt(cfg: Config, acts: seq<Label>)
    requires Valid(cfg) && Run(cfg, EMPTY, acts).proc.Running?
    ensures var w := Run(cfg, EMPTY, acts);
      CrashAndResume(cfg, w) == w.(proc := Top(Interrupted(cfg, w.proc.m)))
  {
    hide Run, Counted, Keyed, Linked, WalkOf, Tried, Gated, Derived, Budgeted, Afforded, LogOk, DiskOk, Valid;
    RunKeeps(cfg, acts);
    var w := Run(cfg, EMPTY, acts);
    RestoreSave(cfg, Interrupted(cfg, w.proc.m));
    InputClean(cfg, w.proc.m.ctx);
  }

  /** Every edge taken leaves the checkpoint of the new loop head. */
  lemma EdgesAreSaved(cfg: Config, env: Env, w: World)
    requires w.proc.Running? && Go(cfg, env, w).proc.Top?
    ensures AtSaved(cfg, Go(cfg, env, w))
  {
    hide NoReserved, SelectEdge, Save, Record, Follow;
  }

  /** A step does not look at the checkpoint. */
  lemma GoIgnoresDisk(cfg: Config, env: Env, a: World, b: World)
    requires a.proc == b.proc && a.log == b.log
    ensures Go(cfg, env, a).proc == Go(cfg, env, b).proc && Go(cfg, env, a).log == Go(cfg, env, b).log
  {
    hide NoReserved, SelectEdge, Save, Record, Follow, AtExit, AtNode;
  }

  lemma GoKeeps(cfg: Config, env: Env, w: World)
    requires Valid(cfg) && Inv(cfg, w)
    ensures Inv(cfg, Go(cfg, env, w))
  {
    hide Inv, Valid, TickStep;
    match w.proc
    case Top(m) => StepKeeps(cfg, w, Tick(Input(false, env.met(m.outcomes), Erred(false), true)));
    case Ready(m, _) => StepKeeps(cfg, w, Tick(Input(false, "", Erred(false), true)));
    case Running(m) => StepKeeps(cfg, w, Tick(Input(false, "", env.handle(m), true)));
    case _ =>
  }

  lemma StopKeeps(cfg: Config, env: Env, w: World)
    requires Valid(cfg) && Inv(cfg, w) && CanStop(cfg, w.proc)
    ensures Inv(cfg, StopAndResume(cfg, w)) && HeadOk(cfg, env, StopAndResume(cfg, w))
    ensures StopAndResume(cfg, w).proc == w.proc && StopAndResume(cfg, w).log == w.log
  {
    hide Inv, Valid, TopStep, Started, HeadOk;
    var stop := Tick(Input(true, "", Erred(false), true));
    StepKeeps(cfg, w, stop);
    StepKeeps(cfg, Step(cfg, w, stop), Start);
    StopIsTransparent(cfg, w);
    StoppedOnDisk(cfg, w);
    StartHead(cfg, env, Step(cfg, w, stop));
  }

  lemma StoppedOnDisk(cfg: Config, w: World)
    requires CanStop(cfg, w.proc)
    ensures Step(cfg, w, Tick(Input(true, "", Erred(false), true))).proc == Stopped(w.proc.m)
    ensures StopAndResume(cfg, w) == Started(cfg, Step(cfg, w, Tick(Input(true, "", Erred(false), true))))
  {
    hide Started, Save;
  }

  lemma CrashKeeps(cfg: Config, env: Env, w: World)
    requires Valid(cfg) && Inv(cfg, w) && w.proc.Top? && HeadOk(cfg, env, w)
    ensures Inv(cfg, CrashAndReturn(cfg, env, w))
  {
    hide Inv, Valid, Step, Go, HeadOk;
    StepKeeps(cfg, w, Crash);
    StepKeeps(cfg, Step(cfg, w, Crash), Start);
    GoKeeps(cfg, env, CrashAndResume(cfg, w));
  }

  lemma {:induction false} CutsAgree(cfg: Config, env: Env, w: World, pieces: seq<Piece>)
    requires Valid(cfg) && Inv(cfg, w) && HeadOk(cfg, env, w)
    ensures var (cut, uncut) := (CutRun(cfg, env, w, pieces), UncutRun(cfg, env, w, Length(pieces)));
      Inv(cfg, cut) && HeadOk(cfg, env, cut) && cut.proc == uncut.proc && cut.log == uncut.log
    decreases |pieces|
  {
    hide Inv, Valid, Go, StopAndResume, CrashAndReturn, HeadOk;
    if pieces != [] {
      var front := pieces[..|pieces| - 1];
      var before := CutRun(cfg, env, w, front);
      CutsAgree(cfg, env, w, front);
      match pieces[|pieces| - 1] {
        case OneStep =>
          GoKeeps(cfg, env, before);
          GoKeepsHead(cfg, env, before);
          GoIgnoresDisk(cfg, env, before, UncutRun(cfg, env, w, Length(front)));
        case Stop =>
          if CanStop(cfg, before.proc) { StopKeeps(cfg, env, before); }
        case Kill =>
          if before.proc.Top? {
            CrashKeeps(cfg, env, before);
            CrashReturns(cfg, env, before);
          }
      }
    }
  }

  /** MAIN RESULT. For handlers that are functions of the state: take any
      process, started at any point of any history. Cut at any set of its loop
      heads, by a stop request or by a crash, and resumed each time, the Run
      goes through the same states and ends with the same completed nodes,
      outcomes, context, cost and attempts as uncut. */
  lemma StageBoundariesAreTransparent(cfg: Config, env: Env, acts: seq<Label>, pieces: seq<Piece>)
    requires Valid(cfg) && !Run(cfg, EMPTY, acts).proc.Completed?
    ensures var w := Started(cfg, Run(cfg, EMPTY, acts));
      var (cut, uncut) := (CutRun(cfg, env, w, pieces), UncutRun(cfg, env, w, Length(pieces)));
      cut.proc == uncut.proc && cut.log == uncut.log
  {
    hide Inv, Valid, Run, CutRun, UncutRun, HeadOk, Started;
    RunKeeps(cfg, acts);
    StartKeeps(cfg, Run(cfg, EMPTY, acts));
    StartHead(cfg, env, Run(cfg, EMPTY, acts));
    CutsAgree(cfg, env, Started(cfg, Run(cfg, EMPTY, acts)), pieces);
  }
}
