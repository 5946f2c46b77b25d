/** The execution loop (crates/attractor-pipeline/src/engine.rs:478-606 and
    765-1171) as a state machine: one process that may die at any moment, one
    checkpoint file replaced atomically, and handlers whose replies come from
    outside. Each step writes the checkpoint at most once. */
module Engine {
  import opened Wrappers
  import opened EngineGraph

  const SCHEMA: nat := 3

  /** Everything the loop holds in memory. `tries` are the attempts begun in
      this visit of the `active` node. */
  datatype Mem = Mem(
    node: string, completed: seq<string>, outcomes: map<string, Outcome>, ctx: Context, steps: nat, cost: real,
    attempts: nat, active: Option<string>, tries: nat, quality: map<string, nat>, footprint: map<string, string>,
    prev: Option<string>)

  // ---------------------------------------------------------------------
  // Checkpoints
  // ---------------------------------------------------------------------

  datatype Checkpoint = Checkpoint(
    currentNode: string, completedNodes: seq<string>, nodeOutcomes: map<string, Outcome>, contextSnapshot: Context,
    stepCount: nat, totalCost: real, schemaVersion: nat, qualityLoopCounters: map<string, nat>,
    qualityLastFootprint: map<string, string>, previousNode: Option<string>, totalHandlerAttempts: nat,
    activeNode: Option<string>, activeNodeAttempts: nat, executionFingerprint: Option<string>)

  function Save(cfg: Config, m: Mem): Checkpoint {
    Checkpoint(m.node, m.completed, m.outcomes, m.ctx, m.steps, m.cost, SCHEMA, m.quality, m.footprint, m.prev,
               m.attempts, m.active, m.tries, Some(cfg.fingerprint))
  }

  /** The context a process starts from. */
  function InitialContext(cfg: Config): Context { cfg.input + cfg.defaults }

  function Unreserved(ctx: Context): Context { map k | k in ctx && !IsReserved(k) :: ctx[k] }

  function Restore(cfg: Config, cp: Checkpoint): Mem {
    Mem(cp.currentNode, cp.completedNodes, cp.nodeOutcomes, InitialContext(cfg) + Unreserved(cp.contextSnapshot),
        cp.stepCount, cp.totalCost, cp.totalHandlerAttempts, cp.activeNode, cp.activeNodeAttempts,
        cp.qualityLoopCounters, cp.qualityLastFootprint, cp.previousNode)
  }

  function Fresh(cfg: Config): Mem {
    Mem(cfg.start, [], map[], InitialContext(cfg), 0, 0.0, 0, None, 0, map[], map[], None)
  }

  /** `validate_checkpoint`: not newer than this build, and of this pipeline. */
  predicate Compatible(cfg: Config, cp: Checkpoint) {
    cp.schemaVersion <= SCHEMA && (cp.executionFingerprint.Some? ==> cp.executionFingerprint.value == cfg.fingerprint)
  }

  // ---------------------------------------------------------------------
  // Processes
  // ---------------------------------------------------------------------

  datatype Failure =
    | MaxSteps | Budget | RetriesExhausted | QualityExhausted | GateUnsatisfied(gate: string) | NodeNotFound(node: string)
    | HandlerFailed | HandlerError | ReservedKeys | SaveFailed | Incompatible | ReservedInput

  /** `Ready`: in `invoke_node`, about to begin an attempt, the `first` since
      the loop came to this node. `Running`: the handler has the attempt. */
  datatype Proc =
    | Down
    | Top(m: Mem)
    | Ready(m: Mem, first: bool)
    | Running(m: Mem)
    | Stopped(m: Mem)
    | Completed(m: Mem)
    | Failed(why: Failure)

  datatype Reply = Returned(o: Outcome) | Erred(retryable: bool)

  /** What one step gets from outside: is a stop requested, which failing gate
      comes first, what does the handler reply, does the write succeed. */
  datatype Input = Input(stop: bool, met: string, reply: Reply, written: bool)

  /** What has happened to the Run, on whatever process: attempts begun,
      outcomes returned, and nodes left by a saved edge. */
  datatype Event =
    | Began(node: string, first: bool)
    | Reported(o: Outcome)
    | Moved(node: string, o: Outcome, to: string, reset: bool, restart: bool)

  datatype World = World(proc: Proc, disk: Option<Checkpoint>, log: seq<Event>)

  const EMPTY: World := World(Down, None, [])

  datatype Label = Start | Tick(input: Input) | Crash

  function Upstream(m: Mem): string { if m.prev.Some? then m.prev.value else "__start__" }

  function LoopKey(node: string, upstream: string): string { node + "::" + upstream }

  function Count(quality: map<string, nat>, key: string): nat { if key in quality then quality[key] else 0 }

  function MaxAttempts(cfg: Config, node: string): nat { if node in cfg.nodes then cfg.nodes[node].maxAttempts else 0 }

  predicate Resumes(cfg: Config, node: string) { node in cfg.nodes && cfg.nodes[node].resumes }

  // ---------------------------------------------------------------------
  // Steps of a live process
  // ---------------------------------------------------------------------

  /** The head of `invoke_node`. */
  function Visit(cfg: Config, m: Mem): Proc {
    var v := if m.active == Some(m.node) then m else m.(active := Some(m.node), tries := 0);
    if v.tries >= MaxAttempts(cfg, v.node) then Failed(RetriesExhausted) else Ready(v, true)
  }

  /** At an exit: a failing gate sends the Run back. */
  function AtExit(cfg: Config, m: Mem, met: string): Proc {
    var failing := Failing(cfg, m.outcomes);
    if failing == {} then Visit(cfg, m)
    else
      var gate := Picked(failing, met);
      match RetryTarget(cfg, gate)
      case None => Failed(GateUnsatisfied(gate))
      case Some(to) => if to in cfg.nodes then Top(m.(node := to)) else Failed(NodeNotFound(to))
  }

  /** Counting one more entry of a quality node. */
  function Entered(m: Mem): Mem {
    var key := LoopKey(m.node, Upstream(m));
    m.(quality := m.quality[key := Count(m.quality, key) + 1])
  }

  function AtNode(cfg: Config, m: Mem): Proc {
    if !IsQuality(cfg, m.node) then Visit(cfg, m)
    else if Count(m.quality, LoopKey(m.node, Upstream(m))) + 1 > cfg.maxFix(m.node) then Failed(QualityExhausted)
    else Visit(cfg, Entered(m))
  }

  function TopStep(cfg: Config, w: World, m: Mem, input: Input): World {
    if m.cost > cfg.maxBudget then w.(proc := Failed(Budget))
    else if IsExit(cfg, m.node) then w.(proc := AtExit(cfg, m, input.met))
    else if !input.stop then w.(proc := AtNode(cfg, m))
    else if input.written then w.(proc := Stopped(m), disk := Some(Save(cfg, m)))
    else w.(proc := Failed(SaveFailed))
  }

  /** The attempt is counted and saved before it begins. */
  function ReadyStep(cfg: Config, w: World, m: Mem, first: bool, input: Input): World {
    if m.steps >= cfg.maxSteps then w.(proc := Failed(MaxSteps))
    else if m.cost > cfg.maxBudget then w.(proc := Failed(Budget))
    else if !input.written then w.(proc := Failed(SaveFailed))
    else
      var begun := m.(steps := m.steps + 1, attempts := m.attempts + 1);
      var saved := if Resumes(cfg, m.node) then begun else begun.(tries := m.tries + 1);
      World(Running(begun.(tries := m.tries + 1)), Some(Save(cfg, saved)), w.log + [Began(m.node, first)])
  }

  function CostOf(o: Outcome): real { if o.cost.Some? then o.cost.value else 0.0 }

  predicate More(cfg: Config, m: Mem) { m.tries < MaxAttempts(cfg, m.node) }

  function RunningStep(cfg: Config, w: World, m: Mem, input: Input): World {
    match input.reply
    case Erred(retryable) => w.(proc := if retryable && More(cfg, m) then Ready(m, false) else Failed(HandlerError))
    case Returned(o) =>
      if o.status == Retry && More(cfg, m) then Retried(cfg, w, m, o, input.written)
      else if IsExit(cfg, m.node) then Exited(cfg, w.(log := w.log + [Reported(o)]), m, o, input.written)
      else Recorded(cfg, w.(log := w.log + [Reported(o)]), m, o, input.written)
  }

  /** Another attempt follows; a cost is booked and saved first. */
  function Retried(cfg: Config, w: World, m: Mem, o: Outcome, written: bool): World {
    var told := w.(log := w.log + [Reported(o)]);
    if o.cost.None? then told.(proc := Ready(m, false))
    else
      var paid := m.(cost := m.cost + o.cost.value);
      if written then told.(proc := Ready(paid, false), disk := Some(Save(cfg, paid))) else told.(proc := Failed(SaveFailed))
  }

  /** The exit's handler is done: its own cost is not booked. */
  function Exited(cfg: Config, w: World, m: Mem, o: Outcome, written: bool): World {
    if !NoReserved(o.updates) then w.(proc := Failed(ReservedKeys))
    else Finished(w, m.(ctx := m.ctx + o.updates, completed := m.completed + [m.node],
                        outcomes := m.outcomes[m.node := o]), written)
  }

  /** The checkpoint goes when the Run is complete. */
  function Finished(w: World, m: Mem, written: bool): World {
    if written then w.(proc := Completed(m.(active := None, tries := 0)), disk := None) else w.(proc := Failed(SaveFailed))
  }

  /** A node is done: its outcome, footprint and cost are recorded. */
  function Record(cfg: Config, m: Mem, o: Outcome): Mem {
    m.(completed := m.completed + [m.node], outcomes := m.outcomes[m.node := o], cost := m.cost + CostOf(o),
       footprint := if IsQuality(cfg, m.node) && o.status == Fail && o.footprint.Some? then
                      m.footprint[m.node := o.footprint.value]
                    else m.footprint)
  }

  function Recorded(cfg: Config, w: World, m: Mem, o: Outcome, written: bool): World {
    if !NoReserved(o.updates) then w.(proc := Failed(ReservedKeys))
    else
      var r := Record(cfg, m, o).(ctx := m.ctx + o.updates);
      Departed(cfg, w, r, o, SelectEdge(cfg, r.node, o, r.ctx), written)
  }

  /** On along the edge selected, if any; the new loop head is saved. */
  function Departed(cfg: Config, w: World, r: Mem, o: Outcome, selected: Option<Edge>, written: bool): World {
    match selected
    case None => if o.status == Fail then w.(proc := Failed(HandlerFailed)) else Finished(w, r, written)
    case Some(edge) =>
      if edge.to !in cfg.nodes then w.(proc := Failed(NodeNotFound(edge.to)))
      else if !written then w.(proc := Failed(SaveFailed))
      else
        var next := Follow(r, edge);
        World(Top(next), Some(Save(cfg, next)), w.log + [Leaving(r.node, o, edge)])
  }

  function Leaving(node: string, o: Outcome, edge: Edge): Event {
    Moved(node, o, edge.to, edge.resetQuality, edge.loopRestart)
  }

  /** Along an edge to the next node. */
  function Follow(m: Mem, edge: Edge): Mem {
    m.(node := edge.to, active := None, tries := 0, prev := Some(m.node),
       completed := if edge.loopRestart then [] else m.completed,
       outcomes := if edge.loopRestart then map[] else m.outcomes,
       quality := if edge.resetQuality then map[] else m.quality,
       footprint := if edge.resetQuality then map[] else m.footprint)
  }

  function TickStep(cfg: Config, w: World, input: Input): World {
    match w.proc
    case Top(m) => TopStep(cfg, w, m, input)
    case Ready(m, first) => ReadyStep(cfg, w, m, first, input)
    case Running(m) => RunningStep(cfg, w, m, input)
    case _ => w
  }

  /** A new process: from the checkpoint if there is one. */
  function Started(cfg: Config, w: World): World {
    if !NoReserved(cfg.input) then w.(proc := Failed(ReservedInput))
    else match w.disk
      case None => w.(proc := Top(Fresh(cfg)))
      case Some(cp) =>
        if !Compatible(cfg, cp) then w.(proc := Failed(Incompatible))
        else if cp.currentNode !in cfg.nodes then w.(proc := Failed(NodeNotFound(cp.currentNode)))
        else w.(proc := Top(Restore(cfg, cp)))
  }

  /** A completed Run is over; any other may be started again. */
  function Step(cfg: Config, w: World, act: Label): World {
    match act
    case Start => if w.proc.Down? || w.proc.Stopped? || w.proc.Failed? then Started(cfg, w) else w
    case Tick(input) => TickStep(cfg, w, input)
    case Crash => if w.proc.Completed? then w else w.(proc := Down)
  }

  function Run(cfg: Config, w: World, acts: seq<Label>): World
    decreases |acts|
  {
    if acts == [] then w else Step(cfg, Run(cfg, w, acts[..|acts| - 1]), acts[|acts| - 1])
  }

  // ---------------------------------------------------------------------
  // Reading the log
  // ---------------------------------------------------------------------

  /** Attempts begun in all. */
  function Begun(log: seq<Event>): nat
    decreases |log|
  {
    if log == [] then 0 else Begun(log[..|log| - 1]) + if log[|log| - 1].Began? then 1 else 0
  }

  /** The nodes of the attempts begun since an edge was last taken. */
  function VisitLog(log: seq<Event>): seq<string>
    decreases |log|
  {
    if log == [] then []
    else match log[|log| - 1]
      case Began(node, _) => VisitLog(log[..|log| - 1]) + [node]
      case Reported(_) => VisitLog(log[..|log| - 1])
      case Moved(_, _, _, _, _) => []
  }

  /** The node left last. */
  function LastLeft(log: seq<Event>): Option<string>
    decreases |log|
  {
    if log == [] then None
    else if log[|log| - 1].Moved? then Some(log[|log| - 1].node)
    else LastLeft(log[..|log| - 1])
  }

  /** Where a visit comes from: the node left last, if any. */
  function From(log: seq<Event>): string {
    match LastLeft(log) case Some(node) => node case None => "__start__"
  }

  /** Visits of a node from an upstream node, since the last saved reset. */
  function Visits(log: seq<Event>, node: string, upstream: string): nat
    decreases |log|
  {
    if log == [] then 0
    else match log[|log| - 1]
      case Began(n, first) =>
        Visits(log[..|log| - 1], node, upstream)
        + if first && n == node && From(log[..|log| - 1]) == upstream then 1 else 0
      case Reported(_) => Visits(log[..|log| - 1], node, upstream)
      case Moved(_, _, _, reset, _) => if reset then 0 else Visits(log[..|log| - 1], node, upstream)
  }

  /** Visits of quality nodes under one key, since the last saved reset. */
  function KeyVisits(cfg: Config, log: seq<Event>, key: string): nat
    decreases |log|
  {
    if log == [] then 0
    else
      var before := KeyVisits(cfg, log[..|log| - 1], key);
      match log[|log| - 1]
      case Began(n, first) =>
        before + if first && IsQuality(cfg, n) && LoopKey(n, From(log[..|log| - 1])) == key then 1 else 0
      case Reported(_) => before
      case Moved(_, _, _, reset, _) => if reset then 0 else before
  }

  /** What a context key holds: what the node left last among those that set it
      wrote, else the graph's default, else the input. */
  function ContextAt(cfg: Config, log: seq<Event>, key: string): Option<string>
    decreases |log|
  {
    if log == [] then
      if key in cfg.defaults then Some(cfg.defaults[key]) else if key in cfg.input then Some(cfg.input[key]) else None
    else
      var e := log[|log| - 1];
      if e.Moved? && key in e.o.updates then Some(e.o.updates[key]) else ContextAt(cfg, log[..|log| - 1], key)
  }

  /** The footprint of a quality node's last failure since the last reset. */
  function FootprintAt(cfg: Config, log: seq<Event>, node: string): Option<string>
    decreases |log|
  {
    if log == [] then None
    else
      var e := log[|log| - 1];
      if !e.Moved? then FootprintAt(cfg, log[..|log| - 1], node)
      else if e.reset then None
      else if e.node == node && IsQuality(cfg, node) && e.o.status == Fail && e.o.footprint.Some? then e.o.footprint
      else FootprintAt(cfg, log[..|log| - 1], node)
  }

  /** The cost last reported. */
  function LastCost(log: seq<Event>): real
    decreases |log|
  {
    if log == [] then 0.0
    else
      var e := log[|log| - 1];
      if !e.Reported? then LastCost(log[..|log| - 1]) else if e.o.cost.Some? then e.o.cost.value else 0.0
  }

  /** All costs reported. */
  function TotalCost(log: seq<Event>): real
    decreases |log|
  {
    if log == [] then 0.0
    else
      var e := log[|log| - 1];
      TotalCost(log[..|log| - 1]) + if e.Reported? && e.o.cost.Some? then e.o.cost.value else 0.0
  }

  /** A node left by a saved edge, and the outcome it was left with. */
  datatype Stage = Stage(node: string, o: Outcome)

  /** Where the Run began, or began again by a `loop_restart` edge, and the
      nodes left since. */
  datatype Walk = Walk(origin: string, trail: seq<Stage>)

  function WalkOf(cfg: Config, log: seq<Event>): Walk
    decreases |log|
  {
    if log == [] then Walk(cfg.start, [])
    else
      var before := WalkOf(cfg, log[..|log| - 1]);
      match log[|log| - 1]
      case Moved(node, o, to, _, restart) => if restart then Walk(to, []) else Extended(before, node, o)
      case _ => before
  }

  function Extended(walk: Walk, node: string, o: Outcome): Walk {
    walk.(trail := walk.trail + [Stage(node, o)])
  }

  function Nodes(trail: seq<Stage>): seq<string>
    decreases |trail|
  {
    if trail == [] then [] else Nodes(trail[..|trail| - 1]) + [trail[|trail| - 1].node]
  }

  /** The outcome a node was last left with. */
  function LastOutcome(trail: seq<Stage>, node: string): Option<Outcome>
    decreases |trail|
  {
    if trail == [] then None
    else if trail[|trail| - 1].node == node then Some(trail[|trail| - 1].o)
    else LastOutcome(trail[..|trail| - 1], node)
  }
}
