/** Every step of the execution loop written out in full, field by field
    (crates/attractor-pipeline/src/engine.rs:80-108, 494-606 and 779-1171,
    crates/attractor-pipeline/src/checkpoint.rs:205-242). */
module EngineMeaning {
  import opened Wrappers
  import opened EngineGraph
  import opened Engine
  import opened EngineSafety

  // ---------------------------------------------------------------------
  // Checkpoints and starting
  // ---------------------------------------------------------------------

  /** What a checkpoint of `m` says. */
  ghost predicate Says(cfg: Config, cp: Checkpoint, m: Mem) {
    && cp.currentNode == m.node && cp.completedNodes == m.completed && cp.nodeOutcomes == m.outcomes
    && cp.contextSnapshot == m.ctx && cp.stepCount == m.steps && cp.totalCost == m.cost
    && cp.totalHandlerAttempts == m.attempts && cp.activeNode == m.active && cp.activeNodeAttempts == m.tries
    && cp.qualityLoopCounters == m.quality && cp.qualityLastFootprint == m.footprint && cp.previousNode == m.prev
    && cp.schemaVersion == 3 && cp.executionFingerprint == Some(cfg.fingerprint)
  }

  lemma SaveMeans(cfg: Config, m: Mem)
    ensures forall cp :: Says(cfg, cp, m) <==> cp == Save(cfg, m)
  {
  }

  /** A context key after a start: from the checkpoint unless it is a run
      control, else the graph's default, else the input. */
  ghost function StartContextAt(cfg: Config, disk: Option<Checkpoint>, key: string): Option<string> {
    if disk.Some? && key in disk.value.contextSnapshot && !IsReserved(key) then Some(disk.value.contextSnapshot[key])
    else if key in cfg.defaults then Some(cfg.defaults[key])
    else if key in cfg.input then Some(cfg.input[key])
    else None
  }

  /** Starting refuses an input with run controls and a checkpoint that is of
      a newer schema, of another pipeline or at no node. Otherwise it begins at
      the checkpoint's node with what it says, or at the start with nothing. */
  lemma StartMeans(cfg: Config, w: World)
    requires w.proc.Down? || w.proc.Stopped? || w.proc.Failed?
    ensures var w' := Step(cfg, w, Start);
      && w'.disk == w.disk && w'.log == w.log
      && if exists k :: k in cfg.input && IsReserved(k) then w'.proc == Failed(ReservedInput)
         else if w.disk.Some? && (w.disk.value.schemaVersion > 3
                                  || (w.disk.value.executionFingerprint.Some?
                                      && w.disk.value.executionFingerprint.value != cfg.fingerprint)) then
           w'.proc == Failed(Incompatible)
         else if w.disk.Some? && w.disk.value.currentNode !in cfg.nodes then
           w'.proc == Failed(NodeNotFound(w.disk.value.currentNode))
         else w'.proc.Top? && Begins(cfg, w.disk, w'.proc.m)
  {
    var w' := Step(cfg, w, Start);
    if w'.proc.Top? { ContextBegins(cfg, w.disk); }
  }

  ghost predicate Begins(cfg: Config, disk: Option<Checkpoint>, m: Mem) {
    && (forall key :: Lookup(m.ctx, key) == StartContextAt(cfg, disk, key))
    && (disk.None? ==>
          && m.node == cfg.start && m.completed == [] && m.outcomes == map[] && m.steps == 0 && m.cost == 0.0
          && m.attempts == 0 && m.active == None && m.tries == 0 && m.quality == map[] && m.footprint == map[]
          && m.prev == None)
    && (disk.Some? ==>
          var cp := disk.value;
          && m.node == cp.currentNode && m.completed == cp.completedNodes && m.outcomes == cp.nodeOutcomes
          && m.steps == cp.stepCount && m.cost == cp.totalCost && m.attempts == cp.totalHandlerAttempts
          && m.active == cp.activeNode && m.tries == cp.activeNodeAttempts && m.quality == cp.qualityLoopCounters
          && m.footprint == cp.qualityLastFootprint && m.prev == cp.previousNode)
  }

  lemma ContextBegins(cfg: Config, disk: Option<Checkpoint>)
    ensures disk.None? ==> forall key :: Lookup(Fresh(cfg).ctx, key) == StartContextAt(cfg, disk, key)
    ensures disk.Some? ==> forall key :: Lookup(Restore(cfg, disk.value).ctx, key) == StartContextAt(cfg, disk, key)
  {
    hide IsReserved;
  }

  /** A crash keeps the checkpoint and nothing else. */
  lemma CrashMeans(cfg: Config, w: World)
    ensures !w.proc.Completed? ==> Step(cfg, w, Crash) == World(Down, w.disk, w.log)
    ensures w.proc.Completed? ==> Step(cfg, w, Crash) == w && Step(cfg, w, Start) == w
  {
  }

  // ---------------------------------------------------------------------
  // Steps of a live process
  // ---------------------------------------------------------------------

  /** The head of a visit: the attempts of one that was under way go on, and a
      new one begins with none. */
  ghost predicate Visits(cfg: Config, m: Mem, p: Proc) {
    var tries := if m.active == Some(m.node) then m.tries else 0;
    p == if m.node in cfg.nodes && tries < cfg.nodes[m.node].maxAttempts then Ready(m.(active := Some(m.node), tries := tries), true)
         else Failed(RetriesExhausted)
  }

  /** The loop head: budget, then stop, then the exit's gates or one more entry
      of a quality node, counted under the node and the one left last. */
  lemma TopMeans(cfg: Config, w: World, input: Input)
    requires w.proc.Top? && w.proc.m.node in cfg.nodes
    ensures var m, w' := w.proc.m, Step(cfg, w, Tick(input)); var n := cfg.nodes[m.node];
      && w'.log == w.log
      && if m.cost > cfg.maxBudget then w' == w.(proc := Failed(Budget))
         else if n.exit then w' == w.(proc := AtExit(cfg, m, input.met))
         else if input.stop && input.written then w'.proc == Stopped(m) && w'.disk.Some? && Says(cfg, w'.disk.value, m)
         else if input.stop then w' == w.(proc := Failed(SaveFailed))
         else if !n.quality then w'.disk == w.disk && Visits(cfg, m, w'.proc)
         else
           var key := m.node + "::" + if m.prev.Some? then m.prev.value else "__start__";
           var entries := 1 + if key in m.quality then m.quality[key] else 0;
           && w'.disk == w.disk
           && if entries > cfg.maxFix(m.node) then w'.proc == Failed(QualityExhausted)
              else Visits(cfg, m.(quality := m.quality[key := entries]), w'.proc)
  {
    hide AtExit, Save;
    SaveMeans(cfg, w.proc.m);
  }

  /** Beginning an attempt: not beyond `max_steps`, not above budget, and not
      before it is saved with its own count, which is left out of the saved
      count of attempts where the handler resumes what was interrupted. */
  lemma ReadyMeans(cfg: Config, w: World, input: Input)
    requires w.proc.Ready? && w.proc.m.node in cfg.nodes
    ensures var m, w' := w.proc.m, Step(cfg, w, Tick(input));
      if m.steps >= cfg.maxSteps then w' == w.(proc := Failed(MaxSteps))
      else if m.cost > cfg.maxBudget then w' == w.(proc := Failed(Budget))
      else if !input.written then w' == w.(proc := Failed(SaveFailed))
      else
        var begun := m.(steps := m.steps + 1, attempts := m.attempts + 1, tries := m.tries + 1);
        && w'.proc == Running(begun) && w'.log == w.log + [Began(m.node, w.proc.first)]
        && w'.disk.Some?
        && Says(cfg, w'.disk.value, if cfg.nodes[m.node].resumes then begun.(tries := m.tries) else begun)
  {
    hide Save;
    var m := w.proc.m;
    SaveMeans(cfg, m.(steps := m.steps + 1, attempts := m.attempts + 1, tries := m.tries + 1));
    SaveMeans(cfg, m.(steps := m.steps + 1, attempts := m.attempts + 1));
  }

  /** An error: asked again if it may be and an attempt is left. */
  lemma ErredMeans(cfg: Config, w: World, input: Input)
    requires w.proc.Running? && w.proc.m.node in cfg.nodes && input.reply.Erred?
    ensures var m := w.proc.m;
      Step(cfg, w, Tick(input))
      == w.(proc := if input.reply.retryable && m.tries < cfg.nodes[m.node].maxAttempts then Ready(m, false) else Failed(HandlerError))
  {
  }

  /** A retry outcome with an attempt left: its cost, if any, is booked and
      saved, and the handler is asked again. */
  lemma RetryMeans(cfg: Config, w: World, input: Input)
    requires w.proc.Running? && w.proc.m.node in cfg.nodes && input.reply.Returned? && input.reply.o.status == Retry
    requires w.proc.m.tries < cfg.nodes[w.proc.m.node].maxAttempts
    ensures var m, o, w' := w.proc.m, input.reply.o, Step(cfg, w, Tick(input));
      && w'.log == w.log + [Reported(o)]
      && if o.cost.None? then w'.proc == Ready(m, false) && w'.disk == w.disk
         else if !input.written then w'.proc == Failed(SaveFailed) && w'.disk == w.disk
         else
           var paid := m.(cost := m.cost + o.cost.value);
           w'.proc == Ready(paid, false) && w'.disk.Some? && Says(cfg, w'.disk.value, paid)
  {
    hide Save;
    var m := w.proc.m;
    if input.reply.o.cost.Some? { SaveMeans(cfg, m.(cost := m.cost + input.reply.o.cost.value)); }
  }

  /** An outcome that is final for its visit. */
  predicate IsFinal(cfg: Config, m: Mem, input: Input)
    requires m.node in cfg.nodes
  {
    input.reply.Returned? && !(input.reply.o.status == Retry && m.tries < cfg.nodes[m.node].maxAttempts)
  }

  /** The end of a Run with memory `m`: the checkpoint goes. */
  ghost predicate Ends(w: World, w': World, m: Mem, written: bool) {
    if written then w'.proc == Completed(m.(active := None, tries := 0)) && w'.disk == None
    else w'.proc == Failed(SaveFailed) && w'.disk == w.disk
  }

  /** The exit's final outcome: recorded without its cost, and the Run is over.
      Updates of run controls fail it. */
  lemma ExitMeans(cfg: Config, w: World, input: Input)
    requires w.proc.Running? && w.proc.m.node in cfg.nodes && cfg.nodes[w.proc.m.node].exit && IsFinal(cfg, w.proc.m, input)
    ensures var m, o, w' := w.proc.m, input.reply.o, Step(cfg, w, Tick(input));
      && w'.log == w.log + [Reported(o)]
      && if exists k :: k in o.updates && IsReserved(k) then w'.proc == Failed(ReservedKeys) && w'.disk == w.disk
         else
           Ends(w, w', m.(completed := m.completed + [m.node], outcomes := m.outcomes[m.node := o], ctx := m.ctx + o.updates),
                input.written)
  {
    hide IsReserved;
  }

  /** Memory after a node's final outcome: the node completed, its outcome and
      updates, its cost if it has one, and a failed quality node's footprint. */
  function After(cfg: Config, m: Mem, o: Outcome): Mem
    requires m.node in cfg.nodes
  {
    m.(completed := m.completed + [m.node], outcomes := m.outcomes[m.node := o], ctx := m.ctx + o.updates,
       cost := if o.cost.Some? then m.cost + o.cost.value else m.cost,
       footprint := if cfg.nodes[m.node].quality && o.status == Fail && o.footprint.Some? then m.footprint[m.node := o.footprint.value]
                    else m.footprint)
  }

  /** The final outcome of any other node. Without an edge to take the Run is
      over, or fails if the outcome does. Along an edge the node left becomes
      the previous one, and the edge's flags clear the walk or the loop state;
      the new loop head is saved. */
  lemma NodeMeans(cfg: Config, w: World, input: Input)
    requires w.proc.Running? && w.proc.m.node in cfg.nodes && !cfg.nodes[w.proc.m.node].exit && IsFinal(cfg, w.proc.m, input)
    ensures var m, o, w' := w.proc.m, input.reply.o, Step(cfg, w, Tick(input));
      if exists k :: k in o.updates && IsReserved(k) then
        w' == World(Failed(ReservedKeys), w.disk, w.log + [Reported(o)])
      else
        var after := After(cfg, m, o);
        match SelectEdge(cfg, m.node, o, after.ctx)
        case None =>
          && w'.log == w.log + [Reported(o)]
          && if o.status == Fail then w'.proc == Failed(HandlerFailed) && w'.disk == w.disk
             else Ends(w, w', after, input.written)
        case Some(e) =>
          if e.to !in cfg.nodes then w' == World(Failed(NodeNotFound(e.to)), w.disk, w.log + [Reported(o)])
          else if !input.written then w' == World(Failed(SaveFailed), w.disk, w.log + [Reported(o)])
          else
            && w'.log == w.log + [Reported(o)] + [Moved(m.node, o, e.to, e.resetQuality, e.loopRestart)]
            && w'.proc == Top(Taken(after, e)) && w'.disk.Some? && Says(cfg, w'.disk.value, Taken(after, e))
  {
    hide IsReserved, SelectEdge, Save;
    var m, o := w.proc.m, input.reply.o;
    if NoReserved(o.updates) {
      RecordIsAfter(cfg, m, o);
      var selected := SelectEdge(cfg, m.node, o, After(cfg, m, o).ctx);
      if selected.Some? { SaveMeans(cfg, Taken(After(cfg, m, o), selected.value)); }
    }
  }

  lemma RecordIsAfter(cfg: Config, m: Mem, o: Outcome)
    requires m.node in cfg.nodes
    ensures Record(cfg, m, o).(ctx := m.ctx + o.updates) == After(cfg, m, o)
  {
  }

  function Taken(m: Mem, e: Edge): Mem {
    m.(node := e.to, prev := Some(m.node), active := None, tries := 0,
       completed := if e.loopRestart then [] else m.completed, outcomes := if e.loopRestart then map[] else m.outcomes,
       quality := if e.resetQuality then map[] else m.quality,
       footprint := if e.resetQuality then map[] else m.footprint)
  }
}
