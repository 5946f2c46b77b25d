/** The execution loop as it runs (crates/attractor-pipeline/src/engine.rs:478-606
    and 765-1171): memory changed in place, one checkpoint file, and a handler
    call per attempt. Every method is tied to the state machine of `Engine`. */
module EngineExecutor {
  import opened Wrappers
  import opened EngineGraph
  import opened Engine
  import opened EngineRuns
  import opened EngineSafety

  class Disk {
    var checkpoint: Option<Checkpoint>

    constructor ()
      ensures checkpoint == None
    {
      checkpoint := None;
    }

    /** Write a new file and rename it over the old one, or fail with the old
        one still there. */
    method Replace(cp: Checkpoint, written: bool)
      modifies this
      ensures checkpoint == if written then Some(cp) else old(checkpoint)
    {
      if written {
        checkpoint := Some(cp);
      }
    }

    method Clear(written: bool)
      modifies this
      ensures checkpoint == if written then None else old(checkpoint)
    {
      if written {
        checkpoint := None;
      }
    }
  }

  class Progress {
    var steps: nat
    var cost: real
    var attempts: nat
    var active: Option<string>
    var tries: nat

    constructor ()
      ensures steps == 0 && cost == 0.0 && attempts == 0 && active == None && tries == 0
    {
      steps, cost, attempts, active, tries := 0, 0.0, 0, None, 0;
    }
  }

  datatype Invoked = Replied(o: Outcome, input: Input) | Gave(why: Failure)

  /** One process. `inputs` is what it gets from outside, step by step; `at`
      is where the state machine is, having started in `from`. */
  class Executor {
    const cfg: Config
    const disk: Disk
    const progress: Progress
    const inputs: nat -> Input
    var tick: nat
    var node: string
    var completed: seq<string>
    var outcomes: map<string, Outcome>
    var ctx: Context
    var quality: map<string, nat>
    var footprint: map<string, string>
    var prev: Option<string>
    ghost var from: World
    ghost var since: nat
    ghost var used: seq<Input>
    ghost var at: World

    function Memory(): Mem
      reads this, progress
    {
      Mem(node, completed, outcomes, ctx, progress.steps, progress.cost, progress.attempts, progress.active,
          progress.tries, quality, footprint, prev)
    }

    /** The machine has taken the steps of the inputs used: those that came,
        in the order in which they came. */
    ghost predicate Tracked()
      reads this`at, this`from, this`used, this`since
    {
      at == Ticks(cfg, from, used) && forall i | 0 <= i < |used| :: used[i] == inputs(since + i)
    }

    /** Every input that came has been used. */
    ghost predicate Settled()
      reads this`tick, this`used, this`since
    {
      tick == since + |used|
    }

    /** All but this last one. */
    ghost predicate Pending(input: Input)
      reads this`tick, this`used, this`since
    {
      tick == since + |used| + 1 && input == inputs(since + |used|)
    }

    ghost predicate Follows()
      reads this`at, this`from, this`used, this`since, disk
    {
      Tracked() && at.disk == disk.checkpoint && StepsOk(cfg, at.proc)
    }

    constructor (cfg: Config, disk: Disk, inputs: nat -> Input, ghost log: seq<Event>)
      ensures this.cfg == cfg && this.disk == disk && this.inputs == inputs && fresh(progress)
      ensures at == World(Down, disk.checkpoint, log)
    {
      this.cfg, this.disk, this.inputs, tick := cfg, disk, inputs, 0;
      progress := new Progress();
      node, completed, outcomes, ctx := cfg.start, [], map[], map[];
      quality, footprint, prev := map[], map[], None;
      at, used, from, since := World(Down, disk.checkpoint, log), [], World(Down, disk.checkpoint, log), 0;
    }

    method Next() returns (input: Input)
      requires Settled()
      modifies this`tick
      ensures Pending(input)
    {
      input := inputs(tick);
      tick := tick + 1;
    }

    /** The machine takes a step. */
    ghost method Note(input: Input)
      requires Tracked() && Pending(input) && Live(at.proc) && StepsOk(cfg, at.proc) && Valid(cfg)
      modifies this`at, this`used
      ensures Tracked() && Settled() && at == TickStep(cfg, old(at), input) && StepsOk(cfg, at.proc)
      ensures Measure(cfg, at.proc) < Measure(cfg, old(at.proc))
    {
      hide TickStep, Ticks, Valid, Measure;
      TickDecreases(cfg, at, input);
      TicksSnoc(cfg, from, used, input);
      at, used := TickStep(cfg, at, input), used + [input];
    }

    /** Save the state, field by field. */
    method SaveCheckpoint(written: bool)
      modifies disk
      ensures disk.checkpoint == if written then Some(Save(cfg, Memory())) else old(disk.checkpoint)
    {
      var cp := Checkpoint(node, completed, outcomes, ctx, progress.steps, progress.cost, SCHEMA, quality, footprint,
                           prev, progress.attempts, progress.active, progress.tries, Some(cfg.fingerprint));
      disk.Replace(cp, written);
    }

    /** Begin attempts at the current node until one is final. */
    method InvokeNode() returns (r: Invoked)
      requires Follows() && Settled() && Valid(cfg) && node in cfg.nodes && at.proc == Visit(cfg, Memory())
      modifies this`tick, this`at, this`used, progress, disk
      ensures Follows() && Measure(cfg, at.proc) <= Measure(cfg, old(at.proc))
      ensures r.Gave? ==> Settled() && at.proc == Failed(r.why)
      ensures r.Replied? ==>
                && Pending(r.input) && at.proc == Running(Memory()) && r.input.reply == Returned(r.o)
                && !(r.o.status == Retry && More(cfg, Memory()))
    {
      hide Measure, Valid, Tracked, Settled, Pending, TickStep;
      var maxAttempts := cfg.nodes[node].maxAttempts;
      if progress.active != Some(node) {
        progress.active := Some(node);
        progress.tries := 0;
      }
      if progress.tries >= maxAttempts {
        return Gave(RetriesExhausted);
      }
      ghost var first := true;
      while true
        invariant Follows() && Settled() && progress.tries < maxAttempts
        invariant Measure(cfg, at.proc) <= Measure(cfg, old(at.proc))
        invariant at.proc == Ready(Memory(), first)
        decreases Measure(cfg, at.proc)
      {
        MeasureRange(cfg, at.proc);
        var failure := Begin(first);
        if failure.Some? {
          return Gave(failure.value);
        }
        var input := Next();
        var final := Answer(input);
        if final.Some? {
          return final.value;
        }
        first := false;
      }
    }

    /** What the handler's reply means; `None` when another attempt follows. */
    method Answer(input: Input) returns (r: Option<Invoked>)
      requires Follows() && Pending(input) && Valid(cfg) && node in cfg.nodes && at.proc == Running(Memory())
      modifies this`at, this`used, progress`cost, disk
      ensures Follows() && Measure(cfg, at.proc) <= Measure(cfg, old(at.proc))
      ensures if r.Some? && r.value.Replied? then Pending(input) else Settled()
      ensures r.None? ==> at.proc == Ready(Memory(), false) && progress.tries < cfg.nodes[node].maxAttempts
      ensures r.Some? && r.value.Gave? ==> at.proc == Failed(r.value.why)
      ensures r.Some? && r.value.Replied? ==>
                && at.proc == Running(Memory()) && r.value.input == input && input.reply == Returned(r.value.o)
                && !(r.value.o.status == Retry && More(cfg, Memory()))
    {
      hide Measure, Valid, Tracked, Settled, Pending, Save, Exited, Recorded;
      var more := progress.tries < cfg.nodes[node].maxAttempts;
      match input.reply {
        case Returned(o) =>
          if o.status == Retry && more {
            var saved := Pay(o, input);
            return if saved then None else Some(Gave(SaveFailed));
          }
          return Some(Replied(o, input));
        case Erred(retryable) =>
          Note(input);
          return if retryable && more then None else Some(Gave(HandlerError));
      }
    }

    /** Check the limits, then count and save the attempt. */
    method Begin(ghost first: bool) returns (failure: Option<Failure>)
      requires Follows() && Settled() && Valid(cfg) && node in cfg.nodes && at.proc == Ready(Memory(), first)
      modifies this`tick, this`at, this`used, progress, disk
      ensures Follows() && Settled() && Measure(cfg, at.proc) < Measure(cfg, old(at.proc))
      ensures failure.Some? ==> at.proc == Failed(failure.value)
      ensures failure.None? ==> at.proc == Running(Memory()) && progress.tries == old(progress.tries) + 1
    {
      hide Measure, Valid, Tracked, Settled, Pending, TickStep, ReadyStep;
      var input := Next();
      ReadyIs(cfg, at, input);
      Note(input);
      failure := CountAttempt(first, input.written);
    }

    method CountAttempt(ghost first: bool, written: bool) returns (failure: Option<Failure>)
      requires node in cfg.nodes
      requires exists w: World, input: Input ::
                 w.disk == disk.checkpoint && input.written == written && at == ReadyStep(cfg, w, Memory(), first, input)
      modifies progress, disk
      ensures at.disk == disk.checkpoint
      ensures failure.Some? ==> at.proc == Failed(failure.value)
      ensures failure.None? ==> at.proc == Running(Memory()) && progress.tries == old(progress.tries) + 1
    {
      hide Save;
      if progress.steps >= cfg.maxSteps {
        return Some(MaxSteps);
      }
      if progress.cost > cfg.maxBudget {
        return Some(Budget);
      }
      progress.steps := progress.steps + 1;
      progress.attempts := progress.attempts + 1;
      var attempt := progress.tries;
      progress.tries := if cfg.nodes[node].resumes then attempt else attempt + 1;
      SaveCheckpoint(written);
      if !written {
        return Some(SaveFailed);
      }
      progress.tries := attempt + 1;
      return None;
    }

    /** Book what an attempt that is repeated has cost. */
    method Pay(o: Outcome, input: Input) returns (saved: bool)
      requires Follows() && Pending(input) && Valid(cfg) && at.proc == Running(Memory())
      requires input.reply == Returned(o) && o.status == Retry && More(cfg, Memory())
      modifies this`at, this`used, progress`cost, disk
      ensures Follows() && Settled() && Measure(cfg, at.proc) < Measure(cfg, old(at.proc))
      ensures at.proc == if saved then Ready(Memory(), false) else Failed(SaveFailed)
    {
      hide Measure, Valid, Tracked, Settled, Pending, Save;
      Note(input);
      if o.cost.Some? {
        progress.cost := progress.cost + o.cost.value;
        SaveCheckpoint(input.written);
        return input.written;
      }
      return true;
    }

    /** Start: from the checkpoint if there is one, else from the beginning. */
    method Prepare() returns (failure: Option<Failure>)
      requires cfg.start in cfg.nodes && at.proc.Down? && at.disk == disk.checkpoint
      modifies this, progress
      ensures at == Step(cfg, old(at), Start) && from == at && used == [] && at.disk == disk.checkpoint
      ensures tick == since == old(tick)
      ensures failure.None? ==> at.proc == Top(Memory()) && node in cfg.nodes
      ensures failure.Some? ==> at.proc == Failed(failure.value)
    {
      hide Step, Compatible, NoReserved, Restore;
      StartIs(cfg, at);
      at, used, since := Step(cfg, at, Start), [], tick;
      from := at;
      ctx := cfg.input;
      if !NoReserved(ctx) {
        return Some(ReservedInput);
      }
      ctx := ctx + cfg.defaults;
      Reset();
      if disk.checkpoint.Some? {
        if !Compatible(cfg, disk.checkpoint.value) {
          return Some(Incompatible);
        }
        var found := Resume(disk.checkpoint.value);
        return if found then None else Some(NodeNotFound(disk.checkpoint.value.currentNode));
      }
      return None;
    }

    /** As a Run begins. */
    method Reset()
      requires ctx == InitialContext(cfg)
      modifies this`node, this`completed, this`outcomes, this`quality, this`footprint, this`prev, progress
      ensures Memory() == Fresh(cfg)
    {
      node, completed, outcomes, quality, footprint, prev := cfg.start, [], map[], map[], map[], None;
      progress.steps, progress.cost, progress.attempts, progress.active, progress.tries := 0, 0.0, 0, None, 0;
    }

    /** Take over what a checkpoint holds, run controls aside. */
    method Resume(cp: Checkpoint) returns (found: bool)
      requires ctx == InitialContext(cfg)
      modifies this`node, this`ctx, this`completed, this`outcomes, this`quality, this`footprint, this`prev, progress
      ensures found == (cp.currentNode in cfg.nodes)
      ensures found ==> Memory() == Restore(cfg, cp) && node == cp.currentNode
    {
      hide Unreserved;
      ctx := ctx + Unreserved(cp.contextSnapshot);
      completed := cp.completedNodes;
      outcomes := cp.nodeOutcomes;
      progress.steps := cp.stepCount;
      progress.cost := cp.totalCost;
      progress.attempts := cp.totalHandlerAttempts;
      progress.active := cp.activeNode;
      progress.tries := cp.activeNodeAttempts;
      quality := cp.qualityLoopCounters;
      footprint := cp.qualityLastFootprint;
      prev := cp.previousNode;
      if cp.currentNode !in cfg.nodes {
        return false;
      }
      node := cp.currentNode;
      return true;
    }

    /** Run to an end: the whole loop. */
    method RunInner() returns (r: Proc)
      requires Valid(cfg) && Inv(cfg, at) && at.proc.Down? && at.disk == disk.checkpoint
      modifies this, progress, disk
      ensures r == at.proc && !Live(r) && at.disk == disk.checkpoint
      ensures at == Ticks(cfg, Step(cfg, old(at), Start), used)
      ensures tick == old(tick) + |used| && forall i | 0 <= i < |used| :: used[i] == inputs(old(tick) + i)
    {
      hide Measure, Valid, Step, Ticks, Inv;
      ValidStart(cfg);
      StepKeeps(cfg, at, Start);
      var failure := Prepare();
      TicksNone(cfg, at);
      InvSteps(cfg, at);
      if failure.Some? {
        return Failed(failure.value);
      }
      while true
        invariant Follows() && Settled() && at.proc == Top(Memory()) && node in cfg.nodes
        invariant from == Step(cfg, old(at), Start) && since == old(tick)
        decreases Measure(cfg, at.proc)
      {
        MeasureRange(cfg, at.proc);
        var ended := Turn();
        if ended.Some? {
          return ended.value;
        }
      }
    }

    /** One turn of the loop. */
    method Turn() returns (ended: Option<Proc>)
      requires Follows() && Settled() && Valid(cfg) && at.proc == Top(Memory()) && node in cfg.nodes
      modifies this, progress, disk
      ensures Follows() && Settled() && from == old(from) && since == old(since)
      ensures ended.None? ==> at.proc == Top(Memory()) && node in cfg.nodes
      ensures ended.None? ==> Measure(cfg, at.proc) < Measure(cfg, old(at.proc))
      ensures ended.Some? ==> ended.value == at.proc && !Live(at.proc)
    {
      hide Measure, Valid, Tracked, Settled, Pending, Save, AtExit, AtNode;
      var input := Next();
      Note(input);
      if progress.cost > cfg.maxBudget {
        return Some(Failed(Budget));
      }
      if !IsExit(cfg, node) && input.stop {
        SaveCheckpoint(input.written);
        return Some(if input.written then Stopped(Memory()) else Failed(SaveFailed));
      }
      if IsExit(cfg, node) {
        ended := ExitStage(input.met);
      } else {
        ended := NodeStage();
      }
    }

    /** At an exit: enforce the gates, then run its handler. */
    method ExitStage(met: string) returns (ended: Option<Proc>)
      requires Follows() && Settled() && Valid(cfg) && node in cfg.nodes && IsExit(cfg, node)
      requires at.proc == AtExit(cfg, Memory(), met)
      modifies this, progress, disk
      ensures Follows() && Settled() && from == old(from) && since == old(since)
      ensures Measure(cfg, at.proc) <= Measure(cfg, old(at.proc))
      ensures ended.None? ==> at.proc == Top(Memory()) && node in cfg.nodes
      ensures ended.Some? ==> ended.value == at.proc && !Live(at.proc)
    {
      hide Measure, Valid, Tracked, Settled, Pending, Visit, Failing, RetryTarget, TickStep;
      var failing := Failing(cfg, outcomes);
      if failing != {} {
        var gate := Picked(failing, met);
        PickedIsNode(cfg, outcomes, gate);
        match RetryTarget(cfg, gate) {
          case None => return Some(Failed(GateUnsatisfied(gate)));
          case Some(to) =>
            if to !in cfg.nodes {
              return Some(Failed(NodeNotFound(to)));
            }
            node := to;
            return None;
        }
      }
      var invoked := InvokeNode();
      match invoked {
        case Gave(why) => return Some(Failed(why));
        case Replied(o, input) =>
          var last := FinishExit(o, input);
          return Some(last);
      }
    }

    /** The exit's handler is done. */
    method FinishExit(o: Outcome, input: Input) returns (last: Proc)
      requires Follows() && Pending(input) && Valid(cfg) && IsExit(cfg, node) && at.proc == Running(Memory())
      requires input.reply == Returned(o) && !(o.status == Retry && More(cfg, Memory()))
      modifies this, progress, disk
      ensures Follows() && Settled() && from == old(from) && since == old(since)
      ensures Measure(cfg, at.proc) <= Measure(cfg, old(at.proc))
      ensures last == at.proc && !Live(at.proc)
    {
      hide Measure, Valid, Tracked, Settled, Pending, TickStep, Exited;
      ExitIs(cfg, at, input, o);
      Note(input);
      last := Leave(o, input.written);
    }

    /** Record the exit and clear the checkpoint. */
    method Leave(o: Outcome, written: bool) returns (last: Proc)
      requires exists w: World :: w.disk == disk.checkpoint && at == Exited(cfg, w, Memory(), o, written)
      modifies this`ctx, this`completed, this`outcomes, progress, disk
      ensures at.disk == disk.checkpoint && last == at.proc && !Live(at.proc)
    {
      hide NoReserved;
      if !NoReserved(o.updates) {
        return Failed(ReservedKeys);
      }
      ctx := ctx + o.updates;
      completed := completed + [node];
      outcomes := outcomes[node := o];
      progress.active := None;
      progress.tries := 0;
      disk.Clear(written);
      return if written then Completed(Memory()) else Failed(SaveFailed);
    }

    /** At any other node: count a quality entry, then run the handler. */
    method NodeStage() returns (ended: Option<Proc>)
      requires Follows() && Settled() && Valid(cfg) && node in cfg.nodes && !IsExit(cfg, node)
      requires at.proc == AtNode(cfg, Memory())
      modifies this, progress, disk
      ensures Follows() && Settled() && from == old(from) && since == old(since)
      ensures Measure(cfg, at.proc) <= Measure(cfg, old(at.proc))
      ensures ended.None? ==> at.proc == Top(Memory()) && node in cfg.nodes
      ensures ended.Some? ==> ended.value == at.proc && !Live(at.proc)
    {
      hide Measure, Valid, Tracked, Settled, Pending, Visit, LoopKey, TickStep;
      if IsQuality(cfg, node) {
        var upstream := if prev.Some? then prev.value else "__start__";
        var key := LoopKey(node, upstream);
        var iteration := (if key in quality then quality[key] else 0) + 1;
        quality := quality[key := iteration];
        if iteration > cfg.maxFix(node) {
          return Some(Failed(QualityExhausted));
        }
      }
      var invoked := InvokeNode();
      match invoked {
        case Gave(why) => return Some(Failed(why));
        case Replied(o, input) => ended := Advance(o, input);
      }
    }

    /** Record the outcome and take an edge. */
    method Advance(o: Outcome, input: Input) returns (ended: Option<Proc>)
      requires Follows() && Pending(input) && Valid(cfg) && !IsExit(cfg, node) && at.proc == Running(Memory())
      requires input.reply == Returned(o) && !(o.status == Retry && More(cfg, Memory()))
      modifies this, progress, disk
      ensures Follows() && Settled() && from == old(from) && since == old(since)
      ensures Measure(cfg, at.proc) <= Measure(cfg, old(at.proc))
      ensures ended.None? ==> at.proc == Top(Memory()) && node in cfg.nodes
      ensures ended.Some? ==> ended.value == at.proc && !Live(at.proc)
    {
      hide Measure, Valid, Tracked, Settled, Pending, TickStep, Recorded;
      RecordIs(cfg, at, input, o);
      Note(input);
      ended := GoOn(o, input.written);
    }

    method GoOn(o: Outcome, written: bool) returns (ended: Option<Proc>)
      requires exists w: World :: w.disk == disk.checkpoint && at == Recorded(cfg, w, Memory(), o, written)
      modifies this`node, this`prev, this`ctx, this`completed, this`outcomes, this`quality, this`footprint, progress, disk
      ensures at.disk == disk.checkpoint
      ensures ended.None? ==> at.proc == Top(Memory()) && node in cfg.nodes
      ensures ended.Some? ==> ended.value == at.proc && !Live(at.proc)
    {
      hide NoReserved, Record, Departed, SelectEdge;
      RecordNode(o);
      if !NoReserved(o.updates) {
        return Some(Failed(ReservedKeys));
      }
      ctx := ctx + o.updates;
      ended := Depart(o, written, SelectEdge(cfg, node, o, ctx));
    }

    /** Go on along the edge selected, or end. */
    method Depart(o: Outcome, written: bool, selected: Option<Edge>) returns (ended: Option<Proc>)
      requires exists w: World :: w.disk == disk.checkpoint && at == Departed(cfg, w, Memory(), o, selected, written)
      modifies this`node, this`prev, this`completed, this`outcomes, this`quality, this`footprint, progress, disk
      ensures at.disk == disk.checkpoint
      ensures ended.None? ==> at.proc == Top(Memory()) && node in cfg.nodes
      ensures ended.Some? ==> ended.value == at.proc && !Live(at.proc)
    {
      hide Follow, Save;
      match selected {
        case None =>
          if o.status == Fail {
            return Some(Failed(HandlerFailed));
          }
          progress.active := None;
          progress.tries := 0;
          disk.Clear(written);
          return Some(if written then Completed(Memory()) else Failed(SaveFailed));
        case Some(edge) =>
          if edge.to !in cfg.nodes {
            return Some(Failed(NodeNotFound(edge.to)));
          }
          TakeEdge(edge);
          SaveCheckpoint(written);
          return if written then None else Some(Failed(SaveFailed));
      }
    }

    /** Put the outcome on record, with its footprint and its cost. */
    method RecordNode(o: Outcome)
      modifies this`footprint, this`completed, this`outcomes, progress`cost
      ensures Memory() == Record(cfg, old(Memory()), o)
    {
      if IsQuality(cfg, node) && o.status == Fail && o.footprint.Some? {
        footprint := footprint[node := o.footprint.value];
      }
      completed := completed + [node];
      outcomes := outcomes[node := o];
      if o.cost.Some? {
        progress.cost := progress.cost + o.cost.value;
      }
    }

    /** Go to the next node; some edges clear what was gathered. */
    method TakeEdge(edge: Edge)
      modifies this`node, this`prev, this`completed, this`outcomes, this`quality, this`footprint, progress
      ensures Memory() == Follow(old(Memory()), edge) && node == edge.to
    {
      var left := node;
      if edge.loopRestart {
        completed := [];
        outcomes := map[];
      }
      if edge.resetQuality {
        quality := map[];
        footprint := map[];
      }
      node := edge.to;
      progress.active := None;
      progress.tries := 0;
      prev := Some(left);
    }
  }

  lemma ReadyIs(cfg: Config, w: World, input: Input)
    requires w.proc.Ready?
    ensures TickStep(cfg, w, input) == ReadyStep(cfg, w, w.proc.m, w.proc.first, input)
  {
  }

  lemma ExitIs(cfg: Config, w: World, input: Input, o: Outcome)
    requires w.proc.Running? && IsExit(cfg, w.proc.m.node) && input.reply == Returned(o)
    requires !(o.status == Retry && More(cfg, w.proc.m))
    ensures TickStep(cfg, w, input)
         == Exited(cfg, w.(log := w.log + [Reported(o)]), w.proc.m, o, input.written)
  {
  }

  lemma RecordIs(cfg: Config, w: World, input: Input, o: Outcome)
    requires w.proc.Running? && !IsExit(cfg, w.proc.m.node) && input.reply == Returned(o)
    requires !(o.status == Retry && More(cfg, w.proc.m))
    ensures TickStep(cfg, w, input)
         == Recorded(cfg, w.(log := w.log + [Reported(o)]), w.proc.m, o, input.written)
  {
  }

  lemma StartIs(cfg: Config, w: World)
    requires w.proc.Down?
    ensures Step(cfg, w, Start) == Started(cfg, w)
  {
  }

  lemma ValidStart(cfg: Config)
    requires Valid(cfg)
    ensures cfg.start in cfg.nodes
  {
  }

  lemma TicksSnoc(cfg: Config, w: World, inputs: seq<Input>, input: Input)
    ensures Ticks(cfg, w, inputs + [input]) == TickStep(cfg, Ticks(cfg, w, inputs), input)
  {
    hide TickStep;
    assert (inputs + [input])[..|inputs|] == inputs;
  }

  lemma TicksNone(cfg: Config, w: World)
    ensures Ticks(cfg, w, []) == w
  {
  }
}
