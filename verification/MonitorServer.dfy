/** The Monitor's mutable parts: the shared map of Runs
    (crates/attractor-monitor/src/state.rs:98-148), the watcher's replays
    (crates/attractor-monitor/src/watcher.rs:86-119) and one client's pump
    (crates/attractor-monitor/src/sse.rs:73-133). */
module MonitorServer {
  import opened Wrappers
  import opened JournalEvents
  import opened Monitor
  import Projection

  datatype RunSlot = RunSlot(missing: bool, slot: Slot)

  class AppState {
    const capacity: pos
    var runs: map<string, RunSlot>

    constructor (capacity: pos)
      ensures this.capacity == capacity && runs == map[]
    {
      this.capacity, runs := capacity, map[];
    }

    /** Register a Run, or note whether the folder of a known one is there. */
    method UpsertEntry(run: string, missing: bool) returns (isNew: bool)
      modifies this
      ensures isNew == (run !in old(runs))
      ensures runs == old(runs)[run := if isNew then RunSlot(missing, NEW_SLOT) else old(runs)[run].(missing := missing)]
    {
      if run in runs {
        runs := runs[run := runs[run].(missing := missing)];
        return false;
      }
      runs := runs[run := RunSlot(missing, NEW_SLOT)];
      return true;
    }

    method SetMissing(run: string, missing: bool)
      modifies this
      ensures runs == if run in old(runs) then old(runs)[run := old(runs)[run].(missing := missing)] else old(runs)
    {
      if run in runs {
        runs := runs[run := runs[run].(missing := missing)];
      }
    }

    /** Fold an event into a Run's view and broadcast it, unless it is old. */
    method Apply(run: string, e: JournalEvent) returns (taken: bool)
      modifies this
      ensures run !in old(runs) ==> !taken && runs == old(runs)
      ensures run in old(runs) ==>
                && runs == old(runs)[run := old(runs)[run].(slot := Publish(old(runs)[run].slot, e))]
                && taken == (e.seq_ > old(runs)[run].slot.view.lastSeq)
    {
      if run !in runs {
        return false;
      }
      var s := runs[run];
      if e.seq_ <= s.slot.view.lastSeq {
        assert runs == runs[run := s];
        return false;
      }
      runs := runs[run := s.(slot := Slot(Projection.Applied(s.slot.view, e), s.slot.applied + [e]))];
      return true;
    }

    /** The whole journal so far has been replayed up to somewhere. */
    ghost predicate Follows(run: string, journal: seq<JournalEvent>)
      reads this
    {
      run in runs && SlotOk(runs[run].slot, journal)
    }
  }

  function Longer(a: seq<JournalEvent>, b: seq<JournalEvent>): seq<JournalEvent> { if |a| < |b| then b else a }

  /** Replay a readable journal into the view. `live` says whether to go on
      following it. */
  method Attach(state: AppState, run: string, events: seq<JournalEvent>, ghost journal: seq<JournalEvent>)
    returns (live: bool)
    requires Wellformed(journal) && events <= journal && state.Follows(run, journal)
    modifies state
    ensures state.Follows(run, journal) && state.runs.Keys == old(state.runs).Keys
    ensures state.runs[run].slot.applied == Longer(old(state.runs[run].slot.applied), events)
    ensures forall other | other in state.runs && other != run :: state.runs[other] == old(state.runs[other])
    ensures live == (state.runs[run].slot.view.status == Projection.ViewStatus.Running)
  {
    hide Wellformed, SlotOk;
    var i := 0;
    SlotIsPrefix(state.runs[run].slot, journal);
    while i < |events|
      invariant i <= |events| && state.Follows(run, journal) && state.runs.Keys == old(state.runs).Keys
      invariant state.runs[run].slot.applied == Longer(old(state.runs[run].slot.applied), events[..i])
      invariant forall other | other in state.runs && other != run :: state.runs[other] == old(state.runs[other])
    {
      ReplayStep(state.runs[run].slot, journal, i);
      var _ := state.Apply(run, events[i]);
      i := i + 1;
    }
    assert events[..i] == events;
    live := state.runs[run].slot.view.status == Projection.ViewStatus.Running;
  }

  lemma SlotIsPrefix(s: Slot, journal: seq<JournalEvent>)
    requires SlotOk(s, journal)
    ensures s.applied <= journal && s.view == Projection.Fold(s.applied)
  {
  }

  /** Replaying the journal's `i`-th event adds it exactly when it is the next. */
  lemma ReplayStep(s: Slot, journal: seq<JournalEvent>, i: nat)
    requires Wellformed(journal) && SlotOk(s, journal) && i < |journal| && i <= |s.applied|
    ensures SlotOk(Publish(s, journal[i]), journal)
    ensures Publish(s, journal[i]).applied == if i < |s.applied| then s.applied else s.applied + [journal[i]]
  {
    hide Projection.Applied, Projection.Fold;
    PublishKeeps(s, journal, i);
    var k := |s.applied|;
    if i < k {
      assert s.applied[k - 1] == journal[k - 1] && journal[i].seq_ <= journal[k - 1].seq_;
    }
  }

  /** Follow a tail until the Run has ended: no event is applied after the one
      with which it did. */
  method Follow(state: AppState, run: string, events: seq<JournalEvent>, ghost journal: seq<JournalEvent>)
    returns (seen: nat)
    requires Wellformed(journal) && events <= journal && state.Follows(run, journal)
    modifies state
    ensures state.Follows(run, journal) && state.runs.Keys == old(state.runs).Keys && seen <= |events|
    ensures state.runs[run].slot.applied == Longer(old(state.runs[run].slot.applied), events[..seen])
    ensures forall other | other in state.runs && other != run :: state.runs[other] == old(state.runs[other])
    ensures forall k | 0 < k < seen :: StillRunning(Longer(old(state.runs[run].slot.applied), events[..k]))
    ensures seen < |events| ==> !StillRunning(state.runs[run].slot.applied)
  {
    hide Wellformed, SlotOk, Publish, Projection.Fold;
    seen := 0;
    SlotIsPrefix(state.runs[run].slot, journal);
    while seen < |events|
      invariant seen <= |events| && state.Follows(run, journal) && state.runs.Keys == old(state.runs).Keys
      invariant state.runs[run].slot.applied == Longer(old(state.runs[run].slot.applied), events[..seen])
      invariant forall other | other in state.runs && other != run :: state.runs[other] == old(state.runs[other])
      invariant forall k | 0 < k <= seen :: StillRunning(Longer(old(state.runs[run].slot.applied), events[..k]))
    {
      ReplayStep(state.runs[run].slot, journal, seen);
      var _ := state.Apply(run, events[seen]);
      seen := seen + 1;
      SlotIsPrefix(state.runs[run].slot, journal);
      if state.runs[run].slot.view.status != Projection.ViewStatus.Running {
        return;
      }
    }
  }

  ghost predicate StillRunning(applied: seq<JournalEvent>) {
    Projection.Fold(applied).status == Projection.ViewStatus.Running
  }

  // ---------------------------------------------------------------------
  // One client among others
  // ---------------------------------------------------------------------

  /** Steps of client `id`. */
  predicate IsOf(act: Act, id: nat) {
    match act
    case ReadBacklog(i) => i == id
    case SendBacklog(i) => i == id
    case Receive(i) => i == id
    case _ => false
  }

  /** The steps of everyone else. */
  function Others(acts: seq<Act>, id: nat): seq<Act>
    decreases |acts|
  {
    if acts == [] then []
    else
      var rest := Others(acts[..|acts| - 1], id);
      if IsOf(acts[|acts| - 1], id) then rest else rest + [acts[|acts| - 1]]
  }

  function Flat(turns: seq<seq<Act>>): seq<Act> { if turns == [] then [] else turns[0] + Flat(turns[1..]) }

  lemma {:induction false} OthersConcat(a: seq<Act>, b: seq<Act>, id: nat)
    ensures Others(a + b, id) == Others(a, id) + Others(b, id)
    decreases |b|
  {
    if b == [] {
      assert a + b == a;
    } else {
      assert (a + b)[..|a + b| - 1] == a + b[..|b| - 1];
      OthersConcat(a, b[..|b| - 1], id);
    }
  }

  lemma {:induction false} OthersNone(acts: seq<Act>, id: nat)
    ensures Others(Others(acts, id), id) == Others(acts, id)
    decreases |acts|
  {
    if acts != [] {
      OthersNone(acts[..|acts| - 1], id);
      var rest, last := Others(acts[..|acts| - 1], id), acts[|acts| - 1];
      if !IsOf(last, id) { assert (rest + [last])[..|rest|] == rest; }
    }
  }

  lemma {:induction false} PlayConcat(w: World, a: seq<Act>, b: seq<Act>, capacity: pos)
    ensures Play(w, a + b, capacity) == Play(Play(w, a, capacity), b, capacity)
    decreases |b|
  {
    hide Step;
    if b == [] {
      assert a + b == a;
    } else {
      assert (a + b)[..|a + b| - 1] == a + b[..|b| - 1];
      PlayConcat(w, a, b[..|b| - 1], capacity);
    }
  }

  /** Others leave a client's record alone, and take nothing away. */
  lemma OtherStep(w: World, act: Act, id: nat, capacity: pos)
    requires id < |w.clients| && !IsOf(act, id)
    ensures var w' := Step(w, act, capacity);
      id < |w'.clients| && w'.clients[id] == w.clients[id] && w.journal <= w'.journal && w.slot.applied <= w'.slot.applied
  {
  }

  /** What a client's own step does to its record, and to nothing shared. */
  lemma OwnStep(w: World, act: Act, id: nat, capacity: pos)
    requires id < |w.clients| && IsOf(act, id)
    ensures var w' := Step(w, act, capacity); var c := w.clients[id];
      && w'.journal == w.journal && w'.slot == w.slot && id < |w'.clients|
      && w'.clients[id] == OwnRecord(c, act, w', capacity)
  {
    hide BacklogStep, ReceiveStep;
  }

  lemma OthersOwn(acts: seq<Act>, act: Act, id: nat)
    requires IsOf(act, id)
    ensures Others(acts + [act], id) == Others(acts, id)
  {
    assert (acts + [act])[..|acts|] == acts;
  }

  /** The Monitor around one client: journal, shared slot, replayers, and the
      record of every client's task. */
  class Hub {
    const capacity: pos
    var world: World

    constructor (capacity: pos)
      ensures this.capacity == capacity && world == START
    {
      this.capacity, world := capacity, START;
    }

    method Do(act: Act)
      modifies this
      ensures world == Step(old(world), act, capacity)
    {
      world := Step(world, act, capacity);
    }

    /** Everyone but client `id` takes some steps. */
    method Advance(acts: seq<Act>, id: nat)
      requires id < |world.clients|
      modifies this
      ensures world == Play(old(world), Others(acts, id), capacity)
      ensures id < |world.clients| && world.clients[id] == old(world).clients[id]
      ensures old(world).journal <= world.journal && old(world).slot.applied <= world.slot.applied
    {
      hide Step;
      var i := 0;
      while i < |acts|
        invariant i <= |acts| && world == Play(old(world), Others(acts[..i], id), capacity)
        invariant id < |world.clients| && world.clients[id] == old(world).clients[id]
        invariant old(world).journal <= world.journal && old(world).slot.applied <= world.slot.applied
      {
        assert acts[..i + 1][..i] == acts[..i];
        if !IsOf(acts[i], id) {
          OtherStep(world, acts[i], id, capacity);
          PlaySnoc(old(world), Others(acts[..i], id), acts[i], capacity);
          Do(acts[i]);
        }
        i := i + 1;
      }
      assert acts[..i] == acts;
    }
  }

  /** One client's server task. The ghost `phase` says where its code is, and
      `acts` what has happened since it was connected. */
  class Pump {
    const hub: Hub
    const id: nat
    const cursor: nat
    var last: nat
    var recv: nat
    var sent: seq<JournalEvent>
    ghost var phase: Phase
    ghost const start: World
    ghost var acts: seq<Act>

    ghost function State(): Client
      reads this
    {
      Client(cursor, last, recv, phase, sent)
    }

    /** The machine, having taken `acts`, has this pump's state on record. */
    ghost predicate Joined()
      reads this, hub
    {
      && hub.world == Play(start, acts, hub.capacity)
      && id < |hub.world.clients| && hub.world.clients[id] == State()
    }

    /** Subscribe first, read afterwards. */
    constructor (hub: Hub, cursor: nat)
      modifies hub
      ensures this.hub == hub && this.cursor == cursor && Joined() && phase.Opening? && last == cursor && sent == []
      ensures recv == |old(hub.world).slot.applied|
      ensures hub.world == Step(old(hub.world), Connect(cursor), hub.capacity)
      ensures start == hub.world && acts == [] && id == |old(hub.world).clients|
      ensures Inv(old(hub.world)) ==> Inv(start)
    {
      this.hub, this.cursor, id := hub, cursor, |hub.world.clients|;
      last, recv, sent, phase, acts := cursor, |hub.world.slot.applied|, [], Opening, [];
      if Inv(hub.world) { StepKeeps(hub.world, Connect(cursor), hub.capacity); }
      hub.Do(Connect(cursor));
      start := hub.world;
    }

    /** What everyone else has done and, in `turns`, will do, in order. */
    ghost function Around(turns: seq<seq<Act>>): seq<Act>
      reads this
    {
      Others(acts, id) + Others(Flat(turns), id)
    }

    /** Everyone else moves on while the pump waits. */
    method TakeTurn(turns: seq<seq<Act>>) returns (rest: seq<seq<Act>>)
      requires Joined()
      modifies this`acts, hub
      ensures Joined() && Around(rest) == old(Around(turns))
      ensures if turns == [] then rest == [] && hub.world == old(hub.world) else |rest| < |turns|
      ensures old(hub.world).slot.applied <= hub.world.slot.applied
    {
      hide Play, Step, Others, Flat;
      if turns == [] {
        return [];
      }
      hub.Advance(turns[0], id);
      PlayConcat(start, acts, Others(turns[0], id), hub.capacity);
      TurnTaken(acts, turns, id);
      acts := acts + Others(turns[0], id);
      return turns[1..];
    }

    /** A step of the pump's own goes on record. */
    method Note(act: Act)
      requires Joined() && IsOf(act, id)
      modifies this`acts, hub
      ensures hub.world == Play(start, acts, hub.capacity) && Others(acts, id) == old(Others(acts, id))
      ensures hub.world.journal == old(hub.world).journal && hub.world.slot == old(hub.world).slot
      ensures id < |hub.world.clients| && hub.world.clients[id] == OwnRecord(old(State()), act, hub.world, hub.capacity)
    {
      hide Play, Step, Others;
      PlaySnoc(start, acts, act, hub.capacity);
      OwnStep(hub.world, act, id, hub.capacity);
      OthersOwn(acts, act, id);
      hub.Do(act);
      acts := acts + [act];
    }

    /** Read the file, then send what it holds above `last`, one event at a
        time. */
    method SendBacklog(turns: seq<seq<Act>>) returns (rest: seq<seq<Act>>)
      requires Joined() && phase.Opening?
      modifies this`last, this`sent, this`phase, this`acts, hub
      ensures Joined() && phase.Live? && Around(rest) == old(Around(turns)) && |rest| <= |turns|
      ensures turns == [] ==> hub.world.slot == old(hub.world).slot
      ensures old(hub.world).slot.applied <= hub.world.slot.applied
    {
      hide Play, Others, Flat;
      rest := TakeTurn(turns);
      var file := hub.world.journal;
      Note(ReadBacklog(id));
      phase := Backlog(file, 0);
      var i := 0;
      while i < |file|
        invariant i <= |file| && Joined() && phase == Backlog(file, i)
        invariant Around(rest) == old(Around(turns)) && |rest| <= |turns|
        invariant turns == [] ==> hub.world.slot == old(hub.world).slot
        invariant old(hub.world).slot.applied <= hub.world.slot.applied
      {
        rest := TakeTurn(rest);
        var e := file[i];
        Note(Act.SendBacklog(id));
        if e.seq_ > last {
          sent := sent + [e];
          last := e.seq_;
        }
        i := i + 1;
        phase := Backlog(file, i);
      }
      Note(Act.SendBacklog(id));
      phase := Live;
    }

    /** One event from the channel, or the news that some were dropped. */
    method Receive(turns: seq<seq<Act>>) returns (rest: seq<seq<Act>>)
      requires Joined() && phase.Live? && recv < |hub.world.slot.applied|
      modifies this`last, this`recv, this`sent, this`phase, this`acts, hub
      ensures Joined() && phase.Live? && Around(rest) == old(Around(turns)) && |rest| <= |turns|
      ensures turns == [] ==> hub.world.slot == old(hub.world).slot
      ensures old(recv) < recv <= |hub.world.slot.applied|
    {
      hide Play, Others, Flat;
      var applied := hub.world.slot.applied;
      Note(Act.Receive(id));
      if |applied| - recv > hub.capacity {
        recv := |applied| - hub.capacity;
        phase := Opening;
        rest := SendBacklog(turns);
      } else {
        var e := applied[recv];
        if e.seq_ > last {
          sent := sent + [e];
          last := e.seq_;
        }
        recv := recv + 1;
        rest := turns;
      }
    }

    /** Serve a client while everyone else takes the given turns, until these
        are over and the channel is drained. */
    method Serve(turns: seq<seq<Act>>)
      requires Joined() && phase.Opening? && Inv(start)
      modifies this`last, this`recv, this`sent, this`phase, this`acts, hub
      ensures Joined() && phase.Live? && recv == |hub.world.slot.applied|
      ensures Others(acts, id) == old(Around(turns))
      ensures sent == Between(hub.world.journal, cursor, last) && Covers(last, hub.world.slot.applied)
      ensures hub.world.slot.applied == hub.world.journal ==> sent == Above(hub.world.journal, cursor)
    {
      hide Play, Flat, Others, Inv;
      PlayKeeps(start, acts, hub.capacity);
      InvClient(hub.world, id);
      var rest := SendBacklog(turns);
      while rest != [] || recv < |hub.world.slot.applied|
        invariant Joined() && phase.Live? && Around(rest) == old(Around(turns))
        invariant recv <= |hub.world.slot.applied|
        decreases |rest|, |hub.world.slot.applied| - recv
      {
        rest := TakeTurn(rest);
        if recv < |hub.world.slot.applied| {
          rest := Receive(rest);
        }
      }
      FlatNothing(id);
      PlayKeeps(start, acts, hub.capacity);
      InvClient(hub.world, id);
      DrainedIsAll(State(), hub.world.slot, hub.world.journal);
    }
  }

  /** A client's record after a step of its own. */
  function OwnRecord(c: Client, act: Act, w: World, capacity: pos): Client {
    match act
    case ReadBacklog(_) => if c.phase.Opening? then c.(phase := Backlog(w.journal, 0)) else c
    case SendBacklog(_) => BacklogStep(c)
    case _ => ReceiveStep(c, w.slot.applied, capacity)
  }

  /** A turn taken is no longer to come. */
  lemma TurnTaken(acts: seq<Act>, turns: seq<seq<Act>>, id: nat)
    requires turns != []
    ensures Others(acts + Others(turns[0], id), id) + Others(Flat(turns[1..]), id)
         == Others(acts, id) + Others(Flat(turns), id)
  {
    hide Others;
    OthersConcat(turns[0], Flat(turns[1..]), id);
    OthersConcat(acts, Others(turns[0], id), id);
    OthersNone(turns[0], id);
  }

  lemma FlatNothing(id: nat)
    ensures Others(Flat([]), id) == []
  {
  }

  lemma DrainedIsAll(c: Client, slot: Slot, journal: seq<JournalEvent>)
    requires ClientOk(c, slot, journal) && c.phase.Live? && c.recv == |slot.applied|
    ensures c.sent == Between(journal, c.cursor, c.last) && Covers(c.last, slot.applied)
    ensures slot.applied == journal ==> c.sent == Above(journal, c.cursor)
  {
    hide Covers, Between, Above;
    assert slot.applied[..c.recv] == slot.applied;
    if slot.applied == journal { BetweenIsAbove(journal, c.cursor, c.last); }
  }
}
