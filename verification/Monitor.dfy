/** One Run as the Monitor serves it (crates/attractor-monitor/src/state.rs,
    watcher.rs and sse.rs): replayers that each walk the journal from its
    start, one shared view, a bounded broadcast channel, and any number of
    clients. Every interleaving of their steps is a run of this machine. */
module Monitor {
  import opened Wrappers
  import opened JournalEvents
  import Projection

  /** The shared slot: the view, and every event broadcast so far. */
  datatype Slot = Slot(view: Projection.View, applied: seq<JournalEvent>)

  const NEW_SLOT: Slot := Slot(Projection.NO_VIEW, [])

  /** `AppState::apply` on one slot: events not above `last_seq` are dropped. */
  function Publish(s: Slot, e: JournalEvent): Slot {
    if e.seq_ <= s.view.lastSeq then s else Slot(Projection.Applied(s.view, e), s.applied + [e])
  }

  /** A client's server task. `recv` is the next event its receiver reads. */
  datatype Phase = Opening | Backlog(events: seq<JournalEvent>, at: nat) | Live

  datatype Client = Client(cursor: nat, last: nat, recv: nat, phase: Phase, sent: seq<JournalEvent>)

  function Connected(cursor: nat, applied: seq<JournalEvent>): Client {
    Client(cursor, cursor, |applied|, Opening, [])
  }

  /** Send an event unless it is at or below `last`. */
  function Offered(c: Client, e: JournalEvent): Client {
    if e.seq_ <= c.last then c else c.(last := e.seq_, sent := c.sent + [e])
  }

  /** One step of `send_backlog` after the file was read. */
  function BacklogStep(c: Client): Client {
    if !c.phase.Backlog? then c
    else if c.phase.at < |c.phase.events| then
      Offered(c, c.phase.events[c.phase.at]).(phase := Backlog(c.phase.events, c.phase.at + 1))
    else c.(phase := Live)
  }

  /** One `recv`: a receiver more than `capacity` behind is told it lagged,
      is moved to the oldest event kept, and reads the backlog again. */
  function ReceiveStep(c: Client, applied: seq<JournalEvent>, capacity: pos): Client {
    if !c.phase.Live? || c.recv >= |applied| then c
    else if |applied| - c.recv > capacity then c.(recv := |applied| - capacity, phase := Opening)
    else Offered(c, applied[c.recv]).(recv := c.recv + 1)
  }

  datatype World = World(journal: seq<JournalEvent>, slot: Slot, walkers: seq<nat>, clients: seq<Client>)

  const START: World := World([], NEW_SLOT, [], [])

  datatype Act =
    | Journalled(e: JournalEvent)
    | Attach
    | Walk(walker: nat)
    | Connect(cursor: nat)
    | ReadBacklog(client: nat)
    | SendBacklog(client: nat)
    | Receive(client: nat)

  function Step(w: World, act: Act, capacity: pos): World {
    match act
    case Journalled(e) =>
      // The journal numbers its events upwards; readers keep the known ones.
      if !e.data.Unknown? && e.seq_ > LastSeq(w.journal) then w.(journal := w.journal + [e]) else w
    case Attach => w.(walkers := w.walkers + [0])
    case Walk(i) =>
      if i < |w.walkers| && w.walkers[i] < |w.journal| then
        w.(slot := Publish(w.slot, w.journal[w.walkers[i]]), walkers := w.walkers[i := w.walkers[i] + 1])
      else w
    case Connect(cursor) => w.(clients := w.clients + [Connected(cursor, w.slot.applied)])
    case ReadBacklog(i) =>
      if i < |w.clients| && w.clients[i].phase.Opening? then
        w.(clients := w.clients[i := w.clients[i].(phase := Backlog(w.journal, 0))])
      else w
    case SendBacklog(i) =>
      if i < |w.clients| then w.(clients := w.clients[i := BacklogStep(w.clients[i])]) else w
    case Receive(i) =>
      if i < |w.clients| then w.(clients := w.clients[i := ReceiveStep(w.clients[i], w.slot.applied, capacity)]) else w
  }

  function Play(w: World, acts: seq<Act>, capacity: pos): World
    decreases |acts|
  {
    if acts == [] then w else Step(Play(w, acts[..|acts| - 1], capacity), acts[|acts| - 1], capacity)
  }

  function Run(acts: seq<Act>, capacity: pos): World { Play(START, acts, capacity) }

  function LastSeq(events: seq<JournalEvent>): nat { if events == [] then 0 else events[|events| - 1].seq_ }

  // ---------------------------------------------------------------------
  // The shared view
  // ---------------------------------------------------------------------

  predicate Wellformed(events: seq<JournalEvent>) {
    Ascending(events) && forall e | e in events :: !e.data.Unknown?
  }

  /** The slot has seen a prefix of the journal, whole, in order and once. */
  ghost predicate SlotOk(s: Slot, journal: seq<JournalEvent>) {
    s.applied <= journal && s.view == Projection.Fold(s.applied) && s.view.lastSeq == LastSeq(s.applied)
  }

  lemma PublishKeeps(s: Slot, journal: seq<JournalEvent>, at: nat)
    requires Wellformed(journal) && SlotOk(s, journal) && at <= |s.applied| && at < |journal|
    ensures SlotOk(Publish(s, journal[at]), journal)
    ensures at + 1 <= |Publish(s, journal[at]).applied|
    ensures s.applied <= Publish(s, journal[at]).applied
  {
    hide Projection.Applied;
    var e, k := journal[at], |s.applied|;
    if at < k {
      assert s.applied[k - 1] == journal[k - 1] && e.seq_ <= journal[k - 1].seq_;
    } else {
      assert k > 0 ==> s.applied[k - 1] == journal[k - 1];
      Projection.FoldSnoc(s.applied, e);
      AppliedSeq(s.view, e);
      assert journal[k] in journal;
    }
  }

  lemma AppliedSeq(v: Projection.View, e: JournalEvent)
    ensures !e.data.Unknown? ==> Projection.Applied(v, e).lastSeq == Projection.Max(v.lastSeq, e.seq_)
  {
    hide Projection.NoteAttempt, Projection.Told, Projection.StatusOf;
  }

  // ---------------------------------------------------------------------
  // A client
  // ---------------------------------------------------------------------

  /** The events with `low < seq <= high`. */
  function Between(events: seq<JournalEvent>, low: nat, high: nat): seq<JournalEvent>
    decreases |events|
  {
    if events == [] then []
    else
      var e := events[|events| - 1];
      var rest := Between(events[..|events| - 1], low, high);
      if low < e.seq_ <= high then rest + [e] else rest
  }

  predicate Covers(last: nat, events: seq<JournalEvent>) { forall e | e in events :: e.seq_ <= last }

  /** What was sent is what lies between the cursor and `last`; everything the
      receiver has read or skipped is covered, or will be read again. */
  ghost predicate ClientOk(c: Client, slot: Slot, journal: seq<JournalEvent>) {
    && c.cursor <= c.last && c.sent == Between(journal, c.cursor, c.last)
    && c.recv <= |slot.applied|
    && (c.phase.Live? ==> Covers(c.last, slot.applied[..c.recv]))
    && (c.phase.Backlog? ==>
          && c.phase.at <= |c.phase.events| && c.phase.events <= journal && c.recv <= |c.phase.events|
          && Covers(c.last, c.phase.events[..c.phase.at]))
    // `last` is the cursor or the number of an event in the journal.
    && (c.last == c.cursor || c.last <= LastSeq(journal))
  }

  lemma {:induction false} BetweenSame(events: seq<JournalEvent>, low: nat, high: nat, higher: nat)
    requires high <= higher && forall e | e in events :: !(high < e.seq_ <= higher) || e.seq_ <= low
    ensures Between(events, low, high) == Between(events, low, higher)
    decreases |events|
  {
    if events != [] {
      assert events[|events| - 1] in events;
      BetweenSame(events[..|events| - 1], low, high, higher);
    }
  }

  lemma {:induction false} BetweenNone(events: seq<JournalEvent>, low: nat, high: nat)
    requires forall e | e in events :: !(low < e.seq_ <= high)
    ensures Between(events, low, high) == []
    decreases |events|
  {
    if events != [] {
      assert events[|events| - 1] in events;
      BetweenNone(events[..|events| - 1], low, high);
    }
  }

  lemma {:induction false} BetweenConcat(a: seq<JournalEvent>, b: seq<JournalEvent>, low: nat, high: nat)
    ensures Between(a + b, low, high) == Between(a, low, high) + Between(b, low, high)
    decreases |b|
  {
    if b == [] {
      assert a + b == a;
    } else {
      assert (a + b)[..|a + b| - 1] == a + b[..|b| - 1];
      BetweenConcat(a, b[..|b| - 1], low, high);
    }
  }

  /** The next event above `last` extends what was sent by exactly one. */
  lemma NextSent(journal: seq<JournalEvent>, k: nat, cursor: nat, last: nat)
    requires Ascending(journal) && k < |journal| && cursor <= last < journal[k].seq_
    requires Covers(last, journal[..k])
    ensures Between(journal, cursor, journal[k].seq_) == Between(journal, cursor, last) + [journal[k]]
  {
    hide Between, Ascending, Covers;
    var before, e, after := journal[..k], journal[k], journal[k + 1..];
    BetweenThree(journal, k, cursor, last);
    BetweenThree(journal, k, cursor, e.seq_);
    CoveredSame(before, cursor, last, e.seq_);
    LaterAbove(journal, k);
    BetweenNone(after, cursor, last);
    BetweenNone(after, cursor, e.seq_);
  }

  lemma LaterAbove(journal: seq<JournalEvent>, k: nat)
    requires Ascending(journal) && k < |journal|
    ensures forall x | x in journal[k + 1..] :: x.seq_ > journal[k].seq_
  {
    forall x | x in journal[k + 1..] ensures x.seq_ > journal[k].seq_ {
      var i :| k < i < |journal| && journal[i] == x;
    }
  }

  lemma CoveredSame(events: seq<JournalEvent>, low: nat, high: nat, higher: nat)
    requires Covers(high, events) && high <= higher
    ensures Between(events, low, high) == Between(events, low, higher)
  {
    hide Between;
    BetweenSame(events, low, high, higher);
  }

  /** What lies before, at and behind the `k`-th event. */
  lemma BetweenThree(journal: seq<JournalEvent>, k: nat, low: nat, high: nat)
    requires k < |journal|
    ensures Between(journal, low, high)
         == Between(journal[..k], low, high) + (if low < journal[k].seq_ <= high then [journal[k]] else [])
            + Between(journal[k + 1..], low, high)
  {
    hide Between;
    var before, e, after := journal[..k], [journal[k]], journal[k + 1..];
    assert journal == before + (e + after);
    BetweenConcat(before, e + after, low, high);
    BetweenConcat(e, after, low, high);
    BetweenOne(journal[k], low, high);
  }

  lemma BetweenOne(e: JournalEvent, low: nat, high: nat)
    ensures Between([e], low, high) == if low < e.seq_ <= high then [e] else []
  {
    assert [e][..0] == [];
  }

  lemma UpToLast(journal: seq<JournalEvent>)
    requires Ascending(journal)
    ensures Covers(LastSeq(journal), journal)
  {
    forall e | e in journal ensures e.seq_ <= LastSeq(journal) {
      var k :| 0 <= k < |journal| && journal[k] == e;
      assert k < |journal| - 1 ==> e.seq_ < journal[|journal| - 1].seq_;
    }
  }

  /** What was sent so far, and where it ends. */
  ghost predicate SentOk(c: Client, journal: seq<JournalEvent>) {
    && c.cursor <= c.last && c.sent == Between(journal, c.cursor, c.last)
    && (c.last == c.cursor || c.last <= LastSeq(journal))
  }

  /** Offering the journal's `k`-th event, all before it covered. */
  lemma OfferKeeps(c: Client, journal: seq<JournalEvent>, k: nat)
    requires Ascending(journal) && SentOk(c, journal) && k < |journal| && Covers(c.last, journal[..k])
    ensures var d := Offered(c, journal[k]); SentOk(d, journal) && Covers(d.last, journal[..k + 1])
  {
    hide Between, Ascending, LastSeq;
    var e := journal[k];
    if e.seq_ > c.last { NextSent(journal, k, c.cursor, c.last); }
    assert journal[..k + 1] == journal[..k] + [e];
    UpToLast(journal);
  }

  lemma BacklogKeeps(c: Client, slot: Slot, journal: seq<JournalEvent>)
    requires Ascending(journal) && slot.applied <= journal && ClientOk(c, slot, journal)
    ensures ClientOk(BacklogStep(c), slot, journal)
  {
    hide Between, Ascending, LastSeq, Covers, Offered;
    if c.phase.Backlog? {
      var events, at := c.phase.events, c.phase.at;
      if at < |events| {
        assert events[..at] == journal[..at] && events[..at + 1] == journal[..at + 1];
        OfferKeeps(c, journal, at);
        OfferedFrame(c, journal[at]);
      } else {
        assert events[..at] == events;
        CoversPart(c.last, events, c.recv);
        assert events[..c.recv] == slot.applied[..c.recv];
      }
    }
  }

  lemma OfferedFrame(c: Client, e: JournalEvent)
    ensures var d := Offered(c, e); d.recv == c.recv && d.cursor == c.cursor && d.phase == c.phase
  {
  }

  lemma CoversPart(last: nat, events: seq<JournalEvent>, k: nat)
    requires Covers(last, events) && k <= |events|
    ensures Covers(last, events[..k])
  {
  }

  lemma ReceiveKeeps(c: Client, slot: Slot, journal: seq<JournalEvent>, capacity: pos)
    requires Ascending(journal) && slot.applied <= journal && ClientOk(c, slot, journal)
    ensures ClientOk(ReceiveStep(c, slot.applied, capacity), slot, journal)
  {
    hide Between, Ascending, LastSeq, Covers, Offered;
    if c.phase.Live? && c.recv < |slot.applied| {
      assert slot.applied[..c.recv] == journal[..c.recv] && slot.applied[..c.recv + 1] == journal[..c.recv + 1];
      if |slot.applied| - c.recv <= capacity {
        OfferKeeps(c, journal, c.recv);
        OfferedFrame(c, journal[c.recv]);
      }
    }
  }

  lemma JournalledKeeps(c: Client, slot: Slot, journal: seq<JournalEvent>, e: JournalEvent)
    requires e.seq_ > LastSeq(journal) && ClientOk(c, slot, journal)
    ensures ClientOk(c, slot, journal + [e])
  {
    hide Covers;
    BetweenConcat(journal, [e], c.cursor, c.last);
    BetweenOne(e, c.cursor, c.last);
  }

  lemma PublishedKeeps(c: Client, slot: Slot, slot': Slot, journal: seq<JournalEvent>)
    requires slot.applied <= slot'.applied && ClientOk(c, slot, journal)
    ensures ClientOk(c, slot', journal)
  {
    hide Between, Covers;
    assert slot.applied[..c.recv] == slot'.applied[..c.recv];
  }

  // ---------------------------------------------------------------------
  // All steps
  // ---------------------------------------------------------------------

  ghost predicate Inv(w: World) {
    && Wellformed(w.journal) && SlotOk(w.slot, w.journal)
    && (forall i | 0 <= i < |w.walkers| :: w.walkers[i] <= |w.slot.applied|)
    && forall i | 0 <= i < |w.clients| :: ClientOk(w.clients[i], w.slot, w.journal)
  }

  lemma StepJournalled(w: World, e: JournalEvent, capacity: pos)
    requires Inv(w)
    ensures Inv(Step(w, Journalled(e), capacity))
  {
    hide ClientOk;
    if !e.data.Unknown? && e.seq_ > LastSeq(w.journal) {
      UpToLast(w.journal);
      forall i | 0 <= i < |w.clients| ensures ClientOk(w.clients[i], w.slot, w.journal + [e]) {
        JournalledKeeps(w.clients[i], w.slot, w.journal, e);
      }
      assert forall i | 0 <= i < |w.journal| :: w.journal[i] in w.journal;
    }
  }

  lemma StepWalk(w: World, i: nat, capacity: pos)
    requires Inv(w)
    ensures Inv(Step(w, Walk(i), capacity))
  {
    hide ClientOk, Wellformed, SlotOk, Publish;
    if i < |w.walkers| && w.walkers[i] < |w.journal| {
      PublishKeeps(w.slot, w.journal, w.walkers[i]);
      var slot := Publish(w.slot, w.journal[w.walkers[i]]);
      forall k | 0 <= k < |w.clients| ensures ClientOk(w.clients[k], slot, w.journal) {
        PublishedKeeps(w.clients[k], w.slot, slot, w.journal);
      }
    }
  }

  lemma StepConnect(w: World, cursor: nat, capacity: pos)
    requires Inv(w)
    ensures Inv(Step(w, Connect(cursor), capacity))
  {
    hide Wellformed, SlotOk;
    BetweenNone(w.journal, cursor, cursor);
  }

  lemma StepClient(w: World, act: Act, capacity: pos)
    requires Inv(w) && (act.ReadBacklog? || act.SendBacklog? || act.Receive?)
    ensures Inv(Step(w, act, capacity))
  {
    hide ClientOk, Publish, BacklogStep, ReceiveStep;
    if act.client < |w.clients| {
      var c := w.clients[act.client];
      BacklogKeeps(c, w.slot, w.journal);
      ReceiveKeeps(c, w.slot, w.journal, capacity);
      ReadKeeps(c, w.slot, w.journal);
    }
  }

  lemma ReadKeeps(c: Client, slot: Slot, journal: seq<JournalEvent>)
    requires slot.applied <= journal && ClientOk(c, slot, journal)
    ensures c.phase.Opening? ==> ClientOk(c.(phase := Backlog(journal, 0)), slot, journal)
  {
  }

  lemma StepAttach(w: World, capacity: pos)
    requires Inv(w)
    ensures Inv(Step(w, Attach, capacity))
  {
    hide ClientOk, SlotOk, Wellformed;
  }

  lemma StepKeeps(w: World, act: Act, capacity: pos)
    requires Inv(w)
    ensures Inv(Step(w, act, capacity))
  {
    hide Inv, Step;
    match act
    case Journalled(e) => StepJournalled(w, e, capacity);
    case Attach => StepAttach(w, capacity);
    case Walk(i) => StepWalk(w, i, capacity);
    case Connect(cursor) => StepConnect(w, cursor, capacity);
    case ReadBacklog(_) => StepClient(w, act, capacity);
    case SendBacklog(_) => StepClient(w, act, capacity);
    case Receive(_) => StepClient(w, act, capacity);
  }

  lemma {:induction false} PlayKeeps(w: World, acts: seq<Act>, capacity: pos)
    requires Inv(w)
    ensures Inv(Play(w, acts, capacity))
    decreases |acts|
  {
    hide Inv, Step;
    if acts != [] {
      PlayKeeps(w, acts[..|acts| - 1], capacity);
      StepKeeps(Play(w, acts[..|acts| - 1], capacity), acts[|acts| - 1], capacity);
    }
  }

  lemma RunKeeps(acts: seq<Act>, capacity: pos)
    ensures Inv(Run(acts, capacity))
  {
    hide Inv, Play;
    StartInv();
    PlayKeeps(START, acts, capacity);
  }

  lemma StartInv()
    ensures Inv(START)
  {
  }

  // ---------------------------------------------------------------------
  // Main results
  // ---------------------------------------------------------------------

  /** MAIN RESULT. However replayers overlap, the shared view is the fold of
      the known events up to its `last_seq`, and the broadcast stream is that
      same sequence. */
  lemma SharedViewIsFold(acts: seq<Act>, capacity: pos)
    ensures var w := Run(acts, capacity);
      && w.slot.applied == Between(w.journal, 0, w.slot.view.lastSeq)
      && w.slot.view == Projection.Fold(Between(w.journal, 0, w.slot.view.lastSeq))
  {
    hide Run, ClientOk, Between;
    RunKeeps(acts, capacity);
    var w := Run(acts, capacity);
    PrefixIsBetween(w.journal, |w.slot.applied|);
  }

  lemma PrefixIsBetween(journal: seq<JournalEvent>, k: nat)
    requires Ascending(journal) && k <= |journal|
    ensures Between(journal, 0, LastSeq(journal[..k])) == journal[..k]
  {
    hide Between, LastSeq;
    var a, b := journal[..k], journal[k..];
    var high := LastSeq(a);
    assert journal == a + b;
    BetweenConcat(a, b, 0, high);
    BetweenAll(a, high);
    AfterPrefix(journal, k);
    BetweenNone(b, 0, high);
  }

  lemma AfterPrefix(journal: seq<JournalEvent>, k: nat)
    requires Ascending(journal) && k <= |journal|
    ensures forall e | e in journal[k..] :: e.seq_ > LastSeq(journal[..k])
  {
    forall e | e in journal[k..] ensures e.seq_ > LastSeq(journal[..k]) {
      var i :| k <= i < |journal| && journal[i] == e;
      assert k > 0 ==> journal[k - 1].seq_ < journal[i].seq_;
    }
  }

  lemma {:induction false} BetweenAll(a: seq<JournalEvent>, high: nat)
    requires Ascending(a) && LastSeq(a) <= high
    ensures Between(a, 0, high) == a
    decreases |a|
  {
    if a != [] {
      var rest := a[..|a| - 1];
      assert rest == [] || rest[|rest| - 1].seq_ < a[|a| - 1].seq_;
      BetweenAll(rest, high);
    }
  }

  /** The events above a cursor. */
  function Above(events: seq<JournalEvent>, cursor: nat): seq<JournalEvent>
    decreases |events|
  {
    if events == [] then []
    else
      var rest := Above(events[..|events| - 1], cursor);
      if events[|events| - 1].seq_ > cursor then rest + [events[|events| - 1]] else rest
  }

  lemma {:induction false} BetweenIsAbove(events: seq<JournalEvent>, low: nat, high: nat)
    requires Covers(high, events)
    ensures Between(events, low, high) == Above(events, low)
    decreases |events|
  {
    if events != [] {
      assert events[|events| - 1] in events;
      BetweenIsAbove(events[..|events| - 1], low, high);
    }
  }

  /** MAIN RESULT. At every moment, across the handover from backlog to live
      and any number of lag reports, a client has been sent exactly the
      journal's events above its cursor up to the last one sent: in order,
      without gap or repeat. Once it has drained a channel that has caught up
      with the journal, it has been sent all of them. */
  lemma ServedExactly(acts: seq<Act>, capacity: pos, i: nat)
    requires i < |Run(acts, capacity).clients|
    ensures var w := Run(acts, capacity); var c := w.clients[i];
      && Wellformed(w.journal)
      && c.sent == Between(w.journal, c.cursor, c.last)
      && (c.phase.Live? && c.recv == |w.slot.applied| == |w.journal| ==> c.sent == Above(w.journal, c.cursor))
  {
    hide Run, Between, Above;
    RunKeeps(acts, capacity);
    var w := Run(acts, capacity);
    var c := w.clients[i];
    assert ClientOk(c, w.slot, w.journal);
    if c.phase.Live? && c.recv == |w.slot.applied| == |w.journal| {
      assert w.slot.applied[..c.recv] == w.journal;
      BetweenIsAbove(w.journal, c.cursor, c.last);
    }
  }

  /** A client that reconnects with the id of the last event it was sent (the
      `Last-Event-ID` of section 9.2.4 of the WHATWG HTML standard) carries on
      exactly there. */
  lemma ReconnectContinues(acts: seq<Act>, capacity: pos, i: nat, j: nat)
    requires i < |Run(acts, capacity).clients| && j < |Run(acts, capacity).clients|
    requires Run(acts, capacity).clients[j].cursor == Run(acts, capacity).clients[i].last
    ensures var w := Run(acts, capacity); var (first, second) := (w.clients[i], w.clients[j]);
      first.sent + second.sent == Between(w.journal, first.cursor, second.last)
  {
    hide Run, Between;
    RunKeeps(acts, capacity);
    var w := Run(acts, capacity);
    var a, b := w.clients[i], w.clients[j];
    assert ClientOk(a, w.slot, w.journal) && ClientOk(b, w.slot, w.journal);
    BetweenJoin(w.journal, a.cursor, a.last, b.last);
  }

  lemma {:induction false} BetweenJoin(events: seq<JournalEvent>, low: nat, middle: nat, high: nat)
    requires Ascending(events) && low <= middle <= high
    ensures Between(events, low, middle) + Between(events, middle, high) == Between(events, low, high)
    decreases |events|
  {
    if events != [] {
      var rest, e := events[..|events| - 1], events[|events| - 1];
      BetweenJoin(rest, low, middle, high);
      if e.seq_ <= middle {
        BetweenNone(rest, middle, high);
      }
    }
  }

  /** `send_backlog` takes an unreadable journal for an empty one. The client
      then loses whatever was journalled above `last`, so it is served
      correctly exactly when there was nothing. */
  lemma UnreadableBacklog(c: Client, journal: seq<JournalEvent>, e: JournalEvent, capacity: pos)
    requires Wellformed(journal + [e]) && SentOk(c, journal) && c.phase.Opening?
    requires c.recv == |journal| && c.last < e.seq_
    ensures var live := BacklogStep(c.(phase := Backlog([], 0)));
      var d := ReceiveStep(live, journal + [e], capacity);
      d.last == e.seq_
      && (d.sent == Between(journal + [e], d.cursor, d.last) <==> Covers(c.last, journal))
  {
    hide Between;
    var all := journal + [e];
    assert all[|journal|] == e && all[..|journal|] == journal;
    BetweenConcat(journal, [e], c.cursor, e.seq_);
    BetweenOne(e, c.cursor, e.seq_);
    AscendingPart(journal, [e]);
    BetweenJoin(journal, c.cursor, c.last, e.seq_);
    AboveLast(journal, c.last, e);
    var gap := Between(journal, c.last, e.seq_);
    assert c.sent + gap + [e] == c.sent + [e] <==> gap == [] by {
      assert |c.sent + gap + [e]| == |c.sent| + |gap| + 1;
    }
  }

  lemma AscendingPart(a: seq<JournalEvent>, b: seq<JournalEvent>)
    requires Ascending(a + b)
    ensures Ascending(a)
  {
    assert forall i | 0 <= i < |a| :: (a + b)[i] == a[i];
  }

  lemma AboveLast(journal: seq<JournalEvent>, last: nat, e: JournalEvent)
    requires Ascending(journal + [e])
    ensures Between(journal, last, e.seq_) == [] <==> Covers(last, journal)
  {
    hide Between;
    var all := journal + [e];
    assert all[|journal|] == e;
    assert forall i | 0 <= i < |journal| :: all[i] == journal[i];
    forall x | x in journal ensures x.seq_ <= e.seq_ {
      var i :| 0 <= i < |journal| && journal[i] == x;
      assert all[i].seq_ < all[|journal|].seq_;
    }
    if Covers(last, journal) {
      BetweenNone(journal, last, e.seq_);
    } else {
      var x :| x in journal && x.seq_ > last;
      BetweenHas(journal, last, e.seq_, x);
    }
  }

  lemma {:induction false} BetweenHas(events: seq<JournalEvent>, low: nat, high: nat, e: JournalEvent)
    requires e in events && low < e.seq_ <= high
    ensures e in Between(events, low, high)
    decreases |events|
  {
    var rest := events[..|events| - 1];
    if events[|events| - 1] != e {
      assert events == rest + [events[|events| - 1]];
      BetweenHas(rest, low, high, e);
    }
  }

  /** What a client was not sent by the time `last` passed it. */
  ghost predicate Skipped(w: World, i: nat, e: JournalEvent) {
    i < |w.clients| && e.seq_ <= w.clients[i].last && e !in w.clients[i].sent
  }

  /** MAIN RESULT. An event once skipped is never sent, whatever the Monitor
      does afterwards. */
  lemma {:induction false} SkippedForGood(w: World, acts: seq<Act>, capacity: pos, i: nat, e: JournalEvent)
    requires Skipped(w, i, e)
    ensures Skipped(Play(w, acts, capacity), i, e)
    decreases |acts|
  {
    hide Step, Skipped;
    if acts != [] {
      SkippedForGood(w, acts[..|acts| - 1], capacity, i, e);
      SkippedStep(Play(w, acts[..|acts| - 1], capacity), acts[|acts| - 1], capacity, i, e);
    }
  }

  lemma SkippedStep(w: World, act: Act, capacity: pos, i: nat, e: JournalEvent)
    requires Skipped(w, i, e)
    ensures Skipped(Step(w, act, capacity), i, e)
  {
    hide Publish;
  }

  lemma {:induction false} BetweenMembers(events: seq<JournalEvent>, low: nat, high: nat)
    ensures forall e | e in Between(events, low, high) :: e in events && low < e.seq_ <= high
    decreases |events|
  {
    if events != [] {
      BetweenMembers(events[..|events| - 1], low, high);
      assert events == events[..|events| - 1] + [events[|events| - 1]];
    }
  }

  /** The world in which client `i` found the journal unreadable. */
  function Unread(w: World, i: nat): World
    requires i < |w.clients|
  {
    w.(clients := w.clients[i := w.clients[i].(phase := Backlog([], 0))])
  }

  /** MAIN RESULT. A client that found the journal unreadable and then receives
      a later event never gets the one it missed, whatever happens next. */
  lemma UnreadableLosesForGood(w: World, i: nat, e: JournalEvent, acts: seq<Act>, capacity: pos)
    requires Inv(w) && i < |w.clients| && w.clients[i].phase.Opening?
    requires var c := w.clients[i];
      c.last < e.seq_ && c.recv < |w.slot.applied| <= c.recv + capacity && e.seq_ < w.slot.applied[c.recv].seq_
    ensures Skipped(Play(Step(Step(Unread(w, i), SendBacklog(i), capacity), Receive(i), capacity), acts, capacity), i, e)
  {
    hide Inv, Between, Play;
    var c := w.clients[i];
    assert ClientOk(c, w.slot, w.journal) by { InvClient(w, i); }
    BetweenMembers(w.journal, c.cursor, c.last);
    SkippedForGood(Step(Step(Unread(w, i), SendBacklog(i), capacity), Receive(i), capacity), acts, capacity, i, e);
  }

  lemma InvClient(w: World, i: nat)
    requires Inv(w) && i < |w.clients|
    ensures ClientOk(w.clients[i], w.slot, w.journal)
  {
  }

  lemma PlaySnoc(w: World, acts: seq<Act>, act: Act, capacity: pos)
    ensures Play(w, acts + [act], capacity) == Step(Play(w, acts, capacity), act, capacity)
  {
    hide Step;
    assert (acts + [act])[..|acts|] == acts;
  }

  function Ended(n: nat): JournalEvent { JournalEvent(n, 0, 1, PipelineCompleted) }

  /** One event journalled, replayed and published, a client, one more event. */
  const LATE_CLIENT: seq<Act> := [Journalled(Ended(1)), Attach, Walk(0), Connect(0), Journalled(Ended(2)), Walk(0)]

  lemma LateClientWorld(capacity: pos)
    ensures Run(LATE_CLIENT, capacity).journal == [Ended(1), Ended(2)]
    ensures Run(LATE_CLIENT, capacity).slot.applied == [Ended(1), Ended(2)]
    ensures Run(LATE_CLIENT, capacity).clients == [Client(0, 0, 1, Opening, [])]
  {
    hide Play, Step, Publish;
    PlaySix(LATE_CLIENT, capacity);
    FirstPublished(capacity);
    SecondPublished(Publish(NEW_SLOT, Ended(1)), capacity);
  }

  lemma FirstPublished(capacity: pos)
    ensures var slot := Publish(NEW_SLOT, Ended(1));
      && slot.applied == [Ended(1)] && slot.view.lastSeq == 1
      && Step(Step(Step(START, Journalled(Ended(1)), capacity), Attach, capacity), Walk(0), capacity)
         == World([Ended(1)], slot, [1], [])
  {
    hide Projection.Applied;
    AppliedSeq(Projection.NO_VIEW, Ended(1));
  }

  lemma SecondPublished(slot: Slot, capacity: pos)
    requires slot.applied == [Ended(1)] && slot.view.lastSeq == 1
    ensures var w := World([Ended(1)], slot, [1], []);
      var w' := Step(Step(Step(w, Connect(0), capacity), Journalled(Ended(2)), capacity), Walk(0), capacity);
      && w'.journal == [Ended(1), Ended(2)] && w'.slot.applied == [Ended(1), Ended(2)]
      && w'.clients == [Client(0, 0, 1, Opening, [])]
  {
    hide Projection.Applied;
  }

  lemma PlaySix(a: seq<Act>, capacity: pos)
    requires |a| == 6
    ensures Run(a, capacity)
         == Step(Step(Step(Step(Step(Step(START, a[0], capacity), a[1], capacity), a[2], capacity), a[3], capacity),
                      a[4], capacity), a[5], capacity)
  {
    hide Play, Step;
    assert a == [] + [a[0]] + [a[1]] + [a[2]] + [a[3]] + [a[4]] + [a[5]];
    PlaySnoc(START, [], a[0], capacity);
    PlaySnoc(START, [] + [a[0]], a[1], capacity);
    PlaySnoc(START, [] + [a[0]] + [a[1]], a[2], capacity);
    PlaySnoc(START, [] + [a[0]] + [a[1]] + [a[2]], a[3], capacity);
    PlaySnoc(START, [] + [a[0]] + [a[1]] + [a[2]] + [a[3]], a[4], capacity);
    PlaySnoc(START, [] + [a[0]] + [a[1]] + [a[2]] + [a[3]] + [a[4]], a[5], capacity);
    PlayNothing(capacity);
  }

  lemma PlayNothing(capacity: pos)
    ensures Play(START, [], capacity) == START
  {
  }

  /** Such a client, finding the journal unreadable, loses the first event. */
  lemma LossCanHappen(capacity: pos, acts: seq<Act>)
    ensures var w := Run(LATE_CLIENT, capacity);
      && w.clients == [Client(0, 0, 1, Opening, [])] && Ended(1) in w.journal
      && Skipped(Play(Step(Step(Unread(w, 0), SendBacklog(0), capacity), Receive(0), capacity), acts, capacity), 0, Ended(1))
  {
    hide Run, Play, Step, Unread, Skipped;
    LateClientWorld(capacity);
    RunKeeps(LATE_CLIENT, capacity);
    UnreadableLosesForGood(Run(LATE_CLIENT, capacity), 0, Ended(1), acts, capacity);
  }
}
