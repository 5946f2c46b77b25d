/** What one client is sent, counted from its own steps: by reading the backlog
    to its end, by following the channel, and when the channel has dropped
    events (crates/attractor-monitor/src/sse.rs:73-133). */
module MonitorDelivery {
  import opened Wrappers
  import opened JournalEvents
  import opened Monitor

  /** `k` steps of sending the backlog, and nothing else. */
  function Sends(c: Client, k: nat): Client
    decreases k
  {
    if k == 0 then c else Sends(BacklogStep(c), k - 1)
  }

  /** `k` receives from a channel that stays as it is. */
  function Receives(c: Client, applied: seq<JournalEvent>, capacity: pos, k: nat): Client
    decreases k
  {
    if k == 0 then c else Receives(ReceiveStep(c, applied, capacity), applied, capacity, k - 1)
  }

  lemma {:induction false} AboveConcat(a: seq<JournalEvent>, b: seq<JournalEvent>, cursor: nat)
    ensures Above(a + b, cursor) == Above(a, cursor) + Above(b, cursor)
    decreases |b|
  {
    if b == [] {
      assert a + b == a;
    } else {
      assert (a + b)[..|a + b| - 1] == a + b[..|b| - 1];
      AboveConcat(a, b[..|b| - 1], cursor);
    }
  }

  lemma {:induction false} AllAbove(events: seq<JournalEvent>, cursor: nat)
    requires forall e | e in events :: e.seq_ > cursor
    ensures Above(events, cursor) == events
    decreases |events|
  {
    if events != [] {
      AllAbove(events[..|events| - 1], cursor);
      assert events[|events| - 1] in events;
    }
  }

  /** The first of the remaining events is sent exactly when it is above
      `last`; then all after it are. */
  lemma AboveFirst(events: seq<JournalEvent>, k: nat, last: nat)
    requires Ascending(events) && k < |events|
    ensures var e := events[k];
      Above(events[k..], last) == if e.seq_ > last then [e] + Above(events[k + 1..], e.seq_) else Above(events[k + 1..], last)
  {
    hide Above;
    var e, rest := events[k], events[k + 1..];
    assert events[k..] == [e] + rest;
    AboveConcat([e], rest, last);
    LaterAbove(events, k);
    if e.seq_ > last {
      AllAbove(rest, last);
      AllAbove(rest, e.seq_);
      AllAbove([e], last);
    } else {
      AboveOne(e, last);
    }
  }

  lemma AboveOne(e: JournalEvent, last: nat)
    ensures e.seq_ <= last ==> Above([e], last) == []
  {
    assert [e][..0] == [];
  }

  /** MAIN RESULT. One step for each event left and one more end the backlog:
      the client is live, its place in the channel is as before, and it has
      been sent exactly those events above `last`. */
  lemma {:induction false} BacklogDelivers(c: Client, events: seq<JournalEvent>, at: nat)
    requires c.phase == Backlog(events, at) && at <= |events| && Ascending(events)
    ensures var d := Sends(c, |events| - at + 1);
      d.phase.Live? && d.recv == c.recv && d.cursor == c.cursor && d.sent == c.sent + Above(events[at..], c.last)
    decreases |events| - at
  {
    hide Above, Ascending;
    if at == |events| {
      NothingAbove(events, c.last);
      SendsOne(c);
    } else {
      var d := BacklogStep(c);
      BacklogDelivers(d, events, at + 1);
      AboveFirst(events, at, c.last);
    }
  }

  lemma NothingAbove(events: seq<JournalEvent>, last: nat)
    ensures Above(events[|events|..], last) == []
  {
  }

  lemma SendsOne(c: Client)
    ensures Sends(c, 1) == BacklogStep(c)
  {
    assert Sends(BacklogStep(c), 0) == BacklogStep(c);
  }

  /** The first of `k` waiting events, and the others. */
  lemma WaitingFirst(applied: seq<JournalEvent>, at: nat, k: nat, last: nat)
    requires Ascending(applied) && 0 < k <= |applied| - at
    ensures var e := applied[at];
      Above(applied[at..at + k], last)
      == if e.seq_ > last then [e] + Above(applied[at + 1..at + k], e.seq_) else Above(applied[at + 1..at + k], last)
  {
    hide Above, Ascending;
    var window := applied[..at + k];
    assert window + applied[at + k..] == applied;
    AscendingPart(window, applied[at + k..]);
    assert window[at..] == applied[at..at + k] && window[at + 1..] == applied[at + 1..at + k];
    AboveFirst(window, at, last);
  }

  /** A live client that is no more than `capacity` behind receives every event
      that is waiting, without reading the backlog again. */
  lemma {:induction false} ChannelDelivers(c: Client, applied: seq<JournalEvent>, capacity: pos, k: nat)
    requires c.phase.Live? && Ascending(applied) && k <= |applied| - c.recv <= capacity
    ensures var d := Receives(c, applied, capacity, k);
      d.phase.Live? && d.recv == c.recv + k && d.cursor == c.cursor
      && d.sent == c.sent + Above(applied[c.recv..c.recv + k], c.last)
    decreases k
  {
    hide Above, Ascending;
    if k == 0 {
      NothingAbove(applied[..c.recv], c.last);
      assert applied[..c.recv][c.recv..] == applied[c.recv..c.recv];
    } else {
      ChannelDelivers(ReceiveStep(c, applied, capacity), applied, capacity, k - 1);
      WaitingFirst(applied, c.recv, k, c.last);
    }
  }

  /** The channel keeps the last `capacity` events. A receive is told that it
      lagged exactly when the event it waits for is no longer among them: then
      nothing is sent, the oldest event kept is next, and the backlog is read
      again. */
  lemma LagIsExact(c: Client, applied: seq<JournalEvent>, capacity: pos)
    requires c.phase.Live? && c.recv < |applied|
    ensures var d := ReceiveStep(c, applied, capacity); var kept := if |applied| <= capacity then 0 else |applied| - capacity;
      && (d.phase.Opening? <==> c.recv < kept)
      && (d.phase.Opening? ==> d.recv == kept && d.sent == c.sent && d.last == c.last)
      && (d.phase.Live? <==> kept <= c.recv)
      && (d.phase.Live? ==> d.recv == c.recv + 1)
  {
  }
}
