/** The journal's side of the Monitor's assumptions: what the readers of a live
    journal hand to the Monitor is what its state machine takes in. */
module MonitorJournal {
  import opened Wrappers
  import opened JournalEvents
  import JournalFile
  import JournalTail
  import JournalWriter
  import Monitor

  lemma NumberedAscending(events: seq<JournalEvent>)
    requires forall i | 0 <= i < |events| :: events[i].seq_ == i + 1
    ensures Ascending(events)
  {
  }

  lemma {:induction false} KnownPrefix(events: seq<JournalEvent>, part: seq<JournalEvent>)
    requires part <= events
    ensures Known(part) <= Known(events)
  {
    assert events == part + events[|part|..];
    KnownConcat(part, events[|part|..]);
  }

  /** MAIN RESULT. At any moment the known events of a live journal are well
      formed for the Monitor, what a tail has handed on is a prefix of them,
      and a later look at the journal only adds to them. */
  lemma TailFeedsMonitor(c: JournalFile.Codec, labels: seq<JournalTail.Label>, act: JournalTail.Label)
    requires JournalFile.Good(c)
    ensures var (w, w') := (JournalTail.Play(c, JournalTail.START, labels),
                            JournalTail.Act(c, JournalTail.Play(c, JournalTail.START, labels), act));
      && Monitor.Wellformed(Known(JournalFile.Events(c, w.j.bytes)))
      && JournalTail.Received(c, w) <= Known(JournalFile.Events(c, w.j.bytes))
      && Known(JournalFile.Events(c, w.j.bytes)) <= Known(JournalFile.Events(c, w'.j.bytes))
  {
    hide JournalTail.Play, JournalFile.Decode, JournalFile.Lines, JournalFile.Run, JournalFile.CompleteLen, JournalFile.Step,
         JournalTail.Act, Known;
    var w := JournalTail.Play(c, JournalTail.START, labels);
    JournalTail.TailExactlyOnce(c, labels);
    JournalTail.PlayJournal(c, labels);
    JournalFile.JournalNumbering(c, JournalTail.Ops(labels));
    var events := JournalFile.Events(c, w.j.bytes);
    NumberedAscending(events);
    KnownAscending(events);
    KnownMembers(events);
    KnownPrefix(events, JournalFile.Events(c, w.j.bytes[..w.r.committed]));
    JournalTail.PlaySnoc(c, JournalTail.START, labels, act);
    JournalTail.PlayJournal(c, labels + [act]);
    JournalFile.JournalNumbering(c, JournalTail.Ops(labels + [act]));
    AckedGrows(c, w, act);
    KnownPrefix(JournalTail.Act(c, w, act).j.whole, w.j.whole);
  }

  lemma AckedGrows(c: JournalFile.Codec, w: JournalTail.World, act: JournalTail.Label)
    ensures w.j.whole <= JournalTail.Act(c, w, act).j.whole
  {
    hide JournalFile.CompleteLen, JournalFile.MaxSeq, JournalFile.Lines, JournalTail.NonBlank;
  }

  predicate AllReadable(c: JournalFile.Codec, bytes: seq<JournalFile.byte>) {
    forall line | line in JournalFile.Lines(bytes) :: JournalWriter.Readable(c, line)
  }

  /** What `send_backlog` makes of the file: its known events, or none at all
      when a line does not decode. */
  function BacklogOf(c: JournalFile.Codec, bytes: seq<JournalFile.byte>): seq<JournalEvent> {
    if AllReadable(c, bytes) then Known(JournalFile.Events(c, bytes)) else []
  }

  method BacklogEvents(c: JournalFile.Codec, bytes: seq<JournalFile.byte>) returns (events: seq<JournalEvent>)
    ensures events == BacklogOf(c, bytes)
  {
    var read := JournalWriter.ReadAllRaw(c, bytes);
    if read.Invalid? {
      assert JournalFile.Lines(bytes)[read.line - 1] in JournalFile.Lines(bytes);
      return [];
    }
    events := [];
    var i := 0;
    while i < |read.events|
      invariant i <= |read.events| && events == Known(read.events[..i])
    {
      KnownConcat(read.events[..i], [read.events[i]]);
      assert read.events[..i + 1] == read.events[..i] + [read.events[i]];
      assert [read.events[i]][1..] == [];
      if !read.events[i].data.Unknown? {
        events := events + [read.events[i]];
      }
      i := i + 1;
    }
    assert read.events[..i] == read.events;
  }

  /** Client `i` has read the file and starts on its backlog. */
  function WithFile(w: Monitor.World, i: nat, c: JournalFile.Codec, bytes: seq<JournalFile.byte>): Monitor.World
    requires i < |w.clients|
  {
    w.(clients := w.clients[i := w.clients[i].(phase := Monitor.Backlog(BacklogOf(c, bytes), 0))])
  }

  /** A readable file that holds the machine's journal is the machine's step;
      a file with an undecodable line is the journal found unreadable. */
  lemma WithFileIs(w: Monitor.World, i: nat, c: JournalFile.Codec, bytes: seq<JournalFile.byte>, capacity: pos)
    requires i < |w.clients| && w.clients[i].phase.Opening?
    ensures AllReadable(c, bytes) && Known(JournalFile.Events(c, bytes)) == w.journal ==>
              WithFile(w, i, c, bytes) == Monitor.Step(w, Monitor.ReadBacklog(i), capacity)
    ensures !AllReadable(c, bytes) ==> WithFile(w, i, c, bytes) == Monitor.Unread(w, i)
  {
  }
}
