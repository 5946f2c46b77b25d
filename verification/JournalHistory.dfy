/** What a history of the writing side leaves in the file, told by the history
    alone: which appends count, under which Attempt, and what is torn
    (crates/attractor-journal/src/writer.rs:50-107). */
module JournalHistory {
  import opened JournalEvents
  import opened JournalFile

  /** A writer lives from an open to the next death. */
  predicate Alive(ops: seq<Op>)
    decreases |ops|
  {
    if ops == [] then false
    else match ops[|ops| - 1]
      case Open(_) => true
      case Die => false
      case Tear(_, _, _) => false
      case _ => Alive(ops[..|ops| - 1])
  }

  /** The Attempt of the last open that found no live writer. */
  function AttemptAt(ops: seq<Op>): nat
    decreases |ops|
  {
    if ops == [] then 0
    else
      var before, last := ops[..|ops| - 1], ops[|ops| - 1];
      if last.Open? && !Alive(before) then last.attempt else AttemptAt(before)
  }

  /** The appends that a live writer made, by their place in the history. */
  function Appends(ops: seq<Op>): seq<nat>
    decreases |ops|
  {
    if ops == [] then []
    else
      var n := |ops| - 1;
      if ops[n].Append? && Alive(ops[..n]) then Appends(ops[..n]) + [n] else Appends(ops[..n])
  }

  /** What lies behind the last complete line: nothing, or the part of its
      line that the last dying writer got out. */
  function Tail(c: Codec, ops: seq<Op>): seq<byte>
    decreases |ops|
  {
    if ops == [] then []
    else
      var before, last := ops[..|ops| - 1], ops[|ops| - 1];
      match last
      case Open(_) => []
      case Tear(ts, data, written) =>
        if Alive(before)
        then ProperPart(c.enc(JournalEvent(|Appends(before)| + 1, ts, AttemptAt(before), data)) + [NEWLINE], written)
        else Tail(c, before)
      case _ => Tail(c, before)
  }

  function ProperPart(line: seq<byte>, written: nat): (part: seq<byte>)
    requires line != []
    ensures part < line && |part| == (if written < |line| then written else |line| - 1)
  {
    line[..if written < |line| then written else |line| - 1]
  }

  function Text(c: Codec, events: seq<JournalEvent>): seq<byte>
    decreases |events|
  {
    if events == [] then []
    else Text(c, events[..|events| - 1]) + (c.enc(events[|events| - 1]) + [NEWLINE])
  }

  /** The k-th event of the file is the k-th append. */
  predicate EventIs(e: JournalEvent, ops: seq<Op>, k: nat, i: nat) {
    && i < |ops| && ops[i].Append?
    && e.seq_ == k + 1 && e.ts == ops[i].ts && e.attempt == AttemptAt(ops[..i]) && e.data == ops[i].data
  }

  ghost predicate WholeIs(whole: seq<JournalEvent>, ops: seq<Op>) {
    && |whole| == |Appends(ops)|
    && forall k | 0 <= k < |whole| :: EventIs(whole[k], ops, k, Appends(ops)[k])
  }

  ghost predicate Told(c: Codec, j: Journal, ops: seq<Op>) {
    && (j.next.Some? <==> Alive(ops))
    && j.attempt == AttemptAt(ops)
    && WholeIs(j.whole, ops)
    && j.bytes == Text(c, j.whole) + Tail(c, ops)
    && (Alive(ops) ==> Tail(c, ops) == [])
  }

  // ---------------------------------------------------------------------
  // Proof
  // ---------------------------------------------------------------------

  lemma {:induction false} RunSnoc(c: Codec, j: Journal, ops: seq<Op>)
    requires ops != []
    ensures Run(c, j, ops) == Step(c, Run(c, j, ops[..|ops| - 1]), ops[|ops| - 1])
    decreases |ops|
  {
    hide Step;
    if |ops| == 1 {
      assert ops[1..] == [] && ops[..0] == [];
    } else {
      assert ops[1..][..|ops| - 2] == ops[..|ops| - 1][1..];
      RunSnoc(c, Step(c, j, ops[0]), ops[1..]);
    }
  }

  /** The same appends, seen from a longer history. */
  lemma WholeStays(whole: seq<JournalEvent>, ops: seq<Op>)
    requires ops != [] && WholeIs(whole, ops[..|ops| - 1]) && Appends(ops) == Appends(ops[..|ops| - 1])
    ensures WholeIs(whole, ops)
  {
    hide Alive, AttemptAt, Appends;
    var before := ops[..|ops| - 1];
    forall k | 0 <= k < |whole| ensures EventIs(whole[k], ops, k, Appends(ops)[k]) {
      EventStays(whole[k], ops, k, Appends(before)[k]);
    }
  }

  lemma EventStays(e: JournalEvent, ops: seq<Op>, k: nat, i: nat)
    requires ops != [] && EventIs(e, ops[..|ops| - 1], k, i)
    ensures EventIs(e, ops, k, i)
  {
    hide AttemptAt;
    assert ops[..|ops| - 1][..i] == ops[..i];
  }

  lemma WholeGrows(whole: seq<JournalEvent>, ops: seq<Op>, e: JournalEvent)
    requires ops != [] && WholeIs(whole, ops[..|ops| - 1])
    requires ops[|ops| - 1].Append? && Alive(ops[..|ops| - 1])
    requires EventIs(e, ops, |whole|, |ops| - 1)
    ensures WholeIs(whole + [e], ops)
  {
    hide AttemptAt, Alive, EventIs;
    var before := ops[..|ops| - 1];
    forall k | 0 <= k < |whole| ensures EventIs((whole + [e])[k], ops, k, Appends(ops)[k]) {
      EventStays(whole[k], ops, k, Appends(before)[k]);
    }
  }

  lemma AppendTold(c: Codec, j: Journal, ops: seq<Op>)
    requires ops != [] && Told(c, j, ops[..|ops| - 1]) && ops[|ops| - 1].Append?
    requires j.next.Some? ==> j.next.value == |j.whole| + 1
    ensures Told(c, Step(c, j, ops[|ops| - 1]), ops)
  {
    hide WholeIs;
    var n := |ops| - 1;
    if j.next.Some? {
      var e := NextEvent(j, ops[n].ts, ops[n].data);
      WholeGrows(j.whole, ops, e);
      assert (j.whole + [e])[..|j.whole|] == j.whole;
      assert Text(c, j.whole) + [] == Text(c, j.whole);
    } else {
      WholeStays(j.whole, ops);
    }
  }

  lemma OpenTold(c: Codec, j: Journal, ops: seq<Op>)
    requires ops != [] && Told(c, j, ops[..|ops| - 1]) && ops[|ops| - 1].Open?
    requires j.bytes[..CompleteLen(j.bytes)] == Text(c, j.whole)
    ensures Told(c, Step(c, j, ops[|ops| - 1]), ops)
  {
    hide WholeIs, CompleteLen, MaxSeq, Lines;
    WholeStays(j.whole, ops);
  }

  lemma TearTold(c: Codec, j: Journal, ops: seq<Op>)
    requires ops != [] && Told(c, j, ops[..|ops| - 1]) && ops[|ops| - 1].Tear?
    requires j.next.Some? ==> j.next.value == |j.whole| + 1
    ensures Told(c, Step(c, j, ops[|ops| - 1]), ops)
  {
    hide Text;
    WholeStays(j.whole, ops);
  }

  lemma OtherTold(c: Codec, j: Journal, ops: seq<Op>)
    requires ops != [] && Told(c, j, ops[..|ops| - 1]) && (ops[|ops| - 1].Die? || ops[|ops| - 1].FailAppend?)
    ensures Told(c, Step(c, j, ops[|ops| - 1]), ops)
  {
    hide Text;
    WholeStays(j.whole, ops);
  }

  lemma TextEnds(c: Codec, events: seq<JournalEvent>)
    ensures Boundary(Text(c, events), |Text(c, events)|)
  {
  }

  lemma {:induction false} TailHasNoNewline(c: Codec, ops: seq<Op>)
    requires Good(c)
    ensures NEWLINE !in Tail(c, ops)
    decreases |ops|
  {
    hide Alive, Appends, AttemptAt;
    if ops != [] {
      var before, last := ops[..|ops| - 1], ops[|ops| - 1];
      TailHasNoNewline(c, before);
      if last.Tear? && Alive(before) {
        var e := JournalEvent(|Appends(before)| + 1, last.ts, AttemptAt(before), last.data);
        assert GoodAt(c, e);
        var part := ProperPart(c.enc(e) + [NEWLINE], last.written);
        assert part == c.enc(e)[..|part|];
      }
    }
  }

  lemma CutIsText(c: Codec, j: Journal, ops: seq<Op>)
    requires Good(c) && Told(c, j, ops)
    ensures j.bytes[..CompleteLen(j.bytes)] == Text(c, j.whole)
  {
    hide Alive, AttemptAt, WholeIs, CompleteLen, Text, Tail;
    TextEnds(c, j.whole);
    TailHasNoNewline(c, ops);
    CompleteLenIs(j.bytes, |Text(c, j.whole)|);
  }

  lemma {:induction false} HistoryTold(c: Codec, ops: seq<Op>)
    requires Good(c)
    ensures Told(c, Run(c, EMPTY, ops), ops)
    decreases |ops|
  {
    hide Told, Step, Run;
    if ops == [] {
      NothingTold(c);
    } else {
      var before, last := ops[..|ops| - 1], ops[|ops| - 1];
      var j := Run(c, EMPTY, before);
      HistoryTold(c, before);
      RunSnoc(c, EMPTY, ops);
      NextNumber(c, before);
      CutIsText(c, j, before);
      match last
      case Open(_) => OpenTold(c, j, ops);
      case Append(_, _) => AppendTold(c, j, ops);
      case Tear(_, _, _) => TearTold(c, j, ops);
      case _ => OtherTold(c, j, ops);
    }
  }

  lemma NothingTold(c: Codec)
    ensures Told(c, Run(c, EMPTY, []), [])
  {
  }

  lemma NextNumber(c: Codec, ops: seq<Op>)
    requires Good(c)
    ensures var j := Run(c, EMPTY, ops); j.next.Some? ==> j.next.value == |j.whole| + 1
  {
    hide Step, Run;
    EmptyInv(c);
    RunKeeps(c, EMPTY, ops);
  }

  /** MAIN RESULT. For every history: the events that readers of the file see
      are, in order, exactly the appends of live writers, each with the time
      and data given to it, under the Attempt of the open that made its
      writer, numbered from 1. */
  lemma FileIsHistory(c: Codec, ops: seq<Op>)
    requires Good(c)
    ensures var events := Events(c, Run(c, EMPTY, ops).bytes);
      && |events| == |Appends(ops)|
      && forall k | 0 <= k < |events| :: EventIs(events[k], ops, k, Appends(ops)[k])
  {
    hide Events, Run, Alive, AttemptAt, Appends, EventIs;
    HistoryTold(c, ops);
    JournalNumbering(c, ops);
  }

  /** And the bytes of the file are those events, one line each, and behind
      them at most the part that the last writer to die while writing got out;
      the next open cuts that part off. */
  lemma BytesAreHistory(c: Codec, ops: seq<Op>)
    requires Good(c)
    ensures var bytes := Run(c, EMPTY, ops).bytes;
      bytes == Text(c, Events(c, bytes)) + Tail(c, ops)
  {
    hide Events, Run, Alive, AttemptAt, Appends, WholeIs, Text, Tail;
    HistoryTold(c, ops);
    JournalNumbering(c, ops);
  }
}
