/** The bytes of `events.jsonl`: lines, torn tails, and the one writer
    (crates/attractor-journal/src/writer.rs). */
module JournalFile {
  import opened Wrappers
  import opened JournalEvents

  type byte = b: int | 0 <= b < 256

  const NEWLINE: byte := 10

  predicate IsSpaceByte(b: byte) { b == 32 || 9 <= b <= 10 || b == 12 || b == 13 }

  /** A line that readers skip. */
  predicate Blank(line: seq<byte>) { forall b | b in line :: IsSpaceByte(b) }

  // ---------------------------------------------------------------------
  // Lines
  // ---------------------------------------------------------------------

  /** Length of the prefix that ends with the last newline. */
  function CompleteLen(bytes: seq<byte>): (n: nat)
    ensures n <= |bytes|
    ensures n > 0 ==> bytes[n - 1] == NEWLINE
    ensures forall i | n <= i < |bytes| :: bytes[i] != NEWLINE
  {
    if bytes == [] then 0
    else if bytes[|bytes| - 1] == NEWLINE then |bytes|
    else CompleteLen(bytes[..|bytes| - 1])
  }

  /** The lines that end with a newline, without it. */
  function Lines(bytes: seq<byte>): seq<seq<byte>> {
    LinesFrom([], bytes)
  }

  function LinesFrom(open: seq<byte>, bytes: seq<byte>): seq<seq<byte>>
    decreases |bytes|
  {
    if bytes == [] then []
    else if bytes[0] == NEWLINE then [open] + LinesFrom([], bytes[1..])
    else LinesFrom(open + [bytes[0]], bytes[1..])
  }

  /** A place in the file where a line starts. */
  predicate Boundary(bytes: seq<byte>, at: nat) {
    at <= |bytes| && (at > 0 ==> bytes[at - 1] == NEWLINE)
  }

  lemma {:induction false} LinesFromConcat(open: seq<byte>, a: seq<byte>, b: seq<byte>)
    requires a != [] && a[|a| - 1] == NEWLINE
    ensures LinesFrom(open, a + b) == LinesFrom(open, a) + LinesFrom([], b)
    decreases |a|
  {
    assert (a + b)[1..] == a[1..] + b;
    if |a| == 1 {
      assert a[1..] + b == b && LinesFrom([], a[1..]) == [];
    } else if a[0] == NEWLINE {
      LinesFromConcat([], a[1..], b);
      assert [open] + (LinesFrom([], a[1..]) + LinesFrom([], b)) == [open] + LinesFrom([], a[1..]) + LinesFrom([], b);
    } else {
      LinesFromConcat(open + [a[0]], a[1..], b);
    }
  }

  /** Lines split at a boundary. */
  lemma LinesConcat(a: seq<byte>, b: seq<byte>)
    requires Boundary(a, |a|)
    ensures Lines(a + b) == Lines(a) + Lines(b)
  {
    if a == [] {
      assert a + b == b;
    } else {
      LinesFromConcat([], a, b);
    }
  }

  lemma {:induction false} OneLineFrom(open: seq<byte>, line: seq<byte>)
    requires NEWLINE !in line
    ensures LinesFrom(open, line + [NEWLINE]) == [open + line] && LinesFrom(open, line) == []
    decreases |line|
  {
    if line == [] {
      assert line + [NEWLINE] == [NEWLINE] && open + line == open;
      assert LinesFrom([], [NEWLINE][1..]) == [];
    } else {
      assert (line + [NEWLINE])[1..] == line[1..] + [NEWLINE];
      assert open + line == open + [line[0]] + line[1..];
      OneLineFrom(open + [line[0]], line[1..]);
    }
  }

  lemma OneLine(line: seq<byte>)
    requires NEWLINE !in line
    ensures Lines(line + [NEWLINE]) == [line] && Lines(line) == []
  {
    OneLineFrom([], line);
    assert [] + line == line;
  }

  /** The complete prefix is determined by where the last newline is. */
  lemma CompleteLenIs(bytes: seq<byte>, n: nat)
    requires n <= |bytes| && (n > 0 ==> bytes[n - 1] == NEWLINE)
    requires forall i | n <= i < |bytes| :: bytes[i] != NEWLINE
    ensures CompleteLen(bytes) == n
  {
  }

  /** A newline puts everything up to it into the complete prefix. */
  lemma NewlineIsComplete(bytes: seq<byte>, i: nat)
    requires i < |bytes| && bytes[i] == NEWLINE
    ensures i < CompleteLen(bytes)
  {
  }

  lemma CompletePrefix(bytes: seq<byte>)
    ensures var n := CompleteLen(bytes);
      Boundary(bytes[..n], n) && Lines(bytes) == Lines(bytes[..n])
  {
    var n := CompleteLen(bytes);
    assert bytes == bytes[..n] + bytes[n..];
    LinesConcat(bytes[..n], bytes[n..]);
    assert NEWLINE !in bytes[n..];
    OneLine(bytes[n..]);
    assert Lines(bytes[..n]) + [] == Lines(bytes[..n]);
  }

  // ---------------------------------------------------------------------
  // Encoded events
  // ---------------------------------------------------------------------

  /** JSON encoding and decoding of a line, and of its `seq` field alone. */
  datatype Codec = Codec(
    enc: JournalEvent -> seq<byte>, dec: seq<byte> -> Option<JournalEvent>, seqOf: seq<byte> -> Option<nat>)

  /** An encoded event has no newline, is no blank line, and is read back. */
  ghost predicate Good(c: Codec) {
    forall e: JournalEvent :: GoodAt(c, e)
  }

  ghost predicate GoodAt(c: Codec, e: JournalEvent) {
    NEWLINE !in c.enc(e) && !Blank(c.enc(e)) && c.dec(c.enc(e)) == Some(e) && c.seqOf(c.enc(e)) == Some(e.seq_)
  }

  /** The events of those lines that decode, blank lines aside. */
  function Decode(c: Codec, lines: seq<seq<byte>>): seq<JournalEvent> {
    if lines == [] then []
    else
      var rest := Decode(c, lines[1..]);
      if Blank(lines[0]) then rest
      else match c.dec(lines[0]) case Some(e) => [e] + rest case None => rest
  }

  lemma {:induction false} DecodeConcat(c: Codec, a: seq<seq<byte>>, b: seq<seq<byte>>)
    ensures Decode(c, a + b) == Decode(c, a) + Decode(c, b)
    decreases |a|
  {
    if a == [] {
      assert a + b == b;
    } else {
      assert (a + b)[1..] == a[1..] + b;
      DecodeConcat(c, a[1..], b);
    }
  }

  /** All events in the file, in order. */
  function Events(c: Codec, bytes: seq<byte>): seq<JournalEvent> { Decode(c, Lines(bytes)) }

  /** The largest `seq` among lines, 0 when there is none. */
  function MaxSeq(c: Codec, lines: seq<seq<byte>>): nat {
    if lines == [] then 0
    else
      var rest := MaxSeq(c, lines[..|lines| - 1]);
      match c.seqOf(lines[|lines| - 1])
      case Some(n) => if n > rest then n else rest
      case None => rest
  }

  // ---------------------------------------------------------------------
  // The writer as a state machine
  // ---------------------------------------------------------------------

  /** One Run's journal: its bytes, the sequence number of the live writer if
      there is one, and the events whose lines were written whole. */
  datatype Journal = Journal(bytes: seq<byte>, next: Option<nat>, attempt: nat, whole: seq<JournalEvent>)

  const EMPTY: Journal := Journal([], None, 0, [])

  datatype Op =
    | Open(attempt: nat)
    | Append(ts: int, data: EventData)
    | FailAppend
    | Tear(ts: int, data: EventData, written: nat)
    | Die

  function NextEvent(j: Journal, ts: int, data: EventData): JournalEvent
    requires j.next.Some?
  {
    JournalEvent(j.next.value, ts, j.attempt, data)
  }

  /** What opening does: cut the torn tail, number from the last `seq` on. */
  function Opened(c: Codec, j: Journal, attempt: nat): Journal {
    var kept := j.bytes[..CompleteLen(j.bytes)];
    j.(bytes := kept, next := Some(MaxSeq(c, Lines(kept)) + 1), attempt := attempt)
  }

  function Appended(c: Codec, j: Journal, e: JournalEvent): Journal
    requires j.next.Some?
  {
    j.(bytes := j.bytes + (c.enc(e) + [NEWLINE]), next := Some(j.next.value + 1), whole := j.whole + [e])
  }

  /** A write cut short by the death of the process: never the whole line. */
  function Torn(c: Codec, j: Journal, e: JournalEvent, written: nat): Journal {
    var line := c.enc(e) + [NEWLINE];
    var n := if written < |line| then written else |line| - 1;
    j.(bytes := j.bytes + line[..n], next := None)
  }

  /** One step of the writing side. There is at most one writer. */
  function Step(c: Codec, j: Journal, op: Op): Journal {
    match op
    case Open(attempt) => if j.next.None? then Opened(c, j, attempt) else j
    case Append(ts, data) => if j.next.Some? then Appended(c, j, NextEvent(j, ts, data)) else j
    case FailAppend => j
    case Tear(ts, data, written) => if j.next.Some? then Torn(c, j, NextEvent(j, ts, data), written) else j
    case Die => j.(next := None)
  }

  function Run(c: Codec, j: Journal, ops: seq<Op>): Journal
    decreases |ops|
  {
    if ops == [] then j else Run(c, Step(c, j, ops[0]), ops[1..])
  }

  /** The complete lines are the events written whole, numbered 1, 2, ..., and
      a live writer appends behind them. */
  ghost predicate Inv(c: Codec, j: Journal) {
    && Lines(j.bytes) == Encoded(c, j.whole)
    && (forall i | 0 <= i < |j.whole| :: j.whole[i].seq_ == i + 1)
    && (j.next.Some? ==> j.next.value == |j.whole| + 1 && CompleteLen(j.bytes) == |j.bytes|)
  }

  function Encoded(c: Codec, events: seq<JournalEvent>): seq<seq<byte>>
    decreases |events|
  {
    if events == [] then [] else Encoded(c, events[..|events| - 1]) + [c.enc(events[|events| - 1])]
  }

  lemma {:induction false} DecodeEncoded(c: Codec, events: seq<JournalEvent>)
    requires Good(c)
    ensures Decode(c, Encoded(c, events)) == events
    decreases |events|
  {
    if events != [] {
      var last := events[|events| - 1];
      assert GoodAt(c, last);
      DecodeEncoded(c, events[..|events| - 1]);
      DecodeConcat(c, Encoded(c, events[..|events| - 1]), [c.enc(last)]);
      assert Decode(c, [c.enc(last)]) == [last] by {
        assert [c.enc(last)][1..] == [];
      }
    }
  }

  lemma {:induction false} MaxSeqEncoded(c: Codec, events: seq<JournalEvent>)
    requires Good(c) && forall i | 0 <= i < |events| :: events[i].seq_ == i + 1
    ensures MaxSeq(c, Encoded(c, events)) == |events|
    decreases |events|
  {
    if events != [] {
      var n := |events| - 1;
      assert GoodAt(c, events[n]);
      MaxSeqEncoded(c, events[..n]);
      var lines := Encoded(c, events[..n]) + [c.enc(events[n])];
      assert lines[..|lines| - 1] == Encoded(c, events[..n]);
    }
  }

  lemma OpenKeeps(c: Codec, j: Journal, attempt: nat)
    requires Good(c) && Inv(c, j)
    ensures Inv(c, Opened(c, j, attempt))
  {
    hide Lines, MaxSeq, Encoded, CompleteLen;
    var kept := j.bytes[..CompleteLen(j.bytes)];
    CompletePrefix(j.bytes);
    MaxSeqEncoded(c, j.whole);
    CompleteLenIs(kept, |kept|);
  }

  lemma AppendKeeps(c: Codec, j: Journal, e: JournalEvent)
    requires Good(c) && Inv(c, j) && j.next.Some? && e.seq_ == j.next.value
    ensures Inv(c, Appended(c, j, e))
  {
    hide Lines, Encoded, CompleteLen;
    assert GoodAt(c, e);
    var line := c.enc(e) + [NEWLINE];
    var bytes := j.bytes + line;
    LinesConcat(j.bytes, line);
    OneLine(c.enc(e));
    EncodedSnoc(c, j.whole, e);
    CompleteLenIs(bytes, |bytes|);
  }

  lemma EncodedSnoc(c: Codec, events: seq<JournalEvent>, e: JournalEvent)
    ensures Encoded(c, events + [e]) == Encoded(c, events) + [c.enc(e)]
  {
    assert (events + [e])[..|events|] == events;
  }

  lemma TearKeeps(c: Codec, j: Journal, e: JournalEvent, written: nat)
    requires Good(c) && Inv(c, j) && j.next.Some?
    ensures Inv(c, Torn(c, j, e, written))
  {
    hide Lines, Encoded, CompleteLen;
    assert GoodAt(c, e);
    var line := c.enc(e) + [NEWLINE];
    var n := if written < |line| then written else |line| - 1;
    assert line[..n] == c.enc(e)[..n];
    LinesConcat(j.bytes, line[..n]);
    OneLine(line[..n]);
    assert Lines(j.bytes) + [] == Lines(j.bytes);
  }

  lemma StepKeeps(c: Codec, j: Journal, op: Op)
    requires Good(c) && Inv(c, j)
    ensures Inv(c, Step(c, j, op))
  {
    hide Inv, Opened, Appended, Torn;
    match op
    case Open(attempt) => if j.next.None? { OpenKeeps(c, j, attempt); }
    case Append(ts, data) => if j.next.Some? { AppendKeeps(c, j, NextEvent(j, ts, data)); }
    case FailAppend =>
    case Tear(ts, data, written) => if j.next.Some? { TearKeeps(c, j, NextEvent(j, ts, data), written); }
    case Die => DieKeeps(c, j);
  }

  lemma DieKeeps(c: Codec, j: Journal)
    requires Inv(c, j)
    ensures Inv(c, j.(next := None))
  {
  }

  lemma {:induction false} RunKeeps(c: Codec, j: Journal, ops: seq<Op>)
    requires Good(c) && Inv(c, j)
    ensures Inv(c, Run(c, j, ops))
    decreases |ops|
  {
    hide Inv, Step;
    if ops != [] {
      StepKeeps(c, j, ops[0]);
      RunKeeps(c, Step(c, j, ops[0]), ops[1..]);
    }
  }

  lemma EmptyInv(c: Codec)
    ensures Inv(c, EMPTY)
  {
  }

  /** MAIN RESULT. After any history of opens, appends, failed appends, torn
      writes and deaths, the complete lines are exactly the events
      written whole, numbered 1 to n across all Attempts, and a live writer's
      next number is n + 1. */
  lemma JournalNumbering(c: Codec, ops: seq<Op>)
    requires Good(c)
    ensures var j := Run(c, EMPTY, ops);
      && Events(c, j.bytes) == j.whole
      && (forall i | 0 <= i < |j.whole| :: j.whole[i].seq_ == i + 1)
      && (j.next.Some? ==> j.next.value == |Events(c, j.bytes)| + 1)
  {
    hide Step, Encoded, Decode, Lines, CompleteLen;
    EmptyInv(c);
    RunKeeps(c, EMPTY, ops);
    DecodeEncoded(c, Run(c, EMPTY, ops).whole);
  }

  // ---------------------------------------------------------------------
  // Bytes that can no longer change
  // ---------------------------------------------------------------------

  /** `now` still holds the complete lines of `before`. */
  ghost predicate Stable(before: seq<byte>, now: seq<byte>) {
    before[..CompleteLen(before)] <= now && CompleteLen(before) <= CompleteLen(now)
  }

  lemma StableExtend(before: seq<byte>, more: seq<byte>)
    ensures Stable(before, before + more)
  {
    hide CompleteLen;
    var n := CompleteLen(before);
    if n > 0 { NewlineIsComplete(before + more, n - 1); }
  }

  /** Whatever the writing side does, the complete lines stay as they are. */
  lemma StepStable(c: Codec, j: Journal, op: Op)
    ensures Stable(j.bytes, Step(c, j, op).bytes)
  {
    hide Lines, MaxSeq, CompleteLen;
    StableExtend(j.bytes, []);
    assert j.bytes + [] == j.bytes;
    match op
    case Open(attempt) =>
      if j.next.None? {
        var kept := j.bytes[..CompleteLen(j.bytes)];
        CompleteLenIs(kept, |kept|);
      }
    case Append(ts, data) =>
      if j.next.Some? { StableExtend(j.bytes, c.enc(NextEvent(j, ts, data)) + [NEWLINE]); }
    case FailAppend =>
    case Tear(ts, data, written) =>
      if j.next.Some? {
        var line := c.enc(NextEvent(j, ts, data)) + [NEWLINE];
        StableExtend(j.bytes, line[..if written < |line| then written else |line| - 1]);
      }
    case Die =>
  }

  lemma StableTransitive(a: seq<byte>, b: seq<byte>, d: seq<byte>)
    requires Stable(a, b) && Stable(b, d)
    ensures Stable(a, d)
  {
    hide CompleteLen;
    var n := CompleteLen(a);
    assert a[..n] <= b[..CompleteLen(b)];
  }

  lemma {:induction false} RunStable(c: Codec, j: Journal, ops: seq<Op>)
    ensures Stable(j.bytes, Run(c, j, ops).bytes)
    decreases |ops|
  {
    hide Stable, Step;
    if ops == [] {
      StableExtend(j.bytes, []);
      assert j.bytes + [] == j.bytes;
    } else {
      StepStable(c, j, ops[0]);
      RunStable(c, Step(c, j, ops[0]), ops[1..]);
      StableTransitive(j.bytes, Step(c, j, ops[0]).bytes, Run(c, j, ops).bytes);
    }
  }
}
