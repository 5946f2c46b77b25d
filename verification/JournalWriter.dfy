/** Opening and appending to one Run's journal
    (crates/attractor-journal/src/writer.rs:50-107), and the one-shot reader
    (crates/attractor-journal/src/reader.rs:32-46). */
module JournalWriter {
  import opened Wrappers
  import opened JournalEvents
  import opened JournalFile

  /** The file object behind `events.jsonl`. */
  class File {
    var bytes: seq<byte>

    constructor ()
      ensures bytes == []
    {
      bytes := [];
    }

    method SetLen(n: nat)
      requires n <= |bytes|
      modifies this
      ensures bytes == old(bytes)[..n]
    {
      bytes := bytes[..n];
    }

    method Write(more: seq<byte>)
      modifies this
      ensures bytes == old(bytes) + more
    {
      bytes := bytes + more;
    }
  }

  /** Past the last newline, searching from the end. */
  method CompletePart(bytes: seq<byte>) returns (n: nat)
    ensures n == CompleteLen(bytes)
  {
    n := |bytes|;
    while n > 0 && bytes[n - 1] != NEWLINE
      invariant n <= |bytes|
      invariant forall i | n <= i < |bytes| :: bytes[i] != NEWLINE
    {
      n := n - 1;
    }
    CompleteLenIs(bytes, n);
  }

  /** What splitting leaves behind the last newline of complete lines. */
  const NOTHING: seq<seq<byte>> := [[]]

  /** Splitting at every newline: the lines, and what follows the last one. */
  method Split(bytes: seq<byte>) returns (pieces: seq<seq<byte>>)
    ensures pieces == Lines(bytes) + [bytes[CompleteLen(bytes)..]]
  {
    pieces := [];
    var start, i := 0, 0;
    while i < |bytes|
      invariant start <= i <= |bytes|
      invariant start > 0 ==> bytes[start - 1] == NEWLINE
      invariant NEWLINE !in bytes[start..i]
      invariant pieces + LinesFrom(bytes[start..i], bytes[i..]) == Lines(bytes)
    {
      assert bytes[i..][1..] == bytes[i + 1..];
      if bytes[i] == NEWLINE {
        assert bytes[i + 1..i + 1] == [];
        assert pieces + ([bytes[start..i]] + LinesFrom([], bytes[i + 1..])) == pieces + [bytes[start..i]] + LinesFrom([], bytes[i + 1..]);
        pieces := pieces + [bytes[start..i]];
        start := i + 1;
      } else {
        assert bytes[start..i + 1] == bytes[start..i] + [bytes[i]];
      }
      i := i + 1;
    }
    assert bytes[start..i] == bytes[start..];
    forall k | start <= k < |bytes| ensures bytes[k] != NEWLINE {
      assert bytes[k] == bytes[start..][k - start];
    }
    CompleteLenIs(bytes, start);
    pieces := pieces + [bytes[start..]];
  }

  datatype ReadResult = Events(events: seq<JournalEvent>) | Invalid(line: nat)

  /** A line that `read_all_raw` takes. */
  predicate Readable(c: Codec, line: seq<byte>) { Blank(line) || c.dec(line).Some? }

  /** Every event of the complete lines, or the number of the first line that
      is none. */
  method ReadAllRaw(c: Codec, bytes: seq<byte>) returns (r: ReadResult)
    ensures r.Events? <==> forall line | line in Lines(bytes) :: Readable(c, line)
    ensures r.Events? ==> r.events == JournalFile.Events(c, bytes)
    ensures r.Invalid? ==> 1 <= r.line <= |Lines(bytes)| && !Readable(c, Lines(bytes)[r.line - 1])
    ensures r.Invalid? ==> forall i | 0 <= i < r.line - 1 :: Readable(c, Lines(bytes)[i])
  {
    hide Lines, LinesFrom, CompleteLen;
    var complete := CompletePart(bytes);
    CompletePrefix(bytes);
    var pieces := Split(bytes[..complete]);
    CompleteLenIs(bytes[..complete], complete);
    assert bytes[..complete][complete..] == [];
    var events, i := [], 0;
    while i < |pieces|
      invariant i <= |pieces| && pieces == Lines(bytes) + NOTHING
      invariant forall k | 0 <= k < i :: Readable(c, pieces[k])
      invariant events == Decode(c, pieces[..i])
    {
      ghost var one := [pieces[i]];
      DecodeConcat(c, pieces[..i], one);
      assert pieces[..i + 1] == pieces[..i] + one && one[1..] == [];
      if !Blank(pieces[i]) {
        assert i < |Lines(bytes)| && pieces[i] == Lines(bytes)[i];
        match c.dec(pieces[i])
        case None =>
          assert !Readable(c, Lines(bytes)[i]) && Lines(bytes)[i] in Lines(bytes);
          assert forall k | 0 <= k < i :: Lines(bytes)[k] == pieces[k];
          return Invalid(i + 1);
        case Some(e) => events := events + [e];
      }
      i := i + 1;
    }
    assert pieces[..i] == Lines(bytes) + NOTHING;
    DecodeConcat(c, Lines(bytes), NOTHING);
    assert NOTHING[1..] == [] && Decode(c, NOTHING) == [];
    forall line | line in Lines(bytes) ensures Readable(c, line) {
      var k :| 0 <= k < |Lines(bytes)| && line == Lines(bytes)[k];
      assert pieces[k] == line;
    }
    return Events(events);
  }

  /** What became of a write: all of it, all of it but not forced to disk,
      nothing, or the process died. */
  datatype Outcome = Done | Unsynced | Failed | Died(written: nat)

  class JournalWriter {
    const c: Codec
    const file: File
    const attempt: nat
    var nextSeq: nat
    var alive: bool
    ghost var whole: seq<JournalEvent>

    ghost function State(): Journal
      reads this, file
    {
      Journal(file.bytes, if alive then Some(nextSeq) else None, attempt, whole)
    }

    /** Cut the torn tail, then number on from the largest `seq` kept. */
    constructor Open(c: Codec, file: File, attempt: nat, ghost before: Journal)
      requires c.seqOf([]) == None
      requires before.next.None? && before.bytes == file.bytes
      modifies file
      ensures this.c == c && this.file == file
      ensures State() == Step(c, before, Op.Open(attempt))
    {
      hide Lines, CompleteLen;
      this.c, this.file, this.attempt := c, file, attempt;
      alive, whole := true, before.whole;
      var complete := CompletePart(file.bytes);
      if complete < |file.bytes| {
        file.SetLen(complete);
      }
      assert file.bytes == old(file.bytes)[..complete];
      CompleteLenIs(file.bytes, complete);
      var pieces := Split(file.bytes);
      assert pieces[|pieces| - 1] == [];
      var last, i := 0, 0;
      while i < |pieces|
        invariant i <= |pieces| && last == MaxSeq(c, pieces[..i])
      {
        assert pieces[..i + 1][..i] == pieces[..i];
        match c.seqOf(pieces[i]) {
          case Some(n) => if n > last { last := n; }
          case None =>
        }
        i := i + 1;
      }
      assert pieces[..i] == Lines(file.bytes) + NOTHING;
      assert (Lines(file.bytes) + NOTHING)[..|Lines(file.bytes)|] == Lines(file.bytes);
      nextSeq := last + 1;
    }

    /** Write one event as one line. The number advances exactly when the whole
        line was written, also when forcing it to disk then fails and the
        caller gets an error. */
    method Append(ts: int, data: EventData, outcome: Outcome) returns (r: Option<JournalEvent>)
      requires alive
      modifies this, file
      ensures State() == Step(c, old(State()), match outcome
                                               case Done => Op.Append(ts, data)
                                               case Unsynced => Op.Append(ts, data)
                                               case Failed => FailAppend
                                               case Died(n) => Tear(ts, data, n))
      ensures r.Some? <==> outcome.Done?
      ensures r.Some? ==> r.value.seq_ == old(nextSeq) && r.value.ts == ts && r.value.attempt == attempt && r.value.data == data
      ensures outcome.Done? || outcome.Unsynced? ==>
                && nextSeq == old(nextSeq) + 1 && alive
                && file.bytes == old(file.bytes) + c.enc(JournalEvent.JournalEvent(old(nextSeq), ts, attempt, data)) + [NEWLINE]
      ensures outcome.Failed? ==> nextSeq == old(nextSeq) && alive && file.bytes == old(file.bytes)
      ensures outcome.Died? ==> !alive && old(file.bytes) <= file.bytes
                                && file.bytes[|old(file.bytes)|..] < c.enc(JournalEvent.JournalEvent(old(nextSeq), ts, attempt, data)) + [NEWLINE]
    {
      var event := JournalEvent.JournalEvent(nextSeq, ts, attempt, data);
      var line := c.enc(event);
      line := line + [NEWLINE];
      match outcome {
        case Failed =>
          return None;
        case Died(written) =>
          file.Write(line[..if written < |line| then written else |line| - 1]);
          alive := false;
          return None;
        case _ =>
          file.Write(line);
          nextSeq := nextSeq + 1;
          whole := whole + [event];
          return if outcome.Unsynced? then None else Some(event);
      }
    }
  }
}
