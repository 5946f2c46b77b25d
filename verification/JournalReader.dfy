/** The polling reader as it runs beside a writing side
    (crates/attractor-journal/src/reader.rs:60-135): every method is tied to
    the state machine of `JournalTail`. */
module JournalReader {
  import opened Wrappers
  import opened JournalEvents
  import opened JournalFile
  import opened JournalTail
  import JournalWriter

  /** What happens at one read: first what the writing side does, then how
      much the read may return. */
  datatype Turn = Turn(ops: seq<Op>, size: pos)

  const CHUNK: pos := 8192

  /** A journal file that others write. */
  class SharedFile {
    const c: Codec
    var j: Journal

    constructor (c: Codec)
      ensures this.c == c && j == EMPTY
    {
      this.c, j := c, EMPTY;
    }

    /** The writing side takes some steps. */
    method Advance(ops: seq<Op>)
      modifies this
      ensures j == Run(c, old(j), ops)
    {
      var i := 0;
      while i < |ops|
        invariant i <= |ops| && Run(c, j, ops[i..]) == Run(c, old(j), ops)
      {
        assert ops[i..][1..] == ops[i + 1..];
        j := Step(c, j, ops[i]);
        i := i + 1;
      }
    }
  }

  function Writes(ops: seq<Op>): seq<Label> { seq(|ops|, i requires 0 <= i < |ops| => Write(ops[i])) }

  lemma {:induction false} PlayWrites(c: Codec, w: World, labels: seq<Label>, ops: seq<Op>)
    ensures Play(c, w, labels + Writes(ops)) == Play(c, w, labels).(j := Run(c, Play(c, w, labels).j, ops))
    decreases |ops|
  {
    hide Play, Step;
    if ops == [] {
      assert labels + Writes(ops) == labels;
    } else {
      PlaySnoc(c, w, labels, Write(ops[0]));
      PlayWrites(c, w, labels + [Write(ops[0])], ops[1..]);
      assert labels + [Write(ops[0])] + Writes(ops[1..]) == labels + Writes(ops);
    }
  }

  /** A buffer that ends with a newline, split without that newline. */
  lemma SplitWithoutLast(bytes: seq<byte>)
    ensures Lines(bytes + [NEWLINE]) == Lines(bytes) + [bytes[CompleteLen(bytes)..]]
  {
    hide Lines, CompleteLen;
    var n := CompleteLen(bytes);
    CompletePrefix(bytes);
    assert bytes + [NEWLINE] == bytes[..n] + (bytes[n..] + [NEWLINE]);
    LinesConcat(bytes[..n], bytes[n..] + [NEWLINE]);
    OneLine(bytes[n..]);
  }

  /** The lines of a buffer that have more than white space. */
  method CompleteLines(buf: seq<byte>) returns (lines: seq<seq<byte>>)
    requires buf != [] && buf[|buf| - 1] == NEWLINE
    ensures lines == NonBlank(Lines(buf)) && forall line | line in lines :: !Blank(line)
  {
    hide Lines, CompleteLen;
    var end := |buf| - 1;
    var pieces := JournalWriter.Split(buf[..end]);
    SplitWithoutLast(buf[..end]);
    assert buf[..end] + [NEWLINE] == buf;
    lines := [];
    var i := 0;
    while i < |pieces|
      invariant i <= |pieces| && lines == NonBlank(pieces[..i])
      invariant forall line | line in lines :: !Blank(line)
    {
      ghost var one := [pieces[i]];
      NonBlankConcat(pieces[..i], one);
      assert pieces[..i + 1] == pieces[..i] + one && one[1..] == [];
      if !Blank(pieces[i]) {
        lines := lines + [pieces[i]];
      }
      i := i + 1;
    }
    assert pieces[..i] == pieces;
  }

  ghost function CheckedSoFar(j: Journal, at: nat, expected: seq<byte>, again: seq<byte>, emitted: seq<seq<byte>>): World {
    Compared(World(j, Checking(at, expected, []), emitted), again)
  }

  lemma ComparedIs(j: Journal, at: nat, expected: seq<byte>, again: seq<byte>, emitted: seq<seq<byte>>)
    requires |again| <= |expected|
    ensures CheckedSoFar(j, at, expected, again, emitted)
         == if |again| < |expected| then World(j, Checking(at, expected, again), emitted)
            else if again == expected then World(j, Idle(at + |expected|), emitted + NonBlank(Lines(expected)))
            else World(j, Idle(at), emitted)
  {
  }

  lemma ReadStep(c: Codec, j: Journal, at: nat, buf: seq<byte>, emitted: seq<seq<byte>>, size: pos)
    ensures var chunk := ReadAt(j.bytes, at + |buf|, size);
      Act(c, World(j, Reading(at, buf), emitted), ReadChunk(size))
      == World(j, if chunk == [] then Cut(at, buf) else Reading(at, buf + chunk), emitted)
  {
    hide Cut;
  }

  lemma ReadNothing(bytes: seq<byte>, at: nat)
    ensures ReadAt(bytes, at, 0) == []
  {
  }

  /** Reading on from what was read; nothing more comes only at the end. */
  lemma ReadOn(bytes: seq<byte>, at: nat, again: seq<byte>, chunk: seq<byte>, size: nat)
    requires |again| < size && ReadAt(bytes, at, |again|) == again
    requires chunk == ReadAt(bytes, at + |again|, Min(CHUNK, size - |again|))
    ensures ReadAt(bytes, at, |again + chunk|) == again + chunk
    ensures chunk == [] ==> |ReadAt(bytes, at, size)| < size
  {
    hide ReadAt;
    ReadLen(bytes, at, |again|);
    ReadLen(bytes, at + |again|, Min(CHUNK, size - |again|));
    ReadLen(bytes, at, size);
    ReadTwice(bytes, at, |again|, |chunk|);
  }

  /** How much one read returns, and that asking for no more is the same. */
  lemma ReadLen(bytes: seq<byte>, at: nat, n: nat)
    ensures |ReadAt(bytes, at, n)| == if at >= |bytes| then 0 else Min(n, |bytes| - at)
    ensures ReadAt(bytes, at, |ReadAt(bytes, at, n)|) == ReadAt(bytes, at, n)
  {
  }

  lemma ReadTwice(bytes: seq<byte>, at: nat, m: nat, n: nat)
    requires at + m + n <= |bytes| || n == 0
    ensures ReadAt(bytes, at, m + n) == ReadAt(bytes, at, m) + ReadAt(bytes, at + m, n)
  {
    if n > 0 && m > 0 { assert bytes[at..at + m + n] == bytes[at..at + m] + bytes[at + m..at + m + n]; }
  }

  lemma CheckStep(c: Codec, j: Journal, at: nat, expected: seq<byte>, again: seq<byte>, emitted: seq<seq<byte>>, size: pos)
    requires |again| < |expected|
    ensures var chunk := ReadAt(j.bytes, at + |again|, Min(size, |expected| - |again|));
      Act(c, World(j, Checking(at, expected, again), emitted), CheckChunk(size))
      == if chunk == [] then World(j, Idle(at), emitted) else CheckedSoFar(j, at, expected, again + chunk, emitted)
  {
  }

  lemma PollStep(c: Codec, w: World)
    requires w.r.Idle?
    ensures Play(c, w, [Label.Poll]) == w.(r := Polled(w.j.bytes, w.r.committed))
  {
    PlaySnoc(c, w, [], Label.Poll);
    assert [] + [Label.Poll] == [Label.Poll];
  }

  lemma CutIs(at: nat, buf: seq<byte>)
    ensures Cut(at, buf) == var end := CompleteLen(buf); if end == 0 then Idle(at) else Checking(at, buf[..end], [])
  {
  }

  /** Undisturbed, the second read of what is complete agrees. */
  lemma QuietBuffer(bytes: seq<byte>, at: nat, buf: seq<byte>)
    requires Boundary(bytes, at) && at <= CompleteLen(bytes) && buf == bytes[at..]
    ensures at + CompleteLen(buf) == CompleteLen(bytes)
    ensures ReadAt(bytes, at, CompleteLen(buf)) == buf[..CompleteLen(buf)]
  {
    hide CompleteLen;
    TailLen(bytes, at);
  }

  lemma DecodeOne(c: Codec, line: seq<byte>)
    ensures var one := [line];
      Known(Decode(c, one)) == match c.dec(line)
                               case None => []
                               case Some(e) => if Blank(line) || e.data.Unknown? then [] else [e]
  {
    var one := [line];
    assert one[1..] == [];
    if c.dec(line).Some? { assert [c.dec(line).value][1..] == []; }
  }

  /** One consumer's tail. `emitted` are the lines handed on, `sent` the events
      made of them. */
  class Tail {
    const file: SharedFile
    var committed: nat
    var sent: seq<JournalEvent>
    ghost var emitted: seq<seq<byte>>

    constructor (file: SharedFile)
      ensures this.file == file && committed == 0 && sent == [] && emitted == []
    {
      this.file, committed, sent, emitted := file, 0, [], [];
    }

    ghost function State(): World
      reads this, file
    {
      World(file.j, Idle(committed), emitted)
    }

    /** Others write before the next read happens. */
    method TakeTurn(turns: seq<Turn>, ghost w: World, ghost before: seq<Label>)
      returns (size: pos, rest: seq<Turn>, ghost labels: seq<Label>)
      modifies file
      ensures before <= labels && IoError !in labels[|before|..]
      ensures Play(file.c, w, before).j == old(file.j) ==>
                Play(file.c, w, labels) == Play(file.c, w, before).(j := file.j)
      ensures if turns == [] then rest == [] && file.j == old(file.j) && size == CHUNK else rest == turns[1..]
    {
      hide Play, Run, Step;
      if turns == [] {
        return CHUNK, [], before;
      }
      file.Advance(turns[0].ops);
      PlayWrites(file.c, w, before, turns[0].ops);
      return turns[0].size, turns[1..], before + Writes(turns[0].ops);
    }

    /** The bytes read until a read returns nothing. `labels` is what the
        machine did. */
    method ReadToEnd(turns: seq<Turn>, ghost w: World, ghost before: seq<Label>)
      returns (buf: seq<byte>, rest: seq<Turn>, ghost labels: seq<Label>)
      requires Play(file.c, w, before) == World(file.j, Reading(committed, []), emitted)
      modifies file
      ensures before < labels && IoError !in labels[|before|..]
      ensures Play(file.c, w, labels) == World(file.j, Cut(committed, buf), emitted)
      ensures turns == [] ==> rest == [] && file.j == old(file.j)
      ensures turns == [] ==> buf == file.j.bytes[Min(committed, |file.j.bytes|)..]
    {
      hide Play, Cut, Run, Step, Act;
      buf, rest, labels := [], turns, before;
      while true
        invariant before <= labels && IoError !in labels[|before|..]
        invariant Play(file.c, w, labels) == World(file.j, Reading(committed, buf), emitted)
        invariant turns == [] ==> rest == [] && file.j == old(file.j)
        invariant turns == [] ==> ReadAt(file.j.bytes, committed, |buf|) == buf
        decreases |rest|, |file.j.bytes| - |buf|
      {
        var size;
        size, rest, labels := TakeTurn(rest, w, labels);
        var chunk := ReadAt(file.j.bytes, committed + |buf|, size);
        PlaySnoc(file.c, w, labels, ReadChunk(size));
        ReadStep(file.c, file.j, committed, buf, emitted, size);
        labels := labels + [ReadChunk(size)];
        if chunk == [] {
          return;
        }
        buf := buf + chunk;
      }
    }

    /** One read of the second pass. */
    method CheckOnce(expected: seq<byte>, again: seq<byte>, turns: seq<Turn>, ghost w: World, ghost before: seq<Label>)
      returns (chunk: seq<byte>, rest: seq<Turn>, ghost labels: seq<Label>)
      requires |again| < |expected|
      requires Play(file.c, w, before) == CheckedSoFar(file.j, committed, expected, again, emitted)
      modifies file
      ensures before < labels && IoError !in labels[|before|..]
      ensures |again + chunk| <= |expected|
      ensures Play(file.c, w, labels)
           == if chunk == [] then World(file.j, Idle(committed), emitted)
              else CheckedSoFar(file.j, committed, expected, again + chunk, emitted)
      ensures if turns == [] then rest == [] && file.j == old(file.j) else rest == turns[1..]
      ensures turns == [] ==> chunk == ReadAt(file.j.bytes, committed + |again|, Min(CHUNK, |expected| - |again|))
    {
      hide Play, Act, Compared;
      ComparedIs(file.j, committed, expected, again, emitted);
      var size;
      size, rest, labels := TakeTurn(turns, w, before);
      chunk := ReadAt(file.j.bytes, committed + |again|, Min(size, |expected| - |again|));
      PlaySnoc(file.c, w, labels, CheckChunk(size));
      labels := labels + [CheckChunk(size)];
      CheckStep(file.c, file.j, committed, expected, again, emitted, size);
    }

    /** Whether a second read returns the same bytes. */
    method Unchanged(expected: seq<byte>, turns: seq<Turn>, ghost w: World, ghost before: seq<Label>)
      returns (same: bool, ghost labels: seq<Label>)
      requires expected != []
      requires Play(file.c, w, before) == World(file.j, Checking(committed, expected, []), emitted)
      modifies file
      ensures before < labels && IoError !in labels[|before|..]
      ensures Play(file.c, w, labels)
           == if same then World(file.j, Idle(committed + |expected|), emitted + NonBlank(Lines(expected)))
              else World(file.j, Idle(committed), emitted)
      ensures turns == [] ==> file.j == old(file.j) && same == (ReadAt(file.j.bytes, committed, |expected|) == expected)
    {
      hide Play, Run, Step, Act, Compared, CheckedSoFar, ReadAt;
      var again, rest := [], turns;
      labels := before;
      ComparedIs(file.j, committed, expected, again, emitted);
      ReadNothing(file.j.bytes, committed);
      while |again| < |expected|
        invariant before <= labels && IoError !in labels[|before|..] && |again| <= |expected|
        invariant again != [] ==> before < labels
        invariant Play(file.c, w, labels) == CheckedSoFar(file.j, committed, expected, again, emitted)
        invariant turns == [] ==> rest == [] && file.j == old(file.j)
        invariant turns == [] ==> ReadAt(file.j.bytes, committed, |again|) == again
        decreases |rest|, |expected| - |again|
      {
        var chunk;
        chunk, rest, labels := CheckOnce(expected, again, rest, w, labels);
        if turns == [] { ReadOn(file.j.bytes, committed, again, chunk, |expected|); }
        if chunk == [] {
          return false, labels;
        }
        again := again + chunk;
      }
      ComparedIs(file.j, committed, expected, again, emitted);
      same := again == expected;
    }

    /** One poll: read, check, and hand on what is there. */
    method Poll(turns: seq<Turn>) returns (ghost labels: seq<Label>)
      requires sent == Received(file.c, State())
      modifies this, file
      ensures sent == Received(file.c, State())
      ensures labels != [] && labels[0] == Label.Poll && IoError !in labels
      ensures State() == Play(file.c, old(State()), labels)
      ensures turns == [] ==> file.j == old(file.j)
      ensures turns == [] && Committed(old(State())) ==> committed == CompleteLen(file.j.bytes)
    {
      hide Play, Act, Cut, Lines, NonBlank, CompleteLen, Decode, Known;
      labels := [Label.Poll];
      ghost var w := State();
      PollStep(file.c, w);
      if |file.j.bytes| < committed {
        committed := |file.j.bytes|;
      }
      if |file.j.bytes| == committed {
        return;
      }
      var buf, rest;
      buf, rest, labels := ReadToEnd(turns, w, labels);
      var end := JournalWriter.CompletePart(buf);
      CutIs(committed, buf);
      ghost var bytes := file.j.bytes;
      if turns == [] && Committed(w) { QuietBuffer(bytes, committed, buf); }
      if end == 0 {
        return;
      }
      buf := buf[..end];
      assert buf != [] && buf[|buf| - 1] == NEWLINE;
      var same;
      same, labels := Unchanged(buf, rest, w, labels);
      if !same {
        return;
      }
      committed := committed + |buf|;
      var lines := CompleteLines(buf);
      Send(lines);
    }

    /** Hand on the events of some lines; what is none, or of unknown type, is
        left out. */
    method Send(lines: seq<seq<byte>>)
      requires sent == Known(Decode(file.c, emitted)) && forall line | line in lines :: !Blank(line)
      modifies this`sent, this`emitted
      ensures emitted == old(emitted) + lines && sent == Known(Decode(file.c, emitted))
    {
      hide Blank, Known, Decode;
      var i := 0;
      while i < |lines|
        invariant i <= |lines| && sent == Known(Decode(file.c, emitted)) && emitted == old(emitted) + lines[..i]
      {
        ghost var one := [lines[i]];
        assert lines[..i + 1] == lines[..i] + one;
        DecodeConcat(file.c, emitted, one);
        KnownConcat(Decode(file.c, emitted), Decode(file.c, one));
        DecodeOne(file.c, lines[i]);
        emitted := emitted + one;
        match file.c.dec(lines[i]) {
          case None =>
          case Some(event) =>
            if !event.data.Unknown? {
              sent := sent + [event];
            }
        }
        i := i + 1;
      }
    }
  }
}
