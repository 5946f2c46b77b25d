/** The tail reader beside a live writing side
    (crates/attractor-journal/src/reader.rs:60-135). A poll takes several
    reads; anything may be written between two of them. */
module JournalTail {
  import opened JournalEvents
  import opened JournalFile

  // ---------------------------------------------------------------------
  // The reader as a state machine
  // ---------------------------------------------------------------------

  datatype Reader =
    | Idle(committed: nat)
    | Reading(committed: nat, buf: seq<byte>)
    | Checking(committed: nat, buf: seq<byte>, again: seq<byte>)

  /** The file, the reader, and the lines the reader has handed on. */
  datatype World = World(j: Journal, r: Reader, emitted: seq<seq<byte>>)

  datatype Label =
    | Write(op: Op)
    | Poll
    | ReadChunk(n: nat)
    | CheckChunk(n: nat)
    | IoError

  const START: World := World(EMPTY, Idle(0), [])

  function Min(a: int, b: int): int { if a < b then a else b }

  /** What one `read` of at most `n` bytes at `offset` returns. */
  function ReadAt(bytes: seq<byte>, offset: nat, n: int): seq<byte> {
    if offset >= |bytes| || n <= 0 then [] else bytes[offset..Min(offset + n, |bytes|)]
  }

  /** The lines a reader keeps: those with more than white space. */
  function NonBlank(lines: seq<seq<byte>>): seq<seq<byte>> {
    if lines == [] then []
    else if Blank(lines[0]) then NonBlank(lines[1..])
    else [lines[0]] + NonBlank(lines[1..])
  }

  /** The metadata step of a poll. */
  function Polled(bytes: seq<byte>, committed: nat): Reader {
    var from := if |bytes| < committed then |bytes| else committed;
    if |bytes| == from then Idle(from) else Reading(from, [])
  }

  /** The end of `read_to_end`: keep what ends with a newline. */
  function Cut(committed: nat, buf: seq<byte>): Reader {
    var end := CompleteLen(buf);
    if end == 0 then Idle(committed) else Checking(committed, buf[..end], [])
  }

  function Act(c: Codec, w: World, act: Label): World {
    match act
    case Write(op) => w.(j := Step(c, w.j, op))
    case Poll =>
      if w.r.Idle? then w.(r := Polled(w.j.bytes, w.r.committed)) else w
    case ReadChunk(n) =>
      if w.r.Reading? && n > 0 then
        var chunk := ReadAt(w.j.bytes, w.r.committed + |w.r.buf|, n);
        w.(r := if chunk == [] then Cut(w.r.committed, w.r.buf) else Reading(w.r.committed, w.r.buf + chunk))
      else w
    case CheckChunk(n) =>
      if w.r.Checking? && n > 0 then
        var chunk := ReadAt(w.j.bytes, w.r.committed + |w.r.again|, Min(n, |w.r.buf| - |w.r.again|));
        if chunk == [] then w.(r := Idle(w.r.committed))
        else Compared(w, w.r.again + chunk)
      else w
    case IoError => w.(r := Idle(w.r.committed))
  }

  /** After a chunk of the second read: only a full, equal one commits. */
  function Compared(w: World, again: seq<byte>): World
    requires w.r.Checking?
  {
    if |again| < |w.r.buf| then w.(r := Checking(w.r.committed, w.r.buf, again))
    else if again == w.r.buf then
      World(w.j, Idle(w.r.committed + |w.r.buf|), w.emitted + NonBlank(Lines(w.r.buf)))
    else w.(r := Idle(w.r.committed))
  }

  function Play(c: Codec, w: World, labels: seq<Label>): World
    decreases |labels|
  {
    if labels == [] then w else Act(c, Play(c, w, labels[..|labels| - 1]), labels[|labels| - 1])
  }

  // ---------------------------------------------------------------------
  // What every step keeps
  // ---------------------------------------------------------------------

  /** The reader is at a place where a line starts, within the complete lines,
      and has handed on exactly the lines before it. */
  ghost predicate Committed(w: World) {
    && w.r.committed <= CompleteLen(w.j.bytes)
    && Boundary(w.j.bytes, w.r.committed)
    && w.emitted == NonBlank(Lines(w.j.bytes[..w.r.committed]))
  }

  /** A newline in the buffer was read where the file is complete now, however
      mixed up the bytes before it are. */
  ghost predicate NewlinesSettled(bytes: seq<byte>, committed: nat, buf: seq<byte>) {
    forall q | 0 <= q < |buf| && buf[q] == NEWLINE :: committed + q < CompleteLen(bytes)
  }

  ghost predicate InFlight(w: World) {
    match w.r
    case Idle(_) => true
    case Reading(at, buf) => NewlinesSettled(w.j.bytes, at, buf)
    case Checking(at, buf, again) =>
      && 0 < CompleteLen(buf) == |buf| && at + |buf| <= CompleteLen(w.j.bytes)
      && |again| < |buf| && w.j.bytes[at..at + |again|] == again
  }

  ghost predicate Sound(w: World) { Committed(w) && InFlight(w) }

  lemma WriteKeeps(c: Codec, w: World, op: Op)
    requires Sound(w)
    ensures Sound(Act(c, w, Write(op)))
  {
    hide Step, CompleteLen, Lines, NonBlank;
    StepStable(c, w.j, op);
    var before, now := w.j.bytes, Step(c, w.j, op).bytes;
    var n := CompleteLen(before);
    assert forall i | 0 <= i <= n :: before[..i] == now[..i] by {
      forall i | 0 <= i <= n ensures before[..i] == now[..i] {
        assert before[..n][..i] == now[..n][..i];
      }
    }
    if w.r.Checking? {
      var at, k := w.r.committed, |w.r.again|;
      assert before[at..at + k] == before[..at + k][at..] && now[at..at + k] == now[..at + k][at..];
    }
  }

  lemma PollKeeps(c: Codec, w: World)
    requires Sound(w)
    ensures Sound(Act(c, w, Poll))
  {
  }

  lemma ReadKeeps(c: Codec, w: World, n: nat)
    requires Sound(w)
    ensures Sound(Act(c, w, ReadChunk(n)))
  {
    hide Lines, NonBlank, CompleteLen;
    if w.r.Reading? && n > 0 {
      var at, buf, bytes := w.r.committed, w.r.buf, w.j.bytes;
      var chunk := ReadAt(bytes, at + |buf|, n);
      if chunk == [] {
        var end := CompleteLen(buf);
        if end > 0 {
          assert buf[end - 1] == NEWLINE;
          CompleteLenIs(buf[..end], end);
        }
      } else {
        forall q | 0 <= q < |buf + chunk| && (buf + chunk)[q] == NEWLINE ensures at + q < CompleteLen(bytes) {
          if q >= |buf| {
            assert bytes[at + q] == NEWLINE;
            NewlineIsComplete(bytes, at + q);
          }
        }
      }
    }
  }

  /** An equal second read means the buffer is what the file holds. */
  lemma CheckKeeps(c: Codec, w: World, n: nat)
    requires Sound(w)
    ensures Sound(Act(c, w, CheckChunk(n)))
  {
    hide Lines, NonBlank, CompleteLen, Compared;
    if w.r.Checking? && n > 0 {
      var at, buf, again, bytes := w.r.committed, w.r.buf, w.r.again, w.j.bytes;
      var chunk := ReadAt(bytes, at + |again|, Min(n, |buf| - |again|));
      if chunk != [] {
        assert bytes[at..at + |again + chunk|] == again + chunk;
        ComparedKeeps(w, again + chunk);
      }
    }
  }

  lemma ComparedKeeps(w: World, again: seq<byte>)
    requires Sound(w) && w.r.Checking? && |again| <= |w.r.buf|
    requires w.j.bytes[w.r.committed..w.r.committed + |again|] == again
    ensures Sound(Compared(w, again))
  {
    hide Lines, NonBlank, CompleteLen;
    if again == w.r.buf {
      var at, buf, bytes := w.r.committed, w.r.buf, w.j.bytes;
      assert bytes[..at + |buf|] == bytes[..at] + buf;
      LinesConcat(bytes[..at], buf);
      NonBlankConcat(Lines(bytes[..at]), Lines(buf));
      assert buf[|buf| - 1] == NEWLINE by { assert CompleteLen(buf) > 0; }
    }
  }

  lemma {:induction false} NonBlankConcat(a: seq<seq<byte>>, b: seq<seq<byte>>)
    ensures NonBlank(a + b) == NonBlank(a) + NonBlank(b)
    decreases |a|
  {
    if a == [] {
      assert a + b == b;
    } else {
      assert (a + b)[1..] == a[1..] + b;
      NonBlankConcat(a[1..], b);
    }
  }

  lemma ActKeeps(c: Codec, w: World, act: Label)
    requires Sound(w)
    ensures Sound(Act(c, w, act))
  {
    hide Committed, InFlight, CompleteLen;
    match act
    case Write(op) => WriteKeeps(c, w, op);
    case Poll => PollKeeps(c, w);
    case ReadChunk(n) => ReadKeeps(c, w, n);
    case CheckChunk(n) => CheckKeeps(c, w, n);
    case IoError => IoErrorKeeps(c, w);
  }

  lemma IoErrorKeeps(c: Codec, w: World)
    requires Sound(w)
    ensures Sound(Act(c, w, IoError))
  {
  }

  lemma {:induction false} PlaySound(c: Codec, labels: seq<Label>)
    ensures Sound(Play(c, START, labels))
    decreases |labels|
  {
    hide Sound, Act;
    if labels == [] {
      StartSound();
    } else {
      PlaySound(c, labels[..|labels| - 1]);
      ActKeeps(c, Play(c, START, labels[..|labels| - 1]), labels[|labels| - 1]);
    }
  }

  lemma StartSound()
    ensures Sound(START)
  {
  }

  // ---------------------------------------------------------------------
  // The journal side of a run
  // ---------------------------------------------------------------------

  function Ops(labels: seq<Label>): seq<Op>
    decreases |labels|
  {
    if labels == [] then []
    else
      var rest := Ops(labels[..|labels| - 1]);
      if labels[|labels| - 1].Write? then rest + [labels[|labels| - 1].op] else rest
  }

  lemma {:induction false} RunSnoc(c: Codec, j: Journal, ops: seq<Op>, op: Op)
    ensures Run(c, j, ops + [op]) == Step(c, Run(c, j, ops), op)
    decreases |ops|
  {
    hide Step;
    if ops == [] {
      assert [] + [op] == [op] && [op][1..] == [];
      assert Run(c, Step(c, j, op), []) == Step(c, j, op);
    } else {
      assert (ops + [op])[1..] == ops[1..] + [op];
      RunSnoc(c, Step(c, j, ops[0]), ops[1..], op);
    }
  }

  /** Reading disturbs nothing. */
  lemma {:induction false} PlayJournal(c: Codec, labels: seq<Label>)
    ensures Play(c, START, labels).j == Run(c, EMPTY, Ops(labels))
    decreases |labels|
  {
    hide Step;
    if labels != [] {
      var last := labels[|labels| - 1];
      PlayJournal(c, labels[..|labels| - 1]);
      if last.Write? { RunSnoc(c, EMPTY, Ops(labels[..|labels| - 1]), last.op); }
    }
  }

  // ---------------------------------------------------------------------
  // Main results
  // ---------------------------------------------------------------------

  /** The events a consumer sees for the lines handed on. */
  function Received(c: Codec, w: World): seq<JournalEvent> { Known(Decode(c, w.emitted)) }

  lemma {:induction false} DecodeNonBlank(c: Codec, lines: seq<seq<byte>>)
    ensures Decode(c, NonBlank(lines)) == Decode(c, lines)
    decreases |lines|
  {
    if lines != [] { DecodeNonBlank(c, lines[1..]); }
  }

  /** The events of a file cut at a boundary are the first ones. */
  lemma CutEvents(c: Codec, bytes: seq<byte>, at: nat)
    requires Boundary(bytes, at)
    ensures Events(c, bytes) == Events(c, bytes[..at]) + Events(c, bytes[at..])
  {
    hide Lines, Decode;
    assert bytes == bytes[..at] + bytes[at..];
    LinesConcat(bytes[..at], bytes[at..]);
    DecodeConcat(c, Lines(bytes[..at]), Lines(bytes[at..]));
  }

  /** MAIN RESULT. However appends, torn writes, deaths, reopenings, failed
      and partial reads interleave, the consumer has seen the first k
      events written whole, less the unknown ones: each once, in order, none
      invented from spliced bytes. The reader stays inside the lines that can
      no longer change, so its "file shrank" branch never fires. */
  lemma TailExactlyOnce(c: Codec, labels: seq<Label>)
    requires Good(c)
    ensures var w := Play(c, START, labels);
      && w.r.committed <= CompleteLen(w.j.bytes) <= |w.j.bytes|
      && Received(c, w) == Known(Events(c, w.j.bytes[..w.r.committed]))
      && Events(c, w.j.bytes[..w.r.committed]) <= w.j.whole
  {
    hide Play, Lines, Decode, CompleteLen, InFlight, Known, NonBlank, Run;
    var w := Play(c, START, labels);
    PlaySound(c, labels);
    PlayJournal(c, labels);
    JournalNumbering(c, Ops(labels));
    CutEvents(c, w.j.bytes, w.r.committed);
    DecodeNonBlank(c, Lines(w.j.bytes[..w.r.committed]));
  }

  /** A full second read commits exactly the buffers that equal the file, and
      so rejects every spliced one. */
  lemma SplicedIsRejected(c: Codec, labels: seq<Label>, n: nat)
    requires var w := Play(c, START, labels);
      w.r.Checking? && n >= |w.r.buf| - |w.r.again|
    ensures var w, w' := Play(c, START, labels), Act(c, Play(c, START, labels), CheckChunk(n));
      var (at, buf) := (w.r.committed, w.r.buf);
      && at + |buf| <= |w.j.bytes|
      && w'.r == Idle(if w.j.bytes[at..at + |buf|] == buf then at + |buf| else at)
      && (w.emitted == w'.emitted || w.j.bytes[at..at + |buf|] == buf)
  {
    hide Play, Lines, CompleteLen, NonBlank, Committed;
    PlaySound(c, labels);
    var w := Play(c, START, labels);
    RestRead(w.j.bytes, w.r.committed, w.r.again, |w.r.buf|, n);
  }

  /** One more read that may return all that is missing completes the range. */
  lemma RestRead(bytes: seq<byte>, at: nat, again: seq<byte>, size: nat, n: nat)
    requires |again| < size && at + size <= |bytes| && bytes[at..at + |again|] == again && n >= size - |again|
    ensures var chunk := ReadAt(bytes, at + |again|, Min(n, size - |again|));
      chunk != [] && again + chunk == bytes[at..at + size]
  {
    var middle := at + |again|;
    assert ReadAt(bytes, middle, Min(n, size - |again|)) == bytes[middle..at + size];
    assert bytes[at..at + size] == bytes[at..middle] + bytes[middle..at + size];
  }

  /** An undisturbed poll catches up with everything written. */
  lemma PollCatchesUp(c: Codec, labels: seq<Label>, n: nat)
    requires Good(c) && Play(c, START, labels).r.Idle?
    requires n > |Play(c, START, labels).j.bytes|
    ensures var w' := Play(c, START, labels + [Poll, ReadChunk(n), ReadChunk(n), CheckChunk(n)]);
      w'.r == Idle(CompleteLen(w'.j.bytes)) && Received(c, w') == Known(w'.j.whole)
  {
    hide Play, Act, Lines, Decode, CompleteLen, Known, NonBlank, InFlight;
    var w := Play(c, START, labels);
    PlaySound(c, labels);
    var all := labels + [Poll, ReadChunk(n), ReadChunk(n), CheckChunk(n)];
    PlayFour(c, labels, Poll, ReadChunk(n), ReadChunk(n), CheckChunk(n));
    QuietPoll(c, w, n);
    TailExactlyOnce(c, all);
    var w' := Play(c, START, all);
    PlayJournal(c, all);
    JournalNumbering(c, Ops(all));
    CompletePrefix(w'.j.bytes);
  }

  lemma PlayFour(c: Codec, labels: seq<Label>, a: Label, b: Label, d: Label, e: Label)
    ensures Play(c, START, labels + [a, b, d, e]) == Act(c, Act(c, Act(c, Act(c, Play(c, START, labels), a), b), d), e)
  {
    hide Act, Play;
    PlaySnoc(c, START, labels, a);
    PlaySnoc(c, START, labels + [a], b);
    PlaySnoc(c, START, labels + [a] + [b], d);
    PlaySnoc(c, START, labels + [a] + [b] + [d], e);
    assert labels + [a] + [b] + [d] + [e] == labels + [a, b, d, e];
  }

  lemma PlaySnoc(c: Codec, w: World, labels: seq<Label>, act: Label)
    ensures Play(c, w, labels + [act]) == Act(c, Play(c, w, labels), act)
  {
    hide Act;
    assert (labels + [act])[..|labels|] == labels;
  }

  lemma QuietPoll(c: Codec, w: World, n: nat)
    requires Committed(w) && w.r.Idle? && n > |w.j.bytes|
    ensures var w' := Act(c, Act(c, Act(c, Act(c, w, Poll), ReadChunk(n)), ReadChunk(n)), CheckChunk(n));
      w'.r == Idle(CompleteLen(w.j.bytes)) && w'.j == w.j
  {
    hide Lines, NonBlank, CompleteLen, Act;
    var at, bytes := w.r.committed, w.j.bytes;
    PollIs(c, w);
    TailLen(bytes, at);
    if |bytes| == at {
      IdleStays(c, w, n);
    } else {
      var buf := bytes[at..];
      var end := CompleteLen(buf);
      QuietRead(c, w.(r := Reading(at, [])), n);
      if end == 0 {
        IdleStays(c, w, n);
      } else {
        CompleteLenIs(buf[..end], end);
        QuietCheck(c, w.(r := Checking(at, buf[..end], [])), n);
      }
    }
  }

  lemma PollIs(c: Codec, w: World)
    requires w.r.Idle? && w.r.committed <= |w.j.bytes|
    ensures Act(c, w, Poll) == w.(r := if |w.j.bytes| == w.r.committed then w.r else Reading(w.r.committed, []))
  {
  }

  lemma IdleStays(c: Codec, w: World, n: nat)
    requires w.r.Idle?
    ensures Act(c, w, ReadChunk(n)) == w && Act(c, w, CheckChunk(n)) == w
  {
  }

  lemma QuietRead(c: Codec, w: World, n: nat)
    requires w.r.Reading? && w.r.buf == [] && w.r.committed < |w.j.bytes| < n
    ensures Act(c, Act(c, w, ReadChunk(n)), ReadChunk(n)) == w.(r := Cut(w.r.committed, w.j.bytes[w.r.committed..]))
  {
    hide Cut;
    var at, bytes := w.r.committed, w.j.bytes;
    var buf := bytes[at..];
    assert ReadAt(bytes, at, n) == buf && [] + buf == buf;
    assert ReadAt(bytes, at + |buf|, n) == [];
  }

  lemma QuietCheck(c: Codec, w: World, n: nat)
    requires w.r.Checking? && w.r.again == [] && w.r.buf != [] && w.r.buf <= w.j.bytes[Min(w.r.committed, |w.j.bytes|)..]
    requires n > |w.j.bytes|
    ensures var w' := Act(c, w, CheckChunk(n)); w'.r == Idle(w.r.committed + |w.r.buf|) && w'.j == w.j
  {
    hide Lines, NonBlank;
    var at, bytes, buf := w.r.committed, w.j.bytes, w.r.buf;
    assert ReadAt(bytes, at, |buf|) == buf && [] + buf == buf;
  }

  lemma TailLen(bytes: seq<byte>, at: nat)
    requires Boundary(bytes, at) && at <= CompleteLen(bytes)
    ensures CompleteLen(bytes[at..]) == CompleteLen(bytes) - at
  {
    hide CompleteLen;
    var n := CompleteLen(bytes);
    CompleteLenIs(bytes[at..], n - at);
  }

  /** Why a failed append must write nothing: a part of a line that survives
      without reopening is glued onto the next event. */
  lemma SurvivingPartGlues(c: Codec, j: Journal, part: seq<byte>, e: JournalEvent)
    requires Good(c) && CompleteLen(j.bytes) == |j.bytes| && NEWLINE !in part
    ensures (Lines(j.bytes + part + (c.enc(e) + [NEWLINE])) == Lines(j.bytes) + [c.enc(e)]) <==> part == []
  {
    hide Lines;
    assert GoodAt(c, e);
    var glued := part + c.enc(e);
    assert j.bytes + part + (c.enc(e) + [NEWLINE]) == j.bytes + (glued + [NEWLINE]);
    LinesConcat(j.bytes, glued + [NEWLINE]);
    OneLine(glued);
    var all := Lines(j.bytes) + [glued];
    assert all[|all| - 1] == glued && (Lines(j.bytes) + [c.enc(e)])[|all| - 1] == c.enc(e);
    if part == [] { assert glued == c.enc(e); }
  }
}
