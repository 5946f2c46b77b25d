/** An event line encoding as the journal's laws ask for: a plain one, to show
    that they ask for nothing impossible. */
module JournalCodec {
  import opened Wrappers
  import opened JournalEvents
  import opened JournalFile

  const MARK: byte := 49
  const STOP: byte := 48

  /** A number, as that many marks and a stop. */
  function Unary(n: nat): seq<byte> { if n == 0 then [STOP] else [MARK] + Unary(n - 1) }

  function Bytes(numbers: seq<nat>): seq<byte> {
    if numbers == [] then [] else Unary(numbers[0]) + Bytes(numbers[1..])
  }

  function Signed(i: int): nat { if i >= 0 then 2 * i else -2 * i - 1 }

  /** A text, its length first. */
  function Text(s: string): seq<nat> { [|s|] + Chars(s) }

  function Chars(s: string): (r: seq<nat>)
    ensures |r| == |s| && forall i | 0 <= i < |s| :: r[i] == s[i] as int
  {
    seq(|s|, i requires 0 <= i < |s| => s[i] as int)
  }

  function Reason(r: EndReason): nat {
    match r case Completed => 0 case Failed => 1 case Stopped => 2 case BudgetExhausted => 3 case MaxSteps => 4 case Error => 5
  }

  function Tag(data: EventData): nat {
    match data
    case AttemptStarted(_) => 1
    case AttemptEnded(_) => 2
    case Heartbeat(_) => 3
    case StageStarted(_) => 4
    case StageCompleted(_, _) => 5
    case StageFailed(_, _) => 6
    case StageRetrying(_, _) => 7
    case PipelineCompleted => 8
    case PipelineFailed(_) => 9
    case HumanInputRequested(_, _) => 10
    case HumanInputAnswered(_) => 11
    case StopRequested(_) => 12
    case LlmInvoked(_) => 13
    case Other(_) => 14
    case Unknown(_) => 15
  }

  function Fields(data: EventData): seq<nat> {
    match data
    case AttemptStarted(pid) => [pid]
    case AttemptEnded(reason) => [Reason(reason)]
    case Heartbeat(pid) => [pid]
    case StageStarted(node) => Text(node)
    case StageCompleted(node, status) => Text(node) + Text(status)
    case StageFailed(node, error) => Text(node) + Text(error)
    case StageRetrying(node, retry) => Text(node) + [retry]
    case PipelineCompleted => []
    case PipelineFailed(error) => Text(error)
    case HumanInputRequested(question, node) => Text(question) + Text(node)
    case HumanInputAnswered(question) => Text(question)
    case StopRequested(source) => Text(source)
    case LlmInvoked(cost) => [Signed(cost)]
    case Other(typeName) => Text(typeName)
    case Unknown(typeName) => Text(typeName)
  }

  function Encode(e: JournalEvent): seq<byte> {
    Bytes([e.seq_, Signed(e.ts), e.attempt, Tag(e.data)] + Fields(e.data))
  }

  // ---------------------------------------------------------------------
  // It can be undone
  // ---------------------------------------------------------------------

  lemma {:induction false} UnaryCancel(m: nat, n: nat, x: seq<byte>, y: seq<byte>)
    requires Unary(m) + x == Unary(n) + y
    ensures m == n && x == y
    decreases m
  {
    assert (Unary(m) + x)[0] == (if m == 0 then STOP else MARK);
    assert (Unary(n) + y)[0] == (if n == 0 then STOP else MARK);
    assert (Unary(m) + x)[1..] == (if m == 0 then x else Unary(m - 1) + x);
    assert (Unary(n) + y)[1..] == (if n == 0 then y else Unary(n - 1) + y);
    if m > 0 { UnaryCancel(m - 1, n - 1, x, y); }
  }

  lemma {:induction false} BytesInjective(a: seq<nat>, b: seq<nat>)
    requires Bytes(a) == Bytes(b)
    ensures a == b
    decreases |a|
  {
    assert a != [] ==> |Unary(a[0])| > 0;
    assert b != [] ==> |Unary(b[0])| > 0;
    if a != [] {
      UnaryCancel(a[0], b[0], Bytes(a[1..]), Bytes(b[1..]));
      BytesInjective(a[1..], b[1..]);
      assert a == [a[0]] + a[1..] && b == [b[0]] + b[1..];
    }
  }

  lemma TextCancel(s: string, t: string, x: seq<nat>, y: seq<nat>)
    requires Text(s) + x == Text(t) + y
    ensures s == t && x == y
  {
    var a, b := Text(s) + x, Text(t) + y;
    assert a[0] == |s| && b[0] == |t|;
    assert a[1..|s| + 1] == Chars(s) && b[1..|t| + 1] == Chars(t);
    assert forall i | 0 <= i < |s| :: Chars(s)[i] == s[i] as int && Chars(t)[i] == t[i] as int;
    assert a[|s| + 1..] == x && b[|t| + 1..] == y;
  }

  lemma TextInjective(s: string, t: string)
    requires Text(s) == Text(t)
    ensures s == t
  {
    assert Text(s) + [] == Text(t) + [];
    TextCancel(s, t, [], []);
  }

  lemma FieldsInjective(a: EventData, b: EventData)
    requires Tag(a) == Tag(b) && Fields(a) == Fields(b)
    ensures a == b
  {
    hide Text;
    match a
    case AttemptStarted(_) =>
    case AttemptEnded(_) =>
    case Heartbeat(_) =>
    case StageStarted(node) => TextInjective(node, b.node);
    case StageCompleted(node, status) =>
      TextCancel(node, b.node, Text(status), Text(b.status));
      TextInjective(status, b.status);
    case StageFailed(node, error) =>
      TextCancel(node, b.node, Text(error), Text(b.error));
      TextInjective(error, b.error);
    case StageRetrying(node, retry) => TextCancel(node, b.node, [retry], [b.retry]);
    case PipelineCompleted =>
    case PipelineFailed(error) => TextInjective(error, b.error);
    case HumanInputRequested(question, node) =>
      TextCancel(question, b.question, Text(node), Text(b.node));
      TextInjective(node, b.node);
    case HumanInputAnswered(question) => TextInjective(question, b.question);
    case StopRequested(source) => TextInjective(source, b.source);
    case LlmInvoked(_) =>
    case Other(typeName) => TextInjective(typeName, b.typeName);
    case Unknown(typeName) => TextInjective(typeName, b.typeName);
  }

  lemma EncodeInjective(a: JournalEvent, b: JournalEvent)
    requires Encode(a) == Encode(b)
    ensures a == b
  {
    hide Bytes, Tag, Fields;
    var x := [a.seq_, Signed(a.ts), a.attempt, Tag(a.data)] + Fields(a.data);
    var y := [b.seq_, Signed(b.ts), b.attempt, Tag(b.data)] + Fields(b.data);
    BytesInjective(x, y);
    assert x[0] == y[0] && x[1] == y[1] && x[2] == y[2] && x[3] == y[3] && x[4..] == y[4..];
    assert x[4..] == Fields(a.data) && y[4..] == Fields(b.data);
    FieldsInjective(a.data, b.data);
  }

  lemma {:induction false} BytesPlain(numbers: seq<nat>)
    ensures NEWLINE !in Bytes(numbers)
    ensures numbers != [] ==> Bytes(numbers) != []
    decreases |numbers|
  {
    if numbers != [] {
      UnaryPlain(numbers[0]);
      BytesPlain(numbers[1..]);
    }
  }

  lemma {:induction false} UnaryPlain(n: nat)
    ensures NEWLINE !in Unary(n) && Unary(n) != []
    decreases n
  {
    if n > 0 { UnaryPlain(n - 1); }
  }

  /** The event that a line encodes, if any. */
  ghost function Decoded(line: seq<byte>): Option<JournalEvent> {
    if exists e :: Encode(e) == line then
      var e :| Encode(e) == line;
      Some(e)
    else None
  }

  lemma DecodedIs(e: JournalEvent)
    ensures Decoded(Encode(e)) == Some(e)
  {
    hide Encode;
    forall d | Encode(d) == Encode(e) ensures d == e { EncodeInjective(d, e); }
  }

  lemma EncodedIsNoBlank(e: JournalEvent)
    ensures NEWLINE !in Encode(e) && Encode(e) != [] && !Blank(Encode(e))
  {
    hide Bytes, Tag, Fields;
    var numbers := [e.seq_, Signed(e.ts), e.attempt, Tag(e.data)] + Fields(e.data);
    BytesPlain(numbers);
    FirstByte(numbers);
    assert Encode(e)[0] in Encode(e);
  }

  lemma FirstByte(numbers: seq<nat>)
    requires numbers != []
    ensures Bytes(numbers) != [] && !IsSpaceByte(Bytes(numbers)[0])
  {
  }

  /** MAIN RESULT. There is a codec with all that the journal's laws require,
      and with no number for an empty line. */
  lemma GoodCodecExists()
    ensures exists c :: Good(c) && c.seqOf([]) == None
  {
    hide Encode;
    var seqOf := (line: seq<byte>) => match Decoded(line) case Some(e) => Some(e.seq_) case None => None;
    var c := Codec((e: JournalEvent) => Encode(e), (line: seq<byte>) => Decoded(line), seqOf);
    forall e ensures GoodAt(c, e) {
      EncodedIsNoBlank(e);
      DecodedIs(e);
    }
    forall e ensures Encode(e) != [] { EncodedIsNoBlank(e); }
    assert Good(c) && c.seqOf([]) == None;
  }
}
