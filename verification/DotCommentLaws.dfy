/** What a comment is, said without the scanner: a text is a row of characters,
    string literals, line comments and block comments, and stripping keeps the
    first two and the newlines of the last
    (crates/attractor-dot/src/parser.rs:20-71). */
module DotCommentLaws {
  import opened DotComments

  datatype Piece =
    | Char(c: char)
    | Literal(body: string)
    | LineRemark(body: string)
    | BlockRemark(body: string)

  /** How a text stops: between two pieces, in a string or in a block comment. */
  datatype Ending = Whole | OpenLiteral(body: string) | OpenBlock(body: string)

  function Written(p: Piece, more: string): string {
    match p
    case Char(c) => [c] + more
    case Literal(body) => "\"" + (body + ("\"" + more))
    case LineRemark(body) => "//" + (body + more)
    case BlockRemark(body) => "/*" + (body + ("*/" + more))
  }

  function Source(pieces: seq<Piece>, ending: Ending): string {
    if pieces != [] then Written(pieces[0], Source(pieces[1..], ending))
    else match ending
      case Whole => ""
      case OpenLiteral(body) => "\"" + body
      case OpenBlock(body) => "/*" + body
  }

  /** What stripping keeps. Of a block comment that never ends it keeps the
      last byte too. */
  function Kept(pieces: seq<Piece>, ending: Ending): string {
    if pieces != [] then
      (match pieces[0]
       case Char(c) => [c]
       case Literal(body) => "\"" + (body + "\"")
       case LineRemark(_) => ""
       case BlockRemark(body) => JustNewlines(body))
      + Kept(pieces[1..], ending)
    else match ending
      case Whole => ""
      case OpenLiteral(body) => "\"" + body
      case OpenBlock(body) =>
        if body == "" then "" else JustNewlines(body[..|body| - 1]) + [body[|body| - 1]]
  }

  function JustNewlines(s: string): string {
    if s == "" then "" else (if s[0] == '\n' then "\n" else "") + JustNewlines(s[1..])
  }

  // ---------------------------------------------------------------------
  // Which rows are texts
  // ---------------------------------------------------------------------

  /** No quote but behind a backslash, and no backslash left at the end. */
  predicate Closed(body: string) {
    if body == "" then true
    else if body[0] == '\\' then |body| >= 2 && Closed(body[2..])
    else body[0] != '"' && Closed(body[1..])
  }

  /** The same, with perhaps one backslash left at the end. */
  predicate Unclosed(body: string) {
    if body == "" then true
    else if body[0] == '\\' then |body| < 2 || Unclosed(body[2..])
    else body[0] != '"' && Unclosed(body[1..])
  }

  ghost predicate NoClose(body: string) { forall i | 0 <= i < |body| - 1 :: !(body[i] == '*' && body[i + 1] == '/') }

  ghost predicate OneLine(body: string) { forall i | 0 <= i < |body| :: body[i] != '\n' }

  /** A piece in front of `more`: no character opens a comment or a string, and
      a line comment goes up to its newline. */
  ghost predicate Fits(p: Piece, more: string) {
    match p
    case Char(c) => c != '"' && (c == '/' && more != "" ==> more[0] != '/' && more[0] != '*')
    case Literal(body) => Closed(body)
    case LineRemark(body) => OneLine(body) && (more != "" ==> more[0] == '\n')
    case BlockRemark(body) => NoClose(body)
  }

  ghost predicate Wellformed(pieces: seq<Piece>, ending: Ending) {
    if pieces != [] then Fits(pieces[0], Source(pieces[1..], ending)) && Wellformed(pieces[1..], ending)
    else match ending
      case Whole => true
      case OpenLiteral(body) => Unclosed(body)
      case OpenBlock(body) => NoClose(body)
  }

  // ---------------------------------------------------------------------
  // Stripping, piece by piece
  // ---------------------------------------------------------------------

  lemma {:induction false} LiteralCopied(body: string, more: string)
    requires Closed(body)
    ensures Quoted(body + ("\"" + more)) == body + ("\"" + Code(more))
    decreases |body|
  {
    hide Code, Quoted;
    var end := "\"" + more;
    if body == "" {
      assert body + end == end;
      QuoteCloses(more);
    } else {
      var n := UnitLen(body);
      LiteralCopied(body[n..], more);
      QuoteStep(body, end);
      assert body == body[..n] + body[n..];
    }
  }

  /** How long the next character of a string body is. */
  function UnitLen(b: string): nat { if b != "" && b[0] == '\\' then 2 else 1 }

  lemma QuoteCloses(more: string)
    ensures Quoted("\"" + more) == "\"" + Code(more)
  {
    hide Code;
    assert ("\"" + more)[1..] == more;
  }

  /** The next character of a string body is copied. */
  lemma QuoteStep(body: string, end: string)
    requires body != "" && body[0] != '"' && UnitLen(body) <= |body|
    ensures Quoted(body + end) == body[..UnitLen(body)] + Quoted(body[UnitLen(body)..] + end)
  {
    hide Code;
    var n := UnitLen(body);
    assert (body + end)[..n] == body[..n] && (body + end)[n..] == body[n..] + end;
  }

  lemma {:induction false} OpenLiteralCopied(body: string)
    requires Unclosed(body)
    ensures Quoted(body) == body
    decreases |body|
  {
    if body != "" {
      if body[0] == '\\' && |body| >= 2 {
        OpenLiteralCopied(body[2..]);
        assert body == body[..2] + body[2..];
      } else {
        OpenLiteralCopied(body[1..]);
        assert body == [body[0]] + body[1..];
      }
    }
  }

  lemma {:induction false} LineSkipped(body: string, more: string)
    requires OneLine(body) && (more != "" ==> more[0] == '\n')
    ensures LineComment(body + more) == Code(more)
    decreases |body|
  {
    hide Code;
    if body == "" {
      assert body + more == more;
      if more == "" { NothingLeft(); }
    } else {
      assert (body + more)[1..] == body[1..] + more;
      LineSkipped(body[1..], more);
    }
  }

  lemma NothingLeft()
    ensures Code("") == ""
  {
  }

  lemma BlockCons(c: char, t: string)
    requires t != "" && !(c == '*' && t[0] == '/')
    ensures BlockComment([c] + t) == (if c == '\n' then "\n" else "") + BlockComment(t)
  {
    hide Code;
    assert ([c] + t)[1..] == t;
  }

  lemma BlockDone(more: string)
    ensures BlockComment("*/" + more) == Code(more)
  {
    hide Code;
    assert ("*/" + more)[2..] == more;
  }

  lemma {:induction false} BlockSkipped(body: string, more: string)
    requires NoClose(body)
    ensures BlockComment(body + ("*/" + more)) == JustNewlines(body) + Code(more)
    decreases |body|
  {
    hide Code, BlockComment;
    var end := "*/" + more;
    if body == "" {
      assert body + end == end;
      BlockDone(more);
      assert JustNewlines(body) + Code(more) == Code(more);
    } else {
      var t := body[1..] + end;
      assert body + end == [body[0]] + t;
      assert t[0] == if |body| > 1 then body[1] else '*';
      BlockSkipped(body[1..], more);
      BlockCons(body[0], t);
      Assoc(if body[0] == '\n' then "\n" else "", JustNewlines(body[1..]), Code(more));
    }
  }

  lemma {:induction false} OpenBlockSkipped(body: string)
    requires NoClose(body) && body != ""
    ensures BlockComment(body) == JustNewlines(body[..|body| - 1]) + [body[|body| - 1]]
    decreases |body|
  {
    if |body| == 1 {
      assert Code(body) == body;
    } else {
      assert body[1..][..|body| - 2] == body[..|body| - 1][1..];
      OpenBlockSkipped(body[1..]);
    }
  }

  lemma CharStripped(c: char, more: string)
    requires Fits(Char(c), more)
    ensures Code([c] + more) == [c] + Code(more)
  {
    assert ([c] + more)[1..] == more;
  }

  lemma LiteralStripped(body: string, more: string)
    requires Closed(body)
    ensures Code("\"" + (body + ("\"" + more))) == "\"" + (body + "\"") + Code(more)
  {
    hide Quoted;
    var s := "\"" + (body + ("\"" + more));
    assert s[0] == '"' && s[1..] == body + ("\"" + more);
    assert Code(s) == "\"" + Quoted(s[1..]);
    LiteralCopied(body, more);
    assert "\"" + (body + ("\"" + Code(more))) == "\"" + (body + "\"") + Code(more);
  }

  lemma LineStripped(body: string, more: string)
    requires OneLine(body) && (more != "" ==> more[0] == '\n')
    ensures Code("//" + (body + more)) == Code(more)
  {
    hide LineComment;
    var s := "//" + (body + more);
    assert s[2..] == body + more && Opens(s, '/');
    LineSkipped(body, more);
  }

  lemma BlockStripped(body: string, more: string)
    requires NoClose(body)
    ensures Code("/*" + (body + ("*/" + more))) == JustNewlines(body) + Code(more)
  {
    hide BlockComment;
    var s := "/*" + (body + ("*/" + more));
    assert s[2..] == body + ("*/" + more) && Opens(s, '*') && !Opens(s, '/');
    BlockSkipped(body, more);
  }

  lemma PieceStripped(p: Piece, more: string)
    requires Fits(p, more)
    ensures Code(Written(p, more)) == (match p
                                       case Char(c) => [c]
                                       case Literal(body) => "\"" + (body + "\"")
                                       case LineRemark(_) => ""
                                       case BlockRemark(body) => JustNewlines(body)) + Code(more)
  {
    hide Code;
    match p {
      case Char(c) => CharStripped(c, more);
      case Literal(body) => LiteralStripped(body, more);
      case LineRemark(body) =>
        LineStripped(body, more);
        assert "" + Code(more) == Code(more);
      case BlockRemark(body) => BlockStripped(body, more);
    }
  }

  /** MAIN RESULT. Of any row of pieces stripping keeps the characters, the
      string literals and the newlines of block comments. */
  lemma {:induction false} CodeKeeps(pieces: seq<Piece>, ending: Ending)
    requires Wellformed(pieces, ending)
    ensures Code(Source(pieces, ending)) == Kept(pieces, ending)
  {
    hide Code;
    if pieces != [] {
      PieceStripped(pieces[0], Source(pieces[1..], ending));
      CodeKeeps(pieces[1..], ending);
    } else {
      EndStripped(ending);
    }
  }

  lemma EndStripped(ending: Ending)
    requires Wellformed([], ending)
    ensures Code(Source([], ending)) == Kept([], ending)
  {
    match ending
    case Whole =>
    case OpenLiteral(body) =>
      assert ("\"" + body)[1..] == body;
      OpenLiteralCopied(body);
    case OpenBlock(body) =>
      assert ("/*" + body)[2..] == body;
      if body != "" { OpenBlockSkipped(body); }
  }

  // ---------------------------------------------------------------------
  // Every text is such a row
  // ---------------------------------------------------------------------

  lemma BodyCons(b: string, rest: string)
    requires b != "" && b[0] != '"' && UnitLen(b) <= |b|
    ensures Closed(rest) ==> Closed(b[..UnitLen(b)] + rest)
    ensures Unclosed(b[UnitLen(b)..]) ==> Unclosed(b)
  {
    var body := b[..UnitLen(b)] + rest;
    assert body[UnitLen(b)..] == rest;
  }

  /** Where a string body ends, if it does. */
  lemma {:induction false} SplitLiteral(b: string) returns (body: string, closed: bool)
    ensures closed ==> Closed(body) && |body| < |b| && b == body + ("\"" + b[|body| + 1..])
    ensures !closed ==> Unclosed(b)
    decreases |b|
  {
    if b == "" || (b[0] != '"' && UnitLen(b) > |b|) {
      return "", false;
    } else if b[0] == '"' {
      assert b == "" + ("\"" + b[1..]);
      return "", true;
    }
    hide Closed, Unclosed;
    var n, rest := UnitLen(b), "";
    rest, closed := SplitLiteral(b[n..]);
    body := b[..n] + rest;
    BodyCons(b, rest);
    if closed { Rejoined(b, n, rest); }
  }

  lemma Rejoined(b: string, n: nat, rest: string)
    requires n <= |b| && |rest| < |b| - n && b[n..] == rest + ("\"" + b[n..][|rest| + 1..])
    ensures var body := b[..n] + rest; |body| < |b| && b == body + ("\"" + b[|body| + 1..])
  {
    var body := b[..n] + rest;
    assert b[n..][|rest| + 1..] == b[|body| + 1..];
    assert b == b[..n] + b[n..];
  }

  predicate ClosesAt(b: string, i: nat) { i + 1 < |b| && b[i] == '*' && b[i + 1] == '/' }

  /** Where a block comment ends, the length of the text if nowhere. */
  function CloseFrom(b: string, i: nat): (n: nat)
    requires i <= |b|
    ensures i <= n <= |b| && (ClosesAt(b, n) || n == |b|)
    ensures forall k | i <= k < n :: !ClosesAt(b, k)
    decreases |b| - i
  {
    if i == |b| || ClosesAt(b, i) then i else CloseFrom(b, i + 1)
  }

  lemma SplitBlock(b: string) returns (body: string, closed: bool)
    ensures closed ==> NoClose(body) && |body| + 2 <= |b| && b == body + ("*/" + b[|body| + 2..])
    ensures !closed ==> NoClose(b)
  {
    var n := CloseFrom(b, 0);
    body, closed := b[..n], n < |b|;
    forall i | 0 <= i < |body| - 1 ensures !(body[i] == '*' && body[i + 1] == '/') {
      assert !ClosesAt(b, i) && body[i] == b[i] && body[i + 1] == b[i + 1];
    }
    if closed { assert b == body + ("*/" + b[n + 2..]); }
  }

  lemma {:induction false} SplitLine(b: string) returns (body: string)
    ensures body <= b && OneLine(body) && (|body| < |b| ==> b[|body|] == '\n')
    decreases |b|
  {
    if b == "" || b[0] == '\n' {
      return "";
    }
    var rest := SplitLine(b[1..]);
    body := [b[0]] + rest;
    assert b == [b[0]] + b[1..];
  }

  /** One more piece in front. */
  lemma Prepended(p: Piece, pieces: seq<Piece>, ending: Ending, more: string)
    requires Wellformed(pieces, ending) && Source(pieces, ending) == more && Fits(p, more)
    ensures Wellformed([p] + pieces, ending) && Source([p] + pieces, ending) == Written(p, more)
  {
    assert ([p] + pieces)[1..] == pieces;
  }

  lemma {:induction false} EveryText(b: string) returns (pieces: seq<Piece>, ending: Ending)
    ensures Wellformed(pieces, ending) && Source(pieces, ending) == b
    decreases |b|
  {
    hide Wellformed, Source, Fits;
    if b == "" {
      pieces, ending := NothingWritten();
    } else if Opens(b, '/') {
      var body := SplitLine(b[2..]);
      var more := b[2 + |body|..];
      pieces, ending := EveryText(more);
      LineFits(b, body);
      Prepended(LineRemark(body), pieces, ending, more);
      pieces := [LineRemark(body)] + pieces;
    } else if Opens(b, '*') {
      var body, closed := SplitBlock(b[2..]);
      if !closed {
        pieces, ending := OpenBlockWritten(b);
        return;
      }
      var more := b[4 + |body|..];
      pieces, ending := EveryText(more);
      BlockFits(b, body);
      Prepended(BlockRemark(body), pieces, ending, more);
      pieces := [BlockRemark(body)] + pieces;
    } else if b[0] == '"' {
      var body, closed := SplitLiteral(b[1..]);
      if !closed {
        pieces, ending := OpenLiteralWritten(b);
        return;
      }
      var more := b[2 + |body|..];
      pieces, ending := EveryText(more);
      LiteralFits(b, body);
      Prepended(Literal(body), pieces, ending, more);
      pieces := [Literal(body)] + pieces;
    } else {
      pieces, ending := EveryText(b[1..]);
      CharFits(b);
      Prepended(Char(b[0]), pieces, ending, b[1..]);
      pieces := [Char(b[0])] + pieces;
    }
  }

  lemma NothingWritten() returns (pieces: seq<Piece>, ending: Ending)
    ensures Wellformed(pieces, ending) && Source(pieces, ending) == ""
  {
    return [], Whole;
  }

  lemma OpenBlockWritten(b: string) returns (pieces: seq<Piece>, ending: Ending)
    requires Opens(b, '*') && NoClose(b[2..])
    ensures Wellformed(pieces, ending) && Source(pieces, ending) == b
  {
    assert b == "/*" + b[2..];
    return [], OpenBlock(b[2..]);
  }

  lemma OpenLiteralWritten(b: string) returns (pieces: seq<Piece>, ending: Ending)
    requires b != "" && b[0] == '"' && Unclosed(b[1..])
    ensures Wellformed(pieces, ending) && Source(pieces, ending) == b
  {
    assert b == "\"" + b[1..];
    return [], OpenLiteral(b[1..]);
  }

  lemma LineFits(b: string, body: string)
    requires Opens(b, '/') && body <= b[2..] && OneLine(body)
    requires |body| < |b| - 2 ==> b[2..][|body|] == '\n'
    ensures Fits(LineRemark(body), b[2 + |body|..]) && Written(LineRemark(body), b[2 + |body|..]) == b
  {
    assert b == "//" + b[2..] && b[2..] == body + b[2 + |body|..];
  }

  lemma BlockFits(b: string, body: string)
    requires Opens(b, '*') && NoClose(body) && |body| + 4 <= |b|
    requires b[2..] == body + ("*/" + b[2..][|body| + 2..])
    ensures Fits(BlockRemark(body), b[4 + |body|..]) && Written(BlockRemark(body), b[4 + |body|..]) == b
  {
    assert b == "/*" + b[2..] && b[2..][|body| + 2..] == b[4 + |body|..];
  }

  lemma LiteralFits(b: string, body: string)
    requires b != "" && b[0] == '"' && Closed(body) && |body| + 2 <= |b|
    requires b[1..] == body + ("\"" + b[1..][|body| + 1..])
    ensures Fits(Literal(body), b[2 + |body|..]) && Written(Literal(body), b[2 + |body|..]) == b
  {
    assert b == "\"" + b[1..] && b[1..][|body| + 1..] == b[2 + |body|..];
  }

  lemma CharFits(b: string)
    requires b != "" && b[0] != '"' && !Opens(b, '/') && !Opens(b, '*')
    ensures Fits(Char(b[0]), b[1..]) && Written(Char(b[0]), b[1..]) == b
  {
    assert b == [b[0]] + b[1..];
  }

  /** MAIN RESULT. Every input's bytes are such a row, and what is kept of it
      is what stripping returns. */
  lemma StripMeans(input: string)
    ensures exists pieces, ending ::
      Wellformed(pieces, ending) && Source(pieces, ending) == Utf8(input) && Strip(input) == Kept(pieces, ending)
  {
    hide Wellformed, Source, Kept, Code, Utf8;
    var pieces, ending := EveryText(Utf8(input));
    CodeKeeps(pieces, ending);
  }

  // ---------------------------------------------------------------------
  // The bytes of a character
  // ---------------------------------------------------------------------

  /** The number that one to four bytes encode (section 3 of RFC 3629). */
  function Decoded(b: string): int
    requires 1 <= |b| <= 4
  {
    if |b| == 1 then b[0] as int
    else if |b| == 2 then (b[0] as int - 0xC0) * 64 + (b[1] as int - 0x80)
    else if |b| == 3 then (b[0] as int - 0xE0) * 4096 + (b[1] as int - 0x80) * 64 + (b[2] as int - 0x80)
    else (b[0] as int - 0xF0) * 262144 + (b[1] as int - 0x80) * 4096 + (b[2] as int - 0x80) * 64 + (b[3] as int - 0x80)
  }

  predicate Follows(c: char) { 0x80 <= c as int < 0xC0 }

  /** Every character is encoded as its number, in the form that its length
      calls for and in no longer one. */
  lemma Utf8CharDecodes(c: char)
    ensures var b := Utf8Char(c);
      && |b| == (if c as int < 0x80 then 1 else if c as int < 0x800 then 2 else if c as int < 0x1_0000 then 3 else 4)
      && Decoded(b) == c as int
      && (forall i | 1 <= i < |b| :: Follows(b[i]))
      && (|b| == 2 ==> 0xC2 <= b[0] as int < 0xE0) && (|b| == 3 ==> 0xE0 <= b[0] as int < 0xF0)
      && (|b| == 4 ==> 0xF0 <= b[0] as int < 0xF5)
  {
    var n := c as int;
    assert n < 0x11_0000;
    assert n == n / 64 * 64 + n % 64;
    assert n / 64 == n / 4096 * 64 + n / 64 % 64;
    assert n / 4096 == n / 262144 * 64 + n / 4096 % 64;
  }
}
