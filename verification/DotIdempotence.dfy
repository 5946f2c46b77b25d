/** On which inputs stripping comments twice is stripping them once
    (crates/attractor-dot/src/parser.rs:21-71), read off the input itself. */
module DotIdempotence {
  import opened DotComments

  // ---------------------------------------------------------------------
  // The condition: what is no comment is ASCII
  // ---------------------------------------------------------------------

  /** Every character that the scanner keeps is ASCII, from outside strings
      and comments on. */
  predicate Plain(b: string)
    decreases |b|, 0
  {
    if b == "" then true
    else if Opens(b, '/') then PlainAfterLine(b[2..])
    else if Opens(b, '*') then PlainAfterBlock(b[2..])
    else if b[0] == '"' then PlainInString(b[1..])
    else b[0] as int < 0x80 && Plain(b[1..])
  }

  /** The same from inside a line comment. */
  predicate PlainAfterLine(b: string)
    decreases |b|, 1
  {
    b == "" || if b[0] == '\n' then Plain(b) else PlainAfterLine(b[1..])
  }

  /** The same from inside a block comment; the last character of one that is
      never closed is kept. */
  predicate PlainAfterBlock(b: string)
    decreases |b|, 1
  {
    if |b| < 2 then Plain(b)
    else if b[0] == '*' && b[1] == '/' then Plain(b[2..])
    else PlainAfterBlock(b[1..])
  }

  /** The same from inside a string. */
  predicate PlainInString(b: string)
    decreases |b|, 0
  {
    if b == "" then true
    else if b[0] == '\\' && |b| >= 2 then b[1] as int < 0x80 && PlainInString(b[2..])
    else if b[0] == '"' then Plain(b[1..])
    else b[0] as int < 0x80 && PlainInString(b[1..])
  }

  // ---------------------------------------------------------------------
  // It says when the output is ASCII
  // ---------------------------------------------------------------------

  lemma AsciiConcat(a: string, b: string)
    ensures IsAscii(a + b) <==> IsAscii(a) && IsAscii(b)
  {
    if IsAscii(a + b) {
      assert forall i | 0 <= i < |a| :: a[i] == (a + b)[i];
      assert forall i | 0 <= i < |b| :: b[i] == (a + b)[|a| + i];
    }
  }

  lemma {:induction false} CodeAscii(b: string)
    ensures IsAscii(Code(b)) <==> Plain(b)
    decreases |b|, 0
  {
    hide IsAscii;
    if b == "" {
      NothingAscii();
    } else if Opens(b, '/') {
      LineAscii(b[2..]);
    } else if Opens(b, '*') {
      BlockAscii(b[2..]);
    } else if b[0] == '"' {
      QuotedAscii(b[1..]);
      AsciiConcat("\"", Quoted(b[1..]));
      OneAscii('"');
    } else {
      CodeAscii(b[1..]);
      AsciiConcat([b[0]], Code(b[1..]));
      OneAscii(b[0]);
    }
  }

  lemma {:induction false} LineAscii(b: string)
    ensures IsAscii(LineComment(b)) <==> PlainAfterLine(b)
    decreases |b|, 1
  {
    if b == "" {
    } else if b[0] == '\n' {
      CodeAscii(b);
    } else {
      LineAscii(b[1..]);
    }
  }

  lemma {:induction false} BlockAscii(b: string)
    ensures IsAscii(BlockComment(b)) <==> PlainAfterBlock(b)
    decreases |b|, 1
  {
    if |b| < 2 {
      CodeAscii(b);
    } else if b[0] == '*' && b[1] == '/' {
      CodeAscii(b[2..]);
    } else {
      BlockAscii(b[1..]);
      AsciiConcat(if b[0] == '\n' then "\n" else "", BlockComment(b[1..]));
    }
  }

  lemma {:induction false} QuotedAscii(b: string)
    ensures IsAscii(Quoted(b)) <==> PlainInString(b)
    decreases |b|, 0
  {
    hide IsAscii;
    if b == "" {
      NothingAscii();
    } else if b[0] == '\\' && |b| >= 2 {
      QuotedAscii(b[2..]);
      AsciiConcat(b[..2], Quoted(b[2..]));
      AsciiConcat([b[0]], [b[1]]);
      assert b[..2] == [b[0]] + [b[1]];
      OneAscii(b[0]);
      OneAscii(b[1]);
    } else if b[0] == '"' {
      CodeAscii(b[1..]);
      AsciiConcat("\"", Code(b[1..]));
      OneAscii('"');
    } else {
      QuotedAscii(b[1..]);
      AsciiConcat([b[0]], Quoted(b[1..]));
      OneAscii(b[0]);
    }
  }

  lemma NothingAscii()
    ensures IsAscii("")
  {
  }

  lemma OneAscii(c: char)
    ensures IsAscii([c]) <==> c as int < 0x80
  {
    assert [c][0] == c;
  }

  // ---------------------------------------------------------------------
  // It may be read on characters instead of bytes
  // ---------------------------------------------------------------------

  /** Bytes of one character that is not ASCII: kept, they spoil the output; in
      a comment they are passed over. */
  lemma {:induction false} MultiByte(p: string, tail: string)
    requires p != "" && forall i | 0 <= i < |p| :: p[i] as int >= 0x80
    ensures !Plain(p + tail) && !PlainInString(p + tail)
    ensures PlainAfterLine(p + tail) <==> PlainAfterLine(tail)
    ensures PlainAfterBlock(p + tail) <==> tail != "" && PlainAfterBlock(tail)
    decreases |p|
  {
    assert (p + tail)[0] == p[0] && (p + tail)[1..] == p[1..] + tail;
    if |p| == 1 {
      assert p[1..] + tail == tail;
    } else {
      MultiByte(p[1..], tail);
    }
  }

  lemma {:induction false} PlainBytes(s: string)
    ensures Plain(Utf8(s)) <==> Plain(s)
    ensures PlainInString(Utf8(s)) <==> PlainInString(s)
    ensures PlainAfterLine(Utf8(s)) <==> PlainAfterLine(s)
    ensures PlainAfterBlock(Utf8(s)) <==> PlainAfterBlock(s)
    decreases |s|
  {
    hide Utf8, Utf8Char;
    Utf8Nothing(s);
    if s != "" {
      PlainBytes(s[1..]);
      Utf8Cons(s);
      Utf8Nothing(s[1..]);
      if s[0] as int >= 0x80 {
        MultiByte(Utf8Char(s[0]), Utf8(s[1..]));
      } else if |s| >= 2 {
        assert s[1..][1..] == s[2..];
        PlainBytes(s[2..]);
        SecondByte(s);
      }
    }
  }

  lemma Utf8Nothing(s: string)
    ensures Utf8(s) == "" <==> s == ""
  {
  }

  /** Behind an ASCII character the next one begins, as itself if ASCII too. */
  lemma SecondByte(s: string)
    requires |s| >= 2 && s[0] as int < 0x80
    ensures |Utf8(s)| >= 2 && Utf8(s)[0] == s[0] && Utf8(s)[1..] == Utf8(s[1..])
    ensures if s[1] as int < 0x80 then Utf8(s)[1] == s[1] && Utf8(s)[2..] == Utf8(s[2..]) else Utf8(s)[1] as int >= 0x80
  {
    hide Utf8, Utf8Char;
    Utf8Cons(s);
    Utf8Cons(s[1..]);
    assert s[1..][1..] == s[2..];
    var first, second := Utf8Char(s[0]), Utf8Char(s[1]);
    assert Utf8(s) == first + (second + Utf8(s[2..]));
    assert Utf8(s)[1..] == second + Utf8(s[2..]);
    assert Utf8(s)[1] == second[0];
    if s[1] as int < 0x80 { assert Utf8(s)[2..] == Utf8(s[2..]); }
  }

  // ---------------------------------------------------------------------
  // Main results
  // ---------------------------------------------------------------------

  /** MAIN RESULT. Stripping comments twice is stripping them once if and only
      if every character outside comments is ASCII. */
  lemma StripIdempotent(s: string)
    ensures Strip(Strip(s)) == Strip(s) <==> Plain(s)
  {
    StripTwice(s);
    CodeAscii(Utf8(s));
    PlainBytes(s);
  }

  lemma {:induction false} AsciiIsPlain(s: string)
    requires IsAscii(s)
    ensures Plain(s) && PlainInString(s) && PlainAfterLine(s) && PlainAfterBlock(s)
    decreases |s|
  {
    if s != "" { AsciiIsPlain(s[1..]); }
    if |s| >= 2 { AsciiIsPlain(s[2..]); }
  }

  /** MAIN RESULT. In particular for every ASCII input, whatever comments and
      strings it leaves open. */
  lemma AsciiIdempotent(s: string)
    requires IsAscii(s)
    ensures Strip(Strip(s)) == Strip(s)
  {
    AsciiIsPlain(s);
    StripIdempotent(s);
  }

  /** A single e with an acute accent is four characters after two passes. */
  lemma StripTwiceDiffers()
    ensures !Plain("\U{E9}") && Strip("\U{E9}") == "\U{C3}\U{A9}"
    ensures Strip(Strip("\U{E9}")) != Strip("\U{E9}")
  {
    var s := "\U{E9}";
    assert s[1..] == "" && Utf8(s) == Utf8Char(s[0]) + "";
    assert Utf8(s) == "\U{C3}\U{A9}";
    StripClean(s);
    StripIdempotent(s);
  }

  /** The same character in a comment does no harm. */
  lemma CommentsMayHoldAnything(text: string)
    requires '\n' !in text
    ensures Strip(Strip("//" + text)) == Strip("//" + text)
  {
    assert ("//" + text)[2..] == text;
    LineEndsPlain(text);
    StripIdempotent("//" + text);
  }

  lemma {:induction false} LineEndsPlain(text: string)
    requires '\n' !in text
    ensures PlainAfterLine(text)
    decreases |text|
  {
    if text != "" { LineEndsPlain(text[1..]); }
  }
}
