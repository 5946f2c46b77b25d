/** Comment stripping (crates/attractor-dot/src/parser.rs:20-71). The code walks
    the UTF-8 bytes of the input and pushes each kept byte as one character, so
    bytes are written here as characters below 256. */
module DotComments {
  predicate IsAscii(s: string) { forall i | 0 <= i < |s| :: s[i] as int < 0x80 }

  // ---------------------------------------------------------------------
  // UTF-8
  // ---------------------------------------------------------------------

  function Utf8Char(c: char): (b: string)
    ensures |b| >= 1 && (|b| == 1 <==> c as int < 0x80) && (|b| == 1 ==> b == [c])
    ensures |b| > 1 ==> forall i | 0 <= i < |b| :: b[i] as int >= 0x80
  {
    var n := c as int;
    if n < 0x80 then [c]
    else if n < 0x800 then [(0xC0 + n / 64) as char, (0x80 + n % 64) as char]
    else if n < 0x1_0000 then
      [(0xE0 + n / 4096) as char, (0x80 + n / 64 % 64) as char, (0x80 + n % 64) as char]
    else
      [(0xF0 + n / 262144) as char, (0x80 + n / 4096 % 64) as char,
       (0x80 + n / 64 % 64) as char, (0x80 + n % 64) as char]
  }

  function Utf8(s: string): string {
    if s == "" then "" else Utf8Char(s[0]) + Utf8(s[1..])
  }

  lemma {:induction false} Utf8Concat(a: string, b: string)
    ensures Utf8(a + b) == Utf8(a) + Utf8(b)
  {
    if a == "" {
      assert a + b == b;
    } else {
      assert (a + b)[1..] == a[1..] + b;
      Utf8Concat(a[1..], b);
    }
  }

  lemma {:induction false} Utf8Ascii(s: string)
    requires IsAscii(s)
    ensures Utf8(s) == s
  {
    if s != "" {
      Utf8Ascii(s[1..]);
      assert s == [s[0]] + s[1..];
    }
  }

  /** Encoding never shortens, and lengthens exactly the texts that are not ASCII. */
  lemma {:induction false} Utf8Length(s: string)
    ensures |Utf8(s)| >= |s| && (|Utf8(s)| == |s| <==> IsAscii(s))
  {
    if s != "" {
      Utf8Length(s[1..]);
      assert IsAscii(s) <==> (s[0] as int < 0x80 && IsAscii(s[1..])) by {
        if s[0] as int < 0x80 && IsAscii(s[1..]) {
          forall i | 0 <= i < |s| ensures s[i] as int < 0x80 {
            if i > 0 { assert s[i] == s[1..][i - 1]; }
          }
        }
        if IsAscii(s) {
          forall i | 0 <= i < |s[1..]| ensures s[1..][i] as int < 0x80 { assert s[1..][i] == s[i + 1]; }
        }
      }
    }
  }

  // ---------------------------------------------------------------------
  // The scanner
  // ---------------------------------------------------------------------

  predicate Opens(b: string, c: char) { |b| >= 2 && b[0] == '/' && b[1] == c }

  /** Output while outside strings and comments. */
  function Code(b: string): (r: string)
    ensures |r| <= |b|
    decreases |b|, 0
  {
    if b == "" then ""
    else if Opens(b, '/') then LineComment(b[2..])
    else if Opens(b, '*') then BlockComment(b[2..])
    else if b[0] == '"' then "\"" + Quoted(b[1..])
    else [b[0]] + Code(b[1..])
  }

  /** Inside a line comment: the newline that ends it stays. */
  function LineComment(b: string): (r: string)
    ensures |r| <= |b|
    decreases |b|, 1
  {
    if b == "" then "" else if b[0] == '\n' then Code(b) else LineComment(b[1..])
  }

  /** Inside a block comment: newlines stay; unterminated, its last byte is
      scanned as code. */
  function BlockComment(b: string): (r: string)
    ensures |r| <= |b|
    decreases |b|, 1
  {
    if |b| < 2 then Code(b)
    else if b[0] == '*' && b[1] == '/' then Code(b[2..])
    else (if b[0] == '\n' then "\n" else "") + BlockComment(b[1..])
  }

  /** Inside a string literal: copied, with the byte after a backslash. */
  function Quoted(b: string): (r: string)
    ensures |r| <= |b|
    decreases |b|, 0
  {
    if b == "" then ""
    else if b[0] == '\\' && |b| >= 2 then b[..2] + Quoted(b[2..])
    else if b[0] == '"' then "\"" + Code(b[1..])
    else [b[0]] + Quoted(b[1..])
  }

  function Strip(input: string): string { Code(Utf8(input)) }

  /** One step of the scanner, by index. */
  lemma CodeAt(b: string, i: nat)
    requires i < |b|
    ensures Code(b[i..]) ==
      if i + 1 < |b| && b[i] == '/' && b[i + 1] == '/' then LineComment(b[i + 2..])
      else if i + 1 < |b| && b[i] == '/' && b[i + 1] == '*' then BlockComment(b[i + 2..])
      else if b[i] == '"' then "\"" + Quoted(b[i + 1..])
      else [b[i]] + Code(b[i + 1..])
  {
    assert b[i..][1..] == b[i + 1..];
    if i + 1 < |b| {
      assert b[i..][2..] == b[i + 2..];
    }
  }

  lemma QuotedAt(b: string, i: nat)
    requires i < |b|
    ensures Quoted(b[i..]) ==
      if b[i] == '\\' && i + 1 < |b| then [b[i], b[i + 1]] + Quoted(b[i + 2..])
      else if b[i] == '"' then "\"" + Code(b[i + 1..])
      else [b[i]] + Quoted(b[i + 1..])
  {
    assert b[i..][1..] == b[i + 1..];
    if i + 1 < |b| {
      assert b[i..][2..] == b[i + 2..] && b[i..][..2] == [b[i], b[i + 1]];
    }
  }

  lemma Assoc(a: string, b: string, c: string)
    ensures a + b + c == a + (b + c)
  {
  }

  /** `strip_comments`: nested loops over one index that fill `out`. */
  method StripComments(input: string) returns (out: string)
    ensures out == Strip(input)
  {
    out := "";
    var b := Utf8(input);
    var i := 0;
    assert b[0..] == b;
    while i < |b|
      invariant 0 <= i <= |b|
      invariant out + Code(b[i..]) == Code(b)
    {
      CodeAt(b, i);
      ghost var kept := out;
      if i + 1 < |b| && b[i] == '/' && b[i + 1] == '/' {
        i := SkipLine(b, i + 2);
      } else if i + 1 < |b| && b[i] == '/' && b[i + 1] == '*' {
        var newlines;
        newlines, i := SkipBlock(b, i + 2);
        out := out + newlines;
        Assoc(kept, newlines, Code(b[i..]));
      } else if b[i] == '"' {
        var text;
        text, i := CopyString(b, i + 1);
        out := out + ("\"" + text);
        Assoc("\"", text, Code(b[i..]));
        Assoc(kept, "\"" + text, Code(b[i..]));
      } else {
        out := out + [b[i]];
        i := i + 1;
        Assoc(kept, [b[i - 1]], Code(b[i..]));
      }
    }
  }

  method SkipLine(b: string, start: nat) returns (i: nat)
    requires start <= |b|
    ensures start <= i <= |b| && LineComment(b[start..]) == Code(b[i..])
  {
    i := start;
    while i < |b| && b[i] != '\n'
      invariant start <= i <= |b|
      invariant LineComment(b[i..]) == LineComment(b[start..])
    {
      i := i + 1;
    }
  }

  /** One step inside a block comment, by index. */
  lemma BlockStep(b: string, i: nat)
    requires i <= |b|
    ensures BlockComment(b[i..]) ==
      if i + 1 >= |b| then Code(b[i..])
      else if b[i] == '*' && b[i + 1] == '/' then Code(b[i + 2..])
      else (if b[i] == '\n' then "\n" else "") + BlockComment(b[i + 1..])
  {
    hide Code;
    if i + 1 < |b| { assert b[i..][1..] == b[i + 1..] && b[i..][2..] == b[i + 2..]; }
  }

  method SkipBlock(b: string, start: nat) returns (out: string, i: nat)
    requires start <= |b|
    ensures start <= i <= |b| && BlockComment(b[start..]) == out + Code(b[i..])
  {
    hide Code, BlockComment;
    out, i := "", start;
    while i + 1 < |b| && !(b[i] == '*' && b[i + 1] == '/')
      invariant start <= i <= |b|
      invariant out + BlockComment(b[i..]) == BlockComment(b[start..])
    {
      BlockStep(b, i);
      if b[i] == '\n' {
        out := out + "\n";
      }
      i := i + 1;
    }
    BlockStep(b, i);
    if i + 1 < |b| {
      i := i + 2;
    }
  }

  method CopyString(b: string, start: nat) returns (out: string, i: nat)
    requires start <= |b|
    ensures start <= i <= |b| && Quoted(b[start..]) == out + Code(b[i..])
  {
    hide Quoted, Code;
    out, i := "", start;
    while i < |b|
      invariant start <= i <= |b|
      invariant out + Quoted(b[i..]) == Quoted(b[start..])
    {
      QuotedAt(b, i);
      ghost var kept := out;
      if b[i] == '\\' && i + 1 < |b| {
        out := out + [b[i], b[i + 1]];
        i := i + 2;
        Assoc(kept, [b[i - 2], b[i - 1]], Quoted(b[i..]));
      } else if b[i] == '"' {
        out := out + "\"";
        i := i + 1;
        Assoc(kept, "\"", Code(b[i..]));
        return;
      } else {
        out := out + [b[i]];
        i := i + 1;
        Assoc(kept, [b[i - 1]], Quoted(b[i..]));
      }
    }
  }

  // ---------------------------------------------------------------------
  // Newlines survive
  // ---------------------------------------------------------------------

  function Newlines(s: string): nat {
    if s == "" then 0 else (if s[0] == '\n' then 1 else 0) + Newlines(s[1..])
  }

  lemma {:induction false} NewlinesConcat(a: string, b: string)
    ensures Newlines(a + b) == Newlines(a) + Newlines(b)
  {
    if a == "" {
      assert a + b == b;
    } else {
      assert (a + b)[1..] == a[1..] + b;
      NewlinesConcat(a[1..], b);
    }
  }

  lemma {:induction false} CodeNewlines(b: string)
    ensures Newlines(Code(b)) == Newlines(b)
    decreases |b|, 0
  {
    if b == "" {
    } else if Opens(b, '/') || Opens(b, '*') {
      assert b[1..][1..] == b[2..];
      if Opens(b, '/') { LineNewlines(b[2..]); } else { BlockNewlines(b[2..]); }
    } else if b[0] == '"' {
      QuotedNewlines(b[1..]);
    } else {
      CodeNewlines(b[1..]);
      NewlinesConcat([b[0]], Code(b[1..]));
    }
  }

  lemma {:induction false} LineNewlines(b: string)
    ensures Newlines(LineComment(b)) == Newlines(b)
    decreases |b|, 1
  {
    if b != "" {
      if b[0] == '\n' { CodeNewlines(b); } else { LineNewlines(b[1..]); }
    }
  }

  lemma {:induction false} BlockNewlines(b: string)
    ensures Newlines(BlockComment(b)) == Newlines(b)
    decreases |b|, 1
  {
    if |b| < 2 {
      CodeNewlines(b);
    } else if b[0] == '*' && b[1] == '/' {
      assert b[1..][1..] == b[2..];
      CodeNewlines(b[2..]);
    } else {
      BlockNewlines(b[1..]);
      NewlinesConcat(if b[0] == '\n' then "\n" else "", BlockComment(b[1..]));
    }
  }

  lemma {:induction false} QuotedNewlines(b: string)
    ensures Newlines(Quoted(b)) == Newlines(b)
    decreases |b|, 0
  {
    if b == "" {
    } else if b[0] == '\\' && |b| >= 2 {
      QuotedNewlines(b[2..]);
      NewlinesConcat(b[..2], Quoted(b[2..]));
      NewlinesConcat(b[..2], b[2..]);
      assert b[..2] + b[2..] == b;
    } else if b[0] == '"' {
      CodeNewlines(b[1..]);
    } else {
      QuotedNewlines(b[1..]);
      NewlinesConcat([b[0]], Quoted(b[1..]));
    }
  }

  lemma {:induction false} NoNewlines(s: string)
    requires forall i | 0 <= i < |s| :: s[i] != '\n'
    ensures Newlines(s) == 0
  {
    if s != "" { NoNewlines(s[1..]); }
  }

  lemma {:induction false} Utf8Newlines(s: string)
    ensures Newlines(Utf8(s)) == Newlines(s)
  {
    if s != "" {
      Utf8Newlines(s[1..]);
      NewlinesConcat(Utf8Char(s[0]), Utf8(s[1..]));
      if s[0] as int >= 0x80 { NoNewlines(Utf8Char(s[0])); }
    }
  }

  /** Line numbers stay correct: stripping keeps every newline, inside and
      outside comments, terminated or not. */
  lemma StripKeepsNewlines(input: string)
    ensures Newlines(Strip(input)) == Newlines(input)
  {
    CodeNewlines(Utf8(input));
    Utf8Newlines(input);
  }

  // ---------------------------------------------------------------------
  // Texts without comments
  // ---------------------------------------------------------------------

  /** No comment opens outside a string literal. */
  predicate Clean(b: string)
    decreases |b|
  {
    b == "" || (!Opens(b, '/') && !Opens(b, '*') && if b[0] == '"' then CleanQuoted(b[1..]) else Clean(b[1..]))
  }

  /** The same, starting inside a string literal. */
  predicate CleanQuoted(b: string)
    decreases |b|
  {
    if b == "" then true
    else if b[0] == '\\' && |b| >= 2 then CleanQuoted(b[2..])
    else if b[0] == '"' then Clean(b[1..])
    else CleanQuoted(b[1..])
  }

  lemma {:induction false} CodeIdentity(b: string)
    ensures Code(b) == b <==> Clean(b)
    decreases |b|
  {
    if b != "" && !Opens(b, '/') && !Opens(b, '*') {
      assert b == [b[0]] + b[1..];
      if b[0] == '"' { QuotedIdentity(b[1..]); } else { CodeIdentity(b[1..]); }
      var tail := if b[0] == '"' then Quoted(b[1..]) else Code(b[1..]);
      assert ([b[0]] + tail)[1..] == tail;
    }
  }

  lemma {:induction false} QuotedIdentity(b: string)
    ensures Quoted(b) == b <==> CleanQuoted(b)
    decreases |b|
  {
    if b == "" {
    } else if b[0] == '\\' && |b| >= 2 {
      QuotedIdentity(b[2..]);
      assert b == b[..2] + b[2..];
      assert (b[..2] + Quoted(b[2..]))[2..] == Quoted(b[2..]);
    } else {
      assert b == [b[0]] + b[1..];
      if b[0] == '"' { CodeIdentity(b[1..]); } else { QuotedIdentity(b[1..]); }
      var tail := if b[0] == '"' then Code(b[1..]) else Quoted(b[1..]);
      assert ([b[0]] + tail)[1..] == tail;
    }
  }

  /** What is copied starts with the first byte when no comment opens there. */
  lemma CodeStart(b: string)
    requires b != "" && b[0] != '/'
    ensures Code(b) != "" && Code(b)[0] == b[0]
  {
  }

  lemma CleanCons(c: char, tail: string)
    requires c != '"' && Clean(tail)
    requires c == '/' ==> tail == "" || (tail[0] != '/' && tail[0] != '*')
    ensures Clean([c] + tail)
  {
    assert ([c] + tail)[1..] == tail;
  }

  lemma {:induction false} CodeClean(b: string)
    ensures Clean(Code(b))
    decreases |b|, 0
  {
    if b == "" {
    } else if Opens(b, '/') {
      LineClean(b[2..]);
    } else if Opens(b, '*') {
      BlockClean(b[2..]);
    } else if b[0] == '"' {
      QuotedClean(b[1..]);
      assert ("\"" + Quoted(b[1..]))[1..] == Quoted(b[1..]);
    } else {
      CodeClean(b[1..]);
      if b[0] == '/' && |b| > 1 {
        CodeStart(b[1..]);
      }
      CleanCons(b[0], Code(b[1..]));
    }
  }

  lemma {:induction false} LineClean(b: string)
    ensures Clean(LineComment(b))
    decreases |b|, 1
  {
    if b != "" {
      if b[0] == '\n' { CodeClean(b); } else { LineClean(b[1..]); }
    }
  }

  lemma {:induction false} BlockClean(b: string)
    ensures Clean(BlockComment(b))
    decreases |b|, 1
  {
    if |b| < 2 {
      CodeClean(b);
    } else if b[0] == '*' && b[1] == '/' {
      CodeClean(b[2..]);
    } else {
      BlockClean(b[1..]);
      if b[0] == '\n' {
        CleanCons('\n', BlockComment(b[1..]));
      } else {
        assert "" + BlockComment(b[1..]) == BlockComment(b[1..]);
      }
    }
  }

  lemma {:induction false} QuotedClean(b: string)
    ensures CleanQuoted(Quoted(b))
    decreases |b|, 0
  {
    if b == "" {
    } else if b[0] == '\\' && |b| >= 2 {
      QuotedClean(b[2..]);
      assert (b[..2] + Quoted(b[2..]))[2..] == Quoted(b[2..]);
    } else if b[0] == '"' {
      CodeClean(b[1..]);
      assert ("\"" + Code(b[1..]))[1..] == Code(b[1..]);
    } else {
      QuotedClean(b[1..]);
      assert ([b[0]] + Quoted(b[1..]))[1..] == Quoted(b[1..]);
    }
  }

  /** Bytes of multi-byte characters are neutral to the scanner. */
  lemma {:induction false} NeutralPrefix(p: string, tail: string)
    requires forall i | 0 <= i < |p| :: p[i] as int >= 0x80
    ensures Clean(p + tail) <==> Clean(tail)
    ensures CleanQuoted(p + tail) <==> CleanQuoted(tail)
  {
    if p == "" {
      assert p + tail == tail;
    } else {
      assert (p + tail)[1..] == p[1..] + tail;
      NeutralPrefix(p[1..], tail);
    }
  }

  /** Encoding starts with the same byte for an ASCII character, else with a neutral one. */
  lemma Utf8Head(s: string)
    requires s != ""
    ensures Utf8(s) != "" && (s[0] as int < 0x80 ==> Utf8(s)[0] == s[0] && Utf8(s)[1..] == Utf8(s[1..]))
    ensures s[0] as int >= 0x80 ==> Utf8(s)[0] as int >= 0x80
  {
  }

  lemma {:induction false} Utf8Clean(s: string)
    ensures Clean(Utf8(s)) <==> Clean(s)
    ensures CleanQuoted(Utf8(s)) <==> CleanQuoted(s)
    decreases |s|
  {
    if s != "" {
      Utf8Head(s);
      Utf8Clean(s[1..]);
      if s[0] as int >= 0x80 {
        NeutralPrefix(Utf8Char(s[0]), Utf8(s[1..]));
      } else if |s| >= 2 {
        Utf8Head(s[1..]);
        assert s[1..][1..] == s[2..];
        Utf8Clean(s[2..]);
        if s[1] as int >= 0x80 {
          Utf8EscapedHead(s);
        } else {
          assert Utf8(s)[2..] == Utf8(s)[1..][1..];
        }
      }
    }
  }

  /** A backslash before a multi-byte character takes its first byte; the rest is neutral. */
  lemma Utf8EscapedHead(s: string)
    requires |s| >= 2 && s[0] as int < 0x80 && s[1] as int >= 0x80
    ensures |Utf8(s)| >= 2 && (CleanQuoted(Utf8(s)[2..]) <==> CleanQuoted(Utf8(s[2..])))
  {
    hide Utf8, Utf8Char, Clean, CleanQuoted;
    Utf8Cons(s);
    Utf8Cons(s[1..]);
    assert s[1..][1..] == s[2..];
    var bytes := Utf8Char(s[1]);
    assert Utf8(s)[2..] == bytes[1..] + Utf8(s[2..]);
    NeutralPrefix(bytes[1..], Utf8(s[2..]));
  }

  lemma Utf8Cons(s: string)
    requires s != ""
    ensures Utf8(s) == Utf8Char(s[0]) + Utf8(s[1..])
  {
  }

  /** MAIN RESULT. Stripping changes nothing exactly on ASCII texts without comments. */
  lemma StripIdentity(s: string)
    ensures Strip(s) == s <==> (IsAscii(s) && Clean(s))
  {
    Utf8Length(s);
    Utf8Clean(s);
    CodeIdentity(Utf8(s));
    CodeClean(Utf8(s));
    if IsAscii(s) { Utf8Ascii(s); }
  }

  /** On text without comments stripping is the re-encoding of its bytes. */
  lemma StripClean(s: string)
    requires Clean(s)
    ensures Strip(s) == Utf8(s)
  {
    Utf8Clean(s);
    CodeIdentity(Utf8(s));
  }

  /** Stripping twice is stripping once exactly when what is left is ASCII:
      comments never survive, but other characters are re-encoded each time. */
  lemma StripTwice(s: string)
    ensures Strip(Strip(s)) == Strip(s) <==> IsAscii(Strip(s))
  {
    CodeClean(Utf8(s));
    StripIdentity(Strip(s));
  }
}
