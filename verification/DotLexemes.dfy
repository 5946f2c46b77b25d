/** Reading back what was printed: identifiers, keys and values. */
module DotLexemes {
  import opened DotAst
  import opened DotLex
  import opened DotGrammar
  import opened DotPrint

  // ---------------------------------------------------------------------
  // Spans
  // ---------------------------------------------------------------------

  ghost predicate All(s: string, p: char -> bool) { forall i | 0 <= i < |s| :: p(s[i]) }

  lemma {:induction false} SpanExact(a: string, b: string, p: char -> bool)
    requires All(a, p) && !StartsWith(b, p)
    ensures Span(a + b, p) == |a| && (a + b)[..|a|] == a && (a + b)[|a|..] == b
    decreases |a|
  {
    if a == "" {
      assert a + b == b;
    } else {
      assert (a + b)[1..] == a[1..] + b;
      SpanExact(a[1..], b, p);
    }
  }

  /** A span depends only on the characters up to the one after it. */
  lemma {:induction false} SpanPrefix(s: string, n: nat, p: char -> bool)
    requires Span(s, p) <= n <= |s|
    ensures Span(s[..n], p) == Span(s, p)
    decreases |s|
  {
    if StartsWith(s, p) {
      assert s[..n][1..] == s[1..][..n - 1];
      SpanPrefix(s[1..], n - 1, p);
    }
  }

  lemma SkipWsNone(s: string)
    requires !StartsWith(s, IsSpace)
    ensures SkipWs(s) == s
  {
  }

  lemma SkipWsTwice(s: string)
    ensures !StartsWith(SkipWs(s), IsSpace) && SkipWs(SkipWs(s)) == SkipWs(s)
  {
  }

  lemma SkipWsOne(c: char, s: string)
    requires IsSpace(c)
    ensures SkipWs([c] + s) == SkipWs(s)
  {
    assert ([c] + s)[1..] == s;
    assert Span([c] + s, IsSpace) == 1 + Span(s, IsSpace);
  }

  lemma {:induction false} SkipIndent(depth: nat, s: string)
    ensures SkipWs(Indent(depth, s)) == SkipWs(s)
  {
    if depth > 0 {
      SkipIndent(depth - 1, s);
      SkipFour(Indent(depth - 1, s));
    }
  }

  lemma SkipFour(s: string)
    ensures SkipWs("    " + s) == SkipWs(s)
  {
    assert "    " + s == [' '] + ([' '] + ([' '] + ([' '] + s)));
    SkipWsOne(' ', s);
    SkipWsOne(' ', [' '] + s);
    SkipWsOne(' ', [' '] + ([' '] + s));
    SkipWsOne(' ', [' '] + ([' '] + ([' '] + s)));
  }

  // ---------------------------------------------------------------------
  // Identifiers and keys
  // ---------------------------------------------------------------------

  ghost predicate IsIdent(id: string) { StartsWith(id, IsIdentStart) && All(id, IsIdentChar) }

  lemma IdentAt(id: string, tail: string)
    requires IsIdent(id) && !StartsWith(tail, IsIdentChar)
    ensures IdentLen(id + tail) == |id| && Identifier(id + tail) == Ok(id, tail)
  {
    SpanExact(id, tail, IsIdentChar);
  }

  lemma IdentSound(s: string)
    ensures Identifier(s).Ok? ==> IsIdent(Identifier(s).value) && !StartsWith(Identifier(s).rest, IsIdentChar)
    ensures Identifier(s).Ok? ==> s == Identifier(s).value + Identifier(s).rest
  {
  }

  /** A qualified id, as the parser accepts it. */
  ghost predicate IsKey(k: string) { k != "" && QualifiedLen(k) == |k| }

  predicate KeyEnd(tail: string) { !StartsWith(tail, IsIdentChar) && !(tail != "" && tail[0] == '.') }

  lemma DottedCons(id: string, rest: string)
    requires IsIdent(id) && !StartsWith(rest, IsIdentChar)
    ensures DottedLen("." + (id + rest)) == 1 + |id| + DottedLen(rest)
  {
    var s := "." + (id + rest);
    assert s[1..] == id + rest;
    IdentAt(id, rest);
    assert s[1 + |id|..] == rest;
  }

  lemma QualifiedCons(id: string, rest: string)
    requires IsIdent(id) && !StartsWith(rest, IsIdentChar)
    ensures QualifiedLen(id + rest) == |id| + DottedLen(rest)
  {
    IdentAt(id, rest);
    assert (id + rest)[|id|..] == rest;
  }

  /** The parts of a dotted tail. */
  lemma DottedParts(a: string) returns (id: string, rest: string)
    requires a != "" && DottedLen(a) == |a|
    ensures IsIdent(id) && a == "." + (id + rest) && |rest| < |a| && DottedLen(rest) == |rest|
    ensures !StartsWith(rest, IsIdentChar)
  {
    hide Span;
    var n := IdentLen(a[1..]);
    id, rest := a[1..][..n], a[1..][n..];
    assert a[1 + n..] == rest;
  }

  /** One part of a dotted tail, or its end. */
  lemma DottedUnfold(s: string)
    ensures var n := if s != "" then IdentLen(s[1..]) else 0;
      DottedLen(s) == if s != "" && s[0] == '.' && n > 0 then 1 + n + DottedLen(s[1 + n..]) else 0
  {
    hide IdentLen;
  }

  lemma {:induction false} DottedAt(a: string, tail: string)
    requires DottedLen(a) == |a| && KeyEnd(tail)
    ensures DottedLen(a + tail) == |a|
    decreases |a|
  {
    hide DottedLen, IdentLen, Span;
    if a == "" {
      assert a + tail == tail;
      DottedUnfold(tail);
    } else {
      var id, rest := DottedParts(a);
      DottedAt(rest, tail);
      StartOfConcat(rest, tail);
      DottedCons(id, rest + tail);
      assert a + tail == "." + (id + (rest + tail));
    }
  }

  lemma StartOfConcat(a: string, b: string)
    requires !StartsWith(a, IsIdentChar) && !StartsWith(b, IsIdentChar)
    ensures !StartsWith(a + b, IsIdentChar)
  {
  }

  lemma TakeAt(a: string, b: string)
    requires a != ""
    ensures Take(a + b, |a|) == Ok(a, b)
  {
  }

  lemma KeyParts(k: string) returns (id: string, rest: string)
    requires IsKey(k)
    ensures IsIdent(id) && k == id + rest && DottedLen(rest) == |rest| && !StartsWith(rest, IsIdentChar)
  {
    id, rest := k[..IdentLen(k)], k[IdentLen(k)..];
  }

  lemma QualifiedAt(k: string, tail: string)
    requires IsKey(k) && KeyEnd(tail)
    ensures QualifiedId(k + tail) == Ok(k, tail)
  {
    hide QualifiedLen, IdentLen;
    var id, rest := KeyParts(k);
    QualifiedLenAt(id, rest, tail);
    assert k + tail == id + (rest + tail);
    assert QualifiedLen(k + tail) == |k|;
    TakeAt(k, tail);
  }

  lemma QualifiedLenAt(id: string, rest: string, tail: string)
    requires IsIdent(id) && !StartsWith(rest, IsIdentChar) && DottedLen(rest) == |rest| && KeyEnd(tail)
    ensures QualifiedLen(id + (rest + tail)) == |id| + |rest|
  {
    DottedAt(rest, tail);
    StartOfConcat(rest, tail);
    QualifiedCons(id, rest + tail);
  }

  lemma {:induction false} DottedPrefix(s: string)
    ensures DottedLen(s[..DottedLen(s)]) == DottedLen(s)
    decreases |s|
  {
    hide Span, IdentLen, DottedLen;
    var d := DottedLen(s);
    DottedUnfold(s);
    DottedUnfold(s[..d]);
    if d > 0 {
      var n := 1 + IdentLen(s[1..]);
      DottedPrefix(s[n..]);
      assert s[..d][1..] == s[1..][..d - 1];
      IdentPrefix(s[1..], d - 1);
      assert s[..d][n..] == s[n..][..d - n];
    }
  }

  /** Cutting behind an identifier leaves it as it is. */
  lemma IdentPrefix(s: string, k: nat)
    requires IdentLen(s) <= k <= |s|
    ensures IdentLen(s[..k]) == if k == 0 then 0 else IdentLen(s)
  {
    hide Span;
    if StartsWith(s, IsIdentStart) { SpanPrefix(s, k, IsIdentChar); }
  }

  lemma QualifiedSound(s: string)
    ensures QualifiedId(s).Ok? ==> IsKey(QualifiedId(s).value)
  {
    hide Span, DottedLen;
    var q := QualifiedLen(s);
    if q > 0 {
      var n := IdentLen(s);
      DottedPrefix(s[n..]);
      SpanPrefix(s, q, IsIdentChar);
      assert s[..q][n..] == s[n..][..q - n];
    }
  }

  lemma IdentIsKey(id: string)
    requires IsIdent(id)
    ensures IsKey(id)
  {
    SpanExact(id, "", IsIdentChar);
    assert id + "" == id;
  }

  /** A key without a dot is an identifier; one with a dot splits after its first part. */
  lemma KeySplit(k: string)
    requires IsKey(k)
    ensures IsIdent(k[..IdentLen(k)]) && k == k[..IdentLen(k)] + k[IdentLen(k)..]
    ensures IdentLen(k) == |k| <==> IsIdent(k)
    ensures IdentLen(k) < |k| ==> k[IdentLen(k)] == '.'
  {
    if IsIdent(k) {
      SpanExact(k, "", IsIdentChar);
      assert k + "" == k;
    }
  }

  // ---------------------------------------------------------------------
  // Numbers and strings
  // ---------------------------------------------------------------------

  lemma {:induction false} DecimalDigits(n: nat)
    ensures Decimal(n) != "" && All(Decimal(n), IsDigit)
  {
    if n >= 10 { DecimalDigits(n / 10); }
  }

  lemma {:induction false} DecimalValue(n: nat)
    ensures All(Decimal(n), IsDigit) && Numeral(Decimal(n)) == n
  {
    DecimalDigits(n);
    if n >= 10 {
      DecimalValue(n / 10);
      assert Decimal(n)[..|Decimal(n)| - 1] == Decimal(n / 10);
    } else {
      assert Decimal(n)[..0] == "";
    }
  }

  lemma DecimalAt(n: nat, tail: string)
    requires !StartsWith(tail, IsDigit)
    ensures var s := Decimal(n) + tail;
      && Span(s, IsDigit) == |Decimal(n)| > 0 && s[..|Decimal(n)|] == Decimal(n) && s[|Decimal(n)|..] == tail
      && Numeral(Decimal(n)) == n
  {
    DecimalDigits(n);
    DecimalValue(n);
    SpanExact(Decimal(n), tail, IsDigit);
  }

  /** One printed character of a string body. */
  lemma QuotedStep(c: char, more: string)
    ensures c != '\\' && c != '"' ==>
      QuotedBody([c] + more) == match QuotedBody(more) case Ok(t, rest) => Ok([c] + t, rest) case _ => Backtrack
    ensures c == '\\' || c == '"' ==>
      QuotedBody(['\\', c] + more) == match QuotedBody(more) case Ok(t, rest) => Ok([c] + t, rest) case _ => Backtrack
  {
    assert ([c] + more)[1..] == more;
    assert (['\\', c] + more)[2..] == more;
  }

  lemma EscapeStep(s: string, end: string)
    requires s != ""
    ensures Escape(s) + end == (if s[0] == '\\' || s[0] == '"' then ['\\', s[0]] else [s[0]]) + (Escape(s[1..]) + end)
  {
    assert "\\\\" == ['\\', '\\'] && "\\\"" == ['\\', '"'];
  }

  lemma {:induction false} EscapedAt(s: string, tail: string)
    ensures QuotedBody(Escape(s) + ("\"" + tail)) == Ok(s, tail)
  {
    hide QuotedBody, Escape;
    var end := "\"" + tail;
    if s == "" {
      QuotedEnd(tail);
    } else {
      EscapedAt(s[1..], tail);
      EscapeStep(s, end);
      QuotedStep(s[0], Escape(s[1..]) + end);
      assert s == [s[0]] + s[1..];
    }
  }

  lemma QuotedEnd(tail: string)
    ensures QuotedBody(Escape("") + ("\"" + tail)) == Ok("", tail)
  {
    var end := "\"" + tail;
    assert Escape("") + end == end;
    assert end[1..] == tail;
  }

  // ---------------------------------------------------------------------
  // Values
  // ---------------------------------------------------------------------

  /** What the parser can produce: 64-bit integers, well-formed float lexemes. */
  ghost predicate LexValue(v: Value) {
    match v
    case Integer(i) => I64_MIN <= i <= I64_MAX
    case Float(lexeme) => lexeme != "" && FloatLen(lexeme) == |lexeme|
    case _ => true
  }

  /** Printed as milliseconds the duration still fits 64 bits. */
  predicate Fits(v: Value) { v.Duration? ==> v.millis <= U64_MAX }

  /** Nothing that a printed value is followed by continues it. */
  predicate ValueEnd(tail: string) { tail != "" && (tail[0] == ',' || tail[0] == ']' || tail[0] == '\n') }

  lemma FloatPrefix(s: string)
    ensures FloatLen(s[..FloatLen(s)]) == FloatLen(s)
  {
    hide Span;
    var f := FloatLen(s);
    if f > 0 {
      var sign := Sign(s);
      var whole := sign + Span(s[sign..], IsDigit);
      var t := s[..f];
      assert t[sign..] == s[sign..][..f - sign];
      SpanPrefix(s[sign..], f - sign, IsDigit);
      assert t[whole + 1..] == s[whole + 1..][..f - whole - 1];
      SpanPrefix(s[whole + 1..], f - whole - 1, IsDigit);
    }
  }

  lemma AttrValueSound(s: string)
    ensures AttrValue(s).Ok? ==> LexValue(AttrValue(s).value)
  {
    hide Span;
    FloatPrefix(s);
  }

  lemma NoOpening(s: string)
    requires s != "" && (IsDigit(s[0]) || s[0] == '-' || s[0] == '+')
    ensures !QuotedString(s).Ok? && !BooleanValue(s).Ok?
  {
  }

  lemma StrAt(text: string, tail: string)
    ensures AttrValue(FormatValue(Str(text)) + tail) == Ok(Str(text), tail)
  {
    var s := FormatValue(Str(text)) + tail;
    assert s == "\"" + (Escape(text) + ("\"" + tail));
    assert s[1..] == Escape(text) + ("\"" + tail);
    EscapedAt(text, tail);
  }

  lemma BooleanAt(b: bool, tail: string)
    ensures AttrValue(FormatValue(Boolean(b)) + tail) == Ok(Boolean(b), tail)
  {
    var s := FormatValue(Boolean(b)) + tail;
    if b {
      assert s == "true" + tail && s[..4] == "true" && s[4..] == tail;
    } else {
      assert s == "false" + tail && s[..5] == "false" && s[5..] == tail;
      assert s[0] == 'f';
    }
  }

  lemma DurationValueAt(n: nat, tail: string)
    ensures DurationValue(Decimal(n) + ("ms" + tail)) == if n <= U64_MAX then Ok(Duration(n), tail) else Backtrack
  {
    var unit := "ms" + tail;
    var s := Decimal(n) + unit;
    DecimalAt(n, unit);
    assert unit[..2] == "ms";
    assert s[|Decimal(n)| + 2..] == tail;
  }

  /** Digits that no `.` follows are an integer or nothing. */
  lemma UnsignedAt(n: nat, tail: string)
    requires !StartsWith(tail, IsDigit) && tail != "" && tail[0] != '.'
    ensures var s := Decimal(n) + tail;
      && s != "" && IsDigit(s[0]) && FloatLen(s) == 0
      && IntegerValue(s) == if n <= I64_MAX then Ok(Integer(n), tail) else Backtrack
  {
    hide Span, Decimal;
    var s := Decimal(n) + tail;
    DecimalAt(n, tail);
    DecimalDigits(n);
    assert s[0] == Decimal(n)[0];
    assert s[0..] == s;
    assert s[|Decimal(n)|] == tail[0];
  }

  lemma SignedAt(n: nat, tail: string)
    requires !StartsWith(tail, IsDigit) && tail != "" && tail[0] != '.'
    ensures var s := "-" + (Decimal(n) + tail);
      && FloatLen(s) == 0 && DurationValue(s) == Backtrack
      && IntegerValue(s) == if n <= -I64_MIN then Ok(Integer(0 - n), tail) else Backtrack
  {
    hide Span, Decimal;
    var body := Decimal(n) + tail;
    var s := "-" + body;
    DecimalAt(n, tail);
    assert s[1..] == body;
    assert s[1 + |Decimal(n)|] == tail[0];
  }

  lemma DurationAt(n: nat, tail: string)
    ensures AttrValue(FormatValue(Duration(n)) + tail) == if n <= U64_MAX then Ok(Duration(n), tail) else Backtrack
  {
    var s := Decimal(n) + ("ms" + tail);
    assert FormatValue(Duration(n)) + tail == s;
    DurationValueAt(n, tail);
    UnsignedAt(n, "ms" + tail);
    NoOpening(s);
  }

  lemma IntegerAt(i: int, tail: string)
    requires I64_MIN <= i <= I64_MAX && ValueEnd(tail)
    ensures AttrValue(FormatValue(Integer(i)) + tail) == Ok(Integer(i), tail)
  {
    hide AttrValue, FloatLen, DurationValue, IntegerValue, Decimal;
    if i < 0 {
      var s := "-" + (Decimal(-i) + tail);
      assert FormatValue(Integer(i)) + tail == s;
      SignedAt(-i, tail);
      OnlyInteger(s);
    } else {
      var s := Decimal(i) + tail;
      assert FormatValue(Integer(i)) + tail == s;
      UnsignedAt(i, tail);
      NoUnit(i, tail);
      OnlyInteger(s);
    }
  }

  /** What is neither a duration nor a float may be an integer. */
  lemma OnlyInteger(s: string)
    requires s != "" && (IsDigit(s[0]) || s[0] == '-' || s[0] == '+')
    requires DurationValue(s) == Backtrack && FloatLen(s) == 0
    ensures AttrValue(s) == IntegerValue(s)
  {
    hide QuotedString, BooleanValue, DurationValue, FloatLen, IntegerValue;
    NoOpening(s);
  }

  lemma NoUnit(n: nat, tail: string)
    requires ValueEnd(tail)
    ensures DurationValue(Decimal(n) + tail) == Backtrack
  {
    hide Span, Decimal;
    DecimalAt(n, tail);
    assert Unit(tail, n).None?;
  }

  /** The parts of a float lexeme. */
  lemma FloatParts(lexeme: string) returns (sign: string, whole: string, fraction: string)
    requires LexValue(Float(lexeme))
    ensures lexeme == sign + (whole + ("." + fraction))
    ensures sign == lexeme[..Sign(lexeme)] && whole != "" && All(whole, IsDigit) && fraction != "" && All(fraction, IsDigit)
  {
    hide Span;
    var n := Sign(lexeme);
    var m := Span(lexeme[n..], IsDigit);
    sign, whole, fraction := lexeme[..n], lexeme[n..][..m], lexeme[n + m + 1..];
    assert lexeme[n..] == whole + lexeme[n + m..];
    assert lexeme[n + m..] == "." + fraction;
  }

  lemma FloatLenOf(sign: string, whole: string, fraction: string, tail: string)
    requires sign == "" || sign == "-" || sign == "+"
    requires whole != "" && All(whole, IsDigit) && fraction != "" && All(fraction, IsDigit)
    requires !StartsWith(tail, IsDigit)
    ensures FloatLen(sign + (whole + ("." + (fraction + tail)))) == |sign| + |whole| + 1 + |fraction|
  {
    var rest := "." + (fraction + tail);
    var s := sign + (whole + rest);
    assert s[|sign|..] == whole + rest;
    assert Sign(s) == |sign|;
    SpanExact(whole, rest, IsDigit);
    assert s[|sign| + |whole|] == '.';
    assert s[|sign| + |whole| + 1..] == fraction + tail;
    SpanExact(fraction, tail, IsDigit);
  }

  /** Digits before a dot are no duration. */
  lemma NoDuration(whole: string, rest: string)
    requires whole != "" && All(whole, IsDigit)
    ensures DurationValue(whole + ("." + rest)) == Backtrack
  {
    SpanExact(whole, "." + rest, IsDigit);
    assert Unit("." + rest, Numeral(whole)).None?;
  }

  lemma FloatAt(lexeme: string, tail: string)
    requires LexValue(Float(lexeme)) && ValueEnd(tail)
    ensures AttrValue(lexeme + tail) == Ok(Float(lexeme), tail)
  {
    var sign, whole, fraction := FloatParts(lexeme);
    FloatLenOf(sign, whole, fraction, tail);
    FloatRegroup(sign, whole, fraction, tail);
    TakeAt(lexeme, tail);
    assert (lexeme + tail)[0] == lexeme[0];
    NoOpening(lexeme + tail);
    NoDuration(whole, fraction + tail);
  }

  lemma FloatRegroup(sign: string, whole: string, fraction: string, tail: string)
    requires whole != ""
    ensures sign + (whole + ("." + fraction)) + tail == sign + (whole + ("." + (fraction + tail)))
    ensures sign == "" ==> sign + (whole + ("." + (fraction + tail))) == whole + ("." + (fraction + tail))
    ensures |sign + (whole + ("." + fraction))| == |sign| + |whole| + 1 + |fraction|
  {
  }

  /** MAIN RESULT on values. Every value the parser produces is read back from
      its printed form as the same kind and value, unless it is a duration
      above 64 bits of milliseconds, which is not read back at all. */
  lemma ValueAt(v: Value, tail: string)
    requires LexValue(v) && ValueEnd(tail)
    ensures AttrValue(FormatValue(v) + tail) == if Fits(v) then Ok(v, tail) else Backtrack
  {
    match v
    case Str(s) => StrAt(s, tail);
    case Integer(i) => IntegerAt(i, tail);
    case Float(lexeme) => FloatAt(lexeme, tail);
    case Boolean(b) => BooleanAt(b, tail);
    case Duration(n) => DurationAt(n, tail);
  }
}
