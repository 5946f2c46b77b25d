/** Characters and lexemes of the dialect (crates/attractor-dot/src/parser_primitives.rs).
    Every parser takes the remaining input and returns what is left after it. */
module DotLex {
  import opened Wrappers
  import opened DotAst

  /** `Backtrack` lets an alternative be tried, `Cut` ends the parse. */
  datatype Parsed<+T> = Ok(value: T, rest: string) | Backtrack | Cut {
    predicate IsFailure() { !Ok? }

    function PropagateFailure<U>(): Parsed<U>
      requires IsFailure()
    {
      if Cut? then Cut else Backtrack
    }

    function Extract(): (T, string)
      requires !IsFailure()
    {
      (value, rest)
    }
  }

  const U64_MAX := 0xFFFF_FFFF_FFFF_FFFF
  const I64_MIN := -0x8000_0000_0000_0000
  const I64_MAX := 0x7FFF_FFFF_FFFF_FFFF

  predicate IsSpace(c: char) { c == ' ' || c == '\t' || c == '\r' || c == '\n' }

  predicate IsDigit(c: char) { '0' <= c <= '9' }

  predicate IsIdentStart(c: char) { 'a' <= c <= 'z' || 'A' <= c <= 'Z' || c == '_' }

  predicate IsIdentChar(c: char) { IsIdentStart(c) || IsDigit(c) }

  /** Input whose first character satisfies `p`. */
  predicate StartsWith(s: string, p: char -> bool) { s != "" && p(s[0]) }

  /** Length of the longest prefix of characters satisfying `p`. */
  function Span(s: string, p: char -> bool): (n: nat)
    ensures n <= |s|
    ensures forall i | 0 <= i < n :: p(s[i])
    ensures n < |s| ==> !p(s[n])
  {
    if StartsWith(s, p) then 1 + Span(s[1..], p) else 0
  }

  function SkipWs(s: string): (r: string)
    ensures |r| <= |s|
  {
    s[Span(s, IsSpace)..]
  }

  /** Length of an `[A-Za-z_][A-Za-z0-9_]*` at the start, 0 when there is none. */
  function IdentLen(s: string): (n: nat)
    ensures n <= |s|
  {
    if StartsWith(s, IsIdentStart) then Span(s, IsIdentChar) else 0
  }

  /** The first `n` characters, when there are any. */
  function Take(s: string, n: nat): (r: Parsed<string>)
    requires n <= |s|
    ensures r.Ok? ==> |r.rest| < |s|
    ensures !r.Cut?
  {
    if n == 0 then Backtrack else Ok(s[..n], s[n..])
  }

  function Identifier(s: string): (r: Parsed<string>)
    ensures r.Ok? ==> |r.rest| < |s|
    ensures !r.Cut?
  {
    Take(s, IdentLen(s))
  }

  /** Length of the `('.' identifier)*` after the first identifier of a qualified id. */
  function DottedLen(s: string): (n: nat)
    ensures n <= |s|
    decreases |s|
  {
    if s != "" && s[0] == '.' && IdentLen(s[1..]) > 0 then
      var n := 1 + IdentLen(s[1..]);
      n + DottedLen(s[n..])
    else 0
  }

  function QualifiedLen(s: string): (n: nat)
    ensures n <= |s|
  {
    var n := IdentLen(s);
    if n == 0 then 0 else n + DottedLen(s[n..])
  }

  function QualifiedId(s: string): (r: Parsed<string>)
    ensures r.Ok? ==> |r.rest| < |s|
    ensures !r.Cut?
  {
    Take(s, QualifiedLen(s))
  }

  /** The body of a quoted string up to and including the closing quote. */
  function QuotedBody(s: string): (r: Parsed<string>)
    ensures r.Ok? ==> |r.rest| < |s|
    ensures !r.Cut?
    decreases |s|
  {
    if s == "" then Backtrack
    else if s[0] == '"' then Ok("", s[1..])
    else if s[0] == '\\' then
      if |s| < 2 then Backtrack
      else
        var (more, rest) :- QuotedBody(s[2..]);
        Ok(Unescape(s[1]) + more, rest)
    else
      var (more, rest) :- QuotedBody(s[1..]);
      Ok([s[0]] + more, rest)
  }

  function Unescape(c: char): string {
    match c
    case 'n' => "\n"
    case 't' => "\t"
    case '\\' => "\\"
    case '"' => "\""
    case other => ['\\', other]
  }

  function QuotedString(s: string): (r: Parsed<string>)
    ensures r.Ok? ==> |r.rest| < |s|
    ensures !r.Cut?
  {
    if s != "" && s[0] == '"' then QuotedBody(s[1..]) else Backtrack
  }

  /** The number that a digit string denotes. */
  function Numeral(ds: string): nat
    requires forall i | 0 <= i < |ds| :: IsDigit(ds[i])
  {
    if ds == "" then 0
    else
      var last := ds[|ds| - 1];
      assert IsDigit(last);
      10 * Numeral(ds[..|ds| - 1]) + (last as int - '0' as int)
  }

  /** Length of the suffix, and the milliseconds that `n` of its unit make. The
      product by the unit wraps at 64 bits, as it does in a release build. */
  function Unit(s: string, n: nat): (r: Option<(nat, nat)>)
    ensures r.Some? ==> r.value.0 <= |s|
  {
    if "ms" <= s then Some((2, n))
    else if "s" <= s then Some((1, n * 1000))
    else if "m" <= s then Some((1, n * 60 % (U64_MAX + 1) * 1000))
    else if "h" <= s then Some((1, n * 3600 % (U64_MAX + 1) * 1000))
    else if "d" <= s then Some((1, n * 86400 % (U64_MAX + 1) * 1000))
    else None
  }

  function DurationValue(s: string): (r: Parsed<Value>)
    ensures r.Ok? ==> |r.rest| < |s| && r.value.Duration?
    ensures !r.Cut?
  {
    var n := Span(s, IsDigit);
    if n == 0 || Numeral(s[..n]) > U64_MAX then Backtrack
    else
      match Unit(s[n..], Numeral(s[..n]))
      case Some((suffix, ms)) => Ok(Duration(ms), s[n + suffix..])
      case None => Backtrack
  }

  function BooleanValue(s: string): (r: Parsed<Value>)
    ensures r.Ok? ==> |r.rest| < |s|
    ensures !r.Cut?
  {
    if "true" <= s then Ok(Boolean(true), s[4..])
    else if "false" <= s then Ok(Boolean(false), s[5..])
    else Backtrack
  }

  /** Length of an optional sign. */
  function Sign(s: string): (n: nat)
    ensures n <= |s| && n <= 1
  {
    if s != "" && (s[0] == '-' || s[0] == '+') then 1 else 0
  }

  /** Length of a `[-+]? digits '.' digits`, 0 when there is none. */
  function FloatLen(s: string): (n: nat)
    ensures n <= |s|
  {
    var whole := Sign(s) + Span(s[Sign(s)..], IsDigit);
    if whole == Sign(s) || whole == |s| || s[whole] != '.' then 0
    else
      var fraction := Span(s[whole + 1..], IsDigit);
      if fraction == 0 then 0 else whole + 1 + fraction
  }

  /** A float is kept as written. */
  function FloatValue(s: string): (r: Parsed<Value>)
    ensures r.Ok? ==> |r.rest| < |s| && r.value.Float?
    ensures !r.Cut?
  {
    var (lexeme, rest) :- Take(s, FloatLen(s));
    Ok(Float(lexeme), rest)
  }

  function IntegerValue(s: string): (r: Parsed<Value>)
    ensures r.Ok? ==> |r.rest| < |s| && r.value.Integer? && I64_MIN <= r.value.i <= I64_MAX
    ensures !r.Cut?
  {
    var sign := Sign(s);
    var n := Span(s[sign..], IsDigit);
    var i: int := if n == 0 then 0 else Numeral(s[sign..][..n]);
    var value := if sign == 1 && s[0] == '-' then 0 - i else i;
    if n > 0 && I64_MIN <= value <= I64_MAX then Ok(Integer(value), s[sign..][n..]) else Backtrack
  }
}
