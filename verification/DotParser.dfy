/** The parser as it runs: one cursor over the input that every parser
    advances (crates/attractor-dot/src/parser.rs, parser_primitives.rs). A
    parser that fails puts the cursor back, as `alt` and `opt` do. */
module DotParser {
  import opened Wrappers
  import opened DotAst
  import opened DotLex
  import opened DotGrammar
  import opened DotMerge
  import opened DotComments
  import opened DotTheorems

  class Cursor {
    var rest: string

    constructor (input: string)
      ensures rest == input
    {
      rest := input;
    }

    /** `r` is what `parsed` says, and the cursor moved from `before` to `after` accordingly. */
    static ghost predicate Advanced<T>(r: Parsed<T>, parsed: Parsed<T>, before: string, after: string) {
      r == parsed && after == if parsed.Ok? then parsed.rest else before
    }

    /** `a` in front of what is still to be parsed. */
    static ghost function Prepend<T>(a: seq<T>, r: Parsed<seq<T>>): Parsed<seq<T>> {
      if r.Ok? then Ok(a + r.value, r.rest) else r
    }

    static lemma PrependNothing<T>(r: Parsed<seq<T>>)
      ensures Prepend([], r) == r
    {
      if r.Ok? { assert [] + r.value == r.value; }
    }

    static lemma PrependTwice<T>(a: seq<T>, b: seq<T>, r: Parsed<seq<T>>)
      ensures Prepend(a, Prepend(b, r)) == Prepend(a + b, r)
    {
      if r.Ok? { assert a + (b + r.value) == a + b + r.value; }
    }

    static lemma PrependEnd<T>(a: seq<T>, rest: string)
      ensures Prepend(a, Ok([], rest)) == Ok(a, rest)
    {
      assert a + [] == a;
    }

    /** How many characters at the start satisfy `p`. */
    method CountWhile(p: char -> bool) returns (n: nat)
      ensures n == Span(rest, p)
    {
      n := 0;
      assert rest[0..] == rest;
      while n < |rest| && p(rest[n])
        invariant n <= |rest|
        invariant n + Span(rest[n..], p) == Span(rest, p)
      {
        assert rest[n..][1..] == rest[n + 1..];
        n := n + 1;
      }
    }

    method Ws()
      modifies this
      ensures rest == SkipWs(old(rest))
    {
      var n := CountWhile(IsSpace);
      rest := rest[n..];
    }

    /** Consumes `literal` when the input starts with it. */
    method Literal(literal: string) returns (found: bool)
      modifies this
      ensures found == (literal <= old(rest))
      ensures rest == if found then old(rest)[|literal|..] else old(rest)
    {
      found := literal <= rest;
      if found {
        rest := rest[|literal|..];
      }
    }

    /** Consumes one character when it is `c`. */
    method Char(c: char) returns (found: bool)
      modifies this
      ensures found == (old(rest) != "" && old(rest)[0] == c)
      ensures rest == if found then old(rest)[1..] else old(rest)
      ensures rest == SkipChar(old(rest), c)
    {
      found := rest != "" && rest[0] == c;
      if found {
        rest := rest[1..];
      }
    }

    method IdentifierLen() returns (n: nat)
      ensures n == IdentLen(rest)
    {
      n := 0;
      if rest != "" && IsIdentStart(rest[0]) {
        n := CountWhile(IsIdentChar);
      }
    }

    method ParseIdentifier() returns (r: Parsed<string>)
      modifies this
      ensures Advanced(r, Identifier(old(rest)), old(rest), rest)
    {
      var n := IdentifierLen();
      r := Take(rest, n);
      if r.Ok? {
        rest := r.rest;
      }
    }

    /** What follows position `n` of `s`, when more of a qualified id may. */
    static lemma DottedAt(s: string, n: nat)
      requires n <= |s|
      ensures (n == |s| || s[n] != '.') ==> DottedLen(s[n..]) == 0
      ensures n < |s| && s[n] == '.' ==>
                var m := IdentLen(s[n + 1..]);
                n + 1 + m <= |s| && DottedLen(s[n..]) == if m == 0 then 0 else 1 + m + DottedLen(s[n + 1 + m..])
    {
      hide IdentLen;
      if n < |s| && s[n] == '.' {
        var m := IdentLen(s[n + 1..]);
        assert s[n..][1..] == s[n + 1..] && s[n..][1 + m..] == s[n + 1 + m..];
      }
    }

    /** An identifier, then `('.' identifier)*`. */
    method ParseQualifiedId() returns (r: Parsed<string>)
      modifies this
      ensures Advanced(r, QualifiedId(old(rest)), old(rest), rest)
    {
      hide IdentLen, DottedLen;
      var s := rest;
      var n := IdentifierLen();
      if n == 0 {
        return Backtrack;
      }
      ghost var first := n;
      rest := s[n..];
      while true
        invariant first <= n <= |s| && rest == s[n..]
        invariant n + DottedLen(s[n..]) == first + DottedLen(s[first..])
        decreases |s| - n
      {
        DottedAt(s, n);
        if rest == "" || rest[0] != '.' {
          break;
        }
        rest := s[n + 1..];
        var m := IdentifierLen();
        if m == 0 {
          break;
        }
        n := n + 1 + m;
        rest := s[n..];
      }
      r := Ok(s[..n], s[n..]);
      rest := s[n..];
    }

    /** The loop over the characters of a quoted string. */
    method ParseQuotedString() returns (r: Parsed<string>)
      modifies this
      ensures Advanced(r, QuotedString(old(rest)), old(rest), rest)
    {
      var s := rest;
      if s == "" || s[0] != '"' {
        return Backtrack;
      }
      hide QuotedBody;
      var text := "";
      rest := s[1..];
      ghost var goal := QuotedBody(rest);
      PrependNothing(goal);
      while true
        invariant goal == Prepend(text, QuotedBody(rest)) && |rest| < |s|
        decreases |rest|
      {
        BodyStep(rest);
        ghost var here, soFar := rest, text;
        if rest == "" {
          rest := s;
          return Backtrack;
        }
        var c := rest[0];
        rest := rest[1..];
        if c == '"' {
          PrependEnd(text, rest);
          return Ok(text, rest);
        } else if c == '\\' {
          if rest == "" {
            rest := s;
            return Backtrack;
          }
          text := text + Unescape(rest[0]);
          rest := rest[1..];
          PrependTwice(soFar, Unescape(here[1]), QuotedBody(rest));
        } else {
          text := text + [c];
          PrependTwice(soFar, [c], QuotedBody(rest));
        }
      }
    }

    static lemma BodyStep(s: string)
      ensures s == "" || s == "\\" ==> QuotedBody(s) == Backtrack
      ensures s != "" && s[0] == '"' ==> QuotedBody(s) == Ok("", s[1..])
      ensures s != "" && s[0] != '"' && s[0] != '\\' ==> QuotedBody(s) == Prepend([s[0]], QuotedBody(s[1..]))
      ensures |s| >= 2 && s[0] == '\\' ==> QuotedBody(s) == Prepend(Unescape(s[1]), QuotedBody(s[1..][1..])) && s[1..][0] == s[1]
    {
      if |s| >= 2 {
        assert s[1..][1..] == s[2..];
      }
    }

    /** The alternatives of a value, each tried from the same place. */
    method ParseAttrValue() returns (r: Parsed<Value>)
      modifies this
      ensures Advanced(r, AttrValue(old(rest)), old(rest), rest)
    {
      hide QuotedString, BooleanValue, DurationValue, FloatValue, IntegerValue;
      var quoted := ParseQuotedString();
      if quoted.Ok? {
        return Ok(Str(quoted.value), quoted.rest);
      }
      r := ParseBoolean();
      if r.Ok? { return; }
      r := ParseDuration();
      if r.Ok? { return; }
      r := ParseFloat();
      if r.Ok? { return; }
      r := ParseInteger();
    }

    method ParseBoolean() returns (r: Parsed<Value>)
      modifies this
      ensures Advanced(r, BooleanValue(old(rest)), old(rest), rest)
    {
      var found := Literal("true");
      if found {
        return Ok(Boolean(true), rest);
      }
      found := Literal("false");
      r := if found then Ok(Boolean(false), rest) else Backtrack;
    }

    method ParseDuration() returns (r: Parsed<Value>)
      modifies this
      ensures Advanced(r, DurationValue(old(rest)), old(rest), rest)
    {
      hide Unit;
      var n := CountWhile(IsDigit);
      if n == 0 || Numeral(rest[..n]) > U64_MAX {
        return Backtrack;
      }
      match Unit(rest[n..], Numeral(rest[..n])) {
        case Some((suffix, ms)) =>
          r := Ok(Duration(ms), rest[n + suffix..]);
          rest := r.rest;
        case None =>
          r := Backtrack;
      }
    }

    method ParseFloat() returns (r: Parsed<Value>)
      modifies this
      ensures Advanced(r, FloatValue(old(rest)), old(rest), rest)
    {
      hide Span;
      var s := rest;
      var sign := Sign(s);
      rest := s[sign..];
      var digits := CountWhile(IsDigit);
      var whole := sign + digits;
      if digits == 0 || whole == |s| || s[whole] != '.' {
        rest := s;
        return Backtrack;
      }
      rest := s[whole + 1..];
      var fraction := CountWhile(IsDigit);
      if fraction == 0 {
        rest := s;
        return Backtrack;
      }
      rest := s[whole + 1 + fraction..];
      r := Ok(Float(s[..whole + 1 + fraction]), rest);
    }

    static lemma IntegerOf(s: string, sign: nat, n: nat)
      requires sign == Sign(s) && n == Span(s[sign..], IsDigit)
      ensures n == 0 ==> IntegerValue(s) == Backtrack
      ensures n > 0 ==>
                var i := Numeral(s[sign..][..n]);
                var value := if sign == 1 && s[0] == '-' then 0 - i else i;
                IntegerValue(s) == if I64_MIN <= value <= I64_MAX then Ok(Integer(value), s[sign..][n..]) else Backtrack
    {
      hide Span, Numeral;
    }

    method ParseInteger() returns (r: Parsed<Value>)
      modifies this
      ensures Advanced(r, IntegerValue(old(rest)), old(rest), rest)
    {
      hide Span, Numeral, IntegerValue;
      var s := rest;
      var sign := Sign(s);
      rest := s[sign..];
      var n := CountWhile(IsDigit);
      IntegerOf(s, sign, n);
      if n == 0 {
        rest := s;
        return Backtrack;
      }
      var i: int := Numeral(rest[..n]);
      if sign == 1 && s[0] == '-' {
        i := 0 - i;
      }
      if !(I64_MIN <= i <= I64_MAX) {
        rest := s;
        return Backtrack;
      }
      rest := rest[n..];
      r := Ok(Integer(i), rest);
    }

    method ParseAttr() returns (r: Parsed<(string, Value)>)
      modifies this
      ensures Advanced(r, Attr(old(rest)), old(rest), rest)
    {
      hide QualifiedId, AttrValue, SkipWs;
      var s := rest;
      var key := ParseQualifiedId();
      if !key.Ok? {
        return Backtrack;
      }
      Ws();
      var found := Char('=');
      if !found {
        rest := s;
        return Backtrack;
      }
      Ws();
      var value := ParseAttrValue();
      if !value.Ok? {
        rest := s;
        return Backtrack;
      }
      r := Ok((key.value, value.value), value.rest);
    }

    method Separator()
      modifies this
      ensures rest == SkipSeparator(old(rest))
    {
      hide SkipWs;
      Ws();
      if rest != "" && (rest[0] == ',' || rest[0] == ';') {
        rest := rest[1..];
      }
      Ws();
    }

    /** `'['`, then a loop that inserts one attribute at a time, then `']'`. */
    method ParseAttrBlock() returns (r: Parsed<Attrs>)
      modifies this
      ensures Advanced(r, AttrBlock(old(rest)), old(rest), rest)
    {
      hide Attr, SkipSeparator, SkipWs;
      var s := rest;
      var found := Char('[');
      if !found {
        return Backtrack;
      }
      Ws();
      ghost var goal := AttrsOf(rest);
      var attrs: Attrs := map[];
      var first := ParseAttr();
      if first.Ok? {
        attrs := map[first.value.0 := first.value.1];
        while true
          invariant AttrsFrom(attrs, rest) == goal
          decreases |rest|
        {
          Separator();
          var next := ParseAttr();
          if !next.Ok? {
            break;
          }
          attrs := attrs[next.value.0 := next.value.1];
        }
      }
      assert goal == (attrs, rest);
      Ws();
      found := Char(']');
      if found {
        r := Ok(attrs, rest);
      } else {
        rest := s;
        r := Backtrack;
      }
    }

    method ParseOptionalBlock() returns (attrs: Attrs)
      modifies this
      ensures (attrs, rest) == OptionalBlock(old(rest))
    {
      hide AttrBlock;
      var block := ParseAttrBlock();
      attrs := if block.Ok? then block.value else map[];
    }

    method End()
      modifies this
      ensures rest == EndStatement(old(rest))
    {
      hide SkipWs;
      Ws();
      var found := Char(';');
    }

    method ParseKeywordBlock(keyword: string) returns (r: Parsed<Attrs>)
      modifies this
      ensures Advanced(r, KeywordBlock(old(rest), keyword), old(rest), rest)
    {
      hide AttrBlock, SkipWs, EndStatement;
      var s := rest;
      var found := Literal(keyword);
      if !found {
        return Backtrack;
      }
      Ws();
      r := ParseAttrBlock();
      if !r.Ok? {
        rest := s;
        return Backtrack;
      }
      End();
      r := Ok(r.value, rest);
    }

    /** The loop over `-> id`. */
    method ParseChain() returns (r: Parsed<seq<string>>)
      modifies this
      ensures Advanced(r, ChainFrom(old(rest)), old(rest), rest)
    {
      hide Identifier, SkipWs, ChainFrom;
      var s := rest;
      var chain: seq<string> := [];
      PrependNothing(ChainFrom(s));
      while true
        invariant ChainFrom(s) == Prepend(chain, ChainFrom(rest)) && |rest| <= |s|
        decreases |rest|
      {
        ghost var here, soFar := rest, chain;
        ChainStep(here);
        Ws();
        var found := Literal("->");
        if !found {
          PrependEnd(chain, rest);
          return Ok(chain, rest);
        }
        Ws();
        var id := ParseIdentifier();
        if !id.Ok? {
          rest := s;
          return Backtrack;
        }
        chain := chain + [id.value];
        PrependTwice(soFar, [id.value], ChainFrom(rest));
      }
    }

    static lemma ChainStep(s: string)
      ensures !("->" <= SkipWs(s)) ==> ChainFrom(s) == Ok([], SkipWs(s))
      ensures "->" <= SkipWs(s) ==>
        match Identifier(SkipWs(SkipWs(s)[2..]))
        case Ok(id, after) => ChainFrom(s) == Prepend([id], ChainFrom(after))
        case _ => ChainFrom(s) == Backtrack
    {
      hide Identifier, SkipWs;
    }

    method ParseEdgeRest(first: string) returns (r: Parsed<Statement>)
      modifies this
      ensures Advanced(r, EdgeRest(first, old(rest)), old(rest), rest)
    {
      hide Identifier, SkipWs, ChainFrom, OptionalBlock, EndStatement;
      var s := rest;
      Ws();
      var second := ParseIdentifier();
      if !second.Ok? {
        rest := s;
        return Backtrack;
      }
      var more := ParseChain();
      if !more.Ok? {
        rest := s;
        return Backtrack;
      }
      Ws();
      var attrs := ParseOptionalBlock();
      End();
      r := Ok(Edge([first, second.value] + more.value, attrs), rest);
    }

    method ParseNodeOrEdge() returns (r: Parsed<Statement>)
      modifies this
      ensures Advanced(r, NodeOrEdge(old(rest)), old(rest), rest)
    {
      hide Identifier, SkipWs, EdgeRest, OptionalBlock, EndStatement, AttrValue;
      var s := rest;
      var first := ParseIdentifier();
      if !first.Ok? {
        return Backtrack;
      }
      Ws();
      var found := Literal("->");
      if found {
        r := ParseEdgeRest(first.value);
        if !r.Ok? {
          rest := s;
        }
        return;
      }
      found := Literal("--");
      if found {
        rest := s;
        return Cut;
      }
      var attrs := ParseOptionalBlock();
      Ws();
      if attrs != map[] {
        found := Char(';');
        return Ok(Node(first.value, attrs), rest);
      }
      found := Char('=');
      if found {
        Ws();
        var value := ParseAttrValue();
        if !value.Ok? {
          rest := s;
          return Backtrack;
        }
        End();
        return Ok(GraphAttrDecl(first.value, value.value), rest);
      }
      found := Char(';');
      r := Ok(Node(first.value, map[]), rest);
    }

    method ParseSubgraph() returns (r: Parsed<Statement>)
      modifies this
      ensures Advanced(r, SubgraphStmt(old(rest)), old(rest), rest)
      decreases |rest|, 0
    {
      hide Identifier, SkipWs, EndStatement, Statements;
      var s := rest;
      var found := Literal("subgraph");
      if !found {
        return Backtrack;
      }
      Ws();
      var id := ParseIdentifier();
      var name := if id.Ok? then Some(id.value) else None;
      Ws();
      found := Char('{');
      if !found {
        rest := s;
        return Backtrack;
      }
      Ws();
      var body := ParseStatements();
      if !body.Ok? {
        rest := s;
        return if body.Cut? then Cut else Backtrack;
      }
      Ws();
      found := Char('}');
      if !found {
        rest := s;
        return Backtrack;
      }
      End();
      r := Ok(Subgraph(name, body.value), rest);
    }

    method ParseStatement() returns (r: Parsed<Statement>)
      modifies this
      ensures Advanced(r, OneStatement(old(rest)), old(rest), rest)
      decreases |rest|, 1
    {
      hide SkipWs, KeywordBlock, SubgraphStmt, NodeOrEdge;
      var s := rest;
      Ws();
      var block := ParseKeywordBlock("graph");
      if block.Ok? { return Ok(GraphAttrs(block.value), rest); }
      block := ParseKeywordBlock("node");
      if block.Ok? { return Ok(NodeDefaults(block.value), rest); }
      block := ParseKeywordBlock("edge");
      if block.Ok? { return Ok(EdgeDefaults(block.value), rest); }
      r := ParseSubgraph();
      if r.Backtrack? {
        r := ParseNodeOrEdge();
      }
      if !r.Ok? {
        rest := s;
      }
    }

    /** The loop over statements. */
    method ParseStatements() returns (r: Parsed<seq<Statement>>)
      modifies this
      ensures Advanced(r, Statements(old(rest)), old(rest), rest)
      decreases |rest|, 2
    {
      hide SkipWs, OneStatement, Statements;
      var s := rest;
      var stmts: seq<Statement> := [];
      PrependNothing(Statements(s));
      while true
        invariant |rest| <= |s|
        invariant Statements(s) == Prepend(stmts, Statements(rest))
        decreases |rest|
      {
        ghost var here, soFar := rest, stmts;
        StatementsStep(here);
        Ws();
        if rest == "" || rest[0] == '}' {
          PrependEnd(stmts, rest);
          return Ok(stmts, rest);
        }
        var st := ParseStatement();
        if !st.Ok? {
          rest := s;
          return if st.Cut? then Cut else Backtrack;
        }
        stmts := stmts + [st.value];
        PrependTwice(soFar, [st.value], Statements(rest));
      }
    }

    static lemma StatementsStep(s: string)
      ensures SkipWs(s) == "" || SkipWs(s)[0] == '}' ==> Statements(s) == Ok([], SkipWs(s))
      ensures SkipWs(s) != "" && SkipWs(s)[0] != '}' ==>
        match OneStatement(SkipWs(s))
        case Ok(st, after) => Statements(s) == Prepend([st], Statements(after))
        case Cut => Statements(s) == Cut
        case Backtrack => Statements(s) == Backtrack
    {
      hide SkipWs, OneStatement;
    }

    method ParseDigraph() returns (r: Parsed<(string, seq<Statement>)>)
      modifies this
      ensures r == Digraph(old(rest))
    {
      hide Identifier, SkipWs, Statements;
      Ws();
      var found := Literal("digraph");
      if !found {
        return Backtrack;
      }
      Ws();
      var name := ParseIdentifier();
      if !name.Ok? {
        return Backtrack;
      }
      Ws();
      found := Char('{');
      if !found {
        return Backtrack;
      }
      Ws();
      var body := ParseStatements();
      if !body.Ok? {
        return if body.Cut? then Cut else Backtrack;
      }
      Ws();
      found := Char('}');
      if !found {
        return Backtrack;
      }
      Ws();
      r := Ok((name.value, body.value), rest);
    }
  }

  /** `parse`: strip comments, run the cursor over what is left, merge. */
  method ParseDot(input: string) returns (g: Option<DotGraph>)
    ensures g == Parse(input)
  {
    hide Digraph, Strip, MergeFrom;
    var stripped := StripComments(input);
    var cursor := new Cursor(stripped);
    var parsed := cursor.ParseDigraph();
    if !parsed.Ok? {
      return None;
    }
    var sc := MergeStatements(parsed.value.1, map[], map[]);
    g := Some(Graph(parsed.value.0, sc));
  }
}
